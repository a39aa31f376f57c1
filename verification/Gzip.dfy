/** The compressing response writer: it holds the first bytes back until it knows whether the body is worth
    compressing. */
module Gzip {
  import opened Options

  type Byte = x: int | 0 <= x < 256
  type Bytes = seq<Byte>

  /** gzip, as far as the writer depends on it. */
  datatype Codec = Codec(encode: Bytes -> Bytes, decode: Bytes -> Bytes)

  ghost predicate RoundTrips(codec: Codec) {
    forall b: Bytes :: codec.decode(codec.encode(b)) == b
  }

  const COMPRESS_FLOOR := 1400

  // ---- the writer underneath: net/http's

  predicate Informational(status: int) {
    100 <= status < 200 && status != 101
  }

  /** statuses is every call of WriteHeader; status the one that was final. */
  datatype Out = Out(statuses: seq<int>, status: Option<int>, body: Bytes, gzip: bool)

  const Untouched := Out([], None, [], false)

  function SetStatus(out: Out, status: int): Out {
    out.(statuses := out.statuses + [status],
         status := if out.status.None? && !Informational(status) then Some(status) else out.status)
  }

  function Send(out: Out, b: Bytes): Out {
    out.(status := if out.status.None? then Some(200) else out.status, body := out.body + b)
  }

  /** What the client reads in the status line. */
  function Seen(out: Out): int {
    if out.status.Some? then out.status.value else 200
  }

  class Response {
    var out: Out

    constructor ()
      ensures out == Untouched
    {
      out := Untouched;
    }

    method WriteHeader(status: int)
      modifies this
      ensures out == SetStatus(old(out), status)
    {
      out := SetStatus(out, status);
    }

    method Write(b: Bytes)
      modifies this
      ensures out == Send(old(out), b)
    {
      out := Send(out, b);
    }

    method SetGzip()
      modifies this
      ensures out == old(out).(gzip := true)
    {
      out := out.(gzip := true);
    }
  }

  // ---- what a handler does, and what should come of it

  datatype Call = Header(status: int) | Body(bytes: Bytes)

  function Written(calls: seq<Call>): Bytes {
    if calls == [] then []
    else Written(calls[..|calls| - 1]) + (if calls[|calls| - 1].Body? then calls[|calls| - 1].bytes else [])
  }

  /** The status the first call fixes: its own, or 200 where it is a write. */
  function FirstStatus(calls: seq<Call>): int
    requires calls != []
  {
    if calls[0].Header? then calls[0].status else 200
  }

  predicate MayCarryBody(status: int) {
    status != 304 && status != 204 && status >= 200
  }

  predicate WorthCompressing(calls: seq<Call>) {
    calls != [] && MayCarryBody(FirstStatus(calls)) && |Written(calls)| >= COMPRESS_FLOOR
  }

  /** The state of the writer and of the one underneath, between calls. gz holds what gzip has been fed. */
  datatype View = View(
    status: int, wroteHeader: bool, head: Bytes, gz: Option<Bytes>, passing: bool, deciding: bool, out: Out)

  ghost function Expected(calls: seq<Call>): View {
    var body := Written(calls);
    if calls == [] then View(0, false, [], None, false, false, Untouched)
    else
      var s := FirstStatus(calls);
      if !MayCarryBody(s) then View(s, true, [], None, true, false, Passed(calls))
      else if |body| < COMPRESS_FLOOR then View(s, true, body, None, false, true, Untouched)
      else View(s, true, [], Some(body), false, false, SetStatus(Untouched, s).(gzip := true))
  }

  /** A response that passes through: the first status and then every write. */
  function Passed(calls: seq<Call>): Out
    requires calls != []
  {
    if |calls| == 1 then
      var out := SetStatus(Untouched, FirstStatus(calls));
      if calls[0].Body? then Send(out, calls[0].bytes) else out
    else
      var out := Passed(calls[..|calls| - 1]);
      if calls[|calls| - 1].Body? then Send(out, calls[|calls| - 1].bytes) else out
  }

  /** What the writer underneath has received once the response is closed. */
  function Closed(codec: Codec, calls: seq<Call>): Out {
    var body := Written(calls);
    if calls == [] then Untouched
    else
      var s := FirstStatus(calls);
      if !MayCarryBody(s) then Passed(calls)
      else if |body| >= COMPRESS_FLOOR then Send(SetStatus(Untouched, s).(gzip := true), codec.encode(body))
      else if body == [] then SetStatus(Untouched, s)
      else Send(SetStatus(Untouched, s), body)
  }

  class CompressWriter {
    const out: Response
    const codec: Codec
    var status: int
    var wroteHeader: bool
    var head: Bytes
    var gz: Option<Bytes>
    var passing: bool
    var deciding: bool
    ghost var calls: seq<Call>

    ghost function State(): View
      reads this, out
    {
      View(status, wroteHeader, head, gz, passing, deciding, out.out)
    }

    /** Between calls the fields are a function of the calls so far. */
    ghost predicate Valid()
      reads this, out
    {
      State() == Expected(calls)
    }

    constructor (out: Response, codec: Codec)
      requires out.out == Untouched
      ensures this.out == out && this.codec == codec && Valid() && calls == []
    {
      this.out, this.codec, calls := out, codec, [];
      status, wroteHeader, head, gz, passing, deciding := 0, false, [], None, false, false;
    }

    method WriteHeader(code: int)
      requires Valid()
      modifies this, out
      ensures Valid() && calls == old(calls) + [Header(code)]
    {
      HeaderAppends(calls, code);
      calls := calls + [Header(code)];
      if wroteHeader { return; }
      wroteHeader := true;
      status := code;
      if code == 304 || code == 204 || code < 200 {
        passing := true;
        out.WriteHeader(code);
        return;
      }
      deciding := true;
    }

    method StartCompressing()
      modifies this, out
      ensures calls == old(calls)
      ensures State() == old(State()).(
        head := [], gz := Some(old(head)), deciding := false,
        out := SetStatus(old(out.out).(gzip := true), old(status)))
    {
      out.SetGzip();
      deciding := false;
      out.WriteHeader(status);
      gz := Some(head);
      head := [];
    }

    method Write(b: Bytes)
      requires Valid()
      modifies this, out
      ensures Valid() && calls == old(calls) + [Body(b)]
    {
      BodyAppends(calls, b);
      ghost var before := calls;
      if !wroteHeader {
        WriteHeader(200);
        FirstWrite(b);
      }
      calls := before + [Body(b)];
      if passing {
        out.Write(b);
      } else if gz.Some? {
        gz := Some(gz.value + b);
      } else {
        head := head + b;
        if |head| >= COMPRESS_FLOOR { StartCompressing(); }
      }
    }

    method Close()
      requires Valid()
      modifies this, out
      ensures out.out == Closed(codec, old(calls))
    {
      if gz.Some? {
        out.Write(codec.encode(gz.value));
        gz := None;
      } else if deciding {
        deciding := false;
        out.WriteHeader(status);
        if |head| > 0 {
          out.Write(head);
          head := [];
        }
      }
    }
  }

  lemma HeaderAppends(calls: seq<Call>, code: int)
    ensures Written(calls + [Header(code)]) == Written(calls)
    ensures calls != [] ==> FirstStatus(calls + [Header(code)]) == FirstStatus(calls)
    ensures calls != [] ==> Passed(calls + [Header(code)]) == Passed(calls)
  {
    var all := calls + [Header(code)];
    assert all[..|all| - 1] == calls;
  }

  lemma BodyAppends(calls: seq<Call>, b: Bytes)
    ensures Written(calls + [Body(b)]) == Written(calls) + b
    ensures calls != [] ==> FirstStatus(calls + [Body(b)]) == FirstStatus(calls)
    ensures calls != [] ==> Passed(calls + [Body(b)]) == Send(Passed(calls), b)
  {
    var all := calls + [Body(b)];
    assert all[..|all| - 1] == calls;
  }

  lemma FirstWrite(b: Bytes)
    ensures Written([Body(b)]) == b && Written([Header(200)]) == []
  {
    BodyAppends([], b);
    HeaderAppends([], 200);
    assert [] + [Body(b)] == [Body(b)] && [] + [Header(200)] == [Header(200)];
  }

  /** A handler's calls, through the middleware. */
  method Serve(codec: Codec, calls: seq<Call>) returns (out: Out)
    ensures out == Closed(codec, calls)
  {
    var response := new Response();
    var w := new CompressWriter(response, codec);
    assert calls[..0] == [];
    for i := 0 to |calls|
      invariant w.out == response && w.codec == codec && w.Valid() && w.calls == calls[..i]
    {
      assert calls[..i] + [calls[i]] == calls[..i + 1];
      match calls[i]
      case Header(status) => w.WriteHeader(status);
      case Body(b) => w.Write(b);
    }
    assert calls[..|calls|] == calls;
    w.Close();
    out := response.out;
  }

  // ---- against a handler that writes straight to the server

  function Direct(calls: seq<Call>): Out {
    if calls == [] then Untouched
    else
      var out, last := Direct(calls[..|calls| - 1]), calls[|calls| - 1];
      if last.Header? then SetStatus(out, last.status) else Send(out, last.bytes)
  }

  function Decoded(codec: Codec, out: Out): Bytes {
    if out.gzip then codec.decode(out.body) else out.body
  }

  lemma {:induction false} PassedPlainly(calls: seq<Call>)
    requires calls != []
    ensures var out, s := Passed(calls), FirstStatus(calls);
            && out.statuses == [s] && out.body == Written(calls) && !out.gzip
            && Seen(out) == if Informational(s) then 200 else s
  {
    if |calls| == 1 {
      assert Written(calls[..0]) == [];
    } else {
      PassedPlainly(calls[..|calls| - 1]);
    }
  }

  lemma {:induction false} DirectlyWritten(calls: seq<Call>)
    ensures Direct(calls).body == Written(calls)
    ensures calls != [] && !Informational(FirstStatus(calls)) ==> Direct(calls).status == Some(FirstStatus(calls))
  {
    if |calls| == 1 {
      assert calls[..0] == [];
      DirectlyWritten([]);
    } else if calls != [] {
      DirectlyWritten(calls[..|calls| - 1]);
    }
  }

  /** Whatever the calls: one status at most, the first one given; not a byte lost; gzip exactly when the status
      may carry a body and the whole of it reaches the floor. */
  lemma NothingIsLostOrSaidTwice(codec: Codec, calls: seq<Call>)
    requires RoundTrips(codec)
    ensures var out := Closed(codec, calls);
            && out.statuses == (if calls == [] then [] else [FirstStatus(calls)])
            && Decoded(codec, out) == Written(calls) == Direct(calls).body
            && (out.gzip <==> WorthCompressing(calls))
  {
    DirectlyWritten(calls);
    if calls != [] { PassedPlainly(calls); }
    var body := Written(calls);
    assert [] + codec.encode(body) == codec.encode(body) && [] + body == body;
  }

  /** The status the calls decide on, if they do: the first that is not informational, or 200 at the first write. */
  function Decided(calls: seq<Call>): Option<int> {
    if calls == [] then None
    else
      match calls[0]
      case Body(_) => Some(200)
      case Header(status) => if Informational(status) then Decided(calls[1..]) else Some(status)
  }

  /** What the handler asked for: undecided at its end, it is 200. */
  function FinalStatus(calls: seq<Call>): int {
    if Decided(calls).Some? then Decided(calls).value else 200
  }

  lemma {:induction false} DecidedOnce(calls: seq<Call>, last: Call)
    ensures Decided(calls + [last]) == if Decided(calls).Some? then Decided(calls) else Decided([last])
  {
    if calls == [] {
      assert calls + [last] == [last];
    } else {
      assert (calls + [last])[1..] == calls[1..] + [last];
      DecidedOnce(calls[1..], last);
    }
  }

  lemma {:induction false} DirectlyDecided(calls: seq<Call>)
    ensures Direct(calls).status == Decided(calls)
  {
    if calls != [] {
      var earlier, last := calls[..|calls| - 1], calls[|calls| - 1];
      DirectlyDecided(earlier);
      DecidedOnce(earlier, last);
      assert calls == earlier + [last] && [last][1..] == [];
    }
  }

  /** The client reads the status the handler asked for, as it would without the middleware, exactly when the first
      call was not an informational status or the status asked for is 200: the writer takes an informational status
      for the final one, and what the handler says later is dropped. */
  lemma StatusIsTransparentExactly(codec: Codec, calls: seq<Call>)
    ensures Seen(Direct(calls)) == FinalStatus(calls)
    ensures Seen(Closed(codec, calls)) == FinalStatus(calls) <==>
            calls == [] || !Informational(FirstStatus(calls)) || FinalStatus(calls) == 200
  {
    DirectlyDecided(calls);
    if calls != [] {
      DirectlyWritten(calls);
      PassedPlainly(calls);
    }
  }

  /** An early hint hides the status that follows it. */
  lemma AnEarlyHintHidesTheStatus(codec: Codec)
    ensures var calls := [Header(103), Header(404)];
            Seen(Closed(codec, calls)) == 200 && Seen(Direct(calls)) == 404
  {
    var calls := [Header(103), Header(404)];
    assert calls[..1] == [Header(103)] && [Header(103)][..0] == [];
    PassedPlainly(calls);
    assert Direct([Header(103)]) == SetStatus(Untouched, 103);
  }

  /** How the body was cut into writes makes no difference. */
  lemma ChunkingIsInvisible(codec: Codec, a: seq<Call>, b: seq<Call>)
    requires a != [] && b != [] && FirstStatus(a) == FirstStatus(b) && Written(a) == Written(b)
    ensures var x, y := Closed(codec, a), Closed(codec, b);
            x.statuses == y.statuses && x.body == y.body && x.gzip == y.gzip && Seen(x) == Seen(y)
  {
    PassedPlainly(a);
    PassedPlainly(b);
  }
}
