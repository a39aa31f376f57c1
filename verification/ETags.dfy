/** The ETag: W/"<emitter version>-<logbook version>", and the weak comparison of section 8.8.3.2 of RFC 9110. */
module ETags {
  import opened Options
  import Text

  const MAX_INT64 := 0x7FFF_FFFF_FFFF_FFFF

  // ---- decimal text

  const DIGITS := "0123456789"

  function Digit(d: nat): char
    requires d < 10
  {
    DIGITS[d]
  }

  function DigitValue(c: char): nat
    requires Text.IsDigit(c)
  {
    c as nat - '0' as nat
  }

  /** strconv.FormatInt for a number that is not negative. */
  function Decimal(n: nat): (s: string)
    ensures s != [] && forall i | 0 <= i < |s| :: Text.IsDigit(s[i])
  {
    if n < 10 then [Digit(n)] else Decimal(n / 10) + [Digit(n % 10)]
  }

  predicate AllDigits(s: string) {
    s != [] && forall i | 0 <= i < |s| :: Text.IsDigit(s[i])
  }

  function FromDigits(s: string): nat
    requires forall i | 0 <= i < |s| :: Text.IsDigit(s[i])
  {
    if s == [] then 0 else 10 * FromDigits(s[..|s| - 1]) + DigitValue(s[|s| - 1])
  }

  lemma {:induction false} DecimalReadsBack(n: nat)
    ensures FromDigits(Decimal(n)) == n
  {
    if n < 10 {
      assert Decimal(n)[..0] == [];
      assert DigitValue(Digit(n)) == n;
    } else {
      DecimalReadsBack(n / 10);
      assert Decimal(n)[..|Decimal(n)| - 1] == Decimal(n / 10);
      assert DigitValue(Digit(n % 10)) == n % 10;
    }
  }

  /** strconv.ParseInt(s, 10, 64): an optional sign, digits, and the range of an int64. */
  function ParseInt(s: string): Option<int> {
    var negative := s != [] && s[0] == '-';
    var digits := if s != [] && (s[0] == '-' || s[0] == '+') then s[1..] else s;
    if !AllDigits(digits) then None
    else
      var n: int := FromDigits(digits);
      if negative then (if n <= MAX_INT64 + 1 then Some(-n) else None)
      else if n <= MAX_INT64 then Some(n) else None
  }

  lemma ParseIntOfDecimal(n: nat)
    requires n <= MAX_INT64
    ensures ParseInt(Decimal(n)) == Some(n)
  {
    DecimalReadsBack(n);
    assert Text.IsDigit(Decimal(n)[0]);
  }

  // ---- the tag

  /** What FormatETag answers when it does not panic. */
  function FormatETag(emitter: nat, logbook: nat): string
    requires emitter >= 1 && logbook >= 1
  {
    "W/" + Opaque(emitter, logbook)
  }

  /** The quoted opaque-tag, quotes included. */
  function Opaque(emitter: nat, logbook: nat): string {
    "\"" + Decimal(emitter) + "-" + Decimal(logbook) + "\""
  }

  function TrimPrefix(s: string, prefix: string): string {
    if prefix <= s then s[|prefix|..] else s
  }

  function OpaqueTag(s: string): Option<string> {
    var t := TrimPrefix(Text.TrimSpace(s), "W/");
    if |t| < 2 || t[0] != '"' || t[|t| - 1] != '"' then None else Some(t)
  }

  function TrimQuotesLeft(s: string): string {
    if s != [] && s[0] == '"' then TrimQuotesLeft(s[1..]) else s
  }

  function TrimQuotesRight(s: string): string {
    if s != [] && s[|s| - 1] == '"' then TrimQuotesRight(s[..|s| - 1]) else s
  }

  /** strings.Cut at the first c: the parts before and after it. */
  function Cut(s: string, c: char): Option<(string, string)> {
    if s == [] then None
    else if s[0] == c then Some(("", s[1..]))
    else
      var rest := Cut(s[1..], c);
      if rest.None? then None else Some(([s[0]] + rest.value.0, rest.value.1))
  }

  function ParseETag(s: string): Option<(int, int)> {
    var tag := OpaqueTag(s);
    if tag.None? then None
    else
      var halves := Cut(TrimQuotesRight(TrimQuotesLeft(tag.value)), '-');
      if halves.None? then None
      else
        var emitter, logbook := ParseInt(halves.value.0), ParseInt(halves.value.1);
        if emitter.None? || emitter.value < 1 || logbook.None? || logbook.value < 1 then None
        else Some((emitter.value, logbook.value))
  }

  lemma {:induction false} CutAtFirst(a: string, b: string, c: char)
    requires c !in a
    ensures Cut(a + [c] + b, c) == Some((a, b))
  {
    var s := a + [c] + b;
    if a == [] {
      assert s == [c] + b;
    } else {
      assert s[1..] == a[1..] + [c] + b;
      CutAtFirst(a[1..], b, c);
      assert a == [a[0]] + a[1..];
    }
  }

  lemma DecimalHasNoMark(n: nat)
    ensures forall c | c in Decimal(n) :: Text.IsDigit(c)
  {
  }

  lemma TrimSpaceOfTight(s: string)
    requires s != [] && !Text.IsSpace(s[0]) && !Text.IsSpace(s[|s| - 1])
    ensures Text.TrimSpace(s) == s
  {
  }

  lemma OpaqueTagOfFormatted(emitter: nat, logbook: nat)
    ensures OpaqueTag("W/" + Opaque(emitter, logbook)) == Some(Opaque(emitter, logbook))
    ensures OpaqueTag(Opaque(emitter, logbook)) == Some(Opaque(emitter, logbook))
  {
    var o := Opaque(emitter, logbook);
    assert o[0] == '"' && o[|o| - 1] == '"';
    TrimSpaceOfTight(o);
    TrimSpaceOfTight("W/" + o);
    assert ("W/" + o)[2..] == o;
    assert !("W/" <= o);
  }

  lemma QuotesComeOff(inner: string, quoted: string)
    requires inner != [] && inner[0] != '"' && inner[|inner| - 1] != '"' && quoted == ['"'] + inner + ['"']
    ensures TrimQuotesRight(TrimQuotesLeft(quoted)) == inner
  {
    var open := inner + ['"'];
    assert quoted[1..] == open && open[0] == inner[0];
    assert TrimQuotesLeft(open) == open;
    assert open[..|open| - 1] == inner;
  }

  lemma InnerOfOpaque(emitter: nat, logbook: nat)
    ensures TrimQuotesRight(TrimQuotesLeft(Opaque(emitter, logbook))) == Decimal(emitter) + ['-'] + Decimal(logbook)
  {
    var left, right := Decimal(emitter), Decimal(logbook);
    var inner := left + ['-'] + right;
    assert inner[0] == left[0] && Text.IsDigit(left[0]);
    assert inner[|inner| - 1] == right[|right| - 1] && Text.IsDigit(right[|right| - 1]);
    QuotesComeOff(inner, Opaque(emitter, logbook));
  }

  /** A formatted tag parses back to both its numbers, for every pair of int64s of at least 1. */
  lemma ParseOfFormat(emitter: nat, logbook: nat)
    requires 1 <= emitter <= MAX_INT64 && 1 <= logbook <= MAX_INT64
    ensures ParseETag(FormatETag(emitter, logbook)) == Some((emitter as int, logbook as int))
  {
    OpaqueTagOfFormatted(emitter, logbook);
    InnerOfOpaque(emitter, logbook);
    CutOfDecimals(emitter, logbook);
    ParseIntOfDecimal(emitter);
    ParseIntOfDecimal(logbook);
  }

  lemma CutOfDecimals(a: nat, b: nat)
    ensures Cut(Decimal(a) + ['-'] + Decimal(b), '-') == Some((Decimal(a), Decimal(b)))
  {
    DecimalHasNoMark(a);
    CutAtFirst(Decimal(a), Decimal(b), '-');
  }

  /** Two tags carry the same opaque text exactly when both numbers agree. */
  lemma OpaqueIsInjective(e1: nat, l1: nat, e2: nat, l2: nat)
    ensures Opaque(e1, l1) == Opaque(e2, l2) <==> e1 == e2 && l1 == l2
  {
    if Opaque(e1, l1) == Opaque(e2, l2) {
      var a := Decimal(e1) + ['-'] + Decimal(l1);
      var b := Decimal(e2) + ['-'] + Decimal(l2);
      assert Opaque(e1, l1)[1..|Opaque(e1, l1)| - 1] == a;
      assert Opaque(e2, l2)[1..|Opaque(e2, l2)| - 1] == b;
      CutOfDecimals(e1, l1);
      CutOfDecimals(e2, l2);
      DecimalReadsBack(e1); DecimalReadsBack(e2); DecimalReadsBack(l1); DecimalReadsBack(l2);
    }
  }

  // ---- If-None-Match

  /** strings.Split on a comma. */
  function Split(s: string): (parts: seq<string>)
    ensures parts != []
  {
    if s == [] then [""]
    else
      var rest := Split(s[1..]);
      if s[0] == ',' then [""] + rest else [[s[0]] + rest[0]] + rest[1..]
  }

  function Join(parts: seq<string>): string
    requires parts != []
  {
    if |parts| == 1 then parts[0] else parts[0] + "," + Join(parts[1..])
  }

  lemma {:induction false} SplitOfPlain(s: string)
    requires ',' !in s
    ensures Split(s) == [s]
  {
    if s != [] {
      SplitOfPlain(s[1..]);
      assert [s[0]] + s[1..] == s;
    }
  }

  lemma {:induction false} SplitAtComma(a: string, b: string)
    requires ',' !in a
    ensures Split(a + "," + b) == [a] + Split(b)
  {
    var s := a + "," + b;
    if a == [] {
      assert s[1..] == b;
    } else {
      assert s[1..] == a[1..] + "," + b;
      SplitAtComma(a[1..], b);
      assert [a[0]] + a[1..] == a;
    }
  }

  lemma {:induction false} SplitOfJoin(parts: seq<string>)
    requires parts != [] && forall i | 0 <= i < |parts| :: ',' !in parts[i]
    ensures Split(Join(parts)) == parts
  {
    if |parts| == 1 {
      SplitOfPlain(parts[0]);
    } else {
      SplitOfJoin(parts[1..]);
      SplitAtComma(parts[0], Join(parts[1..]));
    }
  }

  /** Section 13.1.2 of RFC 9110: * matches anything, otherwise some member must compare equal, weakly. */
  predicate NamesTag(header: string, current: string) {
    AnyNames(Split(header), current)
  }

  predicate AnyNames(parts: seq<string>, current: string) {
    Some(current) in Tags(parts)
  }

  function Tags(parts: seq<string>): seq<Option<string>> {
    seq(|parts|, i requires 0 <= i < |parts| => OpaqueTag(parts[i]))
  }

  predicate Matches(ifNoneMatch: string, etag: string) {
    var current := OpaqueTag(etag);
    var header := Text.TrimSpace(ifNoneMatch);
    current.Some? && header != "" && (header == "*" || NamesTag(header, current.value))
  }

  lemma AnyNamesExactly(parts: seq<string>, current: string)
    ensures AnyNames(parts, current) <==> exists part :: part in parts && OpaqueTag(part) == Some(current)
  {
    var tags := Tags(parts);
    assert forall i | 0 <= i < |parts| :: tags[i] == OpaqueTag(parts[i]);
    if part :| part in parts && OpaqueTag(part) == Some(current) {
      var i :| 0 <= i < |parts| && parts[i] == part;
      assert tags[i] in tags;
    }
    if AnyNames(parts, current) {
      var i :| 0 <= i < |tags| && tags[i] == Some(current);
      assert parts[i] in parts;
    }
  }

  lemma NoTagFromNothing()
    ensures OpaqueTag("") == None
  {
    assert Text.TrimSpace("") == "";
  }

  /** An empty header has one part, which carries no tag. */
  lemma NothingNames(header: string, current: string)
    requires header == ""
    ensures !(exists part :: part in Split(header) && OpaqueTag(part) == Some(current))
  {
    assert Split(header) == [""];
    NoTagFromNothing();
  }

  /** ETagMatches. */
  method ETagMatches(ifNoneMatch: string, etag: string) returns (matches: bool)
    ensures matches <==> Matches(ifNoneMatch, etag)
  {
    var current := OpaqueTag(etag);
    if current.None? { return false; }
    var header := Text.TrimSpace(ifNoneMatch);
    if header == "" { return false; }
    if header == "*" { return true; }
    matches := AnyCandidate(Split(header), current.value);
  }

  /** Member by member, with an early return. */
  method AnyCandidate(candidates: seq<string>, current: string) returns (found: bool)
    ensures found <==> AnyNames(candidates, current)
  {
    found := Holds(Tags(candidates), Some(current));
  }

  method Holds(tags: seq<Option<string>>, current: Option<string>) returns (found: bool)
    ensures found <==> current in tags
  {
    for i := 0 to |tags|
      invariant forall j | 0 <= j < i :: tags[j] != current
    {
      if tags[i] == current { return true; }
    }
    return false;
  }

  /** A member of a list: a formatted tag, weak or strong, in any whitespace. */
  datatype Member = Member(before: string, weak: bool, emitter: nat, logbook: nat, after: string) {
    function Tag(): string {
      (if weak then "W/" else "") + Opaque(emitter, logbook)
    }

    function Render(): string {
      before + Tag() + after
    }

    predicate Padded() {
      Text.AllSpace(before) && Text.AllSpace(after)
    }
  }

  function Rendered(members: seq<Member>): (out: seq<string>)
    ensures |out| == |members| && forall i | 0 <= i < |members| :: out[i] == members[i].Render()
  {
    seq(|members|, i requires 0 <= i < |members| => members[i].Render())
  }

  // ---- whitespace around a list never changes its answer

  lemma {:induction false} TrimLeftOfPadded(pad: string, s: string)
    requires Text.AllSpace(pad)
    ensures Text.TrimLeft(pad + s) == Text.TrimLeft(s)
  {
    if pad == [] {
      assert pad + s == s;
    } else {
      assert (pad + s)[1..] == pad[1..] + s;
      TrimLeftOfPadded(pad[1..], s);
    }
  }

  lemma {:induction false} TrimRightOfPadded(s: string, pad: string)
    requires Text.AllSpace(pad)
    ensures Text.TrimRight(s + pad) == Text.TrimRight(s)
  {
    if pad == [] {
      assert s + pad == s;
    } else {
      assert (s + pad)[..|s + pad| - 1] == s + pad[..|pad| - 1];
      TrimRightOfPadded(s, pad[..|pad| - 1]);
    }
  }

  lemma {:induction false} TrimLeftKeepsTheEnd(s: string, pad: string)
    requires Text.AllSpace(pad)
    ensures Text.TrimRight(Text.TrimLeft(s + pad)) == Text.TrimRight(Text.TrimLeft(s))
  {
    if s == [] {
      assert s + pad == pad + [];
      TrimLeftOfPadded(pad, []);
    } else if Text.IsSpace(s[0]) {
      assert (s + pad)[1..] == s[1..] + pad;
      TrimLeftKeepsTheEnd(s[1..], pad);
    } else {
      assert (s + pad)[0] == s[0];
      TrimRightOfPadded(s, pad);
    }
  }

  lemma TrimSpaceOfPadded(left: string, s: string, right: string)
    requires Text.AllSpace(left) && Text.AllSpace(right)
    ensures Text.TrimSpace(left + s + right) == Text.TrimSpace(s)
  {
    calc {
      Text.TrimSpace(left + s + right);
      { assert left + s + right == left + (s + right); }
      Text.TrimRight(Text.TrimLeft(left + (s + right)));
      { TrimLeftOfPadded(left, s + right); }
      Text.TrimRight(Text.TrimLeft(s + right));
      { TrimLeftKeepsTheEnd(s, right); }
      Text.TrimSpace(s);
    }
  }

  lemma OpaqueTagOfPadded(left: string, s: string, right: string)
    requires Text.AllSpace(left) && Text.AllSpace(right)
    ensures OpaqueTag(left + s + right) == OpaqueTag(s)
  {
    TrimSpaceOfPadded(left, s, right);
  }

  lemma SplitOfCons(c: char, s: string)
    requires c != ','
    ensures Split([c] + s) == [[c] + Split(s)[0]] + Split(s)[1..]
  {
    assert ([c] + s)[1..] == s;
  }

  lemma {:induction false} SplitOfSnoc(s: string, c: char)
    requires c != ','
    ensures var parts := Split(s); var n := |parts| - 1; Split(s + [c]) == parts[..n] + [parts[n] + [c]]
  {
    if s == [] {
      assert s + [c] == [c] + [];
      SplitOfCons(c, []);
    } else {
      assert (s + [c])[1..] == s[1..] + [c];
      SplitOfSnoc(s[1..], c);
      if s[0] != ',' {
        var rest := Split(s[1..]);
        assert |rest| == 1 ==> [s[0]] + (rest[0] + [c]) == ([s[0]] + rest[0]) + [c];
      }
    }
  }

  lemma OpaqueTagSpaceBefore(c: char, s: string)
    requires Text.IsSpace(c)
    ensures OpaqueTag([c] + s) == OpaqueTag(s)
  {
    assert [c] + s + [] == [c] + s;
    OpaqueTagOfPadded([c], s, []);
  }

  lemma FirstTagUnchanged(a: seq<string>, b: seq<string>, c: char)
    requires Text.IsSpace(c) && |a| == |b| > 0
    requires a[0] == [c] + b[0] && a[1..] == b[1..]
    ensures Tags(a) == Tags(b)
  {
    OpaqueTagSpaceBefore(c, b[0]);
    forall i | 0 <= i < |b| ensures Tags(a)[i] == Tags(b)[i] {
      if i > 0 { assert a[1..][i - 1] == b[1..][i - 1]; }
    }
  }

  lemma SpaceBefore(c: char, rest: string, current: string)
    requires Text.IsSpace(c)
    ensures NamesTag([c] + rest, current) <==> NamesTag(rest, current)
  {
    SplitOfCons(c, rest);
    FirstTagUnchanged(Split([c] + rest), Split(rest), c);
  }

  lemma OpaqueTagSpaceAfter(s: string, c: char)
    requires Text.IsSpace(c)
    ensures OpaqueTag(s + [c]) == OpaqueTag(s)
  {
    assert [] + s + [c] == s + [c];
    OpaqueTagOfPadded([], s, [c]);
  }

  lemma LastTagUnchanged(a: seq<string>, b: seq<string>, c: char)
    requires Text.IsSpace(c) && |a| == |b| > 0
    requires a[..|b| - 1] == b[..|b| - 1] && a[|b| - 1] == b[|b| - 1] + [c]
    ensures Tags(a) == Tags(b)
  {
    OpaqueTagSpaceAfter(b[|b| - 1], c);
    forall i | 0 <= i < |b| ensures Tags(a)[i] == Tags(b)[i] {
      if i < |b| - 1 { assert a[..|b| - 1][i] == b[..|b| - 1][i]; }
    }
  }

  lemma SpaceAfter(rest: string, c: char)
    requires Text.IsSpace(c)
    ensures Tags(Split(rest + [c])) == Tags(Split(rest))
  {
    SplitOfSnoc(rest, c);
    LastTagUnchanged(Split(rest + [c]), Split(rest), c);
  }

  lemma DropLeadingSpace(header: string, c: char, rest: string, current: string)
    requires Text.IsSpace(c) && header == [c] + rest
    ensures NamesTag(header, current) <==> NamesTag(rest, current)
    ensures Text.TrimLeft(header) == Text.TrimLeft(rest)
  {
    SpaceBefore(c, rest, current);
    assert header[1..] == rest;
  }

  lemma {:induction false} NamesTagTrimLeft(header: string, current: string)
    ensures NamesTag(header, current) <==> NamesTag(Text.TrimLeft(header), current)
  {
    if header != [] && Text.IsSpace(header[0]) {
      DropLeadingSpace(header, header[0], header[1..], current);
      NamesTagTrimLeft(header[1..], current);
    }
  }

  lemma DropTrailingSpace(header: string, front: string, c: char)
    requires Text.IsSpace(c) && front + [c] == header
    ensures Tags(Split(header)) == Tags(Split(front))
  {
    SpaceAfter(front, c);
  }

  lemma {:induction false} TagsOfTrimRight(header: string)
    ensures Tags(Split(Text.TrimRight(header))) == Tags(Split(header))
  {
    if header != [] && Text.IsSpace(header[|header| - 1]) {
      var n := |header| - 1;
      DropTrailingSpace(header, header[..n], header[n]);
      TagsOfTrimRight(header[..n]);
      assert Text.TrimRight(header) == Text.TrimRight(header[..n]);
    }
  }

  lemma TrimKeepsMarks(s: string, c: char)
    requires c in s && !Text.IsSpace(c)
    ensures c in Text.TrimSpace(s)
  {
    var left := Text.TrimLeft(s);
    Text.TrimLeftIs(s);
    Text.TrimRightIs(left);
    var i :| 0 <= i < |s| && s[i] == c;
    assert left[i - (|s| - |left|)] == c;
    var j :| 0 <= j < |left| && left[j] == c;
    assert Text.TrimRight(left)[j] == c;
  }

  lemma TagHasNoComma(m: Member)
    ensures ',' !in m.Tag() && '"' in m.Tag()
  {
    DecimalHasNoMark(m.emitter);
    DecimalHasNoMark(m.logbook);
    assert m.Tag()[|m.Tag()| - 1] == '"';
  }

  lemma MemberTag(m: Member)
    requires m.Padded()
    ensures OpaqueTag(m.Render()) == Some(Opaque(m.emitter, m.logbook))
  {
    OpaqueTagOfPadded(m.before, m.Tag(), m.after);
    OpaqueTagOfFormatted(m.emitter, m.logbook);
    assert "" + Opaque(m.emitter, m.logbook) == Opaque(m.emitter, m.logbook);
  }

  lemma MemberMarks(m: Member)
    requires m.Padded()
    ensures ',' !in m.Render() && '"' in m.Render()
  {
    TagHasNoComma(m);
  }

  lemma {:induction false} JoinHolds(parts: seq<string>, c: char)
    requires parts != [] && c in parts[0]
    ensures c in Join(parts)
  {
  }

  /** A comma-separated list of formatted tags, weak or strong, however spaced, matches a current formatted
      tag exactly when some member has the same two numbers. */
  lemma ListMatchesExactly(members: seq<Member>, emitter: nat, logbook: nat)
    requires members != [] && emitter >= 1 && logbook >= 1
    requires forall i | 0 <= i < |members| :: members[i].Padded()
    ensures Matches(Join(Rendered(members)), FormatETag(emitter, logbook))
            <==> exists i | 0 <= i < |members| :: members[i].emitter == emitter && members[i].logbook == logbook
  {
    var header := Join(Rendered(members));
    var current := Opaque(emitter, logbook);
    ListIsItsMembers(members);
    MembersName(members, emitter, logbook);
    NamesTagTrimLeft(header, current);
    TagsOfTrimRight(Text.TrimLeft(header));
    OpaqueTagOfFormatted(emitter, logbook);
  }

  lemma ListIsItsMembers(members: seq<Member>)
    requires members != [] && forall i | 0 <= i < |members| :: members[i].Padded()
    ensures Split(Join(Rendered(members))) == Rendered(members)
    ensures '"' in Text.TrimSpace(Join(Rendered(members)))
  {
    var parts := Rendered(members);
    forall i | 0 <= i < |members| ensures ',' !in parts[i] && '"' in parts[i] { MemberMarks(members[i]); }
    SplitOfJoin(parts);
    JoinHolds(parts, '"');
    TrimKeepsMarks(Join(parts), '"');
  }

  lemma MembersName(members: seq<Member>, emitter: nat, logbook: nat)
    requires forall i | 0 <= i < |members| :: members[i].Padded()
    ensures AnyNames(Rendered(members), Opaque(emitter, logbook))
            <==> exists i | 0 <= i < |members| :: members[i].emitter == emitter && members[i].logbook == logbook
  {
    var tags := Tags(Rendered(members));
    forall i | 0 <= i < |members|
      ensures tags[i] == Some(Opaque(emitter, logbook))
              <==> members[i].emitter == emitter && members[i].logbook == logbook
    {
      MemberTag(members[i]);
      OpaqueIsInjective(members[i].emitter, members[i].logbook, emitter, logbook);
    }
  }
}
