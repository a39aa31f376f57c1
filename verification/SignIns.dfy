/** Sign-ins statement by statement: the code is read, then deleted, then the session is created, and the statements of
    other calls may come in between. */
module SignIns {
  import opened Ordering
  import opened Codes

  type CallId = nat

  /** A row of sign_in_codes. The serial, which the table does not have, tells one issue from another. */
  datatype Row = Row(code: Code, serial: nat)

  /** Where one SignInWithCode call has got to since it read the row. */
  datatype Phase =
    | Matched(traveller: Id, serial: nat)
    | Burned(traveller: Id, serial: nat)
    | Signed(traveller: Id, serial: nat)
    | Counting(traveller: Id)
    | Burning(traveller: Id)
    | Ended

  datatype Desk = Desk(codes: map<Id, Row>, issued: nat, calls: map<CallId, Phase>)

  const Opening := Desk(map[], 0, map[])

  /** The statements of sign-ins and requests in any interleaving. A call may fail at any of its own; deleting the
      traveller deletes the code. */
  datatype Statement =
    | Issue(traveller: Id, draw: string, now: int)
    | Read(call: CallId, traveller: Id, code: string, now: int)
    | Count(call: CallId)
    | Burn(call: CallId)
    | Create(call: CallId)
    | Fail(call: CallId)
    | Drop(traveller: Id)

  function HeldOf(d: Desk): Held {
    map t | t in d.codes :: d.codes[t].code
  }

  /** What a call makes of the row it reads. */
  function Judged(d: Desk, t: Id, code: string, now: int): Phase {
    if t !in d.codes then Ended
    else if Spent(d.codes[t].code, now) then Burning(t)
    else if Matches(d.codes[t].code, t, code) then Matched(t, d.codes[t].serial)
    else Counting(t)
  }

  /** One more attempt on whatever row is there by now; the last one burns it. */
  function CountedBy(d: Desk, call: CallId): Desk {
    if call !in d.calls || !d.calls[call].Counting? then d
    else
      var t := d.calls[call].traveller;
      if t !in d.codes then d.(calls := d.calls[call := Ended])
      else
        var row, n := d.codes[t], d.codes[t].code.attempts + 1;
        d.(codes := d.codes[t := row.(code := row.code.(attempts := n))],
           calls := d.calls[call := if n >= MAX_ATTEMPTS then Burning(t) else Ended])
  }

  /** DELETE WHERE traveller_id: whatever row is there by now goes. */
  function BurnedBy(d: Desk, call: CallId): Desk {
    if call !in d.calls then d
    else
      match d.calls[call]
      case Matched(t, k) => d.(codes := d.codes - {t}, calls := d.calls[call := Burned(t, k)])
      case Burning(t) => d.(codes := d.codes - {t}, calls := d.calls[call := Ended])
      case _ => d
  }

  function CreatedBy(d: Desk, call: CallId): Desk {
    if call !in d.calls || !d.calls[call].Burned? then d
    else d.(calls := d.calls[call := Signed(d.calls[call].traveller, d.calls[call].serial)])
  }

  predicate Running(d: Desk, call: CallId) {
    call in d.calls && !d.calls[call].Signed?
  }

  function Step(d: Desk, s: Statement): Desk {
    match s
    case Issue(t, draw, now) => Desk(d.codes[t := Row(Fresh(t, draw, now), d.issued)], d.issued + 1, d.calls)
    case Read(call, t, code, now) =>
      if call in d.calls then d else d.(calls := d.calls[call := Judged(d, t, code, now)])
    case Count(call) => CountedBy(d, call)
    case Burn(call) => BurnedBy(d, call)
    case Create(call) => CreatedBy(d, call)
    case Fail(call) => if Running(d, call) then d.(calls := d.calls[call := Ended]) else d
    case Drop(t) => d.(codes := d.codes - {t})
  }

  function After(d: Desk, run: seq<Statement>): Desk {
    if run == [] then d else Step(After(d, run[..|run| - 1]), run[|run| - 1])
  }

  // ---- a call that nothing comes between is the sign-in as a whole

  lemma OneAfterAnother(d: Desk, a: Statement, b: Statement, c: Statement, e: Statement)
    ensures After(d, [a, b, c, e]) == Step(Step(Step(Step(d, a), b), c), e)
  {
    assert [a, b, c, e][..3] == [a, b, c] && [a, b, c][..2] == [a, b] && [a, b][..1] == [a] && [a][..0] == [];
    assert After(d, [a]) == Step(d, a) && After(d, [a, b]) == Step(Step(d, a), b);
  }

  lemma MissedInOneGo(d: Desk, call: CallId, t: Id)
    requires call in d.calls && d.calls[call] == Counting(t) && t in d.codes
    ensures var e := BurnedBy(CountedBy(d, call), call);
            HeldOf(e) == Counted(HeldOf(d), t) && e.calls[call] == Ended
  {
    var c := CountedBy(d, call);
    var n := d.codes[t].code.attempts + 1;
    assert c.codes[t].code == d.codes[t].code.(attempts := n);
    assert HeldOf(c) == HeldOf(d)[t := d.codes[t].code.(attempts := n)];
    if n >= MAX_ATTEMPTS { assert HeldOf(BurnedBy(c, call)) == HeldOf(d) - {t}; }
  }

  /** Without interleaving, the four statements do to the codes what the sign-in does, and end in a session exactly
      when the code is admitted. */
  lemma InOneGoItIsTheSignIn(d: Desk, call: CallId, t: Id, code: string, now: int)
    requires call !in d.calls
    ensures var e := After(d, [Read(call, t, code, now), Count(call), Burn(call), Create(call)]);
            && HeldOf(e) == SignedIn(HeldOf(d), t, code, now)
            && call in e.calls && (e.calls[call].Signed? <==> Admits(HeldOf(d), t, code, now))
  {
    OneAfterAnother(d, Read(call, t, code, now), Count(call), Burn(call), Create(call));
    var r := Step(d, Read(call, t, code, now));
    assert HeldOf(r) == HeldOf(d);
    if r.calls[call].Counting? {
      MissedInOneGo(r, call, t);
    } else if r.calls[call] != Ended {
      assert HeldOf(BurnedBy(r, call)) == HeldOf(d) - {t};
    }
  }

  // ---- what every interleaving keeps

  /** The call found its code right, and has burned it or is about to. */
  predicate Holds(d: Desk, c: CallId) {
    c in d.calls && (d.calls[c].Matched? || d.calls[c].Burned? || d.calls[c].Signed?)
  }

  /** Serials are used once; and a code that is still in the table is its traveller's, and unburned by any call that
      holds it. */
  ghost predicate InOrder(d: Desk) {
    && (forall t | t in d.codes :: d.codes[t].serial < d.issued)
    && (forall t, u | t in d.codes && u in d.codes && t != u :: d.codes[t].serial != d.codes[u].serial)
    && (forall c | Holds(d, c) :: d.calls[c].serial < d.issued)
    && (forall c, t | Holds(d, c) && t in d.codes && d.codes[t].serial == d.calls[c].serial ::
          d.calls[c] == Matched(t, d.codes[t].serial))
  }

  lemma IssueKeepsInOrder(d: Desk, t: Id, draw: string, now: int)
    requires InOrder(d)
    ensures InOrder(Step(d, Issue(t, draw, now)))
  {
  }

  lemma ReadKeepsInOrder(d: Desk, call: CallId, t: Id, code: string, now: int)
    requires InOrder(d)
    ensures InOrder(Step(d, Read(call, t, code, now)))
  {
  }

  lemma CountKeepsInOrder(d: Desk, call: CallId)
    requires InOrder(d)
    ensures InOrder(CountedBy(d, call))
  {
  }

  lemma BurnKeepsInOrder(d: Desk, call: CallId)
    requires InOrder(d)
    ensures InOrder(BurnedBy(d, call))
  {
  }

  lemma StepKeepsInOrder(d: Desk, s: Statement)
    requires InOrder(d)
    ensures InOrder(Step(d, s))
  {
    match s
    case Issue(t, draw, now) => IssueKeepsInOrder(d, t, draw, now);
    case Read(call, t, code, now) => ReadKeepsInOrder(d, call, t, code, now);
    case Count(call) => CountKeepsInOrder(d, call);
    case Burn(call) => BurnKeepsInOrder(d, call);
    case Create(call) =>
    case Fail(call) =>
    case Drop(t) =>
  }

  ghost predicate OneHolderEach(d: Desk) {
    forall c, e | Holds(d, c) && Holds(d, e) && c != e :: d.calls[c].serial != d.calls[e].serial
  }

  /** A call finds right a code that another has found right and not burned yet. */
  ghost predicate Overlaps(d: Desk, s: Statement) {
    && s.Read? && s.call !in d.calls && Judged(d, s.traveller, s.code, s.now).Matched?
    && exists c :: c in d.calls && d.calls[c] == Matched(s.traveller, d.codes[s.traveller].serial)
  }

  /** A holder held the same code before, or has just read it. */
  lemma HoldersCome(d: Desk, s: Statement, c: CallId)
    requires Holds(Step(d, s), c)
    ensures || (Holds(d, c) && Step(d, s).calls[c].serial == d.calls[c].serial)
            || (&& s.Read? && s.call == c && c !in d.calls && s.traveller in d.codes
                && Step(d, s).calls[c] == Matched(s.traveller, d.codes[s.traveller].serial))
  {
  }

  lemma OneReaderMore(d: Desk, s: Statement, c: CallId, e: CallId)
    requires InOrder(d) && OneHolderEach(d) && Holds(Step(d, s), c) && Holds(Step(d, s), e) && c != e
    requires Step(d, s).calls[c].serial == Step(d, s).calls[e].serial
    ensures Overlaps(d, s)
  {
    HoldersCome(d, s, c);
    HoldersCome(d, s, e);
    var other := if s.Read? && s.call == c then e else c;
    assert Holds(d, other);
  }

  /** One statement leaves every code with at most one holder, exactly when it is not such a read. */
  lemma OneHolderEachExactly(d: Desk, s: Statement)
    requires InOrder(d) && OneHolderEach(d)
    ensures OneHolderEach(Step(d, s)) <==> !Overlaps(d, s)
  {
    if Overlaps(d, s) {
      var c :| c in d.calls && d.calls[c] == Matched(s.traveller, d.codes[s.traveller].serial);
      assert Holds(Step(d, s), c) && Holds(Step(d, s), s.call) && c != s.call;
    } else {
      forall c, e | Holds(Step(d, s), c) && Holds(Step(d, s), e) && c != e
        ensures Step(d, s).calls[c].serial != Step(d, s).calls[e].serial
      {
        if Step(d, s).calls[c].serial == Step(d, s).calls[e].serial { OneReaderMore(d, s, c, e); }
      }
    }
  }

  // ---- whole runs

  ghost predicate NeverOverlaps(d: Desk, run: seq<Statement>) {
    forall i | 0 <= i < |run| :: !Overlaps(After(d, run[..i]), run[i])
  }

  lemma {:induction false} RunsKeepOneHolder(d: Desk, run: seq<Statement>)
    requires InOrder(d) && OneHolderEach(d) && NeverOverlaps(d, run)
    ensures InOrder(After(d, run)) && OneHolderEach(After(d, run))
  {
    if run != [] {
      var most := run[..|run| - 1];
      assert forall i | 0 <= i < |most| :: most[..i] == run[..i] && most[i] == run[i];
      RunsKeepOneHolder(d, most);
      StepKeepsInOrder(After(d, most), run[|run| - 1]);
      OneHolderEachExactly(After(d, most), run[|run| - 1]);
    }
  }

  /** No code has given two sessions. */
  ghost predicate OneSessionEach(d: Desk) {
    forall c, e | c in d.calls && d.calls[c].Signed? && e in d.calls && d.calls[e].Signed? && c != e ::
      d.calls[c].serial != d.calls[e].serial
  }

  lemma OneHolderOneSession(d: Desk)
    requires OneHolderEach(d)
    ensures OneSessionEach(d)
  {
    assert forall c | c in d.calls && d.calls[c].Signed? :: Holds(d, c);
  }

  /** In any interleaving in which no two calls have found the same code right before either burned it, no code gives
      two sessions. */
  lemma EachCodeYieldsOneSessionUnlessReadsOverlap(run: seq<Statement>)
    requires NeverOverlaps(Opening, run)
    ensures OneSessionEach(After(Opening, run))
  {
    RunsKeepOneHolder(Opening, run);
    OneHolderOneSession(After(Opening, run));
  }

  /** Two calls that hold the same code, and go on. */
  lemma BothSignIn(d: Desk, a: CallId, b: CallId, t: Id, k: nat)
    requires a != b && a in d.calls && b in d.calls && d.calls[a] == d.calls[b] == Matched(t, k)
    ensures var run := [Burn(a), Burn(b), Create(a), Create(b)];
            NeverOverlaps(d, run) && !OneSessionEach(After(d, run))
  {
    OneAfterAnother(d, Burn(a), Burn(b), Create(a), Create(b));
    var e := After(d, [Burn(a), Burn(b), Create(a), Create(b)]);
    assert e.calls[a] == e.calls[b] == Signed(t, k);
  }

  /** Two sessions of one code can follow a statement, with no further overlap, exactly when it overlaps: when it does
      there are four statements that lead there, and when it does not there are none, however many. */
  lemma TwoSessionsCanFollowExactly(d: Desk, s: Statement)
    requires InOrder(d) && OneHolderEach(d)
    ensures Overlaps(d, s) <==>
            exists run :: NeverOverlaps(Step(d, s), run) && !OneSessionEach(After(Step(d, s), run))
  {
    var e := Step(d, s);
    StepKeepsInOrder(d, s);
    OneHolderEachExactly(d, s);
    if Overlaps(d, s) {
      var c :| c in d.calls && d.calls[c] == Matched(s.traveller, d.codes[s.traveller].serial);
      BothSignIn(e, c, s.call, s.traveller, d.codes[s.traveller].serial);
    } else {
      forall run | NeverOverlaps(e, run) ensures OneSessionEach(After(e, run)) {
        RunsKeepOneHolder(e, run);
        OneHolderOneSession(After(e, run));
      }
    }
  }

  // ---- a run that does overlap

  const OVERLAPPED := [
    Issue("t", "123456", 0), Read(0, "t", "123456", 1), Read(1, "t", "123456", 1),
    Burn(0), Burn(1), Create(0), Create(1)]

  lemma OneStatementMore(run: seq<Statement>, n: nat, d: Desk)
    requires n < |run| && After(Opening, run[..n]) == d
    ensures After(Opening, run[..n + 1]) == Step(d, run[n])
  {
    assert run[..n + 1][..n] == run[..n];
  }

  lemma BothMatched()
    ensures After(Opening, OVERLAPPED[..3]) ==
            Desk(map["t" := Row(Fresh("t", "123456", 0), 0)], 1, map[0 := Matched("t", 0), 1 := Matched("t", 0)])
  {
    var codes := map["t" := Row(Fresh("t", "123456", 0), 0)];
    assert OVERLAPPED[..0] == [];
    OneStatementMore(OVERLAPPED, 0, Opening);
    OneStatementMore(OVERLAPPED, 1, Desk(codes, 1, map[]));
    OneStatementMore(OVERLAPPED, 2, Desk(codes, 1, map[0 := Matched("t", 0)]));
  }

  lemma BothBurned()
    ensures After(Opening, OVERLAPPED[..5]) == Desk(map[], 1, map[0 := Burned("t", 0), 1 := Burned("t", 0)])
  {
    BothMatched();
    var codes := map["t" := Row(Fresh("t", "123456", 0), 0)];
    OneStatementMore(OVERLAPPED, 3, Desk(codes, 1, map[0 := Matched("t", 0), 1 := Matched("t", 0)]));
    OneStatementMore(OVERLAPPED, 4, Desk(map[], 1, map[0 := Burned("t", 0), 1 := Matched("t", 0)]));
  }

  /** Two calls read one code at once, and both get a session. */
  lemma AnOverlapGivesTwoSessions()
    ensures After(Opening, OVERLAPPED).calls == map[0 := Signed("t", 0), 1 := Signed("t", 0)]
  {
    BothBurned();
    OneStatementMore(OVERLAPPED, 5, Desk(map[], 1, map[0 := Burned("t", 0), 1 := Burned("t", 0)]));
    OneStatementMore(OVERLAPPED, 6, Desk(map[], 1, map[0 := Signed("t", 0), 1 := Burned("t", 0)]));
    assert OVERLAPPED[..7] == OVERLAPPED;
  }
}
