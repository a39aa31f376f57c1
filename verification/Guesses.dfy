/** How many wrong codes can be judged against one issued code when sign-ins overlap: a wrong one is counted only some
    time after it was judged. */
module Guesses {
  import opened Ordering
  import opened Codes
  import opened SignIns

  /** missed says of each call that judged its code wrong which issue it was judged against; counted holds those whose
      count has landed on the row of that very issue. The table has neither. */
  datatype Watched = Watched(desk: Desk, missed: map<CallId, nat>, counted: set<CallId>)

  const Unwatched := Watched(Opening, map[], {})

  /** The statement judges a code and finds it wrong. */
  predicate Misses(d: Desk, s: Statement) {
    s.Read? && s.call !in d.calls && Judged(d, s.traveller, s.code, s.now).Counting?
  }

  /** The statement counts a wrong code on some row. */
  predicate Counts(d: Desk, s: Statement) {
    s.Count? && s.call in d.calls && d.calls[s.call].Counting? && d.calls[s.call].traveller in d.codes
  }

  /** And on the row of the issue it was judged against. */
  predicate CountsItsOwn(w: Watched, s: Statement) {
    && Counts(w.desk, s) && s.call in w.missed
    && w.desk.codes[w.desk.calls[s.call].traveller].serial == w.missed[s.call]
  }

  function Watch(w: Watched, s: Statement): Watched {
    Watched(Step(w.desk, s),
            if Misses(w.desk, s) then w.missed[s.call := w.desk.codes[s.traveller].serial] else w.missed,
            if CountsItsOwn(w, s) then w.counted + {s.call} else w.counted)
  }

  function WatchAll(run: seq<Statement>): Watched {
    if run == [] then Unwatched else Watch(WatchAll(run[..|run| - 1]), run[|run| - 1])
  }

  /** The calls that judged a wrong code against the k-th issue. */
  function MissedOf(w: Watched, k: nat): set<CallId> {
    set c | c in w.missed && w.missed[c] == k
  }

  function CountedOf(w: Watched, k: nat): set<CallId> {
    MissedOf(w, k) * w.counted
  }

  /** Those of them that have not counted it on that issue: still to do so, failed, or overtaken by a new code. */
  function UncountedOf(w: Watched, k: nat): set<CallId> {
    MissedOf(w, k) - w.counted
  }

  // ---- a row's attempts are at least the misses counted on it

  ghost predicate AttemptsCover(w: Watched) {
    && InOrder(w.desk)
    && (forall c | c in w.missed :: c in w.desk.calls && w.missed[c] < w.desk.issued)
    && (forall t | t in w.desk.codes :: |CountedOf(w, w.desk.codes[t].serial)| <= w.desk.codes[t].code.attempts)
  }

  lemma NoneOfAFreshIssue(w: Watched)
    requires AttemptsCover(w)
    ensures MissedOf(w, w.desk.issued) == {}
  {
  }

  lemma IssueKeepsCover(w: Watched, t: Id, draw: string, now: int)
    requires AttemptsCover(w)
    ensures AttemptsCover(Watch(w, Issue(t, draw, now)))
  {
    var after := Watch(w, Issue(t, draw, now));
    StepKeepsInOrder(w.desk, Issue(t, draw, now));
    NoneOfAFreshIssue(w);
    forall u | u in after.desk.codes
      ensures |CountedOf(after, after.desk.codes[u].serial)| <= after.desk.codes[u].code.attempts
    {
      assert CountedOf(after, after.desk.codes[u].serial) == CountedOf(w, after.desk.codes[u].serial);
    }
  }

  ghost predicate CountedHaveMissed(w: Watched) {
    w.counted <= w.missed.Keys
  }

  /** A code judged wrong by a new call is counted on no issue yet. */
  lemma SameCounted(w: Watched, missed: map<CallId, nat>, call: CallId, serial: nat, k: nat)
    requires call !in w.counted && missed == w.missed[call := serial]
    ensures CountedOf(w.(missed := missed), k) == CountedOf(w, k)
  {
  }

  /** A statement that leaves the codes, and counts nothing new, leaves them covered. */
  lemma StillCovered(w: Watched, after: Watched)
    requires AttemptsCover(w) && InOrder(after.desk) && after.desk.issued >= w.desk.issued
    requires forall c | c in after.missed :: c in after.desk.calls && after.missed[c] < after.desk.issued
    requires forall t | t in after.desk.codes :: t in w.desk.codes && after.desk.codes[t] == w.desk.codes[t]
    requires forall k: nat :: CountedOf(after, k) == CountedOf(w, k)
    ensures AttemptsCover(after)
  {
  }

  lemma ReadKeepsCover(w: Watched, s: Statement)
    requires AttemptsCover(w) && CountedHaveMissed(w) && s.Read?
    ensures AttemptsCover(Watch(w, s)) && CountedHaveMissed(Watch(w, s))
  {
    var after := Watch(w, s);
    StepKeepsInOrder(w.desk, s);
    if Misses(w.desk, s) {
      forall k: nat ensures CountedOf(after, k) == CountedOf(w, k) {
        SameCounted(w, after.missed, s.call, w.desk.codes[s.traveller].serial, k);
      }
    }
    StillCovered(w, after);
  }

  lemma OneMoreCounted(w: Watched, s: Statement, k: nat)
    requires s.Count?
    ensures var after := Watch(w, s);
            |CountedOf(after, k)| <= |CountedOf(w, k)| + if CountsItsOwn(w, s) && w.missed[s.call] == k then 1 else 0
  {
    var after := Watch(w, s);
    if CountsItsOwn(w, s) && w.missed[s.call] == k {
      assert CountedOf(after, k) == CountedOf(w, k) + {s.call};
    } else {
      assert CountedOf(after, k) == CountedOf(w, k);
    }
  }

  lemma CountKeepsCover(w: Watched, s: Statement)
    requires AttemptsCover(w) && CountedHaveMissed(w) && s.Count?
    ensures AttemptsCover(Watch(w, s)) && CountedHaveMissed(Watch(w, s))
  {
    var after := Watch(w, s);
    StepKeepsInOrder(w.desk, s);
    forall u | u in after.desk.codes
      ensures |CountedOf(after, after.desk.codes[u].serial)| <= after.desk.codes[u].code.attempts
    {
      OneMoreCounted(w, s, after.desk.codes[u].serial);
    }
  }

  lemma OtherStatementsTouchNoRow(d: Desk, s: Statement)
    requires !s.Issue? && !s.Read? && !s.Count?
    ensures Step(d, s).issued == d.issued && d.calls.Keys == Step(d, s).calls.Keys
    ensures forall t | t in Step(d, s).codes :: t in d.codes && Step(d, s).codes[t] == d.codes[t]
  {
  }

  lemma OtherKeepsCover(w: Watched, s: Statement)
    requires AttemptsCover(w) && CountedHaveMissed(w) && !s.Issue? && !s.Read? && !s.Count?
    ensures AttemptsCover(Watch(w, s)) && CountedHaveMissed(Watch(w, s))
  {
    StepKeepsInOrder(w.desk, s);
    OtherStatementsTouchNoRow(w.desk, s);
    StillCovered(w, Watch(w, s));
  }

  lemma WatchKeepsCover(w: Watched, s: Statement)
    requires AttemptsCover(w) && CountedHaveMissed(w)
    ensures AttemptsCover(Watch(w, s)) && CountedHaveMissed(Watch(w, s))
  {
    match s
    case Issue(t, draw, now) => IssueKeepsCover(w, t, draw, now);
    case Read(_, _, _, _) => ReadKeepsCover(w, s);
    case Count(_) => CountKeepsCover(w, s);
    case _ => OtherKeepsCover(w, s);
  }

  lemma {:induction false} EveryRunIsCovered(run: seq<Statement>)
    ensures AttemptsCover(WatchAll(run)) && CountedHaveMissed(WatchAll(run))
  {
    if run != [] {
      EveryRunIsCovered(run[..|run| - 1]);
      WatchKeepsCover(WatchAll(run[..|run| - 1]), run[|run| - 1]);
    }
  }

  // ---- the bound

  lemma SizeOfMissed(w: Watched, k: nat)
    ensures |MissedOf(w, k)| == |CountedOf(w, k)| + |UncountedOf(w, k)|
  {
    assert MissedOf(w, k) == CountedOf(w, k) + UncountedOf(w, k);
  }

  lemma OneMoreMissed(w: Watched, s: Statement, k: nat)
    ensures |MissedOf(Watch(w, s), k)| <= |MissedOf(w, k)| + 1
  {
    if Misses(w.desk, s) {
      var more := MissedOf(w, k) + {s.call};
      assert MissedOf(Watch(w, s), k) <= more;
      Smaller(MissedOf(Watch(w, s), k), more);
    } else {
      assert MissedOf(Watch(w, s), k) == MissedOf(w, k);
    }
  }

  lemma {:induction false} Smaller(a: set<CallId>, b: set<CallId>)
    requires a <= b
    ensures |a| <= |b|
    decreases |a|
  {
    if a != {} {
      var x :| x in a;
      Smaller(a - {x}, b - {x});
    }
  }

  /** When one more code is judged wrong against an issue, fewer than five of those before it have been counted. */
  lemma JudgedWithRoom(w: Watched, s: Statement)
    requires AttemptsCover(w) && Misses(w.desk, s)
    ensures var k := w.desk.codes[s.traveller].serial;
            && |CountedOf(w, k)| < MAX_ATTEMPTS
            && |MissedOf(Watch(w, s), k)| <= MAX_ATTEMPTS + |UncountedOf(w, k)|
  {
    var k := w.desk.codes[s.traveller].serial;
    SizeOfMissed(w, k);
    OneMoreMissed(w, s, k);
  }

  lemma OthersMissElsewhere(w: Watched, s: Statement, k: nat)
    requires AttemptsCover(w) && !(Misses(w.desk, s) && w.desk.codes[s.traveller].serial == k)
    ensures MissedOf(Watch(w, s), k) == MissedOf(w, k)
  {
  }

  /** Wherever a wrong code is judged against the k-th issue, at most m earlier ones are not counted yet. */
  ghost predicate NeverMoreThan(run: seq<Statement>, k: nat, m: nat) {
    forall i | 0 <= i < |run| && Misses(WatchAll(run[..i]).desk, run[i])
               && WatchAll(run[..i]).desk.codes[run[i].traveller].serial == k ::
      |UncountedOf(WatchAll(run[..i]), k)| <= m
  }

  lemma NeverMoreEarlier(run: seq<Statement>, k: nat, m: nat, most: seq<Statement>, last: Statement)
    requires run == most + [last] && NeverMoreThan(run, k, m)
    ensures NeverMoreThan(most, k, m)
    ensures Misses(WatchAll(most).desk, last) && WatchAll(most).desk.codes[last.traveller].serial == k ==>
              |UncountedOf(WatchAll(most), k)| <= m
    ensures WatchAll(run) == Watch(WatchAll(most), last)
  {
    assert run[..|most|] == most && run[|most|] == last && run[..|run| - 1] == most;
    assert forall i | 0 <= i < |most| :: most[..i] == run[..i] && most[i] == run[i];
  }

  /** In every interleaving, an issued code has no more than five wrong codes judged against it, plus as many as were
      ever read and not yet counted when another was read. */
  lemma {:induction false} GuessesAreBounded(run: seq<Statement>, k: nat, m: nat)
    requires NeverMoreThan(run, k, m)
    ensures |MissedOf(WatchAll(run), k)| <= MAX_ATTEMPTS + m
  {
    if run != [] {
      var most, s := run[..|run| - 1], run[|run| - 1];
      var w := WatchAll(most);
      NeverMoreEarlier(run, k, m, most, s);
      GuessesAreBounded(most, k, m);
      EveryRunIsCovered(most);
      if Misses(w.desk, s) && w.desk.codes[s.traveller].serial == k {
        JudgedWithRoom(w, s);
      } else {
        OthersMissElsewhere(w, s, k);
      }
    } else {
      assert MissedOf(Unwatched, k) == {};
    }
  }

  /** One sign-in at a time, a code is guessed at five times at most. */
  lemma OneAtATimeFiveAtMost(run: seq<Statement>, k: nat)
    requires NeverMoreThan(run, k, 0)
    ensures |MissedOf(WatchAll(run), k)| <= MAX_ATTEMPTS
  {
    GuessesAreBounded(run, k, 0);
  }

  // ---- the bound is reached

  /** One issue, n wrong codes judged and counted one at a time, and r more judged and not counted. */
  function Guessing(n: nat, r: nat): seq<Statement>
    decreases n, r
  {
    if r > 0 then Guessing(n, r - 1) + [WrongCode(n + r - 1)]
    else if n > 0 then (Guessing(n - 1, 0) + [WrongCode(n - 1)]) + [Count(n - 1)]
    else [Issue("t", "123456", 0)]
  }

  function WrongCode(call: CallId): Statement {
    Read(call, "t", "000000", 1)
  }

  function Calls(n: nat, m: nat): (calls: set<CallId>)
    requires n <= m
    ensures |calls| == m - n && forall c: CallId :: c in calls <==> n <= c < m
  {
    if n == m then {} else Calls(n, m - 1) + {m - 1}
  }

  function RowAfter(n: nat): Row {
    Row(Code(Hash("t", "123456"), 0, CODE_TTL, n), 0)
  }

  function CallsAfter(n: nat, r: nat): (calls: map<CallId, Phase>)
    ensures forall c: CallId :: c in calls <==> c < n + r
    decreases n, r
  {
    if r > 0 then CallsAfter(n, r - 1)[n + r - 1 := Counting("t")]
    else if n > 0 then CallsAfter(n - 1, 1)[n - 1 := Ended]
    else map[]
  }

  function MissedAfter(n: nat): (missed: map<CallId, nat>)
    ensures (forall c: CallId :: c in missed <==> c < n) && forall c | c in missed :: missed[c] == 0
  {
    if n == 0 then map[] else MissedAfter(n - 1)[n - 1 := 0]
  }

  function OneIssue(n: nat, calls: map<CallId, Phase>, missed: map<CallId, nat>, counted: set<CallId>): Watched {
    Watched(Desk(map["t" := RowAfter(n)], 1, calls), missed, counted)
  }

  function Reached(n: nat, r: nat): Watched {
    OneIssue(n, CallsAfter(n, r), MissedAfter(n + r), Calls(0, n))
  }

  lemma WrongOnDesk(d: Desk, n: nat, call: CallId)
    requires n < MAX_ATTEMPTS && call !in d.calls && d.codes == map["t" := RowAfter(n)]
    ensures Misses(d, WrongCode(call)) && d.codes["t"].serial == 0
    ensures Step(d, WrongCode(call)) == d.(calls := d.calls[call := Counting("t")])
  {
    assert Judged(d, "t", "000000", 1) == Counting("t");
  }

  lemma WatchWrong(n: nat, calls: map<CallId, Phase>, missed: map<CallId, nat>, counted: set<CallId>, call: CallId)
    requires n < MAX_ATTEMPTS && call !in calls
    ensures Watch(OneIssue(n, calls, missed, counted), WrongCode(call)) ==
            OneIssue(n, calls[call := Counting("t")], missed[call := 0], counted)
  {
    WrongOnDesk(OneIssue(n, calls, missed, counted).desk, n, call);
  }

  lemma OneWrongReached(n: nat, r: nat)
    ensures CallsAfter(n, r + 1) == CallsAfter(n, r)[n + r := Counting("t")] && n + r !in CallsAfter(n, r)
    ensures MissedAfter(n + (r + 1)) == MissedAfter(n + r)[n + r := 0]
  {
  }

  lemma OneMoreWrong(n: nat, r: nat)
    requires n < MAX_ATTEMPTS
    ensures Watch(Reached(n, r), WrongCode(n + r)) == Reached(n, r + 1)
  {
    OneWrongReached(n, r);
    WatchWrong(n, CallsAfter(n, r), MissedAfter(n + r), Calls(0, n), n + r);
  }

  lemma CountsOnDesk(d: Desk, n: nat)
    requires n + 1 < MAX_ATTEMPTS && n in d.calls && d.calls[n] == Counting("t") && d.codes == map["t" := RowAfter(n)]
    ensures Counts(d, Count(n))
    ensures CountedBy(d, n) == d.(codes := map["t" := RowAfter(n + 1)], calls := d.calls[n := Ended])
  {
    assert d.codes["t" := RowAfter(n + 1)] == map["t" := RowAfter(n + 1)];
  }

  lemma OneMoreCounts(n: nat)
    requires n + 1 < MAX_ATTEMPTS
    ensures Watch(Reached(n, 1), Count(n)) == Reached(n + 1, 0)
  {
    CountsOnDesk(Reached(n, 1).desk, n);
  }

  lemma OneStatementOn(run: seq<Statement>, s: Statement)
    ensures WatchAll(run + [s]) == Watch(WatchAll(run), s)
  {
    assert (run + [s])[..|run|] == run;
  }

  lemma OneWrongOn(run: seq<Statement>, n: nat, r: nat)
    requires n < MAX_ATTEMPTS && WatchAll(run) == Reached(n, r)
    ensures WatchAll(run + [WrongCode(n + r)]) == Reached(n, r + 1)
  {
    OneStatementOn(run, WrongCode(n + r));
    OneMoreWrong(n, r);
  }

  lemma OneCountedOn(run: seq<Statement>, n: nat)
    requires n + 1 < MAX_ATTEMPTS && WatchAll(run) == Reached(n, 0)
    ensures WatchAll((run + [WrongCode(n)]) + [Count(n)]) == Reached(n + 1, 0)
  {
    OneWrongOn(run, n, 0);
    OneStatementOn(run + [WrongCode(n)], Count(n));
    OneMoreCounts(n);
  }

  lemma FirstIssued()
    ensures WatchAll([Issue("t", "123456", 0)]) == Reached(0, 0)
  {
    OneStatementOn([], Issue("t", "123456", 0));
    assert [] + [Issue("t", "123456", 0)] == [Issue("t", "123456", 0)];
    assert CallsAfter(0, 0) == map[];
  }

  lemma {:induction false} GuessingReaches(n: nat, r: nat)
    requires n < MAX_ATTEMPTS
    ensures WatchAll(Guessing(n, r)) == Reached(n, r)
    decreases n, r
  {
    if r > 0 {
      GuessingReaches(n, r - 1);
      OneWrongOn(Guessing(n, r - 1), n, r - 1);
    } else if n > 0 {
      GuessingReaches(n - 1, 0);
      OneCountedOn(Guessing(n - 1, 0), n - 1);
    } else {
      FirstIssued();
    }
  }

  lemma ReachedCounts(n: nat, r: nat)
    ensures |MissedOf(Reached(n, r), 0)| == n + r && |UncountedOf(Reached(n, r), 0)| == r
  {
    assert MissedOf(Reached(n, r), 0) == Calls(0, n + r);
    assert UncountedOf(Reached(n, r), 0) == Calls(n, n + r);
  }

  lemma OneStatementNeverMore(run: seq<Statement>, s: Statement, m: nat)
    requires NeverMoreThan(run, 0, m)
    requires Misses(WatchAll(run).desk, s) ==> |UncountedOf(WatchAll(run), 0)| <= m
    ensures NeverMoreThan(run + [s], 0, m)
  {
    var more := run + [s];
    forall i | 0 <= i < |more| && Misses(WatchAll(more[..i]).desk, more[i])
               && WatchAll(more[..i]).desk.codes[more[i].traveller].serial == 0
      ensures |UncountedOf(WatchAll(more[..i]), 0)| <= m
    {
      if i < |run| {
        assert more[..i] == run[..i] && more[i] == run[i];
      } else {
        assert more[..i] == run && more[i] == s;
      }
    }
  }

  lemma {:induction false} GuessingNeverMore(n: nat, r: nat, m: nat)
    requires n < MAX_ATTEMPTS && r <= m + 1
    ensures NeverMoreThan(Guessing(n, r), 0, m)
    decreases n, r
  {
    if r > 0 {
      GuessingNeverMore(n, r - 1, m);
      GuessingReaches(n, r - 1);
      ReachedCounts(n, r - 1);
      OneStatementNeverMore(Guessing(n, r - 1), WrongCode(n + r - 1), m);
    } else if n > 0 {
      GuessingNeverMore(n - 1, 0, m);
      GuessingReaches(n - 1, 0);
      ReachedCounts(n - 1, 0);
      OneStatementNeverMore(Guessing(n - 1, 0), WrongCode(n - 1), m);
      OneStatementNeverMore(Guessing(n - 1, 0) + [WrongCode(n - 1)], Count(n - 1), m);
    } else {
      var none: seq<Statement> := [];
      OneStatementNeverMore(none, Issue("t", "123456", 0), m);
      assert [] + [Issue("t", "123456", 0)] == [Issue("t", "123456", 0)];
    }
  }

  /** For every m there is a run in which the bound is met exactly: with m calls yet to count, five and m more codes are
      judged. So overlapping calls can guess any number of times. */
  lemma TheBoundIsReached(m: nat)
    ensures NeverMoreThan(Guessing(4, m + 1), 0, m)
    ensures |MissedOf(WatchAll(Guessing(4, m + 1)), 0)| == MAX_ATTEMPTS + m
  {
    GuessingNeverMore(4, m + 1, m);
    GuessingReaches(4, m + 1);
    ReachedCounts(4, m + 1);
  }
}
