/** Mailed sign-in codes: six digits, one at a time, for ten minutes and five wrong tries. */
module Codes {
  import opened Options
  import opened Ordering

  const CODE_DIGITS := 6
  const CODE_TTL := 600
  const MAX_ATTEMPTS := 5
  const REQUEST_INTERVAL := 60

  /** The digest of a code, salted with the traveller; two are equal only for equal inputs. */
  datatype Hash = Hash(traveller: Id, code: string)

  datatype Code = Code(hash: Hash, issued: int, expires: int, attempts: nat)

  type Held = map<Id, Code>

  predicate WellFormed(code: string) {
    |code| == CODE_DIGITS && forall i | 0 <= i < |code| :: '0' <= code[i] <= '9'
  }

  method HashCode(traveller: Id, code: string) returns (hash: Option<Hash>)
    ensures hash == if WellFormed(code) then Some(Hash(traveller, code)) else None
  {
    if |code| != CODE_DIGITS { return None; }
    for i := 0 to |code|
      invariant forall j | 0 <= j < i :: '0' <= code[j] <= '9'
    {
      if code[i] < '0' || code[i] > '9' { return None; }
    }
    hash := Some(Hash(traveller, code));
  }

  // ---- one call

  datatype Ask = Request(traveller: Id, draw: string) | SignIn(traveller: Id, code: string)

  datatype Asked = Asked(time: int, ask: Ask)

  predicate Throttled(held: Held, traveller: Id, now: int) {
    traveller in held && now - held[traveller].issued < REQUEST_INTERVAL
  }

  function Fresh(traveller: Id, draw: string, now: int): Code {
    Code(Hash(traveller, draw), now, now + CODE_TTL, 0)
  }

  function Requested(held: Held, traveller: Id, draw: string, now: int): Held {
    if Throttled(held, traveller, now) then held else held[traveller := Fresh(traveller, draw, now)]
  }

  predicate Spent(c: Code, now: int) {
    now >= c.expires || c.attempts >= MAX_ATTEMPTS
  }

  predicate Matches(c: Code, traveller: Id, code: string) {
    WellFormed(code) && c.hash == Hash(traveller, code)
  }

  predicate Admits(held: Held, traveller: Id, code: string, now: int) {
    traveller in held && !Spent(held[traveller], now) && Matches(held[traveller], traveller, code)
  }

  function Counted(held: Held, traveller: Id): Held
    requires traveller in held
  {
    var n := held[traveller].attempts + 1;
    if n >= MAX_ATTEMPTS then held - {traveller} else held[traveller := held[traveller].(attempts := n)]
  }

  function SignedIn(held: Held, traveller: Id, code: string, now: int): Held {
    if traveller !in held then held
    else if Spent(held[traveller], now) then held - {traveller}
    else if Matches(held[traveller], traveller, code) then held - {traveller}
    else Counted(held, traveller)
  }

  function Next(held: Held, a: Asked): Held {
    match a.ask
    case Request(t, draw) => Requested(held, t, draw, a.time)
    case SignIn(t, code) => SignedIn(held, t, code, a.time)
  }

  // ---- runs

  function HeldAfter(run: seq<Asked>): Held {
    if run == [] then map[] else Next(HeldAfter(run[..|run| - 1]), run[|run| - 1])
  }

  predicate Clocked(run: seq<Asked>) {
    && (forall i, j | 0 <= i < j < |run| :: run[i].time <= run[j].time)
    && (forall i | 0 <= i < |run| && run[i].ask.Request? :: WellFormed(run[i].ask.draw))
  }

  /** The k-th call issued this traveller a code. */
  predicate Issues(run: seq<Asked>, k: nat, t: Id)
    requires k < |run|
  {
    run[k].ask.Request? && run[k].ask.traveller == t && !Throttled(HeldAfter(run[..k]), t, run[k].time)
  }

  /** The k-th call gave this traveller a session. */
  predicate Succeeds(run: seq<Asked>, k: nat, t: Id)
    requires k < |run|
  {
    run[k].ask.SignIn? && run[k].ask.traveller == t && Admits(HeldAfter(run[..k]), t, run[k].ask.code, run[k].time)
  }

  /** Which of the first n calls last issued this traveller a code. */
  function LatestIssue(run: seq<Asked>, n: nat, t: Id): (k: Option<nat>)
    requires n <= |run|
    ensures k.Some? ==> k.value < n && Issues(run, k.value, t)
    ensures k.Some? ==> forall i | k.value < i < n :: !Issues(run, i, t)
    ensures k.None? ==> forall i | 0 <= i < n :: !Issues(run, i, t)
  {
    if n == 0 then None
    else if Issues(run, n - 1, t) then Some(n - 1)
    else LatestIssue(run, n - 1, t)
  }

  predicate Tries(a: Asked, t: Id) {
    a.ask.SignIn? && a.ask.traveller == t
  }

  /** How many sign-ins this traveller tried in the calls from i to n. */
  function TriesIn(run: seq<Asked>, i: nat, n: nat, t: Id): nat
    requires n <= |run|
    decreases n
  {
    if n <= i then 0 else TriesIn(run, i, n - 1, t) + if Tries(run[n - 1], t) then 1 else 0
  }

  predicate UsedIn(run: seq<Asked>, i: nat, n: nat, t: Id, code: string)
    requires n <= |run|
  {
    exists k | i <= k < n :: run[k].ask == SignIn(t, code)
  }

  // ---- the state is what the history says

  ghost predicate Told(run: seq<Asked>, n: nat, t: Id)
    requires n <= |run|
  {
    var held, issue := HeldAfter(run[..n]), LatestIssue(run, n, t);
    if issue.None? then t !in held
    else
      var i, draw, at := issue.value, run[issue.value].ask.draw, run[issue.value].time;
      var tries := TriesIn(run, i + 1, n, t);
      if t in held then
        && held[t] == Code(Hash(t, draw), at, at + CODE_TTL, tries)
        && tries < MAX_ATTEMPTS && !UsedIn(run, i + 1, n, t, draw)
      else
        UsedIn(run, i + 1, n, t, draw) || tries >= MAX_ATTEMPTS || run[n - 1].time >= at + CODE_TTL
  }

  lemma ToldStep(run: seq<Asked>, n: nat, t: Id)
    requires Clocked(run) && n < |run| && Told(run, n, t)
    ensures Told(run, n + 1, t)
  {
    var held, a := HeldAfter(run[..n]), run[n];
    assert run[..n + 1][..n] == run[..n];
    assert HeldAfter(run[..n + 1]) == Next(held, a);
    var issue := LatestIssue(run, n, t);
    if issue.Some? && !Issues(run, n, t) {
      var i, draw := issue.value, run[issue.value].ask.draw;
      assert UsedIn(run, i + 1, n + 1, t, draw) <==> UsedIn(run, i + 1, n, t, draw) || a.ask == SignIn(t, draw);
    }
  }

  lemma {:induction false} EveryRunIsTold(run: seq<Asked>, n: nat, t: Id)
    requires Clocked(run) && n <= |run|
    ensures Told(run, n, t)
    decreases n
  {
    if n == 0 {
      assert run[..0] == [];
    } else {
      EveryRunIsTold(run, n - 1, t);
      ToldStep(run, n - 1, t);
    }
  }

  /** A sign-in succeeds exactly when it is the first to present the code last issued to that traveller, before
      that code expires and after fewer than five other tries. */
  lemma SignInSucceedsExactly(run: seq<Asked>, j: nat, t: Id)
    requires Clocked(run) && j < |run| && Tries(run[j], t)
    ensures Succeeds(run, j, t) <==>
            var issue := LatestIssue(run, j, t);
            && issue.Some?
            && run[j].ask.code == run[issue.value].ask.draw
            && run[j].time < run[issue.value].time + CODE_TTL
            && !UsedIn(run, issue.value + 1, j, t, run[issue.value].ask.draw)
            && TriesIn(run, issue.value + 1, j, t) < MAX_ATTEMPTS
  {
    EveryRunIsTold(run, j, t);
  }

  lemma {:induction false} LatestIssueStays(run: seq<Asked>, m: nat, n: nat, t: Id)
    requires m <= n <= |run| && LatestIssue(run, n, t).Some? && LatestIssue(run, n, t).value < m
    ensures LatestIssue(run, m, t) == LatestIssue(run, n, t)
    decreases n
  {
    if m < n { LatestIssueStays(run, m, n - 1, t); }
  }

  /** No issued code ever yields two sessions. */
  lemma EachCodeYieldsAtMostOneSession(run: seq<Asked>, j: nat, k: nat, t: Id)
    requires Clocked(run) && j < k < |run| && Succeeds(run, j, t) && Succeeds(run, k, t)
    ensures LatestIssue(run, j, t).Some? && LatestIssue(run, k, t).Some?
    ensures LatestIssue(run, j, t).value < j < LatestIssue(run, k, t).value
  {
    SignInSucceedsExactly(run, j, t);
    SignInSucceedsExactly(run, k, t);
    var i := LatestIssue(run, k, t).value;
    if i < j { LatestIssueStays(run, j, k, t); }
  }

  /** Between calls no code has used up its tries. */
  lemma AttemptsStayBelowTheCap(run: seq<Asked>, t: Id)
    requires Clocked(run) && t in HeldAfter(run)
    ensures HeldAfter(run)[t].attempts < MAX_ATTEMPTS
    ensures exists i :: 0 <= i < |run| && Issues(run, i, t) && HeldAfter(run)[t].expires == run[i].time + CODE_TTL
  {
    EveryRunIsTold(run, |run|, t);
    assert run[..|run|] == run;
    var i := LatestIssue(run, |run|, t).value;
    assert Issues(run, i, t);
  }

  /** A throttled request changes nothing; any other supersedes the code that was held. */
  lemma ThrottledRequestsChangeNothing(held: Held, t: Id, draw: string, code: string, now: int)
    requires WellFormed(draw)
    ensures var after := Requested(held, t, draw, now);
            && (after == held || after == held[t := Fresh(t, draw, now)])
            && (Throttled(held, t, now) ==> after == held)
            && (!Throttled(held, t, now) ==> (Admits(after, t, code, now) <==> code == draw))
            && forall other, c | other != t :: Admits(after, other, c, now) <==> Admits(held, other, c, now)
  {
  }
}
