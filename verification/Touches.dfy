/** A session's use as the two statements it is: the row is read and judged, and the touch comes later, when the row may
    have expired or been revoked. */
module Touches {
  import opened Options
  import opened Ordering
  import opened Sessions

  type CallId = nat

  /** Where one Authenticate call has got to: it accepted the session at now and is to touch it, or it is over. */
  datatype Phase = Touching(token: Token, now: int) | Ended

  /** used remembers when each session was last accepted, or created, which the table does not. */
  datatype Desk = Desk(table: Table, calls: map<CallId, Phase>, used: map<Token, int>)

  const Opening := Desk(map[], map[], map[])

  datatype Statement =
    | Open(token: Token, traveller: Id)
    | Read(call: CallId, token: Token)
    | Touch(call: CallId)
    | Revoke(traveller: Id, token: Token)
    | RevokeEvery(traveller: Id)

  datatype Event = Event(time: int, statement: Statement)

  function ReadBy(d: Desk, call: CallId, token: Token, now: int): Desk {
    if call in d.calls then d
    else if !Accepts(d.table, token, now) then d.(calls := d.calls[call := Ended])
    else
      d.(calls := d.calls[call := if Touches(d.table, token, now) then Touching(token, now) else Ended],
         used := d.used[token := now])
  }

  /** The UPDATE asks for neither expiry nor revocation. */
  function TouchedBy(ttl: int, d: Desk, call: CallId): Desk {
    if call !in d.calls || !d.calls[call].Touching? then d
    else
      var token, now := d.calls[call].token, d.calls[call].now;
      d.(calls := d.calls[call := Ended],
         table := if token !in d.table then d.table
                  else d.table[token := d.table[token].(lastUsed := now, expires := now + ttl)])
  }

  function CreatedAt(ttl: int, d: Desk, token: Token, traveller: Id, now: int): Desk {
    if token in d.table then d
    else d.(table := Created(ttl, d.table, token, traveller, now), used := d.used[token := now])
  }

  function Step(ttl: int, d: Desk, e: Event): Desk {
    match e.statement
    case Open(token, traveller) => CreatedAt(ttl, d, token, traveller, e.time)
    case Read(call, token) => ReadBy(d, call, token, e.time)
    case Touch(call) => TouchedBy(ttl, d, call)
    case Revoke(traveller, token) => d.(table := RevokedOne(d.table, traveller, token, e.time))
    case RevokeEvery(traveller) => d.(table := Sessions.RevokedEvery(d.table, traveller, e.time))
  }

  function After(ttl: int, d: Desk, run: seq<Event>): Desk {
    if run == [] then d else Step(ttl, After(ttl, d, run[..|run| - 1]), run[|run| - 1])
  }

  /** The clock does not go back, and runs from since to now. */
  predicate Between(since: int, run: seq<Event>, now: int) {
    && since <= now
    && (forall i, j | 0 <= i < j < |run| :: run[i].time <= run[j].time)
    && (forall i | 0 <= i < |run| :: since <= run[i].time <= now)
  }

  /** With nothing in between, the two statements do to the table what presenting the token does. */
  lemma InOneGoItIsThePresenting(ttl: int, d: Desk, call: CallId, token: Token, now: int, later: int)
    requires call !in d.calls
    ensures After(ttl, d, [Event(now, Read(call, token)), Event(later, Touch(call))]).table ==
            Presented(ttl, d.table, token, now)
  {
    var run := [Event(now, Read(call, token)), Event(later, Touch(call))];
    assert run[..1][..0] == [] && run[..1] == [run[0]] && run[..|run| - 1] == run[..1];
    assert After(ttl, d, run[..1]) == Step(ttl, d, run[0]);
  }

  // ---- dead is dead, unless a touch is on its way

  predicate IsToTouch(d: Desk, c: CallId, token: Token) {
    c in d.calls && d.calls[c].Touching? && d.calls[c].token == token
  }

  /** A touch lands on a session that has expired and not been revoked, from a call that accepted it less than the TTL
      ago. */
  predicate Revives(ttl: int, d: Desk, e: Event, token: Token)
    requires token in d.table
  {
    && e.statement.Touch? && IsToTouch(d, e.statement.call, token)
    && d.table[token].revoked.None? && e.time < d.calls[e.statement.call].now + ttl
  }

  /** A session that is dead at some moment is still dead after a statement at that moment, exactly when the statement
      is no such touch. */
  lemma DeadStaysExactly(ttl: int, d: Desk, e: Event, token: Token)
    requires Dead(d.table, token, e.time)
    ensures Dead(Step(ttl, d, e).table, token, e.time) <==> !Revives(ttl, d, e, token)
  {
  }

  /** The session is dead, and no touch on its way can change that: it is revoked, or all of them are too old. */
  ghost predicate Doomed(ttl: int, d: Desk, token: Token, since: int, now: int) {
    && Dead(d.table, token, now)
    && (d.table[token].revoked.Some?
        || forall c | IsToTouch(d, c, token) :: d.calls[c].now + ttl <= since)
  }

  lemma DoomedStays(ttl: int, d: Desk, e: Event, token: Token, since: int)
    requires Doomed(ttl, d, token, since, e.time) && since <= e.time
    ensures Doomed(ttl, Step(ttl, d, e), token, since, e.time)
  {
    DeadStaysExactly(ttl, d, e, token);
  }

  lemma {:induction false} DoomedForGood(ttl: int, d: Desk, run: seq<Event>, token: Token, since: int, now: int)
    requires Doomed(ttl, d, token, since, since) && Between(since, run, now)
    ensures Doomed(ttl, After(ttl, d, run), token, since, now)
    decreases |run|
  {
    if run != [] {
      var e := run[|run| - 1];
      DoomedForGood(ttl, d, run[..|run| - 1], token, since, e.time);
      DoomedStays(ttl, After(ttl, d, run[..|run| - 1]), e, token, since);
    }
  }

  /** Whatever is called from then on, by however many calls, a session that is dead can live again if and only if it
      was not revoked and some call accepted it less than the TTL ago and has yet to touch it. */
  lemma RevivalCanFollowExactly(ttl: int, d: Desk, token: Token, since: int)
    requires Dead(d.table, token, since)
    ensures (exists run, now :: Between(since, run, now) && Accepts(After(ttl, d, run).table, token, now)) <==>
            d.table[token].revoked.None? &&
            exists c :: IsToTouch(d, c, token) && since < d.calls[c].now + ttl
  {
    if Doomed(ttl, d, token, since, since) {
      forall run, now | Between(since, run, now) ensures !Accepts(After(ttl, d, run).table, token, now) {
        DoomedForGood(ttl, d, run, token, since, now);
      }
    } else {
      var c :| IsToTouch(d, c, token) && since < d.calls[c].now + ttl;
      var run := [Event(since, Touch(c))];
      assert run[..0] == [];
      assert Between(since, run, since) && Accepts(After(ttl, d, run).table, token, since);
    }
  }

  /** Revoking holds against every touch: a revoked session is never accepted again, whatever is on its way. */
  lemma RevokedForGood(ttl: int, d: Desk, run: seq<Event>, token: Token, since: int, now: int)
    requires token in d.table && d.table[token].revoked.Some? && Between(since, run, now)
    ensures !Accepts(After(ttl, d, run).table, token, now)
  {
    DoomedForGood(ttl, d, run, token, since, now);
  }

  // ---- what no interleaving can stretch

  /** A session never outlives its last use by more than the TTL, and no touch on its way is of a later use. */
  ghost predicate Bounded(ttl: int, d: Desk, now: int) {
    && (forall t | t in d.used :: d.used[t] <= now)
    && (forall t | t in d.table :: t in d.used && d.table[t].expires <= d.used[t] + ttl)
    && (forall c | c in d.calls && d.calls[c].Touching? ::
          d.calls[c].token in d.used && d.calls[c].now <= d.used[d.calls[c].token])
  }

  lemma ReadKeepsBounded(ttl: int, d: Desk, call: CallId, token: Token, now: int)
    requires Bounded(ttl, d, now)
    ensures Bounded(ttl, ReadBy(d, call, token, now), now)
  {
  }

  lemma TouchKeepsBounded(ttl: int, d: Desk, call: CallId, now: int)
    requires Bounded(ttl, d, now)
    ensures Bounded(ttl, TouchedBy(ttl, d, call), now)
  {
  }

  lemma StepKeepsBounded(ttl: int, d: Desk, e: Event, before: int)
    requires Bounded(ttl, d, before) && before <= e.time
    ensures Bounded(ttl, Step(ttl, d, e), e.time)
  {
    match e.statement
    case Read(call, token) => ReadKeepsBounded(ttl, d, call, token, e.time);
    case Touch(call) => TouchKeepsBounded(ttl, d, call, e.time);
    case _ =>
  }

  /** In every interleaving a session expires within the TTL of the last time it was accepted, or else created. */
  lemma {:induction false} NoInterleavingOutlivesTheWindow(ttl: int, run: seq<Event>, since: int, now: int)
    requires Between(since, run, now)
    ensures Bounded(ttl, After(ttl, Opening, run), now)
  {
    if run != [] {
      var e := run[|run| - 1];
      NoInterleavingOutlivesTheWindow(ttl, run[..|run| - 1], since, e.time);
      StepKeepsBounded(ttl, After(ttl, Opening, run[..|run| - 1]), e, e.time);
    }
  }

  // ---- a run that brings one back

  const TTL := 1000

  const LATE_TOUCH := [
    Event(0, Open("k", "t")), Event(900, Read(0, "k")), Event(1000, Read(1, "k")), Event(1000, Touch(0)),
    Event(1001, Read(2, "k"))]

  lemma OneStatementMore(run: seq<Event>, n: nat, d: Desk)
    requires n < |run| && After(TTL, Opening, run[..n]) == d
    ensures After(TTL, Opening, run[..n + 1]) == Step(TTL, d, run[n])
  {
    assert run[..n + 1][..n] == run[..n];
  }

  lemma RefusedAtItsExpiry()
    ensures After(TTL, Opening, LATE_TOUCH[..3]) ==
            Desk(map["k" := Session("t", 0, 1000, None)], map[0 := Touching("k", 900), 1 := Ended], map["k" := 900])
  {
    var table := map["k" := Session("t", 0, 1000, None)];
    assert LATE_TOUCH[..0] == [];
    OneStatementMore(LATE_TOUCH, 0, Opening);
    OneStatementMore(LATE_TOUCH, 1, Desk(table, map[], map["k" := 0]));
    OneStatementMore(LATE_TOUCH, 2, Desk(table, map[0 := Touching("k", 900)], map["k" := 900]));
  }

  /** A session refused at its expiry is accepted a second later: a call that read it before landed its touch after. */
  lemma ALateTouchRevives()
    ensures Dead(After(TTL, Opening, LATE_TOUCH[..3]).table, "k", 1000)
    ensures Accepts(After(TTL, Opening, LATE_TOUCH[..4]).table, "k", 1001)
    ensures After(TTL, Opening, LATE_TOUCH).used == map["k" := 1001]
  {
    RefusedAtItsExpiry();
    var calls := map[0 := Touching("k", 900), 1 := Ended];
    OneStatementMore(LATE_TOUCH, 3, Desk(map["k" := Session("t", 0, 1000, None)], calls, map["k" := 900]));
    var touched := map["k" := Session("t", 900, 1900, None)];
    OneStatementMore(LATE_TOUCH, 4, Desk(touched, calls[0 := Ended], map["k" := 900]));
    assert LATE_TOUCH[..5] == LATE_TOUCH;
  }
}
