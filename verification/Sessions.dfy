/** Sessions whose use is written down lazily: at most once per touch interval. */
module Sessions {
  import opened Options
  import opened Ordering

  type Token = string

  /** TouchInterval, in seconds like every instant and span here. */
  const TOUCH_INTERVAL := 300

  /** A row of sessions; the token stands for its digest. */
  datatype Session = Session(traveller: Id, lastUsed: int, expires: int, revoked: Option<int>)

  type Table = map<Token, Session>

  predicate Live(s: Session, now: int) {
    s.revoked.None? && now < s.expires
  }

  predicate Accepts(table: Table, token: Token, now: int) {
    token in table && Live(table[token], now)
  }

  predicate Touches(table: Table, token: Token, now: int) {
    Accepts(table, token, now) && now - table[token].lastUsed >= TOUCH_INTERVAL
  }

  // ---- one call

  datatype Call =
    | Create(token: Token, traveller: Id)
    | Present(token: Token)
    | Revoke(traveller: Id, token: Token)
    | RevokeEvery(traveller: Id)

  datatype Timed = Timed(time: int, call: Call)

  function Created(ttl: int, table: Table, token: Token, traveller: Id, now: int): Table {
    if token in table then table else table[token := Session(traveller, now, now + ttl, None)]
  }

  function Presented(ttl: int, table: Table, token: Token, now: int): Table {
    if Touches(table, token, now) then table[token := table[token].(lastUsed := now, expires := now + ttl)] else table
  }

  predicate Revocable(s: Session, traveller: Id) {
    s.traveller == traveller && s.revoked.None?
  }

  function RevokedOne(table: Table, traveller: Id, token: Token, now: int): Table {
    if token in table && Revocable(table[token], traveller) then table[token := table[token].(revoked := Some(now))]
    else table
  }

  function RevokedEvery(table: Table, traveller: Id, now: int): Table {
    map t | t in table :: if Revocable(table[t], traveller) then table[t].(revoked := Some(now)) else table[t]
  }

  function Step(ttl: int, table: Table, e: Timed): Table {
    match e.call
    case Create(token, traveller) => Created(ttl, table, token, traveller, e.time)
    case Present(token) => Presented(ttl, table, token, e.time)
    case Revoke(traveller, token) => RevokedOne(table, traveller, token, e.time)
    case RevokeEvery(traveller) => RevokedEvery(table, traveller, e.time)
  }

  // ---- runs

  function From(ttl: int, table: Table, run: seq<Timed>): Table
    decreases |run|
  {
    if run == [] then table else Step(ttl, From(ttl, table, run[..|run| - 1]), run[|run| - 1])
  }

  function After(ttl: int, run: seq<Timed>): Table {
    From(ttl, map[], run)
  }

  /** The clock never goes back, and has not yet passed now. */
  predicate InOrder(run: seq<Timed>, now: int) {
    && (forall i, j | 0 <= i < j < |run| :: run[i].time <= run[j].time)
    && (forall i | 0 <= i < |run| :: run[i].time <= now)
  }

  /** A call that creates this session, or is accepted for it. */
  predicate UsesIt(table: Table, e: Timed, token: Token) {
    match e.call
    case Create(t, _) => t == token && token !in table
    case Present(t) => t == token && Accepts(table, token, e.time)
    case _ => false
  }

  /** A call that creates this session's row, or touches it. */
  predicate WritesIt(table: Table, e: Timed, token: Token) {
    match e.call
    case Create(t, _) => t == token && token !in table
    case Present(t) => t == token && Touches(table, token, e.time)
    case _ => false
  }

  /** When the session was last accepted, or else created. */
  function LastUse(ttl: int, run: seq<Timed>, token: Token): Option<int> {
    if run == [] then None
    else
      var earlier, e := run[..|run| - 1], run[|run| - 1];
      if UsesIt(After(ttl, earlier), e, token) then Some(e.time) else LastUse(ttl, earlier, token)
  }

  /** When the row was written: its creation, and each touch. */
  function Writes(ttl: int, run: seq<Timed>, token: Token): seq<int> {
    if run == [] then []
    else
      var earlier, e := run[..|run| - 1], run[|run| - 1];
      Writes(ttl, earlier, token) + if WritesIt(After(ttl, earlier), e, token) then [e.time] else []
  }

  // ---- the window

  /** The row lags behind the last use by less than the interval, and lives for the TTL from when it was written. */
  ghost predicate Lags(ttl: int, table: Table, token: Token, use: Option<int>, written: seq<int>) {
    if token !in table then use.None? && written == []
    else
      && use.Some? && written != [] && written[|written| - 1] == table[token].lastUsed
      && table[token].lastUsed <= use.value < table[token].lastUsed + TOUCH_INTERVAL
      && table[token].expires == table[token].lastUsed + ttl
  }

  lemma StepLags(ttl: int, table: Table, e: Timed, token: Token, use: Option<int>, written: seq<int>)
    requires Lags(ttl, table, token, use, written) && (token in table ==> use.value <= e.time)
    ensures Lags(ttl, Step(ttl, table, e), token,
                 if UsesIt(table, e, token) then Some(e.time) else use,
                 written + if WritesIt(table, e, token) then [e.time] else [])
  {
  }

  lemma {:induction false} EveryRunLags(ttl: int, run: seq<Timed>, token: Token, now: int)
    requires InOrder(run, now)
    ensures Lags(ttl, After(ttl, run), token, LastUse(ttl, run, token), Writes(ttl, run, token))
    ensures LastUse(ttl, run, token).Some? ==> LastUse(ttl, run, token).value <= now
  {
    if run != [] {
      var earlier, e := run[..|run| - 1], run[|run| - 1];
      EveryRunLags(ttl, earlier, token, e.time);
      StepLags(ttl, After(ttl, earlier), e, token, LastUse(ttl, earlier, token), Writes(ttl, earlier, token));
    }
  }

  /** A session last accepted, or created, at u expires in (u + TTL - interval, u + TTL]. So it is refused
      whenever an exact window of the TTL would refuse it, and accepted whenever one shorter by the interval
      would accept it, unless it was revoked. */
  lemma LazyTouchRefinesTheWindow(ttl: int, run: seq<Timed>, token: Token, now: int)
    requires InOrder(run, now) && token in After(ttl, run)
    ensures LastUse(ttl, run, token).Some?
    ensures var s, u := After(ttl, run)[token], LastUse(ttl, run, token).value;
            && u + ttl - TOUCH_INTERVAL < s.expires <= u + ttl
            && (Accepts(After(ttl, run), token, now) ==> now < u + ttl)
            && (now <= u + ttl - TOUCH_INTERVAL && s.revoked.None? ==> Accepts(After(ttl, run), token, now))
  {
    EveryRunLags(ttl, run, token, now);
  }

  predicate Spaced(times: seq<int>) {
    forall i | 1 <= i < |times| :: times[i - 1] + TOUCH_INTERVAL <= times[i]
  }

  /** Two writes of one row are never less than the interval apart. */
  lemma {:induction false} WritesAreSpaced(ttl: int, run: seq<Timed>, token: Token, now: int)
    requires InOrder(run, now)
    ensures Spaced(Writes(ttl, run, token))
  {
    if run != [] {
      var earlier, e := run[..|run| - 1], run[|run| - 1];
      var table, written := After(ttl, earlier), Writes(ttl, earlier, token);
      WritesAreSpaced(ttl, earlier, token, e.time);
      EveryRunLags(ttl, earlier, token, e.time);
      assert WritesIt(table, e, token) && written != [] ==>
          written[|written| - 1] == table[token].lastUsed <= e.time - TOUCH_INTERVAL;
      assert Spaced(written + [e.time]) || !WritesIt(table, e, token);
    }
  }

  // ---- dead is dead

  predicate Dead(table: Table, token: Token, now: int) {
    token in table && !Live(table[token], now)
  }

  lemma StepKeepsDead(ttl: int, table: Table, e: Timed, token: Token)
    requires Dead(table, token, e.time)
    ensures Dead(Step(ttl, table, e), token, e.time)
  {
  }

  /** A session that is expired or revoked at some instant is refused then and at every later one, whatever is
      called in between. */
  lemma {:induction false} DeadStaysDead(ttl: int, table: Table, since: int, run: seq<Timed>, token: Token, now: int)
    requires Dead(table, token, since) && InOrder(run, now) && since <= now
    requires forall i | 0 <= i < |run| :: since <= run[i].time
    ensures Dead(From(ttl, table, run), token, now) && !Accepts(From(ttl, table, run), token, now)
    decreases |run|
  {
    if run != [] {
      var e := run[|run| - 1];
      DeadStaysDead(ttl, table, since, run[..|run| - 1], token, e.time);
      StepKeepsDead(ttl, From(ttl, table, run[..|run| - 1]), e, token);
    }
  }

  /** Revoking one session, or every session, of its traveller kills it. */
  lemma RevokingKills(ttl: int, table: Table, e: Timed, token: Token)
    requires token in table && e.call in {Revoke(table[token].traveller, token), RevokeEvery(table[token].traveller)}
    ensures Dead(Step(ttl, table, e), token, e.time)
  {
  }
}
