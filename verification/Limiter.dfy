/** The in-memory token bucket: refill arithmetic, and a prune that must be invisible. */
module Limiter {

  type Key = string

  /** Tokens in hand, and the instant they were last brought up to date, in seconds. */
  datatype Bucket = Bucket(tokens: real, last: real)

  /** burst and perSecond, from a limit per minute. */
  datatype Rate = Rate(perMinute: int) {
    function Burst(): real { perMinute as real }
    function PerSecond(): real { perMinute as real / 60.0 }
  }

  function Min(a: real, b: real): real {
    if a < b then a else b
  }

  /** What the clock alone has paid out by t. */
  function Credit(rate: Rate, t: real): real {
    t * rate.PerSecond()
  }

  /** The bucket's tokens with what has been paid out since it was last brought up to date. */
  function Filled(rate: Rate, b: Bucket, now: real): (tokens: real)
    ensures tokens == b.tokens + (now - b.last) * rate.PerSecond()
  {
    b.tokens + Credit(rate, now) - Credit(rate, b.last)
  }

  lemma ProductOfNonNegatives(x: real, y: real)
    requires x >= 0.0 && y >= 0.0
    ensures x * y >= 0.0
  {
  }

  lemma Distributes(u: real, t: real, p: real)
    ensures (u - t) * p == u * p - t * p
  {
  }

  lemma CreditGrows(rate: Rate, t: real, u: real)
    requires rate.perMinute >= 0 && t <= u
    ensures Credit(rate, t) <= Credit(rate, u)
  {
    ProductOfNonNegatives(u - t, rate.PerSecond());
    Distributes(u, t, rate.PerSecond());
  }

  /** Refill, then spend one token if there is one. */
  function Spend(rate: Rate, b: Bucket, now: real): (bool, Bucket) {
    var tokens := Min(rate.Burst(), Filled(rate, b, now));
    if tokens < 1.0 then (false, Bucket(tokens, now)) else (true, Bucket(tokens - 1.0, now))
  }

  function Fresh(rate: Rate, now: real): Bucket {
    Bucket(rate.Burst(), now)
  }

  type Buckets = map<Key, Bucket>

  /** What prune keeps: every bucket that has not refilled to full. */
  function Pruned(rate: Rate, buckets: Buckets, now: real): Buckets {
    map k | k in buckets && Filled(rate, buckets[k], now) < rate.Burst() :: buckets[k]
  }

  /** One Allow. A map at or over the threshold is pruned before a new key goes in. */
  function Allowed(rate: Rate, threshold: nat, buckets: Buckets, key: Key, now: real): (bool, Buckets) {
    var kept := if key !in buckets && |buckets| >= threshold then Pruned(rate, buckets, now) else buckets;
    var (ok, after) := Spend(rate, if key in kept then kept[key] else Fresh(rate, now), now);
    (ok, kept[key := after])
  }

  /** The same limiter with no prune at all. */
  function AllowedForever(rate: Rate, buckets: Buckets, key: Key, now: real): (bool, Buckets) {
    var (ok, after) := Spend(rate, if key in buckets then buckets[key] else Fresh(rate, now), now);
    (ok, buckets[key := after])
  }

  class TokenBucket {
    const rate: Rate
    const threshold: nat
    var buckets: Buckets

    constructor (perMinute: int, threshold: nat)
      ensures rate == Rate(perMinute) && this.threshold == threshold && buckets == map[]
    {
      rate, this.threshold, buckets := Rate(perMinute), threshold, map[];
    }

    /** Deletes inside the loop, keys in any order. */
    method Prune(now: real)
      modifies this
      ensures buckets == Pruned(rate, old(buckets), now)
    {
      var todo := buckets.Keys;
      while todo != {}
        invariant todo <= old(buckets).Keys
        invariant buckets == map k | k in old(buckets) &&
                                     (k in todo || Filled(rate, old(buckets)[k], now) < rate.Burst())
                               :: old(buckets)[k]
      {
        var key :| key in todo;
        if Filled(rate, buckets[key], now) >= rate.Burst() {
          buckets := buckets - {key};
        }
        todo := todo - {key};
      }
    }

    method Allow(key: Key, now: real) returns (ok: bool)
      modifies this
      ensures (ok, buckets) == Allowed(rate, threshold, old(buckets), key, now)
    {
      if key !in buckets && |buckets| >= threshold { Prune(now); }
      ghost var kept := buckets;
      if key !in buckets { buckets := buckets[key := Bucket(rate.Burst(), now)]; }
      var tokens := Min(rate.Burst(), Filled(rate, buckets[key], now));
      ok := tokens >= 1.0;
      buckets := buckets[key := Bucket(if ok then tokens - 1.0 else tokens, now)];
      assert buckets == kept[key := buckets[key]];
    }
  }

  // ---- whole runs

  datatype Call = Call(key: Key, now: real)

  ghost predicate ClockForward(calls: seq<Call>) {
    forall i, j | 0 <= i < j < |calls| :: calls[i].now <= calls[j].now
  }

  function Run(rate: Rate, threshold: nat, buckets: Buckets, calls: seq<Call>): seq<bool>
    decreases |calls|
  {
    if calls == [] then []
    else
      var (ok, after) := Allowed(rate, threshold, buckets, calls[0].key, calls[0].now);
      [ok] + Run(rate, threshold, after, calls[1..])
  }

  function RunForever(rate: Rate, buckets: Buckets, calls: seq<Call>): seq<bool>
    decreases |calls|
  {
    if calls == [] then []
    else
      var (ok, after) := AllowedForever(rate, buckets, calls[0].key, calls[0].now);
      [ok] + RunForever(rate, after, calls[1..])
  }

  /** A limiter whose burst is below one token never grants anything, pruned or not. */
  ghost predicate Barren(rate: Rate) {
    rate.Burst() < 1.0
  }

  /** The pruned map lost only buckets that are full by now, and kept the rest as they were. */
  ghost predicate LostOnlyFull(rate: Rate, pruned: Buckets, whole: Buckets, now: real) {
    && (forall k | k in pruned :: k in whole && pruned[k] == whole[k])
    && (forall k | k in whole && k !in pruned :: Filled(rate, whole[k], now) >= rate.Burst())
  }

  lemma FilledGrows(rate: Rate, b: Bucket, t: real, u: real)
    requires !Barren(rate) && t <= u
    ensures Filled(rate, b, t) <= Filled(rate, b, u)
  {
    CreditGrows(rate, t, u);
  }

  lemma LostOnlyFullLater(rate: Rate, pruned: Buckets, whole: Buckets, t: real, u: real)
    requires !Barren(rate) && t <= u && LostOnlyFull(rate, pruned, whole, t)
    ensures LostOnlyFull(rate, pruned, whole, u)
  {
    forall k | k in whole && k !in pruned ensures Filled(rate, whole[k], u) >= rate.Burst() {
      FilledGrows(rate, whole[k], t, u);
    }
  }

  /** A full bucket and a fresh one spend alike. */
  lemma FullIsFresh(rate: Rate, b: Bucket, now: real)
    requires Filled(rate, b, now) >= rate.Burst()
    ensures Spend(rate, b, now) == Spend(rate, Fresh(rate, now), now)
  {
  }

  lemma OneCallAgrees(rate: Rate, threshold: nat, pruned: Buckets, whole: Buckets, key: Key, now: real)
    requires LostOnlyFull(rate, pruned, whole, now)
    ensures var a, b := Allowed(rate, threshold, pruned, key, now), AllowedForever(rate, whole, key, now);
            a.0 == b.0 && LostOnlyFull(rate, a.1, b.1, now)
  {
    var kept := if key !in pruned && |pruned| >= threshold then Pruned(rate, pruned, now) else pruned;
    assert LostOnlyFull(rate, kept, whole, now);
    if key in whole && key !in kept { FullIsFresh(rate, whole[key], now); }
  }

  lemma {:induction false} BarrenRefuses(rate: Rate, threshold: nat, pruned: Buckets, whole: Buckets, calls: seq<Call>)
    requires Barren(rate)
    ensures Run(rate, threshold, pruned, calls) == RunForever(rate, whole, calls)
    decreases |calls|
  {
    if calls != [] {
      var c := calls[0];
      BarrenRefuses(rate, threshold, Allowed(rate, threshold, pruned, c.key, c.now).1,
                    AllowedForever(rate, whole, c.key, c.now).1, calls[1..]);
    }
  }

  lemma {:induction false} PruningAgrees(rate: Rate, threshold: nat, pruned: Buckets, whole: Buckets,
                                         calls: seq<Call>, since: real)
    requires ClockForward(calls) && forall i | 0 <= i < |calls| :: since <= calls[i].now
    requires !Barren(rate) && LostOnlyFull(rate, pruned, whole, since)
    ensures Run(rate, threshold, pruned, calls) == RunForever(rate, whole, calls)
    decreases |calls|
  {
    if calls != [] {
      var c := calls[0];
      LostOnlyFullLater(rate, pruned, whole, since, c.now);
      OneCallAgrees(rate, threshold, pruned, whole, c.key, c.now);
      assert forall i | 0 <= i < |calls[1..]| :: calls[1..][i] == calls[i + 1];
      PruningAgrees(rate, threshold, Allowed(rate, threshold, pruned, c.key, c.now).1,
                    AllowedForever(rate, whole, c.key, c.now).1, calls[1..], c.now);
    }
  }

  /** For every limit, every threshold and every sequence of calls under a clock that does not go back, the
      answers are those of a limiter that never deletes a bucket. */
  lemma PruningIsInvisible(rate: Rate, threshold: nat, calls: seq<Call>)
    requires ClockForward(calls)
    ensures Run(rate, threshold, map[], calls) == RunForever(rate, map[], calls)
  {
    if Barren(rate) {
      BarrenRefuses(rate, threshold, map[], map[], calls);
    } else if calls != [] {
      PruningAgrees(rate, threshold, map[], map[], calls, calls[0].now);
    }
  }

  // ---- one key's answers are its own

  function Only(calls: seq<Call>, key: Key): seq<Call> {
    if calls == [] then [] else (if calls[0].key == key then [calls[0]] else []) + Only(calls[1..], key)
  }

  /** The answers given to one key's calls. */
  function AnswersTo(calls: seq<Call>, answers: seq<bool>, key: Key): seq<bool>
    requires |calls| == |answers|
  {
    if calls == [] then []
    else (if calls[0].key == key then [answers[0]] else []) + AnswersTo(calls[1..], answers[1..], key)
  }

  lemma {:induction false} RunLength(rate: Rate, buckets: Buckets, calls: seq<Call>)
    ensures |RunForever(rate, buckets, calls)| == |calls|
    decreases |calls|
  {
    if calls != [] { RunLength(rate, AllowedForever(rate, buckets, calls[0].key, calls[0].now).1, calls[1..]); }
  }

  lemma {:induction false} KeyIsAlone(rate: Rate, a: Buckets, b: Buckets, calls: seq<Call>, key: Key)
    requires key in a <==> key in b
    requires key in a ==> a[key] == b[key]
    ensures |RunForever(rate, a, calls)| == |calls|
    ensures AnswersTo(calls, RunForever(rate, a, calls), key) == RunForever(rate, b, Only(calls, key))
    decreases |calls|
  {
    RunLength(rate, a, calls);
    if calls != [] {
      var c := calls[0];
      var (ok, after) := AllowedForever(rate, a, c.key, c.now);
      assert RunForever(rate, a, calls)[1..] == RunForever(rate, after, calls[1..]);
      if c.key == key {
        var (okB, afterB) := AllowedForever(rate, b, c.key, c.now);
        KeyIsAlone(rate, after, afterB, calls[1..], key);
        assert Only(calls, key) == [c] + Only(calls[1..], key);
        assert ([c] + Only(calls[1..], key))[1..] == Only(calls[1..], key);
      } else {
        KeyIsAlone(rate, after, b, calls[1..], key);
        assert Only(calls, key) == Only(calls[1..], key);
      }
    }
  }

  lemma {:induction false} OnlyKeepsTheClock(calls: seq<Call>, key: Key)
    requires ClockForward(calls)
    ensures ClockForward(Only(calls, key))
    ensures forall c | c in Only(calls, key) :: c in calls && c.key == key
  {
    if calls != [] {
      assert calls == [calls[0]] + calls[1..];
      assert forall i | 0 <= i < |calls[1..]| :: calls[1..][i] == calls[i + 1];
      OnlyKeepsTheClock(calls[1..], key);
      var rest := Only(calls[1..], key);
      if calls[0].key == key {
        forall i | 0 <= i < |rest| ensures calls[0].now <= rest[i].now {
          assert rest[i] in rest && rest[i] in calls[1..];
        }
      }
    }
  }

  /** Other keys' calls never change a key's answers, whatever they make the prune do. */
  lemma KeysAreIndependent(rate: Rate, threshold: nat, calls: seq<Call>, key: Key)
    requires ClockForward(calls)
    ensures |Run(rate, threshold, map[], calls)| == |calls|
    ensures AnswersTo(calls, Run(rate, threshold, map[], calls), key) == Run(rate, threshold, map[], Only(calls, key))
  {
    PruningIsInvisible(rate, threshold, calls);
    KeyIsAlone(rate, map[], map[], calls, key);
    OnlyKeepsTheClock(calls, key);
    PruningIsInvisible(rate, threshold, Only(calls, key));
  }

  // ---- how many grants a window can hold

  function Granted(answers: seq<bool>): nat {
    if answers == [] then 0 else (if answers[0] then 1 else 0) + Granted(answers[1..])
  }

  ghost predicate InRange(rate: Rate, b: Bucket) {
    0.0 <= b.tokens <= rate.Burst()
  }

  /** Tokens stay within 0..burst, and a grant never spends what was not there. */
  lemma SpendStaysInRange(rate: Rate, b: Bucket, now: real)
    requires rate.perMinute >= 0 && InRange(rate, b) && b.last <= now
    ensures var (ok, after) := Spend(rate, b, now);
            && InRange(rate, after) && after.last == now
            && after.tokens + (if ok then 1.0 else 0.0) <= Filled(rate, b, now)
            && after.tokens + (if ok then 1.0 else 0.0) <= rate.Burst()
  {
    CreditGrows(rate, b.last, now);
  }

  /** Every grant is paid for by a token in hand at the start or refilled since. */
  lemma {:induction false} GrantsArePaidFor(rate: Rate, b: Bucket, calls: seq<Call>, key: Key, until: real)
    requires rate.perMinute >= 0 && InRange(rate, b) && b.last <= until && ClockForward(calls)
    requires forall i | 0 <= i < |calls| :: calls[i].key == key && b.last <= calls[i].now <= until
    ensures Granted(RunForever(rate, map[key := b], calls)) as real
            <= b.tokens + Credit(rate, until) - Credit(rate, b.last)
    decreases |calls|
  {
    if calls == [] {
      CreditGrows(rate, b.last, until);
    } else {
      var now := calls[0].now;
      var (ok, after) := Spend(rate, b, now);
      SpendStaysInRange(rate, b, now);
      assert forall i | 0 <= i < |calls[1..]| :: calls[1..][i] == calls[i + 1];
      GrantsArePaidFor(rate, after, calls[1..], key, until);
      OneAnswer(rate, b, calls, key);
    }
  }

  lemma OneAnswer(rate: Rate, b: Bucket, calls: seq<Call>, key: Key)
    requires calls != [] && calls[0].key == key
    ensures var (ok, after) := Spend(rate, b, calls[0].now);
            Granted(RunForever(rate, map[key := b], calls))
            == (if ok then 1 else 0) + Granted(RunForever(rate, map[key := after], calls[1..]))
  {
    var (ok, after) := Spend(rate, b, calls[0].now);
    assert map[key := b][key := after] == map[key := after];
    var answers := RunForever(rate, map[key := b], calls);
    assert answers[1..] == RunForever(rate, map[key := after], calls[1..]);
  }

  /** The buckets a run leaves behind when none is ever deleted. */
  function After(rate: Rate, buckets: Buckets, calls: seq<Call>): Buckets
    decreases |calls|
  {
    if calls == [] then buckets
    else After(rate, AllowedForever(rate, buckets, calls[0].key, calls[0].now).1, calls[1..])
  }

  lemma {:induction false} RunSplits(rate: Rate, buckets: Buckets, a: seq<Call>, b: seq<Call>)
    ensures RunForever(rate, buckets, a + b) ==
            RunForever(rate, buckets, a) + RunForever(rate, After(rate, buckets, a), b)
    decreases |a|
  {
    if a == [] {
      assert a + b == b;
    } else {
      assert (a + b)[1..] == a[1..] + b;
      RunSplits(rate, AllowedForever(rate, buckets, a[0].key, a[0].now).1, a[1..], b);
    }
  }

  /** Every bucket's tokens are within 0..burst, and none is dated after now. */
  ghost predicate AllInRange(rate: Rate, buckets: Buckets, now: real) {
    forall k | k in buckets :: InRange(rate, buckets[k]) && buckets[k].last <= now
  }

  lemma AllowedStaysInRange(rate: Rate, threshold: nat, buckets: Buckets, key: Key, now: real)
    requires rate.perMinute >= 0 && AllInRange(rate, buckets, now)
    ensures AllInRange(rate, Allowed(rate, threshold, buckets, key, now).1, now)
    ensures AllInRange(rate, AllowedForever(rate, buckets, key, now).1, now)
  {
    SpendStaysInRange(rate, if key in buckets then buckets[key] else Fresh(rate, now), now);
    SpendStaysInRange(rate, Fresh(rate, now), now);
  }

  /** The buckets a run of the pruning limiter leaves behind. */
  function Left(rate: Rate, threshold: nat, buckets: Buckets, calls: seq<Call>): Buckets
    decreases |calls|
  {
    if calls == [] then buckets
    else Left(rate, threshold, Allowed(rate, threshold, buckets, calls[0].key, calls[0].now).1, calls[1..])
  }

  /** In every state of every run of the limiter, whatever it prunes, each bucket's tokens are within 0..burst. */
  lemma {:induction false} TokensStayInRange(rate: Rate, threshold: nat, buckets: Buckets, calls: seq<Call>,
                                             until: real)
    requires rate.perMinute >= 0 && ClockForward(calls) && AllInRange(rate, buckets, until)
    requires forall i | 0 <= i < |calls| :: calls[i].now <= until && AllInRange(rate, buckets, calls[i].now)
    ensures AllInRange(rate, Left(rate, threshold, buckets, calls), until)
    decreases |calls|
  {
    if calls != [] {
      var c := calls[0];
      AllowedStaysInRange(rate, threshold, buckets, c.key, c.now);
      assert forall i | 0 <= i < |calls[1..]| :: calls[1..][i] == calls[i + 1];
      TokensStayInRange(rate, threshold, Allowed(rate, threshold, buckets, c.key, c.now).1, calls[1..], until);
    }
  }

  lemma {:induction false} ForeverStaysInRange(rate: Rate, buckets: Buckets, calls: seq<Call>, until: real)
    requires rate.perMinute >= 0 && ClockForward(calls) && AllInRange(rate, buckets, until)
    requires forall i | 0 <= i < |calls| :: calls[i].now <= until && AllInRange(rate, buckets, calls[i].now)
    ensures AllInRange(rate, After(rate, buckets, calls), until)
    decreases |calls|
  {
    if calls != [] {
      var c := calls[0];
      AllowedStaysInRange(rate, 0, buckets, c.key, c.now);
      assert forall i | 0 <= i < |calls[1..]| :: calls[1..][i] == calls[i + 1];
      ForeverStaysInRange(rate, AllowedForever(rate, buckets, c.key, c.now).1, calls[1..], until);
    }
  }

  /** The bucket as it would stand at now, already refilled. */
  function Settled(rate: Rate, b: Bucket, now: real): Bucket {
    Bucket(Min(rate.Burst(), Filled(rate, b, now)), now)
  }

  lemma SettledSpendsAlike(rate: Rate, b: Bucket, now: real)
    ensures Spend(rate, Settled(rate, b, now), now) == Spend(rate, b, now)
  {
  }

  lemma WindowFrom(rate: Rate, buckets: Buckets, calls: seq<Call>, key: Key, until: real)
    requires rate.perMinute >= 0 && calls != [] && ClockForward(calls)
    requires forall i | 0 <= i < |calls| :: calls[i].key == key && calls[i].now <= until
    requires key in buckets ==> InRange(rate, buckets[key]) && buckets[key].last <= calls[0].now
    ensures Granted(RunForever(rate, buckets, calls)) as real
            <= rate.Burst() + Credit(rate, until) - Credit(rate, calls[0].now)
  {
    var now := calls[0].now;
    var b := if key in buckets then buckets[key] else Fresh(rate, now);
    CreditGrows(rate, b.last, now);
    var settled := Settled(rate, b, now);
    SettledSpendsAlike(rate, b, now);
    var one := RunForever(rate, buckets, calls);
    var two := RunForever(rate, map[key := settled], calls);
    assert one == two by { SameKeySameAnswers(rate, buckets, map[key := settled], calls, key); }
    GrantsArePaidFor(rate, settled, calls, key, until);
  }

  lemma SameKeySameAnswers(rate: Rate, a: Buckets, b: Buckets, calls: seq<Call>, key: Key)
    requires calls != [] && key in b && forall i | 0 <= i < |calls| :: calls[i].key == key
    requires Spend(rate, if key in a then a[key] else Fresh(rate, calls[0].now), calls[0].now)
          == Spend(rate, b[key], calls[0].now)
    ensures RunForever(rate, a, calls) == RunForever(rate, b, calls)
  {
    var rest := calls[1..];
    var afterA := AllowedForever(rate, a, key, calls[0].now).1;
    var afterB := AllowedForever(rate, b, key, calls[0].now).1;
    OnlyOfOneKey(rest, key);
    KeyIsAlone(rate, afterA, afterB, rest, key);
    KeyIsAlone(rate, afterB, afterB, rest, key);
    AnswersOfOneKey(rest, RunForever(rate, afterA, rest), key);
  }

  lemma {:induction false} OnlyOfOneKey(calls: seq<Call>, key: Key)
    requires forall i | 0 <= i < |calls| :: calls[i].key == key
    ensures Only(calls, key) == calls
  {
    if calls != [] {
      OnlyOfOneKey(calls[1..], key);
      assert calls == [calls[0]] + calls[1..];
    }
  }

  lemma {:induction false} AnswersOfOneKey(calls: seq<Call>, answers: seq<bool>, key: Key)
    requires |calls| == |answers| && forall i | 0 <= i < |calls| :: calls[i].key == key
    ensures AnswersTo(calls, answers, key) == answers
  {
    if calls != [] {
      AnswersOfOneKey(calls[1..], answers[1..], key);
      assert answers == [answers[0]] + answers[1..];
    }
  }

  lemma {:induction false} OnlySplits(a: seq<Call>, b: seq<Call>, key: Key)
    ensures Only(a + b, key) == Only(a, key) + Only(b, key)
  {
    if a == [] {
      assert a + b == b;
    } else {
      OnlySplits(a[1..], b, key);
      OnlyHead(a, a[0], a[1..], key);
      OnlyHead(a + b, a[0], a[1..] + b, key);
    }
  }

  lemma OnlyHead(calls: seq<Call>, first: Call, rest: seq<Call>, key: Key)
    requires calls == [first] + rest
    ensures Only(calls, key) == (if first.key == key then [first] else []) + Only(rest, key)
  {
    assert calls[1..] == rest;
  }

  lemma {:induction false} AnswersSplit(a: seq<Call>, b: seq<Call>, x: seq<bool>, y: seq<bool>, key: Key)
    requires |x| == |a| && |y| == |b|
    ensures AnswersTo(a + b, x + y, key) == AnswersTo(a, x, key) + AnswersTo(b, y, key)
  {
    if a == [] {
      assert a + b == b && x + y == y;
    } else {
      AnswersSplit(a[1..], b, x[1..], y, key);
      AnswersHead(a, x, a[0], x[0], a[1..], x[1..], key);
      AnswersHead(a + b, x + y, a[0], x[0], a[1..] + b, x[1..] + y, key);
    }
  }

  lemma AnswersHead(calls: seq<Call>, answers: seq<bool>, c: Call, x: bool, rest: seq<Call>, xs: seq<bool>, key: Key)
    requires calls == [c] + rest && answers == [x] + xs && |rest| == |xs|
    ensures AnswersTo(calls, answers, key) == (if c.key == key then [x] else []) + AnswersTo(rest, xs, key)
  {
    assert calls[1..] == rest && answers[1..] == xs;
  }

  lemma {:induction false} AnswersToLength(calls: seq<Call>, answers: seq<bool>, key: Key)
    requires |calls| == |answers|
    ensures |AnswersTo(calls, answers, key)| == |Only(calls, key)|
  {
    if calls != [] { AnswersToLength(calls[1..], answers[1..], key); }
  }

  lemma WindowAnswers(rate: Rate, threshold: nat, before: seq<Call>, window: seq<Call>, key: Key)
    requires ClockForward(before + window)
    ensures var answers := Run(rate, threshold, map[], before + window);
            && |answers| == |before| + |window|
            && AnswersTo(window, answers[|before|..], key)
               == RunForever(rate, After(rate, map[], Only(before, key)), Only(window, key))
  {
    var answers := Run(rate, threshold, map[], before + window);
    KeysAreIndependent(rate, threshold, before + window, key);
    var a, b := Only(before, key), Only(window, key);
    OnlySplits(before, window, key);
    OnlyKeepsTheClock(before + window, key);
    PruningIsInvisible(rate, threshold, a + b);
    RunSplits(rate, map[], a, b);
    var x, y := answers[..|before|], answers[|before|..];
    assert answers == x + y;
    AnswersSplit(before, window, x, y, key);
    AnswersToLength(before, x, key);
    RunLength(rate, map[], a);
    SameSplit(AnswersTo(before, x, key), AnswersTo(window, y, key), RunForever(rate, map[], a),
              RunForever(rate, After(rate, map[], a), b));
  }

  lemma SameSplit(a: seq<bool>, b: seq<bool>, c: seq<bool>, d: seq<bool>)
    requires a + b == c + d && |a| == |c|
    ensures b == d
  {
    assert b == (a + b)[|a|..] && d == (c + d)[|c|..];
  }

  /** In every run of calls, over every key and every threshold, the grants to one key in any stretch of the
      run that lies within a time window are at most burst + rate times the window. */
  lemma WindowsAreBounded(rate: Rate, threshold: nat, before: seq<Call>, window: seq<Call>, key: Key,
                          from: real, to: real)
    requires rate.perMinute >= 0 && from <= to && ClockForward(before + window)
    requires forall i | 0 <= i < |window| :: from <= window[i].now <= to
    ensures var answers := Run(rate, threshold, map[], before + window);
            && |answers| == |before| + |window|
            && Granted(AnswersTo(window, answers[|before|..], key)) as real
               <= rate.Burst() + (to - from) * rate.PerSecond()
  {
    WindowAnswers(rate, threshold, before, window, key);
    var a, b := Only(before, key), Only(window, key);
    OnlySplits(before, window, key);
    OnlyKeepsTheClock(before + window, key);
    OnlyMembers(before, key);
    assert forall i | 0 <= i < |a| :: a[i] in a;
    if b != [] { WindowOfOneKey(rate, a, b, window, key, from, to); }
    CreditOfAWindow(rate, from, to);
  }

  lemma CreditOfAWindow(rate: Rate, from: real, to: real)
    requires rate.perMinute >= 0 && from <= to
    ensures 0.0 <= Credit(rate, to) - Credit(rate, from) == (to - from) * rate.PerSecond()
  {
    CreditGrows(rate, from, to);
  }

  lemma WindowOfOneKey(rate: Rate, a: seq<Call>, b: seq<Call>, window: seq<Call>, key: Key, from: real, to: real)
    requires rate.perMinute >= 0 && b != [] && b == Only(window, key) && ClockForward(a + b)
    requires forall i | 0 <= i < |a| :: a[i].key == key
    requires forall i | 0 <= i < |window| :: from <= window[i].now <= to
    ensures Granted(RunForever(rate, After(rate, map[], a), b)) as real
            <= rate.Burst() + Credit(rate, to) - Credit(rate, from)
  {
    var now := b[0].now;
    assert forall i | 0 <= i < |a| :: (a + b)[i] == a[i];
    assert forall i | 0 <= i < |b| :: (a + b)[|a| + i] == b[i];
    OnlyMembers(window, key);
    assert forall i | 0 <= i < |b| :: b[i] in b;
    ForeverStaysInRange(rate, map[], a, now);
    WindowFrom(rate, After(rate, map[], a), b, key, to);
    CreditGrows(rate, from, now);
  }

  lemma {:induction false} OnlyMembers(calls: seq<Call>, key: Key)
    ensures forall c | c in Only(calls, key) :: c in calls && c.key == key
  {
    if calls != [] { OnlyMembers(calls[1..], key); }
  }
}
