/** Authenticate, the revocations, RequestCode and SignInWithCode over the tables they change. */
module AuthService {
  import opened Options
  import opened Ordering
  import opened Sessions
  import Codes

  const DEFAULT_SESSION_TTL := 30 * 24 * 3600

  datatype Issued = Issued(token: Token, expires: int, traveller: Id)

  class Service {
    const sessionTTL: int
    var travellers: map<string, Id>
    var sessions: Table
    var codes: Codes.Held

    constructor (sessionTTL: int, travellers: map<string, Id>)
      ensures this.sessionTTL == sessionTTL && this.travellers == travellers
      ensures sessions == After(Ttl(), []) && codes == Codes.HeldAfter([])
    {
      this.sessionTTL, this.travellers := sessionTTL, travellers;
      sessions, codes := map[], map[];
    }

    function Ttl(): (ttl: int)
      ensures ttl > 0
    {
      if sessionTTL <= 0 then DEFAULT_SESSION_TTL else sessionTTL
    }

    method Authenticate(token: Token, now: int) returns (traveller: Option<Id>)
      modifies this`sessions
      ensures sessions == Step(Ttl(), old(sessions), Timed(now, Present(token)))
      ensures traveller == if Accepts(old(sessions), token, now) then Some(old(sessions)[token].traveller) else None
    {
      if token !in sessions { return None; }
      var session := sessions[token];
      if session.revoked.Some? || !(now < session.expires) { return None; }
      if now - session.lastUsed >= TOUCH_INTERVAL {
        sessions := sessions[token := session.(lastUsed := now, expires := now + Ttl())];
      }
      return Some(session.traveller);
    }

    method RevokeSession(traveller: Id, token: Token, now: int) returns (moved: bool)
      modifies this`sessions
      ensures sessions == Step(Ttl(), old(sessions), Timed(now, Revoke(traveller, token)))
      ensures moved <==> token in old(sessions) && Revocable(old(sessions)[token], traveller)
    {
      if token !in sessions || sessions[token].traveller != traveller || sessions[token].revoked.Some? { return false; }
      sessions := sessions[token := sessions[token].(revoked := Some(now))];
      return true;
    }

    method RevokeEverySession(traveller: Id, now: int) returns (moved: nat)
      modifies this`sessions
      ensures sessions == Step(Ttl(), old(sessions), Timed(now, RevokeEvery(traveller)))
      ensures moved == |ToRevoke(old(sessions), old(sessions).Keys, traveller)|
    {
      moved := 0;
      ghost var before, target := sessions, RevokedEvery(sessions, traveller, now);
      var left := sessions.Keys;
      while left != {}
        invariant left <= before.Keys == sessions.Keys
        invariant forall t | t in before :: sessions[t] == if t in left then before[t] else target[t]
        invariant moved + |ToRevoke(before, left, traveller)| == |ToRevoke(before, before.Keys, traveller)|
        decreases left
      {
        var t :| t in left;
        OneFewer(before, left, traveller, t);
        if sessions[t].traveller == traveller && sessions[t].revoked.None? {
          sessions := sessions[t := sessions[t].(revoked := Some(now))];
          moved := moved + 1;
        }
        left := left - {t};
      }
      assert sessions == target;
    }

    /** What is mailed, and to whom; nothing for an unknown address or within the interval. */
    method RequestCode(email: string, draw: string, now: int) returns (mail: Option<(string, Id)>)
      requires Codes.WellFormed(draw)
      modifies this`codes
      ensures email !in travellers ==> mail.None? && codes == old(codes)
      ensures email in travellers ==>
                && codes == Codes.Next(old(codes), Codes.Asked(now, Codes.Request(travellers[email], draw)))
                && mail == if Codes.Throttled(old(codes), travellers[email], now) then None
                           else Some((draw, travellers[email]))
    {
      if email !in travellers { return None; }
      var id := travellers[email];
      if id in codes && now - codes[id].issued < Codes.REQUEST_INTERVAL { return None; }
      var hash := Codes.HashCode(id, draw);
      codes := codes[id := Codes.Code(hash.value, now, now + Codes.CODE_TTL, 0)];
      return Some((draw, id));
    }

    /** CountAttempt, then BurnCode at the cap. */
    method CountAttempt(id: Id)
      requires id in codes
      modifies this`codes
      ensures codes == Codes.Counted(old(codes), id)
    {
      codes := codes[id := codes[id].(attempts := codes[id].attempts + 1)];
      if codes[id].attempts >= Codes.MAX_ATTEMPTS { codes := codes - {id}; }
    }

    /** token is the one this call draws; a digest already stored fails the insert, the code being spent by then. */
    method SignInWithCode(email: string, code: string, token: Token, now: int) returns (issued: Option<Issued>)
      modifies this`codes, this`sessions
      ensures email !in travellers ==> issued.None? && codes == old(codes) && sessions == old(sessions)
      ensures email in travellers ==>
                && codes == Codes.Next(old(codes), Codes.Asked(now, Codes.SignIn(travellers[email], code)))
                && (issued.Some? <==> Codes.Admits(old(codes), travellers[email], code, now) && token !in old(sessions))
      ensures issued.None? ==> sessions == old(sessions)
      ensures issued.Some? ==>
                && issued.value == Issued(token, now + Ttl(), travellers[email])
                && sessions == Step(Ttl(), old(sessions), Timed(now, Create(token, travellers[email])))
                && Accepts(sessions, token, now)
    {
      if email !in travellers { return None; }
      var id := travellers[email];
      if id !in codes { return None; }
      var held := codes[id];
      if !(now < held.expires) || held.attempts >= Codes.MAX_ATTEMPTS {
        codes := codes - {id};
        return None;
      }
      var presented := Codes.HashCode(id, code);
      if presented.None? || presented.value != held.hash {
        CountAttempt(id);
        return None;
      }
      codes := codes - {id};
      if token in sessions { return None; }
      sessions := sessions[token := Session(id, now, now + Ttl(), None)];
      return Some(Issued(token, now + Ttl(), id));
    }
  }

  ghost function ToRevoke(table: Table, among: set<Token>, traveller: Id): set<Token> {
    set t | t in among && t in table && Revocable(table[t], traveller)
  }

  lemma OneFewer(table: Table, left: set<Token>, traveller: Id, t: Token)
    requires t in left && t in table
    ensures |ToRevoke(table, left, traveller)| ==
            |ToRevoke(table, left - {t}, traveller)| + if Revocable(table[t], traveller) then 1 else 0
  {
    var rest := ToRevoke(table, left - {t}, traveller);
    assert ToRevoke(table, left, traveller) == if Revocable(table[t], traveller) then rest + {t} else rest;
  }
}
