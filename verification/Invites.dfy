/** Single-use invites: spent before the account is made, in however many registrations at once. */
module Invites {
  import opened Ordering

  type Digest = string
  type CallId = nat

  /** Where one RegisterWithInvite call has got to. */
  datatype Phase = Claimed(hash: Digest) | Made(hash: Digest, account: Id) | Ended

  /** invites says of each digest in the table whether it is marked used; emails which account holds each address.
      drawn and spent remember every digest ever minted and ever spent, which the table does not. */
  datatype Desk = Desk(
    invites: map<Digest, bool>,
    emails: map<string, Id>,
    calls: map<CallId, Phase>,
    drawn: set<Digest>,
    spent: set<Digest>)

  const Opening := Desk(map[], map[], map[], {}, {})

  /** The statements of registrations, in any interleaving, and those of the admin panel that add or remove rows. */
  datatype Statement =
    | Mint(hash: Digest)
    | Revoke(hash: Digest)
    | Spend(call: CallId, hash: Digest)
    | CreateTraveller(call: CallId, email: string, account: Id)
    | DeleteTraveller(email: string)

  /** Codes are drawn at random, so a digest is minted once. */
  function Minted(d: Desk, hash: Digest): Desk {
    if hash in d.drawn then d else d.(invites := d.invites[hash := false], drawn := d.drawn + {hash})
  }

  /** One UPDATE ... WHERE used_at IS NULL claims an invite or answers that it is spent. */
  function Spent(d: Desk, call: CallId, hash: Digest): Desk {
    if call in d.calls then d
    else if hash in d.invites && !d.invites[hash] then
      d.(invites := d.invites[hash := true], calls := d.calls[call := Claimed(hash)], spent := d.spent + {hash})
    else d.(calls := d.calls[call := Ended])
  }

  /** An address already held ends the call; its invite stays spent. */
  function CreatedFor(d: Desk, call: CallId, email: string, account: Id): Desk {
    if call !in d.calls || !d.calls[call].Claimed? then d
    else if email in d.emails then d.(calls := d.calls[call := Ended])
    else d.(emails := d.emails[email := account], calls := d.calls[call := Made(d.calls[call].hash, account)])
  }

  /** DeleteInvite removes the row whether it is used or not. */
  function Step(d: Desk, s: Statement): Desk {
    match s
    case Mint(hash) => Minted(d, hash)
    case Revoke(hash) => d.(invites := d.invites - {hash})
    case Spend(call, hash) => Spent(d, call, hash)
    case CreateTraveller(call, email, account) => CreatedFor(d, call, email, account)
    case DeleteTraveller(email) => d.(emails := d.emails - {email})
  }

  function After(run: seq<Statement>): Desk {
    if run == [] then Opening else Step(After(run[..|run| - 1]), run[|run| - 1])
  }

  predicate Holds(d: Desk, c: CallId) {
    c in d.calls && !d.calls[c].Ended?
  }

  // ---- what no statement breaks

  /** The table marks used exactly those of its digests that were ever spent; a call past its first statement holds
      a digest that was spent, and no other call holds the same one. */
  ghost predicate OneEach(d: Desk) {
    && d.invites.Keys <= d.drawn && d.spent <= d.drawn
    && (forall h | h in d.invites :: d.invites[h] <==> h in d.spent)
    && (forall c | Holds(d, c) :: d.calls[c].hash in d.spent)
    && (forall c, e | Holds(d, c) && Holds(d, e) && c != e :: d.calls[c].hash != d.calls[e].hash)
  }

  lemma StepKeepsOneEach(d: Desk, s: Statement)
    requires OneEach(d)
    ensures OneEach(Step(d, s)) && d.spent <= Step(d, s).spent
  {
  }

  lemma {:induction false} EveryRunIsOneEach(run: seq<Statement>)
    ensures OneEach(After(run))
  {
    if run != [] {
      EveryRunIsOneEach(run[..|run| - 1]);
      StepKeepsOneEach(After(run[..|run| - 1]), run[|run| - 1]);
    }
  }

  function MadeCalls(d: Desk): set<CallId> {
    set c | c in d.calls && d.calls[c].Made?
  }

  lemma {:induction false} InjectionCounts(d: Desk, calls: set<CallId>, hashes: set<Digest>)
    requires OneEach(d) && calls <= MadeCalls(d)
    requires forall c | c in calls :: d.calls[c].hash in hashes
    ensures |calls| <= |hashes|
    decreases |calls|
  {
    if calls != {} {
      var c :| c in calls;
      InjectionCounts(d, calls - {c}, hashes - {d.calls[c].hash});
    }
  }

  /** Whatever the interleaving, and whatever invites were revoked and accounts deleted since: no digest has made two
      accounts, and the accounts made by invite never outnumber the digests ever spent. */
  lemma AccountsNeverOutnumberSpentInvites(run: seq<Statement>)
    ensures var d := After(run);
            && |MadeCalls(d)| <= |d.spent|
            && forall c, e | c in MadeCalls(d) && e in MadeCalls(d) && d.calls[c].hash == d.calls[e].hash :: c == e
  {
    EveryRunIsOneEach(run);
    InjectionCounts(After(run), MadeCalls(After(run)), After(run).spent);
  }

  // ---- what the table itself still says

  /** The digests of rows marked used. */
  function SpentRows(d: Desk): set<Digest> {
    set h | h in d.invites && d.invites[h]
  }

  /** Every digest a call holds is still a row of the table. */
  ghost predicate OnRecord(d: Desk) {
    forall c | Holds(d, c) :: d.calls[c].hash in d.invites
  }

  /** The panel revokes an invite that a registration holds or has used. */
  ghost predicate Unrecords(d: Desk, s: Statement) {
    s.Revoke? && exists c :: Holds(d, c) && d.calls[c].hash == s.hash
  }

  /** A statement keeps every held digest on record exactly when it is not such a revocation. */
  lemma StaysOnRecordExactly(d: Desk, s: Statement)
    requires OneEach(d) && OnRecord(d)
    ensures OnRecord(Step(d, s)) <==> !Unrecords(d, s)
  {
    if Unrecords(d, s) {
      var c :| Holds(d, c) && d.calls[c].hash == s.hash;
      assert Holds(Step(d, s), c);
    }
  }

  /** A row marked used goes, or stops being marked, exactly when it is revoked. */
  lemma SpentRowsStayExactly(d: Desk, s: Statement)
    requires OneEach(d)
    ensures SpentRows(d) <= SpentRows(Step(d, s)) <==> !(s.Revoke? && s.hash in SpentRows(d))
  {
    var after := Step(d, s);
    if s.Revoke? && s.hash in SpentRows(d) {
      assert s.hash !in SpentRows(after);
    } else {
      assert forall h | h in SpentRows(d) :: h in after.invites && after.invites[h];
    }
  }

  lemma {:induction false} RunStaysOnRecord(run: seq<Statement>)
    requires forall i | 0 <= i < |run| :: !Unrecords(After(run[..i]), run[i])
    ensures OnRecord(After(run))
  {
    if run != [] {
      var earlier := run[..|run| - 1];
      assert forall i | 0 <= i < |earlier| :: earlier[..i] == run[..i];
      RunStaysOnRecord(earlier);
      EveryRunIsOneEach(earlier);
      StaysOnRecordExactly(After(earlier), run[|run| - 1]);
    }
  }

  /** In a run that never revokes an invite in use, the accounts made never outnumber the rows marked used. */
  lemma AccountsNeverOutnumberSpentRows(run: seq<Statement>)
    requires forall i | 0 <= i < |run| :: !Unrecords(After(run[..i]), run[i])
    ensures |MadeCalls(After(run))| <= |SpentRows(After(run))|
  {
    var d := After(run);
    EveryRunIsOneEach(run);
    RunStaysOnRecord(run);
    assert forall c | c in MadeCalls(d) :: Holds(d, c) && d.calls[c].hash in SpentRows(d);
    InjectionCounts(d, MadeCalls(d), SpentRows(d));
  }

  const REVOKED_IN_FLIGHT := [Mint("h"), Spend(0, "h"), Revoke("h"), CreateTraveller(0, "e", "a")]

  /** Revoked between its claim and the account: one account, and no row that says an invite was used. */
  lemma ARevokedClaimStillMakesAnAccount()
    ensures |MadeCalls(After(REVOKED_IN_FLIGHT))| == 1 && SpentRows(After(REVOKED_IN_FLIGHT)) == {}
  {
    var run := REVOKED_IN_FLIGHT;
    assert run[..3][..2] == run[..2] && run[..2][..1] == run[..1] && run[..1][..0] == [] && run[..4] == run;
    assert After(run[..1]) == Desk(map["h" := false], map[], map[], {"h"}, {});
    assert After(run[..2]) == Desk(map["h" := true], map[], map[0 := Claimed("h")], {"h"}, {"h"});
    assert After(run[..3]) == Desk(map[], map[], map[0 := Claimed("h")], {"h"}, {"h"});
    assert After(run) == Desk(map[], map["e" := "a"], map[0 := Made("h", "a")], {"h"}, {"h"});
    assert MadeCalls(After(run)) == {0};
  }
}
