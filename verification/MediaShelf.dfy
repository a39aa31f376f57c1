/** The media steps over the rows of all travellers at once, and what no interleaving of them can break. */
module MediaShelf {
  import opened Ordering
  import opened Tables
  import opened Media

  /** What the protocol sees of the world: of each log only its media rows. */
  datatype Shelf = Shelf(
    live: set<Id>,
    rows: map<Key, MediaRow>,
    begun: map<Key, int>,
    dead: set<Id>,
    bucket: Objects,
    grants: set<Grant>,
    commits: map<nat, Commit>,
    sweeps: map<nat, Sweep>,
    clock: int)

  predicate Uploaded(rows: map<Key, MediaRow>, key: Key) {
    key in rows && rows[key].uploaded
  }

  function Begun(v: Shelf, key: Key, n: int, contentType: string): Shelf {
    if key.traveller !in v.live || Uploaded(v.rows, key) then v
    else
      v.(rows := v.rows[key := MediaRow(n, contentType, false)],
         begun := if key in v.rows then v.begun else v.begun[key := v.clock],
         grants := v.grants + {Grant(key, n, contentType)})
  }

  function Put(sha: Sha, v: Shelf, g: Grant, body: Body): Shelf {
    if g !in v.grants then v
    else v.(bucket := Uploading(sha, v.bucket, g.key, g.size, g.contentType, body, v.clock))
  }

  function Read(v: Shelf, call: nat, key: Key): Shelf {
    if call in v.commits then v
    else v.(commits := v.commits[call :=
      if key in v.rows && !v.rows[key].uploaded then HasRead(key, v.rows[key]) else Ended])
  }

  function Checked(sha: Sha, v: Shelf, call: nat): Shelf {
    if call !in v.commits || !v.commits[call].HasRead? then v
    else
      var c := v.commits[call];
      v.(commits := v.commits[call :=
        if Answers(sha, v.bucket, c.key, c.declared) then HasChecked(c.key, c.declared) else Ended])
  }

  function Marked(v: Shelf, call: nat): Shelf {
    if call !in v.commits || !v.commits[call].HasChecked? then v
    else
      var key := v.commits[call].key;
      v.(commits := v.commits[call := Ended],
         rows := if key in v.rows then v.rows[key := v.rows[key].(uploaded := true)] else v.rows)
  }

  function Deleted(v: Shelf, t: Id): Shelf {
    if t !in v.live then v
    else
      v.(live := v.live - {t}, dead := v.dead + {t}, rows := map k | k in v.rows && k.traveller != t :: v.rows[k])
  }

  function Planned(v: Shelf, sweep: nat): Shelf {
    if sweep !in v.sweeps || !v.sweeps[sweep].Knows? || v.clock - v.sweeps[sweep].at > SWEEP_BUDGET then v
    else v.(sweeps := v.sweeps[sweep := Plans(Orphans(v.bucket, v.sweeps[sweep].keys, v.clock))])
  }

  predicate Sweeps(v: Shelf, sweep: nat, key: Key) {
    sweep in v.sweeps && v.sweeps[sweep].Plans? && key in v.sweeps[sweep].orphans
  }

  function Did(sha: Sha, v: Shelf, act: Act): Shelf {
    match act
    case Register(t) => if t in v.live || t in v.dead then v else v.(live := v.live + {t})
    case LogWrite(t, op) => v
    case Begin(key, n, t) => Begun(v, key, n, t)
    case Put(g, body) => Put(sha, v, g, body)
    case CommitRead(call, key) => Read(v, call, key)
    case CommitStat(call) => Checked(sha, v, call)
    case CommitMark(call) => Marked(v, call)
    case DeleteTraveller(t) => Deleted(v, t)
    case Forget(key) => if key.traveller in v.dead then v.(bucket := v.bucket - {key}) else v
    case SweepKnown(s) => if s in v.sweeps then v else v.(sweeps := v.sweeps[s := Knows(v.clock, v.rows.Keys)])
    case SweepPlan(s) => Planned(v, s)
    case SweepDelete(s, key) => if Sweeps(v, s, key) then v.(bucket := v.bucket - {key}) else v
    case Wait(n) => v.(clock := v.clock + n)
  }

  const Bare := Shelf({}, map[], map[], {}, map[], {}, map[], map[], 0)

  function After(sha: Sha, acts: seq<Act>): Shelf {
    if acts == [] then Bare else Did(sha, After(sha, acts[..|acts| - 1]), acts[|acts| - 1])
  }

  // ---- the invariant

  ghost predicate RowsOk(v: Shelf) {
    && v.live !! v.dead
    && forall k | k in v.rows :: k.traveller in v.live && k in v.begun && v.begun[k] <= v.clock
  }

  /** A URL was minted for a row, which is there unless its traveller has been deleted. */
  ghost predicate GrantsOk(v: Shelf) {
    forall g | g in v.grants :: g.key.traveller in v.dead || g.key in v.rows
  }

  /** An object's bytes hash to its address, and it is younger than its row, unless its traveller has been deleted. */
  ghost predicate BucketOk(sha: Sha, v: Shelf) {
    forall k | k in v.bucket ::
      && sha(v.bucket[k].body) == k.digest
      && (k.traveller in v.dead || (k in v.rows && k in v.begun && v.begun[k] <= v.bucket[k].modified))
  }

  ghost predicate CommitsOk(sha: Sha, v: Shelf) {
    forall c | c in v.commits && v.commits[c].HasChecked? ::
      v.commits[c].key.traveller in v.dead || Answers(sha, v.bucket, v.commits[c].key, v.commits[c].declared)
  }

  /** A row the sweep did not see began no earlier than it looked; what it plans to delete belongs to the deleted. */
  ghost predicate SweepOk(sweep: Sweep, v: Shelf) {
    match sweep
    case Knows(at, keys) => at <= v.clock && forall k | k in v.rows && k !in keys :: k in v.begun && at <= v.begun[k]
    case Plans(orphans) => forall k | k in orphans :: k.traveller in v.dead
  }

  ghost predicate SweepsOk(v: Shelf) {
    forall s | s in v.sweeps :: SweepOk(v.sweeps[s], v)
  }

  ghost predicate UploadsOk(v: Shelf) {
    forall k | Uploaded(v.rows, k) :: k in v.bucket
  }

  ghost predicate Safe(sha: Sha, v: Shelf) {
    RowsOk(v) && GrantsOk(v) && BucketOk(sha, v) && CommitsOk(sha, v) && SweepsOk(v) && UploadsOk(v)
  }

  // ---- every step keeps it

  lemma BeginKeepsBucket(sha: Sha, v: Shelf, key: Key, n: int, contentType: string)
    requires RowsOk(v) && BucketOk(sha, v)
    ensures BucketOk(sha, Begun(v, key, n, contentType))
  {
    assert key in v.bucket && key.traveller in v.live ==> key in v.rows;
  }

  lemma BeginKeepsSweeps(v: Shelf, key: Key, n: int, contentType: string)
    requires RowsOk(v) && SweepsOk(v)
    ensures SweepsOk(Begun(v, key, n, contentType))
  {
    assert forall s | s in v.sweeps :: SweepOk(v.sweeps[s], v);
  }

  lemma BeginKeepsSafe(sha: Sha, v: Shelf, key: Key, n: int, contentType: string)
    requires Safe(sha, v)
    ensures Safe(sha, Begun(v, key, n, contentType))
  {
    BeginKeepsBucket(sha, v, key, n, contentType);
    BeginKeepsSweeps(v, key, n, contentType);
  }

  lemma PutKeepsBucket(sha: Sha, v: Shelf, g: Grant, body: Body)
    requires RowsOk(v) && GrantsOk(v) && BucketOk(sha, v)
    ensures BucketOk(sha, Put(sha, v, g, body))
    ensures var u := Put(sha, v, g, body);
            forall k | k in v.bucket :: k in u.bucket && u.bucket[k] == v.bucket[k]
  {
  }

  lemma PutKeepsSafe(sha: Sha, v: Shelf, g: Grant, body: Body)
    requires Safe(sha, v)
    ensures Safe(sha, Put(sha, v, g, body))
  {
    var u := Put(sha, v, g, body);
    PutKeepsBucket(sha, v, g, body);
    assert u == v.(bucket := u.bucket);
    assert RowsOk(u) && GrantsOk(u) && UploadsOk(u);
    assert SweepsOk(u) by {
      assert forall s | s in v.sweeps :: SweepOk(v.sweeps[s], v);
    }
  }

  lemma ReadKeepsSafe(sha: Sha, v: Shelf, call: nat, key: Key)
    requires Safe(sha, v)
    ensures Safe(sha, Read(v, call, key))
  {
    assert forall s | s in v.sweeps :: SweepOk(v.sweeps[s], v);
  }

  lemma CheckKeepsSafe(sha: Sha, v: Shelf, call: nat)
    requires Safe(sha, v)
    ensures Safe(sha, Checked(sha, v, call))
  {
    assert forall s | s in v.sweeps :: SweepOk(v.sweeps[s], v);
  }

  lemma MarkKeepsSafe(sha: Sha, v: Shelf, call: nat)
    requires Safe(sha, v)
    ensures Safe(sha, Marked(v, call))
  {
    assert forall s | s in v.sweeps :: SweepOk(v.sweeps[s], v);
  }

  lemma DeleteKeepsSafe(sha: Sha, v: Shelf, t: Id)
    requires Safe(sha, v)
    ensures Safe(sha, Deleted(v, t))
  {
    assert forall s | s in v.sweeps :: SweepOk(v.sweeps[s], v);
  }

  /** Deleting an object of a deleted traveller touches no row's bytes. */
  lemma LosingTheDeadKeepsSafe(sha: Sha, v: Shelf, key: Key)
    requires Safe(sha, v) && key.traveller in v.dead
    ensures Safe(sha, v.(bucket := v.bucket - {key}))
  {
    assert forall s | s in v.sweeps :: SweepOk(v.sweeps[s], v);
  }

  lemma SweepKeepsSafe(sha: Sha, v: Shelf, s: nat, sweep: Sweep)
    requires Safe(sha, v) && SweepOk(sweep, v)
    ensures Safe(sha, v.(sweeps := v.sweeps[s := sweep]))
  {
    assert forall i | i in v.sweeps :: SweepOk(v.sweeps[i], v);
  }

  /** The object's row was written at most lag after its upload; or is yet to be, and no more than lag has passed. */
  predicate RowComes(v: Shelf, k: Key, lag: nat)
    requires k in v.bucket
  {
    if k in v.rows then k in v.begun && v.begun[k] <= v.bucket[k].modified + lag
    else v.clock <= v.bucket[k].modified + lag
  }

  ghost predicate RowsCome(v: Shelf, lag: nat) {
    forall k | k in v.bucket :: k.traveller in v.dead || RowComes(v, k, lag)
  }

  /** The heart of the sweep: an object that is in no row it saw, and is old, has no row at all. Had its row begun
      since, its bytes would be younger, if only by the lag that its row may have behind it. */
  lemma OrphansAreOfTheDeleted(v: Shelf, at: int, keys: set<Key>, lag: nat)
    requires RowsOk(v) && RowsCome(v, lag) && SweepOk(Knows(at, keys), v) && v.clock - at + lag < MIN_AGE
    ensures SweepOk(Plans(Orphans(v.bucket, keys, v.clock)), v)
  {
  }

  lemma PlanKeepsSafe(sha: Sha, v: Shelf, s: nat)
    requires Safe(sha, v)
    ensures Safe(sha, Planned(v, s))
  {
    if Planned(v, s) != v {
      var sweep := v.sweeps[s];
      assert SweepOk(sweep, v);
      assert RowsCome(v, 0);
      OrphansAreOfTheDeleted(v, sweep.at, sweep.keys, 0);
      SweepKeepsSafe(sha, v, s, Plans(Orphans(v.bucket, sweep.keys, v.clock)));
    }
  }

  lemma SweepDeletesOfTheDeleted(sha: Sha, v: Shelf, s: nat, key: Key)
    requires Safe(sha, v) && Sweeps(v, s, key)
    ensures key.traveller in v.dead && key !in v.rows
  {
    assert SweepOk(v.sweeps[s], v);
  }

  lemma ClockAndRegisterKeepSafe(sha: Sha, v: Shelf, n: nat, t: Id)
    requires Safe(sha, v)
    ensures Safe(sha, v.(clock := v.clock + n))
    ensures t !in v.dead ==> Safe(sha, v.(live := v.live + {t}))
  {
    assert forall s | s in v.sweeps :: SweepOk(v.sweeps[s], v);
  }

  lemma DidKeepsSafe(sha: Sha, v: Shelf, act: Act)
    requires Safe(sha, v)
    ensures Safe(sha, Did(sha, v, act))
  {
    match act
    case Register(t) => ClockAndRegisterKeepSafe(sha, v, 0, t);
    case LogWrite(t, op) =>
    case Begin(key, n, t) => BeginKeepsSafe(sha, v, key, n, t);
    case Put(g, body) => PutKeepsSafe(sha, v, g, body);
    case CommitRead(call, key) => ReadKeepsSafe(sha, v, call, key);
    case CommitStat(call) => CheckKeepsSafe(sha, v, call);
    case CommitMark(call) => MarkKeepsSafe(sha, v, call);
    case DeleteTraveller(t) => DeleteKeepsSafe(sha, v, t);
    case Forget(key) => if key.traveller in v.dead { LosingTheDeadKeepsSafe(sha, v, key); }
    case SweepKnown(s) => if s !in v.sweeps { SweepKeepsSafe(sha, v, s, Knows(v.clock, v.rows.Keys)); }
    case SweepPlan(s) => PlanKeepsSafe(sha, v, s);
    case SweepDelete(s, key) =>
      if Sweeps(v, s, key) { SweepDeletesOfTheDeleted(sha, v, s, key); LosingTheDeadKeepsSafe(sha, v, key); }
    case Wait(n) => ClockAndRegisterKeepSafe(sha, v, n, "");
  }

  lemma {:induction false} EveryRunIsSafe(sha: Sha, acts: seq<Act>)
    ensures Safe(sha, After(sha, acts))
  {
    if acts != [] {
      EveryRunIsSafe(sha, acts[..|acts| - 1]);
      DidKeepsSafe(sha, After(sha, acts[..|acts| - 1]), acts[|acts| - 1]);
    }
  }

  // ---- once committed, a row and its object stay

  ghost predicate Stays(v: Shelf, u: Shelf, key: Key)
    requires key in v.rows && key in v.bucket
  {
    key.traveller in u.dead ||
    (key in u.rows && u.rows[key] == v.rows[key] && key in u.bucket && u.bucket[key] == v.bucket[key])
  }

  lemma CommittedStays(sha: Sha, v: Shelf, act: Act, key: Key)
    requires Safe(sha, v) && Uploaded(v.rows, key)
    ensures key in v.bucket && Stays(v, Did(sha, v, act), key)
  {
    if act.SweepDelete? && Sweeps(v, act.sweep, act.key) { SweepDeletesOfTheDeleted(sha, v, act.sweep, act.key); }
  }

  lemma DeadStayDead(sha: Sha, v: Shelf, act: Act)
    ensures v.dead <= Did(sha, v, act).dead
  {
  }

  lemma {:induction false} DeadStayDeadOver(sha: Sha, acts: seq<Act>, n: nat)
    requires n <= |acts|
    ensures After(sha, acts[..n]).dead <= After(sha, acts).dead
    decreases |acts|
  {
    if n < |acts| {
      var m := |acts| - 1;
      DeadStayDeadOver(sha, acts[..m], n);
      assert acts[..m][..n] == acts[..n];
      DeadStayDead(sha, After(sha, acts[..m]), acts[m]);
    } else {
      assert acts[..n] == acts;
    }
  }

  lemma StillStays(sha: Sha, v: Shelf, u: Shelf, act: Act, key: Key)
    requires Safe(sha, u) && Uploaded(v.rows, key) && key in v.bucket && Stays(v, u, key)
    ensures Stays(v, Did(sha, u, act), key)
  {
    DeadStayDead(sha, u, act);
    if key.traveller !in u.dead { CommittedStays(sha, u, act, key); }
  }

  lemma {:induction false} CommittedStaysOver(sha: Sha, acts: seq<Act>, n: nat, key: Key)
    requires n <= |acts| && Uploaded(After(sha, acts[..n]).rows, key)
    ensures key in After(sha, acts[..n]).bucket && Stays(After(sha, acts[..n]), After(sha, acts), key)
    decreases |acts|
  {
    EveryRunIsSafe(sha, acts[..n]);
    if n == |acts| {
      assert acts[..n] == acts;
    } else {
      var m := |acts| - 1;
      assert acts[..m][..n] == acts[..n];
      CommittedStaysOver(sha, acts[..m], n, key);
      EveryRunIsSafe(sha, acts[..m]);
      StillStays(sha, After(sha, acts[..n]), After(sha, acts[..m]), acts[m], key);
    }
  }

  // ---- what was declared, and what was stored

  predicate SameDeclaration(a: MediaRow, b: MediaRow) {
    a.byteSize == b.byteSize && a.contentType == b.contentType
  }

  /** No begin declares a digest otherwise while a commit of it is between its read and its mark. */
  ghost predicate Undisturbed(v: Shelf, act: Act) {
    act.Begin? ==> forall c | c in v.commits && !v.commits[c].Ended? && v.commits[c].key == act.key ::
      SameDeclaration(v.commits[c].declared, MediaRow(act.byteSize, act.contentType, false))
  }

  ghost predicate Matching(sha: Sha, v: Shelf) {
    && (forall k | Uploaded(v.rows, k) :: Answers(sha, v.bucket, k, v.rows[k]))
    && (forall c | c in v.commits && !v.commits[c].Ended? && v.commits[c].key in v.rows ::
          v.rows[v.commits[c].key].uploaded || SameDeclaration(v.commits[c].declared, v.rows[v.commits[c].key]))
  }

  lemma MarkKeepsMatching(sha: Sha, v: Shelf, call: nat)
    requires Safe(sha, v) && Matching(sha, v)
    ensures Matching(sha, Marked(v, call))
  {
  }

  lemma BeginKeepsMatching(sha: Sha, v: Shelf, key: Key, n: int, contentType: string)
    requires Matching(sha, v) && Undisturbed(v, Begin(key, n, contentType))
    ensures Matching(sha, Begun(v, key, n, contentType))
  {
  }

  lemma BucketKeepsMatching(sha: Sha, v: Shelf, bucket: Objects)
    requires Matching(sha, v) && forall k | Uploaded(v.rows, k) :: k in bucket && bucket[k] == v.bucket[k]
    ensures Matching(sha, v.(bucket := bucket))
  {
  }

  lemma CommitsKeepMatching(sha: Sha, v: Shelf, call: nat, key: Key)
    requires Matching(sha, v)
    ensures Matching(sha, Read(v, call, key)) && Matching(sha, Checked(sha, v, call))
  {
  }

  lemma DidKeepsMatching(sha: Sha, v: Shelf, act: Act)
    requires Safe(sha, v) && Matching(sha, v) && Undisturbed(v, act)
    ensures Matching(sha, Did(sha, v, act))
  {
    match act
    case Begin(key, n, t) => BeginKeepsMatching(sha, v, key, n, t);
    case Put(g, body) => BucketKeepsMatching(sha, v, Put(sha, v, g, body).bucket);
    case CommitRead(call, key) => CommitsKeepMatching(sha, v, call, key);
    case CommitStat(call) => CommitsKeepMatching(sha, v, call, Key("", ""));
    case CommitMark(call) => MarkKeepsMatching(sha, v, call);
    case Forget(key) => BucketKeepsMatching(sha, v, Did(sha, v, act).bucket);
    case SweepDelete(s, key) =>
      if Sweeps(v, s, key) { SweepDeletesOfTheDeleted(sha, v, s, key); }
      BucketKeepsMatching(sha, v, Did(sha, v, act).bucket);
    case _ =>
  }

  ghost predicate NeverDisturbed(sha: Sha, acts: seq<Act>) {
    forall i | 0 <= i < |acts| :: Undisturbed(After(sha, acts[..i]), acts[i])
  }

  lemma {:induction false} UndisturbedRunsMatch(sha: Sha, acts: seq<Act>)
    requires NeverDisturbed(sha, acts)
    ensures Matching(sha, After(sha, acts))
  {
    if acts != [] {
      var earlier := acts[..|acts| - 1];
      assert forall i | 0 <= i < |earlier| :: earlier[..i] == acts[..i];
      UndisturbedRunsMatch(sha, earlier);
      EveryRunIsSafe(sha, earlier);
      DidKeepsMatching(sha, After(sha, earlier), acts[|acts| - 1]);
    }
  }

  /** Declared as one byte, stored as one byte, checked as one byte, declared again as two, and marked. */
  function SlippingIn(sha: Sha): seq<Act> {
    var key := Key("t", sha([0]));
    [Register("t"), Begin(key, 1, "image/png"), Act.Put(Grant(key, 1, "image/png"), [0]),
     CommitRead(0, key), CommitStat(0), Begin(key, 2, "image/png"), CommitMark(0)]
  }

  lemma FirstThree(sha: Sha)
    ensures var key := Key("t", sha([0]));
            After(sha, SlippingIn(sha)[..3]) ==
            Bare.(live := {"t"}, rows := map[key := MediaRow(1, "image/png", false)], begun := map[key := 0],
                  grants := {Grant(key, 1, "image/png")}, bucket := map[key := Stored([0], "image/png", 0)])
  {
    var acts := SlippingIn(sha);
    assert acts[..3][..2] == acts[..2] && acts[..2][..1] == acts[..1] && acts[..1][..0] == [];
    assert After(sha, acts[..1]) == Bare.(live := {"t"});
  }

  lemma FirstFive(sha: Sha)
    ensures var key := Key("t", sha([0]));
            After(sha, SlippingIn(sha)[..5]) ==
            After(sha, SlippingIn(sha)[..3]).(commits := map[0 := HasChecked(key, MediaRow(1, "image/png", false))])
  {
    FirstThree(sha);
    var acts := SlippingIn(sha);
    assert acts[..5][..4] == acts[..4] && acts[..4][..3] == acts[..3];
  }

  lemma SlippedIn(sha: Sha)
    ensures var key, v := Key("t", sha([0])), After(sha, SlippingIn(sha));
            Uploaded(v.rows, key) && v.rows[key].byteSize == 2 && key in v.bucket && |v.bucket[key].body| == 1
  {
    FirstThree(sha);
    FirstFive(sha);
    var acts, key := SlippingIn(sha), Key("t", sha([0]));
    assert acts[..6][..5] == acts[..5] && acts[..7][..6] == acts[..6] && acts[..7] == acts;
  }

  /** A mark leaves row and object agreeing exactly when the row still declares what the commit read. */
  lemma MarkMatchesExactly(sha: Sha, v: Shelf, call: nat)
    requires Safe(sha, v) && call in v.commits && v.commits[call].HasChecked? && v.commits[call].key in v.rows
    ensures var key := v.commits[call].key;
            Answers(sha, v.bucket, key, Marked(v, call).rows[key]) <==>
                SameDeclaration(v.commits[call].declared, v.rows[key])
  {
  }

  // ---- what the sweep's safety rests on

  /** The rows are read, then an object is begun, stored and committed, and a day goes by before the listing. */
  function ListingLate(sha: Sha): seq<Act> {
    var key := Key("t", sha([0]));
    [Register("t"), SweepKnown(0), Begin(key, 1, "image/png"), Act.Put(Grant(key, 1, "image/png"), [0]),
     CommitRead(0, key), CommitStat(0), CommitMark(0), Wait(MIN_AGE)]
  }

  lemma OneActMore(sha: Sha, acts: seq<Act>, n: nat, v: Shelf)
    requires n < |acts| && After(sha, acts[..n]) == v
    ensures After(sha, acts[..n + 1]) == Did(sha, v, acts[n])
  {
    assert acts[..n + 1][..n] == acts[..n];
  }

  lemma LateUpload(sha: Sha)
    ensures var key := Key("t", sha([0]));
            After(sha, ListingLate(sha)[..4]) ==
            Bare.(live := {"t"}, rows := map[key := MediaRow(1, "image/png", false)], begun := map[key := 0],
                  grants := {Grant(key, 1, "image/png")}, bucket := map[key := Stored([0], "image/png", 0)],
                  sweeps := map[0 := Knows(0, {})])
  {
    var acts, key := ListingLate(sha), Key("t", sha([0]));
    assert acts[..0] == [];
    OneActMore(sha, acts, 0, Bare);
    var registered := Bare.(live := {"t"});
    OneActMore(sha, acts, 1, registered);
    assert registered.rows.Keys == {};
    var known := registered.(sweeps := map[0 := Knows(0, {})]);
    OneActMore(sha, acts, 2, known);
    var row := MediaRow(1, "image/png", false);
    var begun := known.(rows := map[key := row], begun := map[key := 0], grants := {Grant(key, 1, "image/png")});
    OneActMore(sha, acts, 3, begun);
  }

  /** An undisturbed commit of what is stored as declared. */
  lemma CommitInThree(sha: Sha, v: Shelf, key: Key)
    requires 0 !in v.commits && key in v.rows && !v.rows[key].uploaded && Answers(sha, v.bucket, key, v.rows[key])
    ensures Marked(Checked(sha, Read(v, 0, key), 0), 0) ==
            v.(rows := v.rows[key := v.rows[key].(uploaded := true)], commits := v.commits[0 := Ended])
  {
  }

  lemma LateCommit(sha: Sha, v: Shelf)
    requires v == After(sha, ListingLate(sha)[..4])
    ensures After(sha, ListingLate(sha)[..7]) == Marked(Checked(sha, Read(v, 0, Key("t", sha([0]))), 0), 0)
  {
    var acts, key := ListingLate(sha), Key("t", sha([0]));
    OneActMore(sha, acts, 4, v);
    OneActMore(sha, acts, 5, Read(v, 0, key));
    OneActMore(sha, acts, 6, Checked(sha, Read(v, 0, key), 0));
  }

  /** A run after which a listing with no deadline would take a live traveller's committed bytes: begun and stored
      just after the sweep looked, and a day old when it lists. */
  lemma WithoutADeadlineASweepCouldTakeLiveBytes(sha: Sha)
    ensures var v, key := After(sha, ListingLate(sha)), Key("t", sha([0]));
            && Uploaded(v.rows, key) && 0 in v.sweeps && v.sweeps[0].Knows?
            && key in Orphans(v.bucket, v.sweeps[0].keys, v.clock)
  {
    LateUpload(sha);
    var acts, key := ListingLate(sha), Key("t", sha([0]));
    LateCommit(sha, After(sha, acts[..4]));
    CommitInThree(sha, After(sha, acts[..4]), key);
    OneActMore(sha, acts, 7, After(sha, acts[..7]));
    assert acts[..8] == acts;
  }

  /** Stored at 0, with a row begun lag later, just after a sweep looked; it lists when that much more has gone by. */
  function RowLate(key: Key, elapsed: nat, lag: nat): Shelf {
    Shelf({"t"}, map[key := MediaRow(1, "image/png", true)], map[key := lag], {},
          map[key := Stored([0], "image/png", 0)], {}, map[], map[0 := Knows(lag, {})], lag + elapsed)
  }

  /** In such a state all of the invariant holds but the order of row and upload, and live bytes can be planned. */
  lemma ALateRowLosesItsBytes(sha: Sha, elapsed: nat, lag: nat)
    requires elapsed + lag >= MIN_AGE
    ensures var key := Key("t", sha([0]));
            var v := RowLate(key, elapsed, lag);
            && RowsOk(v) && GrantsOk(v) && CommitsOk(sha, v) && SweepsOk(v) && UploadsOk(v) && RowsCome(v, lag)
            && Uploaded(v.rows, key) && key in Orphans(v.bucket, {}, v.clock)
  {
    var key := Key("t", sha([0]));
    var v := RowLate(key, elapsed, lag);
    assert key in v.bucket && v.bucket[key].modified == 0 && Old(v.bucket[key], v.clock);
  }

  /** A sweep that lists that long after it read the rows plans only objects of deleted travellers. */
  ghost predicate Tolerates(elapsed: nat, lag: nat) {
    forall v: Shelf, at: int, keys: set<Key>
      | RowsOk(v) && RowsCome(v, lag) && SweepOk(Knows(at, keys), v) && v.clock - at == elapsed ::
      SweepOk(Plans(Orphans(v.bucket, keys, v.clock)), v)
  }

  /** The minimum age covers a row that comes after its upload by less than that age, less the time since the rows were
      read; and no more. */
  lemma LagToleratedExactly(elapsed: nat, lag: nat)
    ensures Tolerates(elapsed, lag) <==> elapsed + lag < MIN_AGE
  {
    if elapsed + lag < MIN_AGE {
      forall v: Shelf, at: int, keys: set<Key>
        | RowsOk(v) && RowsCome(v, lag) && SweepOk(Knows(at, keys), v) && v.clock - at == elapsed
        ensures SweepOk(Plans(Orphans(v.bucket, keys, v.clock)), v)
      {
        OrphansAreOfTheDeleted(v, at, keys, lag);
      }
    } else {
      var sha: Sha := _ => "";
      var key := Key("t", sha([0]));
      var v := RowLate(key, elapsed, lag);
      ALateRowLosesItsBytes(sha, elapsed, lag);
      assert 0 in v.sweeps && SweepOk(v.sweeps[0], v);
      assert !SweepOk(Plans(Orphans(v.bucket, {}, v.clock)), v);
    }
  }
}
