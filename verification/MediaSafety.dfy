/** The logs and the bucket together: over every interleaving, every reference has its bytes. */
module MediaSafety {
  import opened Options
  import opened Ordering
  import opened Tables
  import opened Writes
  import opened Runs
  import opened Media
  import MediaShelf

  // ---- the world's shelf

  ghost function RowsOf(accounts: map<Id, State>): map<Key, MediaRow> {
    map k | k in KnownObjects(accounts) :: MediaRowOf(accounts, k)
  }

  ghost function ShelfOf(w: World): MediaShelf.Shelf {
    MediaShelf.Shelf(w.accounts.Keys, RowsOf(w.accounts), w.begun, w.dead,
                     w.bucket, w.grants, w.commits, w.sweeps, w.clock)
  }

  lemma KnownKeys(accounts: map<Id, State>, k: Key)
    ensures k in KnownObjects(accounts) <==> HasRow(accounts, k)
    ensures k in RowsOf(accounts) <==> HasRow(accounts, k)
  {
  }

  ghost function MediaOf(accounts: map<Id, State>, t: Id): map<Id, MediaRow> {
    if t in accounts then accounts[t].log.media else map[]
  }

  lemma RowsStay(accounts: map<Id, State>, t: Id, s: State)
    requires s.log.media == MediaOf(accounts, t)
    ensures RowsOf(accounts[t := s]) == RowsOf(accounts)
  {
    forall k: Key
      ensures k in RowsOf(accounts[t := s]) <==> k in RowsOf(accounts)
    {
      KnownKeys(accounts, k);
      KnownKeys(accounts[t := s], k);
    }
  }

  lemma OneRowChanges(accounts: map<Id, State>, key: Key, s: State, row: MediaRow)
    requires s.log.media == MediaOf(accounts, key.traveller)[key.digest := row]
    ensures RowsOf(accounts[key.traveller := s]) == RowsOf(accounts)[key := row]
  {
    var after := accounts[key.traveller := s];
    forall k: Key
      ensures k in RowsOf(after) <==> k in RowsOf(accounts)[key := row]
    {
      KnownKeys(accounts, k);
      KnownKeys(after, k);
    }
  }

  lemma RowsWithout(accounts: map<Id, State>, t: Id)
    ensures RowsOf(accounts - {t}) == map k | k in RowsOf(accounts) && k.traveller != t :: RowsOf(accounts)[k]
  {
    forall k: Key
      ensures k in RowsOf(accounts - {t}) <==> k in RowsOf(accounts) && k.traveller != t
    {
      KnownKeys(accounts, k);
      KnownKeys(accounts - {t}, k);
    }
  }

  lemma ApplyKeepsMedia(log: Log, op: Op)
    requires Apply(log, op).Committed?
    ensures Apply(log, op).log.media == log.media
  {
  }

  lemma NextMedia(s: State, step: Runs.Step)
    ensures Next(s, step).log.media ==
            match step
            case Write(_) => s.log.media
            case BeginMedia(id, n, t) => Begun(s.log.media, id, n, t)
            case MarkMedia(id) => Marked(s.log.media, id)
            case Aborted => s.log.media
  {
    if step.Write? && Apply(s.log, step.op).Committed? { ApplyKeepsMedia(s.log, step.op); }
  }

  // ---- a step of the world is that step of its shelf

  lemma BegunRows(w: World, key: Key, n: int, contentType: string)
    requires key.traveller in w.accounts && !IsCommitted(w.accounts, key)
    ensures var after := Beginning(w, key, n, contentType).accounts;
            after.Keys == w.accounts.Keys && RowsOf(after) == RowsOf(w.accounts)[key := MediaRow(n, contentType, false)]
  {
    var s, step := w.accounts[key.traveller], BeginMedia(key.digest, n, contentType);
    NextMedia(s, step);
    OneRowChanges(w.accounts, key, Next(s, step), MediaRow(n, contentType, false));
  }

  lemma BeginOnShelf(w: World, key: Key, n: int, contentType: string)
    ensures ShelfOf(Beginning(w, key, n, contentType)) == MediaShelf.Begun(ShelfOf(w), key, n, contentType)
  {
    KnownKeys(w.accounts, key);
    if key.traveller in w.accounts && !IsCommitted(w.accounts, key) {
      BegunRows(w, key, n, contentType);
    }
  }

  lemma MarkOnShelf(w: World, call: nat)
    ensures ShelfOf(Marking(w, call)) == MediaShelf.Marked(ShelfOf(w), call)
  {
    if call in w.commits && w.commits[call].HasChecked? {
      var key := w.commits[call].key;
      KnownKeys(w.accounts, key);
      if HasRow(w.accounts, key) {
        var s, step := w.accounts[key.traveller], MarkMedia(key.digest);
        NextMedia(s, step);
        OneRowChanges(w.accounts, key, Next(s, step), MediaRowOf(w.accounts, key).(uploaded := true));
      }
    }
  }

  lemma WriteOnShelf(w: World, t: Id, op: Op)
    ensures ShelfOf(Writing(w, t, op)) == ShelfOf(w)
  {
    if t in w.accounts {
      NextMedia(w.accounts[t], Write(op));
      RowsStay(w.accounts, t, Next(w.accounts[t], Write(op)));
    }
  }

  lemma RegisterOnShelf(sha: Sha, w: World, t: Id)
    ensures ShelfOf(Registered(w, t)) == MediaShelf.Did(sha, ShelfOf(w), Register(t))
  {
    if t !in w.accounts { RowsStay(w.accounts, t, Start); }
  }

  lemma ReadOnShelf(w: World, call: nat, key: Key)
    ensures ShelfOf(Reading(w, call, key)) == MediaShelf.Read(ShelfOf(w), call, key)
  {
    KnownKeys(w.accounts, key);
  }

  lemma DeleteOnShelf(w: World, t: Id)
    ensures ShelfOf(Deleting(w, t)) == MediaShelf.Deleted(ShelfOf(w), t)
  {
    RowsWithout(w.accounts, t);
  }

  lemma DoIsDoneOnTheShelf(sha: Sha, w: World, act: Act)
    ensures ShelfOf(Do(sha, w, act)) == MediaShelf.Did(sha, ShelfOf(w), act)
  {
    match act
    case Register(t) => RegisterOnShelf(sha, w, t);
    case LogWrite(t, op) => WriteOnShelf(w, t, op);
    case Begin(key, n, contentType) => BeginOnShelf(w, key, n, contentType);
    case CommitRead(call, key) => ReadOnShelf(w, call, key);
    case CommitMark(call) => MarkOnShelf(w, call);
    case DeleteTraveller(t) => DeleteOnShelf(w, t);
    case SweepKnown(s) => assert RowsOf(w.accounts).Keys == KnownObjects(w.accounts);
    case _ =>
  }

  // ---- every run is safe

  ghost predicate LogsOk(accounts: map<Id, State>) {
    forall t | t in accounts :: Closed(accounts[t].log) && PairAgrees(accounts[t].log.photos, accounts[t].log.visits)
  }

  lemma StartIsClosed()
    ensures Closed(Start.log) && PairAgrees(Start.log.photos, Start.log.visits)
  {
    EveryRunIsClosed([]);
  }

  lemma LogsStayOk(accounts: map<Id, State>, t: Id, step: Runs.Step)
    requires LogsOk(accounts) && t in accounts
    ensures LogsOk(accounts[t := Next(accounts[t], step)])
  {
    NextKeepsClosed(accounts[t], step);
  }

  lemma BeginKeepsLogs(w: World, key: Key, n: int, contentType: string)
    requires LogsOk(w.accounts)
    ensures LogsOk(Beginning(w, key, n, contentType).accounts)
  {
    if key.traveller in w.accounts { LogsStayOk(w.accounts, key.traveller, BeginMedia(key.digest, n, contentType)); }
  }

  lemma MarkKeepsLogs(w: World, call: nat)
    requires LogsOk(w.accounts)
    ensures LogsOk(Marking(w, call).accounts)
  {
    if call in w.commits && w.commits[call].HasChecked? && HasRow(w.accounts, w.commits[call].key) {
      LogsStayOk(w.accounts, w.commits[call].key.traveller, MarkMedia(w.commits[call].key.digest));
    }
  }

  lemma WriteKeepsLogs(w: World, t: Id, op: Op)
    requires LogsOk(w.accounts)
    ensures LogsOk(Writing(w, t, op).accounts)
  {
    if t in w.accounts { LogsStayOk(w.accounts, t, Write(op)); }
  }

  lemma RegisterAndDeleteKeepLogs(w: World, t: Id)
    requires LogsOk(w.accounts)
    ensures LogsOk(Registered(w, t).accounts) && LogsOk(Deleting(w, t).accounts)
  {
    StartIsClosed();
  }

  lemma DoKeepsLogs(sha: Sha, w: World, act: Act)
    requires LogsOk(w.accounts)
    ensures LogsOk(Do(sha, w, act).accounts)
  {
    match act
    case Register(t) => RegisterAndDeleteKeepLogs(w, t);
    case DeleteTraveller(t) => RegisterAndDeleteKeepLogs(w, t);
    case LogWrite(t, op) => WriteKeepsLogs(w, t, op);
    case Begin(key, n, contentType) => BeginKeepsLogs(w, key, n, contentType);
    case CommitMark(call) => MarkKeepsLogs(w, call);
    case _ => OthersLeaveLogs(sha, w, act);
  }

  lemma OthersLeaveLogs(sha: Sha, w: World, act: Act)
    requires !(act.Register? || act.DeleteTraveller? || act.LogWrite? || act.Begin? || act.CommitMark?)
    ensures Do(sha, w, act).accounts == w.accounts
  {
  }

  lemma {:induction false} EveryRunKeepsLogs(sha: Sha, acts: seq<Act>)
    ensures LogsOk(Media.After(sha, acts).accounts)
  {
    if acts != [] {
      EveryRunKeepsLogs(sha, acts[..|acts| - 1]);
      DoKeepsLogs(sha, Media.After(sha, acts[..|acts| - 1]), acts[|acts| - 1]);
    }
  }

  lemma {:induction false} RunsOnTheShelf(sha: Sha, acts: seq<Act>)
    ensures ShelfOf(Media.After(sha, acts)) == MediaShelf.After(sha, acts)
  {
    if acts == [] {
      assert RowsOf(Empty.accounts) == map[];
    } else {
      RunsOnTheShelf(sha, acts[..|acts| - 1]);
      DoIsDoneOnTheShelf(sha, Media.After(sha, acts[..|acts| - 1]), acts[|acts| - 1]);
    }
  }

  lemma EveryRunIsSafe(sha: Sha, acts: seq<Act>)
    ensures MediaShelf.Safe(sha, ShelfOf(Media.After(sha, acts)))
  {
    RunsOnTheShelf(sha, acts);
    MediaShelf.EveryRunIsSafe(sha, acts);
  }

  // ---- references

  /** Every asset a log names: its photographs' and its covers. */
  ghost predicate Names(log: Log, asset: Id) {
    || (exists p :: p in log.photos && log.photos[p].asset == asset)
    || (exists t :: t in log.trips && log.trips[t].cover == Some(asset))
    || (exists c :: c in log.cities && log.cities[c].cover == Some(asset))
    || (exists p :: p in log.places && log.places[p].cover == Some(asset))
  }

  lemma NamedIsUploaded(log: Log, asset: Id)
    requires Closed(log) && Names(log, asset)
    ensures Uploaded(log.media, asset)
  {
    if p :| p in log.photos && log.photos[p].asset == asset {
      assert PhotoOk(log.photos[p], log.trips.Keys, log.cities.Keys, log.media);
    } else if t :| t in log.trips && log.trips[t].cover == Some(asset) {
      assert TripOk(log.trips[t], log.media);
    } else if c :| c in log.cities && log.cities[c].cover == Some(asset) {
      assert CoverResolves(log.media, log.cities[c].cover);
    } else if p :| p in log.places && log.places[p].cover == Some(asset) {
      assert PlaceOk(log.places[p], log.cities.Keys, log.media);
    }
  }

  /** The row is committed and its bytes are in the bucket, under the digest that names them. */
  ghost predicate Kept(sha: Sha, w: World, key: Key) {
    IsCommitted(w.accounts, key) && key in w.bucket && sha(w.bucket[key].body) == key.digest
  }

  lemma CommittedIsKept(sha: Sha, w: World, key: Key)
    requires MediaShelf.Safe(sha, ShelfOf(w)) && IsCommitted(w.accounts, key)
    ensures Kept(sha, w, key)
  {
    KnownKeys(w.accounts, key);
    assert MediaShelf.Uploaded(ShelfOf(w).rows, key);
  }

  lemma NamedIsKept(sha: Sha, w: World, t: Id, asset: Id)
    requires LogsOk(w.accounts) && MediaShelf.Safe(sha, ShelfOf(w)) && t in w.accounts &&
             Names(w.accounts[t].log, asset)
    ensures Kept(sha, w, Key(t, asset))
  {
    NamedIsUploaded(w.accounts[t].log, asset);
    CommittedIsKept(sha, w, Key(t, asset));
  }

  /** In every state any interleaving reaches, every photograph and every cover names a committed row whose bytes
      are in the bucket. */
  lemma EveryReferenceHasItsBytes(sha: Sha, acts: seq<Act>, w: World, t: Id, asset: Id)
    requires w == Media.After(sha, acts) && t in w.accounts && Names(w.accounts[t].log, asset)
    ensures Kept(sha, w, Key(t, asset))
  {
    EveryRunKeepsLogs(sha, acts);
    EveryRunIsSafe(sha, acts);
    NamedIsKept(sha, w, t, asset);
  }

  // ---- the sweep

  lemma NoRowOfTheDead(sha: Sha, w: World, key: Key)
    requires MediaShelf.Safe(sha, ShelfOf(w)) && key.traveller in w.dead
    ensures !HasRow(w.accounts, key)
  {
    KnownKeys(w.accounts, key);
  }

  /** Whatever a sweep deletes at step n has no row then, and none ever after: no row that exists, and none that
      will, ever loses its bytes to it. */
  lemma NoSweepDeletesAReferencedObject(sha: Sha, acts: seq<Act>, n: nat, m: nat)
    requires n < m <= |acts| && acts[n].SweepDelete?
    requires MediaShelf.Sweeps(ShelfOf(Media.After(sha, acts[..n])), acts[n].sweep, acts[n].key)
    ensures !HasRow(Media.After(sha, acts[..n]).accounts, acts[n].key)
    ensures !HasRow(Media.After(sha, acts[..m]).accounts, acts[n].key)
  {
    var w, v := Media.After(sha, acts[..n]), Media.After(sha, acts[..m]);
    EveryRunIsSafe(sha, acts[..n]);
    EveryRunIsSafe(sha, acts[..m]);
    MediaShelf.SweepDeletesOfTheDeleted(sha, ShelfOf(w), acts[n].sweep, acts[n].key);
    RunsOnTheShelf(sha, acts[..n]);
    RunsOnTheShelf(sha, acts[..m]);
    MediaShelf.DeadStayDeadOver(sha, acts[..m], n);
    assert acts[..m][..n] == acts[..n];
    NoRowOfTheDead(sha, w, acts[n].key);
    NoRowOfTheDead(sha, v, acts[n].key);
  }

  // ---- once committed

  /** The row and its object are as they were, or the traveller is gone. */
  ghost predicate Unchanged(w: World, v: World, key: Key)
    requires IsCommitted(w.accounts, key) && key in w.bucket
  {
    || key.traveller in v.dead
    || (&& IsCommitted(v.accounts, key) && MediaRowOf(v.accounts, key) == MediaRowOf(w.accounts, key)
        && key in v.bucket && v.bucket[key] == w.bucket[key])
  }

  lemma CommittedRowsNeverChange(sha: Sha, acts: seq<Act>, n: nat, key: Key)
    requires n <= |acts| && IsCommitted(Media.After(sha, acts[..n]).accounts, key)
    ensures key in Media.After(sha, acts[..n]).bucket
    ensures Unchanged(Media.After(sha, acts[..n]), Media.After(sha, acts), key)
  {
    var w, v := Media.After(sha, acts[..n]), Media.After(sha, acts);
    RunsOnTheShelf(sha, acts[..n]);
    RunsOnTheShelf(sha, acts);
    KnownKeys(w.accounts, key);
    KnownKeys(v.accounts, key);
    MediaShelf.CommittedStaysOver(sha, acts, n, key);
  }

  // ---- declared and stored

  /** In a run where no digest is declared otherwise while a commit of it is under way, the size and the type of
      every committed row are those of the stored object. */
  lemma CommittedRowsMatchTheirObjects(sha: Sha, acts: seq<Act>, w: World, key: Key)
    requires w == Media.After(sha, acts) && MediaShelf.NeverDisturbed(sha, acts) && IsCommitted(w.accounts, key)
    ensures key in w.bucket && Answers(sha, w.bucket, key, MediaRowOf(w.accounts, key))
  {
    RunsOnTheShelf(sha, acts);
    KnownKeys(w.accounts, key);
    MediaShelf.UndisturbedRunsMatch(sha, acts);
    assert MediaShelf.Uploaded(ShelfOf(w).rows, key);
  }

  /** A re-begin that slips in between a commit's check and its mark leaves a committed row that does not. */
  lemma AReBeginCanSlipIn(sha: Sha)
    ensures exists acts, key :: var w := Media.After(sha, acts);
      IsCommitted(w.accounts, key) && key in w.bucket && !Answers(sha, w.bucket, key, MediaRowOf(w.accounts, key))
  {
    var acts, key := MediaShelf.SlippingIn(sha), Key("t", sha([0]));
    RunsOnTheShelf(sha, acts);
    MediaShelf.SlippedIn(sha);
    KnownKeys(Media.After(sha, acts).accounts, key);
  }
}
