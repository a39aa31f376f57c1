/** Two parties that share no transaction: the rows of media_objects and a write-once bucket. Begin, upload,
    commit, reference, the deletion of a traveller and the sweep run as separate steps in any order. */
module Media {
  import opened Ordering
  import opened Tables
  import opened Writes
  import opened Runs

  type Body = seq<int>

  /** sha256 in hex. Nothing here needs more of it than that it is a function. */
  type Sha = Body -> Id

  datatype Key = Key(traveller: Id, digest: Id)

  /** An object as the bucket keeps it: what was uploaded, under which type, and when. */
  datatype Stored = Stored(body: Body, contentType: string, modified: int)

  type Objects = map<Key, Stored>

  const MIN_AGE := 24 * 3600
  const SWEEP_BUDGET := 300

  // ---- the bucket

  /** The refusals of an upload: the address is taken, or the length or the digest is not the signed one. */
  predicate Takes(sha: Sha, objects: Objects, key: Key, size: int, body: Body) {
    key !in objects && |body| == size && sha(body) == key.digest
  }

  function Uploading(sha: Sha, objects: Objects, key: Key, size: int, contentType: string, body: Body,
                     now: int): Objects {
    if Takes(sha, objects, key, size, body) then objects[key := Stored(body, contentType, now)] else objects
  }

  /** What a commit demands of the stored object before it marks the row. */
  predicate Answers(sha: Sha, objects: Objects, key: Key, declared: MediaRow) {
    && key in objects
    && |objects[key].body| == declared.byteSize
    && sha(objects[key].body) == key.digest
    && objects[key].contentType == declared.contentType
  }

  // ---- the world

  /** A presigned URL: it outlives whatever happens to the row. */
  datatype Grant = Grant(key: Key, size: int, contentType: string)

  /** How far one commit call has got: it has read the row, and then has found the object as declared. */
  datatype Commit = HasRead(key: Key, declared: MediaRow) | HasChecked(key: Key, declared: MediaRow) | Ended

  /** How far one sweep has got: it has read the referenced keys, and then has planned what to delete. */
  datatype Sweep = Knows(at: int, keys: set<Key>) | Plans(orphans: set<Key>)

  datatype World = World(
    accounts: map<Id, State>,
    begun: map<Key, int>,
    dead: set<Id>,
    bucket: Objects,
    grants: set<Grant>,
    commits: map<nat, Commit>,
    sweeps: map<nat, Sweep>,
    clock: int)

  const Empty := World(map[], map[], {}, map[], {}, map[], map[], 0)

  predicate HasRow(accounts: map<Id, State>, key: Key) {
    key.traveller in accounts && key.digest in accounts[key.traveller].log.media
  }

  function MediaRowOf(accounts: map<Id, State>, key: Key): MediaRow
    requires HasRow(accounts, key)
  {
    accounts[key.traveller].log.media[key.digest]
  }

  predicate IsCommitted(accounts: map<Id, State>, key: Key) {
    HasRow(accounts, key) && MediaRowOf(accounts, key).uploaded
  }

  function KnownObjects(accounts: map<Id, State>): set<Key> {
    set t, m | t in accounts && m in accounts[t].log.media :: Key(t, m)
  }

  // ---- steps

  datatype Act =
    | Register(traveller: Id)
    | LogWrite(traveller: Id, op: Op)
    | Begin(key: Key, byteSize: int, contentType: string)
    | Put(grant: Grant, body: Body)
    | CommitRead(call: nat, key: Key)
    | CommitStat(call: nat)
    | CommitMark(call: nat)
    | DeleteTraveller(traveller: Id)
    | Forget(key: Key)
    | SweepKnown(sweep: nat)
    | SweepPlan(sweep: nat)
    | SweepDelete(sweep: nat, key: Key)
    | Wait(seconds: nat)

  function Stepped(w: World, t: Id, step: Runs.Step): World
    requires t in w.accounts
  {
    w.(accounts := w.accounts[t := Next(w.accounts[t], step)])
  }

  /** Traveller ids are drawn fresh: none is live or was ever. */
  function Registered(w: World, t: Id): World {
    if t in w.accounts || t in w.dead then w else w.(accounts := w.accounts[t := Start])
  }

  function Writing(w: World, t: Id, op: Op): World {
    if t in w.accounts then Stepped(w, t, Write(op)) else w
  }

  /** begun dates the first begin of a row; a URL is minted only while the row is uncommitted. */
  function Beginning(w: World, key: Key, byteSize: int, contentType: string): World {
    if key.traveller !in w.accounts then w
    else if IsCommitted(w.accounts, key) then w
    else
      Stepped(w, key.traveller, BeginMedia(key.digest, byteSize, contentType)).(
        begun := if HasRow(w.accounts, key) then w.begun else w.begun[key := w.clock],
        grants := w.grants + {Grant(key, byteSize, contentType)})
  }

  function Putting(sha: Sha, w: World, g: Grant, body: Body): World {
    if g !in w.grants then w
    else w.(bucket := Uploading(sha, w.bucket, g.key, g.size, g.contentType, body, w.clock))
  }

  function Reading(w: World, call: nat, key: Key): World {
    if call in w.commits then w
    else w.(commits := w.commits[call :=
      if HasRow(w.accounts, key) && !IsCommitted(w.accounts, key) then HasRead(key, MediaRowOf(w.accounts, key))
      else Ended])
  }

  function Checking(sha: Sha, w: World, call: nat): World {
    if call !in w.commits || !w.commits[call].HasRead? then w
    else
      var c := w.commits[call];
      w.(commits := w.commits[call :=
        if Answers(sha, w.bucket, c.key, c.declared) then HasChecked(c.key, c.declared) else Ended])
  }

  function Marking(w: World, call: nat): World {
    if call !in w.commits || !w.commits[call].HasChecked? then w
    else
      var key := w.commits[call].key;
      var ended := w.(commits := w.commits[call := Ended]);
      if HasRow(w.accounts, key) then Stepped(ended, key.traveller, MarkMedia(key.digest)) else ended
  }

  /** The row and its cascades go; the objects are forgotten one by one afterwards, or not. */
  function Deleting(w: World, t: Id): World {
    if t !in w.accounts then w else w.(accounts := w.accounts - {t}, dead := w.dead + {t})
  }

  function Forgetting(w: World, key: Key): World {
    if key.traveller in w.dead then w.(bucket := w.bucket - {key}) else w
  }

  predicate Old(o: Stored, now: int) {
    now - o.modified >= MIN_AGE
  }

  function Orphans(objects: Objects, known: set<Key>, now: int): set<Key> {
    set k | k in objects && k !in known && Old(objects[k], now)
  }

  function Knowing(w: World, sweep: nat): World {
    if sweep in w.sweeps then w else w.(sweeps := w.sweeps[sweep := Knows(w.clock, KnownObjects(w.accounts))])
  }

  /** The whole sweep runs under one deadline: a list read past it fails. */
  function Planning(w: World, sweep: nat): World {
    if sweep !in w.sweeps || !w.sweeps[sweep].Knows? || w.clock - w.sweeps[sweep].at > SWEEP_BUDGET then w
    else w.(sweeps := w.sweeps[sweep := Plans(Orphans(w.bucket, w.sweeps[sweep].keys, w.clock))])
  }

  function Sweeping(w: World, sweep: nat, key: Key): World {
    if sweep in w.sweeps && w.sweeps[sweep].Plans? && key in w.sweeps[sweep].orphans
    then w.(bucket := w.bucket - {key}) else w
  }

  function Waiting(w: World, n: nat): World {
    w.(clock := w.clock + n)
  }

  function Do(sha: Sha, w: World, act: Act): World {
    match act
    case Register(t) => Registered(w, t)
    case LogWrite(t, op) => Writing(w, t, op)
    case Begin(key, n, t) => Beginning(w, key, n, t)
    case Put(g, body) => Putting(sha, w, g, body)
    case CommitRead(call, key) => Reading(w, call, key)
    case CommitStat(call) => Checking(sha, w, call)
    case CommitMark(call) => Marking(w, call)
    case DeleteTraveller(t) => Deleting(w, t)
    case Forget(key) => Forgetting(w, key)
    case SweepKnown(s) => Knowing(w, s)
    case SweepPlan(s) => Planning(w, s)
    case SweepDelete(s, key) => Sweeping(w, s, key)
    case Wait(n) => Waiting(w, n)
  }

  function After(sha: Sha, acts: seq<Act>): World {
    if acts == [] then Empty else Do(sha, After(sha, acts[..|acts| - 1]), acts[|acts| - 1])
  }
}
