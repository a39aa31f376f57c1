/** Whole runs of one traveller's log: committed writes, refused and aborted ones, and the media writes
    that hold the lock and move no version. */
module Runs {
  import opened Options
  import opened Ordering
  import opened Tables
  import opened Writes
  import opened Invariants
  import opened Filing

  /** Aborted is any write whose transaction never commits, for whatever reason. */
  datatype Step =
    | Write(op: Op)
    | BeginMedia(id: Id, byteSize: int, contentType: string)
    | MarkMedia(id: Id)
    | Aborted

  /** What one commit leaves: the traveller row's logbook_version and the rows it covers. */
  datatype State = State(version: nat, log: Log)

  const Start := State(0, EmptyLog)

  /** The upsert, whose WHERE uploaded_at IS NULL leaves a committed object alone. */
  function Begun(media: map<Id, MediaRow>, id: Id, byteSize: int, contentType: string): map<Id, MediaRow> {
    if Uploaded(media, id) then media else media[id := MediaRow(byteSize, contentType, false)]
  }

  function Marked(media: map<Id, MediaRow>, id: Id): map<Id, MediaRow> {
    if id in media then media[id := media[id].(uploaded := true)] else media
  }

  function Next(s: State, step: Step): State {
    match step
    case Write(op) =>
      var outcome := Apply(s.log, op);
      if outcome.Committed? then State(s.version + 1, outcome.log) else s
    case BeginMedia(id, n, t) => s.(log := s.log.(media := Begun(s.log.media, id, n, t)))
    case MarkMedia(id) => s.(log := s.log.(media := Marked(s.log.media, id)))
    case Aborted => s
  }

  function After(s: State, steps: seq<Step>): State {
    if steps == [] then s else Next(After(s, steps[..|steps| - 1]), steps[|steps| - 1])
  }

  predicate AllValidated(steps: seq<Step>) {
    forall i | 0 <= i < |steps| && steps[i].Write? :: Validated(steps[i].op)
  }

  ghost predicate UploadsSurvive(before: map<Id, MediaRow>, after: map<Id, MediaRow>) {
    forall m | Uploaded(before, m) :: Uploaded(after, m)
  }

  lemma CoversSurvive(log: Log, media: map<Id, MediaRow>)
    requires UploadsSurvive(log.media, media)
    ensures TripsOk(log.trips, log.media) ==> TripsOk(log.trips, media)
    ensures CitiesOk(log.cities, log.media) ==> CitiesOk(log.cities, media)
    ensures PlacesOk(log.places, log.cities.Keys, log.media) ==> PlacesOk(log.places, log.cities.Keys, media)
  {
  }

  lemma PhotosSurvive(log: Log, media: map<Id, MediaRow>)
    requires UploadsSurvive(log.media, media) && PhotosOk(log.photos, log.trips.Keys, log.cities.Keys, log.media)
    ensures PhotosOk(log.photos, log.trips.Keys, log.cities.Keys, media)
  {
  }

  lemma ClosedUnderUploads(log: Log, media: map<Id, MediaRow>)
    requires Closed(log) && UploadsSurvive(log.media, media)
    ensures Closed(log.(media := media))
  {
    CoversSurvive(log, media);
    PhotosSurvive(log, media);
  }

  lemma NextKeepsClosed(s: State, step: Step)
    requires Closed(s.log) && PairAgrees(s.log.photos, s.log.visits)
    ensures Closed(Next(s, step).log) && PairAgrees(Next(s, step).log.photos, Next(s, step).log.visits)
  {
    match step
    case Write(op) =>
      if Apply(s.log, op).Committed? { ApplyKeepsClosed(s.log, op); ApplyKeepsPair(s.log, op); }
    case BeginMedia(id, n, t) => ClosedUnderUploads(s.log, Begun(s.log.media, id, n, t));
    case MarkMedia(id) => ClosedUnderUploads(s.log, Marked(s.log.media, id));
    case Aborted =>
  }

  /** In every state a run from an empty log reaches, every id resolves, no place and no trip holds two
      children at one ordinal, and a photograph naming an occasion names that occasion's place. */
  lemma {:induction false} EveryRunIsClosed(steps: seq<Step>)
    ensures Closed(After(Start, steps).log)
    ensures PairAgrees(After(Start, steps).log.photos, After(Start, steps).log.visits)
  {
    if steps != [] {
      EveryRunIsClosed(steps[..|steps| - 1]);
      NextKeepsClosed(After(Start, steps[..|steps| - 1]), steps[|steps| - 1]);
    }
  }

  /** The write moves a trip out from under a filing. */
  predicate Parts(s: State, step: Step) {
    step.Write? && Apply(s.log, step.op).Committed?
    && (MovesAFiledPhoto(s.log, step.op) || MovesAnOccupiedVisit(s.log, step.op))
  }

  lemma NextCoherence(s: State, step: Step)
    requires step.Write? ==> Validated(step.op)
    requires Closed(s.log) && Coherent(s.log)
    ensures Coherent(Next(s, step).log) <==> !Parts(s, step)
  {
    if step.Write? && Apply(s.log, step.op).Committed? { CoherenceExactly(s.log, step.op); }
  }

  /** As long as no write has moved a trip under a filing, every photograph names a place exactly when it
      names an occasion, and shares its trip; and the first write that does breaks that at once. */
  lemma {:induction false} EveryRunIsCoherentUntilATripMoves(steps: seq<Step>)
    requires AllValidated(steps)
    requires forall i | 0 <= i < |steps| :: i < |steps| - 1 ==> !Parts(After(Start, steps[..i]), steps[i])
    ensures Coherent(After(Start, steps).log)
            <==> (steps != [] ==> !Parts(After(Start, steps[..|steps| - 1]), steps[|steps| - 1]))
  {
    if steps != [] {
      var most := steps[..|steps| - 1];
      forall i | 0 <= i < |most| ensures !Parts(After(Start, most[..i]), most[i]) {
        assert most[..i] == steps[..i] && most[i] == steps[i];
      }
      EveryRunIsCoherentUntilATripMoves(most);
      if most != [] { assert !Parts(After(Start, most[..|most| - 1]), most[|most| - 1]); }
      EveryRunIsClosed(most);
      NextCoherence(After(Start, most), steps[|steps| - 1]);
    }
  }

  // ---- a run that does part them

  const HERE := LatLng(0.0, 0.0)
  const PLAIN_TRIP := TripWrite(Some("a"), None, None, None, None, None)
  const PLAIN_CITY := CityWrite(Some("a"), Some(Country("JP", "Japan")), Some(HERE), None, None)
  const ONE_VISIT := PlaceWrite(Some("c"), Some("a"), Some(HERE), Some([SentVisit("v", "t", 0, None)]), None, None)
  const NEW_PHOTO := PhotoWrite(Some("t"), Some("c"), Some(0), Some("m"), None, None, None, None)
  const MOVED_PHOTO := PhotoWrite(Some("u"), None, None, None, None, None, None, None)

  const A_TRIP := TripRow("a", None, None, None, None, true, true, false)
  const A_VISIT := VisitRow("p", "t", 0, 0, None)
  const A_PHOTO := PhotoRow("t", "c", None, None, 0, "m", None, None, None, None)
  const WITH_UPLOAD := EmptyLog.(media := map["m" := MediaRow(1, "image/png", true)])
  const WITH_TRIPS := WITH_UPLOAD.(trips := map["t" := A_TRIP, "u" := A_TRIP],
                                   cities := map["c" := CityRow("a", Country("JP", "Japan"), HERE, None)])
  const WITH_VISIT := WITH_TRIPS.(places := map["p" := PlaceRow("c", "a", HERE, None, None)],
                                  visits := map["v" := A_VISIT])
  const WITH_FILING := WITH_VISIT.(photos := map["x" := A_PHOTO.(place := Some("p"), visit := Some("v"))])
  const WITH_MOVE := WITH_VISIT.(photos := map["x" := A_PHOTO.(trip := "u", place := Some("p"), visit := Some("v"))])

  const PARTING_RUN := [
    BeginMedia("m", 1, "image/png"), MarkMedia("m"),
    Write(PutTrip("t", PLAIN_TRIP)), Write(PutTrip("u", PLAIN_TRIP)), Write(PutCity("c", PLAIN_CITY)),
    Write(PutPlace("p", ONE_VISIT)), Write(PutPhoto("x", NEW_PHOTO)), Write(RefilePhoto("x", "p", "v", None)),
    Write(PutPhoto("x", MOVED_PHOTO)), Write(DeleteTrip("t"))]

  lemma AfterPrefix(s: State, steps: seq<Step>, n: nat)
    requires n < |steps|
    ensures After(s, steps[..n + 1]) == Next(After(s, steps[..n]), steps[n])
  {
    assert steps[..n + 1][..n] == steps[..n];
  }

  /** One committed write further along a run. */
  lemma OneMoreCommit(steps: seq<Step>, n: nat, s: State, op: Op, log: Log)
    requires n < |steps| && After(Start, steps[..n]) == s && steps[n] == Write(op)
    requires Apply(s.log, op) == Committed(log)
    ensures After(Start, steps[..n + 1]) == State(s.version + 1, log)
  {
    AfterPrefix(Start, steps, n);
  }

  const WITH_ONE_TRIP := WITH_UPLOAD.(trips := map["t" := A_TRIP])
  const WITH_TWO_TRIPS := WITH_UPLOAD.(trips := map["t" := A_TRIP, "u" := A_TRIP])
  const WITH_PHOTO := WITH_VISIT.(photos := map["x" := A_PHOTO])

  lemma FirstTwo()
    ensures After(Start, PARTING_RUN[..2]) == State(0, WITH_UPLOAD)
  {
    AfterPrefix(Start, PARTING_RUN, 0);
    AfterPrefix(Start, PARTING_RUN, 1);
  }

  lemma TwoTrips()
    ensures Apply(WITH_UPLOAD, PutTrip("t", PLAIN_TRIP)) == Committed(WITH_ONE_TRIP)
    ensures Apply(WITH_ONE_TRIP, PutTrip("u", PLAIN_TRIP)) == Committed(WITH_TWO_TRIPS)
  {
  }

  lemma ACity()
    ensures Apply(WITH_TWO_TRIPS, PutCity("c", PLAIN_CITY)) == Committed(WITH_TRIPS)
  {
  }

  lemma PlaceWithItsVisit()
    ensures Apply(WITH_TRIPS, PutPlace("p", ONE_VISIT)) == Committed(WITH_VISIT)
  {
    assert SentIds(ONE_VISIT.visits.value) == ["v"];
    assert Rewritten(map[], "p", ONE_VISIT.visits.value) == map["v" := A_VISIT];
  }

  lemma TakeThenFile()
    ensures Apply(WITH_VISIT, PutPhoto("x", NEW_PHOTO)) == Committed(WITH_PHOTO)
    ensures Apply(WITH_PHOTO, RefilePhoto("x", "p", "v", None)) == Committed(WITH_FILING)
  {
  }

  lemma Move()
    ensures Apply(WITH_FILING, PutPhoto("x", MOVED_PHOTO)) == Committed(WITH_MOVE)
  {
  }

  lemma FirstFour()
    ensures After(Start, PARTING_RUN[..4]) == State(2, WITH_TWO_TRIPS)
  {
    FirstTwo();
    TwoTrips();
    OneMoreCommit(PARTING_RUN, 2, State(0, WITH_UPLOAD), PutTrip("t", PLAIN_TRIP), WITH_ONE_TRIP);
    OneMoreCommit(PARTING_RUN, 3, State(1, WITH_ONE_TRIP), PutTrip("u", PLAIN_TRIP), WITH_TWO_TRIPS);
  }

  lemma FirstFive()
    ensures After(Start, PARTING_RUN[..5]) == State(3, WITH_TRIPS)
  {
    FirstFour();
    ACity();
    OneMoreCommit(PARTING_RUN, 4, State(2, WITH_TWO_TRIPS), PutCity("c", PLAIN_CITY), WITH_TRIPS);
  }

  lemma FirstSix()
    ensures After(Start, PARTING_RUN[..6]) == State(4, WITH_VISIT)
  {
    FirstFive();
    PlaceWithItsVisit();
    OneMoreCommit(PARTING_RUN, 5, State(3, WITH_TRIPS), PutPlace("p", ONE_VISIT), WITH_VISIT);
  }

  lemma FirstSeven()
    ensures After(Start, PARTING_RUN[..7]) == State(5, WITH_PHOTO)
  {
    FirstSix();
    TakeThenFile();
    OneMoreCommit(PARTING_RUN, 6, State(4, WITH_VISIT), PutPhoto("x", NEW_PHOTO), WITH_PHOTO);
  }

  lemma FirstEight()
    ensures After(Start, PARTING_RUN[..8]) == State(6, WITH_FILING)
  {
    FirstSeven();
    TakeThenFile();
    OneMoreCommit(PARTING_RUN, 7, State(5, WITH_PHOTO), RefilePhoto("x", "p", "v", None), WITH_FILING);
  }

  lemma FirstNine()
    ensures After(Start, PARTING_RUN[..9]) == State(7, WITH_MOVE)
  {
    FirstEight();
    Move();
    OneMoreCommit(PARTING_RUN, 8, State(6, WITH_FILING), PutPhoto("x", MOVED_PHOTO), WITH_MOVE);
  }

  lemma Strand()
    ensures Apply(WITH_MOVE, DeleteTrip("t")).Committed?
    ensures var photos := Apply(WITH_MOVE, DeleteTrip("t")).log.photos;
            "x" in photos && photos["x"].place == Some("p") && photos["x"].visit == None
  {
    assert "v" in VisitsOn(WITH_MOVE.visits, "t");
  }

  /** Filing a photograph, moving it to another trip, then deleting the occasion's trip leaves it naming a
      place and no occasion, so the restriction above is needed. */
  lemma ATripMoveCanStrandAPhoto()
    ensures "x" in After(Start, PARTING_RUN).log.photos
    ensures After(Start, PARTING_RUN).log.photos["x"].place == Some("p")
    ensures After(Start, PARTING_RUN).log.photos["x"].visit == None
  {
    FirstNine();
    Strand();
    OneMoreCommit(PARTING_RUN, 9, State(7, WITH_MOVE), DeleteTrip("t"), Apply(WITH_MOVE, DeleteTrip("t")).log);
    assert PARTING_RUN[..10] == PARTING_RUN;
  }
}
