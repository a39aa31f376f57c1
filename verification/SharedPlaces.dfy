/** Whether a shared page shows every place its photographs name. */
module SharedPlaces {
  import opened Options
  import opened Ordering
  import opened Tables
  import opened Writes
  import opened Documents
  import opened Splicing
  import opened Invariants
  import opened Filing
  import opened Runs
  import opened PublicShare

  /** Every place a photograph of the page names is a place of the page. */
  ghost predicate ShowsItsPlaces(e: Envelope) {
    forall i | 0 <= i < |e.photos| && e.photos[i].place.Some? ::
      exists j :: 0 <= j < |e.places| && e.places[j].id == e.photos[i].place.value
  }

  /** The same, of the rows behind it: a photograph on the trip names a place with a visit on the trip. */
  ghost predicate PlacesShown(log: Log, trip: Id) {
    forall p | p in log.photos && log.photos[p].trip == trip && log.photos[p].place.Some? ::
      log.photos[p].place.value in PlaceRows(log.places, log.visits, trip)
  }

  lemma {:induction false} PublicPhotosKeepPlaces(ps: seq<Photo>, mint: Mint, notes: bool, coordinates: bool)
    requires PublicPhotos(ps, mint, notes, coordinates).Published?
    ensures var out := PublicPhotos(ps, mint, notes, coordinates).value;
            |out| == |ps| && forall i | 0 <= i < |ps| :: out[i].place == ps[i].row.place
  {
    if ps != [] { PublicPhotosKeepPlaces(ps[..|ps| - 1], mint, notes, coordinates); }
  }

  lemma PagePlaces(rows: map<Id, Place>, notes: bool, coordinates: bool, q: Id)
    requires forall p | p in rows :: PlaceKey(rows[p]) == p
    ensures var out := PublicPlaces(InIdOrder(rows), notes, coordinates);
            q in rows <==> exists j :: 0 <= j < |out| && out[j].id == q
  {
    InIdOrderIsTheTable(PlaceKey, rows);
    var list := InIdOrder(rows);
    var out := PublicPlaces(list, notes, coordinates);
    if q in rows {
      assert rows[q] in list;
      var j :| 0 <= j < |list| && list[j] == rows[q];
      assert out[j].id == q;
    }
    if j :| 0 <= j < |out| && out[j].id == q {
      assert list[j] in list;
    }
  }

  lemma PagePhotos(log: Log, trip: Id, p: Id)
    ensures var list := InIdOrder(PhotoRows(log.photos, trip));
            && (p in PhotoRows(log.photos, trip) ==> exists i :: 0 <= i < |list| && list[i] == Photo(p, log.photos[p]))
            && (forall i | 0 <= i < |list| ::
                  list[i].id in PhotoRows(log.photos, trip) && list[i] == Photo(list[i].id, log.photos[list[i].id]))
  {
    var rows := PhotoRows(log.photos, trip);
    InIdOrderIsTheTable(PhotoKey, rows);
    var list := InIdOrder(rows);
    assert forall i | 0 <= i < |list| :: list[i] in list;
    if p in rows { assert rows[p] in list; }
  }

  /** The page's photographs and places are those of the rows. */
  ghost predicate PageOf(e: Envelope, log: Log, trip: Id, notes: bool, coordinates: bool) {
    var list := InIdOrder(PhotoRows(log.photos, trip));
    && e.places == PublicPlaces(InIdOrder(PlaceRows(log.places, log.visits, trip)), notes, coordinates)
    && |e.photos| == |list| && forall i | 0 <= i < |list| :: e.photos[i].place == list[i].row.place
  }

  lemma PageThenRows(e: Envelope, log: Log, trip: Id, notes: bool, coordinates: bool)
    requires PageOf(e, log, trip, notes, coordinates) && ShowsItsPlaces(e)
    ensures PlacesShown(log, trip)
  {
    var list := InIdOrder(PhotoRows(log.photos, trip));
    forall p | p in log.photos && log.photos[p].trip == trip && log.photos[p].place.Some?
      ensures log.photos[p].place.value in PlaceRows(log.places, log.visits, trip)
    {
      PagePhotos(log, trip, p);
      var i :| 0 <= i < |list| && list[i] == Photo(p, log.photos[p]);
      assert e.photos[i].place == log.photos[p].place;
      PagePlaces(PlaceRows(log.places, log.visits, trip), notes, coordinates, log.photos[p].place.value);
    }
  }

  lemma RowsThenPage(e: Envelope, log: Log, trip: Id, notes: bool, coordinates: bool)
    requires PageOf(e, log, trip, notes, coordinates) && PlacesShown(log, trip)
    ensures ShowsItsPlaces(e)
  {
    var list := InIdOrder(PhotoRows(log.photos, trip));
    forall i | 0 <= i < |e.photos| && e.photos[i].place.Some?
      ensures exists j :: 0 <= j < |e.places| && e.places[j].id == e.photos[i].place.value
    {
      PagePhotos(log, trip, list[i].id);
      PagePlaces(PlaceRows(log.places, log.visits, trip), notes, coordinates, e.photos[i].place.value);
    }
  }

  /** A published page with photographs shows every place they name exactly when the rows do. */
  lemma PageShowsExactly(log: Log, trip: Id, mint: Mint)
    requires trip in log.trips && log.trips[trip].sharePhotos && Emitted(SourceOf(log, trip), mint).0.Published?
    ensures ShowsItsPlaces(Emitted(SourceOf(log, trip), mint).0.value) <==> PlacesShown(log, trip)
  {
    var t, e := log.trips[trip], Emitted(SourceOf(log, trip), mint).0.value;
    PublicPhotosKeepPlaces(InIdOrder(PhotoRows(log.photos, trip)), mint, t.shareNotes, t.shareCoordinates);
    assert PageOf(e, log, trip, t.shareNotes, t.shareCoordinates);
    if ShowsItsPlaces(e) { PageThenRows(e, log, trip, t.shareNotes, t.shareCoordinates); }
    if PlacesShown(log, trip) { RowsThenPage(e, log, trip, t.shareNotes, t.shareCoordinates); }
  }

  // ---- when the rows do

  lemma CoherentPlacesAreShown(log: Log, trip: Id)
    requires Closed(log) && Coherent(log)
    ensures PlacesShown(log, trip)
  {
    forall p | p in log.photos && log.photos[p].trip == trip && log.photos[p].place.Some?
      ensures log.photos[p].place.value in PlaceRows(log.places, log.visits, trip)
    {
      assert FiledWhole(log.photos[p], log.visits) && FilingOk(log.photos[p], log.places.Keys, log.visits.Keys);
      var v := log.photos[p].visit.value;
      assert v in VisitsAt(OnTrip(log.visits, trip), log.photos[p].place.value);
    }
  }

  /** While no write has moved a trip under a filing, every shared page shows every place its photographs name. */
  lemma EveryPageShowsItsPlacesUntilATripMoves(steps: seq<Step>, trip: Id, mint: Mint)
    requires AllValidated(steps)
    requires forall i | 0 <= i < |steps| :: !Parts(After(Start, steps[..i]), steps[i])
    requires var log := After(Start, steps).log; trip in log.trips && Emitted(SourceOf(log, trip), mint).0.Published?
    ensures ShowsItsPlaces(Emitted(SourceOf(After(Start, steps).log, trip), mint).0.value)
  {
    var log := After(Start, steps).log;
    if log.trips[trip].sharePhotos {
      EveryRunIsClosed(steps);
      EveryRunIsCoherentUntilATripMoves(steps);
      CoherentPlacesAreShown(log, trip);
      PageShowsExactly(log, trip, mint);
    }
  }

  /** Moving a filed photograph to another trip leaves that trip's page showing every place its photographs name
      exactly when the photograph's place has a visit on that trip; every other page is unaffected. */
  lemma MovedPhotoShowsItsPlaceExactly(log: Log, op: Op, trip: Id)
    requires Closed(log) && Coherent(log) && Apply(log, op).Committed? && MovesAFiledPhoto(log, op)
    ensures log.photos[op.id].place.Some?
    ensures PlacesShown(Apply(log, op).log, trip) <==>
            trip != op.photo.trip.value || VisitsAt(OnTrip(log.visits, trip), log.photos[op.id].place.value) != {}
  {
    var after := Apply(log, op).log;
    assert FiledWhole(log.photos[op.id], log.visits);
    assert FilingOk(log.photos[op.id], log.places.Keys, log.visits.Keys);
    assert after == log.(photos := after.photos) && after.photos == log.photos[op.id := after.photos[op.id]];
    assert after.photos[op.id].place == log.photos[op.id].place && after.photos[op.id].trip == op.photo.trip.value;
    CoherentPlacesAreShown(log, trip);
    if PlacesShown(after, trip) && trip == op.photo.trip.value {
      assert after.photos[op.id].place.value in PlaceRows(after.places, after.visits, trip);
    }
  }

  /** Some visit of the array is on the trip. */
  predicate SentOn(sent: seq<SentVisit>, trip: Id) {
    exists i :: 0 <= i < |sent| && sent[i].trip == trip
  }

  lemma RewrittenOnTrip(log: Log, place: Id, sent: seq<SentVisit>, trip: Id, q: Id)
    requires Distinct(SentIds(sent)) && NoneHeldElsewhere(log, place, sent)
    ensures var after := Rewritten(log.visits, place, sent);
            VisitsAt(OnTrip(after, trip), q) != {} <==>
            if q == place then SentOn(sent, trip) else VisitsAt(OnTrip(log.visits, trip), q) != {}
  {
    var after, ids := Rewritten(log.visits, place, sent), SentIds(sent);
    if q == place {
      if i :| 0 <= i < |sent| && sent[i].trip == trip {
        assert ids[i] == sent[i].id;
        RewrittenTrip(log, place, sent, sent[i].id);
        assert sent[i].id in VisitsAt(OnTrip(after, trip), q);
      }
      if v :| v in VisitsAt(OnTrip(after, trip), q) {
        assert v in ids;
        assert sent[Position(ids, v)].trip == trip;
      }
    } else {
      assert VisitsAt(OnTrip(after, trip), q) == VisitsAt(OnTrip(log.visits, trip), q);
    }
  }

  /** A photograph of the trip is filed at the place. */
  predicate FiledThere(log: Log, place: Id, trip: Id) {
    exists p :: p in log.photos && log.photos[p].trip == trip && log.photos[p].place == Some(place)
  }

  lemma RewrittenVisitsShowTheirPlaceExactly(log: Log, op: Op, trip: Id)
    requires Validated(op) && Closed(log) && Coherent(log) && Apply(log, op).Committed?
    requires op.PutPlace? && op.place.visits.Some?
    ensures PlacesShown(Apply(log, op).log, trip) <==>
            (FiledThere(log, op.id, trip) ==> SentOn(op.place.visits.value, trip))
  {
    var after, sent := Apply(log, op).log, op.place.visits.value;
    CoherentPlacesAreShown(log, trip);
    forall q ensures q in PlaceRows(after.places, after.visits, trip) <==>
                     if q == op.id then SentOn(sent, trip) else q in PlaceRows(log.places, log.visits, trip)
    {
      RewrittenOnTrip(log, op.id, sent, trip, q);
    }
  }

  /** The write sends a filed photograph to a trip that has no visit to its place, or leaves the place of a photograph
      of the trip without a visit on it. */
  predicate HidesAPlace(log: Log, op: Op, trip: Id) {
    || (&& MovesAFiledPhoto(log, op) && trip == op.photo.trip.value && log.photos[op.id].place.Some?
        && VisitsAt(OnTrip(log.visits, trip), log.photos[op.id].place.value) == {})
    || (&& op.PutPlace? && op.place.visits.Some? && FiledThere(log, op.id, trip)
        && !SentOn(op.place.visits.value, trip))
  }

  /** From a coherent log, a committed write of any kind leaves the page of any trip showing every place its
      photographs name, except exactly these. */
  lemma PagesStayWholeExactly(log: Log, op: Op, trip: Id)
    requires Validated(op) && Closed(log) && Coherent(log) && Apply(log, op).Committed?
    ensures PlacesShown(Apply(log, op).log, trip) <==> !HidesAPlace(log, op, trip)
  {
    if MovesAFiledPhoto(log, op) {
      MovedPhotoShowsItsPlaceExactly(log, op, trip);
    } else if op.PutPlace? && op.place.visits.Some? {
      RewrittenVisitsShowTheirPlaceExactly(log, op, trip);
    } else {
      CoherenceExactly(log, op);
      ApplyKeepsClosed(log, op);
      CoherentPlacesAreShown(Apply(log, op).log, trip);
    }
  }

  /** The ninth state of the parting run: the page of the photograph's new trip does not show the place it names. */
  lemma AMovedPhotoCanNameAPlaceNotShown()
    ensures After(Start, PARTING_RUN[..9]).log == WITH_MOVE && !PlacesShown(WITH_MOVE, "u")
  {
    FirstNine();
    assert WITH_MOVE.photos["x"].trip == "u" && WITH_MOVE.photos["x"].place == Some("p");
    assert VisitsAt(OnTrip(WITH_MOVE.visits, "u"), "p") == {};
  }

  const MOVED_VISIT := PlaceWrite(None, None, None, Some([SentVisit("v", "u", 0, None)]), None, None)

  /** From the eighth state of that run, sending the occupied visit to the other trip leaves the page of the
      photograph's own trip without the place it names. */
  lemma AMovedVisitCanHideItsPlace()
    ensures After(Start, PARTING_RUN[..8]).log == WITH_FILING
    ensures Apply(WITH_FILING, PutPlace("p", MOVED_VISIT)).Committed?
    ensures !PlacesShown(Apply(WITH_FILING, PutPlace("p", MOVED_VISIT)).log, "t")
  {
    FirstEight();
    MovedVisitCommits();
    var after := Apply(WITH_FILING, PutPlace("p", MOVED_VISIT)).log;
    assert after.photos["x"].trip == "t" && after.photos["x"].place == Some("p");
    assert after.visits["v"].trip == "u" && VisitsAt(OnTrip(after.visits, "t"), "p") == {};
  }

  lemma MovedVisitRows()
    ensures SentIds(MOVED_VISIT.visits.value) == ["v"]
    ensures Rewritten(WITH_FILING.visits, "p", MOVED_VISIT.visits.value) == map["v" := VisitRow("p", "u", 0, 0, None)]
  {
    assert SentIds(MOVED_VISIT.visits.value) == ["v"];
  }

  lemma MovedVisitIsWritable()
    ensures VisitsWritable(WITH_FILING, "p", MOVED_VISIT.visits.value)
  {
    assert SentIds(MOVED_VISIT.visits.value) == ["v"];
  }

  lemma MovedVisitCommits()
    ensures Apply(WITH_FILING, PutPlace("p", MOVED_VISIT)).Committed?
    ensures Apply(WITH_FILING, PutPlace("p", MOVED_VISIT)).log.visits == map["v" := VisitRow("p", "u", 0, 0, None)]
  {
    MovedVisitIsWritable();
    MovedVisitRows();
  }
}
