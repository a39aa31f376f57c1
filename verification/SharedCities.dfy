/** Whether a shared page lists every city its places, photographs and walks name. */
module SharedCities {
  import opened Options
  import opened Ordering
  import opened Tables
  import opened Writes
  import opened Documents
  import opened Filing
  import opened Runs
  import opened PublicShare
  import opened Noninterference

  // ---- the page, and the rows behind it

  ghost predicate PageNames(e: Envelope, c: Id) {
    || (exists i :: 0 <= i < |e.places| && e.places[i].city == c)
    || (exists i :: 0 <= i < |e.photos| && e.photos[i].city == c)
    || (exists i :: 0 <= i < |e.walks| && e.walks[i].city == c)
  }

  ghost predicate PageLists(e: Envelope, c: Id) {
    exists i :: 0 <= i < |e.cities| && e.cities[i].id == c
  }

  ghost predicate ShowsItsCities(e: Envelope) {
    forall c | PageNames(e, c) :: PageLists(e, c)
  }

  /** The place of a visit on the trip is in the city. */
  predicate PlaceNames(log: Log, trip: Id, c: Id) {
    exists v :: v in log.visits && log.visits[v].trip == trip
                && log.visits[v].place in log.places && log.places[log.visits[v].place].city == c
  }

  predicate PhotoNames(log: Log, trip: Id, c: Id) {
    exists p :: p in log.photos && log.photos[p].trip == trip && log.photos[p].city == c
  }

  predicate WalkNames(log: Log, trip: Id, c: Id) {
    exists w :: w in log.walks && log.walks[w].trip == trip && !log.walks[w].dismissed && log.walks[w].city == c
  }

  predicate Names(log: Log, trip: Id, c: Id)
    requires trip in log.trips
  {
    || PlaceNames(log, trip, c)
    || (log.trips[trip].sharePhotos && PhotoNames(log, trip, c))
    || WalkNames(log, trip, c)
  }

  predicate Lists(log: Log, trip: Id, c: Id) {
    (trip, c) in log.tripCities && c in log.cities
  }

  ghost predicate CitiesShown(log: Log, trip: Id)
    requires trip in log.trips
  {
    forall c | Names(log, trip, c) :: Lists(log, trip, c)
  }

  /** The read of a table shows a city exactly when a row of it does. */
  lemma ReadNames<T(!new), P>(rows: map<Id, T>, g: T -> P, read: seq<P>, city: P -> Id, c: Id)
    requires Reads(rows, g, read)
    ensures (exists i :: 0 <= i < |read| && city(read[i]) == c) <==> exists k :: k in rows && city(g(rows[k])) == c
  {
    var ids := Listing(rows.Keys, Flat(rows.Keys));
    if k :| k in rows && city(g(rows[k])) == c {
      assert k in ids;
      var i :| 0 <= i < |ids| && ids[i] == k;
      assert city(read[i]) == c;
    }
    if i :| 0 <= i < |read| && city(read[i]) == c {
      assert ids[i] in rows && read[i] == g(rows[ids[i]]);
    }
  }

  lemma PlaceRowsNamed(log: Log, trip: Id, c: Id)
    ensures var rows := PlaceRows(log.places, log.visits, trip);
            (exists p :: p in rows && rows[p].city == c) <==> PlaceNames(log, trip, c)
  {
    var rows := PlaceRows(log.places, log.visits, trip);
    if v :| v in log.visits && log.visits[v].trip == trip
            && log.visits[v].place in log.places && log.places[log.visits[v].place].city == c
    {
      assert v in VisitsAt(OnTrip(log.visits, trip), log.visits[v].place);
      assert rows[log.visits[v].place].city == c;
    }
    if p :| p in rows && rows[p].city == c {
      var v :| v in VisitsAt(OnTrip(log.visits, trip), p);
      assert log.visits[v].place == p;
    }
  }

  function PublicPlaceCity(): PublicPlace -> Id {
    (q: PublicPlace) => q.city
  }

  lemma PlaceImagesNamed(rows: map<Id, Place>, t: TripRow, c: Id)
    ensures (exists k :: k in rows && PublicPlaceCity()(PlaceImage(t)(rows[k])) == c) <==>
            exists k :: k in rows && rows[k].city == c
  {
    assert forall k | k in rows :: PublicPlaceCity()(PlaceImage(t)(rows[k])) == rows[k].city;
  }

  lemma PlacesNamed(log: Log, trip: Id, t: TripRow, c: Id)
    ensures (exists i :: 0 <= i < |PlacesOf(log, trip, t)| && PlacesOf(log, trip, t)[i].city == c) <==>
            PlaceNames(log, trip, c)
  {
    var rows := PlaceRows(log.places, log.visits, trip);
    PlacesRead(log, trip, t);
    ReadNames(rows, PlaceImage(t), PlacesOf(log, trip, t), PublicPlaceCity(), c);
    PlaceImagesNamed(rows, t, c);
    PlaceRowsNamed(log, trip, c);
    assert forall i | 0 <= i < |PlacesOf(log, trip, t)| ::
        PublicPlaceCity()(PlacesOf(log, trip, t)[i]) == PlacesOf(log, trip, t)[i].city;
  }

  function PublicWalkCity(): PublicWalk -> Id {
    (q: PublicWalk) => q.city
  }

  lemma WalkImagesNamed(log: Log, trip: Id, t: TripRow, c: Id)
    ensures var rows := WalkRows(log.walks, trip);
            (exists k :: k in rows && PublicWalkCity()(WalkImage(t)(rows[k])) == c) <==> WalkNames(log, trip, c)
  {
    var rows := WalkRows(log.walks, trip);
    assert forall k | k in rows :: PublicWalkCity()(WalkImage(t)(rows[k])) == rows[k].row.city;
    if w :| w in log.walks && log.walks[w].trip == trip && !log.walks[w].dismissed && log.walks[w].city == c {
      assert w in rows && rows[w].row.city == c;
    }
  }

  lemma WalksNamed(log: Log, trip: Id, t: TripRow, c: Id)
    ensures (exists i :: 0 <= i < |WalksOf(log, trip, t)| && WalksOf(log, trip, t)[i].city == c) <==>
            WalkNames(log, trip, c)
  {
    WalksRead(log, trip, t);
    ReadNames(WalkRows(log.walks, trip), WalkImage(t), WalksOf(log, trip, t), PublicWalkCity(), c);
    WalkImagesNamed(log, trip, t, c);
    assert forall i | 0 <= i < |WalksOf(log, trip, t)| ::
        PublicWalkCity()(WalksOf(log, trip, t)[i]) == WalksOf(log, trip, t)[i].city;
  }

  function PhotoRowCity(): Photo -> Id {
    (p: Photo) => p.row.city
  }

  lemma PhotosNamed(log: Log, trip: Id, c: Id)
    ensures var ps := InIdOrder(PhotoRows(log.photos, trip));
            (exists i :: 0 <= i < |ps| && ps[i].row.city == c) <==> PhotoNames(log, trip, c)
  {
    var rows := PhotoRows(log.photos, trip);
    var ps := InIdOrder(rows);
    var same := (p: Photo) => p;
    InIdOrderReads(rows, same, ps);
    ReadNames(rows, same, ps, PhotoRowCity(), c);
    assert forall i | 0 <= i < |ps| :: PhotoRowCity()(ps[i]) == ps[i].row.city;
    if p :| p in log.photos && log.photos[p].trip == trip && log.photos[p].city == c {
      assert p in rows && PhotoRowCity()(same(rows[p])) == c;
    }
  }

  lemma {:induction false} PublicPhotosKeepCities(ps: seq<Photo>, mint: Mint, notes: bool, coordinates: bool)
    requires PublicPhotos(ps, mint, notes, coordinates).Published?
    ensures var out := PublicPhotos(ps, mint, notes, coordinates).value;
            |out| == |ps| && forall i | 0 <= i < |ps| :: out[i].city == ps[i].row.city
  {
    if ps != [] { PublicPhotosKeepCities(ps[..|ps| - 1], mint, notes, coordinates); }
  }

  lemma CitiesListed(log: Log, trip: Id, c: Id)
    ensures var cities := PublicCities(CityRows(log, trip));
            (exists i :: 0 <= i < |cities| && cities[i].id == c) <==> Lists(log, trip, c)
  {
    var cities, ids := PublicCities(CityRows(log, trip)), PublicCityIds(log, trip);
    forall i | 0 <= i < |ids| ensures cities[i].id == ids[i] { PublicCityAt(log, trip, i); }
    assert c in CitiesOn(log, trip).Keys <==> c in ids;
    assert c in CitiesOn(log, trip).Keys <==> Lists(log, trip, c) by {
      if Lists(log, trip, c) { assert (trip, c) in Joined(log.tripCities, log.cities); }
    }
    if Lists(log, trip, c) {
      var i :| 0 <= i < |ids| && ids[i] == c;
      assert cities[i].id == c;
    }
    if i :| 0 <= i < |cities| && cities[i].id == c { assert ids[i] == c; }
  }

  lemma PhotosShownNamed(log: Log, trip: Id, mint: Mint, c: Id)
    requires trip in log.trips && Emitted(SourceOf(log, trip), mint).0.Published?
    ensures var photos := Emitted(SourceOf(log, trip), mint).0.value.photos;
            (exists i :: 0 <= i < |photos| && photos[i].city == c) <==>
            log.trips[trip].sharePhotos && PhotoNames(log, trip, c)
  {
    var t := log.trips[trip];
    var photos := Emitted(SourceOf(log, trip), mint).0.value.photos;
    if t.sharePhotos {
      var ps := InIdOrder(PhotoRows(log.photos, trip));
      PublicPhotosKeepCities(ps, mint, t.shareNotes, t.shareCoordinates);
      PhotosNamed(log, trip, c);
      assert photos == PublicPhotos(ps, mint, t.shareNotes, t.shareCoordinates).value;
      assert forall i | 0 <= i < |ps| :: photos[i].city == ps[i].row.city;
    }
  }

  lemma PagePieces(log: Log, trip: Id, mint: Mint)
    requires trip in log.trips && Emitted(SourceOf(log, trip), mint).0.Published?
    ensures var e, t := Emitted(SourceOf(log, trip), mint).0.value, log.trips[trip];
            && e.places == PlacesOf(log, trip, t) && e.walks == WalksOf(log, trip, t)
            && e.cities == PublicCities(CityRows(log, trip))
  {
  }

  /** A published page names and lists the cities that its rows name and list. */
  lemma PageIsItsRows(log: Log, trip: Id, mint: Mint, c: Id, e: Envelope)
    requires trip in log.trips && Emitted(SourceOf(log, trip), mint).0 == Published(e)
    ensures (PageNames(e, c) <==> Names(log, trip, c)) && (PageLists(e, c) <==> Lists(log, trip, c))
  {
    var t := log.trips[trip];
    PagePieces(log, trip, mint);
    PlacesNamed(log, trip, t, c);
    WalksNamed(log, trip, t, c);
    PhotosShownNamed(log, trip, mint, c);
    CitiesListed(log, trip, c);
  }

  /** A published page lists every city it names exactly when its rows do. */
  lemma PageListsItsCitiesExactly(log: Log, trip: Id, mint: Mint)
    requires trip in log.trips && Emitted(SourceOf(log, trip), mint).0.Published?
    ensures ShowsItsCities(Emitted(SourceOf(log, trip), mint).0.value) <==> CitiesShown(log, trip)
  {
    var e := Emitted(SourceOf(log, trip), mint).0.value;
    forall c ensures (PageNames(e, c) <==> Names(log, trip, c)) && (PageLists(e, c) <==> Lists(log, trip, c)) {
      PageIsItsRows(log, trip, mint, c, e);
    }
  }

  // ---- which writes part them

  predicate HasUnlistedPhoto(log: Log, trip: Id) {
    exists p :: p in log.photos && log.photos[p].trip == trip && !Lists(log, trip, log.photos[p].city)
  }

  /** The place has a visit on the trip once the write is done. */
  predicate VisitedAfter(log: Log, place: Id, w: PlaceWrite, trip: Id) {
    if w.visits.Some? then exists i :: 0 <= i < |w.visits.value| && w.visits.value[i].trip == trip
    else exists v :: v in log.visits && log.visits[v].trip == trip && log.visits[v].place == place
  }

  /** The city a place, photograph or walk is in once the write is done, and the trip. */
  function PlaceCity(log: Log, id: Id, w: PlaceWrite): Id {
    Patch(w.city, if id in log.places then log.places[id].city else "")
  }

  function PhotoCity(log: Log, id: Id, w: PhotoWrite): Id {
    Patch(w.city, if id in log.photos then log.photos[id].city else "")
  }

  function PhotoTrip(log: Log, id: Id, w: PhotoWrite): Id {
    Patch(w.trip, if id in log.photos then log.photos[id].trip else "")
  }

  function WalkCity(log: Log, id: Id, w: WalkWrite): Id {
    Patch(w.city, if id in log.walks then log.walks[id].city else "")
  }

  function WalkTrip(log: Log, id: Id, w: WalkWrite): Id {
    Patch(w.trip, if id in log.walks then log.walks[id].trip else "")
  }

  predicate WalkDismissed(log: Log, id: Id, w: WalkWrite) {
    Patch(w.dismissed, id in log.walks && log.walks[id].dismissed)
  }

  /** The write leaves the page of the trip naming a city it does not list: an itinerary that drops a city still named;
      a place, photograph or walk of the trip put in a city that is not on it, or put on the trip in one; an occasion
      minted at such a place; or photographs shown that are in one. */
  ghost predicate UnlistsACity(log: Log, op: Op, trip: Id)
    requires trip in log.trips
  {
    match op
    case PutTrip(id, w) => id == trip && w.cityIds.Some? && exists c :: Names(log, trip, c) && c !in w.cityIds.value
    case PutPlace(id, w) => VisitedAfter(log, id, w, trip) && !Lists(log, trip, PlaceCity(log, id, w))
    case PutPhoto(id, w) =>
      log.trips[trip].sharePhotos && PhotoTrip(log, id, w) == trip && !Lists(log, trip, PhotoCity(log, id, w))
    case PutWalk(id, w) =>
      WalkTrip(log, id, w) == trip && !WalkDismissed(log, id, w) && !Lists(log, trip, WalkCity(log, id, w))
    case RefilePhoto(id, place, visit, _) =>
      && visit !in log.visits && id in log.photos && log.photos[id].trip == trip
      && place in log.places && !Lists(log, trip, log.places[place].city)
    case SetShareOptions(id, w) =>
      id == trip && Patch(w.photos, log.trips[trip].sharePhotos) && HasUnlistedPhoto(log, trip)
    case StopSharing(id) => id == trip && HasUnlistedPhoto(log, trip)
    case _ => false
  }

  /** No new name, and no city off the list. */
  lemma NothingNewNamed(log: Log, after: Log, trip: Id)
    requires trip in log.trips && trip in after.trips && CitiesShown(log, trip)
    requires forall c | Names(after, trip, c) :: Names(log, trip, c)
    requires forall c | Lists(log, trip, c) :: Lists(after, trip, c)
    ensures CitiesShown(after, trip)
  {
  }

  lemma PutTripCities(log: Log, op: Op, trip: Id)
    requires op.PutTrip? && trip in log.trips && CitiesShown(log, trip) && Apply(log, op).Committed?
    ensures CitiesShown(Apply(log, op).log, trip) <==> !UnlistsACity(log, op, trip)
  {
    var after := Apply(log, op).log;
    assert forall c :: Names(after, trip, c) <==> Names(log, trip, c);
    if op.id == trip && op.trip.cityIds.Some? {
      forall c ensures Lists(after, trip, c) <==> c in op.trip.cityIds.value && c in log.cities {
      }
      assert forall c | Names(log, trip, c) :: c in log.cities;
    } else {
      assert forall c :: Lists(after, trip, c) <==> Lists(log, trip, c);
    }
  }

  lemma SentVisitNames(log: Log, op: Op, trip: Id, c: Id)
    requires op.PutPlace? && Validated(op) && Apply(log, op).Committed? && op.place.visits.Some?
    requires PlaceNames(Apply(log, op).log, trip, c)
    ensures PlaceNames(log, trip, c) ||
            (VisitedAfter(log, op.id, op.place, trip) && PlaceCity(log, op.id, op.place) == c)
  {
    var after, sent := Apply(log, op).log, op.place.visits.value;
    var v :| v in after.visits && after.visits[v].trip == trip
             && after.visits[v].place in after.places && after.places[after.visits[v].place].city == c;
    RewrittenTrip(log, op.id, sent, v);
    if v in SentIds(sent) { assert sent[Position(SentIds(sent), v)].trip == trip; }
  }

  lemma KeptVisitNames(log: Log, op: Op, trip: Id, c: Id)
    requires op.PutPlace? && Apply(log, op).Committed? && op.place.visits.None?
    requires PlaceNames(Apply(log, op).log, trip, c)
    ensures PlaceNames(log, trip, c) ||
            (VisitedAfter(log, op.id, op.place, trip) && PlaceCity(log, op.id, op.place) == c)
  {
    var after := Apply(log, op).log;
    var v :| v in after.visits && after.visits[v].trip == trip
             && after.visits[v].place in after.places && after.places[after.visits[v].place].city == c;
    assert after.visits == log.visits;
  }

  lemma VisitedPlaceNames(log: Log, op: Op, trip: Id)
    requires op.PutPlace? && Validated(op) && Apply(log, op).Committed? && VisitedAfter(log, op.id, op.place, trip)
    ensures PlaceNames(Apply(log, op).log, trip, PlaceCity(log, op.id, op.place))
  {
    var after := Apply(log, op).log;
    assert op.id in after.places && after.places[op.id].city == PlaceCity(log, op.id, op.place);
    if op.place.visits.Some? {
      var sent := op.place.visits.value;
      var i :| 0 <= i < |sent| && sent[i].trip == trip;
      assert SentIds(sent)[i] == sent[i].id;
      RewrittenTrip(log, op.id, sent, sent[i].id);
      assert sent[i].id in after.visits && after.visits[sent[i].id].place == op.id;
    } else {
      var v :| v in log.visits && log.visits[v].trip == trip && log.visits[v].place == op.id;
      assert after.visits == log.visits;
    }
  }

  lemma PutPlaceCities(log: Log, op: Op, trip: Id)
    requires op.PutPlace? && Validated(op) && Apply(log, op).Committed? && trip in log.trips && CitiesShown(log, trip)
    ensures CitiesShown(Apply(log, op).log, trip) <==> !UnlistsACity(log, op, trip)
  {
    var after := Apply(log, op).log;
    var city := PlaceCity(log, op.id, op.place);
    assert forall c :: Lists(after, trip, c) <==> Lists(log, trip, c);
    forall c | Names(after, trip, c)
      ensures Names(log, trip, c) || (VisitedAfter(log, op.id, op.place, trip) && city == c)
    {
      if PlaceNames(after, trip, c) {
        if op.place.visits.Some? { SentVisitNames(log, op, trip, c); } else { KeptVisitNames(log, op, trip, c); }
      }
      assert after.photos == log.photos && after.walks == log.walks && after.trips == log.trips;
    }
    if UnlistsACity(log, op, trip) { VisitedPlaceNames(log, op, trip); }
  }

  lemma PutPhotoCities(log: Log, op: Op, trip: Id)
    requires op.PutPhoto? && Apply(log, op).Committed? && trip in log.trips && CitiesShown(log, trip)
    ensures CitiesShown(Apply(log, op).log, trip) <==> !UnlistsACity(log, op, trip)
  {
    var after := Apply(log, op).log;
    var row := after.photos[op.id];
    assert after == log.(photos := log.photos[op.id := row]);
    assert row.trip == PhotoTrip(log, op.id, op.photo) && row.city == PhotoCity(log, op.id, op.photo);
    forall c | Names(after, trip, c)
      ensures Names(log, trip, c) || (log.trips[trip].sharePhotos && row.trip == trip && row.city == c)
    {
      assert PlaceNames(after, trip, c) <==> PlaceNames(log, trip, c);
      assert WalkNames(after, trip, c) <==> WalkNames(log, trip, c);
    }
    assert forall c :: Lists(after, trip, c) <==> Lists(log, trip, c);
    if UnlistsACity(log, op, trip) { assert Names(after, trip, row.city); }
  }

  lemma PutWalkCities(log: Log, op: Op, trip: Id)
    requires op.PutWalk? && Apply(log, op).Committed? && trip in log.trips && CitiesShown(log, trip)
    ensures CitiesShown(Apply(log, op).log, trip) <==> !UnlistsACity(log, op, trip)
  {
    var after := Apply(log, op).log;
    var row := after.walks[op.id];
    assert after == log.(walks := log.walks[op.id := row]);
    assert row.trip == WalkTrip(log, op.id, op.walk) && row.city == WalkCity(log, op.id, op.walk);
    assert row.dismissed == WalkDismissed(log, op.id, op.walk);
    forall c | Names(after, trip, c)
      ensures Names(log, trip, c) || (row.trip == trip && !row.dismissed && row.city == c)
    {
      assert PlaceNames(after, trip, c) <==> PlaceNames(log, trip, c);
      assert PhotoNames(after, trip, c) <==> PhotoNames(log, trip, c);
    }
    assert forall c :: Lists(after, trip, c) <==> Lists(log, trip, c);
    if UnlistsACity(log, op, trip) { assert Names(after, trip, row.city); }
  }

  /** A minted occasion is at its place and on its trip, and the others stay at theirs and on theirs. */
  lemma OccasionNames(visits: map<Id, VisitRow>, place: Id, visit: Id, trip: Id, at: int)
    requires visit !in visits
    ensures var after := WithOccasion(visits, place, visit, trip, at);
            && after.Keys == visits.Keys + {visit} && after[visit].place == place && after[visit].trip == trip
            && forall v | v in visits :: after[v].place == visits[v].place && after[v].trip == visits[v].trip
  {
  }

  lemma RefileNames(log: Log, op: Op, trip: Id, c: Id)
    requires op.RefilePhoto? && Apply(log, op).Committed?
    ensures PlaceNames(Apply(log, op).log, trip, c) <==>
            || PlaceNames(log, trip, c)
            || (op.toVisit !in log.visits && log.photos[op.id].trip == trip && log.places[op.toPlace].city == c)
  {
    var after := Apply(log, op).log;
    assert after.places == log.places;
    if op.toVisit !in log.visits {
      OccasionNames(log.visits, op.toPlace, op.toVisit, log.photos[op.id].trip, op.visitAt.value);
      if PlaceNames(log, trip, c) {
        var v :| v in log.visits && log.visits[v].trip == trip
                 && log.visits[v].place in log.places && log.places[log.visits[v].place].city == c;
        assert v in after.visits;
      }
    }
  }

  lemma RefiledStaysInItsCity(log: Log, op: Op, trip: Id, c: Id)
    requires op.RefilePhoto? && Apply(log, op).Committed?
    ensures PhotoNames(Apply(log, op).log, trip, c) <==> PhotoNames(log, trip, c)
    ensures WalkNames(Apply(log, op).log, trip, c) <==> WalkNames(log, trip, c)
  {
    var after := Apply(log, op).log;
    assert after.photos.Keys == log.photos.Keys && after.walks == log.walks;
    assert forall p | p in log.photos ::
        after.photos[p].trip == log.photos[p].trip && after.photos[p].city == log.photos[p].city;
  }

  lemma RefileCities(log: Log, op: Op, trip: Id)
    requires op.RefilePhoto? && Apply(log, op).Committed? && trip in log.trips && CitiesShown(log, trip)
    ensures CitiesShown(Apply(log, op).log, trip) <==> !UnlistsACity(log, op, trip)
  {
    var after := Apply(log, op).log;
    var city := log.places[op.toPlace].city;
    forall c
      ensures Names(after, trip, c) <==>
              || Names(log, trip, c)
              || (op.toVisit !in log.visits && log.photos[op.id].trip == trip && city == c)
    {
      RefileNames(log, op, trip, c);
      RefiledStaysInItsCity(log, op, trip, c);
    }
    assert forall c :: Lists(after, trip, c) <==> Lists(log, trip, c);
    if UnlistsACity(log, op, trip) { assert Names(after, trip, city); }
  }

  lemma SwitchCities(log: Log, op: Op, trip: Id)
    requires op.SetShareOptions? || op.StopSharing?
    requires Apply(log, op).Committed? && trip in log.trips && CitiesShown(log, trip)
    ensures CitiesShown(Apply(log, op).log, trip) <==> !UnlistsACity(log, op, trip)
  {
    var after := Apply(log, op).log;
    assert forall c :: PlaceNames(after, trip, c) <==> PlaceNames(log, trip, c);
    assert forall c :: PhotoNames(after, trip, c) <==> PhotoNames(log, trip, c);
    assert forall c :: WalkNames(after, trip, c) <==> WalkNames(log, trip, c);
    assert forall c :: Lists(after, trip, c) <==> Lists(log, trip, c);
    if UnlistsACity(log, op, trip) {
      var p :| p in log.photos && log.photos[p].trip == trip && !Lists(log, trip, log.photos[p].city);
      assert Names(after, trip, log.photos[p].city);
    }
  }

  /** Rows of the trip went or stayed, and its itinerary grew or stayed. */
  ghost predicate Shrank(log: Log, after: Log, trip: Id)
    requires trip in log.trips && trip in after.trips
  {
    && after.trips[trip].sharePhotos == log.trips[trip].sharePhotos
    && (forall v | v in after.visits :: v in log.visits && after.visits[v] == log.visits[v])
    && (forall q | q in after.places :: q in log.places && after.places[q] == log.places[q])
    && (forall p | p in after.photos :: p in log.photos && after.photos[p].trip == log.photos[p].trip
                                        && after.photos[p].city == log.photos[p].city)
    && (forall w | w in after.walks :: w in log.walks && after.walks[w] == log.walks[w])
    && (forall c | Lists(log, trip, c) :: Lists(after, trip, c))
  }

  lemma ShrunkStaysListed(log: Log, after: Log, trip: Id)
    requires trip in log.trips && trip in after.trips && CitiesShown(log, trip) && Shrank(log, after, trip)
    ensures CitiesShown(after, trip)
  {
    forall c | Names(after, trip, c) ensures Names(log, trip, c) {
      assert PlaceNames(after, trip, c) ==> PlaceNames(log, trip, c);
      assert PhotoNames(after, trip, c) ==> PhotoNames(log, trip, c);
      assert WalkNames(after, trip, c) ==> WalkNames(log, trip, c);
    }
  }

  lemma WithoutPlaceShrinks(log: Log, place: Id, trip: Id)
    requires trip in log.trips
    ensures Shrank(log, WithoutPlace(log, place), trip)
  {
  }

  lemma WithoutPhotosShrinks(log: Log, place: Id, trip: Id)
    requires trip in log.trips
    ensures Shrank(log, WithoutPhotosAt(log, place), trip)
  {
  }

  lemma ShrankTwice(a: Log, b: Log, c: Log, trip: Id)
    requires trip in a.trips && trip in b.trips && trip in c.trips && Shrank(a, b, trip) && Shrank(b, c, trip)
    ensures Shrank(a, c, trip)
  {
  }

  lemma RemovedPlaceShrinks(log: Log, op: Op, trip: Id)
    requires op.RemovePlace? && Apply(log, op).Committed? && trip in log.trips
    ensures trip in Apply(log, op).log.trips && Shrank(log, Apply(log, op).log, trip)
  {
    var fewer := WithoutPhotosAt(log, op.id);
    WithoutPlaceShrinks(log, op.id, trip);
    WithoutPhotosShrinks(log, op.id, trip);
    WithoutPlaceShrinks(fewer, op.id, trip);
    ShrankTwice(log, fewer, WithoutPlace(fewer, op.id), trip);
  }

  lemma WithoutTripShrinks(log: Log, id: Id, trip: Id)
    requires trip in log.trips && trip != id
    ensures trip in WithoutTrip(log, id).trips && Shrank(log, WithoutTrip(log, id), trip)
  {
  }

  lemma RemovalsShrink(log: Log, op: Op, trip: Id)
    requires op.DeletePhoto? || op.SnoozePhotos? || op.RemovePlace? || op.DeleteTrip?
    requires Apply(log, op).Committed? && trip in log.trips && trip in Apply(log, op).log.trips
    ensures Shrank(log, Apply(log, op).log, trip)
  {
    match op
    case RemovePlace(_, _) => RemovedPlaceShrinks(log, op, trip);
    case DeleteTrip(id) => WithoutTripShrinks(log, id, trip);
    case _ =>
  }

  lemma AttachingGrows(log: Log, op: Op, trip: Id, c: Id)
    requires op.PutCity? && Apply(log, op).Committed? && Lists(log, trip, c)
    ensures Lists(Apply(log, op).log, trip, c)
  {
  }

  lemma OthersShrink(log: Log, op: Op, trip: Id)
    requires op.PutCity? || op.SetTravellerName? || op.NewShareLink?
    requires Apply(log, op).Committed? && trip in log.trips
    ensures trip in Apply(log, op).log.trips && Shrank(log, Apply(log, op).log, trip)
  {
    if op.PutCity? {
      forall c | Lists(log, trip, c) ensures Lists(Apply(log, op).log, trip, c) { AttachingGrows(log, op, trip, c); }
    }
  }

  lemma OtherWritesListCities(log: Log, op: Op, trip: Id)
    requires op.PutCity? || op.DeletePhoto? || op.SnoozePhotos? || op.SetTravellerName? || op.NewShareLink?
             || op.RemovePlace? || op.DeleteTrip?
    requires Apply(log, op).Committed? && trip in log.trips && trip in Apply(log, op).log.trips
    requires CitiesShown(log, trip)
    ensures CitiesShown(Apply(log, op).log, trip)
  {
    if op.PutCity? || op.SetTravellerName? || op.NewShareLink? {
      OthersShrink(log, op, trip);
    } else {
      RemovalsShrink(log, op, trip);
    }
    ShrunkStaysListed(log, Apply(log, op).log, trip);
  }

  /** A committed write of any kind leaves the page of a trip that is still there listing every city it names, except
      exactly these. */
  lemma CitiesStayListedExactly(log: Log, op: Op, trip: Id)
    requires Validated(op) && trip in log.trips && CitiesShown(log, trip)
    requires Apply(log, op).Committed? && trip in Apply(log, op).log.trips
    ensures CitiesShown(Apply(log, op).log, trip) <==> !UnlistsACity(log, op, trip)
  {
    match op
    case PutTrip(_, _) => PutTripCities(log, op, trip);
    case PutPlace(_, _) => PutPlaceCities(log, op, trip);
    case PutPhoto(_, _) => PutPhotoCities(log, op, trip);
    case PutWalk(_, _) => PutWalkCities(log, op, trip);
    case RefilePhoto(_, _, _, _) => RefileCities(log, op, trip);
    case SetShareOptions(_, _) => SwitchCities(log, op, trip);
    case StopSharing(_) => SwitchCities(log, op, trip);
    case _ => OtherWritesListCities(log, op, trip);
  }

  // ---- whole runs

  ghost predicate AllCitiesShown(log: Log) {
    forall trip | trip in log.trips :: CitiesShown(log, trip)
  }

  ghost predicate Unlists(s: State, step: Step) {
    && step.Write? && Apply(s.log, step.op).Committed?
    && exists trip ::
         trip in s.log.trips && trip in Apply(s.log, step.op).log.trips && UnlistsACity(s.log, step.op, trip)
  }

  lemma OnlyPutTripAddsATrip(log: Log, op: Op, trip: Id)
    requires Apply(log, op).Committed? && trip !in log.trips && trip in Apply(log, op).log.trips
    ensures op.PutTrip?
  {
  }

  lemma NewTripNamesNothing(log: Log, op: Op, trip: Id)
    requires Closed(log) && op.PutTrip? && Apply(log, op).Committed? && trip !in log.trips
    requires trip in Apply(log, op).log.trips
    ensures CitiesShown(Apply(log, op).log, trip)
  {
    var after := Apply(log, op).log;
    assert after.visits == log.visits && after.photos == log.photos && after.walks == log.walks;
    assert forall v | v in log.visits :: VisitOk(log.visits[v], log.places.Keys, log.trips.Keys);
    assert forall p | p in log.photos :: PhotoOk(log.photos[p], log.trips.Keys, log.cities.Keys, log.media);
  }

  lemma NextCitiesShown(s: State, step: Step)
    requires (step.Write? ==> Validated(step.op)) && Closed(s.log) && AllCitiesShown(s.log)
    ensures AllCitiesShown(Next(s, step).log) <==> !Unlists(s, step)
  {
    if step.Write? && Apply(s.log, step.op).Committed? {
      var after := Apply(s.log, step.op).log;
      forall trip | trip in after.trips
        ensures trip !in s.log.trips ==> CitiesShown(after, trip)
        ensures trip in s.log.trips ==> (CitiesShown(after, trip) <==> !UnlistsACity(s.log, step.op, trip))
      {
        if trip in s.log.trips {
          CitiesStayListedExactly(s.log, step.op, trip);
        } else {
          OnlyPutTripAddsATrip(s.log, step.op, trip);
          NewTripNamesNothing(s.log, step.op, trip);
        }
      }
    } else {
      MediaNamesNothing(s, step);
    }
  }

  lemma MediaNamesNothing(s: State, step: Step)
    requires AllCitiesShown(s.log) && (step.Write? ==> !Apply(s.log, step.op).Committed?)
    ensures AllCitiesShown(Next(s, step).log)
  {
    var after := Next(s, step).log;
    forall trip | trip in after.trips ensures CitiesShown(after, trip) {
      assert CitiesShown(s.log, trip) && Shrank(s.log, after, trip);
      ShrunkStaysListed(s.log, after, trip);
    }
  }

  /** As long as no write has been one of these, every published page lists every city it names; and the first that is
      leaves one that does not. */
  lemma {:induction false} EveryPageListsItsCitiesUntilUnlisted(steps: seq<Step>)
    requires AllValidated(steps)
    requires forall i | 0 <= i < |steps| :: i < |steps| - 1 ==> !Unlists(After(Start, steps[..i]), steps[i])
    ensures AllCitiesShown(After(Start, steps).log)
            <==> (steps != [] ==> !Unlists(After(Start, steps[..|steps| - 1]), steps[|steps| - 1]))
  {
    if steps != [] {
      var most := steps[..|steps| - 1];
      forall i | 0 <= i < |most| ensures !Unlists(After(Start, most[..i]), most[i]) {
        assert most[..i] == steps[..i] && most[i] == steps[i];
      }
      EveryPageListsItsCitiesUntilUnlisted(most);
      if most != [] { assert !Unlists(After(Start, most[..|most| - 1]), most[|most| - 1]); }
      EveryRunIsClosed(most);
      NextCitiesShown(After(Start, most), steps[|steps| - 1]);
    }
  }

  /** The eighth state of the parting run: the trip's itinerary is empty, and its page names a city. */
  lemma AnEmptyItineraryListsNothing()
    ensures After(Start, PARTING_RUN[..8]).log == WITH_FILING
    ensures "t" in WITH_FILING.trips && !CitiesShown(WITH_FILING, "t")
  {
    FirstEight();
    assert WITH_FILING.visits["v"].trip == "t" && WITH_FILING.visits["v"].place == "p";
    assert Names(WITH_FILING, "t", "c");
    assert ("t", "c") !in WITH_FILING.tripCities;
  }
}
