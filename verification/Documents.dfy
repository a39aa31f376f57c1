/** The whole-log document, and the entities a write answers with. */
module Documents {
  import opened Options
  import opened Ordering
  import opened Tables

  datatype Trip = Trip(id: Id, name: string, cityIds: seq<Id>, start: Option<int>, end: Option<int>,
                       summary: Option<string>, cover: Option<Id>, shareLinkId: Option<string>,
                       sharePhotos: bool, shareNotes: bool, shareCoordinates: bool, shared: bool)
  datatype City = City(id: Id, name: string, country: Country, centre: LatLng, cover: Option<Id>)
  datatype Visit = Visit(id: Id, place: Id, trip: Id, at: int, note: Option<string>)
  datatype Place = Place(id: Id, city: Id, name: string, at: LatLng, visits: seq<Visit>, plan: Option<string>,
                         cover: Option<Id>)
  datatype Photo = Photo(id: Id, row: PhotoRow)
  datatype Walk = Walk(id: Id, row: WalkRow)

  datatype Document = Document(trips: seq<Trip>, cities: seq<City>, places: seq<Place>, photos: seq<Photo>,
                               walks: seq<Walk>, traveller: Option<string>)

  /** shared is derived: some link of the trip is not revoked. */
  predicate Shared(links: map<string, LinkRow>, trip: Id) {
    exists k :: k in links && links[k].trip == trip && !links[k].revoked
  }

  /** readOneTrip. The token itself is never read back. */
  function TripFrom(id: Id, t: TripRow, cityIds: seq<Id>, shared: bool): Trip {
    Trip(id, t.name, cityIds, t.started, t.ended, t.summary, t.cover, None,
         t.sharePhotos, t.shareNotes, t.shareCoordinates, shared)
  }

  function TripOf(log: Log, id: Id): Trip
    requires id in log.trips
  {
    TripFrom(id, log.trips[id], CityIds(log.tripCities, id), Shared(log.links, id))
  }

  function CityFrom(id: Id, c: CityRow): City {
    City(id, c.name, c.country, c.centre, c.cover)
  }

  function VisitOf(visits: map<Id, VisitRow>, id: Id): Visit
    requires id in visits
  {
    Visit(id, visits[id].place, visits[id].trip, visits[id].at, visits[id].note)
  }

  /** A place's visits, in the order they are read. */
  function VisitsOf(visits: map<Id, VisitRow>, place: Id): (out: seq<Visit>)
  {
    var ids := VisitIds(visits, place);
    assert forall i | 0 <= i < |ids| :: ids[i] in ids;
    seq(|ids|, i requires 0 <= i < |ids| => VisitOf(visits, ids[i]))
  }

  function PlaceWith(id: Id, p: PlaceRow, visits: seq<Visit>): Place {
    Place(id, p.city, p.name, p.at, visits, p.plan, p.cover)
  }

  /** readOnePlace. */
  function PlaceOf(log: Log, id: Id): Place
    requires id in log.places
  {
    PlaceWith(id, log.places[id], VisitsOf(log.visits, id))
  }

  function TripTable(trips: map<Id, TripRow>, tripCities: map<(Id, Id), int>,
                     links: map<string, LinkRow>): map<Id, Trip> {
    map t | t in trips :: TripFrom(t, trips[t], CityIds(tripCities, t), Shared(links, t))
  }

  function CityTable(cities: map<Id, CityRow>): map<Id, City> {
    map c | c in cities :: CityFrom(c, cities[c])
  }

  function PlaceTable(places: map<Id, PlaceRow>, visits: map<Id, VisitRow>): map<Id, Place> {
    map p | p in places :: PlaceWith(p, places[p], VisitsOf(visits, p))
  }

  function PhotoTable(photos: map<Id, PhotoRow>): map<Id, Photo> {
    map p | p in photos :: Photo(p, photos[p])
  }

  function WalkTable(walks: map<Id, WalkRow>): map<Id, Walk> {
    map w | w in walks :: Walk(w, walks[w])
  }

  /** The five entity tables and the name, before they are put in order. */
  datatype Sheets = Sheets(trips: map<Id, Trip>, cities: map<Id, City>, places: map<Id, Place>,
                           photos: map<Id, Photo>, walks: map<Id, Walk>, traveller: Option<string>)

  function SheetsOf(log: Log): Sheets {
    Sheets(TripTable(log.trips, log.tripCities, log.links), CityTable(log.cities),
           PlaceTable(log.places, log.visits), PhotoTable(log.photos), WalkTable(log.walks), log.name)
  }

  function Render(s: Sheets): Document {
    Document(InIdOrder(s.trips), InIdOrder(s.cities), InIdOrder(s.places), InIdOrder(s.photos), InIdOrder(s.walks),
             s.traveller)
  }

  /** readDocument: every table ORDER BY id, each child collection inside its parent. */
  function DocumentOf(log: Log): Document {
    Render(SheetsOf(log))
  }

  // ---- regrouping: one query over every visit, cut back into places

  /** Every visit of the log, ORDER BY place_id, ordinal, id. */
  function VisitRows(visits: map<Id, VisitRow>, places: seq<Id>): seq<Visit> {
    if places == [] then [] else VisitsOf(visits, places[0]) + VisitRows(visits, places[1..])
  }

  function OnlyPlace(rows: seq<Visit>, place: Id): seq<Visit> {
    if rows == [] then []
    else if rows[0].place == place then [rows[0]] + OnlyPlace(rows[1..], place)
    else OnlyPlace(rows[1..], place)
  }

  lemma {:induction false} OnlyPlaceSplits(a: seq<Visit>, b: seq<Visit>, place: Id)
    ensures OnlyPlace(a + b, place) == OnlyPlace(a, place) + OnlyPlace(b, place)
  {
    if a == [] {
      assert a + b == b;
    } else {
      assert (a + b)[1..] == a[1..] + b;
      OnlyPlaceSplits(a[1..], b, place);
    }
  }

  lemma {:induction false} OnlyPlaceOfOne(rows: seq<Visit>, place: Id, other: Id)
    requires forall i | 0 <= i < |rows| :: rows[i].place == other
    ensures OnlyPlace(rows, place) == if place == other then rows else []
  {
    if rows != [] {
      assert rows == [rows[0]] + rows[1..];
      OnlyPlaceOfOne(rows[1..], place, other);
    }
  }

  lemma VisitsOfArePlaced(visits: map<Id, VisitRow>, place: Id)
    ensures forall i | 0 <= i < |VisitsOf(visits, place)| :: VisitsOf(visits, place)[i].place == place
  {
    var ids := VisitIds(visits, place);
    assert forall i | 0 <= i < |ids| :: ids[i] in ids && ids[i] in VisitsAt(visits, place);
  }

  /** Cutting the one ordered query by place gives each place exactly what reading it alone would. */
  lemma {:induction false} RegroupedVisits(visits: map<Id, VisitRow>, places: seq<Id>, place: Id)
    requires forall i, j | 0 <= i < j < |places| :: places[i] != places[j]
    ensures OnlyPlace(VisitRows(visits, places), place) == if place in places then VisitsOf(visits, place) else []
  {
    if places != [] {
      var first, rest := places[0], places[1..];
      assert places == [first] + rest;
      RegroupedVisits(visits, rest, place);
      OnlyPlaceSplits(VisitsOf(visits, first), VisitRows(visits, rest), place);
      VisitsOfArePlaced(visits, first);
      OnlyPlaceOfOne(VisitsOf(visits, first), place, first);
    }
  }

  /** readVisits: rows appended to the slice of the place they name. */
  method GroupByPlace(rows: seq<Visit>) returns (out: map<Id, seq<Visit>>)
    ensures forall p :: (if p in out then out[p] else []) == OnlyPlace(rows, p)
  {
    out := map[];
    for n := 0 to |rows|
      invariant forall p :: (if p in out then out[p] else []) == OnlyPlace(rows[..n], p)
    {
      var row := rows[n];
      assert rows[..n + 1] == rows[..n] + [row];
      forall p ensures OnlyPlace(rows[..n + 1], p)
                       == OnlyPlace(rows[..n], p) + (if p == row.place then [row] else [])
      {
        OnlyPlaceSplits(rows[..n], [row], p);
        assert [row][1..] == [];
      }
      out := out[row.place := (if row.place in out then out[row.place] else []) + [row]];
    }
    assert rows[..|rows|] == rows;
  }

  lemma PlaceRowsInOrder(log: Log, ids: seq<Id>, out: seq<Place>)
    requires ids == Listing(log.places.Keys, Flat(log.places.Keys)) && |out| == |ids|
    requires forall i | 0 <= i < |ids| :: ids[i] in log.places && out[i] == PlaceOf(log, ids[i])
    ensures out == InIdOrder(PlaceTable(log.places, log.visits))
  {
    assert PlaceTable(log.places, log.visits).Keys == log.places.Keys;
  }

  lemma GroupedVisits(log: Log, ids: seq<Id>, grouped: map<Id, seq<Visit>>, place: Id)
    requires ids == Listing(log.places.Keys, Flat(log.places.Keys)) && place in log.places
    requires forall p :: (if p in grouped then grouped[p] else []) == OnlyPlace(VisitRows(log.visits, ids), p)
    ensures VisitsOf(log.visits, place) == if place in grouped then grouped[place] else []
  {
    ListingHasEachOnce(log.places.Keys, Flat(log.places.Keys));
    RegroupedVisits(log.visits, ids, place);
  }

  /** visits[p.ID], which is nil for a place no row named. */
  function Slice(grouped: map<Id, seq<Visit>>, place: Id): seq<Visit> {
    if place in grouped then grouped[place] else []
  }

  method AttachVisits(places: map<Id, PlaceRow>, ids: seq<Id>, grouped: map<Id, seq<Visit>>) returns (out: seq<Place>)
    requires forall i | 0 <= i < |ids| :: ids[i] in places
    ensures |out| == |ids|
    ensures forall i | 0 <= i < |ids| :: out[i] == PlaceWith(ids[i], places[ids[i]], Slice(grouped, ids[i]))
  {
    out := [];
    for n := 0 to |ids|
      invariant |out| == n
      invariant forall i | 0 <= i < n :: out[i] == PlaceWith(ids[i], places[ids[i]], Slice(grouped, ids[i]))
    {
      out := out + [PlaceWith(ids[n], places[ids[n]], Slice(grouped, ids[n]))];
    }
  }

  /** readPlaces: the grouped visits put back under each row. */
  method ReadPlaces(log: Log) returns (out: seq<Place>)
    ensures out == InIdOrder(PlaceTable(log.places, log.visits))
  {
    var ids := Listing(log.places.Keys, Flat(log.places.Keys));
    assert forall i | 0 <= i < |ids| :: ids[i] in ids;
    var grouped := GroupByPlace(VisitRows(log.visits, ids));
    out := AttachVisits(log.places, ids, grouped);
    forall i | 0 <= i < |ids| ensures out[i] == PlaceOf(log, ids[i]) {
      GroupedVisits(log, ids, grouped, ids[i]);
    }
    PlaceRowsInOrder(log, ids, out);
  }
}
