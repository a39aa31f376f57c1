/** One traveller's rows, as the migrations declare them, and the constraints the schema enforces. */
module Tables {
  import opened Options
  import opened Ordering

  datatype LatLng = LatLng(lat: real, lng: real)
  datatype Country = Country(code: string, name: string)

  datatype TripRow = TripRow(name: string, started: Option<int>, ended: Option<int>, summary: Option<string>,
                             cover: Option<Id>, sharePhotos: bool, shareNotes: bool, shareCoordinates: bool)
  datatype CityRow = CityRow(name: string, country: Country, centre: LatLng, cover: Option<Id>)
  datatype PlaceRow = PlaceRow(city: Id, name: string, at: LatLng, plan: Option<string>, cover: Option<Id>)
  datatype VisitRow = VisitRow(place: Id, trip: Id, ordinal: int, at: int, note: Option<string>)
  datatype PhotoRow = PhotoRow(trip: Id, city: Id, place: Option<Id>, visit: Option<Id>, takenAt: int, asset: Id,
                               caption: Option<string>, coordinates: Option<LatLng>, accuracy: Option<int>,
                               filedLater: Option<int>)
  datatype WalkRow = WalkRow(trip: Id, city: Id, recordedOn: int, distanceKm: real, points: seq<LatLng>,
                             name: Option<string>, dismissed: bool)
  datatype LinkRow = LinkRow(trip: Id, revoked: bool)
  datatype MediaRow = MediaRow(byteSize: int, contentType: string, uploaded: bool)

  /** trip_cities is keyed (trip, city) and holds the ordinal; share_links is keyed by the token's digest. */
  datatype Log = Log(name: Option<string>, trips: map<Id, TripRow>, tripCities: map<(Id, Id), int>,
                     cities: map<Id, CityRow>, places: map<Id, PlaceRow>, visits: map<Id, VisitRow>,
                     photos: map<Id, PhotoRow>, walks: map<Id, WalkRow>, links: map<string, LinkRow>,
                     media: map<Id, MediaRow>)

  const EmptyLog := Log(None, map[], map[], map[], map[], map[], map[], map[], map[], map[])

  // ---- schema: keys that must resolve, and the two unique orders

  predicate Uploaded(media: map<Id, MediaRow>, asset: Id) {
    asset in media && media[asset].uploaded
  }

  predicate CoverResolves(media: map<Id, MediaRow>, cover: Option<Id>) {
    cover.Some? ==> Uploaded(media, cover.value)
  }

  const DAY := 86_400_000

  /** trips_dates_ordered_ck, over date columns: UTC midnights, in order when both are there. */
  predicate DatesOk(started: Option<int>, ended: Option<int>) {
    && (started.Some? ==> started.value % DAY == 0)
    && (ended.Some? ==> ended.value % DAY == 0)
    && (started.Some? && ended.Some? ==> started.value <= ended.value)
  }

  predicate TripOk(t: TripRow, media: map<Id, MediaRow>) {
    CoverResolves(media, t.cover) && DatesOk(t.started, t.ended)
  }

  predicate TripsOk(trips: map<Id, TripRow>, media: map<Id, MediaRow>) {
    forall t | t in trips :: TripOk(trips[t], media)
  }

  /** trip_cities_ordinal_uq: no two cities of one trip share an ordinal. */
  predicate TripCitiesOk(tripCities: map<(Id, Id), int>, trips: set<Id>, cities: set<Id>) {
    && (forall k | k in tripCities :: k.0 in trips && k.1 in cities && tripCities[k] >= 0)
    && (forall k, l | k in tripCities && l in tripCities && k != l && k.0 == l.0 :: tripCities[k] != tripCities[l])
  }

  predicate CitiesOk(cities: map<Id, CityRow>, media: map<Id, MediaRow>) {
    forall c | c in cities :: CoverResolves(media, cities[c].cover)
  }

  predicate PlaceOk(p: PlaceRow, cities: set<Id>, media: map<Id, MediaRow>) {
    p.city in cities && CoverResolves(media, p.cover)
  }

  predicate PlacesOk(places: map<Id, PlaceRow>, cities: set<Id>, media: map<Id, MediaRow>) {
    forall p | p in places :: PlaceOk(places[p], cities, media)
  }

  /** visits_place_ordinal_uq: no two visits of one place share an ordinal. */
  predicate OrdinalsUnique(visits: map<Id, VisitRow>) {
    forall v, w | v in visits && w in visits && v != w && visits[v].place == visits[w].place ::
      visits[v].ordinal != visits[w].ordinal
  }

  /** visits_ordinal_ck. */
  predicate OrdinalsNatural(visits: map<Id, VisitRow>) {
    forall v | v in visits :: visits[v].ordinal >= 0
  }

  predicate VisitOk(v: VisitRow, places: set<Id>, trips: set<Id>) {
    v.place in places && v.trip in trips && v.ordinal >= 0
  }

  predicate VisitsOk(visits: map<Id, VisitRow>, places: set<Id>, trips: set<Id>) {
    forall v | v in visits :: VisitOk(visits[v], places, trips)
  }

  predicate PhotoOk(p: PhotoRow, trips: set<Id>, cities: set<Id>, media: map<Id, MediaRow>) {
    p.trip in trips && p.city in cities && Uploaded(media, p.asset)
  }

  predicate PhotosOk(photos: map<Id, PhotoRow>, trips: set<Id>, cities: set<Id>, media: map<Id, MediaRow>) {
    forall p | p in photos :: PhotoOk(photos[p], trips, cities, media)
  }

  predicate FilingOk(p: PhotoRow, places: set<Id>, visits: set<Id>) {
    (p.place.Some? ==> p.place.value in places) && (p.visit.Some? ==> p.visit.value in visits)
  }

  predicate FilingsOk(photos: map<Id, PhotoRow>, places: set<Id>, visits: set<Id>) {
    forall p | p in photos :: FilingOk(photos[p], places, visits)
  }

  predicate WalksOk(walks: map<Id, WalkRow>, trips: set<Id>, cities: set<Id>) {
    forall w | w in walks :: walks[w].trip in trips && walks[w].city in cities
  }

  /** share_links_trip_fk, and share_links_one_live: at most one link of a trip is live. */
  predicate LinksOk(links: map<string, LinkRow>, trips: set<Id>) {
    && (forall k | k in links :: links[k].trip in trips)
    && (forall k, l | k in links && l in links && k != l && links[k].trip == links[l].trip ::
          links[k].revoked || links[l].revoked)
  }

  /** Every reference resolves and every ordered child collection has distinct ordinals. */
  predicate Closed(log: Log) {
    && TripsOk(log.trips, log.media)
    && TripCitiesOk(log.tripCities, log.trips.Keys, log.cities.Keys)
    && CitiesOk(log.cities, log.media)
    && PlacesOk(log.places, log.cities.Keys, log.media)
    && VisitsOk(log.visits, log.places.Keys, log.trips.Keys)
    && OrdinalsUnique(log.visits)
    && PhotosOk(log.photos, log.trips.Keys, log.cities.Keys, log.media)
    && FilingsOk(log.photos, log.places.Keys, log.visits.Keys)
    && WalksOk(log.walks, log.trips.Keys, log.cities.Keys)
    && LinksOk(log.links, log.trips.Keys)
  }

  // ---- the filing pair, which is a rule of the program and not of the schema

  /** A photograph that names an occasion names that occasion's own place. */
  predicate PairAgrees(photos: map<Id, PhotoRow>, visits: map<Id, VisitRow>) {
    forall p | p in photos && photos[p].visit.Some? ::
      photos[p].visit.value in visits && photos[p].place == Some(visits[photos[p].visit.value].place)
  }

  /** It names a place exactly when it names an occasion, and is on that occasion's trip. */
  predicate FiledWhole(p: PhotoRow, visits: map<Id, VisitRow>) {
    && (p.place.Some? <==> p.visit.Some?)
    && (p.visit.Some? ==> p.visit.value in visits && p.trip == visits[p.visit.value].trip)
  }

  predicate FiledCoherently(photos: map<Id, PhotoRow>, visits: map<Id, VisitRow>) {
    PairAgrees(photos, visits) && forall p | p in photos :: FiledWhole(photos[p], visits)
  }

  predicate Coherent(log: Log) {
    FiledCoherently(log.photos, log.visits)
  }

  // ---- ordered children

  function VisitsAt(visits: map<Id, VisitRow>, place: Id): set<Id> {
    set v | v in visits && visits[v].place == place
  }

  function Ordinals(visits: map<Id, VisitRow>): map<Id, int> {
    map v | v in visits :: visits[v].ordinal
  }

  /** A place's visits, ORDER BY ordinal, id. */
  function VisitIds(visits: map<Id, VisitRow>, place: Id): seq<Id> {
    Listing(VisitsAt(visits, place), Ordinals(visits))
  }

  predicate IsMax(m: int, keys: set<Id>, rank: map<Id, int>)
    requires keys <= rank.Keys
  {
    (exists k :: k in keys && rank[k] == m) && forall k | k in keys :: rank[k] <= m
  }

  lemma {:induction false} MaxExists(keys: set<Id>, rank: map<Id, int>) returns (m: int)
    requires keys != {} && keys <= rank.Keys
    ensures IsMax(m, keys, rank)
    decreases |keys|
  {
    var k :| k in keys;
    m := rank[k];
    if keys != {k} {
      var n := MaxExists(keys - {k}, rank);
      if n > m { m := n; }
    }
  }

  lemma MaxIsThere(rank: map<Id, int>)
    requires rank.Keys != {}
    ensures exists m :: IsMax(m, rank.Keys, rank)
  {
    var m := MaxExists(rank.Keys, rank);
  }

  /** coalesce(max(x), -1). */
  function MaxIn(rank: map<Id, int>): (m: int)
    ensures if rank.Keys == {} then m == -1 else IsMax(m, rank.Keys, rank)
  {
    if rank.Keys == {} then -1
    else
      MaxIsThere(rank);
      var m :| IsMax(m, rank.Keys, rank);
      m
  }

  /** The greatest ordinal of a place's visits, or -1. */
  function MaxOrdinal(visits: map<Id, VisitRow>, place: Id): (m: int)
    ensures forall v | v in VisitsAt(visits, place) :: visits[v].ordinal <= m
    ensures m == -1 || exists v :: v in VisitsAt(visits, place) && visits[v].ordinal == m
  {
    var rank := map v | v in VisitsAt(visits, place) :: visits[v].ordinal;
    assert forall v | v in VisitsAt(visits, place) :: v in rank.Keys && rank[v] == visits[v].ordinal;
    MaxIn(rank)
  }

  function CityOrdinals(tripCities: map<(Id, Id), int>, trip: Id): map<Id, int> {
    map k | k in tripCities && k.0 == trip :: k.1 := tripCities[k]
  }

  /** A trip's cities, ORDER BY ordinal. */
  function CityIds(tripCities: map<(Id, Id), int>, trip: Id): seq<Id> {
    Listing(CityOrdinals(tripCities, trip).Keys, CityOrdinals(tripCities, trip))
  }

  /** The greatest ordinal of a trip's cities, or -1. */
  function MaxCityOrdinal(tripCities: map<(Id, Id), int>, trip: Id): (m: int)
    ensures forall k | k in tripCities && k.0 == trip :: tripCities[k] <= m
    ensures m == -1 || exists k :: k in tripCities && k.0 == trip && tripCities[k] == m
  {
    var rank := CityOrdinals(tripCities, trip);
    assert forall k | k in tripCities && k.0 == trip :: k.1 in rank.Keys && rank[k.1] == tripCities[k];
    MaxIn(rank)
  }

  /** The index of x in list. */
  function Position(list: seq<Id>, x: Id): (i: nat)
    requires x in list
    ensures i < |list| && list[i] == x && x !in list[..i]
  {
    if list[0] == x then 0 else 1 + Position(list[1..], x)
  }
}
