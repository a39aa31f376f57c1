/** The public read of one shared trip: which rows it selects, and what of them it publishes. */
module PublicShare {
  import opened Options
  import opened Ordering
  import opened Tables
  import opened Documents

  // ---- the envelope

  datatype PublicTrip = PublicTrip(id: Id, name: string, cityIds: seq<Id>, start: Option<int>, end: Option<int>,
                                   summary: Option<string>, coverUrl: Option<string>)
  datatype PublicCity = PublicCity(id: Id, name: string, country: Country, centre: LatLng)
  datatype PublicDay = PublicDay(at: int, note: Option<string>)
  datatype PublicPlace = PublicPlace(id: Id, city: Id, name: string, coordinates: Option<LatLng>, days: seq<PublicDay>)
  datatype PublicPhoto = PublicPhoto(id: Id, city: Id, place: Option<Id>, takenAt: int, url: string,
                                     caption: Option<string>, coordinates: Option<LatLng>, accuracy: Option<int>)
  datatype PublicWalk = PublicWalk(id: Id, city: Id, recordedOn: int, distanceKm: real, points: seq<LatLng>)
  datatype Envelope = Envelope(trip: PublicTrip, cities: seq<PublicCity>, places: seq<PublicPlace>,
                               photos: seq<PublicPhoto>, walks: seq<PublicWalk>)

  /** Signing a URL can fail. */
  datatype Minted = Url(url: string) | Refused(error: string)

  type Mint = Id -> Minted

  datatype Outcome<T> = Published(value: T) | MintFailed(error: string)

  // ---- the rows

  datatype Source = Source(id: Id, trip: TripRow, cityIds: seq<Id>, cities: seq<City>, places: seq<Place>,
                           photos: seq<Photo>, walks: seq<Walk>)

  function OnTrip(visits: map<Id, VisitRow>, trip: Id): map<Id, VisitRow> {
    map v | v in visits && visits[v].trip == trip :: visits[v]
  }

  /** trip_cities joined to cities. */
  function Joined(tripCities: map<(Id, Id), int>, cities: map<Id, CityRow>): map<(Id, Id), int> {
    map k | k in tripCities && k.1 in cities :: tripCities[k]
  }

  function PublicCityIds(log: Log, trip: Id): seq<Id> {
    CityIds(Joined(log.tripCities, log.cities), trip)
  }

  lemma PublicCityIdsResolve(log: Log, trip: Id)
    ensures forall i | 0 <= i < |PublicCityIds(log, trip)| :: PublicCityIds(log, trip)[i] in log.cities
  {
    var ids := PublicCityIds(log, trip);
    assert forall i | 0 <= i < |ids| :: ids[i] in ids;
  }

  function CityRows(log: Log, trip: Id): seq<City> {
    var ids := PublicCityIds(log, trip);
    PublicCityIdsResolve(log, trip);
    seq(|ids|, i requires 0 <= i < |ids| => CityFrom(ids[i], log.cities[ids[i]]))
  }

  /** The places with a visit on the trip, each with those of its visits alone. */
  function PlaceRows(places: map<Id, PlaceRow>, visits: map<Id, VisitRow>, trip: Id): map<Id, Place> {
    map p | p in places && VisitsAt(OnTrip(visits, trip), p) != {} ::
      PlaceWith(p, places[p], VisitsOf(OnTrip(visits, trip), p))
  }

  function PhotoRows(photos: map<Id, PhotoRow>, trip: Id): map<Id, Photo> {
    map p | p in photos && photos[p].trip == trip :: Photo(p, photos[p])
  }

  function WalkRows(walks: map<Id, WalkRow>, trip: Id): map<Id, Walk> {
    map w | w in walks && walks[w].trip == trip && !walks[w].dismissed :: Walk(w, walks[w])
  }

  /** PublicLog. */
  function SourceOf(log: Log, trip: Id): Source
    requires trip in log.trips
  {
    Source(trip, log.trips[trip], PublicCityIds(log, trip), CityRows(log, trip),
           InIdOrder(PlaceRows(log.places, log.visits, trip)), InIdOrder(PhotoRows(log.photos, trip)),
           InIdOrder(WalkRows(log.walks, trip)))
  }

  // ---- what each row becomes

  function PublicCityOf(c: City): PublicCity {
    PublicCity(c.id, c.name, c.country, c.centre)
  }

  function PublicDayOf(v: Visit, notes: bool): PublicDay {
    PublicDay(v.at, if notes then v.note else None)
  }

  function PublicDays(vs: seq<Visit>, notes: bool): seq<PublicDay> {
    seq(|vs|, i requires 0 <= i < |vs| => PublicDayOf(vs[i], notes))
  }

  function PublicPlaceOf(p: Place, notes: bool, coordinates: bool): PublicPlace {
    PublicPlace(p.id, p.city, p.name, if coordinates then Some(p.at) else None, PublicDays(p.visits, notes))
  }

  function PublicPhotoOf(p: Photo, url: string, notes: bool, coordinates: bool): PublicPhoto {
    PublicPhoto(p.id, p.row.city, p.row.place, p.row.takenAt, url, if notes then p.row.caption else None,
                if coordinates then p.row.coordinates else None, if coordinates then p.row.accuracy else None)
  }

  function PublicWalkOf(w: Walk, coordinates: bool): PublicWalk {
    PublicWalk(w.id, w.row.city, w.row.recordedOn, w.row.distanceKm, if coordinates then w.row.points else [])
  }

  function PublicCities(cs: seq<City>): seq<PublicCity> {
    seq(|cs|, i requires 0 <= i < |cs| => PublicCityOf(cs[i]))
  }

  function PublicPlaces(ps: seq<Place>, notes: bool, coordinates: bool): seq<PublicPlace> {
    seq(|ps|, i requires 0 <= i < |ps| => PublicPlaceOf(ps[i], notes, coordinates))
  }

  function PublicWalks(ws: seq<Walk>, coordinates: bool): seq<PublicWalk> {
    seq(|ws|, i requires 0 <= i < |ws| => PublicWalkOf(ws[i], coordinates))
  }

  /** Photographs are minted in order, and the first refusal is the answer. */
  function PublicPhotos(ps: seq<Photo>, mint: Mint, notes: bool, coordinates: bool): Outcome<seq<PublicPhoto>> {
    if ps == [] then Published([])
    else
      var p, earlier := ps[|ps| - 1], PublicPhotos(ps[..|ps| - 1], mint, notes, coordinates);
      if earlier.MintFailed? then earlier
      else
        match mint(p.row.asset)
        case Refused(e) => MintFailed(e)
        case Url(url) => Published(earlier.value + [PublicPhotoOf(p, url, notes, coordinates)])
  }

  /** Which objects were minted for, up to the first refusal. */
  function Asked(ps: seq<Photo>, mint: Mint): seq<Id> {
    if ps == [] then []
    else
      var earlier := Asked(ps[..|ps| - 1], mint);
      if earlier != [] && mint(earlier[|earlier| - 1]).Refused? then earlier else earlier + [ps[|ps| - 1].row.asset]
  }

  function CoverAsked(t: TripRow): seq<Id> {
    if t.sharePhotos && t.cover.Some? then [t.cover.value] else []
  }

  predicate CoverRefused(t: TripRow, mint: Mint) {
    t.sharePhotos && t.cover.Some? && mint(t.cover.value).Refused?
  }

  function CoverUrl(t: TripRow, mint: Mint): Option<string>
    requires !CoverRefused(t, mint)
  {
    if t.sharePhotos && t.cover.Some? then Some(mint(t.cover.value).url) else None
  }

  /** EmitPublic, and every object it mints for. */
  function Emitted(src: Source, mint: Mint): (Outcome<Envelope>, seq<Id>) {
    var t := src.trip;
    if CoverRefused(t, mint) then (MintFailed(mint(t.cover.value).error), CoverAsked(t))
    else
      var shown := if t.sharePhotos then src.photos else [];
      var photos := PublicPhotos(shown, mint, t.shareNotes, t.shareCoordinates);
      var asked := CoverAsked(t) + Asked(shown, mint);
      if photos.MintFailed? then (MintFailed(photos.error), asked)
      else
        (Published(Envelope(
          PublicTrip(src.id, t.name, src.cityIds, t.started, t.ended, t.summary, CoverUrl(t, mint)),
          PublicCities(src.cities), PublicPlaces(src.places, t.shareNotes, t.shareCoordinates), photos.value,
          PublicWalks(src.walks, t.shareCoordinates))), asked)
  }

  /** The whole public read; none where the trip is gone. */
  function PublicRead(log: Log, trip: Id, mint: Mint): Option<(Outcome<Envelope>, seq<Id>)> {
    if trip !in log.trips then None else Some(Emitted(SourceOf(log, trip), mint))
  }

  // ---- the loops

  method EmitCities(cs: seq<City>) returns (out: seq<PublicCity>)
    ensures out == PublicCities(cs)
  {
    out := [];
    for i := 0 to |cs|
      invariant out == PublicCities(cs[..i])
    {
      out := out + [PublicCity(cs[i].id, cs[i].name, cs[i].country, cs[i].centre)];
    }
    assert cs[..|cs|] == cs;
  }

  method EmitPlaces(ps: seq<Place>, t: TripRow) returns (out: seq<PublicPlace>)
    ensures out == PublicPlaces(ps, t.shareNotes, t.shareCoordinates)
  {
    out := [];
    for i := 0 to |ps|
      invariant out == PublicPlaces(ps[..i], t.shareNotes, t.shareCoordinates)
    {
      var p := ps[i];
      var published := PublicPlace(p.id, p.city, p.name, None, []);
      if t.shareCoordinates { published := published.(coordinates := Some(p.at)); }
      for j := 0 to |p.visits|
        invariant published == PublicPlaceOf(p, t.shareNotes, t.shareCoordinates).(
                                 days := PublicDays(p.visits[..j], t.shareNotes))
      {
        var day := PublicDay(p.visits[j].at, p.visits[j].note);
        if !t.shareNotes { day := day.(note := None); }
        published := published.(days := published.days + [day]);
      }
      assert p.visits[..|p.visits|] == p.visits;
      out := out + [published];
    }
    assert ps[..|ps|] == ps;
  }

  method EmitWalks(ws: seq<Walk>, t: TripRow) returns (out: seq<PublicWalk>)
    ensures out == PublicWalks(ws, t.shareCoordinates)
  {
    out := [];
    for i := 0 to |ws|
      invariant out == PublicWalks(ws[..i], t.shareCoordinates)
    {
      var published := PublicWalk(ws[i].id, ws[i].row.city, ws[i].row.recordedOn, ws[i].row.distanceKm, []);
      if t.shareCoordinates { published := published.(points := ws[i].row.points); }
      out := out + [published];
    }
    assert ws[..|ws|] == ws;
  }

  /** Before photograph n: none refused so far, and each asked for once, in order. */
  ghost predicate AllMinted(ps: seq<Photo>, mint: Mint) {
    forall i | 0 <= i < |ps| :: mint(ps[i].row.asset).Url?
  }

  lemma {:induction false} AskedWhileMinted(ps: seq<Photo>, mint: Mint)
    requires AllMinted(ps, mint)
    ensures Asked(ps, mint) == seq(|ps|, i requires 0 <= i < |ps| => ps[i].row.asset)
  {
    if ps != [] { AskedWhileMinted(ps[..|ps| - 1], mint); }
  }

  /** Once a photograph is refused nothing after it changes the answer, and nothing after it is asked for. */
  lemma {:induction false} RefusalEndsIt(ps: seq<Photo>, n: nat, mint: Mint, notes: bool, coordinates: bool)
    requires n < |ps| && AllMinted(ps[..n], mint) && mint(ps[n].row.asset).Refused?
    ensures PublicPhotos(ps, mint, notes, coordinates) == MintFailed(mint(ps[n].row.asset).error)
    ensures Asked(ps, mint) == Asked(ps[..n], mint) + [ps[n].row.asset]
    decreases |ps|
  {
    var earlier := ps[..|ps| - 1];
    if n == |ps| - 1 {
      MintedPublish(earlier, mint, notes, coordinates);
      AskedWhileMinted(earlier, mint);
    } else {
      assert earlier[..n] == ps[..n];
      RefusalEndsIt(earlier, n, mint, notes, coordinates);
    }
  }

  lemma {:induction false} MintedPublish(ps: seq<Photo>, mint: Mint, notes: bool, coordinates: bool)
    requires AllMinted(ps, mint)
    ensures PublicPhotos(ps, mint, notes, coordinates).Published?
  {
    if ps != [] { MintedPublish(ps[..|ps| - 1], mint, notes, coordinates); }
  }

  method EmitPhotos(ps: seq<Photo>, t: TripRow, mint: Mint) returns (out: Outcome<seq<PublicPhoto>>, asked: seq<Id>)
    ensures out == PublicPhotos(ps, mint, t.shareNotes, t.shareCoordinates) && asked == Asked(ps, mint)
  {
    var shown := [];
    asked := [];
    for i := 0 to |ps|
      invariant AllMinted(ps[..i], mint) && asked == Asked(ps[..i], mint)
      invariant PublicPhotos(ps[..i], mint, t.shareNotes, t.shareCoordinates) == Published(shown)
    {
      var p := ps[i];
      assert ps[..i + 1][..i] == ps[..i];
      AskedWhileMinted(ps[..i], mint);
      asked := asked + [p.row.asset];
      var url := mint(p.row.asset);
      if url.Refused? {
        RefusalEndsIt(ps, i, mint, t.shareNotes, t.shareCoordinates);
        return MintFailed(url.error), asked;
      }
      var published := PublicPhoto(p.id, p.row.city, p.row.place, p.row.takenAt, url.url, p.row.caption, None, None);
      if !t.shareNotes { published := published.(caption := None); }
      if t.shareCoordinates { published := published.(coordinates := p.row.coordinates, accuracy := p.row.accuracy); }
      shown := shown + [published];
    }
    assert ps[..|ps|] == ps;
    out := Published(shown);
  }

  method EmitPublic(src: Source, mint: Mint) returns (answer: Outcome<Envelope>, asked: seq<Id>)
    ensures (answer, asked) == Emitted(src, mint)
  {
    var t := src.trip;
    var trip := PublicTrip(src.id, t.name, src.cityIds, t.started, t.ended, t.summary, None);
    asked := [];
    if t.sharePhotos && t.cover.Some? {
      asked := [t.cover.value];
      var url := mint(t.cover.value);
      if url.Refused? { return MintFailed(url.error), asked; }
      trip := trip.(coverUrl := Some(url.url));
    }
    var cities := EmitCities(src.cities);
    var places := EmitPlaces(src.places, t);
    var photos := [];
    if t.sharePhotos {
      var shown, more := EmitPhotos(src.photos, t, mint);
      asked := asked + more;
      assert [] + more == more;
      if shown.MintFailed? { return MintFailed(shown.error), asked; }
      photos := shown.value;
    }
    var walks := EmitWalks(src.walks, t);
    assert [] + asked == asked == asked + [];
    answer := Published(Envelope(trip, cities, places, photos, walks));
  }

  /** readPublicPlaces: the trip's visits, one query, grouped back under the places they name. */
  method ReadPublicPlaces(log: Log, trip: Id) returns (out: seq<Place>)
    ensures out == InIdOrder(PlaceRows(log.places, log.visits, trip))
  {
    var visits, rows := OnTrip(log.visits, trip), PlaceRows(log.places, log.visits, trip);
    var ids := Listing(rows.Keys, Flat(rows.Keys));
    assert forall i | 0 <= i < |ids| :: ids[i] in ids;
    var grouped := GroupByPlace(VisitRows(visits, ids));
    out := AttachVisits(log.places, ids, grouped);
    forall i | 0 <= i < |ids|
      ensures out[i] == rows[ids[i]]
    {
      OnePublicPlace(log, trip, visits, ids, grouped, ids[i]);
    }
    InOrderIs(rows, ids, out);
  }

  lemma InOrderIs(rows: map<Id, Place>, ids: seq<Id>, out: seq<Place>)
    requires ids == Listing(rows.Keys, Flat(rows.Keys)) && |out| == |ids|
    requires forall i | 0 <= i < |ids| :: ids[i] in rows && out[i] == rows[ids[i]]
    ensures out == InIdOrder(rows)
  {
  }

  lemma OnePublicPlace(log: Log, trip: Id, visits: map<Id, VisitRow>, ids: seq<Id>, grouped: map<Id, seq<Visit>>, p: Id)
    requires visits == OnTrip(log.visits, trip) && p in PlaceRows(log.places, log.visits, trip)
    requires var keys := PlaceRows(log.places, log.visits, trip).Keys; ids == Listing(keys, Flat(keys))
    requires forall q :: (if q in grouped then grouped[q] else []) == OnlyPlace(VisitRows(visits, ids), q)
    ensures PlaceWith(p, log.places[p], Slice(grouped, p)) == PlaceRows(log.places, log.visits, trip)[p]
  {
    var keys := PlaceRows(log.places, log.visits, trip).Keys;
    ListingHasEachOnce(keys, Flat(keys));
    RegroupedVisits(visits, ids, p);
  }
}
