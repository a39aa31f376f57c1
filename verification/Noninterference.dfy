/** What a stranger can tell apart: two logs have the same public page of a trip exactly when they are alike in what the
    trip shares. Nothing that its switches keep back, and nothing that is never published, can be read off the page. */
module Noninterference {
  import opened Options
  import opened Ordering
  import opened Tables
  import opened Documents
  import opened PublicShare

  // ---- when two logs are the same to a stranger. s and t are the trip's rows in the one and in the other.

  function Shown<T>(shared: bool, x: Option<T>): Option<T> {
    if shared then x else None
  }

  predicate TripsAlike(s: TripRow, t: TripRow) {
    && s.name == t.name && s.started == t.started && s.ended == t.ended && s.summary == t.summary
    && Shown(s.sharePhotos, s.cover) == Shown(t.sharePhotos, t.cover)
  }

  /** The trip's cities, with the ordinals they have on it. */
  function CitiesOn(log: Log, trip: Id): map<Id, int> {
    CityOrdinals(Joined(log.tripCities, log.cities), trip)
  }

  ghost predicate OrderedAlike(x: map<Id, int>, y: map<Id, int>) {
    x.Keys == y.Keys && forall c, d | c in x && d in x :: Precedes(x, c, d) <==> Precedes(y, c, d)
  }

  /** The trip's cities are the same, in the same order; the ordinals themselves and the covers may differ. */
  ghost predicate CitiesAlike(a: Log, b: Log, trip: Id) {
    && OrderedAlike(CitiesOn(a, trip), CitiesOn(b, trip))
    && forall c | c in CitiesOn(a, trip) :: CityAlike(a.cities, b.cities, c)
  }

  predicate CityAlike(a: map<Id, CityRow>, b: map<Id, CityRow>, c: Id) {
    c in a && c in b && a[c].name == b[c].name && a[c].country == b[c].country && a[c].centre == b[c].centre
  }

  /** The trip's visits to places that are there. */
  function ShownVisits(log: Log, trip: Id): map<Id, VisitRow> {
    map v | v in log.visits && log.visits[v].trip == trip && log.visits[v].place in log.places :: log.visits[v]
  }

  predicate VisitAlike(a: VisitRow, b: VisitRow, s: TripRow, t: TripRow) {
    a.place == b.place && a.at == b.at && Shown(s.shareNotes, a.note) == Shown(t.shareNotes, b.note)
  }

  ghost predicate KeepsOrder(f: map<Id, Id>, u: map<Id, VisitRow>, w: map<Id, VisitRow>)
    requires f.Keys == u.Keys && f.Values == w.Keys
  {
    forall v, x | v in u && x in u && u[v].place == u[x].place ::
      Precedes(Ordinals(u), v, x) <==> Precedes(Ordinals(w), f[v], f[x])
  }

  /** f takes the one's visits onto the other's, each to one alike, and within a place in the same order. */
  ghost predicate Renames(f: map<Id, Id>, a: map<Id, VisitRow>, b: map<Id, VisitRow>, s: TripRow, t: TripRow) {
    && f.Keys == a.Keys && f.Values == b.Keys && KeepsOrder(f, a, b)
    && forall v | v in a :: VisitAlike(a[v], b[f[v]], s, t)
  }

  /** The trip's visits are the same, and within a place in the same order; ids, ordinals, and notes kept back, may
      differ. */
  ghost predicate VisitsAlike(a: map<Id, VisitRow>, b: map<Id, VisitRow>, s: TripRow, t: TripRow) {
    exists f :: Renames(f, a, b, s, t)
  }

  predicate PlaceAlike(a: PlaceRow, b: PlaceRow, s: TripRow, t: TripRow) {
    && a.city == b.city && a.name == b.name
    && Shown(s.shareCoordinates, Some(a.at)) == Shown(t.shareCoordinates, Some(b.at))
  }

  predicate PlacesAlike(a: Log, b: Log, trip: Id, s: TripRow, t: TripRow) {
    forall p | p in a.places && p in b.places && VisitsAt(OnTrip(a.visits, trip), p) != {} ::
      PlaceAlike(a.places[p], b.places[p], s, t)
  }

  function ShownPhotos(log: Log, trip: Id, t: TripRow): map<Id, Photo> {
    if t.sharePhotos then PhotoRows(log.photos, trip) else map[]
  }

  predicate PhotoAlike(a: PhotoRow, b: PhotoRow, s: TripRow, t: TripRow) {
    && a.city == b.city && a.place == b.place && a.takenAt == b.takenAt && a.asset == b.asset
    && Shown(s.shareNotes, a.caption) == Shown(t.shareNotes, b.caption)
    && Shown(s.shareCoordinates, a.coordinates) == Shown(t.shareCoordinates, b.coordinates)
    && Shown(s.shareCoordinates, a.accuracy) == Shown(t.shareCoordinates, b.accuracy)
  }

  predicate PhotosAlike(x: map<Id, Photo>, y: map<Id, Photo>, s: TripRow, t: TripRow) {
    x.Keys == y.Keys && forall p | p in x :: PhotoAlike(x[p].row, y[p].row, s, t)
  }

  predicate WalkAlike(a: WalkRow, b: WalkRow, s: TripRow, t: TripRow) {
    && a.city == b.city && a.recordedOn == b.recordedOn && a.distanceKm == b.distanceKm
    && (if s.shareCoordinates then a.points else []) == if t.shareCoordinates then b.points else []
  }

  predicate WalksAlike(x: map<Id, Walk>, y: map<Id, Walk>, s: TripRow, t: TripRow) {
    x.Keys == y.Keys && forall w | w in x :: WalkAlike(x[w].row, y[w].row, s, t)
  }

  /** Two logs that differ only outside the trip, in dismissed walks, in what is never published, and in what the
      trip's three switches keep back; and in the switches themselves, where nothing shows them. */
  ghost predicate Alike(a: Log, b: Log, trip: Id) {
    && (trip in a.trips <==> trip in b.trips)
    && (trip in a.trips ==>
          var s, t := a.trips[trip], b.trips[trip];
          && TripsAlike(s, t)
          && CitiesAlike(a, b, trip)
          && VisitsAlike(ShownVisits(a, trip), ShownVisits(b, trip), s, t)
          && PlacesAlike(a, b, trip, s, t)
          && PhotosAlike(ShownPhotos(a, trip, s), ShownPhotos(b, trip, t), s, t)
          && WalksAlike(WalkRows(a.walks, trip), WalkRows(b.walks, trip), s, t))
  }

  // ---- keyed rows, read in id order

  /** The image of a table, read in id order. */
  ghost predicate Reads<T, P>(x: map<Id, T>, g: T -> P, a: seq<P>) {
    var ids := Listing(x.Keys, Flat(x.Keys));
    |a| == |ids| && forall i | 0 <= i < |a| :: ids[i] in x && a[i] == g(x[ids[i]])
  }

  /** What a row shows tells its key. */
  ghost predicate Keyed<T, P>(x: map<Id, T>, g: T -> P, key: P -> Id) {
    forall k | k in x :: key(g(x[k])) == k
  }

  lemma InIdOrderReads<T, P>(x: map<Id, T>, g: T -> P, a: seq<P>)
    requires |a| == |InIdOrder(x)| && forall i | 0 <= i < |a| :: a[i] == g(InIdOrder(x)[i])
    ensures Reads(x, g, a)
  {
    var ids := Listing(x.Keys, Flat(x.Keys));
    assert forall i | 0 <= i < |ids| :: ids[i] in ids;
  }

  lemma SameReadsSameRows<T, P>(x: map<Id, T>, y: map<Id, T>, g: T -> P, h: T -> P, key: P -> Id, a: seq<P>)
    requires Keyed(x, g, key) && Keyed(y, h, key) && Reads(x, g, a) && Reads(y, h, a)
    ensures x.Keys == y.Keys && forall k | k in x :: g(x[k]) == h(y[k])
  {
    var xs, ys := Listing(x.Keys, Flat(x.Keys)), Listing(y.Keys, Flat(y.Keys));
    assert xs == ys by {
      assert forall i | 0 <= i < |xs| :: xs[i] == key(a[i]) == ys[i];
    }
    forall k ensures k in x <==> k in y {
      assert k in x.Keys <==> k in xs;
      assert k in y.Keys <==> k in ys;
    }
    forall k | k in x ensures g(x[k]) == h(y[k]) {
      assert k in xs;
      var i :| 0 <= i < |xs| && xs[i] == k;
      assert a[i] == g(x[k]);
    }
  }

  /** Reads of two tables show the same exactly when the tables have the same keys and show the same under each. */
  lemma SameInIdOrder<T, P>(x: map<Id, T>, y: map<Id, T>, g: T -> P, h: T -> P, key: P -> Id, a: seq<P>, b: seq<P>)
    requires Keyed(x, g, key) && Keyed(y, h, key) && Reads(x, g, a) && Reads(y, h, b)
    ensures a == b <==> x.Keys == y.Keys && forall k | k in x :: g(x[k]) == h(y[k])
  {
    if a == b { SameReadsSameRows(x, y, g, h, key, a); }
  }

  // ---- cities

  /** A listing orders its members as the rank does. */
  lemma ListedAsRanked(s: set<Id>, rank: map<Id, int>, i: nat, j: nat)
    requires s <= rank.Keys && i < |Listing(s, rank)| && j < |Listing(s, rank)|
    ensures Listing(s, rank)[i] in s && Listing(s, rank)[j] in s
    ensures i < j <==> Precedes(rank, Listing(s, rank)[i], Listing(s, rank)[j])
  {
    var list := Listing(s, rank);
    assert list[i] in list && list[j] in list;
    PrecedesIsAStrictTotalOrder(rank);
  }

  /** Two ranks list a set alike exactly when they order it alike. */
  lemma ListedTheSame(x: map<Id, int>, y: map<Id, int>)
    ensures Listing(x.Keys, x) == Listing(y.Keys, y) <==> OrderedAlike(x, y)
  {
    var xs, ys := Listing(x.Keys, x), Listing(y.Keys, y);
    if xs == ys {
      assert x.Keys == y.Keys by {
        assert forall k :: k in x.Keys <==> k in xs;
        assert forall k :: k in y.Keys <==> k in ys;
      }
      forall c, d | c in x && d in x ensures Precedes(x, c, d) <==> Precedes(y, c, d) {
        assert c in xs && d in xs;
        var i, j :| 0 <= i < |xs| && xs[i] == c && 0 <= j < |xs| && xs[j] == d;
        ListedAsRanked(x.Keys, x, i, j);
        ListedAsRanked(y.Keys, y, i, j);
      }
    } else if OrderedAlike(x, y) {
      ListingDependsOnOrderOnly(x.Keys, x, y);
    }
  }

  lemma PublicCityAt(log: Log, trip: Id, i: nat)
    requires i < |PublicCityIds(log, trip)|
    ensures var c := PublicCityIds(log, trip)[i];
            && c in CitiesOn(log, trip) && c in log.cities
            && PublicCities(CityRows(log, trip))[i] ==
               PublicCity(c, log.cities[c].name, log.cities[c].country, log.cities[c].centre)
  {
    var ids := PublicCityIds(log, trip);
    assert ids[i] in ids;
  }

  lemma OneCityAlike(a: Log, b: Log, trip: Id, i: nat)
    requires PublicCityIds(a, trip) == PublicCityIds(b, trip) && i < |PublicCityIds(a, trip)|
    ensures PublicCities(CityRows(a, trip))[i] == PublicCities(CityRows(b, trip))[i] <==>
            CityAlike(a.cities, b.cities, PublicCityIds(a, trip)[i])
  {
    PublicCityAt(a, trip, i);
    PublicCityAt(b, trip, i);
  }

  lemma CitiesShowAlike(a: Log, b: Log, trip: Id, ids: seq<Id>)
    requires ids == PublicCityIds(a, trip) == PublicCityIds(b, trip)
    ensures PublicCities(CityRows(a, trip)) == PublicCities(CityRows(b, trip)) <==>
            forall i | 0 <= i < |ids| :: CityAlike(a.cities, b.cities, ids[i])
  {
    var xs, ys := PublicCities(CityRows(a, trip)), PublicCities(CityRows(b, trip));
    forall i | 0 <= i < |ids| ensures xs[i] == ys[i] <==> CityAlike(a.cities, b.cities, ids[i]) {
      OneCityAlike(a, b, trip, i);
    }
    SameElements(xs, ys);
  }

  lemma SameElements<T>(xs: seq<T>, ys: seq<T>)
    requires |xs| == |ys|
    ensures xs == ys <==> forall i | 0 <= i < |xs| :: xs[i] == ys[i]
  {
  }

  lemma CitiesByIndex(a: Log, b: Log, trip: Id, ids: seq<Id>)
    requires ids == PublicCityIds(a, trip)
    ensures (forall c | c in CitiesOn(a, trip) :: CityAlike(a.cities, b.cities, c)) <==>
            forall i | 0 <= i < |ids| :: CityAlike(a.cities, b.cities, ids[i])
  {
    forall c ensures c in CitiesOn(a, trip) <==> exists i :: 0 <= i < |ids| && ids[i] == c {
      assert c in CitiesOn(a, trip).Keys <==> c in ids;
    }
  }

  lemma CitiesShowTheSame(a: Log, b: Log, trip: Id)
    ensures (&& PublicCityIds(a, trip) == PublicCityIds(b, trip)
             && PublicCities(CityRows(a, trip)) == PublicCities(CityRows(b, trip))) <==> CitiesAlike(a, b, trip)
  {
    ListedTheSame(CitiesOn(a, trip), CitiesOn(b, trip));
    var ids := PublicCityIds(a, trip);
    if ids == PublicCityIds(b, trip) {
      CitiesShowAlike(a, b, trip, ids);
      CitiesByIndex(a, b, trip, ids);
    }
  }

  // ---- visits

  /** A place's visits in order: each once, and as their ordinals rank them. */
  lemma VisitIdsInOrder(u: map<Id, VisitRow>, p: Id)
    ensures var ids := VisitIds(u, p);
            && (forall i | 0 <= i < |ids| :: ids[i] in u && u[ids[i]].place == p)
            && (forall i, j | 0 <= i < |ids| && 0 <= j < |ids| ::
                  (i < j <==> Precedes(Ordinals(u), ids[i], ids[j])) && (ids[i] == ids[j] ==> i == j))
            && forall v | v in u && u[v].place == p :: v in ids
  {
    var ids := VisitIds(u, p);
    ListingHasEachOnce(VisitsAt(u, p), Ordinals(u));
    forall i, j | 0 <= i < |ids| && 0 <= j < |ids|
      ensures ids[i] in VisitsAt(u, p) && ids[j] in VisitsAt(u, p)
      ensures i < j <==> Precedes(Ordinals(u), ids[i], ids[j])
    {
      ListedAsRanked(VisitsAt(u, p), Ordinals(u), i, j);
    }
  }

  function Days(u: map<Id, VisitRow>, p: Id, t: TripRow): seq<PublicDay> {
    PublicDays(VisitsOf(u, p), t.shareNotes)
  }

  lemma DayAt(u: map<Id, VisitRow>, p: Id, t: TripRow)
    ensures var ids := VisitIds(u, p);
            && |Days(u, p, t)| == |ids|
            && forall i | 0 <= i < |ids| ::
                 ids[i] in u && Days(u, p, t)[i] == PublicDay(u[ids[i]].at, Shown(t.shareNotes, u[ids[i]].note))
  {
    var ids := VisitIds(u, p);
    assert forall i | 0 <= i < |ids| :: ids[i] in ids;
  }

  /** A place's visits, renamed one by one. */
  function Renamed(f: map<Id, Id>, ids: seq<Id>): (out: seq<Id>)
    requires forall i | 0 <= i < |ids| :: ids[i] in f
    ensures |out| == |ids| && forall i | 0 <= i < |ids| :: out[i] == f[ids[i]]
  {
    seq(|ids|, i requires 0 <= i < |ids| => f[ids[i]])
  }

  lemma VisitsAtAreRenamed(f: map<Id, Id>, u: map<Id, VisitRow>, w: map<Id, VisitRow>, p: Id, s: TripRow, t: TripRow)
    requires Renames(f, u, w, s, t)
    ensures forall v | v in VisitsAt(u, p) :: f[v] in VisitsAt(w, p)
    ensures forall x | x in VisitsAt(w, p) :: exists v :: v in VisitsAt(u, p) && f[v] == x
  {
    forall x | x in VisitsAt(w, p) ensures exists v :: v in VisitsAt(u, p) && f[v] == x {
      assert x in f.Values;
      var v :| v in f && f[v] == x;
      assert VisitAlike(u[v], w[f[v]], s, t);
    }
  }

  lemma RenamedMembers(f: map<Id, Id>, u: map<Id, VisitRow>, w: map<Id, VisitRow>, p: Id, s: TripRow, t: TripRow,
                       ids: seq<Id>)
    requires Renames(f, u, w, s, t) && ids == VisitIds(u, p) && forall i | 0 <= i < |ids| :: ids[i] in f
    ensures forall x :: x in Renamed(f, ids) <==> x in VisitsAt(w, p)
  {
    VisitsAtAreRenamed(f, u, w, p, s, t);
    var list := Renamed(f, ids);
    forall i | 0 <= i < |list| ensures list[i] in VisitsAt(w, p) { assert ids[i] in ids; }
    forall x | x in VisitsAt(w, p) ensures x in list {
      var v :| v in VisitsAt(u, p) && f[v] == x;
      assert v in ids;
      var i :| 0 <= i < |ids| && ids[i] == v;
      assert list[i] == x;
    }
  }

  lemma RenamedIsTheListing(f: map<Id, Id>, u: map<Id, VisitRow>, w: map<Id, VisitRow>, p: Id, s: TripRow, t: TripRow)
    requires Renames(f, u, w, s, t)
    ensures forall i | 0 <= i < |VisitIds(u, p)| :: VisitIds(u, p)[i] in u
    ensures VisitIds(w, p) == Renamed(f, VisitIds(u, p))
  {
    var ids := VisitIds(u, p);
    VisitIdsInOrder(u, p);
    RenamedMembers(f, u, w, p, s, t, ids);
    var list := Renamed(f, ids);
    forall i, j | 0 <= i < j < |list|
      ensures list[i] in VisitsAt(w, p) && list[j] in VisitsAt(w, p) && Precedes(Ordinals(w), list[i], list[j])
    {
      assert list[i] in list && list[j] in list;
      assert Precedes(Ordinals(u), ids[i], ids[j]);
    }
    ListingIsUnique(list, VisitsAt(w, p), Ordinals(w));
  }

  lemma RenamedDays(f: map<Id, Id>, u: map<Id, VisitRow>, w: map<Id, VisitRow>, p: Id, s: TripRow, t: TripRow)
    requires Renames(f, u, w, s, t)
    ensures Days(u, p, s) == Days(w, p, t)
  {
    RenamedIsTheListing(f, u, w, p, s, t);
    DayAt(u, p, s);
    DayAt(w, p, t);
    var ids := VisitIds(u, p);
    assert forall i | 0 <= i < |ids| :: VisitAlike(u[ids[i]], w[f[ids[i]]], s, t);
  }

  ghost predicate SameDays(u: map<Id, VisitRow>, w: map<Id, VisitRow>, s: TripRow, t: TripRow) {
    forall p :: Days(u, p, s) == Days(w, p, t)
  }

  lemma SameDaysAt(u: map<Id, VisitRow>, w: map<Id, VisitRow>, s: TripRow, t: TripRow, p: Id, i: nat)
    requires SameDays(u, w, s, t)
    ensures |VisitIds(u, p)| == |VisitIds(w, p)|
    ensures i < |VisitIds(u, p)| ==>
              var x, y := VisitIds(u, p)[i], VisitIds(w, p)[i];
              x in u && y in w && VisitAlike(u[x], w[y], s, t)
  {
    assert Days(u, p, s) == Days(w, p, t);
    DayAt(u, p, s);
    DayAt(w, p, t);
    VisitIdsInOrder(u, p);
    VisitIdsInOrder(w, p);
  }

  /** The visit that stands at its place where v stands in the other log. */
  function Counterpart(u: map<Id, VisitRow>, w: map<Id, VisitRow>, v: Id): Id {
    if v !in u then v
    else
      var x, y := VisitIds(u, u[v].place), VisitIds(w, u[v].place);
      if v in x && |x| == |y| then y[Position(x, v)] else v
  }

  lemma CounterpartIsAlike(u: map<Id, VisitRow>, w: map<Id, VisitRow>, s: TripRow, t: TripRow, v: Id)
    requires SameDays(u, w, s, t) && v in u
    ensures Counterpart(u, w, v) in w && VisitAlike(u[v], w[Counterpart(u, w, v)], s, t)
  {
    VisitIdsInOrder(u, u[v].place);
    SameDaysAt(u, w, s, t, u[v].place, Position(VisitIds(u, u[v].place), v));
  }

  lemma CounterpartsKeepOrder(u: map<Id, VisitRow>, w: map<Id, VisitRow>, s: TripRow, t: TripRow, v: Id, x: Id)
    requires SameDays(u, w, s, t) && v in u && x in u && u[v].place == u[x].place
    ensures Counterpart(u, w, v) in w && Counterpart(u, w, x) in w
    ensures Precedes(Ordinals(u), v, x) <==> Precedes(Ordinals(w), Counterpart(u, w, v), Counterpart(u, w, x))
  {
    var p := u[v].place;
    SameDaysAt(u, w, s, t, p, 0);
    VisitIdsInOrder(u, p);
    VisitIdsInOrder(w, p);
    var i, j := Position(VisitIds(u, p), v), Position(VisitIds(u, p), x);
    assert i < j <==> Precedes(Ordinals(u), v, x);
    assert i < j <==> Precedes(Ordinals(w), VisitIds(w, p)[i], VisitIds(w, p)[j]);
  }

  lemma EveryVisitIsACounterpart(u: map<Id, VisitRow>, w: map<Id, VisitRow>, s: TripRow, t: TripRow, x: Id)
    returns (v: Id)
    requires SameDays(u, w, s, t) && x in w
    ensures v in u && Counterpart(u, w, v) == x
  {
    var p := w[x].place;
    VisitIdsInOrder(w, p);
    VisitIdsInOrder(u, p);
    SameDaysAt(u, w, s, t, p, 0);
    var j :| 0 <= j < |VisitIds(w, p)| && VisitIds(w, p)[j] == x;
    v := VisitIds(u, p)[j];
    assert Position(VisitIds(u, p), v) == j;
  }

  ghost predicate MapsToCounterparts(f: map<Id, Id>, u: map<Id, VisitRow>, w: map<Id, VisitRow>) {
    f.Keys == u.Keys && forall v | v in u :: f[v] == Counterpart(u, w, v)
  }

  lemma EachIsAlike(f: map<Id, Id>, u: map<Id, VisitRow>, w: map<Id, VisitRow>, s: TripRow, t: TripRow)
    requires SameDays(u, w, s, t) && MapsToCounterparts(f, u, w)
    ensures forall v | v in u :: f[v] in w && VisitAlike(u[v], w[f[v]], s, t)
  {
    forall v | v in u ensures f[v] in w && VisitAlike(u[v], w[f[v]], s, t) { CounterpartIsAlike(u, w, s, t, v); }
  }

  lemma NoneIsMissed(f: map<Id, Id>, u: map<Id, VisitRow>, w: map<Id, VisitRow>, s: TripRow, t: TripRow)
    requires SameDays(u, w, s, t) && MapsToCounterparts(f, u, w)
    requires forall v | v in u :: f[v] in w
    ensures f.Values == w.Keys
  {
    forall x | x in w ensures x in f.Values {
      var v := EveryVisitIsACounterpart(u, w, s, t, x);
      assert f[v] == x;
    }
  }

  lemma OrderIsKept(f: map<Id, Id>, u: map<Id, VisitRow>, w: map<Id, VisitRow>, s: TripRow, t: TripRow)
    requires SameDays(u, w, s, t) && MapsToCounterparts(f, u, w) && f.Values == w.Keys
    ensures KeepsOrder(f, u, w)
  {
    forall v, x | v in u && x in u && u[v].place == u[x].place
      ensures Precedes(Ordinals(u), v, x) <==> Precedes(Ordinals(w), f[v], f[x])
    {
      CounterpartsKeepOrder(u, w, s, t, v, x);
    }
  }

  lemma SameDaysAreRenamed(u: map<Id, VisitRow>, w: map<Id, VisitRow>, s: TripRow, t: TripRow)
    requires SameDays(u, w, s, t)
    ensures VisitsAlike(u, w, s, t)
  {
    var f := map v | v in u :: Counterpart(u, w, v);
    EachIsAlike(f, u, w, s, t);
    NoneIsMissed(f, u, w, s, t);
    OrderIsKept(f, u, w, s, t);
    assert Renames(f, u, w, s, t);
  }

  /** The visits of two trips are alike exactly when every place shows the same days. */
  lemma VisitsShowTheSame(u: map<Id, VisitRow>, w: map<Id, VisitRow>, s: TripRow, t: TripRow)
    ensures VisitsAlike(u, w, s, t) <==> SameDays(u, w, s, t)
  {
    if VisitsAlike(u, w, s, t) {
      var f :| Renames(f, u, w, s, t);
      forall p ensures Days(u, p, s) == Days(w, p, t) { RenamedDays(f, u, w, p, s, t); }
    }
    if SameDays(u, w, s, t) { SameDaysAreRenamed(u, w, s, t); }
  }

  // ---- places

  lemma SameVisitIds(log: Log, trip: Id, p: Id)
    requires p in log.places
    ensures var u, w := OnTrip(log.visits, trip), ShownVisits(log, trip);
            VisitsAt(u, p) == VisitsAt(w, p) && VisitIds(u, p) == VisitIds(w, p)
  {
    var u, w := OnTrip(log.visits, trip), ShownVisits(log, trip);
    assert VisitsAt(u, p) == VisitsAt(w, p);
    ListingDependsOnOrderOnly(VisitsAt(u, p), Ordinals(u), Ordinals(w));
  }

  lemma SameDaysShown(log: Log, trip: Id, p: Id, t: TripRow)
    requires p in log.places
    ensures Days(OnTrip(log.visits, trip), p, t) == Days(ShownVisits(log, trip), p, t)
  {
    SameVisitIds(log, trip, p);
    DayAt(OnTrip(log.visits, trip), p, t);
    DayAt(ShownVisits(log, trip), p, t);
  }

  lemma VisitedHasDays(u: map<Id, VisitRow>, p: Id, t: TripRow)
    ensures VisitsAt(u, p) != {} <==> Days(u, p, t) != []
  {
    DayAt(u, p, t);
    ListingHasEachOnce(VisitsAt(u, p), Ordinals(u));
    if VisitsAt(u, p) != {} {
      var v :| v in VisitsAt(u, p);
      assert v in VisitIds(u, p);
    } else {
      assert |VisitsAt(u, p)| == 0;
    }
  }

  /** What a place of the page shows: its row, and its days. */
  function ShownPlace(log: Log, trip: Id, p: Id, t: TripRow): PublicPlace
    requires p in log.places
  {
    var row := log.places[p];
    PublicPlace(p, row.city, row.name, Shown(t.shareCoordinates, Some(row.at)), Days(ShownVisits(log, trip), p, t))
  }

  function PlaceImage(t: TripRow): Place -> PublicPlace {
    (q: Place) => PublicPlaceOf(q, t.shareNotes, t.shareCoordinates)
  }

  lemma PlaceShows(log: Log, trip: Id, p: Id, t: TripRow)
    ensures var rows := PlaceRows(log.places, log.visits, trip);
            && (p in rows <==> Days(ShownVisits(log, trip), p, t) != [])
            && (p in rows ==> p in log.places && PlaceImage(t)(rows[p]) == ShownPlace(log, trip, p, t))
  {
    VisitedHasDays(ShownVisits(log, trip), p, t);
    if p in log.places {
      SameVisitIds(log, trip, p);
      SameDaysShown(log, trip, p, t);
    }
  }

  ghost predicate PlaceRowsAlike(x: map<Id, Place>, y: map<Id, Place>, s: TripRow, t: TripRow) {
    x.Keys == y.Keys && forall p | p in x :: PlaceImage(s)(x[p]) == PlaceImage(t)(y[p])
  }

  lemma AlikeRowsAtAPlace(a: Log, b: Log, trip: Id, s: TripRow, t: TripRow, p: Id)
    requires PlaceRowsAlike(PlaceRows(a.places, a.visits, trip), PlaceRows(b.places, b.visits, trip), s, t)
    ensures Days(ShownVisits(a, trip), p, s) == Days(ShownVisits(b, trip), p, t)
    ensures p in a.places && p in b.places && VisitsAt(OnTrip(a.visits, trip), p) != {} ==>
              PlaceAlike(a.places[p], b.places[p], s, t)
  {
    var x, y := PlaceRows(a.places, a.visits, trip), PlaceRows(b.places, b.visits, trip);
    PlaceShows(a, trip, p, s);
    PlaceShows(b, trip, p, t);
    assert p in x.Keys <==> p in y.Keys;
    if p in x { assert ShownPlace(a, trip, p, s) == ShownPlace(b, trip, p, t); }
  }

  lemma AlikePlaceRows(a: Log, b: Log, trip: Id, s: TripRow, t: TripRow, p: Id)
    requires SameDays(ShownVisits(a, trip), ShownVisits(b, trip), s, t) && PlacesAlike(a, b, trip, s, t)
    ensures var x, y := PlaceRows(a.places, a.visits, trip), PlaceRows(b.places, b.visits, trip);
            (p in x <==> p in y) && (p in x ==> PlaceImage(s)(x[p]) == PlaceImage(t)(y[p]))
  {
    PlaceShows(a, trip, p, s);
    PlaceShows(b, trip, p, t);
    assert Days(ShownVisits(a, trip), p, s) == Days(ShownVisits(b, trip), p, t);
  }

  lemma PlaceRowsShowTheSame(a: Log, b: Log, trip: Id, s: TripRow, t: TripRow)
    ensures PlaceRowsAlike(PlaceRows(a.places, a.visits, trip), PlaceRows(b.places, b.visits, trip), s, t) <==>
            SameDays(ShownVisits(a, trip), ShownVisits(b, trip), s, t) && PlacesAlike(a, b, trip, s, t)
  {
    var x, y := PlaceRows(a.places, a.visits, trip), PlaceRows(b.places, b.visits, trip);
    if PlaceRowsAlike(x, y, s, t) {
      forall p
        ensures Days(ShownVisits(a, trip), p, s) == Days(ShownVisits(b, trip), p, t)
        ensures p in a.places && p in b.places && VisitsAt(OnTrip(a.visits, trip), p) != {} ==>
                  PlaceAlike(a.places[p], b.places[p], s, t)
      {
        AlikeRowsAtAPlace(a, b, trip, s, t, p);
      }
    }
    if SameDays(ShownVisits(a, trip), ShownVisits(b, trip), s, t) && PlacesAlike(a, b, trip, s, t) {
      forall p ensures (p in x <==> p in y) && (p in x ==> PlaceImage(s)(x[p]) == PlaceImage(t)(y[p])) {
        AlikePlaceRows(a, b, trip, s, t, p);
      }
      assert x.Keys == y.Keys;
    }
  }

  function PlacesOf(log: Log, trip: Id, t: TripRow): seq<PublicPlace> {
    PublicPlaces(InIdOrder(PlaceRows(log.places, log.visits, trip)), t.shareNotes, t.shareCoordinates)
  }

  function PublicPlaceId(): PublicPlace -> Id {
    (q: PublicPlace) => q.id
  }

  lemma PlacesRead(log: Log, trip: Id, t: TripRow)
    ensures var rows := PlaceRows(log.places, log.visits, trip);
            Reads(rows, PlaceImage(t), PlacesOf(log, trip, t)) && Keyed(rows, PlaceImage(t), PublicPlaceId())
  {
    InIdOrderReads(PlaceRows(log.places, log.visits, trip), PlaceImage(t), PlacesOf(log, trip, t));
  }

  lemma PlacesShowTheSame(a: Log, b: Log, trip: Id, s: TripRow, t: TripRow)
    ensures PlacesOf(a, trip, s) == PlacesOf(b, trip, t) <==>
            VisitsAlike(ShownVisits(a, trip), ShownVisits(b, trip), s, t) && PlacesAlike(a, b, trip, s, t)
  {
    var x, y := PlaceRows(a.places, a.visits, trip), PlaceRows(b.places, b.visits, trip);
    PlacesRead(a, trip, s);
    PlacesRead(b, trip, t);
    SameInIdOrder(x, y, PlaceImage(s), PlaceImage(t), PublicPlaceId(), PlacesOf(a, trip, s), PlacesOf(b, trip, t));
    PlaceRowsShowTheSame(a, b, trip, s, t);
    VisitsShowTheSame(ShownVisits(a, trip), ShownVisits(b, trip), s, t);
  }

  // ---- walks

  function WalkImage(t: TripRow): Walk -> PublicWalk {
    (w: Walk) => PublicWalkOf(w, t.shareCoordinates)
  }

  function WalksOf(log: Log, trip: Id, t: TripRow): seq<PublicWalk> {
    PublicWalks(InIdOrder(WalkRows(log.walks, trip)), t.shareCoordinates)
  }

  function PublicWalkId(): PublicWalk -> Id {
    (q: PublicWalk) => q.id
  }

  lemma WalksRead(log: Log, trip: Id, t: TripRow)
    ensures var rows := WalkRows(log.walks, trip);
            Reads(rows, WalkImage(t), WalksOf(log, trip, t)) && Keyed(rows, WalkImage(t), PublicWalkId())
  {
    InIdOrderReads(WalkRows(log.walks, trip), WalkImage(t), WalksOf(log, trip, t));
  }

  lemma WalkShowsAlike(v: Walk, w: Walk, s: TripRow, t: TripRow)
    requires v.id == w.id
    ensures WalkImage(s)(v) == WalkImage(t)(w) <==> WalkAlike(v.row, w.row, s, t)
  {
  }

  lemma WalkRowsShowTheSame(x: map<Id, Walk>, y: map<Id, Walk>, s: TripRow, t: TripRow)
    requires (forall w | w in x :: x[w].id == w) && (forall w | w in y :: y[w].id == w)
    ensures (x.Keys == y.Keys && forall w | w in x :: WalkImage(s)(x[w]) == WalkImage(t)(y[w])) <==>
            WalksAlike(x, y, s, t)
  {
    if x.Keys == y.Keys {
      forall w | w in x
        ensures WalkImage(s)(x[w]) == WalkImage(t)(y[w]) <==> WalkAlike(x[w].row, y[w].row, s, t)
      {
        WalkShowsAlike(x[w], y[w], s, t);
      }
    }
  }

  lemma WalksShowTheSame(a: Log, b: Log, trip: Id, s: TripRow, t: TripRow)
    ensures WalksOf(a, trip, s) == WalksOf(b, trip, t) <==>
            WalksAlike(WalkRows(a.walks, trip), WalkRows(b.walks, trip), s, t)
  {
    var x, y := WalkRows(a.walks, trip), WalkRows(b.walks, trip);
    WalksRead(a, trip, s);
    WalksRead(b, trip, t);
    SameInIdOrder(x, y, WalkImage(s), WalkImage(t), PublicWalkId(), WalksOf(a, trip, s), WalksOf(b, trip, t));
    WalkRowsShowTheSame(x, y, s, t);
  }

  // ---- photographs

  /** A photograph as it is shown, its object in place of its URL. */
  function PhotoImage(t: TripRow): Photo -> PublicPhoto {
    (p: Photo) => PublicPhotoOf(p, p.row.asset, t.shareNotes, t.shareCoordinates)
  }

  function Images(ps: seq<Photo>, t: TripRow): (out: seq<PublicPhoto>)
    ensures |out| == |ps| && forall i | 0 <= i < |ps| :: out[i] == PhotoImage(t)(ps[i])
  {
    seq(|ps|, i requires 0 <= i < |ps| => PhotoImage(t)(ps[i]))
  }

  function PublicPhotoId(): PublicPhoto -> Id {
    (q: PublicPhoto) => q.id
  }

  lemma PhotosRead(x: map<Id, Photo>, t: TripRow)
    requires forall p | p in x :: x[p].id == p
    ensures Reads(x, PhotoImage(t), Images(InIdOrder(x), t)) && Keyed(x, PhotoImage(t), PublicPhotoId())
  {
    InIdOrderReads(x, PhotoImage(t), Images(InIdOrder(x), t));
  }

  lemma PhotoShowsAlike(p: Photo, q: Photo, s: TripRow, t: TripRow)
    requires p.id == q.id
    ensures PhotoImage(s)(p) == PhotoImage(t)(q) <==> PhotoAlike(p.row, q.row, s, t)
  {
  }

  lemma PhotoRowsShowTheSame(x: map<Id, Photo>, y: map<Id, Photo>, s: TripRow, t: TripRow)
    requires (forall p | p in x :: x[p].id == p) && (forall p | p in y :: y[p].id == p)
    ensures (x.Keys == y.Keys && forall p | p in x :: PhotoImage(s)(x[p]) == PhotoImage(t)(y[p])) <==>
            PhotosAlike(x, y, s, t)
  {
    if x.Keys == y.Keys {
      forall p | p in x
        ensures PhotoImage(s)(x[p]) == PhotoImage(t)(y[p]) <==> PhotoAlike(x[p].row, y[p].row, s, t)
      {
        PhotoShowsAlike(x[p], y[p], s, t);
      }
    }
  }

  lemma PhotosShowTheSame(x: map<Id, Photo>, y: map<Id, Photo>, s: TripRow, t: TripRow)
    requires (forall p | p in x :: x[p].id == p) && (forall p | p in y :: y[p].id == p)
    ensures Images(InIdOrder(x), s) == Images(InIdOrder(y), t) <==> PhotosAlike(x, y, s, t)
  {
    PhotosRead(x, s);
    PhotosRead(y, t);
    SameInIdOrder(x, y, PhotoImage(s), PhotoImage(t), PublicPhotoId(),
                  Images(InIdOrder(x), s), Images(InIdOrder(y), t));
    PhotoRowsShowTheSame(x, y, s, t);
  }

  /** What is asked for and published depends on the images alone. */
  lemma {:induction false} SameImagesPublishTheSame(xs: seq<Photo>, ys: seq<Photo>, mint: Mint, s: TripRow, t: TripRow)
    requires |xs| == |ys| && forall i | 0 <= i < |xs| :: PhotoImage(s)(xs[i]) == PhotoImage(t)(ys[i])
    ensures PublicPhotos(xs, mint, s.shareNotes, s.shareCoordinates) ==
            PublicPhotos(ys, mint, t.shareNotes, t.shareCoordinates)
    ensures Asked(xs, mint) == Asked(ys, mint)
  {
    if xs != [] {
      SameImagesPublishTheSame(xs[..|xs| - 1], ys[..|ys| - 1], mint, s, t);
      assert PhotoImage(s)(xs[|xs| - 1]) == PhotoImage(t)(ys[|ys| - 1]);
    }
  }

  /** A mint whose URLs are the objects' names. */
  function Naming(): Mint {
    (asset: Id) => Url(asset)
  }

  lemma {:induction false} NamedPhotos(ps: seq<Photo>, t: TripRow)
    ensures PublicPhotos(ps, Naming(), t.shareNotes, t.shareCoordinates) == Published(Images(ps, t))
  {
    if ps != [] {
      NamedPhotos(ps[..|ps| - 1], t);
      assert Images(ps, t) == Images(ps[..|ps| - 1], t) + [PhotoImage(t)(ps[|ps| - 1])];
    }
  }

  function PhotosOf(log: Log, trip: Id, t: TripRow): seq<Photo> {
    if t.sharePhotos then InIdOrder(PhotoRows(log.photos, trip)) else []
  }

  lemma ShownPhotosInOrder(log: Log, trip: Id, t: TripRow)
    ensures PhotosOf(log, trip, t) == InIdOrder(ShownPhotos(log, trip, t))
  {
  }

  // ---- the theorem

  /** Everything a page shows, objects in place of their URLs. */
  ghost predicate PagesAlike(a: Log, b: Log, trip: Id)
    requires trip in a.trips && trip in b.trips
  {
    var s, t := a.trips[trip], b.trips[trip];
    && TripsAlike(s, t)
    && PublicCityIds(a, trip) == PublicCityIds(b, trip)
    && PublicCities(CityRows(a, trip)) == PublicCities(CityRows(b, trip))
    && PlacesOf(a, trip, s) == PlacesOf(b, trip, t)
    && Images(PhotosOf(a, trip, s), s) == Images(PhotosOf(b, trip, t), t)
    && WalksOf(a, trip, s) == WalksOf(b, trip, t)
  }

  lemma AlikeExactly(a: Log, b: Log, trip: Id)
    requires trip in a.trips && trip in b.trips
    ensures Alike(a, b, trip) <==> PagesAlike(a, b, trip)
  {
    var s, t := a.trips[trip], b.trips[trip];
    CitiesShowTheSame(a, b, trip);
    PlacesShowTheSame(a, b, trip, s, t);
    ShownPhotosInOrder(a, trip, s);
    ShownPhotosInOrder(b, trip, t);
    PhotosShowTheSame(ShownPhotos(a, trip, s), ShownPhotos(b, trip, t), s, t);
    WalksShowTheSame(a, b, trip, s, t);
  }

  lemma SameImages(xs: seq<Photo>, ys: seq<Photo>, s: TripRow, t: TripRow)
    requires Images(xs, s) == Images(ys, t)
    ensures |xs| == |ys| && forall i | 0 <= i < |xs| :: PhotoImage(s)(xs[i]) == PhotoImage(t)(ys[i])
  {
    assert forall i | 0 <= i < |xs| :: Images(xs, s)[i] == Images(ys, t)[i];
  }

  lemma CoversAlike(s: TripRow, t: TripRow, mint: Mint)
    requires TripsAlike(s, t)
    ensures CoverRefused(s, mint) <==> CoverRefused(t, mint)
    ensures CoverAsked(s) == CoverAsked(t)
    ensures CoverRefused(s, mint) ==> mint(s.cover.value) == mint(t.cover.value)
    ensures !CoverRefused(s, mint) ==> CoverUrl(s, mint) == CoverUrl(t, mint)
  {
  }

  /** What a source shows of its photographs. */
  function PhotosIn(x: Source): seq<Photo> {
    if x.trip.sharePhotos then x.photos else []
  }

  lemma AlikeSourcesEmitTheSame(x: Source, y: Source, mint: Mint)
    requires x.id == y.id && TripsAlike(x.trip, y.trip) && x.cityIds == y.cityIds
    requires PublicCities(x.cities) == PublicCities(y.cities)
    requires PublicPlaces(x.places, x.trip.shareNotes, x.trip.shareCoordinates) ==
             PublicPlaces(y.places, y.trip.shareNotes, y.trip.shareCoordinates)
    requires PublicPhotos(PhotosIn(x), mint, x.trip.shareNotes, x.trip.shareCoordinates) ==
             PublicPhotos(PhotosIn(y), mint, y.trip.shareNotes, y.trip.shareCoordinates)
    requires Asked(PhotosIn(x), mint) == Asked(PhotosIn(y), mint)
    requires PublicWalks(x.walks, x.trip.shareCoordinates) == PublicWalks(y.walks, y.trip.shareCoordinates)
    ensures Emitted(x, mint) == Emitted(y, mint)
  {
    CoversAlike(x.trip, y.trip, mint);
  }

  lemma AlikePhotosReadTheSame(xs: seq<Photo>, ys: seq<Photo>, s: TripRow, t: TripRow, mint: Mint)
    requires Images(xs, s) == Images(ys, t)
    ensures PublicPhotos(xs, mint, s.shareNotes, s.shareCoordinates) ==
            PublicPhotos(ys, mint, t.shareNotes, t.shareCoordinates)
    ensures Asked(xs, mint) == Asked(ys, mint)
  {
    SameImages(xs, ys, s, t);
    SameImagesPublishTheSame(xs, ys, mint, s, t);
  }

  lemma AlikePagesReadTheSame(a: Log, b: Log, trip: Id, mint: Mint)
    requires trip in a.trips && trip in b.trips && PagesAlike(a, b, trip)
    ensures Emitted(SourceOf(a, trip), mint) == Emitted(SourceOf(b, trip), mint)
  {
    var s, t := a.trips[trip], b.trips[trip];
    AlikePhotosReadTheSame(PhotosOf(a, trip, s), PhotosOf(b, trip, t), s, t, mint);
    AlikeSourcesEmitTheSame(SourceOf(a, trip), SourceOf(b, trip), mint);
  }

  lemma NamedEnvelope(log: Log, trip: Id)
    requires trip in log.trips
    ensures var t := log.trips[trip];
            Emitted(SourceOf(log, trip), Naming()).0 == Published(Envelope(
              PublicTrip(trip, t.name, PublicCityIds(log, trip), t.started, t.ended, t.summary,
                         Shown(t.sharePhotos, t.cover)),
              PublicCities(CityRows(log, trip)), PlacesOf(log, trip, t), Images(PhotosOf(log, trip, t), t),
              WalksOf(log, trip, t)))
  {
    var t := log.trips[trip];
    NamedPhotos(PhotosOf(log, trip, t), t);
  }

  lemma PagesReadTheSameAreAlike(a: Log, b: Log, trip: Id)
    requires trip in a.trips && trip in b.trips
    requires PublicRead(a, trip, Naming()) == PublicRead(b, trip, Naming())
    ensures PagesAlike(a, b, trip)
  {
    NamedEnvelope(a, trip);
    NamedEnvelope(b, trip);
  }

  /** Such logs give a stranger the same envelope, or the same error, and mint the same objects, whatever the
      mint does. */
  lemma PublicReadRevealsNothingElse(a: Log, b: Log, trip: Id, mint: Mint)
    requires Alike(a, b, trip)
    ensures PublicRead(a, trip, mint) == PublicRead(b, trip, mint)
  {
    if trip in a.trips {
      AlikeExactly(a, b, trip);
      AlikePagesReadTheSame(a, b, trip, mint);
    }
  }

  /** And no others do: what two logs are alike in is what their pages show, no less and no more. */
  lemma PublicReadRevealsExactly(a: Log, b: Log, trip: Id)
    ensures Alike(a, b, trip) <==> forall mint: Mint :: PublicRead(a, trip, mint) == PublicRead(b, trip, mint)
  {
    if Alike(a, b, trip) {
      forall mint: Mint ensures PublicRead(a, trip, mint) == PublicRead(b, trip, mint) {
        PublicReadRevealsNothingElse(a, b, trip, mint);
      }
    }
    if forall mint: Mint :: PublicRead(a, trip, mint) == PublicRead(b, trip, mint) {
      assert PublicRead(a, trip, Naming()) == PublicRead(b, trip, Naming());
      if trip in a.trips {
        PagesReadTheSameAreAlike(a, b, trip);
        AlikeExactly(a, b, trip);
      }
    }
  }

  lemma SameCitiesAlike(a: Log, b: Log, trip: Id)
    requires a.cities == b.cities && CitiesOn(a, trip) == CitiesOn(b, trip)
    ensures CitiesAlike(a, b, trip)
  {
    assert forall c | c in CitiesOn(a, trip) :: c in a.cities;
  }

  lemma SameVisitsAlike(visits: map<Id, VisitRow>, s: TripRow, t: TripRow)
    requires forall v | v in visits :: VisitAlike(visits[v], visits[v], s, t)
    ensures VisitsAlike(visits, visits, s, t)
  {
    var f := map v | v in visits :: v;
    forall v | v in visits ensures v in f.Values { assert f[v] == v; }
    assert Renames(f, visits, visits, s, t);
  }

  /** With photographs kept back nothing is minted, and no mint can make the read fail. */
  lemma NothingIsMintedWithoutPhotos(log: Log, trip: Id, mint: Mint)
    requires trip in log.trips && !log.trips[trip].sharePhotos
    ensures PublicRead(log, trip, mint).Some?
    ensures var (answer, asked) := PublicRead(log, trip, mint).value;
            asked == [] && answer.Published? && answer.value.photos == [] && answer.value.trip.coverUrl.None?
  {
  }
}
