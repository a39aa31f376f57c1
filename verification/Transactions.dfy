/** One open transaction over a traveller's tables, statement by statement. Every statement's precondition is
    the constraint the database would answer with; that each call meets it is the proof that none ever does. */
module Transactions {
  import opened Options
  import opened Ordering
  import opened Tables
  import opened Writes
  import opened Parking
  import opened Invariants
  import Text

  const MAX_VISITS_PER_STATEMENT := 5000

  class Tx {
    var name: Option<string>
    var trips: map<Id, TripRow>
    var tripCities: map<(Id, Id), int>
    var cities: map<Id, CityRow>
    var places: map<Id, PlaceRow>
    var visits: map<Id, VisitRow>
    var photos: map<Id, PhotoRow>
    var walks: map<Id, WalkRow>
    var links: map<string, LinkRow>
    const media: map<Id, MediaRow>

    function Contents(): Log
      reads this
    {
      Log(name, trips, tripCities, cities, places, visits, photos, walks, links, media)
    }

    constructor (log: Log)
      ensures Contents() == log
    {
      name, trips, tripCities, cities, places := log.name, log.trips, log.tripCities, log.cities, log.places;
      visits, photos, walks, links, media := log.visits, log.photos, log.walks, log.links, log.media;
    }

    // ---- row statements on visits

    /** UPDATE of one visit's ordinal; the unique index is checked as the row is written. */
    method SetOrdinal(id: Id, ordinal: int)
      requires id in visits && ordinal >= 0
      requires OrdinalsUnique(visits[id := visits[id].(ordinal := ordinal)])
      modifies this`visits
      ensures visits == old(visits)[id := old(visits)[id].(ordinal := ordinal)]
    {
      visits := visits[id := visits[id].(ordinal := ordinal)];
    }

    /** INSERT ... ON CONFLICT ON CONSTRAINT visits_pkey DO UPDATE, for one row. */
    method UpsertVisit(id: Id, row: VisitRow)
      requires VisitOk(row, places.Keys, trips.Keys)
      requires OrdinalsUnique(visits[id := row])
      modifies this`visits
      ensures visits == old(visits)[id := row]
    {
      visits := visits[id := row];
    }

    /** DELETE of one visit, and the ON DELETE SET NULL (visit_id) it fires. */
    method DeleteVisit(id: Id)
      modifies this`visits, this`photos
      ensures visits == old(visits) - {id}
      ensures photos == map p | p in old(photos) :: Unvisited(old(photos)[p], {id})
    {
      visits := visits - {id};
      photos := map p | p in photos :: Unvisited(photos[p], {id});
    }

    /** GREATEST(count, max(ordinal) + 1) over the place's rows. */
    method ReadOffset(place: Id, count: nat) returns (offset: int)
      requires OrdinalsNatural(visits)
      ensures offset >= count && Clear(visits, place, offset)
    {
      offset := Offset(visits, place, count);
      OffsetClears(visits, place, count);
    }

    method ParkRow(place: Id, id: Id, offset: int, ghost before: map<Id, VisitRow>, ghost done: set<Id>)
      requires OrdinalsUnique(before) && Clear(before, place, offset)
      requires id in before && before[id].place == place && id !in done
      requires visits == Parked(before, place, offset, done)
      modifies this`visits
      ensures visits == Parked(before, place, offset, done + {id})
    {
      ParkOneMore(before, place, offset, done, id);
      SetOrdinal(id, visits[id].ordinal + offset);
    }

    /** offsetVisitOrdinalsSQL, its rows taken in any order. */
    method ParkOrdinals(place: Id, count: nat) returns (ghost offset: int)
      requires OrdinalsUnique(visits) && OrdinalsNatural(visits)
      modifies this`visits
      ensures offset >= count && Clear(old(visits), place, offset)
      ensures visits == Parked(old(visits), place, offset, old(visits).Keys)
    {
      var above := ReadOffset(place, count);
      offset := above;
      AllParked(visits, place, offset);
      var todo := VisitsAt(visits, place);
      ghost var done: set<Id> := {};
      while todo != {}
        invariant done + todo == VisitsAt(old(visits), place) && done !! todo
        invariant visits == Parked(old(visits), place, offset, done)
      {
        var id :| id in todo;
        ParkRow(place, id, above, old(visits), done);
        todo, done := todo - {id}, done + {id};
      }
    }

    method UpsertRow(place: Id, sent: seq<SentVisit>, id: Id, ghost before: map<Id, VisitRow>, ghost offset: int,
                     ghost done: set<Id>)
      requires place in places && id in SentIds(sent) && forall i | 0 <= i < |sent| :: sent[i].trip in trips
      requires OrdinalsUnique(before) && Clear(before, place, offset) && |sent| <= offset
      requires done <= IdSet(SentIds(sent)) && visits == Upserted(before, place, sent, offset, done)
      modifies this`visits
      ensures visits == Upserted(before, place, sent, offset, done + {id})
    {
      UpsertOneMore(before, place, sent, offset, done, id);
      UpsertingNeverCollides(before, place, sent, offset, done + {id});
      UpsertVisit(id, RowOf(place, sent, Position(SentIds(sent), id)));
    }

    method UpsertRows(place: Id, sent: seq<SentVisit>, rows: set<Id>, ghost before: map<Id, VisitRow>,
                      ghost offset: int, ghost written: set<Id>)
      requires place in places && forall i | 0 <= i < |sent| :: sent[i].trip in trips
      requires OrdinalsUnique(before) && Clear(before, place, offset) && |sent| <= offset
      requires written + rows <= IdSet(SentIds(sent))
      requires visits == Upserted(before, place, sent, offset, written)
      modifies this`visits
      ensures visits == Upserted(before, place, sent, offset, written + rows)
      decreases rows
    {
      if rows == {} {
        assert written + rows == written;
      } else {
        var id :| id in rows;
        MoveAcross(written, rows, id);
        UpsertRow(place, sent, id, before, offset, written);
        UpsertRows(place, sent, rows - {id}, before, offset, written + {id});
      }
    }

    /** upsertVisits: one batch as one statement, its rows in any order. */
    method UpsertVisits(place: Id, sent: seq<SentVisit>, first: nat, end: nat,
                        ghost before: map<Id, VisitRow>, ghost offset: int)
      requires first <= end <= |sent|
      requires place in places && forall i | 0 <= i < |sent| :: sent[i].trip in trips
      requires OrdinalsUnique(before) && Clear(before, place, offset) && |sent| <= offset
      requires IdSet(SentIds(sent)[..first]) <= IdSet(SentIds(sent))
      requires visits == Upserted(before, place, sent, offset, IdSet(SentIds(sent)[..first]))
      modifies this`visits
      ensures IdSet(SentIds(sent)[..end]) <= IdSet(SentIds(sent))
      ensures visits == Upserted(before, place, sent, offset, IdSet(SentIds(sent)[..end]))
    {
      var ids := SentIds(sent);
      IdSetGrows(ids, first, end);
      UpsertRows(place, sent, IdSet(ids[first..end]), before, offset, IdSet(ids[..first]));
    }

    /** deleteDepartedVisitsSQL: none of the rows that go is occupied, so no photograph moves. */
    method DeleteDeparted(place: Id, keeping: seq<Id>)
      requires forall p | p in photos && photos[p].visit.Some? ::
                 var v := photos[p].visit.value; v in visits && visits[v].place == place ==> v in keeping
      modifies this`visits, this`photos
      ensures visits == Kept(old(visits), place, keeping)
      ensures photos == old(photos)
    {
      var todo := set v | v in VisitsAt(visits, place) && v !in keeping;
      ghost var before, leaving := visits, todo;
      while todo != {}
        invariant todo <= leaving
        invariant visits == map v | v in before && (v !in leaving || v in todo) :: before[v]
        invariant photos == old(photos)
      {
        var id :| id in todo;
        DeleteVisit(id);
        assert forall p | p in photos :: Unvisited(old(photos)[p], {id}) == old(photos)[p];
        todo := todo - {id};
      }
    }

    /** The ids in order, and each trip once. */
    method IdsAndTrips(sent: seq<SentVisit>) returns (ids: seq<Id>, named: seq<Id>)
      ensures ids == SentIds(sent)
      ensures Distinct(named) && forall t :: t in named <==> exists i | 0 <= i < |sent| :: sent[i].trip == t
    {
      ids, named := [], [];
      for n := 0 to |sent|
        invariant |ids| == n && forall i | 0 <= i < n :: ids[i] == sent[i].id
        invariant Distinct(named) && forall t :: t in named <==> exists i | 0 <= i < n :: sent[i].trip == t
      {
        ids := ids + [sent[n].id];
        if sent[n].trip !in named { named := named + [sent[n].trip]; }
      }
    }

    /** requireTripsForVisits, refuseVisitsHeldElsewhere and refuseDroppingAnOccupiedOccasion. */
    method CheckVisits(place: Id, sent: seq<SentVisit>) returns (ok: bool)
      requires sent != []
      ensures ok <==> VisitsWritable(Contents(), place, sent)
    {
      var ids, named := IdsAndTrips(sent);
      for n := 0 to |named|
        invariant forall k | 0 <= k < n :: named[k] in trips
      {
        if named[n] !in trips {
          assert named[n] in named;
          return false;
        }
      }
      assert TripsPresent(Contents(), sent) by {
        assert forall i | 0 <= i < |sent| :: sent[i].trip in named;
      }
      ok := NoneHeldElsewhere(Contents(), place, sent) && NoneOccupiedDeparts(Contents(), place, sent);
    }

    /** The park and the batches. */
    method ParkAndUpsert(place: Id, sent: seq<SentVisit>) returns (ghost offset: int)
      requires place in places && forall i | 0 <= i < |sent| :: sent[i].trip in trips
      requires OrdinalsUnique(visits) && OrdinalsNatural(visits)
      modifies this`visits
      ensures visits == Upserted(old(visits), place, sent, offset, IdSet(SentIds(sent)))
    {
      offset := ParkOrdinals(place, |sent|);
      ghost var ids := SentIds(sent);
      IdSetGrows(ids, 0, 0);
      NothingUpserted(old(visits), place, sent, offset);
      var start := 0;
      while start < |sent|
        invariant 0 <= start <= |sent|
        invariant IdSet(ids[..start]) <= IdSet(ids)
        invariant visits == Upserted(old(visits), place, sent, offset, IdSet(ids[..start]))
      {
        var end := if start + MAX_VISITS_PER_STATEMENT < |sent| then start + MAX_VISITS_PER_STATEMENT else |sent|;
        UpsertVisits(place, sent, start, end, old(visits), offset);
        start := end;
      }
      IdSetGrows(ids, start, start);
    }

    /** writeVisits: the refusals, then park, upsert in batches, and delete what the array left out. */
    method WriteVisits(place: Id, sent: seq<SentVisit>) returns (ok: bool)
      requires place in places
      requires OrdinalsUnique(visits) && OrdinalsNatural(visits)
      modifies this`visits, this`photos
      ensures ok <==> VisitsWritable(old(Contents()), place, sent)
      ensures photos == old(photos)
      ensures visits == if ok then Rewritten(old(visits), place, sent) else old(visits)
    {
      if sent == [] {
        ok := VisitsAt(visits, place) == {};
        if ok { EmptyRewriteChangesNothing(visits, place); }
      } else {
        ok := CheckVisits(place, sent);
        if ok {
          ghost var offset := ParkAndUpsert(place, sent);
          StillOccupied(old(visits), photos, place, sent, offset);
          ThreePhasesRewrite(old(visits), place, sent, offset);
          DeleteDeparted(place, SentIds(sent));
        }
      }
    }

    method RankRow(place: Id, id: Id, order: seq<Id>, ghost before: map<Id, VisitRow>, ghost offset: int,
                   ghost done: set<Id>)
      requires OrdinalsUnique(before) && Clear(before, place, offset) && |order| <= offset
      requires done <= IdSet(order) && id in order && id in before && before[id].place == place
      requires visits == Ranked(before, place, order, offset, done)
      modifies this`visits
      ensures visits == Ranked(before, place, order, offset, done + {id})
    {
      RankOneMore(before, place, order, offset, done, id);
      SetOrdinal(id, Position(order, id));
    }

    method RankRows(place: Id, order: seq<Id>, ghost before: map<Id, VisitRow>, ghost offset: int)
      requires OrdinalsUnique(before) && Clear(before, place, offset) && |order| <= offset
      requires forall v | v in order :: v in before && before[v].place == place
      requires visits == Ranked(before, place, order, offset, {})
      modifies this`visits
      ensures visits == Ranked(before, place, order, offset, IdSet(order))
    {
      var todo := IdSet(order);
      ghost var done: set<Id> := {};
      while todo != {}
        invariant done + todo == IdSet(order)
        invariant visits == Ranked(before, place, order, offset, done)
      {
        var id :| id in todo;
        RankRow(place, id, order, before, offset, done);
        todo, done := todo - {id}, done + {id};
      }
    }

    /** renumberVisits: park above the count, then write 0..n-1 newest first, rows in any order. */
    method RenumberVisits(place: Id)
      requires OrdinalsUnique(visits) && OrdinalsNatural(visits)
      modifies this`visits
      ensures visits == Renumbered(old(visits), place)
    {
      ghost var offset := ParkOrdinals(place, |VisitsAt(visits, place)|);
      ParkingKeepsTheRanking(old(visits), place, offset);
      RankingEnds(old(visits), place, offset);
      RankRows(place, Listing(VisitsAt(visits, place), NewestFirst(visits)), old(visits), offset);
    }

    // ---- row statements on the other tables

    method UpsertTrip(id: Id, row: TripRow)
      requires TripOk(row, media)
      modifies this`trips
      ensures trips == old(trips)[id := row]
    {
      trips := trips[id := row];
    }

    method DeleteTripCities(trip: Id)
      modifies this`tripCities
      ensures tripCities == CitiesOfOthers(old(tripCities), trip)
    {
      tripCities := CitiesOfOthers(tripCities, trip);
    }

    /** trip_cities_pkey and trip_cities_ordinal_uq are checked as the row goes in. */
    method InsertTripCity(trip: Id, city: Id, ordinal: int)
      requires trip in trips && city in cities && ordinal >= 0 && (trip, city) !in tripCities
      requires forall k | k in tripCities && k.0 == trip :: tripCities[k] != ordinal
      modifies this`tripCities
      ensures tripCities == old(tripCities)[(trip, city) := ordinal]
    {
      tripCities := tripCities[(trip, city) := ordinal];
    }

    method UpsertCity(id: Id, row: CityRow)
      requires CoverResolves(media, row.cover)
      modifies this`cities
      ensures cities == old(cities)[id := row]
    {
      cities := cities[id := row];
    }

    method UpsertPlace(id: Id, row: PlaceRow)
      requires PlaceOk(row, cities.Keys, media)
      modifies this`places
      ensures places == old(places)[id := row]
    {
      places := places[id := row];
    }

    method UpsertPhoto(id: Id, row: PhotoRow)
      requires PhotoOk(row, trips.Keys, cities.Keys, media) && FilingOk(row, places.Keys, visits.Keys)
      modifies this`photos
      ensures photos == old(photos)[id := row]
    {
      photos := photos[id := row];
    }

    method UpsertWalk(id: Id, row: WalkRow)
      requires row.trip in trips && row.city in cities
      modifies this`walks
      ensures walks == old(walks)[id := row]
    {
      walks := walks[id := row];
    }

    /** share_links_pkey and share_links_one_live are checked as the row goes in. */
    method InsertLink(token: string, trip: Id)
      requires trip in trips && token !in links
      requires forall k | k in links && links[k].trip == trip :: links[k].revoked
      modifies this`links
      ensures links == old(links)[token := LinkRow(trip, false)]
    {
      links := links[token := LinkRow(trip, false)];
    }

    method RevokeLiveLink(trip: Id)
      modifies this`links
      ensures links == Revoked(old(links), trip)
    {
      links := Revoked(links, trip);
    }

    // ---- trips and cities

    /** replaceTripCities: delete, then insert at 0..n-1. */
    method ReplaceTripCities(trip: Id, list: seq<Id>)
      requires trip in trips && Distinct(list) && forall c | c in list :: c in cities
      modifies this`tripCities
      ensures tripCities == WithItinerary(old(tripCities), trip, list)
    {
      DeleteTripCities(trip);
      assert list[..0] == [];
      assert tripCities == WithItinerary(old(tripCities), trip, list[..0]);
      for n := 0 to |list|
        invariant tripCities == WithItinerary(old(tripCities), trip, list[..n])
      {
        ItineraryGrows(old(tripCities), trip, list, n);
        InsertTripCity(trip, list[n], n);
      }
      assert list[..|list|] == list;
    }

    method PutTrip(id: Id, w: TripWrite) returns (refusal: Option<Refusal>)
      requires Closed(Contents()) && (w.cityIds.Some? ==> Distinct(w.cityIds.value))
      modifies this`trips, this`tripCities
      ensures refusal == TripRefusal(old(Contents()), id, w)
      ensures refusal.None? ==> Contents() == ApplyPutTrip(old(Contents()), id, w).log
    {
      refusal := TripRefusal(Contents(), id, w);
      if refusal.None? {
        TripWrittenIsOk(Contents(), id, w);
        UpsertTrip(id, TripWritten(Contents(), id, w));
        if w.cityIds.Some? { ReplaceTripCities(id, w.cityIds.value); }
      }
    }

    method WriteCity(id: Id, w: CityWrite) returns (refusal: Option<Refusal>)
      requires CitiesOk(cities, media)
      modifies this`cities
      ensures refusal == CityRefusal(old(Contents()), id, w.(attachTo := None))
      ensures refusal.None? ==> cities == old(cities)[id := CityWritten(old(Contents()), id, w)]
    {
      refusal := CityRefusal(Contents(), id, w.(attachTo := None));
      if refusal.Some? { return; }
      CityCoverIsOk(Contents(), id, w);
      UpsertCity(id, CityWritten(Contents(), id, w));
    }

    /** The city is written before attachTo is looked up; a refusal there rolls it back. */
    method PutCity(id: Id, w: CityWrite) returns (refusal: Option<Refusal>)
      requires CitiesOk(cities, media) && NaturalOrdinals(tripCities)
      modifies this`cities, this`tripCities
      ensures refusal == CityRefusal(old(Contents()), id, w)
      ensures refusal.None? ==> Contents() == ApplyPutCity(old(Contents()), id, w).log
    {
      CityRefusalInTwo(Contents(), id, w);
      refusal := WriteCity(id, w);
      if refusal.None? { refusal := AttachTo(w.attachTo, id); }
    }

    method AttachTo(trip: Option<Id>, city: Id) returns (refusal: Option<Refusal>)
      requires city in cities && NaturalOrdinals(tripCities)
      modifies this`tripCities
      ensures refusal == if trip.Some? && trip.value !in trips then Some(Field("attachTo")) else None
      ensures refusal.None? ==>
                tripCities == if trip.Some? then Attached(old(tripCities), trip.value, city) else old(tripCities)
    {
      if trip.Some? {
        if trip.value !in trips { return Some(Field("attachTo")); }
        AttachCity(trip.value, city);
      }
      refusal := None;
    }

    /** attachCitySQL: append, or do nothing on a conflict. */
    method AttachCity(trip: Id, city: Id)
      requires trip in trips && city in cities && NaturalOrdinals(tripCities)
      modifies this`tripCities
      ensures tripCities == Attached(old(tripCities), trip, city)
    {
      if (trip, city) !in tripCities {
        CityOrdinalsAreBelow(tripCities, trips.Keys, cities.Keys, trip);
        InsertTripCity(trip, city, MaxCityOrdinal(tripCities, trip) + 1);
      }
    }

    /** deleteTripSQL, and every cascade it fires. */
    method DeleteTrip(id: Id) returns (refusal: Option<Refusal>)
      modifies this
      ensures refusal == if id in old(trips) then None else Some(NothingThere)
      ensures refusal.None? ==> Contents() == WithoutTrip(old(Contents()), id)
    {
      if id !in trips { return Some(NothingThere); }
      var goneVisits := VisitsOn(visits, id);
      tripCities := CitiesOfOthers(tripCities, id);
      photos := PhotosOfOthers(photos, id, goneVisits);
      visits := visits - goneVisits;
      walks := WalksOfOthers(walks, id);
      links := LinksOfOthers(links, id);
      trips := trips - {id};
      refusal := None;
    }

    // ---- places

    /** The row goes in first; a visits array that is refused rolls it back. */
    method PutPlace(id: Id, w: PlaceWrite) returns (refusal: Option<Refusal>)
      requires Closed(Contents())
      modifies this`places, this`visits, this`photos
      ensures refusal == PlaceRefusal(old(Contents()), id, w)
      ensures refusal.None? ==> Contents() == ApplyPutPlace(old(Contents()), id, w).log
    {
      refusal := PlaceRefusal(Contents(), id, w.(visits := None));
      PlaceRefusalInTwo(Contents(), id, w);
      if refusal.Some? { return; }
      PlaceWrittenIsOk(Contents(), id, w);
      UpsertPlace(id, PlaceWritten(Contents(), id, w));
      if w.visits.Some? {
        OrdinalsAreNatural(old(Contents()));
        var ok := WriteVisits(id, w.visits.value);
        WritableIgnoresPlaces(old(Contents()), old(Contents()).places[id := places[id]], id, w.visits.value);
        if !ok { return Some(Field("visits")); }
      }
    }

    /** The photographs go before the pin, or the pin's own cascade would clear the column they are found by. */
    method RemovePlace(id: Id, disposition: Disposition) returns (refusal: Option<Refusal>)
      modifies this`places, this`visits, this`photos
      ensures refusal == if id in old(places) then None else Some(NothingThere)
      ensures refusal.None? ==> Contents() == ApplyRemovePlace(old(Contents()), id, disposition).log
    {
      if disposition.DeletePhotos? {
        photos := map p | p in photos && photos[p].place != Some(id) :: photos[p];
      }
      if id !in places { return Some(NothingThere); }
      var goneVisits := VisitsAt(visits, id);
      photos := map p | p in photos :: Unplaced(Unvisited(photos[p], goneVisits), id);
      visits := visits - goneVisits;
      places := places - {id};
      refusal := None;
    }

    // ---- photographs and walks

    method PutPhoto(id: Id, w: PhotoWrite) returns (refusal: Option<Refusal>)
      requires Closed(Contents())
      modifies this`photos
      ensures refusal == PhotoRefusal(old(Contents()), id, w)
      ensures refusal.None? ==> Contents() == ApplyPutPhoto(old(Contents()), id, w).log
    {
      refusal := PhotoRefusal(Contents(), id, w);
      if refusal.None? {
        PhotoWrittenIsOk(Contents(), id, w);
        UpsertPhoto(id, PhotoWritten(Contents(), id, w));
      }
    }

    method DeletePhoto(id: Id) returns (refusal: Option<Refusal>)
      modifies this`photos
      ensures refusal == if id in old(photos) then None else Some(NothingThere)
      ensures photos == old(photos) - {id}
    {
      refusal := if id in photos then None else Some(NothingThere);
      photos := photos - {id};
    }

    /** UPDATE ... WHERE id = ANY(ids) RETURNING id, and a miss when nothing came back. */
    method SnoozePhotos(ids: seq<Id>, until: int) returns (refusal: Option<Refusal>)
      modifies this`photos
      ensures refusal == if exists p :: p in ids && p in old(photos) then None else Some(NothingThere)
      ensures photos == Snoozed(old(photos), ids, until)
    {
      var moved := [];
      assert photos == Snoozed(photos, ids[..0], until);
      for n := 0 to |ids|
        invariant photos == Snoozed(old(photos), ids[..n], until)
        invariant moved != [] <==> exists p :: p in ids[..n] && p in old(photos)
      {
        assert ids[..n + 1] == ids[..n] + [ids[n]];
        if ids[n] in photos {
          photos := photos[ids[n] := photos[ids[n]].(filedLater := Some(until))];
          moved := moved + [ids[n]];
          assert ids[n] in ids[..n + 1] && ids[n] in old(photos);
        }
        assert forall p | p in ids[..n + 1] :: p in ids[..n] || p == ids[n];
      }
      assert ids[..|ids|] == ids;
      refusal := if moved != [] then None else Some(NothingThere);
    }

    /** Opens the minted occasion above every ordinal the place holds, then renumbers. */
    method MintOccasion(place: Id, visit: Id, trip: Id, at: int)
      requires VisitsOk(visits, places.Keys, trips.Keys) && OrdinalsUnique(visits)
      requires visit !in visits && place in places && trip in trips
      modifies this`visits
      ensures visits == WithOccasion(old(visits), place, visit, trip, at)
    {
      InsertVisit(visit, VisitRow(place, trip, MaxOrdinal(visits, place) + 1, at, None));
      RenumberVisits(place);
    }

    /** insertRefiledVisitSQL. */
    method InsertVisit(visit: Id, row: VisitRow)
      requires VisitsOk(visits, places.Keys, trips.Keys) && OrdinalsUnique(visits) && visit !in visits
      requires row.place in places && row.trip in trips && row.ordinal == MaxOrdinal(visits, row.place) + 1
      modifies this`visits
      ensures visits == old(visits)[visit := row]
      ensures OrdinalsUnique(visits) && OrdinalsNatural(visits)
    {
      MintedRowIsOk(visits, places.Keys, trips.Keys, visit, row);
      UpsertVisit(visit, row);
    }

    method RefilePhoto(id: Id, place: Id, visit: Id, at: Option<int>) returns (refusal: Option<Refusal>)
      requires Closed(Contents())
      modifies this`visits, this`photos
      ensures refusal == RefileRefusal(old(Contents()), id, place, visit, at)
      ensures refusal.None? ==> Contents() == ApplyRefile(old(Contents()), id, place, visit, at).log
    {
      refusal := RefileRefusal(Contents(), id, place, visit, at);
      if refusal.Some? { return; }
      assert PhotoOk(photos[id], trips.Keys, cities.Keys, media);
      RequireOrMint(place, visit, photos[id].trip, at);
      UpsertPhoto(id, photos[id].(place := Some(place), visit := Some(visit)));
    }

    /** requireOrMintOccasion, once its refusals have passed. */
    method RequireOrMint(place: Id, visit: Id, trip: Id, at: Option<int>)
      requires VisitsOk(visits, places.Keys, trips.Keys) && OrdinalsUnique(visits) && place in places && trip in trips
      requires visit in visits || at.Some?
      modifies this`visits
      ensures visit in visits
      ensures visits == if visit in old(visits) then old(visits)
                        else WithOccasion(old(visits), place, visit, trip, at.value)
    {
      if visit !in visits {
        WithOccasionIsOk(visits, places.Keys, trips.Keys, place, visit, trip, at.value);
        MintOccasion(place, visit, trip, at.value);
      }
    }

    method PutWalk(id: Id, w: WalkWrite) returns (refusal: Option<Refusal>)
      requires Closed(Contents())
      modifies this`walks
      ensures refusal == WalkRefusal(old(Contents()), id, w)
      ensures refusal.None? ==> Contents() == ApplyPutWalk(old(Contents()), id, w).log
    {
      refusal := WalkRefusal(Contents(), id, w);
      if refusal.None? { UpsertWalk(id, WalkWritten(Contents(), id, w)); }
    }

    // ---- the traveller's name and the share switches

    method SetName(to: string) returns (refusal: Option<Refusal>)
      modifies this`name
      ensures refusal == RefusalOf(ApplySetName(old(Contents()), to))
      ensures refusal.None? ==> Contents() == ApplySetName(old(Contents()), to).log
    {
      var trimmed := Text.TrimSpace(to);
      if trimmed == "" || |trimmed| > MAX_NAME_BYTES { return Some(Field("name")); }
      name := Some(trimmed);
      refusal := None;
    }

    method SetShareOptions(id: Id, w: ShareWrite) returns (refusal: Option<Refusal>)
      requires Closed(Contents())
      modifies this`trips
      ensures refusal == RefusalOf(ApplySetShareOptions(old(Contents()), id, w))
      ensures refusal.None? ==> Contents() == ApplySetShareOptions(old(Contents()), id, w).log
    {
      if id !in trips { return Some(NoTrip); }
      assert TripOk(trips[id], media);
      UpsertTrip(id, trips[id].(sharePhotos := Patch(w.photos, trips[id].sharePhotos),
                                shareNotes := Patch(w.notes, trips[id].shareNotes),
                                shareCoordinates := Patch(w.coordinates, trips[id].shareCoordinates)));
      refusal := None;
    }

    /** Revoke, then insert: the other order would meet the one-live index. */
    method NewShareLink(id: Id, token: string) returns (refusal: Option<Refusal>)
      modifies this`links
      ensures refusal == RefusalOf(ApplyNewShareLink(old(Contents()), id, token))
      ensures refusal.None? ==> Contents() == ApplyNewShareLink(old(Contents()), id, token).log
    {
      if id !in trips { return Some(NoTrip); }
      RevokeLiveLink(id);
      if token in links { return Some(TokenTaken); }
      InsertLink(token, id);
      refusal := None;
    }

    method StopSharing(id: Id) returns (refusal: Option<Refusal>)
      requires Closed(Contents())
      modifies this`links, this`trips
      ensures refusal == RefusalOf(ApplyStopSharing(old(Contents()), id))
      ensures refusal.None? ==> Contents() == ApplyStopSharing(old(Contents()), id).log
    {
      if id !in trips { return Some(NoTrip); }
      RevokeLiveLink(id);
      assert TripOk(trips[id], media);
      UpsertTrip(id, trips[id].(sharePhotos := true, shareNotes := true, shareCoordinates := false));
      refusal := None;
    }
  }

  lemma EmptyRewriteChangesNothing(visits: map<Id, VisitRow>, place: Id)
    requires VisitsAt(visits, place) == {}
    ensures Rewritten(visits, place, []) == visits
  {
    assert forall v | v in visits :: v !in VisitsAt(visits, place);
  }

  /** The occupied visits are still at their places, and still among the ids kept, when the deletes begin. */
  lemma StillOccupied(visits: map<Id, VisitRow>, photos: map<Id, PhotoRow>, place: Id, sent: seq<SentVisit>,
                      offset: int)
    requires forall v | v in SentIds(sent) && v in visits :: visits[v].place == place
    requires forall p | p in photos && photos[p].visit.Some? ::
               var v := photos[p].visit.value; v in visits && visits[v].place == place ==> v in SentIds(sent)
    ensures var mid := Upserted(visits, place, sent, offset, IdSet(SentIds(sent)));
            forall p | p in photos && photos[p].visit.Some? ::
              var v := photos[p].visit.value; v in mid && mid[v].place == place ==> v in SentIds(sent)
  {
  }

  function RefusalOf(outcome: Outcome): Option<Refusal> {
    if outcome.Refused? then Some(outcome.why) else None
  }

  lemma ItineraryGrows(tripCities: map<(Id, Id), int>, trip: Id, list: seq<Id>, n: nat)
    requires n < |list| && Distinct(list)
    ensures var before := WithItinerary(tripCities, trip, list[..n]);
            && (trip, list[n]) !in before
            && (forall k | k in before && k.0 == trip :: before[k] < n)
            && before[(trip, list[n]) := n] == WithItinerary(tripCities, trip, list[..n + 1])
  {
    ItineraryAppends(tripCities, trip, list[..n], list[n]);
    assert list[..n + 1] == list[..n] + [list[n]];
  }

  lemma ItineraryAppends(tripCities: map<(Id, Id), int>, trip: Id, list: seq<Id>, city: Id)
    requires city !in list
    ensures var before := WithItinerary(tripCities, trip, list);
            && (trip, city) !in before
            && (forall k | k in before && k.0 == trip :: before[k] < |list|)
            && before[(trip, city) := |list|] == WithItinerary(tripCities, trip, list + [city])
  {
    PositionsAppend(list, city, list + [city]);
  }

  lemma PositionsAppend(list: seq<Id>, city: Id, more: seq<Id>)
    requires city !in list && more == list + [city]
    ensures city in more && Position(more, city) == |list|
    ensures forall c :: c in more <==> c in list || c == city
    ensures forall c | c in list :: Position(more, c) == Position(list, c)
  {
    forall c | c in list ensures Position(more, c) == Position(list, c) { PositionInPrefix(list, [city], c); }
    assert more[|list|] == city;
  }

  lemma {:induction false} PositionInPrefix(a: seq<Id>, b: seq<Id>, x: Id)
    requires x in a
    ensures Position(a + b, x) == Position(a, x)
  {
    if a[0] != x {
      assert (a + b)[1..] == a[1..] + b;
      PositionInPrefix(a[1..], b, x);
    }
  }

  lemma CityRefusalInTwo(log: Log, id: Id, w: CityWrite)
    ensures var first := CityRefusal(log, id, w.(attachTo := None));
            CityRefusal(log, id, w)
            == if first.Some? then first
               else if w.attachTo.Some? && w.attachTo.value !in log.trips then Some(Field("attachTo"))
               else None
  {
  }

  ghost predicate NaturalOrdinals(tripCities: map<(Id, Id), int>) {
    forall k | k in tripCities :: tripCities[k] >= 0
  }

  lemma CityCoverIsOk(log: Log, id: Id, w: CityWrite)
    requires CitiesOk(log.cities, log.media) && CityRefusal(log, id, w.(attachTo := None)).None?
    ensures CoverResolves(log.media, CityWritten(log, id, w).cover)
  {
  }

  /** The refusals before the visits, then the visits' own. */
  lemma PlaceRefusalInTwo(log: Log, id: Id, w: PlaceWrite)
    ensures var first := PlaceRefusal(log, id, w.(visits := None));
            PlaceRefusal(log, id, w)
            == if first.Some? then first
               else if w.visits.Some? && !VisitsWritable(log, id, w.visits.value) then Some(Field("visits"))
               else None
  {
  }

  lemma OrdinalsAreNatural(log: Log)
    requires Closed(log)
    ensures OrdinalsNatural(log.visits)
  {
    assert forall v | v in log.visits :: VisitOk(log.visits[v], log.places.Keys, log.trips.Keys);
  }

  /** The visits' refusals look at trips, visits and photographs, not at the pin being written. */
  lemma WritableIgnoresPlaces(log: Log, places: map<Id, PlaceRow>, place: Id, sent: seq<SentVisit>)
    ensures VisitsWritable(log.(places := places), place, sent) == VisitsWritable(log, place, sent)
  {
  }

  lemma PlaceWrittenIsOk(log: Log, id: Id, w: PlaceWrite)
    requires Closed(log) && PlaceRefusal(log, id, w.(visits := None)).None?
    ensures PlaceOk(PlaceWritten(log, id, w), log.cities.Keys, log.media)
  {
    if id in log.places { assert PlaceOk(log.places[id], log.cities.Keys, log.media); }
  }

  lemma PhotoWrittenIsOk(log: Log, id: Id, w: PhotoWrite)
    requires Closed(log) && PhotoRefusal(log, id, w).None?
    ensures PhotoOk(PhotoWritten(log, id, w), log.trips.Keys, log.cities.Keys, log.media)
    ensures FilingOk(PhotoWritten(log, id, w), log.places.Keys, log.visits.Keys)
  {
    if id in log.photos {
      assert FilingOk(log.photos[id], log.places.Keys, log.visits.Keys);
      assert PhotoOk(log.photos[id], log.trips.Keys, log.cities.Keys, log.media);
    }
  }

  lemma MintedRowIsOk(visits: map<Id, VisitRow>, places: set<Id>, trips: set<Id>, visit: Id, row: VisitRow)
    requires VisitsOk(visits, places, trips) && OrdinalsUnique(visits) && visit !in visits
    requires row.place in places && row.trip in trips && row.ordinal == MaxOrdinal(visits, row.place) + 1
    ensures VisitOk(row, places, trips)
    ensures OrdinalsUnique(visits[visit := row])
    ensures OrdinalsNatural(visits[visit := row])
  {
    assert forall v | v in visits :: VisitOk(visits[v], places, trips);
    assert forall v | v in visits && visits[v].place == row.place :: v in VisitsAt(visits, row.place);
  }
}
