/** What every committed write keeps, over every run from an empty log. */
module Invariants {
  import opened Options
  import opened Ordering
  import opened Tables
  import opened Writes

  // ---- ordinals after the two rewrites

  lemma RewrittenKeepsOrdinalsUnique(visits: map<Id, VisitRow>, place: Id, sent: seq<SentVisit>)
    requires OrdinalsUnique(visits)
    ensures OrdinalsUnique(Rewritten(visits, place, sent))
  {
  }

  lemma RenumberedKeepsOrdinalsUnique(visits: map<Id, VisitRow>, place: Id)
    requires OrdinalsUnique(visits)
    ensures OrdinalsUnique(Renumbered(visits, place))
  {
  }

  lemma WithOccasionKeepsOrdinalsUnique(visits: map<Id, VisitRow>, place: Id, visit: Id, trip: Id, at: int)
    requires OrdinalsUnique(visits) && visit !in visits
    ensures OrdinalsUnique(WithOccasion(visits, place, visit, trip, at))
  {
    var minted := visits[visit := VisitRow(place, trip, MaxOrdinal(visits, place) + 1, at, None)];
    assert OrdinalsUnique(minted) by {
      assert forall v | v in visits && visits[v].place == place :: v in VisitsAt(visits, place);
    }
    RenumberedKeepsOrdinalsUnique(minted, place);
  }

  // ---- a table stays closed when the tables it points at grow

  lemma ReferencesSurviveGrowth(log: Log, trips: set<Id>, cities: set<Id>, places: set<Id>)
    requires Closed(log) && log.trips.Keys <= trips && log.cities.Keys <= cities && log.places.Keys <= places
    ensures TripCitiesOk(log.tripCities, trips, cities)
    ensures PlacesOk(log.places, cities, log.media)
    ensures VisitsOk(log.visits, places, trips)
    ensures PhotosOk(log.photos, trips, cities, log.media)
    ensures FilingsOk(log.photos, places, log.visits.Keys)
    ensures WalksOk(log.walks, trips, cities)
    ensures LinksOk(log.links, trips)
  {
  }

  lemma MidnightKeepsOrder(a: int, b: int)
    requires a <= b
    ensures Midnight(a) % DAY == 0 && Midnight(a) <= a
    ensures Midnight(a) <= Midnight(b)
    ensures a % DAY == 0 ==> Midnight(a) == a
  {
    assert Midnight(a) == a / DAY * DAY && Midnight(b) == b / DAY * DAY;
  }

  // ---- every reference resolves after every committed write

  lemma TripWrittenIsOk(log: Log, id: Id, w: TripWrite)
    requires Closed(log) && TripRefusal(log, id, w).None?
    ensures id in log.trips || w.name.Some?
    ensures TripOk(TripWritten(log, id, w), log.media)
  {
    var row := TripWritten(log, id, w);
    var start := Patch(w.start, if id in log.trips then log.trips[id].started else None);
    var end := Patch(w.end, if id in log.trips then log.trips[id].ended else None);
    assert id in log.trips ==> TripOk(log.trips[id], log.media);
    if start.Some? { MidnightKeepsOrder(start.value, start.value); }
    if end.Some? { MidnightKeepsOrder(end.value, end.value); }
    if start.Some? && end.Some? { MidnightKeepsOrder(start.value, end.value); }
    assert row.started == MidnightOf(start) && row.ended == MidnightOf(end);
  }

  lemma ItineraryIsOk(tripCities: map<(Id, Id), int>, trips: set<Id>, cities: set<Id>, trip: Id, list: seq<Id>)
    requires TripCitiesOk(tripCities, trips, cities) && trip in trips && forall c | c in list :: c in cities
    ensures TripCitiesOk(WithItinerary(tripCities, trip, list), trips, cities)
  {
  }

  lemma PutTripKeepsClosed(log: Log, id: Id, w: TripWrite)
    requires Closed(log) && ApplyPutTrip(log, id, w).Committed?
    ensures Closed(ApplyPutTrip(log, id, w).log)
  {
    var trips := log.trips.Keys + {id};
    TripWrittenIsOk(log, id, w);
    ReferencesSurviveGrowth(log, trips, log.cities.Keys, log.places.Keys);
    if w.cityIds.Some? { ItineraryIsOk(log.tripCities, trips, log.cities.Keys, id, w.cityIds.value); }
    assert ApplyPutTrip(log, id, w).log.trips.Keys == trips;
  }

  lemma AttachedIsOk(tripCities: map<(Id, Id), int>, trips: set<Id>, cities: set<Id>, trip: Id, city: Id)
    requires TripCitiesOk(tripCities, trips, cities) && trip in trips && city in cities
    ensures TripCitiesOk(Attached(tripCities, trip, city), trips, cities)
  {
    if (trip, city) !in tripCities {
      CityOrdinalsAreBelow(tripCities, trips, cities, trip);
      AppendIsOk(tripCities, trips, cities, (trip, city), MaxCityOrdinal(tripCities, trip) + 1);
    }
  }

  lemma CityOrdinalsAreBelow(tripCities: map<(Id, Id), int>, trips: set<Id>, cities: set<Id>, trip: Id)
    requires forall k | k in tripCities :: tripCities[k] >= 0
    ensures MaxCityOrdinal(tripCities, trip) >= -1
    ensures forall k | k in tripCities && k.0 == trip :: tripCities[k] < MaxCityOrdinal(tripCities, trip) + 1
  {
  }

  lemma AppendIsOk(tripCities: map<(Id, Id), int>, trips: set<Id>, cities: set<Id>, key: (Id, Id), ordinal: int)
    requires TripCitiesOk(tripCities, trips, cities) && key.0 in trips && key.1 in cities && key !in tripCities
    requires ordinal >= 0 && forall k | k in tripCities && k.0 == key.0 :: tripCities[k] < ordinal
    ensures TripCitiesOk(tripCities[key := ordinal], trips, cities)
  {
  }

  lemma ClosedWithCities(log: Log, cities: map<Id, CityRow>, tripCities: map<(Id, Id), int>)
    requires Closed(log) && log.cities.Keys <= cities.Keys && CitiesOk(cities, log.media)
    requires TripCitiesOk(tripCities, log.trips.Keys, cities.Keys)
    ensures Closed(log.(cities := cities, tripCities := tripCities))
  {
    ReferencesSurviveGrowth(log, log.trips.Keys, cities.Keys, log.places.Keys);
  }

  lemma TripCitiesStayOk(log: Log, cities: set<Id>, id: Id, attachTo: Option<Id>)
    requires Closed(log) && cities == log.cities.Keys + {id} && (attachTo.Some? ==> attachTo.value in log.trips)
    ensures TripCitiesOk(log.tripCities, log.trips.Keys, cities)
    ensures attachTo.Some? ==> TripCitiesOk(Attached(log.tripCities, attachTo.value, id), log.trips.Keys, cities)
  {
    ReferencesSurviveGrowth(log, log.trips.Keys, cities, log.places.Keys);
    if attachTo.Some? { AttachedIsOk(log.tripCities, log.trips.Keys, cities, attachTo.value, id); }
  }

  lemma PutCityKeepsClosed(log: Log, id: Id, w: CityWrite)
    requires Closed(log) && ApplyPutCity(log, id, w).Committed?
    ensures Closed(ApplyPutCity(log, id, w).log)
  {
    var after := ApplyPutCity(log, id, w).log;
    TripCitiesStayOk(log, after.cities.Keys, id, w.attachTo);
    CitiesStayOk(log, id, w);
    ClosedWithCities(log, after.cities, after.tripCities);
  }

  lemma CitiesStayOk(log: Log, id: Id, w: CityWrite)
    requires CitiesOk(log.cities, log.media) && ApplyPutCity(log, id, w).Committed?
    ensures CitiesOk(ApplyPutCity(log, id, w).log.cities, log.media)
  {
  }

  lemma RewrittenIsOk(log: Log, places: set<Id>, place: Id, sent: seq<SentVisit>)
    requires VisitsOk(log.visits, places, log.trips.Keys) && place in places
    requires FilingsOk(log.photos, places, log.visits.Keys)
    requires VisitsWritable(log, place, sent)
    ensures VisitsOk(Rewritten(log.visits, place, sent), places, log.trips.Keys)
    ensures FilingsOk(log.photos, places, Rewritten(log.visits, place, sent).Keys)
  {
    var after := Rewritten(log.visits, place, sent);
    forall p | p in log.photos ensures FilingOk(log.photos[p], places, after.Keys) {
      if log.photos[p].visit.Some? && sent == [] {
        assert log.photos[p].visit.value !in VisitsAt(log.visits, place);
      }
    }
  }

  lemma PutPlaceKeepsClosed(log: Log, id: Id, w: PlaceWrite)
    requires Closed(log) && ApplyPutPlace(log, id, w).Committed?
    ensures Closed(ApplyPutPlace(log, id, w).log)
  {
    var places := log.places.Keys + {id};
    ReferencesSurviveGrowth(log, log.trips.Keys, log.cities.Keys, places);
    if w.visits.Some? {
      RewrittenIsOk(log, places, id, w.visits.value);
      RewrittenKeepsOrdinalsUnique(log.visits, id, w.visits.value);
    }
    assert ApplyPutPlace(log, id, w).log.places.Keys == places;
  }

  lemma WithoutPlacePhotosOk(log: Log, id: Id)
    requires Closed(log)
    ensures var after := WithoutPlace(log, id);
            && PhotosOk(after.photos, log.trips.Keys, log.cities.Keys, log.media)
            && FilingsOk(after.photos, after.places.Keys, after.visits.Keys)
  {
    var after := WithoutPlace(log, id);
    forall p | p in after.photos
      ensures FilingOk(after.photos[p], after.places.Keys, after.visits.Keys)
      ensures PhotoOk(after.photos[p], log.trips.Keys, log.cities.Keys, log.media)
    {
      assert FilingOk(log.photos[p], log.places.Keys, log.visits.Keys);
      assert PhotoOk(log.photos[p], log.trips.Keys, log.cities.Keys, log.media);
    }
  }

  lemma WithoutPlaceVisitsOk(log: Log, id: Id)
    requires Closed(log)
    ensures var after := WithoutPlace(log, id);
            VisitsOk(after.visits, after.places.Keys, log.trips.Keys) && OrdinalsUnique(after.visits)
  {
    var after := WithoutPlace(log, id);
    forall v | v in after.visits ensures VisitOk(after.visits[v], after.places.Keys, log.trips.Keys) {
      assert VisitOk(log.visits[v], log.places.Keys, log.trips.Keys);
      assert v !in VisitsAt(log.visits, id);
    }
  }

  lemma WithoutPlaceKeepsClosed(log: Log, id: Id)
    requires Closed(log)
    ensures Closed(WithoutPlace(log, id))
  {
    WithoutPlacePhotosOk(log, id);
    WithoutPlaceVisitsOk(log, id);
    assert PlacesOk(WithoutPlace(log, id).places, log.cities.Keys, log.media);
  }

  lemma WithoutPhotosKeepsClosed(log: Log, id: Id)
    requires Closed(log)
    ensures Closed(WithoutPhotosAt(log, id))
  {
  }

  lemma RemovePlaceKeepsClosed(log: Log, id: Id, photos: Disposition)
    requires Closed(log) && ApplyRemovePlace(log, id, photos).Committed?
    ensures Closed(ApplyRemovePlace(log, id, photos).log)
  {
    WithoutPhotosKeepsClosed(log, id);
    WithoutPlaceKeepsClosed(log, id);
    WithoutPlaceKeepsClosed(WithoutPhotosAt(log, id), id);
  }

  lemma WithOccasionIsOk(visits: map<Id, VisitRow>, places: set<Id>, trips: set<Id>,
                         place: Id, visit: Id, trip: Id, at: int)
    requires VisitsOk(visits, places, trips) && place in places && trip in trips
    ensures VisitsOk(WithOccasion(visits, place, visit, trip, at), places, trips)
    ensures WithOccasion(visits, place, visit, trip, at).Keys == visits.Keys + {visit}
  {
    var after := WithOccasion(visits, place, visit, trip, at);
    forall v | v in after ensures VisitOk(after[v], places, trips) {
      if v != visit { assert VisitOk(visits[v], places, trips); }
    }
  }

  lemma RefileKeepsClosed(log: Log, id: Id, place: Id, visit: Id, at: Option<int>)
    requires Closed(log) && ApplyRefile(log, id, place, visit, at).Committed?
    ensures Closed(ApplyRefile(log, id, place, visit, at).log)
  {
    var after := ApplyRefile(log, id, place, visit, at).log;
    assert PhotoOk(log.photos[id], log.trips.Keys, log.cities.Keys, log.media);
    if visit !in log.visits {
      WithOccasionKeepsOrdinalsUnique(log.visits, place, visit, log.photos[id].trip, at.value);
      WithOccasionIsOk(log.visits, log.places.Keys, log.trips.Keys, place, visit, log.photos[id].trip, at.value);
    }
    VisitsGrow(log, after.visits);
    PhotoWrittenKeepsClosed(log.(visits := after.visits), id, after.photos[id]);
  }

  lemma VisitsGrow(log: Log, visits: map<Id, VisitRow>)
    requires Closed(log) && log.visits.Keys <= visits.Keys
    requires VisitsOk(visits, log.places.Keys, log.trips.Keys) && OrdinalsUnique(visits)
    ensures Closed(log.(visits := visits))
  {
  }

  lemma WithoutTripPhotosOk(log: Log, id: Id)
    requires Closed(log)
    ensures var after := WithoutTrip(log, id);
            && PhotosOk(after.photos, after.trips.Keys, after.cities.Keys, after.media)
            && FilingsOk(after.photos, after.places.Keys, after.visits.Keys)
  {
    var after := WithoutTrip(log, id);
    forall p | p in after.photos
      ensures FilingOk(after.photos[p], after.places.Keys, after.visits.Keys)
      ensures PhotoOk(after.photos[p], after.trips.Keys, after.cities.Keys, after.media)
    {
      assert FilingOk(log.photos[p], log.places.Keys, log.visits.Keys);
      assert PhotoOk(log.photos[p], log.trips.Keys, log.cities.Keys, log.media);
    }
  }

  lemma WithoutTripChildrenOk(log: Log, id: Id)
    requires Closed(log)
    ensures var after := WithoutTrip(log, id);
            && TripCitiesOk(after.tripCities, after.trips.Keys, after.cities.Keys)
            && VisitsOk(after.visits, after.places.Keys, after.trips.Keys)
            && OrdinalsUnique(after.visits)
            && WalksOk(after.walks, after.trips.Keys, after.cities.Keys)
  {
  }

  lemma WithoutTripLinksOk(links: map<string, LinkRow>, trips: set<Id>, id: Id)
    requires LinksOk(links, trips)
    ensures LinksOk(LinksOfOthers(links, id), trips - {id})
  {
  }

  lemma DeleteTripKeepsClosed(log: Log, id: Id)
    requires Closed(log)
    ensures Closed(WithoutTrip(log, id))
  {
    WithoutTripPhotosOk(log, id);
    WithoutTripChildrenOk(log, id);
    WithoutTripLinksOk(log.links, log.trips.Keys, id);
    assert WithoutTrip(log, id).trips.Keys == log.trips.Keys - {id};
  }

  lemma RevokedIsOk(links: map<string, LinkRow>, trips: set<Id>, trip: Id)
    requires LinksOk(links, trips)
    ensures LinksOk(Revoked(links, trip), trips)
    ensures forall token | token !in links && trip in trips ::
            LinksOk(Revoked(links, trip)[token := LinkRow(trip, false)], trips)
  {
  }

  lemma ShareKeepsClosed(log: Log, op: Op)
    requires op.NewShareLink? || op.StopSharing? || op.SetShareOptions?
    requires Closed(log) && Apply(log, op).Committed?
    ensures Closed(Apply(log, op).log)
  {
    RevokedIsOk(log.links, log.trips.Keys, op.id);
    assert Apply(log, op).log.trips.Keys == log.trips.Keys;
    assert TripOk(log.trips[op.id], log.media);
  }

  lemma PhotoWrittenKeepsClosed(log: Log, id: Id, row: PhotoRow)
    requires Closed(log) && PhotoOk(row, log.trips.Keys, log.cities.Keys, log.media)
    requires FilingOk(row, log.places.Keys, log.visits.Keys)
    ensures Closed(log.(photos := log.photos[id := row]))
  {
  }

  lemma PutPhotoKeepsClosed(log: Log, id: Id, w: PhotoWrite)
    requires Closed(log) && ApplyPutPhoto(log, id, w).Committed?
    ensures Closed(ApplyPutPhoto(log, id, w).log)
  {
    if id in log.photos {
      assert FilingOk(log.photos[id], log.places.Keys, log.visits.Keys);
      assert PhotoOk(log.photos[id], log.trips.Keys, log.cities.Keys, log.media);
    }
    PhotoWrittenKeepsClosed(log, id, PhotoWritten(log, id, w));
  }

  lemma SnoozeKeepsClosed(log: Log, ids: seq<Id>, until: int)
    requires Closed(log) && ApplySnooze(log, ids, until).Committed?
    ensures Closed(ApplySnooze(log, ids, until).log)
  {
    var after := ApplySnooze(log, ids, until).log;
    forall p | p in after.photos
      ensures FilingOk(after.photos[p], log.places.Keys, log.visits.Keys)
      ensures PhotoOk(after.photos[p], log.trips.Keys, log.cities.Keys, log.media)
    {
      assert FilingOk(log.photos[p], log.places.Keys, log.visits.Keys);
      assert PhotoOk(log.photos[p], log.trips.Keys, log.cities.Keys, log.media);
    }
  }

  lemma PutWalkKeepsClosed(log: Log, id: Id, w: WalkWrite)
    requires Closed(log) && ApplyPutWalk(log, id, w).Committed?
    ensures Closed(ApplyPutWalk(log, id, w).log)
  {
    assert WalksOk(log.walks[id := WalkWritten(log, id, w)], log.trips.Keys, log.cities.Keys);
  }

  lemma FewerPhotosStayClosed(log: Log, op: Op)
    requires op.DeletePhoto? || op.SetTravellerName?
    requires Closed(log) && Apply(log, op).Committed?
    ensures Closed(Apply(log, op).log)
  {
  }

  /** No write that passes its own checks leaves a reference unresolved or an ordinal shared. */
  lemma ApplyKeepsClosed(log: Log, op: Op)
    requires Closed(log) && Apply(log, op).Committed?
    ensures Closed(Apply(log, op).log)
  {
    match op
    case PutTrip(id, w) => PutTripKeepsClosed(log, id, w);
    case PutCity(id, w) => PutCityKeepsClosed(log, id, w);
    case PutPlace(id, w) => PutPlaceKeepsClosed(log, id, w);
    case RemovePlace(id, photos) => RemovePlaceKeepsClosed(log, id, photos);
    case RefilePhoto(id, place, visit, at) => RefileKeepsClosed(log, id, place, visit, at);
    case DeleteTrip(id) => DeleteTripKeepsClosed(log, id);
    case NewShareLink(_, _) => ShareKeepsClosed(log, op);
    case StopSharing(_) => ShareKeepsClosed(log, op);
    case SetShareOptions(_, _) => ShareKeepsClosed(log, op);
    case PutPhoto(id, w) => PutPhotoKeepsClosed(log, id, w);
    case SnoozePhotos(ids, until) => SnoozeKeepsClosed(log, ids, until);
    case PutWalk(id, w) => PutWalkKeepsClosed(log, id, w);
    case _ => FewerPhotosStayClosed(log, op);
  }
}
