/** Filing checks that a photograph was taken in its place's city; what later writes leave of that. */
module FiledCities {
  import opened Options
  import opened Ordering
  import opened Tables
  import opened Writes
  import opened Filing
  import opened Runs

  /** A photograph that names a place is in that place's city. */
  predicate CitiesAgree(log: Log) {
    forall p | p in log.photos && log.photos[p].place.Some? ::
      log.photos[p].place.value in log.places && log.photos[p].city == log.places[log.photos[p].place.value].city
  }

  /** A PutPhoto that sends a photograph that names a place to another city. */
  predicate MovesAPlacedPhoto(log: Log, op: Op) {
    && op.PutPhoto? && op.id in log.photos && log.photos[op.id].place.Some?
    && op.photo.city.Some? && op.photo.city.value != log.photos[op.id].city
  }

  /** A PutPlace that sends a place that some photograph names to another city. */
  predicate MovesANamedPlace(log: Log, op: Op) {
    && op.PutPlace? && op.id in log.places && op.place.city.Some? && op.place.city.value != log.places[op.id].city
    && exists p :: p in log.photos && log.photos[p].place == Some(op.id)
  }

  lemma PutPhotoCities(log: Log, op: Op)
    requires op.PutPhoto? && CitiesAgree(log) && Apply(log, op).Committed?
    ensures CitiesAgree(Apply(log, op).log) <==> !MovesAPlacedPhoto(log, op)
  {
    var after := Apply(log, op).log;
    assert after.places == log.places && after.photos == log.photos[op.id := after.photos[op.id]];
    if MovesAPlacedPhoto(log, op) {
      assert after.photos[op.id].city == op.photo.city.value && after.photos[op.id].place == log.photos[op.id].place;
    }
  }

  lemma PutPlaceCities(log: Log, op: Op)
    requires op.PutPlace? && CitiesAgree(log) && Apply(log, op).Committed?
    ensures CitiesAgree(Apply(log, op).log) <==> !MovesANamedPlace(log, op)
  {
    var after := Apply(log, op).log;
    assert after.photos == log.photos && after.places == log.places[op.id := after.places[op.id]];
    if MovesANamedPlace(log, op) {
      var p :| p in log.photos && log.photos[p].place == Some(op.id);
      assert after.photos[p].city != after.places[op.id].city;
    }
  }

  lemma WithoutPlaceKeepsCities(log: Log, id: Id)
    requires CitiesAgree(log)
    ensures CitiesAgree(WithoutPlace(log, id)) && CitiesAgree(WithoutPhotosAt(log, id))
  {
  }

  lemma OtherWritesKeepCities(log: Log, op: Op)
    requires op.DeletePhoto? || op.SnoozePhotos? || op.RefilePhoto? || op.DeleteTrip?
    requires CitiesAgree(log) && Apply(log, op).Committed?
    ensures CitiesAgree(Apply(log, op).log)
  {
  }

  /** A committed write leaves every photograph in its place's city, except exactly the two that move one of them
      from under a filing. */
  lemma CitiesAgreeExactly(log: Log, op: Op)
    requires CitiesAgree(log) && Apply(log, op).Committed?
    ensures CitiesAgree(Apply(log, op).log) <==> !MovesAPlacedPhoto(log, op) && !MovesANamedPlace(log, op)
  {
    match op
    case PutPhoto(_, _) => PutPhotoCities(log, op);
    case PutPlace(_, _) => PutPlaceCities(log, op);
    case RemovePlace(id, _) =>
      WithoutPlaceKeepsCities(log, id);
      WithoutPlaceKeepsCities(WithoutPhotosAt(log, id), id);
    case DeletePhoto(_) => OtherWritesKeepCities(log, op);
    case SnoozePhotos(_, _) => OtherWritesKeepCities(log, op);
    case RefilePhoto(_, _, _, _) => OtherWritesKeepCities(log, op);
    case DeleteTrip(_) => OtherWritesKeepCities(log, op);
    case _ => FilingUntouched(log, op);
  }

  // ---- whole runs

  predicate PartsCities(s: State, step: Step) {
    step.Write? && Apply(s.log, step.op).Committed?
    && (MovesAPlacedPhoto(s.log, step.op) || MovesANamedPlace(s.log, step.op))
  }

  lemma NextCities(s: State, step: Step)
    requires CitiesAgree(s.log)
    ensures CitiesAgree(Next(s, step).log) <==> !PartsCities(s, step)
  {
    if step.Write? && Apply(s.log, step.op).Committed? { CitiesAgreeExactly(s.log, step.op); }
  }

  /** As long as no write has moved a city under a filing, every photograph is in the city of the place it names; and
      the first write that does breaks that at once. */
  lemma {:induction false} EveryRunAgreesUntilACityMoves(steps: seq<Step>)
    requires forall i | 0 <= i < |steps| :: i < |steps| - 1 ==> !PartsCities(After(Start, steps[..i]), steps[i])
    ensures CitiesAgree(After(Start, steps).log)
            <==> (steps != [] ==> !PartsCities(After(Start, steps[..|steps| - 1]), steps[|steps| - 1]))
  {
    if steps != [] {
      var most := steps[..|steps| - 1];
      forall i | 0 <= i < |most| ensures !PartsCities(After(Start, most[..i]), most[i]) {
        assert most[..i] == steps[..i] && most[i] == steps[i];
      }
      EveryRunAgreesUntilACityMoves(most);
      if most != [] { assert !PartsCities(After(Start, most[..|most| - 1]), most[|most| - 1]); }
      NextCities(After(Start, most), steps[|steps| - 1]);
    }
  }

  // ---- what a parted filing costs

  /** Filing a photograph where it already is changes nothing; and is refused exactly when its city is no longer its
      place's. */
  lemma RefiledInPlaceExactly(log: Log, p: Id, at: Option<int>)
    requires Closed(log) && Coherent(log) && p in log.photos && log.photos[p].visit.Some?
    ensures log.photos[p].place.Some? && log.photos[p].place.value in log.places
    ensures var place, visit := log.photos[p].place.value, log.photos[p].visit.value;
            Apply(log, RefilePhoto(p, place, visit, at)) ==
            if log.photos[p].city == log.places[place].city then Committed(log) else Refused(Field("placeId"))
  {
    assert FiledWhole(log.photos[p], log.visits) && FilingOk(log.photos[p], log.places.Keys, log.visits.Keys);
    var place, visit := log.photos[p].place.value, log.photos[p].visit.value;
    assert log.visits[visit].place == place;
    assert log.photos[p].(place := Some(place), visit := Some(visit)) == log.photos[p];
    assert log.photos[p := log.photos[p]] == log.photos;
  }

  const MOVED_PLACE := PlaceWrite(Some("d"), None, None, None, None, None)
  const WITH_CITY := WITH_FILING.(cities := WITH_FILING.cities["d" := CityRow("a", Country("JP", "Japan"), HERE, None)])
  const WITH_MOVED_PLACE := WITH_CITY.(places := map["p" := PlaceRow("d", "a", HERE, None, None)])

  const CITY_RUN := PARTING_RUN[..8] + [Write(PutCity("d", PLAIN_CITY)), Write(PutPlace("p", MOVED_PLACE))]

  lemma CityThenPlace()
    ensures Apply(WITH_FILING, PutCity("d", PLAIN_CITY)) == Committed(WITH_CITY)
    ensures Apply(WITH_CITY, PutPlace("p", MOVED_PLACE)) == Committed(WITH_MOVED_PLACE)
  {
    assert WITH_CITY.places["p" := PlaceRow("d", "a", HERE, None, None)] == WITH_MOVED_PLACE.places;
  }

  lemma CityRunEnds()
    ensures After(Start, CITY_RUN).log == WITH_MOVED_PLACE
  {
    FirstEight();
    CityThenPlace();
    assert CITY_RUN[..8] == PARTING_RUN[..8] && CITY_RUN[..10] == CITY_RUN;
    OneMoreCommit(CITY_RUN, 8, State(6, WITH_FILING), PutCity("d", PLAIN_CITY), WITH_CITY);
    OneMoreCommit(CITY_RUN, 9, State(7, WITH_CITY), PutPlace("p", MOVED_PLACE), WITH_MOVED_PLACE);
  }

  /** A ten-step run after which a photograph filed in one city names a place in another, and can no longer be filed
      where it is. */
  lemma APlaceCanMoveFromUnderItsPhotographs()
    ensures var log := After(Start, CITY_RUN).log;
            && "x" in log.photos && log.photos["x"].place == Some("p") && "p" in log.places
            && log.photos["x"].city != log.places["p"].city
            && Apply(log, RefilePhoto("x", "p", "v", None)) == Refused(Field("placeId"))
  {
    CityRunEnds();
    assert WITH_MOVED_PLACE.photos["x"].city == "c";
  }
}
