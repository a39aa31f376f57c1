/** What every store write does to the log: the whole answer of each operation, refusals included. */
module Writes {
  import opened Options
  import opened Ordering
  import opened Tables
  import Text

  // ---- bodies. A field is optional; a nullable one is optional twice over (absent, null, value).

  datatype TripWrite = TripWrite(name: Option<string>, cityIds: Option<seq<Id>>, start: Option<Option<int>>,
                                 end: Option<Option<int>>, summary: Option<Option<string>>, cover: Option<Option<Id>>)
  datatype CityWrite = CityWrite(name: Option<string>, country: Option<Country>, centre: Option<LatLng>,
                                 cover: Option<Option<Id>>, attachTo: Option<Id>)
  datatype SentVisit = SentVisit(id: Id, trip: Id, at: int, note: Option<string>)
  datatype PlaceWrite = PlaceWrite(city: Option<Id>, name: Option<string>, coordinates: Option<LatLng>,
                                   visits: Option<seq<SentVisit>>, plan: Option<Option<string>>,
                                   cover: Option<Option<Id>>)
  datatype PhotoWrite = PhotoWrite(trip: Option<Id>, city: Option<Id>, takenAt: Option<int>, asset: Option<Id>,
                                   caption: Option<Option<string>>, coordinates: Option<Option<LatLng>>,
                                   accuracy: Option<Option<int>>, filedLater: Option<Option<int>>)
  datatype WalkWrite = WalkWrite(trip: Option<Id>, city: Option<Id>, recordedOn: Option<int>,
                                 distanceKm: Option<real>, points: Option<seq<LatLng>>, name: Option<Option<string>>,
                                 dismissed: Option<bool>)
  datatype ShareWrite = ShareWrite(photos: Option<bool>, notes: Option<bool>, coordinates: Option<bool>)

  datatype Disposition = KeepPhotos | DeletePhotos

  datatype Op =
    | PutTrip(id: Id, trip: TripWrite)
    | PutCity(id: Id, city: CityWrite)
    | PutPlace(id: Id, place: PlaceWrite)
    | RemovePlace(id: Id, photos: Disposition)
    | PutPhoto(id: Id, photo: PhotoWrite)
    | DeletePhoto(id: Id)
    | SnoozePhotos(ids: seq<Id>, until: int)
    | RefilePhoto(id: Id, toPlace: Id, toVisit: Id, visitAt: Option<int>)
    | PutWalk(id: Id, walk: WalkWrite)
    | DeleteTrip(id: Id)
    | SetTravellerName(name: string)
    | SetShareOptions(id: Id, share: ShareWrite)
    | NewShareLink(id: Id, token: string)
    | StopSharing(id: Id)

  /** Why a write was rolled back: a named field, a row that is not there, a delete or snooze that
      matched nothing, or a share token some link already holds. */
  datatype Refusal = Field(name: string) | NoTrip | NoPhoto | NothingThere | TokenTaken

  datatype Outcome = Committed(log: Log) | Refused(why: Refusal)

  predicate Distinct(list: seq<Id>) {
    forall i, j | 0 <= i < j < |list| :: list[i] != list[j]
  }

  function SentIds(visits: seq<SentVisit>): (ids: seq<Id>)
    ensures |ids| == |visits| && forall i | 0 <= i < |ids| :: ids[i] == visits[i].id
  {
    seq(|visits|, i requires 0 <= i < |visits| => visits[i].id)
  }

  /** What checkCityIDs and checkVisits establish before a store sees the body. */
  predicate Validated(op: Op) {
    match op
    case PutTrip(_, w) => w.cityIds.Some? ==> Distinct(w.cityIds.value)
    case PutPlace(_, w) => w.visits.Some? ==> Distinct(SentIds(w.visits.value))
    case _ => true
  }

  function Value<T>(sent: Option<Option<T>>): Option<T> {
    if sent.Some? then sent.value else None
  }

  /** CASE WHEN sent THEN EXCLUDED.c ELSE stored END, for a column the body may not clear. */
  function Patch<T>(sent: Option<T>, stored: T): T {
    if sent.Some? then sent.value else stored
  }

  /** A date column keeps the UTC midnight of the instant it is given. */
  function Midnight(t: int): int {
    t - t % DAY
  }

  function MidnightOf(t: Option<int>): Option<int> {
    if t.Some? then Some(Midnight(t.value)) else None
  }

  // ---- trips

  function TripRefusal(log: Log, id: Id, w: TripWrite): Option<Refusal> {
    var create := id !in log.trips;
    var start := Patch(w.start, if create then None else log.trips[id].started);
    var end := Patch(w.end, if create then None else log.trips[id].ended);
    if create && w.name.None? then Some(Field("name"))
    else if start.Some? && end.Some? && end.value < start.value then Some(Field("end"))
    else if w.cityIds.Some? && exists c :: c in w.cityIds.value && c !in log.cities then Some(Field("cityIds"))
    else if !CoverResolves(log.media, Value(w.cover)) then Some(Field("coverAsset"))
    else None
  }

  function TripWritten(log: Log, id: Id, w: TripWrite): TripRow
    requires id in log.trips || w.name.Some?
  {
    if id !in log.trips then
      TripRow(w.name.value, MidnightOf(Value(w.start)), MidnightOf(Value(w.end)), Value(w.summary), Value(w.cover),
              true, true, false)
    else
      var held := log.trips[id];
      held.(name := Patch(w.name, held.name),
           started := if w.start.Some? then MidnightOf(w.start.value) else held.started,
           ended := if w.end.Some? then MidnightOf(w.end.value) else held.ended,
           summary := Patch(w.summary, held.summary),
           cover := Patch(w.cover, held.cover))
  }

  /** The itinerary replaced by list, at ordinals 0..n-1. */
  function WithItinerary(tripCities: map<(Id, Id), int>, trip: Id, list: seq<Id>): map<(Id, Id), int> {
    map k | k in tripCities.Keys + Rows(trip, list) && (k.0 == trip ==> k.1 in list) ::
      if k.0 == trip then Position(list, k.1) else tripCities[k]
  }

  function Rows(trip: Id, list: seq<Id>): (rows: set<(Id, Id)>)
    ensures forall k :: k in rows <==> k.0 == trip && k.1 in list
  {
    set c | c in list :: (trip, c)
  }

  function ApplyPutTrip(log: Log, id: Id, w: TripWrite): Outcome {
    var refusal := TripRefusal(log, id, w);
    if refusal.Some? then Refused(refusal.value)
    else Committed(log.(trips := log.trips[id := TripWritten(log, id, w)],
                        tripCities := if w.cityIds.Some? then WithItinerary(log.tripCities, id, w.cityIds.value)
                                      else log.tripCities))
  }

  /** The row goes, and with it everything the trip's foreign keys cascade to; another trip's photograph
      filed to one of its visits loses visit_id and nothing else. */
  function WithoutTrip(log: Log, id: Id): Log {
    var goneVisits := VisitsOn(log.visits, id);
    log.(trips := log.trips - {id},
         tripCities := CitiesOfOthers(log.tripCities, id),
         visits := log.visits - goneVisits,
         photos := PhotosOfOthers(log.photos, id, goneVisits),
         walks := WalksOfOthers(log.walks, id),
         links := LinksOfOthers(log.links, id))
  }

  function VisitsOn(visits: map<Id, VisitRow>, trip: Id): set<Id> {
    set v | v in visits && visits[v].trip == trip
  }

  function CitiesOfOthers(tripCities: map<(Id, Id), int>, trip: Id): map<(Id, Id), int> {
    map k | k in tripCities && k.0 != trip :: tripCities[k]
  }

  function PhotosOfOthers(photos: map<Id, PhotoRow>, trip: Id, gone: set<Id>): map<Id, PhotoRow> {
    map p | p in photos && photos[p].trip != trip :: Unvisited(photos[p], gone)
  }

  function WalksOfOthers(walks: map<Id, WalkRow>, trip: Id): map<Id, WalkRow> {
    map w | w in walks && walks[w].trip != trip :: walks[w]
  }

  function LinksOfOthers(links: map<string, LinkRow>, trip: Id): map<string, LinkRow> {
    map k | k in links && links[k].trip != trip :: links[k]
  }

  /** ON DELETE SET NULL (visit_id). */
  function Unvisited(p: PhotoRow, gone: set<Id>): PhotoRow {
    if p.visit.Some? && p.visit.value in gone then p.(visit := None) else p
  }

  /** ON DELETE SET NULL (place_id). */
  function Unplaced(p: PhotoRow, place: Id): PhotoRow {
    if p.place == Some(place) then p.(place := None) else p
  }

  function ApplyDeleteTrip(log: Log, id: Id): Outcome {
    if id in log.trips then Committed(WithoutTrip(log, id)) else Refused(NothingThere)
  }

  // ---- cities

  function CityRefusal(log: Log, id: Id, w: CityWrite): Option<Refusal> {
    var create := id !in log.cities;
    if create && w.name.None? then Some(Field("name"))
    else if create && w.country.None? then Some(Field("country"))
    else if create && w.centre.None? then Some(Field("centre"))
    else if !CoverResolves(log.media, Value(w.cover)) then Some(Field("coverAsset"))
    else if w.attachTo.Some? && w.attachTo.value !in log.trips then Some(Field("attachTo"))
    else None
  }

  function CityWritten(log: Log, id: Id, w: CityWrite): CityRow
    requires id in log.cities || (w.name.Some? && w.country.Some? && w.centre.Some?)
  {
    if id !in log.cities then CityRow(w.name.value, w.country.value, w.centre.value, Value(w.cover))
    else
      var held := log.cities[id];
      CityRow(Patch(w.name, held.name), Patch(w.country, held.country), Patch(w.centre, held.centre),
              Patch(w.cover, held.cover))
  }

  /** Appended after the last ordinal, or left alone if the trip already holds the city. */
  function Attached(tripCities: map<(Id, Id), int>, trip: Id, city: Id): map<(Id, Id), int> {
    if (trip, city) in tripCities then tripCities
    else tripCities[(trip, city) := MaxCityOrdinal(tripCities, trip) + 1]
  }

  function ApplyPutCity(log: Log, id: Id, w: CityWrite): Outcome {
    var refusal := CityRefusal(log, id, w);
    if refusal.Some? then Refused(refusal.value)
    else Committed(log.(cities := log.cities[id := CityWritten(log, id, w)],
                        tripCities := if w.attachTo.Some? then Attached(log.tripCities, w.attachTo.value, id)
                                      else log.tripCities))
  }

  // ---- places and their visits

  function PlaceRefusal(log: Log, id: Id, w: PlaceWrite): Option<Refusal> {
    var create := id !in log.places;
    if create && w.city.None? then Some(Field("cityId"))
    else if create && w.name.None? then Some(Field("name"))
    else if create && w.coordinates.None? then Some(Field("coordinates"))
    else if Patch(w.city, if create then "" else log.places[id].city) !in log.cities then Some(Field("cityId"))
    else if !CoverResolves(log.media, Value(w.cover)) then Some(Field("coverAsset"))
    else if w.visits.Some? && !VisitsWritable(log, id, w.visits.value) then Some(Field("visits"))
    else None
  }

  /** An empty array at a place that holds occasions is refused; otherwise every trip exists, no id belongs
      to another place, and no photograph is filed to a visit the array leaves out. */
  predicate VisitsWritable(log: Log, place: Id, sent: seq<SentVisit>) {
    if sent == [] then VisitsAt(log.visits, place) == {}
    else TripsPresent(log, sent) && NoneHeldElsewhere(log, place, sent) && NoneOccupiedDeparts(log, place, sent)
  }

  predicate TripsPresent(log: Log, sent: seq<SentVisit>) {
    forall i | 0 <= i < |sent| :: sent[i].trip in log.trips
  }

  predicate NoneHeldElsewhere(log: Log, place: Id, sent: seq<SentVisit>) {
    forall i | 0 <= i < |sent| && sent[i].id in log.visits :: log.visits[sent[i].id].place == place
  }

  predicate NoneOccupiedDeparts(log: Log, place: Id, sent: seq<SentVisit>) {
    forall p | p in log.photos && log.photos[p].visit.Some? ::
      var v := log.photos[p].visit.value;
      v in log.visits && log.visits[v].place == place ==> v in SentIds(sent)
  }

  function PlaceWritten(log: Log, id: Id, w: PlaceWrite): PlaceRow
    requires id in log.places || (w.city.Some? && w.name.Some? && w.coordinates.Some?)
  {
    if id !in log.places then
      PlaceRow(w.city.value, w.name.value, w.coordinates.value, Value(w.plan), Value(w.cover))
    else
      var held := log.places[id];
      PlaceRow(Patch(w.city, held.city), Patch(w.name, held.name), Patch(w.coordinates, held.at),
               Patch(w.plan, held.plan), Patch(w.cover, held.cover))
  }

  function RowOf(place: Id, sent: seq<SentVisit>, i: nat): VisitRow
    requires i < |sent|
  {
    VisitRow(place, sent[i].trip, i, sent[i].at, sent[i].note)
  }

  /** The place's visits become exactly the sent array, at ordinals 0..n-1; every other place's are as they were. */
  function Rewritten(visits: map<Id, VisitRow>, place: Id, sent: seq<SentVisit>): map<Id, VisitRow> {
    var ids := SentIds(sent);
    map v | v in (visits.Keys - VisitsAt(visits, place)) + (set x | x in ids) ::
      if v in ids then RowOf(place, sent, Position(ids, v)) else visits[v]
  }

  function ApplyPutPlace(log: Log, id: Id, w: PlaceWrite): Outcome {
    var refusal := PlaceRefusal(log, id, w);
    if refusal.Some? then Refused(refusal.value)
    else Committed(log.(places := log.places[id := PlaceWritten(log, id, w)],
                        visits := if w.visits.Some? then Rewritten(log.visits, id, w.visits.value) else log.visits))
  }

  /** The pin goes, its visits cascade, and the photographs filed there lose both columns. */
  function WithoutPlace(log: Log, id: Id): Log {
    var goneVisits := VisitsAt(log.visits, id);
    log.(places := log.places - {id},
         visits := log.visits - goneVisits,
         photos := map p | p in log.photos :: Unplaced(Unvisited(log.photos[p], goneVisits), id))
  }

  function WithoutPhotosAt(log: Log, id: Id): Log {
    log.(photos := map p | p in log.photos && log.photos[p].place != Some(id) :: log.photos[p])
  }

  function ApplyRemovePlace(log: Log, id: Id, photos: Disposition): Outcome {
    if id !in log.places then Refused(NothingThere)
    else Committed(WithoutPlace(if photos.DeletePhotos? then WithoutPhotosAt(log, id) else log, id))
  }

  // ---- photographs

  function PhotoRefusal(log: Log, id: Id, w: PhotoWrite): Option<Refusal> {
    var create := id !in log.photos;
    if create && w.trip.None? then Some(Field("tripId"))
    else if create && w.city.None? then Some(Field("cityId"))
    else if create && w.takenAt.None? then Some(Field("takenAt"))
    else if create && w.asset.None? then Some(Field("asset"))
    else if Patch(w.trip, if create then "" else log.photos[id].trip) !in log.trips then Some(Field("tripId"))
    else if Patch(w.city, if create then "" else log.photos[id].city) !in log.cities then Some(Field("cityId"))
    else if w.asset.Some? && !Uploaded(log.media, w.asset.value) then Some(Field("asset"))
    else None
  }

  /** The caption is stored trimmed, and null rather than empty. */
  function StoredCaption(sent: Option<Option<string>>): Option<string> {
    var caption := Value(sent);
    if caption.None? || Text.TrimSpace(caption.value) == "" then None else Some(Text.TrimSpace(caption.value))
  }

  /** place_id and visit_id are not on this body: an update keeps them, a create has neither. */
  function PhotoWritten(log: Log, id: Id, w: PhotoWrite): PhotoRow
    requires id in log.photos || (w.trip.Some? && w.city.Some? && w.takenAt.Some? && w.asset.Some?)
  {
    if id !in log.photos then
      PhotoRow(w.trip.value, w.city.value, None, None, w.takenAt.value, w.asset.value, StoredCaption(w.caption),
               Value(w.coordinates), Value(w.accuracy), Value(w.filedLater))
    else
      var held := log.photos[id];
      PhotoRow(Patch(w.trip, held.trip), Patch(w.city, held.city), held.place, held.visit,
               Patch(w.takenAt, held.takenAt), Patch(w.asset, held.asset),
               if w.caption.Some? then StoredCaption(w.caption) else held.caption,
               Patch(w.coordinates, held.coordinates), Patch(w.accuracy, held.accuracy),
               Patch(w.filedLater, held.filedLater))
  }

  function ApplyPutPhoto(log: Log, id: Id, w: PhotoWrite): Outcome {
    var refusal := PhotoRefusal(log, id, w);
    if refusal.Some? then Refused(refusal.value)
    else Committed(log.(photos := log.photos[id := PhotoWritten(log, id, w)]))
  }

  function ApplyDeletePhoto(log: Log, id: Id): Outcome {
    if id in log.photos then Committed(log.(photos := log.photos - {id})) else Refused(NothingThere)
  }

  function Snoozed(photos: map<Id, PhotoRow>, ids: seq<Id>, until: int): map<Id, PhotoRow> {
    map p | p in photos :: if p in ids then photos[p].(filedLater := Some(until)) else photos[p]
  }

  function ApplySnooze(log: Log, ids: seq<Id>, until: int): Outcome {
    if !exists p :: p in ids && p in log.photos then Refused(NothingThere)
    else Committed(log.(photos := Snoozed(log.photos, ids, until)))
  }

  function RefileRefusal(log: Log, id: Id, place: Id, visit: Id, at: Option<int>): Option<Refusal> {
    if id !in log.photos then Some(NoPhoto)
    else if place !in log.places then Some(Field("placeId"))
    else if log.places[place].city != log.photos[id].city then Some(Field("placeId"))
    else if visit !in log.visits && at.None? then Some(Field("visitAt"))
    else if visit in log.visits && log.visits[visit].place != place then Some(Field("visitId"))
    else if visit in log.visits && log.visits[visit].trip != log.photos[id].trip then Some(Field("visitId"))
    else None
  }

  /** ORDER BY at DESC. */
  function NewestFirst(visits: map<Id, VisitRow>): map<Id, int> {
    map v | v in visits :: -visits[v].at
  }

  function Renumbered(visits: map<Id, VisitRow>, place: Id): map<Id, VisitRow> {
    var order := Listing(VisitsAt(visits, place), NewestFirst(visits));
    map v | v in visits ::
      if visits[v].place == place then visits[v].(ordinal := Position(order, v)) else visits[v]
  }

  /** The occasion the client minted, opened above every ordinal the place holds, then renumbered in. */
  function WithOccasion(visits: map<Id, VisitRow>, place: Id, visit: Id, trip: Id, at: int): map<Id, VisitRow> {
    Renumbered(visits[visit := VisitRow(place, trip, MaxOrdinal(visits, place) + 1, at, None)], place)
  }

  function ApplyRefile(log: Log, id: Id, place: Id, visit: Id, at: Option<int>): Outcome {
    var refusal := RefileRefusal(log, id, place, visit, at);
    if refusal.Some? then Refused(refusal.value)
    else Committed(log.(photos := log.photos[id := log.photos[id].(place := Some(place), visit := Some(visit))],
                        visits := if visit in log.visits then log.visits
                                  else WithOccasion(log.visits, place, visit, log.photos[id].trip, at.value)))
  }

  // ---- walks

  function WalkRefusal(log: Log, id: Id, w: WalkWrite): Option<Refusal> {
    var create := id !in log.walks;
    if create && w.trip.None? then Some(Field("tripId"))
    else if create && w.city.None? then Some(Field("cityId"))
    else if create && w.recordedOn.None? then Some(Field("recordedOn"))
    else if create && w.distanceKm.None? then Some(Field("distanceKm"))
    else if create && w.points.None? then Some(Field("points"))
    else if Patch(w.trip, if create then "" else log.walks[id].trip) !in log.trips then Some(Field("tripId"))
    else if Patch(w.city, if create then "" else log.walks[id].city) !in log.cities then Some(Field("cityId"))
    else None
  }

  function StoredWalkName(sent: Option<Option<string>>): Option<string> {
    var name := Value(sent);
    if name.None? then None else Some(Text.TrimSpace(name.value))
  }

  function WalkWritten(log: Log, id: Id, w: WalkWrite): WalkRow
    requires id in log.walks
             || (w.trip.Some? && w.city.Some? && w.recordedOn.Some? && w.distanceKm.Some? && w.points.Some?)
  {
    if id !in log.walks then
      WalkRow(w.trip.value, w.city.value, Midnight(w.recordedOn.value), w.distanceKm.value, w.points.value,
              StoredWalkName(w.name), w.dismissed == Some(true))
    else
      var held := log.walks[id];
      WalkRow(Patch(w.trip, held.trip), Patch(w.city, held.city),
              if w.recordedOn.Some? then Midnight(w.recordedOn.value) else held.recordedOn,
              Patch(w.distanceKm, held.distanceKm), Patch(w.points, held.points),
              if w.name.Some? then StoredWalkName(w.name) else held.name, Patch(w.dismissed, held.dismissed))
  }

  function ApplyPutWalk(log: Log, id: Id, w: WalkWrite): Outcome {
    var refusal := WalkRefusal(log, id, w);
    if refusal.Some? then Refused(refusal.value)
    else Committed(log.(walks := log.walks[id := WalkWritten(log, id, w)]))
  }

  // ---- the traveller's name and the share switches

  const MAX_NAME_BYTES := 200

  function ApplySetName(log: Log, name: string): Outcome {
    var trimmed := Text.TrimSpace(name);
    if trimmed == "" || |trimmed| > MAX_NAME_BYTES then Refused(Field("name"))
    else Committed(log.(name := Some(trimmed)))
  }

  function ApplySetShareOptions(log: Log, id: Id, w: ShareWrite): Outcome {
    if id !in log.trips then Refused(NoTrip)
    else
      var held := log.trips[id];
      Committed(log.(trips := log.trips[id := held.(sharePhotos := Patch(w.photos, held.sharePhotos),
                                                   shareNotes := Patch(w.notes, held.shareNotes),
                                                   shareCoordinates := Patch(w.coordinates, held.shareCoordinates))]))
  }

  function Revoked(links: map<string, LinkRow>, trip: Id): map<string, LinkRow> {
    map k | k in links :: if links[k].trip == trip then links[k].(revoked := true) else links[k]
  }

  function ApplyNewShareLink(log: Log, id: Id, token: string): Outcome {
    if id !in log.trips then Refused(NoTrip)
    else if token in log.links then Refused(TokenTaken)
    else Committed(log.(links := Revoked(log.links, id)[token := LinkRow(id, false)]))
  }

  function ApplyStopSharing(log: Log, id: Id): Outcome {
    if id !in log.trips then Refused(NoTrip)
    else Committed(log.(links := Revoked(log.links, id),
                        trips := log.trips[id := log.trips[id].(sharePhotos := true, shareNotes := true,
                                                                shareCoordinates := false)]))
  }

  /** The body of WithTravellerTx for each operation. */
  function Apply(log: Log, op: Op): Outcome {
    match op
    case PutTrip(id, w) => ApplyPutTrip(log, id, w)
    case PutCity(id, w) => ApplyPutCity(log, id, w)
    case PutPlace(id, w) => ApplyPutPlace(log, id, w)
    case RemovePlace(id, photos) => ApplyRemovePlace(log, id, photos)
    case PutPhoto(id, w) => ApplyPutPhoto(log, id, w)
    case DeletePhoto(id) => ApplyDeletePhoto(log, id)
    case SnoozePhotos(ids, until) => ApplySnooze(log, ids, until)
    case RefilePhoto(id, place, visit, at) => ApplyRefile(log, id, place, visit, at)
    case PutWalk(id, w) => ApplyPutWalk(log, id, w)
    case DeleteTrip(id) => ApplyDeleteTrip(log, id)
    case SetTravellerName(name) => ApplySetName(log, name)
    case SetShareOptions(id, w) => ApplySetShareOptions(log, id, w)
    case NewShareLink(id, token) => ApplyNewShareLink(log, id, token)
    case StopSharing(id) => ApplyStopSharing(log, id)
  }
}
