/** What a write answers, and why a client at the previous version may splice the answer in. */
module Splicing {
  import opened Options
  import opened Ordering
  import opened Tables
  import opened Writes
  import opened Documents

  datatype Answer =
    | BareTrip(trip: Trip) | BareCity(city: City) | BarePlace(place: Place) | BarePhoto(photo: Photo)
    | BareWalk(walk: Walk) | Named(name: string) | Photos(photos: seq<Photo>) | Whole(document: Document)
    | Gone(id: Id)

  predicate Present(log: Log, op: Op) {
    match op
    case PutTrip(id, _) => id in log.trips
    case SetShareOptions(id, _) => id in log.trips
    case NewShareLink(id, _) => id in log.trips
    case StopSharing(id) => id in log.trips
    case PutCity(id, _) => id in log.cities
    case PutPlace(id, _) => id in log.places
    case PutPhoto(id, _) => id in log.photos
    case RefilePhoto(id, _, _, _) => id in log.photos
    case PutWalk(id, _) => id in log.walks
    case SetTravellerName(_) => log.name.Some?
    case _ => true
  }

  function TripKey(t: Trip): Id { t.id }
  function CityKey(c: City): Id { c.id }
  function PlaceKey(p: Place): Id { p.id }
  function PhotoKey(p: Photo): Id { p.id }
  function WalkKey(w: Walk): Id { w.id }

  /** The rows a snooze moved, in id order. */
  function Moved(photos: map<Id, PhotoRow>, ids: seq<Id>): seq<Photo> {
    InIdOrder(MovedTable(photos, ids))
  }

  function MovedTable(photos: map<Id, PhotoRow>, ids: seq<Id>): map<Id, Photo> {
    map p | p in photos && p in ids :: Photo(p, photos[p])
  }

  /** More than one entity moved, or may have: the write answers the whole log. */
  predicate AnswersWhole(before: Log, op: Op) {
    match op
    case PutCity(_, w) => w.attachTo.Some?
    case RefilePhoto(_, _, visit, _) => visit !in before.visits
    case RemovePlace(_, _) => true
    case DeleteTrip(_) => true
    case _ => false
  }

  /** The written entity, read back inside the transaction. */
  function BareAnswer(op: Op, after: Log): Answer
    requires Present(after, op)
  {
    match op
    case PutTrip(id, _) => BareTrip(TripOf(after, id))
    case SetShareOptions(id, _) => BareTrip(TripOf(after, id))
    case NewShareLink(id, token) => BareTrip(TripOf(after, id).(shareLinkId := Some(token)))
    case StopSharing(id) => BareTrip(TripOf(after, id))
    case PutCity(id, w) => BareCity(CityFrom(id, after.cities[id]))
    case PutPlace(id, _) => BarePlace(PlaceOf(after, id))
    case PutPhoto(id, _) => BarePhoto(Photo(id, after.photos[id]))
    case RefilePhoto(id, _, visit, _) => BarePhoto(Photo(id, after.photos[id]))
    case PutWalk(id, _) => BareWalk(Walk(id, after.walks[id]))
    case SetTravellerName(_) => Named(after.name.value)
    case SnoozePhotos(ids, _) => Photos(Moved(after.photos, ids))
    case DeletePhoto(id) => Gone(id)
    case RemovePlace(id, _) => Gone(id)
    case DeleteTrip(id) => Gone(id)
  }

  function AnswerTo(before: Log, op: Op, after: Log): Answer
    requires Present(after, op)
  {
    if AnswersWhole(before, op) then Whole(DocumentOf(after)) else BareAnswer(op, after)
  }

  function SpliceAll<T>(key: T -> Id, list: seq<T>, es: seq<T>): seq<T>
    decreases |es|
  {
    if es == [] then list else SpliceAll(key, Splice(key, list, es[0]), es[1..])
  }

  function Without(list: seq<Photo>, id: Id): seq<Photo> {
    if list == [] then [] else (if list[0].id == id then [] else [list[0]]) + Without(list[1..], id)
  }

  /** The client's side: each answer folded into the document it already holds. */
  function Spliced(doc: Document, answer: Answer): Document {
    match answer
    case BareTrip(t) => doc.(trips := Splice(TripKey, doc.trips, t))
    case BareCity(c) => doc.(cities := Splice(CityKey, doc.cities, c))
    case BarePlace(p) => doc.(places := Splice(PlaceKey, doc.places, p))
    case BarePhoto(p) => doc.(photos := Splice(PhotoKey, doc.photos, p))
    case BareWalk(w) => doc.(walks := Splice(WalkKey, doc.walks, w))
    case Named(name) => doc.(traveller := Some(name))
    case Photos(ps) => doc.(photos := SpliceAll(PhotoKey, doc.photos, ps))
    case Gone(id) => doc.(photos := Without(doc.photos, id))
    case Whole(d) => d
  }

  // ---- splicing a document is writing rows

  /** Every row is filed under its own id. */
  ghost predicate Keyed(s: Sheets) {
    && (forall x | x in s.trips :: TripKey(s.trips[x]) == x)
    && (forall x | x in s.cities :: CityKey(s.cities[x]) == x)
    && (forall x | x in s.places :: PlaceKey(s.places[x]) == x)
    && (forall x | x in s.photos :: PhotoKey(s.photos[x]) == x)
    && (forall x | x in s.walks :: WalkKey(s.walks[x]) == x)
  }

  ghost function WriteAll<T>(key: T -> Id, table: map<Id, T>, es: seq<T>): map<Id, T>
    decreases |es|
  {
    if es == [] then table else WriteAll(key, table[key(es[0]) := es[0]], es[1..])
  }

  /** The rows an answer writes. A whole-log answer writes none: it is the document. */
  ghost function Written(s: Sheets, answer: Answer): Sheets {
    match answer
    case BareTrip(t) => s.(trips := s.trips[t.id := t])
    case BareCity(c) => s.(cities := s.cities[c.id := c])
    case BarePlace(p) => s.(places := s.places[p.id := p])
    case BarePhoto(p) => s.(photos := s.photos[p.id := p])
    case BareWalk(w) => s.(walks := s.walks[w.id := w])
    case Named(name) => s.(traveller := Some(name))
    case Photos(ps) => s.(photos := WriteAll(PhotoKey, s.photos, ps))
    case Gone(id) => s.(photos := s.photos - {id})
    case Whole(d) => s
  }

  lemma {:induction false} SpliceAllAreRowWrites<T>(key: T -> Id, table: map<Id, T>, es: seq<T>)
    requires forall x | x in table :: key(table[x]) == x
    ensures InIdOrder(WriteAll(key, table, es)) == SpliceAll(key, InIdOrder(table), es)
    decreases |es|
  {
    if es != [] {
      SpliceIsARowWrite(key, table, es[0]);
      SpliceAllAreRowWrites(key, table[key(es[0]) := es[0]], es[1..]);
    }
  }

  lemma {:induction false} WithoutMembers(list: seq<Photo>, id: Id)
    requires Ascending(PhotoKey, list)
    ensures forall x | x in Without(list, id) :: x in list && x.id != id
    ensures forall x | x in list && x.id != id :: x in Without(list, id)
    ensures Ascending(PhotoKey, Without(list, id))
  {
    if list != [] {
      HeadIsBelow(PhotoKey, list);
      WithoutMembers(list[1..], id);
      assert list == [list[0]] + list[1..];
      if list[0].id != id {
        var rest := Without(list[1..], id);
        assert forall x | x in rest :: x in list[1..];
        AscendingCons(PhotoKey, list[0], rest);
      }
    }
  }

  lemma WithoutIsARowDelete(table: map<Id, Photo>, id: Id)
    requires forall x | x in table :: PhotoKey(table[x]) == x
    ensures InIdOrder(table - {id}) == Without(InIdOrder(table), id)
  {
    InIdOrderIsTheTable(PhotoKey, table);
    WithoutMembers(InIdOrder(table), id);
    OnlyInIdOrder(PhotoKey, table - {id}, Without(InIdOrder(table), id));
  }

  lemma GeographyIsRendered(s: Sheets, answer: Answer)
    requires Keyed(s) && (answer.BareTrip? || answer.BareCity? || answer.BarePlace?)
    ensures Spliced(Render(s), answer) == Render(Written(s, answer))
  {
    match answer
    case BareTrip(t) => SpliceIsARowWrite(TripKey, s.trips, t);
    case BareCity(c) => SpliceIsARowWrite(CityKey, s.cities, c);
    case BarePlace(p) => SpliceIsARowWrite(PlaceKey, s.places, p);
  }

  lemma SnoozedAreRendered(s: Sheets, ps: seq<Photo>)
    requires Keyed(s)
    ensures Spliced(Render(s), Photos(ps)) == Render(Written(s, Photos(ps)))
  {
    SpliceAllAreRowWrites(PhotoKey, s.photos, ps);
  }

  lemma GoneIsRendered(s: Sheets, id: Id)
    requires Keyed(s)
    ensures Spliced(Render(s), Gone(id)) == Render(Written(s, Gone(id)))
  {
    WithoutIsARowDelete(s.photos, id);
  }

  lemma SplicedIsRendered(s: Sheets, answer: Answer)
    requires Keyed(s) && !answer.Whole?
    ensures Spliced(Render(s), answer) == Render(Written(s, answer))
  {
    match answer
    case BareWalk(w) => SpliceIsARowWrite(WalkKey, s.walks, w);
    case Named(name) =>
    case BarePhoto(p) => SpliceIsARowWrite(PhotoKey, s.photos, p);
    case Photos(ps) => SnoozedAreRendered(s, ps);
    case Gone(id) => GoneIsRendered(s, id);
    case _ => GeographyIsRendered(s, answer);
  }

  lemma SheetsAreKeyed(log: Log)
    ensures Keyed(SheetsOf(log))
  {
  }

  lemma CommittedIsPresent(log: Log, op: Op)
    requires Apply(log, op).Committed?
    ensures Present(Apply(log, op).log, op)
  {
  }

  // ---- the ordered children of everything the write did not name

  lemma ItinerariesElsewhere(tripCities: map<(Id, Id), int>, trip: Id, list: seq<Id>, other: Id)
    requires other != trip
    ensures CityIds(WithItinerary(tripCities, trip, list), other) == CityIds(tripCities, other)
  {
    assert CityOrdinals(WithItinerary(tripCities, trip, list), other) == CityOrdinals(tripCities, other);
  }

  /** The order of a place's visits depends on that place's rows alone. */
  lemma VisitsOfDependOnThePlace(a: map<Id, VisitRow>, b: map<Id, VisitRow>, place: Id)
    requires VisitsAt(a, place) == VisitsAt(b, place)
    requires forall v | v in VisitsAt(a, place) :: a[v] == b[v]
    ensures VisitsOf(a, place) == VisitsOf(b, place)
  {
    var s := VisitsAt(a, place);
    ListingDependsOnOrderOnly(s, Ordinals(a), Ordinals(b));
    assert forall v | v in VisitIds(a, place) :: v in s;
  }

  lemma VisitsElsewhere(log: Log, place: Id, sent: seq<SentVisit>, other: Id)
    requires VisitsWritable(log, place, sent) && other != place
    ensures VisitsOf(Rewritten(log.visits, place, sent), other) == VisitsOf(log.visits, other)
  {
    var after := Rewritten(log.visits, place, sent);
    assert forall v | v in SentIds(sent) && v in log.visits :: log.visits[v].place == place;
    assert VisitsAt(after, other) == VisitsAt(log.visits, other);
    VisitsOfDependOnThePlace(log.visits, after, other);
  }

  function AsSent(place: Id, sent: seq<SentVisit>): seq<Visit> {
    seq(|sent|, i requires 0 <= i < |sent| => Visit(sent[i].id, place, sent[i].trip, sent[i].at, sent[i].note))
  }

  lemma RewrittenRows(visits: map<Id, VisitRow>, place: Id, sent: seq<SentVisit>)
    requires Distinct(SentIds(sent))
    ensures forall i | 0 <= i < |sent| ::
              sent[i].id in Rewritten(visits, place, sent)
              && Rewritten(visits, place, sent)[sent[i].id] == RowOf(place, sent, i)
    ensures VisitsAt(Rewritten(visits, place, sent), place) == set v | v in SentIds(sent)
  {
    var ids := SentIds(sent);
    forall i | 0 <= i < |sent|
      ensures sent[i].id in Rewritten(visits, place, sent)
              && Rewritten(visits, place, sent)[sent[i].id] == RowOf(place, sent, i)
    {
      assert ids[i] in ids && Position(ids, ids[i]) == i;
    }
  }

  /** Reading the place back by ordinal gives exactly the sent array, at ordinals 0..n-1. */
  lemma RewrittenReadsBack(visits: map<Id, VisitRow>, place: Id, sent: seq<SentVisit>)
    requires Distinct(SentIds(sent))
    ensures VisitIds(Rewritten(visits, place, sent), place) == SentIds(sent)
    ensures VisitsOf(Rewritten(visits, place, sent), place) == AsSent(place, sent)
  {
    var after := Rewritten(visits, place, sent);
    RewrittenRows(visits, place, sent);
    ListedByOrdinal(after, place, SentIds(sent));
  }

  /** Ids held at ordinals 0..n-1 are read back in that order. */
  lemma ListedByOrdinal(visits: map<Id, VisitRow>, place: Id, ids: seq<Id>)
    requires VisitsAt(visits, place) == set v | v in ids
    requires forall i | 0 <= i < |ids| :: ids[i] in visits && visits[ids[i]].ordinal == i
    ensures VisitIds(visits, place) == ids
  {
    var s := VisitsAt(visits, place);
    assert forall v :: v in ids <==> v in s;
    assert forall i | 0 <= i < |ids| :: ids[i] in ids && Ordinals(visits)[ids[i]] == i;
    assert IsListing(ids, s, Ordinals(visits));
    ListingIsUnique(ids, s, Ordinals(visits));
  }

  // ---- one entity moves, and the rest of the log does not

  /** Two keyed tables that agree everywhere but at one id differ by that row's write. */
  lemma OneRowWritten<T>(before: map<Id, T>, after: map<Id, T>, id: Id)
    requires after.Keys == before.Keys + {id}
    requires forall x | x in before && x != id :: after[x] == before[x]
    ensures after == before[id := after[id]]
  {
  }

  lemma TripTableWrite(a: Log, b: Log, id: Id)
    requires id in b.trips && b.trips.Keys == a.trips.Keys + {id}
    requires forall t | t in a.trips && t != id :: TripOf(b, t) == TripOf(a, t)
    ensures TripTable(b.trips, b.tripCities, b.links)
            == TripTable(a.trips, a.tripCities, a.links)[id := TripOf(b, id)]
  {
    TripTableRows(a);
    TripTableRows(b);
    OneRowWritten(TripTable(a.trips, a.tripCities, a.links), TripTable(b.trips, b.tripCities, b.links), id);
  }

  lemma TripTableRows(log: Log)
    ensures TripTable(log.trips, log.tripCities, log.links).Keys == log.trips.Keys
    ensures forall t | t in log.trips :: TripTable(log.trips, log.tripCities, log.links)[t] == TripOf(log, t)
  {
  }

  lemma PlaceTableRows(log: Log)
    ensures PlaceTable(log.places, log.visits).Keys == log.places.Keys
    ensures forall p | p in log.places :: PlaceTable(log.places, log.visits)[p] == PlaceOf(log, p)
  {
  }

  lemma PlaceTableWrite(a: Log, b: Log, id: Id)
    requires id in b.places && b.places.Keys == a.places.Keys + {id}
    requires forall p | p in a.places && p != id :: PlaceOf(b, p) == PlaceOf(a, p)
    ensures PlaceTable(b.places, b.visits) == PlaceTable(a.places, a.visits)[id := PlaceOf(b, id)]
  {
    PlaceTableRows(a);
    PlaceTableRows(b);
    OneRowWritten(PlaceTable(a.places, a.visits), PlaceTable(b.places, b.visits), id);
  }

  lemma PutTripWrites(log: Log, id: Id, w: TripWrite)
    requires ApplyPutTrip(log, id, w).Committed?
    ensures var after := ApplyPutTrip(log, id, w).log;
            SheetsOf(after) == Written(SheetsOf(log), BareTrip(TripOf(after, id)))
  {
    var after := ApplyPutTrip(log, id, w).log;
    forall t | t in log.trips && t != id ensures TripOf(after, t) == TripOf(log, t) {
      if w.cityIds.Some? { ItinerariesElsewhere(log.tripCities, id, w.cityIds.value, t); }
    }
    TripTableWrite(log, after, id);
  }

  lemma SharedElsewhere(links: map<string, LinkRow>, trip: Id, other: Id)
    requires other != trip
    ensures Shared(Revoked(links, trip), other) <==> Shared(links, other)
    ensures forall token | token !in links ::
              Shared(Revoked(links, trip)[token := LinkRow(trip, false)], other) <==> Shared(links, other)
  {
    var after := Revoked(links, trip);
    if Shared(links, other) {
      var k :| k in links && links[k].trip == other && !links[k].revoked;
      assert k in after && after[k].trip == other && !after[k].revoked;
      forall token | token !in links ensures Shared(after[token := LinkRow(trip, false)], other) {
        var live := after[token := LinkRow(trip, false)];
        assert k in live && live[k].trip == other && !live[k].revoked;
      }
    }
  }

  lemma ShareWrites(log: Log, op: Op)
    requires op.SetShareOptions? || op.NewShareLink? || op.StopSharing?
    requires Apply(log, op).Committed?
    ensures op.id in Apply(log, op).log.trips
    ensures var after := Apply(log, op).log;
            SheetsOf(after) == Written(SheetsOf(log), BareTrip(TripOf(after, op.id)))
  {
    var after := Apply(log, op).log;
    forall t | t in log.trips && t != op.id ensures TripOf(after, t) == TripOf(log, t) {
      SharedElsewhere(log.links, op.id, t);
    }
    TripTableWrite(log, after, op.id);
  }

  lemma PutPlaceWrites(log: Log, id: Id, w: PlaceWrite)
    requires ApplyPutPlace(log, id, w).Committed?
    ensures var after := ApplyPutPlace(log, id, w).log;
            SheetsOf(after) == Written(SheetsOf(log), BarePlace(PlaceOf(after, id)))
  {
    var after := ApplyPutPlace(log, id, w).log;
    forall p | p in log.places && p != id ensures PlaceOf(after, p) == PlaceOf(log, p) {
      if w.visits.Some? { VisitsElsewhere(log, id, w.visits.value, p); }
    }
    PlaceTableWrite(log, after, id);
  }

  lemma PutCityWrites(log: Log, id: Id, w: CityWrite)
    requires ApplyPutCity(log, id, w).Committed? && w.attachTo.None?
    ensures var after := ApplyPutCity(log, id, w).log;
            SheetsOf(after) == Written(SheetsOf(log), BareCity(CityFrom(id, after.cities[id])))
  {
    var after := ApplyPutCity(log, id, w).log;
    assert CityTable(after.cities) == CityTable(log.cities)[id := CityFrom(id, after.cities[id])];
  }

  lemma PutWalkWrites(log: Log, id: Id, w: WalkWrite)
    requires ApplyPutWalk(log, id, w).Committed?
    ensures var after := ApplyPutWalk(log, id, w).log;
            SheetsOf(after) == Written(SheetsOf(log), BareWalk(Walk(id, after.walks[id])))
  {
    WalkRowWrites(log, id, WalkWritten(log, id, w));
  }

  lemma WalkRowWrites(log: Log, id: Id, row: WalkRow)
    ensures SheetsOf(log.(walks := log.walks[id := row])) == Written(SheetsOf(log), BareWalk(Walk(id, row)))
  {
    assert WalkTable(log.walks[id := row]) == WalkTable(log.walks)[id := Walk(id, row)];
  }

  lemma PhotoRowWrites(log: Log, id: Id, row: PhotoRow)
    ensures SheetsOf(log.(photos := log.photos[id := row])) == Written(SheetsOf(log), BarePhoto(Photo(id, row)))
  {
    assert PhotoTable(log.photos[id := row]) == PhotoTable(log.photos)[id := Photo(id, row)];
  }

  /** Writing rows that all come from one target table, and cover every key where the two differ, lands on it. */
  lemma {:induction false} WriteAllReaches<T>(key: T -> Id, table: map<Id, T>, es: seq<T>, target: map<Id, T>)
    requires table.Keys == target.Keys
    requires forall i | 0 <= i < |es| :: key(es[i]) in target && target[key(es[i])] == es[i]
    requires forall x | x in target :: table[x] == target[x] || target[x] in es
    requires forall x | x in target :: key(target[x]) == x
    ensures WriteAll(key, table, es) == target
    decreases |es|
  {
    if es != [] {
      var next := table[key(es[0]) := es[0]];
      assert es == [es[0]] + es[1..];
      assert forall x | x in target :: next[x] == target[x] || target[x] in es[1..];
      WriteAllReaches(key, next, es[1..], target);
    }
  }

  lemma SnoozeWrites(log: Log, ids: seq<Id>, until: int)
    requires ApplySnooze(log, ids, until).Committed?
    ensures var after := ApplySnooze(log, ids, until).log;
            SheetsOf(after) == Written(SheetsOf(log), Photos(Moved(after.photos, ids)))
  {
    var photos := Snoozed(log.photos, ids, until);
    MovedRowsReach(log.photos, photos, ids);
    PhotosWritten(log, photos, Moved(photos, ids));
  }

  lemma PhotosWritten(log: Log, photos: map<Id, PhotoRow>, moved: seq<Photo>)
    requires WriteAll(PhotoKey, PhotoTable(log.photos), moved) == PhotoTable(photos)
    ensures SheetsOf(log.(photos := photos)) == Written(SheetsOf(log), Photos(moved))
  {
  }

  lemma MovedRowsReach(before: map<Id, PhotoRow>, after: map<Id, PhotoRow>, ids: seq<Id>)
    requires before.Keys == after.Keys && forall p | p in after && p !in ids :: after[p] == before[p]
    ensures WriteAll(PhotoKey, PhotoTable(before), Moved(after, ids)) == PhotoTable(after)
  {
    InIdOrderIsTheTable(PhotoKey, MovedTable(after, ids));
    MovedRowsCover(before, after, ids, Moved(after, ids));
    WriteAllReaches(PhotoKey, PhotoTable(before), Moved(after, ids), PhotoTable(after));
  }

  lemma MovedRowsCover(before: map<Id, PhotoRow>, after: map<Id, PhotoRow>, ids: seq<Id>, moved: seq<Photo>)
    requires before.Keys == after.Keys && forall p | p in after && p !in ids :: after[p] == before[p]
    requires forall e ::
               e in moved <==> PhotoKey(e) in MovedTable(after, ids) && MovedTable(after, ids)[PhotoKey(e)] == e
    ensures forall i | 0 <= i < |moved| ::
              PhotoKey(moved[i]) in PhotoTable(after) && PhotoTable(after)[PhotoKey(moved[i])] == moved[i]
    ensures forall x | x in PhotoTable(after) ::
              PhotoTable(before)[x] == PhotoTable(after)[x] || PhotoTable(after)[x] in moved
  {
    forall i | 0 <= i < |moved|
      ensures PhotoKey(moved[i]) in PhotoTable(after) && PhotoTable(after)[PhotoKey(moved[i])] == moved[i]
    {
      assert moved[i] in moved;
    }
    forall x | x in PhotoTable(after)
      ensures PhotoTable(before)[x] == PhotoTable(after)[x] || PhotoTable(after)[x] in moved
    {
      if x in ids { assert PhotoKey(PhotoTable(after)[x]) in MovedTable(after, ids); }
    }
  }

  lemma DeletePhotoWrites(log: Log, id: Id)
    requires id in log.photos
    ensures SheetsOf(ApplyDeletePhoto(log, id).log) == Written(SheetsOf(log), Gone(id))
  {
    assert PhotoTable(log.photos - {id}) == PhotoTable(log.photos) - {id};
  }

  /** A write that does not answer the whole log changes only the rows its answer names. */
  lemma AnswerNamesWhatMoved(log: Log, op: Op)
    requires Apply(log, op).Committed? && !op.NewShareLink? && !AnswersWhole(log, op)
    ensures Present(Apply(log, op).log, op)
    ensures var after := Apply(log, op).log; SheetsOf(after) == Written(SheetsOf(log), BareAnswer(op, after))
  {
    CommittedIsPresent(log, op);
    match op
    case PutTrip(_, _) => TripOpWrites(log, op);
    case SetShareOptions(_, _) => TripOpWrites(log, op);
    case StopSharing(_) => TripOpWrites(log, op);
    case PutPhoto(_, _) => PhotoOpWrites(log, op);
    case RefilePhoto(_, _, _, _) => PhotoOpWrites(log, op);
    case SnoozePhotos(_, _) => PhotoOpWrites(log, op);
    case DeletePhoto(_) => PhotoOpWrites(log, op);
    case _ => OtherOpWrites(log, op);
  }

  lemma TripOpWrites(log: Log, op: Op)
    requires op.PutTrip? || op.SetShareOptions? || op.StopSharing?
    requires Apply(log, op).Committed?
    requires Present(Apply(log, op).log, op)
    ensures var after := Apply(log, op).log; SheetsOf(after) == Written(SheetsOf(log), BareAnswer(op, after))
  {
    if op.PutTrip? { PutTripWrites(log, op.id, op.trip); } else { ShareWrites(log, op); }
  }

  lemma OtherOpWrites(log: Log, op: Op)
    requires op.PutPlace? || op.PutWalk? || op.PutCity? || op.SetTravellerName?
    requires Apply(log, op).Committed? && !AnswersWhole(log, op)
    requires Present(Apply(log, op).log, op)
    ensures var after := Apply(log, op).log; SheetsOf(after) == Written(SheetsOf(log), BareAnswer(op, after))
  {
    match op
    case PutPlace(id, w) => PutPlaceWrites(log, id, w);
    case PutWalk(id, w) => PutWalkWrites(log, id, w);
    case PutCity(id, w) => PutCityWrites(log, id, w);
    case SetTravellerName(name) => NameWrites(log, name);
  }

  lemma NameWrites(log: Log, name: string)
    requires ApplySetName(log, name).Committed?
    ensures var after := ApplySetName(log, name).log;
            after.name.Some? && SheetsOf(after) == Written(SheetsOf(log), Named(after.name.value))
  {
    NamedSheets(log, ApplySetName(log, name).log.name.value);
  }

  lemma NamedSheets(log: Log, name: string)
    ensures SheetsOf(log.(name := Some(name))) == Written(SheetsOf(log), Named(name))
  {
  }

  lemma PhotoOpWrites(log: Log, op: Op)
    requires op.PutPhoto? || op.RefilePhoto? || op.SnoozePhotos? || op.DeletePhoto?
    requires Apply(log, op).Committed? && !AnswersWhole(log, op)
    requires Present(Apply(log, op).log, op)
    ensures var after := Apply(log, op).log; SheetsOf(after) == Written(SheetsOf(log), BareAnswer(op, after))
  {
    match op
    case PutPhoto(id, w) => PhotoRowWrites(log, id, PhotoWritten(log, id, w));
    case RefilePhoto(id, place, visit, _) =>
      PhotoRowWrites(log, id, log.photos[id].(place := Some(place), visit := Some(visit)));
    case SnoozePhotos(ids, until) => SnoozeWrites(log, ids, until);
    case DeletePhoto(id) => DeletePhotoWrites(log, id);
  }

  lemma WholeIsTheDocument(before: Document, after: Document)
    ensures Spliced(before, Whole(after)) == after
  {
  }

  /** Whatever a write answers, a client holding the previous document and splicing the answer in holds
      exactly what a full read would now return. The one exception is the link just minted, whose token
      is told to the caller and never read back. */
  lemma EveryAnswerSplices(log: Log, op: Op)
    requires Apply(log, op).Committed? && !op.NewShareLink?
    ensures var after := Apply(log, op).log;
            Present(after, op) && DocumentOf(after) == Spliced(DocumentOf(log), AnswerTo(log, op, after))
  {
    CommittedIsPresent(log, op);
    var after := Apply(log, op).log;
    if AnswersWhole(log, op) {
      WholeIsTheDocument(DocumentOf(log), DocumentOf(after));
    } else {
      AnswerNamesWhatMoved(log, op);
      WrittenIsSpliced(log, after, BareAnswer(op, after));
    }
  }

  lemma WrittenIsSpliced(before: Log, after: Log, answer: Answer)
    requires !answer.Whole? && SheetsOf(after) == Written(SheetsOf(before), answer)
    ensures DocumentOf(after) == Spliced(DocumentOf(before), answer)
  {
    SheetsAreKeyed(before);
    SplicedIsRendered(SheetsOf(before), answer);
  }

  lemma SplicedTripIsThere(s: Sheets, t: Trip)
    requires Keyed(s)
    ensures t in Spliced(Render(s), BareTrip(t)).trips
    ensures forall u | u in Render(s).trips :: u.id in s.trips && s.trips[u.id] == u
  {
    InIdOrderIsTheTable(TripKey, s.trips);
    SpliceMembers(TripKey, Render(s).trips, t);
  }

  /** For a new link the spliced document differs from a full read in shareLinkId alone. */
  lemma NewLinkSplicesButForItsToken(log: Log, op: Op)
    requires op.NewShareLink? && Apply(log, op).Committed?
    ensures var after := Apply(log, op).log;
            && Present(after, op) && AnswerTo(log, op, after).BareTrip?
            && DocumentOf(after)
               == Spliced(DocumentOf(log), BareTrip(AnswerTo(log, op, after).trip.(shareLinkId := None)))
            && DocumentOf(after) != Spliced(DocumentOf(log), AnswerTo(log, op, after))
  {
    var after := Apply(log, op).log;
    ShareWrites(log, op);
    var answer := AnswerTo(log, op, after).trip;
    assert answer.(shareLinkId := None) == TripOf(after, op.id);
    SheetsAreKeyed(log);
    SheetsAreKeyed(after);
    WrittenIsSpliced(log, after, BareTrip(TripOf(after, op.id)));
    SplicedTripIsThere(SheetsOf(log), answer);
    SplicedTripIsThere(SheetsOf(after), answer);
    assert answer !in DocumentOf(after).trips;
  }
}
