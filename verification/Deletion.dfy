/** What deleting a trip leaves of everything that was not its own. */
module Deletion {
  import opened Ordering
  import opened Tables
  import opened Writes
  import opened PublicShare
  import opened Noninterference

  /** No row of any table names the trip any more. */
  ghost predicate Unnamed(log: Log, trip: Id) {
    && trip !in log.trips
    && (forall k | k in log.tripCities :: k.0 != trip)
    && (forall v | v in log.visits :: log.visits[v].trip != trip)
    && (forall p | p in log.photos :: log.photos[p].trip != trip)
    && (forall w | w in log.walks :: log.walks[w].trip != trip)
    && (forall k | k in log.links :: log.links[k].trip != trip)
  }

  /** Nothing names a deleted trip, and another trip's photograph survives with everything but its occasion, which
      it loses exactly when that was on the deleted trip. In a coherent log none loses any. */
  lemma OthersPhotosKeepTheirFilingExactly(log: Log, id: Id, p: Id)
    requires PairAgrees(log.photos, log.visits) && id in log.trips && p in log.photos && log.photos[p].trip != id
    ensures var after := ApplyDeleteTrip(log, id).log;
            var visit := log.photos[p].visit;
            && Unnamed(after, id)
            && p in after.photos && after.photos[p] == log.photos[p].(visit := after.photos[p].visit)
            && (after.photos[p] != log.photos[p] <==> visit.Some? && log.visits[visit.value].trip == id)
            && (Coherent(log) ==> after.photos[p] == log.photos[p])
  {
    if Coherent(log) { assert FiledWhole(log.photos[p], log.visits); }
  }

  // ---- the order of what stays

  function Staying(ids: seq<Id>, visits: map<Id, VisitRow>): seq<Id> {
    if ids == [] then []
    else (if ids[0] in visits then [ids[0]] else []) + Staying(ids[1..], visits)
  }

  lemma {:induction false} StayingMembers(ids: seq<Id>, visits: map<Id, VisitRow>)
    ensures forall x :: x in Staying(ids, visits) <==> x in ids && x in visits
  {
    if ids != [] {
      StayingMembers(ids[1..], visits);
      assert ids == [ids[0]] + ids[1..];
    }
  }

  /** The rows are in the order of this rank, each before the next. */
  ghost predicate Ranked(ids: seq<Id>, rank: map<Id, int>) {
    && (forall i | 0 <= i < |ids| :: ids[i] in rank)
    && (forall i, j | 0 <= i < j < |ids| :: Precedes(rank, ids[i], ids[j]))
  }

  lemma {:induction false} StayingKeepsRank(ids: seq<Id>, visits: map<Id, VisitRow>, rank: map<Id, int>)
    requires Ranked(ids, rank)
    ensures Ranked(Staying(ids, visits), rank)
  {
    if ids != [] {
      var rest := ids[1..];
      StayingKeepsRank(rest, visits, rank);
      StayingMembers(rest, visits);
      var kept := Staying(rest, visits);
      forall i | 0 <= i < |kept|
        ensures Precedes(rank, ids[0], kept[i])
      {
        assert kept[i] in kept;
        var j :| 0 <= j < |rest| && rest[j] == kept[i];
        assert ids[j + 1] == rest[j];
      }
    }
  }

  lemma VisitIdsAreRanked(visits: map<Id, VisitRow>, place: Id)
    ensures Ranked(VisitIds(visits, place), Ordinals(visits))
  {
    var ids := VisitIds(visits, place);
    assert forall i | 0 <= i < |ids| :: ids[i] in ids;
  }

  /** A place's visits on other trips are read back in the order they had, the deleted ones cut out. */
  lemma DeletedTripLeavesTheOrder(log: Log, id: Id, place: Id)
    requires id in log.trips
    ensures var after := ApplyDeleteTrip(log, id).log.visits;
            VisitIds(after, place) == Staying(VisitIds(log.visits, place), after)
  {
    var after := ApplyDeleteTrip(log, id).log.visits;
    var ids := VisitIds(log.visits, place);
    VisitIdsAreRanked(log.visits, place);
    StayingKeepsRank(ids, after, Ordinals(log.visits));
    StayingMembers(ids, after);
    var kept := Staying(ids, after);
    forall i, j | 0 <= i < j < |kept|
      ensures kept[i] in VisitsAt(after, place) && kept[j] in VisitsAt(after, place)
      ensures Precedes(Ordinals(after), kept[i], kept[j])
    {
      assert kept[i] in kept && kept[j] in kept;
      assert Precedes(Ordinals(log.visits), kept[i], kept[j]);
    }
    ListingIsUnique(kept, VisitsAt(after, place), Ordinals(after));
  }

  // ---- other pages

  lemma OtherCitiesStay(log: Log, id: Id, other: Id)
    requires other != id
    ensures CitiesOn(WithoutTrip(log, id), other) == CitiesOn(log, other)
  {
  }

  lemma OtherVisitsStay(log: Log, id: Id, other: Id)
    requires other != id
    ensures ShownVisits(WithoutTrip(log, id), other) == ShownVisits(log, other)
  {
  }

  lemma PlacesStayAlike(log: Log, id: Id, other: Id, t: TripRow)
    ensures PlacesAlike(log, WithoutTrip(log, id), other, t, t)
  {
  }

  lemma PhotosStayAlike(log: Log, id: Id, other: Id, t: TripRow)
    requires other != id
    ensures PhotosAlike(ShownPhotos(log, other, t), ShownPhotos(WithoutTrip(log, id), other, t), t, t)
  {
  }

  lemma WalksStayAlike(walks: map<Id, WalkRow>, id: Id, other: Id, t: TripRow)
    requires other != id
    ensures WalksAlike(WalkRows(walks, other), WalkRows(WalksOfOthers(walks, id), other), t, t)
  {
  }

  lemma OtherRowsAreAlike(log: Log, id: Id, other: Id, t: TripRow, after: Log)
    requires other != id && after == WithoutTrip(log, id)
    ensures CitiesAlike(log, after, other) && VisitsAlike(ShownVisits(log, other), ShownVisits(after, other), t, t)
    ensures PlacesAlike(log, after, other, t, t)
    ensures PhotosAlike(ShownPhotos(log, other, t), ShownPhotos(after, other, t), t, t)
    ensures WalksAlike(WalkRows(log.walks, other), WalkRows(after.walks, other), t, t)
  {
    OtherCitiesStay(log, id, other);
    SameCitiesAlike(log, after, other);
    OtherVisitsStay(log, id, other);
    SameVisitsAlike(ShownVisits(log, other), t, t);
    PlacesStayAlike(log, id, other, t);
    PhotosStayAlike(log, id, other, t);
    WalksStayAlike(log.walks, id, other, t);
  }

  lemma AlikeRowsAreAlike(a: Log, b: Log, trip: Id, t: TripRow)
    requires trip in a.trips && trip in b.trips && a.trips[trip] == b.trips[trip] == t
    requires CitiesAlike(a, b, trip) && VisitsAlike(ShownVisits(a, trip), ShownVisits(b, trip), t, t)
    requires PlacesAlike(a, b, trip, t, t)
    requires PhotosAlike(ShownPhotos(a, trip, t), ShownPhotos(b, trip, t), t, t)
    requires WalksAlike(WalkRows(a.walks, trip), WalkRows(b.walks, trip), t, t)
    ensures Alike(a, b, trip)
  {
  }

  lemma DeletedTripIsNotSeenElsewhere(log: Log, id: Id, other: Id)
    requires other != id
    ensures Alike(log, WithoutTrip(log, id), other)
  {
    if other in log.trips {
      OtherRowsAreAlike(log, id, other, log.trips[other], WithoutTrip(log, id));
      AlikeRowsAreAlike(log, WithoutTrip(log, id), other, log.trips[other]);
    }
  }

  /** The public page of every other trip stays, to the byte, what it was. */
  lemma DeletingATripChangesNoOtherPage(log: Log, id: Id, other: Id, mint: Mint)
    requires id in log.trips && other != id
    ensures PublicRead(ApplyDeleteTrip(log, id).log, other, mint) == PublicRead(log, other, mint)
  {
    DeletedTripIsNotSeenElsewhere(log, id, other);
    PublicReadRevealsNothingElse(log, ApplyDeleteTrip(log, id).log, other, mint);
  }
}
