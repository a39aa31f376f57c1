/** The two in-place ordinal rewrites, row by row. visits_place_ordinal_uq is checked on every row a statement
    touches, so what matters is not the table after the statement but after each row of it, in whatever
    order the rows are visited. */
module Parking {
  import opened Options
  import opened Ordering
  import opened Tables
  import opened Writes

  function IdSet(list: seq<Id>): set<Id> {
    set v | v in list
  }

  lemma MoveAcross(a: set<Id>, b: set<Id>, x: Id)
    requires x in b
    ensures (a + {x}) + (b - {x}) == a + b
  {
  }

  lemma IdSetGrows(list: seq<Id>, first: nat, end: nat)
    requires first <= end <= |list|
    ensures IdSet(list[..first]) + IdSet(list[first..end]) == IdSet(list[..end])
    ensures IdSet(list[..end]) <= IdSet(list)
    ensures IdSet(list[..0]) == {} && IdSet(list[..|list|]) == IdSet(list)
  {
    assert list[..end] == list[..first] + list[first..end];
    assert list[..|list|] == list;
  }

  /** GREATEST(count, max(ordinal) + 1): above every stored ordinal and every incoming one. */
  function Offset(visits: map<Id, VisitRow>, place: Id, count: nat): int {
    var above := MaxOrdinal(visits, place) + 1;
    if above > count then above else count
  }

  /** The parking UPDATE with the rows in done already moved. */
  function Parked(visits: map<Id, VisitRow>, place: Id, offset: int, done: set<Id>): map<Id, VisitRow> {
    map v | v in visits :: if v in done then ParkedRow(visits[v], place, offset) else visits[v]
  }

  function ParkedRow(row: VisitRow, place: Id, offset: int): VisitRow {
    if row.place == place then row.(ordinal := row.ordinal + offset) else row
  }

  ghost predicate Clear(visits: map<Id, VisitRow>, place: Id, offset: int) {
    forall v | v in visits && visits[v].place == place :: 0 <= visits[v].ordinal < offset
  }

  lemma OffsetClears(visits: map<Id, VisitRow>, place: Id, count: nat)
    requires OrdinalsNatural(visits)
    ensures Clear(visits, place, Offset(visits, place, count)) && Offset(visits, place, count) >= count
  {
    assert forall v | v in visits && visits[v].place == place :: v in VisitsAt(visits, place);
  }

  /** However far the parking has got, in any row order, no two visits of a place share an ordinal. */
  lemma ParkingNeverCollides(visits: map<Id, VisitRow>, place: Id, offset: int, done: set<Id>)
    requires OrdinalsUnique(visits) && Clear(visits, place, offset)
    ensures OrdinalsUnique(Parked(visits, place, offset, done))
  {
    var mid := Parked(visits, place, offset, done);
    forall v, w | v in mid && w in mid && v != w && mid[v].place == mid[w].place
      ensures mid[v].ordinal != mid[w].ordinal
    {
      assert visits[v].ordinal != visits[w].ordinal;
    }
  }

  lemma ParkOneMore(visits: map<Id, VisitRow>, place: Id, offset: int, done: set<Id>, id: Id)
    requires OrdinalsUnique(visits) && Clear(visits, place, offset)
    requires id in visits && visits[id].place == place && id !in done
    ensures var mid := Parked(visits, place, offset, done);
            && id in mid && mid[id].ordinal >= 0 && offset >= 0
            && mid[id := mid[id].(ordinal := mid[id].ordinal + offset)] == Parked(visits, place, offset, done + {id})
            && OrdinalsUnique(Parked(visits, place, offset, done + {id}))
  {
    ParkingNeverCollides(visits, place, offset, done + {id});
  }

  lemma AllParked(visits: map<Id, VisitRow>, place: Id, offset: int)
    ensures Parked(visits, place, offset, VisitsAt(visits, place)) == Parked(visits, place, offset, visits.Keys)
    ensures Parked(visits, place, offset, {}) == visits
  {
  }

  /** The upsert, across all its batches, with the rows in done already written over the parked table. */
  function Upserted(visits: map<Id, VisitRow>, place: Id, sent: seq<SentVisit>, offset: int,
                    done: set<Id>): map<Id, VisitRow>
    requires done <= IdSet(SentIds(sent))
  {
    map v | v in visits.Keys + done ::
      if v in done then RowOf(place, sent, Position(SentIds(sent), v)) else ParkedRow(visits[v], place, offset)
  }

  /** However many of the sent rows have been written, in any order and any batching, none has met another. */
  lemma UpsertingNeverCollides(visits: map<Id, VisitRow>, place: Id, sent: seq<SentVisit>, offset: int, done: set<Id>)
    requires OrdinalsUnique(visits) && Clear(visits, place, offset) && |sent| <= offset
    requires done <= IdSet(SentIds(sent))
    ensures OrdinalsUnique(Upserted(visits, place, sent, offset, done))
  {
    var parked := Parked(visits, place, offset, visits.Keys);
    ParkingNeverCollides(visits, place, offset, visits.Keys);
    var mid := Upserted(visits, place, sent, offset, done);
    forall v, w | v in mid && w in mid && v != w && mid[v].place == mid[w].place
      ensures mid[v].ordinal != mid[w].ordinal
    {
      if v in done && w in done {
        assert SentIds(sent)[Position(SentIds(sent), v)] == v && SentIds(sent)[Position(SentIds(sent), w)] == w;
      } else if v !in done && w !in done {
        assert parked[v].ordinal != parked[w].ordinal;
      }
    }
  }

  lemma UpsertOneMore(visits: map<Id, VisitRow>, place: Id, sent: seq<SentVisit>, offset: int, done: set<Id>, id: Id)
    requires done <= IdSet(SentIds(sent)) && id in SentIds(sent)
    ensures Upserted(visits, place, sent, offset, done)[id := RowOf(place, sent, Position(SentIds(sent), id))]
            == Upserted(visits, place, sent, offset, done + {id})
  {
  }

  /** What deleteDepartedVisitsSQL leaves. */
  function Kept(visits: map<Id, VisitRow>, place: Id, ids: seq<Id>): map<Id, VisitRow> {
    map v | v in visits && (visits[v].place != place || v in ids) :: visits[v]
  }

  lemma OneRowOfTheRewrite(visits: map<Id, VisitRow>, place: Id, sent: seq<SentVisit>, offset: int, v: Id)
    requires v in SentIds(sent) && v in visits ==> visits[v].place == place
    ensures var left := Kept(Upserted(visits, place, sent, offset, IdSet(SentIds(sent))), place, SentIds(sent));
            var target := Rewritten(visits, place, sent);
            (v in left <==> v in target) && (v in left ==> left[v] == target[v])
  {
  }

  /** Parking, writing every sent row, then deleting what the array left out is the rewrite. */
  lemma ThreePhasesRewrite(visits: map<Id, VisitRow>, place: Id, sent: seq<SentVisit>, offset: int)
    requires forall v | v in SentIds(sent) && v in visits :: visits[v].place == place
    ensures Kept(Upserted(visits, place, sent, offset, IdSet(SentIds(sent))), place, SentIds(sent))
            == Rewritten(visits, place, sent)
  {
    var left := Kept(Upserted(visits, place, sent, offset, IdSet(SentIds(sent))), place, SentIds(sent));
    var target := Rewritten(visits, place, sent);
    forall v ensures (v in left <==> v in target) && (v in left ==> left[v] == target[v]) {
      OneRowOfTheRewrite(visits, place, sent, offset, v);
    }
    assert left.Keys == target.Keys;
  }

  lemma NothingUpserted(visits: map<Id, VisitRow>, place: Id, sent: seq<SentVisit>, offset: int)
    ensures Upserted(visits, place, sent, offset, {}) == Parked(visits, place, offset, visits.Keys)
  {
  }

  /** The renumbering UPDATE with the rows in done already at their rank over the parked table. */
  function Ranked(visits: map<Id, VisitRow>, place: Id, order: seq<Id>, offset: int, done: set<Id>): map<Id, VisitRow>
    requires done <= IdSet(order)
  {
    map v | v in visits ::
      if visits[v].place != place then visits[v]
      else if v in done then visits[v].(ordinal := Position(order, v))
      else visits[v].(ordinal := visits[v].ordinal + offset)
  }

  lemma RankingNeverCollides(visits: map<Id, VisitRow>, place: Id, order: seq<Id>, offset: int, done: set<Id>)
    requires OrdinalsUnique(visits) && Clear(visits, place, offset) && |order| <= offset
    requires done <= IdSet(order)
    ensures OrdinalsUnique(Ranked(visits, place, order, offset, done))
  {
    var mid := Ranked(visits, place, order, offset, done);
    forall v, w | v in mid && w in mid && v != w && mid[v].place == mid[w].place
      ensures mid[v].ordinal != mid[w].ordinal
    {
      if v in done && w in done && visits[v].place == place {
        assert order[Position(order, v)] == v && order[Position(order, w)] == w;
      } else {
        assert visits[v].ordinal != visits[w].ordinal;
      }
    }
  }

  lemma RankOneMore(visits: map<Id, VisitRow>, place: Id, order: seq<Id>, offset: int, done: set<Id>, id: Id)
    requires OrdinalsUnique(visits) && Clear(visits, place, offset) && |order| <= offset
    requires done <= IdSet(order) && id in order && id in visits && visits[id].place == place
    ensures var mid := Ranked(visits, place, order, offset, done);
            var next := Ranked(visits, place, order, offset, done + {id});
            && id in mid && mid[id := mid[id].(ordinal := Position(order, id))] == next
            && OrdinalsUnique(next)
  {
    RankingNeverCollides(visits, place, order, offset, done + {id});
  }

  lemma RankingEnds(visits: map<Id, VisitRow>, place: Id, offset: int)
    ensures var order := Listing(VisitsAt(visits, place), NewestFirst(visits));
            && Ranked(visits, place, order, offset, {}) == Parked(visits, place, offset, visits.Keys)
            && IdSet(order) == VisitsAt(visits, place)
            && Ranked(visits, place, order, offset, IdSet(order)) == Renumbered(visits, place)
            && |order| == |VisitsAt(visits, place)|
  {
    ListingHasEachOnce(VisitsAt(visits, place), NewestFirst(visits));
  }

  /** row_number() over the parked rows is row_number() over the stored ones: parking moves ordinals only. */
  lemma ParkingKeepsTheRanking(visits: map<Id, VisitRow>, place: Id, offset: int)
    ensures var parked := Parked(visits, place, offset, visits.Keys);
            && VisitsAt(parked, place) == VisitsAt(visits, place)
            && Listing(VisitsAt(parked, place), NewestFirst(parked))
               == Listing(VisitsAt(visits, place), NewestFirst(visits))
  {
    var parked := Parked(visits, place, offset, visits.Keys);
    assert VisitsAt(parked, place) == VisitsAt(visits, place);
    assert NewestFirst(parked) == NewestFirst(visits);
  }

  /** What the parking is for: swapping two ordinals in place, with no parking, collides at the first row
      whichever row that is. */
  lemma WithoutParkingASwapCollides(place: Id, v: Id, w: Id, trip: Id)
    requires v != w
    ensures var visits := map[v := VisitRow(place, trip, 0, 0, None), w := VisitRow(place, trip, 1, 0, None)];
            && OrdinalsUnique(visits)
            && !OrdinalsUnique(visits[v := visits[v].(ordinal := 1)])
            && !OrdinalsUnique(visits[w := visits[w].(ordinal := 0)])
  {
    var visits := map[v := VisitRow(place, trip, 0, 0, None), w := VisitRow(place, trip, 1, 0, None)];
    var first := visits[v := visits[v].(ordinal := 1)];
    assert first[v].ordinal == first[w].ordinal && first[v].place == first[w].place;
    var second := visits[w := visits[w].(ordinal := 0)];
    assert second[v].ordinal == second[w].ordinal && second[v].place == second[w].place;
  }

  lemma RenumberedListing(visits: map<Id, VisitRow>, place: Id)
    ensures var order := Listing(VisitsAt(visits, place), NewestFirst(visits));
            var after := Renumbered(visits, place);
            && VisitsAt(after, place) == VisitsAt(visits, place)
            && VisitIds(after, place) == order
            && forall i | 0 <= i < |order| ::
                 order[i] in visits && after[order[i]] == visits[order[i]].(ordinal := i)
  {
    var s := VisitsAt(visits, place);
    var order := Listing(s, NewestFirst(visits));
    var after := Renumbered(visits, place);
    ListingHasEachOnce(s, NewestFirst(visits));
    forall i | 0 <= i < |order| ensures order[i] in s && after[order[i]] == visits[order[i]].(ordinal := i) {
      assert order[i] in order;
      assert Position(order, order[i]) == i;
    }
    assert VisitsAt(after, place) == s;
    assert IsListing(order, s, Ordinals(after));
    ListingIsUnique(order, s, Ordinals(after));
  }

  /** Renumbering leaves the place's visits at ordinals exactly 0..n-1, newest first with id breaking ties,
      whatever gaps the ordinals had. */
  lemma RenumberedIsNewestFirst(visits: map<Id, VisitRow>, place: Id)
    ensures var after := Renumbered(visits, place);
            var ids := VisitIds(after, place);
            && |ids| == |VisitsAt(visits, place)|
            && (forall i | 0 <= i < |ids| :: ids[i] in after && after[ids[i]].ordinal == i)
            && (forall i, j | 0 <= i < j < |ids| ::
                  after[ids[i]].at > after[ids[j]].at
                  || (after[ids[i]].at == after[ids[j]].at && Below(ids[i], ids[j])))
  {
    RenumberedListing(visits, place);
    ListingHasEachOnce(VisitsAt(visits, place), NewestFirst(visits));
    var order := Listing(VisitsAt(visits, place), NewestFirst(visits));
    forall i, j | 0 <= i < j < |order|
      ensures visits[order[i]].at > visits[order[j]].at
              || (visits[order[i]].at == visits[order[j]].at && Below(order[i], order[j]))
    {
      assert Precedes(NewestFirst(visits), order[i], order[j]);
    }
  }

  /** After a minted occasion the place holds its old visits and the new one, each otherwise as it was, and
      every other place's visits are untouched. */
  lemma MintedOccasionIsAPermutation(visits: map<Id, VisitRow>, place: Id, visit: Id, trip: Id, at: int)
    requires visit !in visits
    ensures var after := WithOccasion(visits, place, visit, trip, at);
            && after.Keys == visits.Keys + {visit}
            && VisitsAt(after, place) == VisitsAt(visits, place) + {visit}
            && (forall v | v in visits :: after[v] == visits[v].(ordinal := after[v].ordinal))
            && after[visit] == VisitRow(place, trip, after[visit].ordinal, at, None)
            && (forall v | v in visits && visits[v].place != place :: after[v] == visits[v])
  {
  }
}
