/** Photo filing: the pair (place_id, visit_id) that six operations can disturb, and whole runs of the log. */
module Filing {
  import opened Options
  import opened Ordering
  import opened Tables
  import opened Writes

  // ---- a photograph that names an occasion names that occasion's own place

  lemma RewrittenKeepsPair(log: Log, place: Id, sent: seq<SentVisit>)
    requires PairAgrees(log.photos, log.visits) && VisitsWritable(log, place, sent)
    ensures PairAgrees(log.photos, Rewritten(log.visits, place, sent))
  {
    var after := Rewritten(log.visits, place, sent);
    forall p | p in log.photos && log.photos[p].visit.Some?
      ensures log.photos[p].visit.value in after
      ensures after[log.photos[p].visit.value].place == log.visits[log.photos[p].visit.value].place
    {
      var v := log.photos[p].visit.value;
      if sent == [] { assert v !in VisitsAt(log.visits, place); }
      if v in SentIds(sent) { assert sent[Position(SentIds(sent), v)].id == v; }
    }
  }

  lemma WithoutPlaceKeepsPair(log: Log, id: Id)
    requires PairAgrees(log.photos, log.visits)
    ensures PairAgrees(WithoutPlace(log, id).photos, WithoutPlace(log, id).visits)
  {
  }

  lemma RefileKeepsPair(log: Log, id: Id, place: Id, visit: Id, at: Option<int>)
    requires PairAgrees(log.photos, log.visits) && ApplyRefile(log, id, place, visit, at).Committed?
    ensures var after := ApplyRefile(log, id, place, visit, at).log; PairAgrees(after.photos, after.visits)
  {
    var after := ApplyRefile(log, id, place, visit, at).log;
    assert forall v | v in log.visits :: v in after.visits && after.visits[v].place == log.visits[v].place;
  }

  lemma ApplyKeepsPair(log: Log, op: Op)
    requires PairAgrees(log.photos, log.visits) && Apply(log, op).Committed?
    ensures PairAgrees(Apply(log, op).log.photos, Apply(log, op).log.visits)
  {
    match op
    case PutPlace(id, w) => if w.visits.Some? { RewrittenKeepsPair(log, id, w.visits.value); }
    case RemovePlace(id, photos) =>
      WithoutPlaceKeepsPair(log, id);
      WithoutPlaceKeepsPair(WithoutPhotosAt(log, id), id);
    case RefilePhoto(id, place, visit, at) => RefileKeepsPair(log, id, place, visit, at);
    case DeleteTrip(id) => WithoutTripKeepsPair(log, id);
    case PutPhoto(_, _) => PhotoRowsKeepPair(log, op);
    case DeletePhoto(_) => PhotoRowsKeepPair(log, op);
    case SnoozePhotos(_, _) => PhotoRowsKeepPair(log, op);
    case _ => FilingUntouched(log, op);
  }

  lemma WithoutTripKeepsPair(log: Log, id: Id)
    requires PairAgrees(log.photos, log.visits)
    ensures PairAgrees(WithoutTrip(log, id).photos, WithoutTrip(log, id).visits)
  {
  }

  lemma PhotoRowsKeepPair(log: Log, op: Op)
    requires op.PutPhoto? || op.DeletePhoto? || op.SnoozePhotos?
    requires PairAgrees(log.photos, log.visits) && Apply(log, op).Committed?
    ensures PairAgrees(Apply(log, op).log.photos, Apply(log, op).log.visits)
  {
  }

  /** The other writes leave both filing tables exactly as they were. */
  lemma FilingUntouched(log: Log, op: Op)
    requires op.PutTrip? || op.PutCity? || op.PutWalk? || op.SetTravellerName? || op.SetShareOptions?
             || op.NewShareLink? || op.StopSharing?
    requires Apply(log, op).Committed?
    ensures Apply(log, op).log.photos == log.photos && Apply(log, op).log.visits == log.visits
  {
  }

  // ---- exactly which writes can part a photograph from its occasion's trip

  /** A PutPhoto that sends a filed photograph to another trip. */
  predicate MovesAFiledPhoto(log: Log, op: Op) {
    && op.PutPhoto? && op.id in log.photos && log.photos[op.id].visit.Some?
    && op.photo.trip.Some? && op.photo.trip.value != log.photos[op.id].trip
  }

  /** A PutPlace that sends a visit holding a photograph to another trip. */
  predicate MovesAnOccupiedVisit(log: Log, op: Op) {
    && op.PutPlace? && op.place.visits.Some?
    && exists i, p | 0 <= i < |op.place.visits.value| && p in log.photos ::
         log.photos[p].visit == Some(op.place.visits.value[i].id) && op.place.visits.value[i].trip != log.photos[p].trip
  }

  lemma PutPhotoCoherence(log: Log, op: Op)
    requires op.PutPhoto? && Closed(log) && Coherent(log) && Apply(log, op).Committed?
    ensures Coherent(Apply(log, op).log) <==> !MovesAFiledPhoto(log, op)
  {
    var after := Apply(log, op).log;
    ApplyKeepsPair(log, op);
    if op.id in log.photos { assert FiledWhole(log.photos[op.id], log.visits); }
    if MovesAFiledPhoto(log, op) { assert !FiledWhole(after.photos[op.id], after.visits); }
  }

  lemma RewrittenTrip(log: Log, place: Id, sent: seq<SentVisit>, v: Id)
    requires v in Rewritten(log.visits, place, sent)
    ensures v !in SentIds(sent) ==> v in log.visits && Rewritten(log.visits, place, sent)[v] == log.visits[v]
    ensures Distinct(SentIds(sent)) ==>
              forall i | 0 <= i < |sent| && sent[i].id == v ::
                  Rewritten(log.visits, place, sent)[v].trip == sent[i].trip
  {
    var ids := SentIds(sent);
    forall i | 0 <= i < |sent| && sent[i].id == v && Distinct(ids)
      ensures Rewritten(log.visits, place, sent)[v].trip == sent[i].trip
    {
      assert ids[i] == v;
      assert Position(ids, v) == i;
    }
  }

  lemma PutPlaceCoherence(log: Log, op: Op)
    requires op.PutPlace? && Validated(op) && Closed(log) && Coherent(log) && Apply(log, op).Committed?
    ensures Coherent(Apply(log, op).log) <==> !MovesAnOccupiedVisit(log, op)
  {
    var after := Apply(log, op).log;
    ApplyKeepsPair(log, op);
    if op.place.visits.Some? {
      var sent := op.place.visits.value;
      if MovesAnOccupiedVisit(log, op) {
        var i, p :| 0 <= i < |sent| && p in log.photos && log.photos[p].visit == Some(sent[i].id)
                    && sent[i].trip != log.photos[p].trip;
        assert sent[i].id == SentIds(sent)[i];
        RewrittenTrip(log, op.id, sent, sent[i].id);
        assert !FiledWhole(after.photos[p], after.visits);
      } else {
        forall p | p in log.photos ensures FiledWhole(log.photos[p], after.visits) {
          assert FiledWhole(log.photos[p], log.visits);
          if log.photos[p].visit.Some? {
            var v := log.photos[p].visit.value;
            assert v in after.visits;
            RewrittenTrip(log, op.id, sent, v);
            if v in SentIds(sent) {
              var i := Position(SentIds(sent), v);
              assert sent[i].id == v;
            }
          }
        }
      }
    }
  }

  lemma WithoutPlaceKeepsCoherence(log: Log, id: Id)
    requires Coherent(log)
    ensures Coherent(WithoutPlace(log, id))
  {
    WithoutPlaceKeepsPair(log, id);
    var after := WithoutPlace(log, id);
    forall p | p in after.photos ensures FiledWhole(after.photos[p], after.visits) {
      assert FiledWhole(log.photos[p], log.visits);
    }
  }

  lemma RemovePlaceKeepsCoherence(log: Log, id: Id, photos: Disposition)
    requires Coherent(log) && ApplyRemovePlace(log, id, photos).Committed?
    ensures Coherent(ApplyRemovePlace(log, id, photos).log)
  {
    WithoutPlaceKeepsCoherence(log, id);
    assert Coherent(WithoutPhotosAt(log, id)) by {
      assert forall p | p in log.photos :: FiledWhole(log.photos[p], log.visits);
    }
    WithoutPlaceKeepsCoherence(WithoutPhotosAt(log, id), id);
  }

  lemma WithoutTripKeepsCoherence(log: Log, id: Id)
    requires Coherent(log)
    ensures Coherent(WithoutTrip(log, id))
  {
    var after := WithoutTrip(log, id);
    forall p | p in after.photos ensures FiledWhole(after.photos[p], after.visits) && after.photos[p] == log.photos[p] {
      assert FiledWhole(log.photos[p], log.visits);
    }
  }

  lemma RefileKeepsCoherence(log: Log, id: Id, place: Id, visit: Id, at: Option<int>)
    requires Coherent(log) && ApplyRefile(log, id, place, visit, at).Committed?
    ensures Coherent(ApplyRefile(log, id, place, visit, at).log)
  {
    RefileKeepsPair(log, id, place, visit, at);
    var after := ApplyRefile(log, id, place, visit, at).log;
    assert forall v | v in log.visits :: v in after.visits && after.visits[v].trip == log.visits[v].trip;
    forall p | p in after.photos ensures FiledWhole(after.photos[p], after.visits) {
      assert FiledWhole(log.photos[p], log.visits);
    }
  }

  /** From a coherent log a committed write leaves a coherent log, except exactly the two that move a trip
      under a filing. */
  lemma CoherenceExactly(log: Log, op: Op)
    requires Validated(op) && Closed(log) && Coherent(log) && Apply(log, op).Committed?
    ensures Coherent(Apply(log, op).log) <==> !MovesAFiledPhoto(log, op) && !MovesAnOccupiedVisit(log, op)
  {
    match op
    case PutPhoto(_, _) => PutPhotoCoherence(log, op);
    case PutPlace(_, _) => PutPlaceCoherence(log, op);
    case RemovePlace(id, photos) => RemovePlaceKeepsCoherence(log, id, photos);
    case DeleteTrip(id) => WithoutTripKeepsCoherence(log, id);
    case RefilePhoto(id, place, visit, at) => RefileKeepsCoherence(log, id, place, visit, at);
    case SnoozePhotos(_, _) => FewerOrSnoozedStayCoherent(log, op);
    case DeletePhoto(_) => FewerOrSnoozedStayCoherent(log, op);
    case _ => FilingUntouched(log, op);
  }

  lemma FewerOrSnoozedStayCoherent(log: Log, op: Op)
    requires op.SnoozePhotos? || op.DeletePhoto?
    requires Coherent(log) && Apply(log, op).Committed?
    ensures Coherent(Apply(log, op).log)
  {
    ApplyKeepsPair(log, op);
    var after := Apply(log, op).log;
    forall p | p in after.photos ensures FiledWhole(after.photos[p], after.visits) {
      assert FiledWhole(log.photos[p], log.visits);
    }
  }

  // ---- removing a pin: the keep branch and the delete branch

  /** Keep: the same photographs, both columns cleared on exactly those filed there, nothing else on any of
      them touched. Delete: exactly those filed there go, and no other changes. */
  lemma RemovePlacePhotos(log: Log, id: Id)
    requires id in log.places && PairAgrees(log.photos, log.visits)
    ensures var kept := ApplyRemovePlace(log, id, KeepPhotos).log.photos;
            && kept.Keys == log.photos.Keys
            && forall p | p in kept ::
                 kept[p] == if log.photos[p].place == Some(id) then log.photos[p].(place := None, visit := None)
                            else log.photos[p]
    ensures var left := ApplyRemovePlace(log, id, DeletePhotos).log.photos;
            && left.Keys == (set p | p in log.photos && log.photos[p].place != Some(id))
            && forall p | p in left :: left[p] == log.photos[p]
  {
    var kept := ApplyRemovePlace(log, id, KeepPhotos).log.photos;
    forall p | p in kept
      ensures kept[p] == if log.photos[p].place == Some(id) then log.photos[p].(place := None, visit := None)
                         else log.photos[p]
    {
      var v := log.photos[p].visit;
      assert v.Some? ==> (v.value in VisitsAt(log.visits, id) <==> log.photos[p].place == Some(id));
      if log.photos[p].place == Some(id) && v.None? { assert log.photos[p].(visit := None) == log.photos[p]; }
    }
  }
}
