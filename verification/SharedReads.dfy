/** The public read as the two statements it is: one resolves the link, another reads the trip, and writes may come in
    between. */
module SharedReads {
  import opened Options
  import opened Ordering
  import opened Tables
  import opened Writes
  import opened Documents
  import opened Runs
  import opened PublicShare
  import opened Noninterference

  type Reply = Option<(PublicShare.Outcome<Envelope>, seq<Id>)>

  /** ShareLink: the trip a live link names. */
  function Resolved(log: Log, token: string): Option<Id> {
    if token in log.links && !log.links[token].revoked then Some(log.links[token].trip) else None
  }

  /** The link resolved in one state and the trip read in another. */
  function ReadAcross(first: Log, second: Log, token: string, mint: Mint): Reply {
    var trip := Resolved(first, token);
    if trip.None? then None else PublicRead(second, trip.value, mint)
  }

  /** Both in one state. */
  function ReadAtOnce(log: Log, token: string, mint: Mint): Reply {
    ReadAcross(log, log, token, mint)
  }

  // ---- how long a link lives

  predicate LiveFor(log: Log, token: string, trip: Id) {
    token in log.links && log.links[token] == LinkRow(trip, false)
  }

  /** The three writes that end the trip's live link. */
  predicate Withdraws(op: Op, trip: Id) {
    (op.NewShareLink? || op.StopSharing? || op.DeleteTrip?) && op.id == trip
  }

  predicate WithdrawnBy(s: State, step: Step, trip: Id) {
    step.Write? && Apply(s.log, step.op).Committed? && Withdraws(step.op, trip)
  }

  predicate MintsIt(step: Step, token: string) {
    step.Write? && step.op.NewShareLink? && step.op.token == token
  }

  lemma OtherWritesKeepLinks(log: Log, op: Op)
    requires Apply(log, op).Committed? && !op.NewShareLink? && !op.StopSharing? && !op.DeleteTrip?
    ensures Apply(log, op).log.links == log.links
  {
  }

  /** A live link stays live exactly when the step is not one of the three. */
  lemma LinkLivesExactly(s: State, step: Step, token: string, trip: Id)
    requires LiveFor(s.log, token, trip)
    ensures LiveFor(Next(s, step).log, token, trip) <==> !WithdrawnBy(s, step, trip)
  {
    if step.Write? && Apply(s.log, step.op).Committed? {
      if !step.op.NewShareLink? && !step.op.StopSharing? && !step.op.DeleteTrip? {
        OtherWritesKeepLinks(s.log, step.op);
      }
    }
  }

  lemma WithdrawnIsUnresolved(s: State, step: Step, token: string, trip: Id)
    requires LiveFor(s.log, token, trip) && WithdrawnBy(s, step, trip)
    ensures Resolved(Next(s, step).log, token).None?
  {
  }

  lemma UnresolvedStays(s: State, step: Step, token: string)
    requires Resolved(s.log, token).None? && !MintsIt(step, token)
    ensures Resolved(Next(s, step).log, token).None?
  {
    if step.Write? && Apply(s.log, step.op).Committed? {
      if !step.op.NewShareLink? && !step.op.StopSharing? && !step.op.DeleteTrip? {
        OtherWritesKeepLinks(s.log, step.op);
      }
    }
  }

  predicate NeverMinted(between: seq<Step>, token: string) {
    forall i | 0 <= i < |between| :: !MintsIt(between[i], token)
  }

  ghost predicate NeverWithdrawn(s: State, between: seq<Step>, trip: Id) {
    forall i | 0 <= i < |between| :: !WithdrawnBy(After(s, between[..i]), between[i], trip)
  }

  lemma NeverWithdrawnSoFar(s: State, between: seq<Step>, trip: Id, most: seq<Step>, last: Step)
    requires between == most + [last]
    ensures NeverWithdrawn(s, between, trip) <==>
            NeverWithdrawn(s, most, trip) && !WithdrawnBy(After(s, most), last, trip)
  {
    assert between[..|most|] == most && between[|most|] == last;
    assert forall i | 0 <= i < |most| :: between[..i] == most[..i] && between[i] == most[i];
    if NeverWithdrawn(s, between, trip) {
      forall i | 0 <= i < |most| ensures !WithdrawnBy(After(s, most[..i]), most[i], trip) {
        assert !WithdrawnBy(After(s, between[..i]), between[i], trip);
      }
    }
  }

  lemma LinkOverOneMore(s: State, step: Step, token: string, trip: Id, live: bool)
    requires !MintsIt(step, token)
    requires if live then LiveFor(s.log, token, trip) else Resolved(s.log, token).None?
    ensures if live && !WithdrawnBy(s, step, trip) then LiveFor(Next(s, step).log, token, trip)
            else Resolved(Next(s, step).log, token).None?
  {
    if live {
      LinkLivesExactly(s, step, token, trip);
      if WithdrawnBy(s, step, trip) { WithdrawnIsUnresolved(s, step, token, trip); }
    } else {
      UnresolvedStays(s, step, token);
    }
  }

  lemma LinkOverMostAndLast(s: State, between: seq<Step>, most: seq<Step>, last: Step, token: string, trip: Id)
    requires between == most + [last] && !MintsIt(last, token)
    requires if NeverWithdrawn(s, most, trip) then LiveFor(After(s, most).log, token, trip)
             else Resolved(After(s, most).log, token).None?
    ensures if NeverWithdrawn(s, between, trip) then LiveFor(After(s, between).log, token, trip)
            else Resolved(After(s, between).log, token).None?
  {
    NeverWithdrawnSoFar(s, between, trip, most, last);
    LinkOverOneMore(After(s, most), last, token, trip, NeverWithdrawn(s, most, trip));
    assert between[..|between| - 1] == most && between[|between| - 1] == last;
  }

  /** Over any writes, the link lives if none of them withdraws it, and otherwise resolves to nothing. */
  lemma {:induction false} LinkOverARun(s: State, between: seq<Step>, token: string, trip: Id)
    requires LiveFor(s.log, token, trip) && NeverMinted(between, token)
    ensures if NeverWithdrawn(s, between, trip) then LiveFor(After(s, between).log, token, trip)
            else Resolved(After(s, between).log, token).None?
  {
    if between != [] {
      var most := between[..|between| - 1];
      LinkOverARun(s, most, token, trip);
      LinkOverMostAndLast(s, between, most, between[|between| - 1], token, trip);
    }
  }

  /** Whatever is written in between, the two statements answer as one would at the second's moment, for every mint,
      if and only if no write withdrew the link or the trip is gone. Otherwise they show a page that has no link. */
  lemma ReadsAsAtOnceExactly(s: State, between: seq<Step>, token: string, trip: Id, mint: Mint)
    requires LiveFor(s.log, token, trip) && NeverMinted(between, token)
    ensures var end := After(s, between).log;
            ReadAcross(s.log, end, token, mint) == ReadAtOnce(end, token, mint) <==>
            NeverWithdrawn(s, between, trip) || trip !in end.trips
  {
    LinkOverARun(s, between, token, trip);
  }

  /** And a page that minted anything, through a link that kept photographs back for as long as it lived, is one of
      those: the link had been withdrawn. */
  lemma KeptBackUntilWithdrawn(s: State, between: seq<Step>, token: string, trip: Id, mint: Mint)
    requires LiveFor(s.log, token, trip) && NeverMinted(between, token)
    requires forall i | 0 <= i <= |between| && LiveFor(After(s, between[..i]).log, token, trip) ::
               var log := After(s, between[..i]).log; trip in log.trips ==> !log.trips[trip].sharePhotos
    ensures var end := After(s, between).log;
            var reply := ReadAcross(s.log, end, token, mint);
            && (reply.Some? && reply.value.1 != [] ==> !NeverWithdrawn(s, between, trip))
            && (reply.Some? && reply.value.1 != [] <==>
                trip in end.trips && end.trips[trip].sharePhotos
                && (end.trips[trip].cover.Some? || ShownPhotos(end, trip, end.trips[trip]) != map[]))
  {
    var end := After(s, between).log;
    assert between[..|between|] == between;
    LinkOverARun(s, between, token, trip);
    if trip in end.trips { MintsExactly(end, trip, mint); }
  }

  lemma {:induction false} AskedOfSome(ps: seq<Photo>, mint: Mint)
    ensures Asked(ps, mint) == [] <==> ps == []
  {
    if ps != [] { AskedOfSome(ps[..|ps| - 1], mint); }
  }

  lemma InIdOrderOfNone<T>(rows: map<Id, T>)
    ensures InIdOrder(rows) == [] <==> rows == map[]
  {
    ListingHasEachOnce(rows.Keys, Flat(rows.Keys));
    if rows != map[] {
      var k :| k in rows;
      assert k in Listing(rows.Keys, Flat(rows.Keys));
    }
  }

  lemma EmittedAsks(src: Source, mint: Mint)
    ensures Emitted(src, mint).1 != [] <==> src.trip.sharePhotos && (src.trip.cover.Some? || src.photos != [])
  {
    AskedOfSome(PhotosIn(src), mint);
  }

  /** A page mints exactly when it shares photographs and has one, or a cover. */
  lemma MintsExactly(log: Log, trip: Id, mint: Mint)
    requires trip in log.trips
    ensures var t := log.trips[trip];
            PublicRead(log, trip, mint).value.1 != [] <==>
            t.sharePhotos && (t.cover.Some? || ShownPhotos(log, trip, t) != map[])
  {
    EmittedAsks(SourceOf(log, trip), mint);
    InIdOrderOfNone(PhotoRows(log.photos, trip));
  }

  // ---- one write in between, exactly

  /** Resetting the three switches shows nothing new and hides nothing shown: what they kept back is not there. */
  predicate ResetShowsTheSame(log: Log, trip: Id)
    requires trip in log.trips
  {
    var t := log.trips[trip];
    var photos, visits, walks := PhotoRows(log.photos, trip), ShownVisits(log, trip), WalkRows(log.walks, trip);
    && (t.sharePhotos || (t.cover.None? && photos == map[]))
    && (t.shareNotes || ((forall v | v in visits :: visits[v].note.None?)
                         && (forall p | p in photos :: photos[p].row.caption.None?)))
    && (t.shareCoordinates ==>
          && visits == map[]
          && (forall p | p in photos :: photos[p].row.coordinates.None? && photos[p].row.accuracy.None?)
          && (forall w | w in walks :: walks[w].row.points == []))
  }

  function Stopped(log: Log, trip: Id): Log
    requires trip in log.trips
  {
    ApplyStopSharing(log, trip).log
  }

  lemma StoppedIsApplied(log: Log, trip: Id)
    requires trip in log.trips
    ensures Apply(log, StopSharing(trip)) == Committed(Stopped(log, trip))
  {
  }

  lemma StoppedRows(log: Log, trip: Id)
    requires trip in log.trips
    ensures var after := Stopped(log, trip);
            && trip in after.trips
            && after.trips[trip] == log.trips[trip].(sharePhotos := true, shareNotes := true, shareCoordinates := false)
            && CitiesOn(after, trip) == CitiesOn(log, trip) && after.cities == log.cities
            && after.places == log.places && after.visits == log.visits && after.photos == log.photos
            && after.walks == log.walks && ShownVisits(after, trip) == ShownVisits(log, trip)
  {
  }

  lemma NoteIsNotThere(f: map<Id, Id>, visits: map<Id, VisitRow>, s: TripRow, t: TripRow, v: Id)
    requires Renames(f, visits, visits, s, t) && t.shareNotes && !s.shareNotes && v in visits
    ensures visits[v].note.None?
  {
    assert v in f.Values;
    var x :| x in f && f[x] == v;
    assert VisitAlike(visits[x], visits[f[x]], s, t);
  }

  lemma ResetNotesAreThere(visits: map<Id, VisitRow>, s: TripRow, t: TripRow)
    requires t.shareNotes && VisitsAlike(visits, visits, s, t) && !s.shareNotes
    ensures forall v | v in visits :: visits[v].note.None?
  {
    var f :| Renames(f, visits, visits, s, t);
    forall v | v in visits ensures visits[v].note.None? { NoteIsNotThere(f, visits, s, t, v); }
  }

  lemma ResetVisits(visits: map<Id, VisitRow>, s: TripRow, t: TripRow)
    requires t.shareNotes
    ensures VisitsAlike(visits, visits, s, t) <==> s.shareNotes || forall v | v in visits :: visits[v].note.None?
  {
    if s.shareNotes || forall v | v in visits :: visits[v].note.None? {
      SameVisitsAlike(visits, s, t);
    } else if VisitsAlike(visits, visits, s, t) {
      ResetNotesAreThere(visits, s, t);
    }
  }

  lemma ResetPlaces(log: Log, after: Log, trip: Id, s: TripRow, t: TripRow)
    requires after.places == log.places && !t.shareCoordinates
    ensures PlacesAlike(log, after, trip, s, t) <==> (s.shareCoordinates ==> ShownVisits(log, trip) == map[])
  {
    var visits := ShownVisits(log, trip);
    if s.shareCoordinates && visits != map[] {
      var v :| v in visits;
      assert v in VisitsAt(OnTrip(log.visits, trip), visits[v].place);
      assert !PlaceAlike(log.places[visits[v].place], log.places[visits[v].place], s, t);
    } else if s.shareCoordinates {
      forall p | p in log.places ensures VisitsAt(OnTrip(log.visits, trip), p) == VisitsAt(visits, p) == {} {
        SameVisitIds(log, trip, p);
      }
    }
  }

  lemma ResetPhotos(log: Log, after: Log, trip: Id, s: TripRow, t: TripRow)
    requires after.photos == log.photos && t.sharePhotos && t.shareNotes && !t.shareCoordinates
    ensures var photos := PhotoRows(log.photos, trip);
            PhotosAlike(ShownPhotos(log, trip, s), ShownPhotos(after, trip, t), s, t) <==>
            && (s.sharePhotos || photos == map[])
            && (s.shareNotes || forall p | p in photos :: photos[p].row.caption.None?)
            && (s.shareCoordinates ==>
                  forall p | p in photos :: photos[p].row.coordinates.None? && photos[p].row.accuracy.None?)
  {
    var photos := PhotoRows(log.photos, trip);
    forall p | p in photos
      ensures PhotoAlike(photos[p].row, photos[p].row, s, t) <==>
              && (s.shareNotes || photos[p].row.caption.None?)
              && (s.shareCoordinates ==> photos[p].row.coordinates.None? && photos[p].row.accuracy.None?)
    {
    }
  }

  lemma ResetWalks(walks: map<Id, Walk>, s: TripRow, t: TripRow)
    requires !t.shareCoordinates
    ensures WalksAlike(walks, walks, s, t) <==>
            (s.shareCoordinates ==> forall w | w in walks :: walks[w].row.points == [])
  {
  }

  lemma ResetAlikeExactly(log: Log, trip: Id)
    requires trip in log.trips
    ensures Alike(log, Stopped(log, trip), trip) <==> ResetShowsTheSame(log, trip)
  {
    var after := Stopped(log, trip);
    StoppedRows(log, trip);
    var s, t := log.trips[trip], after.trips[trip];
    SameCitiesAlike(log, after, trip);
    ResetVisits(ShownVisits(log, trip), s, t);
    ResetPlaces(log, after, trip, s, t);
    ResetPhotos(log, after, trip, s, t);
    ResetWalks(WalkRows(log.walks, trip), s, t);
  }

  /** The answer is what one statement would have given just before the write, or would give just after it. */
  ghost predicate OfOneMoment(log: Log, after: Log, token: string) {
    || (forall mint: Mint :: ReadAcross(log, after, token, mint) == ReadAtOnce(log, token, mint))
    || (forall mint: Mint :: ReadAcross(log, after, token, mint) == ReadAtOnce(after, token, mint))
  }

  /** A page does not depend on links. */
  lemma LinksAreNotShown(log: Log, links: map<string, LinkRow>, trip: Id, mint: Mint)
    ensures PublicRead(log.(links := links), trip, mint) == PublicRead(log, trip, mint)
  {
    if trip in log.trips { assert SourceOf(log.(links := links), trip) == SourceOf(log, trip); }
  }

  lemma OtherLinksAreOfOneMoment(log: Log, links: map<string, LinkRow>, token: string, trip: Id)
    requires LiveFor(log, token, trip)
    ensures OfOneMoment(log, log.(links := links), token)
  {
    forall mint: Mint ensures ReadAcross(log, log.(links := links), token, mint) == ReadAtOnce(log, token, mint) {
      LinksAreNotShown(log, links, trip, mint);
    }
  }

  lemma NewLinkIsOfOneMoment(log: Log, op: Op, token: string, trip: Id)
    requires LiveFor(log, token, trip) && op.NewShareLink? && Apply(log, op).Committed?
    ensures OfOneMoment(log, Apply(log, op).log, token)
  {
    var links := Apply(log, op).log.links;
    OtherLinksAreOfOneMoment(log, links, token, trip);
    assert Apply(log, op).log == log.(links := links);
  }

  lemma KeptOrGoneIsOfOneMoment(log: Log, after: Log, token: string, trip: Id)
    requires LiveFor(log, token, trip)
    requires LiveFor(after, token, trip) || (Resolved(after, token).None? && trip !in after.trips)
    ensures OfOneMoment(log, after, token)
  {
    assert forall mint: Mint :: ReadAcross(log, after, token, mint) == ReadAtOnce(after, token, mint);
  }

  lemma OtherWritesAreOfOneMoment(s: State, op: Op, token: string, trip: Id)
    requires LiveFor(s.log, token, trip) && Apply(s.log, op).Committed? && op != StopSharing(trip)
    ensures OfOneMoment(s.log, Apply(s.log, op).log, token)
  {
    if op.NewShareLink? {
      NewLinkIsOfOneMoment(s.log, op, token, trip);
    } else {
      LinkLivesExactly(s, Write(op), token, trip);
      if op == DeleteTrip(trip) { WithdrawnIsUnresolved(s, Write(op), token, trip); }
      KeptOrGoneIsOfOneMoment(s.log, Next(s, Write(op)).log, token, trip);
    }
  }

  lemma StoppingIsOfOneMomentExactly(s: State, token: string, trip: Id)
    requires LiveFor(s.log, token, trip) && trip in s.log.trips
    ensures OfOneMoment(s.log, Stopped(s.log, trip), token) <==> ResetShowsTheSame(s.log, trip)
  {
    var after := Stopped(s.log, trip);
    ResetAlikeExactly(s.log, trip);
    PublicReadRevealsExactly(s.log, after, trip);
    StoppedRows(s.log, trip);
    assert Resolved(after, token).None?;
    assert ReadAcross(s.log, after, token, Naming()) != ReadAtOnce(after, token, Naming());
    assert forall mint: Mint :: ReadAcross(s.log, after, token, mint) == PublicRead(after, trip, mint);
    assert forall mint: Mint :: ReadAtOnce(s.log, token, mint) == PublicRead(s.log, trip, mint);
  }

  /** With one committed write between the statements, of any kind, the answer is of one moment, unless sharing is
      stopped while a switch keeps something back, or shows coordinates that the reset takes away. */
  lemma OneWriteBetweenExactly(s: State, op: Op, token: string, trip: Id)
    requires LiveFor(s.log, token, trip) && trip in s.log.trips && Apply(s.log, op).Committed?
    ensures OfOneMoment(s.log, Apply(s.log, op).log, token) <==>
            (op == StopSharing(trip) ==> ResetShowsTheSame(s.log, trip))
  {
    if op == StopSharing(trip) {
      StoppedIsApplied(s.log, trip);
      StoppingIsOfOneMomentExactly(s, token, trip);
    } else {
      OtherWritesAreOfOneMoment(s, op, token, trip);
    }
  }

  // ---- a run in which a stranger gets what was kept back

  /** A live link of a trip that keeps its photographs back, and has one or a cover. */
  predicate KeepsPhotosBack(log: Log, token: string, trip: Id) {
    && LiveFor(log, token, trip) && trip in log.trips && !log.trips[trip].sharePhotos
    && (log.trips[trip].cover.Some? || exists p :: p in log.photos && log.photos[p].trip == trip)
  }

  lemma KeptBackPage(log: Log, trip: Id, mint: Mint)
    requires trip in log.trips && !log.trips[trip].sharePhotos
    ensures PublicRead(log, trip, mint).value.1 == []
  {
    MintsExactly(log, trip, mint);
  }

  lemma StoppedPage(log: Log, token: string, trip: Id, mint: Mint)
    requires KeepsPhotosBack(log, token, trip)
    ensures PublicRead(Stopped(log, trip), trip, mint).Some?
    ensures PublicRead(Stopped(log, trip), trip, mint).value.1 != [] && Resolved(Stopped(log, trip), token).None?
  {
    var after := Stopped(log, trip);
    StoppedRows(log, trip);
    MintsExactly(after, trip, mint);
    if p :| p in log.photos && log.photos[p].trip == trip {
      assert p in ShownPhotos(after, trip, after.trips[trip]);
    }
  }

  /** A read that resolves such a link just before sharing is stopped, and reads the trip just after, mints for what
      was kept back; one at either moment mints for nothing. */
  lemma StoppingInBetweenPublishesPhotographs(log: Log, token: string, trip: Id, mint: Mint)
    requires KeepsPhotosBack(log, token, trip)
    ensures Apply(log, StopSharing(trip)) == Committed(Stopped(log, trip))
    ensures var across := ReadAcross(log, Stopped(log, trip), token, mint); across.Some? && across.value.1 != []
    ensures var before := ReadAtOnce(log, token, mint); before.Some? && before.value.1 == []
    ensures ReadAtOnce(Stopped(log, trip), token, mint).None?
  {
    StoppedIsApplied(log, trip);
    KeptBackPage(log, trip, mint);
    StoppedPage(log, token, trip, mint);
  }

  const KEEP_BACK := ShareWrite(Some(false), None, None)
  const KEPT_BACK := WITH_FILING.(trips := WITH_FILING.trips["t" := A_TRIP.(sharePhotos := false)])
  const WITH_LINK := KEPT_BACK.(links := map["k" := LinkRow("t", false)])

  const LINKED_RUN := PARTING_RUN[..8] + [Write(SetShareOptions("t", KEEP_BACK)), Write(NewShareLink("t", "k"))]

  lemma ThenLinked()
    ensures Apply(WITH_FILING, SetShareOptions("t", KEEP_BACK)) == Committed(KEPT_BACK)
    ensures Apply(KEPT_BACK, NewShareLink("t", "k")) == Committed(WITH_LINK)
  {
  }

  /** A ten-step run to such a link; photographs were kept back before it was made. */
  lemma ARunThatKeepsPhotosBack()
    ensures After(Start, LINKED_RUN) == State(8, WITH_LINK) && KeepsPhotosBack(WITH_LINK, "k", "t")
    ensures !KEPT_BACK.trips["t"].sharePhotos
  {
    FirstEight();
    ThenLinked();
    assert LINKED_RUN[..8] == PARTING_RUN[..8] && LINKED_RUN[..10] == LINKED_RUN;
    OneMoreCommit(LINKED_RUN, 8, State(6, WITH_FILING), SetShareOptions("t", KEEP_BACK), KEPT_BACK);
    OneMoreCommit(LINKED_RUN, 9, State(7, KEPT_BACK), NewShareLink("t", "k"), WITH_LINK);
    assert WITH_LINK.photos["x"].trip == "t";
  }
}
