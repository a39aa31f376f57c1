/** The traveller's store: WithTravellerTx, WithTravellerLock and the conditional read over one committed state. */
module Store {
  import opened Options
  import opened Ordering
  import opened Tables
  import opened Writes
  import opened Documents
  import opened Splicing
  import opened Runs
  import opened Transactions
  import ETags

  const EMITTER_VERSION := 2

  /** tagFor: a log nothing has written to carries no tag. */
  function TagFor(version: nat): string {
    if version < 1 then "" else ETags.FormatETag(EMITTER_VERSION, version)
  }

  datatype Read = NotModified(etag: string) | Full(etag: string, document: Document)

  /** The answer of one read of a snapshot. */
  function ReadOf(s: State, ifNoneMatch: string): Read {
    var etag := TagFor(s.version);
    if ETags.Matches(ifNoneMatch, etag) then NotModified(etag) else Full(etag, DocumentOf(s.log))
  }

  datatype Reply = Answered(answer: Answer, version: nat) | Failed(why: Refusal) | NotCommitted

  /** What a write that matched nothing answers instead of an error: the log as it stands. */
  function MissAnswer(log: Log, op: Op): Option<Answer> {
    match op
    case DeleteTrip(_) => Some(Whole(DocumentOf(log)))
    case RemovePlace(_, _) => Some(Whole(DocumentOf(log)))
    case DeletePhoto(id) => Some(Gone(id))
    case SnoozePhotos(_, _) => Some(Photos([]))
    case _ => None
  }

  function RefusedReply(s: State, op: Op, why: Refusal): Reply {
    if why == NothingThere && MissAnswer(s.log, op).Some? then Answered(MissAnswer(s.log, op).value, s.version)
    else Failed(why)
  }

  function CommittedReply(s: State, op: Op, after: Log): Reply
    requires Present(after, op)
  {
    Answered(AnswerTo(s.log, op, after), s.version + 1)
  }

  function ReplyTo(s: State, op: Op): Reply {
    var outcome := Apply(s.log, op);
    if outcome.Refused? then RefusedReply(s, op, outcome.why)
    else
      CommittedIsPresent(s.log, op);
      CommittedReply(s, op, outcome.log)
  }

  /** fn, inside the transaction. */
  method RunBody(tx: Tx, op: Op) returns (refusal: Option<Refusal>)
    requires Validated(op) && Closed(tx.Contents())
    modifies tx
    ensures refusal == RefusalOf(Apply(old(tx.Contents()), op))
    ensures refusal.None? ==> tx.Contents() == Apply(old(tx.Contents()), op).log
  {
    match op
    case PutTrip(id, w) => refusal := tx.PutTrip(id, w);
    case PutCity(id, w) => refusal := tx.PutCity(id, w);
    case PutPlace(id, w) => refusal := tx.PutPlace(id, w);
    case RemovePlace(id, photos) => refusal := tx.RemovePlace(id, photos);
    case PutPhoto(id, w) => refusal := tx.PutPhoto(id, w);
    case DeletePhoto(id) => refusal := tx.DeletePhoto(id);
    case SnoozePhotos(ids, until) => refusal := tx.SnoozePhotos(ids, until);
    case RefilePhoto(id, place, visit, at) => refusal := tx.RefilePhoto(id, place, visit, at);
    case PutWalk(id, w) => refusal := tx.PutWalk(id, w);
    case DeleteTrip(id) => refusal := tx.DeleteTrip(id);
    case SetTravellerName(name) => refusal := tx.SetName(name);
    case SetShareOptions(id, w) => refusal := tx.SetShareOptions(id, w);
    case NewShareLink(id, token) => refusal := tx.NewShareLink(id, token);
    case StopSharing(id) => refusal := tx.StopSharing(id);
  }

  /** A transaction opened on the committed rows, up to the point of committing. */
  method Attempt(log: Log, op: Op) returns (outcome: Outcome)
    requires Validated(op) && Closed(log)
    ensures outcome == Apply(log, op)
  {
    var tx := new Tx(log);
    var refusal := RunBody(tx, op);
    outcome := if refusal.Some? then Refused(refusal.value) else Committed(tx.Contents());
  }

  /** What the caller is told, once the outcome is known. */
  method Tell(s: State, op: Op, outcome: Outcome) returns (reply: Reply)
    requires outcome == Apply(s.log, op)
    ensures reply == ReplyTo(s, op)
  {
    if outcome.Refused? {
      reply := RefusedReply(s, op, outcome.why);
    } else {
      CommittedIsPresent(s.log, op);
      reply := CommittedReply(s, op, outcome.log);
    }
  }

  lemma WhatCommits(s: State, op: Op, outcome: Outcome)
    requires outcome == Apply(s.log, op) && Closed(s.log) && PairAgrees(s.log.photos, s.log.visits)
    ensures Next(s, Write(op)) == if outcome.Committed? then State(s.version + 1, outcome.log) else s
    ensures outcome.Committed? ==> Closed(outcome.log) && PairAgrees(outcome.log.photos, outcome.log.visits)
  {
    NextKeepsClosed(s, Write(op));
  }

  /** The committed state every transaction of this traveller begins from; the advisory lock makes them one at a
      time. */
  class TravellerStore {
    var version: nat
    var log: Log

    ghost predicate Valid()
      reads this
    {
      Closed(log) && PairAgrees(log.photos, log.visits)
    }

    function Current(): State
      reads this
    {
      State(version, log)
    }

    constructor ()
      ensures Valid() && Current() == Start
    {
      version, log := 0, EmptyLog;
      new;
      EveryRunIsClosed([]);
    }

    /** Begin, bump, run the body, commit. A refusal, or a commit that fails, leaves no trace: not the rows,
        not the version. */
    method WithTravellerTx(op: Op, commits: bool) returns (reply: Reply)
      requires Valid() && Validated(op)
      modifies this
      ensures Valid()
      ensures Current() == Next(old(Current()), if commits then Write(op) else Aborted)
      ensures reply == if commits || Apply(old(log), op).Refused? then ReplyTo(old(Current()), op) else NotCommitted
    {
      var bumped := version + 1;
      var outcome := Attempt(log, op);
      WhatCommits(Current(), op, outcome);
      if outcome.Committed? && !commits { return NotCommitted; }
      reply := Tell(Current(), op, outcome);
      if outcome.Committed? { log, version := outcome.log, bumped; }
    }

    /** BeginMedia under WithTravellerLock: the rows a document never shows, and no version. */
    method BeginMedia(id: Id, byteSize: int, contentType: string) returns (row: MediaRow)
      requires Valid()
      modifies this
      ensures Valid() && Current() == Next(old(Current()), Step.BeginMedia(id, byteSize, contentType))
      ensures id in log.media && row == log.media[id]
    {
      NextKeepsClosed(Current(), Step.BeginMedia(id, byteSize, contentType));
      if !(id in log.media && log.media[id].uploaded) {
        log := log.(media := log.media[id := MediaRow(byteSize, contentType, false)]);
      }
      row := log.media[id];
    }

    method MarkMediaUploaded(id: Id) returns (row: Option<MediaRow>)
      requires Valid()
      modifies this
      ensures Valid() && Current() == Next(old(Current()), MarkMedia(id))
      ensures row == if id in log.media then Some(log.media[id]) else None
    {
      NextKeepsClosed(Current(), MarkMedia(id));
      if id in log.media {
        log := log.(media := log.media[id := log.media[id].(uploaded := true)]);
        row := Some(log.media[id]);
      } else {
        row := None;
      }
    }

    /** LogbookStore.Read under readLogbook: one snapshot decides the tag, the 304 and the document. */
    method ReadLogbook(ifNoneMatch: string) returns (read: Read)
      ensures read == ReadOf(Current(), ifNoneMatch)
    {
      var etag := TagFor(version);
      var matches := ETags.ETagMatches(ifNoneMatch, etag);
      if matches {
        read := NotModified(etag);
      } else {
        read := Full(etag, DocumentOf(log));
      }
    }
  }
}

/** A cached document agrees with the log it caches, over every run. */
module ConditionalRead {
  import opened Options
  import opened Ordering
  import opened Tables
  import opened Writes
  import opened Documents
  import opened Splicing
  import opened Runs
  import opened Store
  import ETags

  /** The version has not gone back, and where it stands still so does the document. */
  ghost predicate Forward(a: State, b: State) {
    a.version <= b.version && (a.version == b.version ==> DocumentOf(a.log) == DocumentOf(b.log))
  }

  lemma MediaIsNotInTheDocument(log: Log, media: map<Id, MediaRow>)
    ensures DocumentOf(log.(media := media)) == DocumentOf(log)
  {
  }

  /** No step moves the version backwards, and one that changes the document moves it forwards. */
  lemma NextMovesTheVersion(s: State, step: Step)
    ensures Forward(s, Next(s, step))
  {
    match step
    case Write(op) =>
    case BeginMedia(id, n, t) => MediaIsNotInTheDocument(s.log, Begun(s.log.media, id, n, t));
    case MarkMedia(id) => MediaIsNotInTheDocument(s.log, Marked(s.log.media, id));
    case Aborted =>
  }

  lemma ForwardAgain(a: State, b: State, step: Step)
    requires Forward(a, b)
    ensures Forward(a, Next(b, step))
  {
    NextMovesTheVersion(b, step);
  }

  lemma {:induction false} RunMovesTheVersion(steps: seq<Step>, i: nat, j: nat)
    requires i <= j <= |steps|
    ensures Forward(After(Start, steps[..i]), After(Start, steps[..j]))
    decreases j
  {
    if i < j {
      RunMovesTheVersion(steps, i, j - 1);
      ForwardAgain(After(Start, steps[..i]), After(Start, steps[..j - 1]), steps[j - 1]);
      AfterPrefix(Start, steps, j - 1);
    }
  }

  /** The document a tag was handed out with is the document of every state that would hand out that tag. */
  lemma TagNamesOneDocument(steps: seq<Step>, i: nat, j: nat)
    requires i <= |steps| && j <= |steps|
    requires After(Start, steps[..i]).version == After(Start, steps[..j]).version
    ensures DocumentOf(After(Start, steps[..i]).log) == DocumentOf(After(Start, steps[..j]).log)
  {
    if i <= j { RunMovesTheVersion(steps, i, j); } else { RunMovesTheVersion(steps, j, i); }
  }

  /** The client sends back tags it was given, at any earlier or later points of the run, however it spaces
      them and whether it keeps the weak marker. The answer is 304 exactly when one of them is of the version
      now current, and then the document it came with is the one a full read would now emit. */
  lemma ConditionalReadIsSound(steps: seq<Step>, members: seq<ETags.Member>, given: seq<nat>, j: nat)
    requires j <= |steps| && |given| == |members| > 0
    requires forall k | 0 <= k < |members| ::
               && members[k].Padded() && members[k].emitter == EMITTER_VERSION
               && given[k] <= |steps| && members[k].logbook == After(Start, steps[..given[k]]).version >= 1
    ensures var now := After(Start, steps[..j]);
            var read := ReadOf(now, ETags.Join(ETags.Rendered(members)));
            && (read.NotModified? <==> exists k | 0 <= k < |members| :: members[k].logbook == now.version)
            && (read.Full? ==> read.document == DocumentOf(now.log))
            && forall k | 0 <= k < |members| && members[k].logbook == now.version ::
                 DocumentOf(After(Start, steps[..given[k]]).log) == DocumentOf(now.log)
  {
    var now := After(Start, steps[..j]);
    if now.version >= 1 {
      ETags.ListMatchesExactly(members, EMITTER_VERSION, now.version);
    }
    forall k | 0 <= k < |members| && members[k].logbook == now.version
      ensures DocumentOf(After(Start, steps[..given[k]]).log) == DocumentOf(now.log)
    {
      TagNamesOneDocument(steps, given[k], j);
    }
  }

  /** Any header at all: the answer is 304 exactly when the log has been written to and the header is a star or one
      of its comma-separated parts carries the current opaque tag. */
  lemma NotModifiedExactly(s: State, header: string)
    ensures ReadOf(s, header).NotModified? <==>
            && s.version >= 1
            && (|| Text.TrimSpace(header) == "*"
                || (exists part :: part in ETags.Split(Text.TrimSpace(header)) &&
                      ETags.OpaqueTag(part) == Some(ETags.Opaque(EMITTER_VERSION, s.version))))
  {
    var trimmed := Text.TrimSpace(header);
    if s.version < 1 {
      ETags.NoTagFromNothing();
    } else {
      var current := ETags.Opaque(EMITTER_VERSION, s.version);
      ETags.OpaqueTagOfFormatted(EMITTER_VERSION, s.version);
      ETags.AnyNamesExactly(ETags.Split(trimmed), current);
      ETags.NothingNames("", current);
    }
  }

  /** Whatever header but a star is answered 304 along a run: some part of it carries the current tag, and every
      state of the run that handed that tag out had the document a full read would now give. */
  lemma AnyHeaderIsSound(steps: seq<Step>, j: nat, header: string) returns (part: string)
    requires j <= |steps| && Text.TrimSpace(header) != "*"
    requires ReadOf(After(Start, steps[..j]), header).NotModified?
    ensures part in ETags.Split(Text.TrimSpace(header))
    ensures ETags.OpaqueTag(part).Some? &&
            ETags.OpaqueTag(part) == ETags.OpaqueTag(TagFor(After(Start, steps[..j]).version))
    ensures forall i | 0 <= i <= |steps| &&
              ETags.OpaqueTag(TagFor(After(Start, steps[..i]).version)) == ETags.OpaqueTag(part) ::
              DocumentOf(After(Start, steps[..i]).log) == DocumentOf(After(Start, steps[..j]).log)
  {
    var now := After(Start, steps[..j]);
    NotModifiedExactly(now, header);
    part :| part in ETags.Split(Text.TrimSpace(header)) &&
            ETags.OpaqueTag(part) == Some(ETags.Opaque(EMITTER_VERSION, now.version));
    TagForIsOpaque(now.version);
    forall i | 0 <= i <= |steps| && ETags.OpaqueTag(TagFor(After(Start, steps[..i]).version)) == ETags.OpaqueTag(part)
      ensures DocumentOf(After(Start, steps[..i]).log) == DocumentOf(now.log)
    {
      TagsTellVersionsApart(After(Start, steps[..i]).version, now.version);
      TagNamesOneDocument(steps, i, j);
    }
  }

  lemma TagForIsOpaque(version: nat)
    ensures ETags.OpaqueTag(TagFor(version)) ==
            if version < 1 then None else Some(ETags.Opaque(EMITTER_VERSION, version))
  {
    if version < 1 { ETags.NoTagFromNothing(); } else { ETags.OpaqueTagOfFormatted(EMITTER_VERSION, version); }
  }

  lemma TagsTellVersionsApart(a: nat, b: nat)
    requires ETags.OpaqueTag(TagFor(a)).Some? && ETags.OpaqueTag(TagFor(a)) == ETags.OpaqueTag(TagFor(b))
    ensures a == b
  {
    TagForIsOpaque(a);
    TagForIsOpaque(b);
    ETags.OpaqueIsInjective(EMITTER_VERSION, a, EMITTER_VERSION, b);
  }

  lemma OlderTagsGetTheDocument(s: State, older: nat, weak: bool)
    requires 1 <= older < s.version
    ensures ReadOf(s, ETags.Member("", weak, EMITTER_VERSION, older, "").Render()).Full?
  {
    var m := ETags.Member("", weak, EMITTER_VERSION, older, "");
    ETags.ListMatchesExactly([m], EMITTER_VERSION, s.version);
    assert ETags.Rendered([m]) == [m.Render()];
  }

  /** A write that committed is never answered 304 to a client still holding an older tag. */
  lemma AnOlderTagIsNeverCurrent(s: State, op: Op, weak: bool)
    requires s.version >= 1 && Apply(s.log, op).Committed?
    ensures ReadOf(Next(s, Write(op)), ETags.Member("", weak, EMITTER_VERSION, s.version, "").Render()).Full?
  {
    OlderTagsGetTheDocument(Next(s, Write(op)), s.version, weak);
  }

  lemma NothingWritten(s: Sheets, id: Id)
    requires id !in s.photos
    ensures Written(s, Gone(id)) == s
  {
    assert s.photos - {id} == s.photos;
  }

  lemma DeletingNothingSplices(log: Log, id: Id)
    requires id !in log.photos
    ensures DocumentOf(log) == Spliced(DocumentOf(log), Gone(id))
  {
    var sheets := SheetsOf(log);
    SheetsAreKeyed(log);
    NothingWritten(sheets, id);
    SplicedIsRendered(sheets, Gone(id));
  }

  lemma MissSplices(log: Log, op: Op)
    requires MissAnswer(log, op).Some? && (op.DeletePhoto? ==> op.id !in log.photos)
    ensures DocumentOf(log) == Spliced(DocumentOf(log), MissAnswer(log, op).value)
  {
    match op
    case DeletePhoto(id) => DeletingNothingSplices(log, id);
    case SnoozePhotos(_, _) => SplicingNothing(DocumentOf(log));
    case _ =>
  }

  lemma SplicingNothing(doc: Document)
    ensures doc == Spliced(doc, Photos([]))
  {
  }

  /** Every reply that is not an error carries the version it belongs to, and splicing it into the document
      of the version before gives the document of that version. */
  lemma EveryReplySplices(s: State, op: Op)
    requires !op.NewShareLink? && ReplyTo(s, op).Answered?
    ensures ReplyTo(s, op).version == Next(s, Write(op)).version
    ensures DocumentOf(Next(s, Write(op)).log) == Spliced(DocumentOf(s.log), ReplyTo(s, op).answer)
  {
    if Apply(s.log, op).Committed? {
      EveryAnswerSplices(s.log, op);
    } else {
      MissSplices(s.log, op);
    }
  }
}
