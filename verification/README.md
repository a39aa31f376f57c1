# Travel log backend: a verified model

A Dafny model of the parts of the travel log server whose correctness is not visible in any one function: the
traveller's log in PostgreSQL, the conditional read that caches it, the media protocol between rows and bucket, the
migration runner with its SQL lexer, the rate limiter, the compressing response writer, sessions, sign-in codes and
invites, and the public page of a shared trip.

`dafny verify dfyconfig.toml` checks everything. There is no assumption in the code; what the model takes for granted
is said here.

## How it is laid out

The traveller log:

- `Ordering.dfy`, `Tables.dfy`: the one order every query asks for, the rows, and the schema's constraints as
  predicates. `Closed` is every foreign key resolving and every ordered collection having distinct ordinals.
- `Writes.dfy`: each store write as a function from a log to a new log or a refusal; `Apply` is all fourteen.
- `Transactions.dfy`: the same writes statement by statement, over a class whose row statements have the database's
  constraints as preconditions. `Parking.dfy` holds the argument for the two ordinal rewrites.
- `Invariants.dfy`, `Filing.dfy`, `Runs.dfy`, `FiledCities.dfy`: what every write keeps, and what follows for whole
  runs; `Deletion.dfy`: what deleting a trip leaves of everything else.
- `Documents.dfy`, `Splicing.dfy`: the whole-log document, and what a client may do with a bare answer.
- `ETags.dfy`, `EntityTags.dfy`, `Store.dfy`: the tag codec, lists of tags, the store of committed states, and the
  conditional read.

The rest: `Media.dfy`, `MediaShelf.dfy`, `MediaSafety.dfy`, `Bucket.dfy` (media protocol and sweep);
`Splitter.dfy`, `SplitLaws.dfy`, `SplitOutputs.dfy`, `SplitCode.dfy`, `Manual.dfy`, `Loading.dfy`, `Migrate.dfy`,
`Convergence.dfy` (SQL splitting and migrations); `Limiter.dfy`; `Gzip.dfy`; `Sessions.dfy`, `Touches.dfy`,
`Codes.dfy`, `SignIns.dfy`, `Guesses.dfy`, `Invites.dfy`, `AuthService.dfy` (sessions, codes and invites);
`PublicShare.dfy`, `Noninterference.dfy`, `SharedReads.dfy`, `SharedPlaces.dfy`, `SharedCities.dfy` (the public page).
`Options.dfy` and `Text.dfy` are shared.

## What is taken for granted

- The database does what the migrations declare: unique indexes are checked row by row, cascades and SET NULL fire
  with their parent's delete, a transaction is atomic, the advisory lock lets one traveller's transactions run one at a
  time, and a snapshot is one committed state.
- Bodies have passed the shape validators, of which only distinct visit ids and distinct city ids matter here. Anything
  else that aborts a write is the step `Aborted`, which leaves no trace.
- Ids compare by code point. Instants are integers on one clock. Dates are UTC midnights. Ordinals are unbounded.
- sha256 is any function, gzip any codec whose decoder undoes its encoder, tokens and codes are their own digests.
- An invite's digest is drawn fresh: none is minted twice. Nor is a share token, while a read that presents it is on.
- A call reads the clock at the moment it reads the row it judges.
- `strings.TrimSpace` is modelled over ASCII.
- A migration's statement that fails changes nothing (`Migrate.Exec`). Inside a transaction the database sees to that;
  in a no-transaction file it is a demand on the statement. CREATE INDEX CONCURRENTLY, for one, can fail and leave an
  invalid index behind, which IF NOT EXISTS then takes for the index.
- The PostgreSQL manual is read with standard_conforming_strings on, and with letters glued to a run of digits as part
  of one number, which PostgreSQL rejects; what follows a decimal point is read on its own. What it leaves open
  (whether a block comment may stand inside a continued string, which bytes end a line or are blank) is a parameter
  that every statement about it holds for.

## Where the code and what is said of it part

- A photograph that is filed and then moved to another trip, or whose occasion is, no longer shares its occasion's
  trip; deleting that trip then leaves it naming a place and no occasion (`Runs.ATripMoveCanStrandAPhoto`). The two
  writes that do this are exactly the ones `Filing.CoherenceExactly` names.
- The trip answered by a new share link carries its token, which a full read never does, so splicing that one answer
  does not give the full read (`Splicing.NewLinkSplicesButForItsToken`).
- The splitter takes a vertical tab or a form feed for code, and trimming then drops it: such a file can yield a
  statement that is only a comment (`SplitOutputs.ALoneCommentCanComeOut`).
- The splitter looks at the bytes before a quote where the PostgreSQL manual reads words, and keeps nothing from one
  string to the next. So a dollar sign inside an identifier can open a quote, an identifier that only ends in `E` an
  escape string, a dollar quote with letters outside ASCII in its tag is not seen, and an escape string continued on
  another line loses its escapes there. Apart from these four it follows the manual, unless the manual is read to take
  vertical tab and form feed for blanks or a carriage return for the end of a line comment, which the splitter does not
  (`Manual.FollowsTheManualExactly`, `Manual.ADelimiterInAnIdentifierHidesASeparator`,
  `Manual.AContinuedEscapeStringIsCut`).
- An administrator may delete an invite that a registration is using or has used. The account is made all the same, so
  accounts can outnumber the rows marked used; they never outnumber the digests ever spent
  (`Invites.ARevokedClaimStillMakesAnAccount`, `Invites.StaysOnRecordExactly`).
- A public page can name a place it does not show: after a filed photograph moves to a trip that has no visit to its
  place, or after the visits of a place are rewritten with none left on the trip of a photograph filed there. No other
  write does it (`SharedPlaces.PagesStayWholeExactly`). It can also name a city it does not list, since nothing ties a
  place, photograph or walk to its trip's itinerary (`SharedCities.CitiesStayListedExactly`).
- The public read resolves the link in one statement and reads the trip in another. A write in between that withdraws
  the link is not noticed (`SharedReads.ReadsAsAtOnceExactly`); and stopping sharing also resets the switches, so a
  stranger can be shown photographs that were kept back for as long as the link lived
  (`SharedReads.StoppingInBetweenPublishesPhotographs`, `SharedReads.OneWriteBetweenExactly`).
- Filing asks that photograph and place be in one city, and later writes do not: a filed photograph or its place may be
  sent to another city (`FiledCities.CitiesAgreeExactly`), after which even filing it where it is is refused
  (`FiledCities.RefiledInPlaceExactly`).
- A sign-in reads the code and then deletes it whether or not it is still there, so one code gives two sessions when two
  calls have read it before either deletes it (`SignIns.AnOverlapGivesTwoSessions`); in no other interleaving does it
  (`SignIns.TwoSessionsCanFollowExactly`). A wrong code is counted after it was judged, so overlapping calls can have
  more than five judged against one issue, by as many as are not counted yet (`Guesses.GuessesAreBounded`,
  `Guesses.TheBoundIsReached`).
- A session's touch asks neither for its expiry nor its revocation. One that lands after the expiry brings back a
  session that was already refused (`Touches.ALateTouchRevives`, `Touches.RevivalCanFollowExactly`); a revoked one stays
  dead, and none outlives its last accepted use by more than the TTL (`Touches.NoInterleavingOutlivesTheWindow`).
- The compressing writer takes an informational status for the final one (`Gzip.StatusIsTransparentExactly`).
- A re-begin that falls between a commit's check and its mark leaves a committed row whose declared size is not the
  stored one (`MediaSafety.AReBeginCanSlipIn`).
- The comment above the sweep's minimum age says that it does not rely on a row being written before its upload. That
  is so for a row that comes within the minimum age, less the time between reading the rows and listing, of its upload,
  and no later (`MediaShelf.LagToleratedExactly`): a day less five minutes, with the deadline. Without the deadline even
  a row written first would not help (`MediaShelf.WithoutADeadlineASweepCouldTakeLiveBytes`).

## Model

| member | source | states |
|---|---|---|
| `Ordering.ListingIsUnique` | internal/postgres/logbook_store.go:18-52 | a set of rows has exactly one sequence that holds each once in rank, then id order; so any list shown to be ordered is the query's answer |
| `Ordering.ListingDependsOnOrderOnly` | internal/postgres/share_read.go:47-52 | a listing depends on the relative order of its rows and not on the ordinals that give it |
| `Ordering.SpliceIsARowWrite` | internal/postgres/logbook_store.go:76-99 | replacing or inserting an entity in id order in a rendered table is rendering the table with that row written |
| `Tables.MaxOrdinal` | internal/postgres/place_store.go:64-69 | bounds every ordinal of the place and is one of them, or -1 where there is none |
| `Tables.MaxCityOrdinal` | internal/postgres/city_store.go:39-43 | bounds every ordinal of the trip's cities and is one of them, or -1 where there is none |
| `Parking.ParkingNeverCollides` | internal/postgres/place_store.go:64-69 | with any subset of the place's rows already parked, no two visits of a place share an ordinal |
| `Parking.UpsertingNeverCollides` | internal/postgres/place_store.go:185-218 | with any subset of the sent rows already written over the parked table, in any order and batching, no two visits of a place share an ordinal |
| `Parking.ThreePhasesRewrite` | internal/postgres/place_store.go:144-183 | parking, writing every sent row and deleting what the array left out is exactly the rewrite |
| `Parking.RankingNeverCollides` | internal/postgres/photo_store.go:325-331 | with any subset of the place's rows already at their rank over the parked table, no two visits share an ordinal |
| `Parking.WithoutParkingASwapCollides` | internal/postgres/place_store.go:64-69 | swapping two ordinals with no parking violates the unique index at the first row, whichever that is |
| `Parking.RenumberedIsNewestFirst` | internal/postgres/photo_store.go:325-331 | after renumbering the place's visits stand at ordinals 0..n-1, newest first with id breaking ties, whatever gaps there were |
| `Parking.MintedOccasionIsAPermutation` | internal/postgres/photo_store.go:317-331 | after a minted occasion the place holds its old visits and the new one, each otherwise as it was, and other places are untouched |
| `Transactions.Tx.SetOrdinal` | migrations/0001_init.up.sql:328-349 | one row's ordinal changes, and only where the (place, ordinal) index allows it |
| `Transactions.Tx.UpsertVisit` | migrations/0001_init.up.sql:328-349 | one visit row is written, and only where its place, trip and ordinal satisfy the schema |
| `Transactions.Tx.DeleteVisit` | migrations/0001_init.up.sql:374-410 | one visit goes, and every photograph naming it loses that and nothing else |
| `Transactions.Tx.ParkOrdinals` | internal/postgres/place_store.go:64-69 | every visit of the place moves up by an offset above every stored and every incoming ordinal, with no collision on the way and no other row touched |
| `Transactions.Tx.UpsertVisits` | internal/postgres/place_store.go:185-218 | one batch, its rows in any order, takes the table from the first rows written to the first and next rows written |
| `Transactions.Tx.DeleteDeparted` | internal/postgres/place_store.go:71-73 | exactly the place's visits outside the array go, and no photograph changes |
| `Transactions.Tx.CheckVisits` | internal/postgres/place_store.go:235-311 | answers yes exactly when every named trip exists, no id is held at another place and no occupied visit departs |
| `Transactions.Tx.WriteVisits` | internal/postgres/place_store.go:144-183 | accepts exactly the writable arrays; then the visits are the rewrite, and in any case no photograph changes |
| `Transactions.Tx.RenumberVisits` | internal/postgres/photo_store.go:426-440 | the place's visits become the renumbered ones, with no collision on the way, from any distinct natural ordinals |
| `Transactions.Tx.MintOccasion` | internal/postgres/photo_store.go:399-440 | the new occasion enters above every ordinal and the place is renumbered |
| `Transactions.Tx.PutPlace` | internal/postgres/place_store.go:77-132 | refuses as specified, and otherwise commits the specified log, meeting every constraint on the way |
| `Transactions.Tx.RemovePlace` | internal/postgres/place_store.go:370-408 | a missing place is reported; otherwise the log without it, its photographs kept or deleted as asked |
| `Transactions.Tx.PutTrip` | internal/postgres/logbook_store.go:350-401 | refuses as specified, and otherwise commits the specified log, meeting every constraint on the way |
| `Transactions.Tx.ReplaceTripCities` | internal/postgres/logbook_store.go:446-456 | the trip's cities become the list at ordinals 0..n-1, with no collision on the way, other trips untouched |
| `Transactions.Tx.PutCity` | internal/postgres/city_store.go:46-119 | refuses as specified, attachTo included, and otherwise commits the specified log |
| `Transactions.Tx.AttachCity` | internal/postgres/city_store.go:39-43 | the city is appended above every ordinal of the trip, or nothing happens if it is there |
| `Transactions.Tx.PutPhoto` | internal/postgres/photo_store.go:44-104 | refuses as specified, and otherwise commits the specified log, meeting every constraint on the way |
| `Transactions.Tx.SnoozePhotos` | internal/postgres/photo_store.go:248-305 | exactly the named photographs that exist are moved; none at all is reported |
| `Transactions.Tx.RefilePhoto` | internal/postgres/photo_store.go:340-395 | refuses as specified, and otherwise files the photograph under an existing or a minted occasion |
| `Transactions.Tx.PutWalk` | internal/postgres/walk_store.go:66-124 | refuses as specified, and otherwise commits the specified log |
| `Transactions.Tx.SetShareOptions` | internal/postgres/share_store.go:42-54 | only the switches sent change |
| `Transactions.Tx.NewShareLink` | internal/postgres/share_store.go:58-73 | the live link is revoked before the new one goes in, so the one-live index is never met |
| `Transactions.Tx.StopSharing` | internal/postgres/share_store.go:77-87 | the live link is revoked and the switches return to their defaults |
| `Invariants.ApplyKeepsClosed` | internal/postgres/logbook_store.go:405-489 | no write that passes its own checks leaves a reference unresolved, an ordinal shared or two live links on a trip |
| `Runs.EveryRunIsClosed` | internal/postgres/tx.go:26-76 | in every state any run from an empty log reaches, every id resolves, ordinals are distinct, and a photograph naming an occasion names that occasion's place |
| `Filing.ApplyKeepsPair` | internal/postgres/photo_store.go:340-424 | every write keeps a photograph that names an occasion naming that occasion's own place |
| `Filing.CoherenceExactly` | internal/logbook/writable.go:205-220 | a committed write keeps every photograph filed whole and on its occasion's trip if and only if it is not one of the two that move a trip under a filing |
| `Filing.RemovePlacePhotos` | internal/postgres/place_store.go:370-408 | keep clears both filing columns on exactly the photographs filed there and loses none; delete removes exactly those |
| `Deletion.OthersPhotosKeepTheirFilingExactly` | internal/postgres/logbook_store.go:545-583 | no row names a deleted trip; another trip's photograph survives whole and loses its occasion if and only if that was on the deleted trip, which in a coherent log it never was |
| `Deletion.DeletedTripLeavesTheOrder` | internal/postgres/logbook_store.go:545-583 | a place's visits on other trips are read back in the order they had, the deleted trip's cut out |
| `Deletion.DeletingATripChangesNoOtherPage` | internal/postgres/logbook_store.go:545-583 | the public page of every other trip, its errors and what it mints stay exactly what they were |
| `Runs.EveryRunIsCoherentUntilATripMoves` | internal/postgres/photo_store.go:340-424 | while no write has moved a trip under a filing, a photograph names a place exactly when it names an occasion and shares its trip |
| `Runs.NextCoherence` | internal/postgres/place_store.go:262-302 | one step from a coherent state keeps coherence exactly when it does not move a trip under a filing |
| `Runs.ATripMoveCanStrandAPhoto` | internal/postgres/logbook_store.go:553-583 | a ten-step run that ends with a photograph naming a place and no occasion |
| `FiledCities.CitiesAgreeExactly` | internal/logbook/writable.go:180-191 | a committed write keeps every photograph in the city of the place it names if and only if it does not send a placed photograph, or a place that is named, to another city |
| `FiledCities.EveryRunAgreesUntilACityMoves` | internal/postgres/photo_store.go:340-388 | in every run the cities agree until the first write that moves one under a filing, and not after it |
| `FiledCities.RefiledInPlaceExactly` | internal/postgres/photo_store.go:340-388 | filing a coherently filed photograph where it is changes nothing if the cities agree and is refused if they do not |
| `FiledCities.APlaceCanMoveFromUnderItsPhotographs` | internal/postgres/place_store.go:77-132 | a ten-step run after which a photograph and the place it names are in different cities |
| `Documents.RegroupedVisits` | internal/postgres/logbook_store.go:169-216 | cutting the one ordered query by place gives each place what reading it alone would |
| `Documents.GroupByPlace` | internal/postgres/logbook_store.go:196-216 | each place's slice is exactly the rows that name it, in their order |
| `Documents.ReadPlaces` | internal/postgres/logbook_store.go:169-194 | the places in id order, each with its own visits in ordinal order |
| `Splicing.RewrittenReadsBack` | internal/postgres/place_store.go:144-183 | reading the place back by ordinal gives exactly the sent array |
| `Splicing.AnswerNamesWhatMoved` | internal/postgres/photo_store.go:340-388 | a write that does not answer the whole log changes only the rows its answer names |
| `Splicing.EveryAnswerSplices` | internal/postgres/logbook_store.go:350-401 | after every committed write but a new link, splicing the answer into the previous document gives what a full read returns |
| `Splicing.NewLinkSplicesButForItsToken` | internal/postgres/share_store.go:58-73 | for a new link the spliced document differs from the full read in the token alone, and does differ |
| `Store.RunBody` | internal/postgres/tx.go:26-50 | the body inside the transaction refuses and changes rows exactly as specified, for every operation |
| `Store.TravellerStore.WithTravellerTx` | internal/postgres/tx.go:26-50 | one committed step of the run, version and rows together; a refusal or a failed commit leaves neither |
| `Store.TravellerStore.BeginMedia` | internal/postgres/media_store.go:20-72 | the row is upserted unless it is committed, the version stands, and the answer is the row as it is |
| `Store.TravellerStore.MarkMediaUploaded` | internal/postgres/media_store.go:41-114 | the row is marked if it is there, the version stands, and the answer is the row as it is |
| `ConditionalRead.NextMovesTheVersion` | internal/postgres/tx.go:26-76 | no step moves the version back, and one that leaves it leaves the document |
| `ConditionalRead.TagNamesOneDocument` | internal/postgres/logbook_store.go:55-99 | two states of a run with the same version have the same document |
| `ConditionalRead.ConditionalReadIsSound` | internal/httpx/etag.go:49-69 | for a list of tags handed out along the run, the answer is 304 exactly when one is of the current version, and then its document is the one a full read would give |
| `ConditionalRead.NotModifiedExactly` | internal/httpx/etag.go:49-69 | for any header text, 304 exactly when the log was ever written to and the header is a star or has a part with the current opaque tag |
| `ConditionalRead.AnyHeaderIsSound` | internal/httpapi/logbook_handlers.go:32-49 | whatever header but a star gets a 304, some part of it carries the current tag, and every state of the run that handed out that tag had the document a full read would now give |
| `ConditionalRead.AnOlderTagIsNeverCurrent` | internal/httpapi/logbook_handlers.go:32-49 | after a committed write the previous tag, weak or strong, gets the full document |
| `ConditionalRead.EveryReplySplices` | internal/postgres/place_store.go:370-408 | every reply that is not an error, misses included, carries its version and splices into the document before it |
| `ETags.ParseOfFormat` | internal/httpx/etag.go:11-45 | parsing a formatted tag gives both numbers back, for all values from 1 to the largest int64 |
| `ETags.OpaqueIsInjective` | internal/httpx/etag.go:11-21 | two tags are equal only for equal numbers |
| `ETags.ETagMatches` | internal/httpx/etag.go:49-80 | the loop answers as section 13.1.2 of RFC 9110 with the weak comparison of section 8.8.3.2 |
| `ETags.ListMatchesExactly` | internal/httpx/etag.go:49-80 | a comma-separated list of formatted tags, weak or strong and spaced anyhow, matches exactly when a member has the same two numbers |
| `EntityTags.AnyListMatchesExactly` | internal/httpx/etag.go:49-80 | any list of entity-tags of section 8.8.3 of RFC 9110, with commas inside their quotes, empty members and any spacing, matches exactly when one of them has the text of the current tag |
| `Bucket.MemoryBucket.Put` | internal/media/memory.go:90-125 | accepts exactly an untaken address with the signed length and digest, and never changes an object that is there |
| `Bucket.MemoryBucket.Stat` | internal/media/memory.go:71-86 | answers the stored size, type and digest, or nothing |
| `Bucket.CommitMedia` | internal/logbook/service.go:24-62 | marks the row exactly when the stored size, digest and type are the declared ones; a committed row is answered, a missing one and a mismatch refused, with nothing written |
| `Bucket.Plan` | internal/sweep/sweep.go:32-55 | orphans in listing order with their total bytes, how many were seen and how many were too young |
| `Bucket.OrphansExactly` | internal/sweep/sweep.go:42-53 | an item is planned exactly when no row seen names it and it is at least the minimum age |
| `Bucket.PlanIsTheProtocolStep` | internal/sweep/sweep.go:32-55 | over a listing of the whole bucket the plan is the set the protocol's planning step takes |
| `Bucket.Apply` | internal/sweep/sweep.go:58-68 | every orphan is deleted or reported failed, and the bucket loses exactly those not refused |
| `MediaShelf.DidKeepsSafe` | internal/postgres/media_store.go:43-114 | every step of the protocol keeps the invariant that ties rows, objects, URLs, commits and sweeps together |
| `MediaShelf.OrphansAreOfTheDeleted` | cmd/sweep/main.go:68-75 | where every row comes at most a lag after its upload, and that lag and the time between reading the rows and listing are together less than the minimum age, everything planned belongs to a deleted traveller |
| `MediaShelf.WithoutADeadlineASweepCouldTakeLiveBytes` | cmd/sweep/main.go:20-24 | an eight-step run after which a listing one minimum age late would take a live traveller's committed object |
| `MediaShelf.LagToleratedExactly` | cmd/sweep/main.go:20-24 | sweeps that list so long after reading the rows plan only deleted travellers' objects, in every state whose rows come at most a lag late, if and only if the two together are less than the minimum age |
| `MediaShelf.ALateRowLosesItsBytes` | cmd/sweep/main.go:20-22 | at that sum and beyond, a state where all else holds and the sweep plans a live traveller's committed bytes |
| `MediaShelf.MarkMatchesExactly` | internal/logbook/service.go:46-61 | a mark leaves row and object agreeing in size and type if and only if the row still declares what the commit read |
| `MediaShelf.UndisturbedRunsMatch` | internal/postgres/media_store.go:22-27 | in runs with no conflicting re-begin under a commit, every committed row matches its object |
| `MediaSafety.DoIsDoneOnTheShelf` | internal/postgres/admin_store.go:199-252 | each step over full logs is that step over their media rows |
| `MediaSafety.EveryReferenceHasItsBytes` | internal/postgres/photo_store.go:151-163 | over every interleaving, every photograph and every cover names a committed row whose bytes are in the bucket under that digest |
| `MediaSafety.CommittedRowsNeverChange` | internal/postgres/media_store.go:20-45 | a committed row and its object stay exactly as they are until the traveller is deleted |
| `MediaSafety.NoSweepDeletesAReferencedObject` | internal/sweep/sweep.go:32-68 | what a sweep deletes has no row at that moment and none at any later one |
| `MediaSafety.CommittedRowsMatchTheirObjects` | internal/logbook/service.go:24-62 | declared size and type are the stored ones in every run where no digest is declared otherwise under a commit |
| `MediaSafety.AReBeginCanSlipIn` | internal/postgres/media_store.go:22-27 | a run that ends with a committed row that does not match its object |
| `Splitter.SkipLine` | internal/postgres/split.go:29-32 | stops at the newline or the end |
| `Splitter.SkipBlock` | internal/postgres/split.go:34-48 | stops where the nesting closes or at the end |
| `Splitter.SkipQuoted` | internal/postgres/split.go:50-84 | stops after the closing quote, doubled and escaped quotes passed over |
| `Splitter.DollarTag` | internal/postgres/split.go:111-124 | finds the delimiter that starts here exactly when one does |
| `Splitter.Step` | internal/postgres/split.go:22-106 | one turn of the switch takes exactly the token the text begins with |
| `Splitter.SplitStatements` | internal/postgres/split.go:7-109 | the index loop computes the split over tokens |
| `SplitLaws.SplitOfJoin` | internal/postgres/split.go:7-109 | splitting a `;`-join of trimmed statements that hold code, close what they open and have no separator gives the list back |
| `SplitOutputs.OutputsAreSlices` | internal/postgres/split.go:7-109 | for any text the outputs are non-empty slices of it, in order and apart, holding no separator, and every other byte is blank, comment or separator |
| `SplitOutputs.OutputsSplitToThemselves` | internal/postgres/split.go:7-109 | an output splits to itself alone or to nothing; in a text without vertical tabs and form feeds each splits to itself |
| `SplitCode.OutputsSplitToThemselvesExactly` | internal/postgres/split.go:7-109 | an output splits to itself alone if and only if some byte of its place in the source text belongs to code |
| `SplitOutputs.ALoneCommentCanComeOut` | internal/postgres/split.go:100-104 | a vertical tab before a comment yields the comment as a statement, which splits to nothing |
| `Manual.FollowsTheManualExactly` | internal/postgres/split.go:22-131 | for any text and any reading of what the manual leaves open, every byte is classed as sections 4.1.1, 4.1.2 and 4.1.5 of the PostgreSQL manual class it if and only if no token is a dollar quote opened inside an identifier, a tag with letters outside ASCII, an escape string after a word that only ends in E, a plain string that continues an escape string, or, as read, a feed that is a blank or a line comment with a carriage return |
| `Manual.CutsWhereTheManualDoes` | internal/postgres/split.go:22-106 | in a text with none of these tokens the splitter cuts exactly at the manual's top-level semicolons |
| `Manual.ADelimiterInAnIdentifierHidesASeparator` | internal/postgres/split.go:86-98 | in `a$b$;x` the splitter takes the semicolon for quoted text and the manual for a separator |
| `Manual.AContinuedEscapeStringIsCut` | internal/postgres/split.go:50-69 | an escape string whose second line holds an escaped quote and a semicolon is cut at the semicolon, which the manual has inside the string, however it is read |
| `Loading.LoadMigrations` | internal/postgres/migrate.go:217-286 | accepts a directory exactly when names, versions, re-runnable declarations and down files are in order, and then answers its up files sorted by name with distinct versions |
| `Loading.DeclaresReRunnable` | internal/postgres/migrate.go:290-305 | true exactly when a line of the comment header says so |
| `Migrate.Migrator.Apply` | internal/postgres/migrate.go:151-193 | a transactional file keeps nothing unless it commits with its record; a no-transaction file keeps each statement it ran |
| `Migrate.Migrator.Migrate` | internal/postgres/migrate.go:71-134 | one attempt, cut after any number of commands, with what it applied and why it ended |
| `Convergence.MigrationConverges` | internal/postgres/migrate.go:71-134 | however often and wherever earlier attempts were cut, an attempt that succeeds ends with the schema, checksums and commits of one uninterrupted run |
| `Convergence.InterruptionsNeverBreakAMigration` | internal/postgres/migrate.go:71-134 | if one uninterrupted run would succeed, no attempt ever fails, and one left alone finishes |
| `Convergence.EachTransactionCommitsOnce` | internal/postgres/migrate.go:174-193 | each transactional file not recorded before commits exactly once, in order |
| `Convergence.EveryFileIsRecorded` | internal/postgres/migrate.go:151-193 | every file ends recorded under its checksum, and earlier records stand |
| `Convergence.WithoutReRunnableItParts` | internal/postgres/migrate.go:159-172 | a no-transaction file for which some prefix then the whole is not the whole does not converge when cut there |
| `Limiter.TokenBucket.Allow` | internal/httpx/ratelimit.go:44-66 | answers and leaves the buckets as the refill rule says, a new key pruning first when too many are held |
| `Limiter.TokenBucket.Prune` | internal/httpx/ratelimit.go:76-82 | exactly the buckets already full again are dropped |
| `Limiter.PruningIsInvisible` | internal/httpx/ratelimit.go:44-82 | for every rate, threshold and sequence of calls on a clock that does not go back, the answers are those of a limiter that never deletes |
| `Limiter.KeysAreIndependent` | internal/httpx/ratelimit.go:44-66 | a key's answers are those it would get if it were the only caller |
| `Limiter.TokensStayInRange` | internal/httpx/ratelimit.go:44-82 | in every state of every run of the pruning limiter, for every threshold, each bucket's tokens are within 0..burst |
| `Limiter.WindowsAreBounded` | internal/httpx/ratelimit.go:31-66 | over any window of a run one key is granted at most burst + rate times the window's length |
| `Gzip.CompressWriter.WriteHeader` | internal/httpx/gzip.go:83-96 | the writer's whole state stays the function of the calls so far |
| `Gzip.CompressWriter.Write` | internal/httpx/gzip.go:98-135 | the writer's whole state stays the function of the calls so far, the decision to compress included |
| `Gzip.CompressWriter.Close` | internal/httpx/gzip.go:138-153 | what the writer underneath has received is the specified response |
| `Gzip.Serve` | internal/httpx/gzip.go:30-45 | any calls of a handler, through the middleware, give the specified response |
| `Gzip.NothingIsLostOrSaidTwice` | internal/httpx/gzip.go:83-153 | one status at most, the first given or 200; decoded, the bytes are all the writes; gzip exactly when the status may carry a body and the total reaches 1400 |
| `Gzip.ChunkingIsInvisible` | internal/httpx/gzip.go:98-117 | two handlers with the same first status and the same bytes give the same response however they cut them |
| `Gzip.StatusIsTransparentExactly` | internal/httpx/gzip.go:83-96 | without the middleware the client reads the first status that is not informational, or 200; with it the client does so if and only if the first call was not informational or that status is 200 |
| `Gzip.AnEarlyHintHidesTheStatus` | internal/httpx/gzip.go:90-94 | 103 then 404 is read as 200 |
| `AuthService.Service.Authenticate` | internal/auth/service.go:153-182 | the session is accepted exactly when it is there, not revoked and not expired, and touched only when its last use is stale |
| `AuthService.Service.RevokeSession` | internal/auth/memory.go:204-218 | revokes exactly the traveller's own live session and says whether it did |
| `AuthService.Service.RevokeEverySession` | internal/auth/memory.go:220-237 | revokes exactly the traveller's unrevoked sessions and counts them |
| `Sessions.LazyTouchRefinesTheWindow` | internal/auth/service.go:153-182 | a session last used at u expires in (u + TTL - interval, u + TTL]; it is refused wherever the exact window refuses, and accepted wherever the shorter one accepts |
| `Sessions.WritesAreSpaced` | internal/auth/service.go:176-180 | two writes of one session row are at least the interval apart |
| `Sessions.DeadStaysDead` | internal/auth/service.go:171-174 | a session expired or revoked at some instant is refused then and ever after, whatever is called in between |
| `Sessions.RevokingKills` | internal/auth/memory.go:204-237 | revoking one or every session of its traveller makes it dead at once |
| `Touches.InOneGoItIsThePresenting` | internal/auth/service.go:153-182 | with nothing in between, the read and the touch do what presenting the token does |
| `Touches.DeadStaysExactly` | internal/postgres/auth_store.go:40-42 | a dead session is still dead after a statement if and only if that is not a touch, less than the TTL after its call accepted the session, of a row not revoked |
| `Touches.RevivalCanFollowExactly` | internal/postgres/auth_store.go:120-137 | over every continuation, a dead session can be accepted again if and only if it was not revoked and such a touch is on its way |
| `Touches.RevokedForGood` | internal/postgres/auth_store.go:40-42 | over every interleaving a revoked session is never accepted again |
| `Touches.NoInterleavingOutlivesTheWindow` | internal/auth/service.go:153-182 | over every interleaving a session expires within the TTL of its last accepted use |
| `Touches.ALateTouchRevives` | internal/auth/service.go:171-180 | a five-statement run in which a session refused at its expiry is accepted a second later |
| `Codes.HashCode` | internal/auth/code.go:61-75 | a digest exactly for six decimal digits |
| `AuthService.Service.RequestCode` | internal/auth/code.go:79-107 | a code is stored and mailed exactly for a known address not within the interval of a held code; otherwise nothing changes |
| `AuthService.Service.SignInWithCode` | internal/auth/code.go:110-164 | a session exactly when the held code admits the presented one; the code is spent, counted or burned as specified |
| `Codes.SignInSucceedsExactly` | internal/auth/code.go:110-164 | a sign-in succeeds if and only if it is the first to present the code last issued, before its expiry and after fewer than five tries |
| `Codes.EachCodeYieldsAtMostOneSession` | internal/auth/code.go:110-164 | between two sign-ins that succeed a new code was issued |
| `Codes.AttemptsStayBelowTheCap` | internal/auth/memory.go:291-307 | between calls every stored code has fewer than five attempts and the expiry of a code that was issued |
| `Codes.ThrottledRequestsChangeNothing` | internal/auth/code.go:91-107 | a throttled request leaves every code; any other supersedes that traveller's, and no other traveller's is affected |
| `SignIns.InOneGoItIsTheSignIn` | internal/auth/code.go:110-164 | with nothing in between, the statements of a sign-in leave the codes the whole call leaves, and a session exactly when the code is admitted |
| `SignIns.StepKeepsInOrder` | internal/postgres/signin_code_store.go:14-68 | in every interleaving a code still in the table is its traveller's, and every call that holds it has yet to burn it |
| `SignIns.OneHolderEachExactly` | internal/auth/code.go:121-157 | a statement leaves each issued code with at most one call that found it right, if and only if it is not a read of a code that another call has read and not burned |
| `SignIns.EachCodeYieldsOneSessionUnlessReadsOverlap` | internal/auth/code.go:110-164 | in every interleaving without such a read no code gives two sessions |
| `SignIns.TwoSessionsCanFollowExactly` | internal/auth/code.go:121-157 | two sessions of one code can follow a statement, with no further such read, if and only if it is one |
| `SignIns.AnOverlapGivesTwoSessions` | internal/auth/code.go:151-161 | seven statements of one request and two sign-ins that end in two sessions of one code |
| `Guesses.JudgedWithRoom` | internal/auth/code.go:129-148 | in every interleaving, when a wrong code is judged against an issue fewer than five before it have been counted on it |
| `Guesses.GuessesAreBounded` | internal/auth/code.go:129-148 | an issue has at most five wrong codes judged against it, and as many more as were read and not counted on it when another was read |
| `Guesses.OneAtATimeFiveAtMost` | internal/auth/code.go:129-148 | and five where no call is judged before the last is counted |
| `Guesses.TheBoundIsReached` | internal/postgres/signin_code_store.go:46-59 | for every m a run with m calls not counted yet in which five and m codes are judged |
| `Invites.AccountsNeverOutnumberSpentInvites` | internal/auth/service.go:129-149 | over every interleaving of registrations, mints, revocations and deletions no digest makes two accounts, and accounts made never outnumber digests ever spent |
| `Invites.StepKeepsOneEach` | internal/postgres/auth_store.go:193-206 | every statement keeps each claim on its own digest that was spent, and the table's used mark true of the digests it holds |
| `Invites.StaysOnRecordExactly` | internal/postgres/admin_store.go:175-183 | a statement leaves every digest that a registration holds in the table if and only if it does not revoke one of them |
| `Invites.SpentRowsStayExactly` | internal/postgres/admin_store.go:175-183 | every row marked used stays so if and only if the statement does not revoke one |
| `Invites.AccountsNeverOutnumberSpentRows` | internal/postgres/admin_store.go:175-183 | in runs that revoke no invite in use, accounts made never outnumber the rows marked used |
| `Invites.ARevokedClaimStillMakesAnAccount` | internal/postgres/admin_store.go:175-183 | an invite revoked between its claim and its account leaves one account and no used row |
| `PublicShare.EmitPhotos` | internal/logbook/public.go:136-159 | photographs in order with what the switches allow, or the first refusal; and exactly which objects were asked for |
| `PublicShare.EmitPlaces` | internal/logbook/public.go:115-134 | places with their days, coordinates and notes only where shared |
| `PublicShare.EmitPublic` | internal/logbook/public.go:84-176 | the whole envelope or the first error, and every object minted for |
| `PublicShare.ReadPublicPlaces` | internal/postgres/share_read.go:163-209 | the places with a visit on the trip, in id order, each with the trip's visits alone |
| `Noninterference.PublicReadRevealsNothingElse` | internal/logbook/public.go:84-176 | two logs that differ only outside the trip, in dismissed walks, in what is never published (visit ids and ordinals, covers of cities and places, names of walks), in what the switches keep back or in the switches where nothing shows them, give the same envelope, error and minted objects for every mint |
| `Noninterference.PublicReadRevealsExactly` | internal/postgres/share_read.go:36-61 | and no other two logs do: the pages are equal for every mint if and only if the logs are alike in that sense |
| `Noninterference.VisitsShowTheSame` | internal/postgres/share_read.go:48-53 | two trips show the same days at every place if and only if some renaming takes the visits of one onto the other's, keeping place, instant, shown note and the order within a place |
| `Noninterference.NothingIsMintedWithoutPhotos` | internal/logbook/public.go:101-159 | with photographs kept back nothing is minted, no photograph or cover is shown and the read cannot fail |
| `SharedReads.LinkLivesExactly` | internal/postgres/share_store.go:56-87 | a live link stays live through a step if and only if the step is not a committed new link, stop of sharing or deletion of its trip |
| `SharedReads.ReadsAsAtOnceExactly` | internal/httpapi/public_handlers.go:18-34 | whatever is written between its two statements, a public read answers as one statement would at the second's moment, if and only if nothing withdrew the link or the trip is gone |
| `SharedReads.KeptBackUntilWithdrawn` | internal/httpapi/public_handlers.go:18-34 | through a link that kept photographs back while it lived, a read mints if and only if the trip ends up sharing a photograph or cover, and then the link had been withdrawn in between |
| `SharedReads.OneWriteBetweenExactly` | internal/postgres/share_store.go:75-87 | with one committed write of any kind in between, the answer is of one moment if and only if the write is not a stop of sharing that changes what is shown, read off the rows and switches |
| `SharedReads.StoppingInBetweenPublishesPhotographs` | internal/postgres/share_store.go:75-87 | for any trip that keeps back a photograph or a cover: stopped between the statements it is minted for, at either moment it is not |
| `SharedReads.ARunThatKeepsPhotosBack` | internal/postgres/share_store.go:19-73 | a ten-step run to a live link of such a trip |
| `SharedPlaces.PageShowsExactly` | internal/logbook/public.go:136-159 | a published page shows every place its photographs name if and only if each has a visit on the trip |
| `SharedPlaces.EveryPageShowsItsPlacesUntilATripMoves` | internal/postgres/share_read.go:36-61 | in every run before a write moves a trip under a filing, every published page shows every place its photographs name |
| `SharedPlaces.MovedPhotoShowsItsPlaceExactly` | internal/postgres/photo_store.go:44-104 | after a filed photograph moves to another trip that trip's page still does so if and only if the place has a visit on it, and every other page does |
| `SharedPlaces.RewrittenVisitsShowTheirPlaceExactly` | internal/postgres/place_store.go:144-183 | after a place's visits are rewritten a trip's page does so if and only if no photograph of the trip is filed there or some visit sent is on the trip |
| `SharedPlaces.PagesStayWholeExactly` | internal/postgres/share_read.go:36-61 | from a coherent log a committed write of any kind leaves any trip's page showing every place its photographs name if and only if it is not one of those two |
| `SharedPlaces.AMovedPhotoCanNameAPlaceNotShown` | internal/postgres/photo_store.go:44-104 | a reachable log whose page names a place it does not show |
| `SharedPlaces.AMovedVisitCanHideItsPlace` | internal/postgres/place_store.go:144-183 | from a reachable log, moving an occupied visit leaves the photograph's page naming a place it does not show |
| `SharedCities.PageListsItsCitiesExactly` | internal/postgres/share_read.go:26-53 | a published page lists every city its places, photographs and walks name if and only if the itinerary holds each of them |
| `SharedCities.CitiesStayListedExactly` | internal/postgres/logbook_store.go:446-456 | from such a trip a committed write of any kind keeps that so if and only if it is not one of seven named kinds, read off the write and the rows before it |
| `SharedCities.EveryPageListsItsCitiesUntilUnlisted` | internal/postgres/city_store.go:39-43 | in every run it is so of every trip until the first write of those kinds, and not after it |
| `SharedCities.AnEmptyItineraryListsNothing` | internal/postgres/logbook_store.go:446-456 | an eight-step run to a trip whose itinerary is empty and whose page names a city |

## Left out

- HTTP handlers, routing, access log, recovery and timeouts: plumbing; only the 304 decision and the reply of a write
  are here.
- The MinIO client, presigned URL signatures and lifetimes, geocoder, mail, configuration: foreign calls. A URL here
  never expires, which allows more uploads than the program does.
- Admin pages, their login lockout and in-memory sessions: small maps with one-branch rules.
- Shape validators and text CHECK constraints: only distinct ids are used; a failing CHECK is an aborted write.
- Walk tracks as arrays, float printing, JSON: driver detail; a track is a sequence of points.
- Seed data, imagery, test databases and the Python gates: developer tooling.
- int4 overflow of ordinals after parking, and clock skew between application and database.
- acceptsGzip and I/O errors of the writer underneath; the bytes gzip emits before it is closed are counted at the
  close.
- Overlapping calls in `AuthService`: its methods run one at a time; what interleaving does to them is in `Touches`,
  `SignIns`, `Guesses` and `Invites`.
- A traveller deleted between the two statements of a public read, which then answers as for a trip that is gone.
- Which of several faults a bad migrations directory is refused for, and statementSummary.
- Transactions.Tx.RemovePlace: with delete asked for a missing place the photographs are already out of the open
  transaction, as in the code; the refusal rolls that back in `Store.Attempt`.
- Sessions.DeadStaysDead: over runs of whole calls, as are the other lemmas of its module; `Touches.DeadStaysExactly`
  says what a touch on its way does to it.
- AuthService.Service.SignInWithCode: email shape errors are not told apart from an unknown address.
- Manual.CutsWhereTheManualDoes: a semicolon inside parentheses or a BEGIN ATOMIC body is a separator on both sides;
  which of them end a command is grammar, not lexis.
- Bucket.Apply: which deletions the bucket refuses is a parameter.
