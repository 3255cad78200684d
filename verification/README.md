# Studio OS: verified models of its protocols, generators and linters

The dashboard and the scripts of Studio OS hold a number of small algorithms and
protocols whose correctness spans loops, recursion or whole runs. This project
models them in Dafny and proves what they are for.

`dafny verify dfyconfig.toml` checks everything.

## What is modelled

- **Resumable event stream** (`dashboard/src/sse.ts`, with the frames of
  `services/api/src/studio_api/routers/events.py`). `SseParser` is the incremental
  parser, `SseText` the printing side, `SseDelivery` a step system of server log,
  network and client in which a connection may be cut at any character, `SseLoop`
  the reconnection loop and its closure, `SseSession` the closure on the delivery
  system. Main results: any chunking gives the same messages; delivery over any
  number of reconnects is an interval of the log, also for the closure; what an
  observer of the loop sees.
- **MD5** (`dashboard/src/md5.ts`). `Rfc1321` states RFC 1321 sections 3.1 to 3.5
  on words; `Md5` is the program on JavaScript numbers, signed and unsigned, and
  refines it for exactly the inputs below 2^31 - 72 bytes.
- **Dependency graphs.** `RoadmapGraph`, `LibraryPackages` and `LibraryImport` hold
  the three depth-first searches with their three bookkeeping schemes, over the
  theory in `Digraph`; `LibraryComposition` shows when acceptance by the first
  library script guarantees that the second never raises.
- **Decision export and linter.** `DecSnapshot` merges decisions and notes,
  `AdrMarkdown` is the file format, `DecRender` renders, plans and applies, `VaultLint`
  is the linter with the exact set of issues it reports; `DecExport` proves the
  agreement of generator and linter. Files are read with universal newlines and
  written as they are (`TextMode`).
- **ADR to vault synchronisation.** `VaultSync` plans one ADR, `VaultSyncRun` a
  whole run: additivity, and when a second run has nothing left to do.
- **Protocols.** `SessionModel` and `PersistentSession` (refresh-token rotation),
  `ConnectionMonitor`, `Transfers` (bounded multipart upload): step systems cut at
  the await points, and the closures proved to take exactly those steps.
- **Smaller pieces.** `Coordination` (reply threads with a cycle guard),
  `RoadmapFormat` and `RoadmapData` (reading, validating, importing and exporting
  roadmaps), `AtlasCamera` (camera algebra over the reals, angles as cosine and
  sine with c² + s² = 1).

`Basics`, `Digraph`, `JsonValues`, `RoadmapTypes` and `TextMode` are shared vocabulary.

Code that works by changing variables, objects or arrays is a class or a method
with loops, proved against functions and predicates; the theorems are lemmas about
those. Code made of expressions is functions and lemmas.

## Where the code is less than its promise

Each of these is proved with its exact condition.

- A printed frame reads back if and only if no data line ends in CR
  (`SseText.RoundTripExactly`).
- The 32-bit padding of `md5Bytes` is right for exactly the inputs below
  2^31 - 72 bytes (`Md5.PaddedLengthIsRight`).
- The Core/Project collision test of `validate` never fires
  (`LibraryPackages.CollisionTestIsDead`): its index keeps one layer per identity.
- `validate` resolves a dependency through an unordered set of layers while `_topo`
  always looks in its own: an empty report guarantees an order if and only if no key
  is available in two allowed layers
  (`LibraryComposition.CompositionHoldsExactlyWhenUnambiguous`).
- `parse_adr_markdown` calls itself the inverse of `render_adr_markdown`; an empty
  body reads back as the heading, and an id or title of several lines leaves its
  later lines in the body (`AdrMarkdown.RoundTripsExactly`).
- A render writes carriage returns and reads them as line feeds: `render --check`
  fails after `render --apply` if and only if a title or a cleaned body holds one
  (`DecRender.RenderSettlesExactly`), `a\rb` for instance
  (`DecRender.LoneReturnNeverSettles`).
- The vault synchronisation promises to keep bodies byte for byte; an update does so
  if and only if the body holds no carriage return, and a new note that gets the name
  of an existing one replaces it, body and aliases (`VaultSyncRun.BodyAfter`,
  `VaultSyncRun.AliasedAfter`).
- A created note whose name is written again in the same run is lost, as is a note
  replaced by a new one; their ADRs are planned as new again
  (`VaultSyncRun.CreatedIsFoundExactly`, `VaultSyncRun.CreatedAgainExactly`).
- Linting a snapshot against its own render reports something when a title is blank
  or untrimmed, or when there was no decision and no directory
  (`DecExport.OwnRenderConformsExactly`).
- A synchronisation does not settle for an ADR scalar that is the empty string, for
  an id of more than four digits, or for a note that another ADR writes last
  (`VaultSyncRun.SyncSettlesExactly`, `VaultSyncRun.TakenNoteNeverSettles`,
  `VaultSyncRun.SharedNoteNeverSettles`).
- A consumed refresh token may be presented again in exactly these cases: the clear
  after a failed store fails too and its answer is ignored; the answer to a rotation
  is lost, turned into a 401 on the way or comes without a token, although `persistentSession.ts` (line 104) takes
  every such answer to mean that the token was not consumed; a request that was given
  up arrives later (`SessionModel.ReplayExactlyWhenStale`,
  `SessionModel.UnderWayExactly`, `SessionModel.LostAnswerReplays`).
- Configuring the vault while a rotation is running, and only then, lets two requests
  be outstanding later (`SessionModel.ConfigureIsSafeExactlyWhenIdle`).
- A connection listener that calls back while it is told leaves a retry pending outside
  `unreachable` unless its calls stop the monitor or lead back there
  (`ConnectionMonitor.CallingBackBreaksTheTimer`), and one that checks when told of
  `connecting` starts a second probe (`ConnectionMonitor.SecondProbeExactly`).
- An upload whose part URLs do not cover the file still requests completion
  (`Transfers.UploadedMatchesExactly`, `Transfers.MissingPartIsNotNoticed`).
- Items with a repeated event id can be lost from the threads
  (`Coordination.LostExactly`, `Coordination.RepeatedIdIsLost`).
- Panning is exact for the points of the target plane only
  (`AtlasCamera.PanIsExactOnTargetPlane`).

The comments of `dashboard/src/sse.ts` (lines 86-89 and 218-220) say the server never
sends keep-alive comments; `routers/events.py` line 219 does, and the model follows it.

## Model

| member | source | states |
|---|---|---|
| `SseParser.SseParser.Feed` | dashboard/src/sse.ts:43-58 | feeding a chunk returns the messages of all complete frames of buffer plus chunk, in order; what stays buffered is the text after the last blank line and holds no blank line; `lastSeq` is the last sequence number returned |
| `SseParser.SseParser.ParseFrame` | dashboard/src/sse.ts:60-79 | one frame is read as the fold of its lines: CR stripped, comments and nameless lines skipped, last valid `id`, all `data` lines joined |
| `SseParser.DrainCollects` | dashboard/src/sse.ts:46-56 | the accumulating loop and the recursive meaning of a text agree: same messages, same residue |
| `SseParser.BoundaryStable` | dashboard/src/sse.ts:46-55 | text that arrives later never moves the first frame boundary |
| `SseParser.SplitInvariance` | dashboard/src/sse.ts:43-58 | for every cut of a text in two, feeding the parts gives the messages and the residue of feeding the whole, for any way to read a frame |
| `SseText.SplitFeedsAgree` | dashboard/src/sse.ts:35-58 | any split of a text into chunks gives one and the same concatenated messages and final buffer, over any buffer to begin with |
| `SseText.FeedChunks` | dashboard/src/sse.ts:190-197 | feeding the chunks of a body one by one to one parser leaves the messages, the buffer and the `lastSeq` of a single feed of the whole text |
| `SseParser.LastSeqConcat` | dashboard/src/sse.ts:51-53 | `lastSeq` after two runs of messages is that after both together |
| `SseText.RoundTripExactly` | dashboard/src/sse.ts:60-79 | printing events and keep-alives as frames and reading the text back gives exactly the messages if and only if no data line ends in CR; nothing stays buffered |
| `SseText.ParsePrintedInt` | dashboard/src/sse.ts:70-72 | every integer survives being printed on an `id:` line |
| `SseText.SignIsPrinted` | dashboard/src/sse.ts:70-72 | a printed number opens with a minus sign if and only if it is negative |
| `SseText.SpacesExactly` | dashboard/src/sse.ts:70-72 | the characters `Number.parseInt` passes over, one by one |
| `SseText.ParseIntExactly` | dashboard/src/sse.ts:70-72 | `Number.parseInt` on any text: white space, one sign and the digits up to the first other character; without digits it is no number |
| `SseText.OtherLinesAreSkipped` | dashboard/src/sse.ts:63-76 | comments, empty lines, lines without a colon and unknown fields change nothing |
| `SseText.TightField` | dashboard/src/sse.ts:66-69 | a value may follow the colon without a space |
| `SseText.NoDataIsNoMessage` | dashboard/src/sse.ts:77-79 | a frame is a message if and only if it has a data line, and carries the last id |
| `SseText.SseIsLawful` | services/api/src/studio_api/routers/events.py:39-41 | the server's frames and keep-alive comments obey the laws that delivery needs of a wire format |
| `SseDelivery.ChunkingIsInvisible` | dashboard/src/sse.ts:190-200 | chunk boundaries of a response body do not change what is delivered |
| `SseDelivery.StepKeepsInv` | dashboard/src/sse.ts:291-326 | publishing, connecting at the cursor, writing an event or a keep-alive, reading any piece of text and cutting the connection anywhere all keep the delivered messages an interval of the log that ends at the cursor |
| `SseDelivery.DeliveryIsAnInterval` | dashboard/src/sse.ts:142-211 | over any number of connections, each cut at any character, the delivered messages are a contiguous interval of the server log, in order and without repetition, starting right above an initial cursor, or, without one, behind everything that was there, and complete once a connection is fully read |
| `SseDelivery.ServerAdvances` | services/api/src/studio_api/routers/events.py:195-222 | the server takes its log entry by entry, and a keep-alive takes none |
| `SseDelivery.CanCatchUp` | dashboard/src/sse.ts:291-326 | from every state with a connection some continuation delivers all that is left of the log |
| `SseText.StreamDeliversAnInterval` | services/api/src/studio_api/routers/events.py:173-228 | the delivery theorem for the actual frame format, against a server that replays and filters by cursor |
| `SseLoop.StepKeepsInv` | dashboard/src/sse.ts:291-346 | each await point of the loop keeps: alternating live values, silence after a stop or a denial, an attempt counter equal to the current streak of errors, waits tied to that streak |
| `SseLoop.RunsFromStart` | dashboard/src/sse.ts:269-375 | over every run `onLiveChange` alternates, `onDenied` fires at most once and exactly for a 401 or 403, no connection starts after such an answer or after `close()`, and every wait is the delay of the current error streak within a fifth |
| `SseLoop.EndIsJudged` | dashboard/src/sse.ts:327-345 | a 401 or 403 is told as a denial, stops the loop and ends it; any other end of a connection leads to a wait, and stops the loop only if the listener closes it |
| `SseLoop.RequestsAgain` | dashboard/src/sse.ts:292-345 | an unstopped loop requests again after the wait that follows any other end |
| `SseLoop.ClosedReturns` | dashboard/src/sse.ts:354-371 | after `close()` a waiting loop returns without another request |
| `SseLoop.OpeningIsTold` | dashboard/src/sse.ts:317-319 | an answered connection makes the stream live, told once |
| `SseLoop.WaitsAreExponential` | dashboard/src/sse.ts:335-337 | over every run a wait after k errors in a row lies within a fifth of min(max, initial * 2^k) |
| `SseLoop.JitterStaysNear` | dashboard/src/sse.ts:335-336 | a factor from 0.8 to 1.2 keeps the wait within a fifth of the delay |
| `SseLoop.LiveStream.constructor` | dashboard/src/sse.ts:262-269 | a new stream starts at its initial cursor with nothing delivered |
| `SseLoop.LiveStream.SetLive` | dashboard/src/sse.ts:271-275 | the listener hears of changes only; afterwards it has heard of the current value, and the trace invariant holds, also in the middle of judging a connection |
| `SseLoop.LiveStream.Opened` | dashboard/src/sse.ts:317-319 | an answered connection is one transition of the loop and makes the stream live |
| `SseLoop.LiveStream.Close` | dashboard/src/sse.ts:354-371 | closing is one transition of the loop, from any await or from inside a listener, ends a backoff wait at once and keeps the invariant: nothing is requested afterwards |
| `SseLoop.LiveStream.TellEnd` | dashboard/src/sse.ts:323-330 | the end of a connection makes the stream not live, also when the listener closes it while it is told, and leaves the trace ready to be judged |
| `SseLoop.LiveStream.Begin` | dashboard/src/sse.ts:292-322 | a new connection starts a fresh parser at the loop's cursor, unless the loop is stopped |
| `SseLoop.LiveStream.Forward` | dashboard/src/sse.ts:303-306 | messages reach the listener unchanged and in order, and move the cursor to the last id among them |
| `SseLoop.LiveStream.Receive` | dashboard/src/sse.ts:190-197 | a chunk delivers exactly the messages it completes; parser and loop agree on the cursor |
| `SseLoop.LiveStream.End` | dashboard/src/sse.ts:323-345 | judging a finished connection is one transition of the loop and does not move the cursor: after a 401 or 403 `onDenied` has been called and the loop has returned, after any other end of an unstopped loop a wait is armed for the current error streak |
| `SseLoop.LiveStream.Elapse` | dashboard/src/sse.ts:337-345 | the end of a wait returns to the loop test |
| `SseSession.Session.constructor` | dashboard/src/sse.ts:262-269 | a new closure and the delivery system start at one cursor with nothing delivered |
| `SseSession.Session.Serve` | dashboard/src/sse.ts:291-326 | what the server does in the meantime keeps closure and system joined |
| `SseSession.Session.Begin` | dashboard/src/sse.ts:292-322 | the call of `connectEventStream` is a connection at the cursor, unless the loop is stopped |
| `SseSession.Session.Receive` | dashboard/src/sse.ts:190-197 | a chunk that arrives is a reading step of the delivery system |
| `SseSession.Session.End` | dashboard/src/sse.ts:198-211 | the flush of the decoder and the judgement of the connection are the cut of the delivery system and a transition of the loop at once |
| `SseSession.DeliveredIsAnInterval` | dashboard/src/sse.ts:142-211 | whatever methods of the closure run, in whatever order, what it has handed to `onMessage` is an interval of the server log, complete once it has caught up |
| `Md5.Md5Bytes` | dashboard/src/md5.ts:27-85 | the mixed signed and unsigned computation returns the RFC 1321 digest for every input shorter than 2^31 - 72 bytes and throws for every other |
| `Md5.PaddedLengthIsRight` | dashboard/src/md5.ts:30 | the 32-bit padding expression is the length of RFC 1321 section 3.1 and 3.2 below 2^31 - 72 and too small to hold the message from there on |
| `Md5.FillBuffer` | dashboard/src/md5.ts:28-36 | the buffer holds the message, a one bit, the fewest zeros and the 64-bit length, low-order word first |
| `Md5.LoadWords` | dashboard/src/md5.ts:45 | the sixteen words are those of the block, low-order byte first |
| `Md5.RotlIsRotation` | dashboard/src/md5.ts:23-25 | `rotl` on a signed number is the 32-bit left rotation of its word |
| `Md5.Choose` | dashboard/src/md5.ts:51-65 | each round's bit function and word index are those of RFC 1321 section 3.4 |
| `Md5.CodeShiftIsShift` | dashboard/src/md5.ts:11-16 | the table of shifts is the one of the four rounds |
| `Md5.OneOperation` | dashboard/src/md5.ts:66-70 | rotating the variables after each operation keeps every a, b, c, d congruent to the register whose role it plays |
| `Md5.SixtyFour` | dashboard/src/md5.ts:46-71 | after the 64 operations the variables stand for the registers of RFC 1321 after all four rounds |
| `Md5.ProcessOne` | dashboard/src/md5.ts:44-75 | one turn of the block loop adds the block's result to the running registers, modulo 2^32 |
| `Md5.ProcessBuffer` | dashboard/src/md5.ts:38-76 | the block loop carries the registers of RFC 1321 through all blocks |
| `Md5.SetUint32` | dashboard/src/md5.ts:35-36 | four bytes are written low-order first and no other byte changes |
| `Md5.Finish` | dashboard/src/md5.ts:78-84 | the sixteen output bytes are the four registers, low-order byte first |
| `Rfc1321.ZeroBytes` | dashboard/src/md5.ts:30 | the number of zero bytes is the unique one below 64 that brings the length to 56 modulo 64 |
| `RoadmapGraph.StepSearch.Visit` | dashboard/src/roadmapFormat.ts:149-158 | a visit that fails closes a cycle; one that returns leaves only settled nodes, dependencies first |
| `RoadmapGraph.SearchAll` | dashboard/src/roadmapFormat.ts:159 | the search over all steps succeeds if and only if `depends_on` has no cycle |
| `RoadmapGraph.CheckPhases` | dashboard/src/roadmapFormat.ts:129-134 | phases pass exactly when their keys are unique and the tasks are within the limit; a refusal names what is wrong |
| `RoadmapGraph.IndexSteps` | dashboard/src/roadmapFormat.ts:135-139 | steps are indexed exactly when their keys are unique; a refusal names a repeated key |
| `RoadmapGraph.CheckAllDependencies` | dashboard/src/roadmapFormat.ts:140-148 | dependency lists pass exactly when they are known, non-self and without repetition |
| `RoadmapGraph.ValidateGraph` | dashboard/src/roadmapFormat.ts:124-160 | terminates; accepts exactly the documents within the limits with unique keys over all phases, clean dependencies and no ring of steps; each refusal says something true of the document |
| `RoadmapGraph.AcceptedExactly` | dashboard/src/roadmapFormat.ts:124-160 | acceptance said of the document itself: step and task counts summed over all phases, keys that differ at different places, each dependency the key of another step of any phase and named once, and no sequence of steps that depend on each other in a ring |
| `RoadmapGraph.StepsStayInPlace` | dashboard/src/roadmapFormat.ts:126 | the flattened list holds every step of every phase |
| `RoadmapGraph.EveryStepHasAPlace` | dashboard/src/roadmapFormat.ts:126 | and no other |
| `RoadmapGraph.RefusalIsRight` | dashboard/src/roadmapFormat.ts:124-160 | no acceptable document is refused, and "dependency cycle" is the answer if and only if everything else is in order and a cycle exists |
| `LibraryPackages.CycleSearch.Visit` | scripts/library_packages.py:296-305 | the short-circuiting search that marks nodes done on its way out answers true only along a closed walk and false only when everything below is settled |
| `LibraryPackages.FindCycle` | scripts/library_packages.py:307-310 | a cycle is found if and only if one exists, and the node named reaches it |
| `LibraryPackages.CheckEntries` | scripts/library_packages.py:241-268 | one message for each unknown kind, repeated key and other flaw, and no other |
| `LibraryPackages.ResolveEntry` | scripts/library_packages.py:280-292 | a dependency is reported if and only if no allowed layer has it; otherwise it becomes an edge to the first allowed layer scanned that has it |
| `LibraryPackages.IndexTracked` | scripts/library_packages.py:250-251 | the index keeps the first layer of each identity |
| `LibraryPackages.Validate` | scripts/library_packages.py:234-311 | the report holds exactly the structural and resolution messages that apply, and a cycle message if and only if the edges it built have a cycle |
| `LibraryPackages.UnresolvedExactly` | scripts/library_packages.py:280-292 | a dependency is reported unresolved if and only if neither the entry's own layer nor Core has its target |
| `LibraryPackages.KindsExactly` | scripts/library_packages.py:245-246 | a kind is reported unknown if and only if it is none of the six |
| `LibraryPackages.DuplicatesExactly` | scripts/library_packages.py:247-248 | a key is reported repeated if and only if two entries of the package carry it |
| `LibraryPackages.CollisionTestIsDead` | scripts/library_packages.py:269-272 | the Core/Project collision test reports what it is meant to report if and only if the two layers share no key: it never fires |
| `LibraryImport.TopoSearch.Visit` | scripts/library_import.py:209-220 | terminates on every list; an exception closes a cycle, a return leaves dependencies before dependants |
| `LibraryImport.Topo` | scripts/library_import.py:203-224 | for distinct keys an exception is raised if and only if the in-list dependencies have a cycle; otherwise the output is a permutation with every dependency before its dependants |
| `LibraryImport.SettledListIsOrdered` | scripts/library_import.py:219-224 | a list settled by the search is acyclic, complete and ordered |
| `LibraryImport.LoadPlan` | scripts/library_import.py:238-258 | for distinct keys: the cycle error if and only if there is a cycle, a plan if and only if there is none and every ready entry is admissible and of a known kind; the plan lists the ready entries, dependencies first; a rejection names the first entry, in that order, that does not fit |
| `LibraryImport.Pins` | scripts/library_import.py:272-289 | a pin is this run's version when there is one, else the server's active one, else the item fails |
| `LibraryImport.ImportPlan` | scripts/library_import.py:304-326 | each item is published with pins from this run first and from the server next, and with the version the server answered; the run stops early only where a pin of the next item is found nowhere or its publication raises; a dry run takes nothing from the run |
| `LibraryImport.PublishedNames` | scripts/library_import.py:321-325 | `published` knows exactly the names published so far, each with a version published for it |
| `LibraryImport.AliasInjective` | scripts/library_import.py:252-256 | shortening the kind of an entry merges no two entries |
| `LibraryImport.AliasExactly` | scripts/library_import.py:252-255 | agents are published under a shorter kind, everything else under its own |
| `LibraryImport.ReadyExactly` | scripts/library_import.py:238 | a plan starts from exactly the entries whose status is "ready", each as often as it is listed |
| `LibraryImport.ByIdHoldsTheLast` | scripts/library_import.py:205 | of entries with one identity the last counts |
| `LibraryImport.InLayerPinsComeFromTheRun` | scripts/library_import.py:272-276 | in a real run over a loaded plan every pin on an entry of the same package is a version this very run published for that entry |
| `LibraryImport.InLayerPinsArePublished` | scripts/library_import.py:258-290 | what an entry depends on in its own package is published before its turn comes, also at the entry at which the run stops |
| `LibraryImport.MissingPinIsOutside` | scripts/library_import.py:284 | a pin that stops a real run is on something outside the package |
| `LibraryComposition.PackageEdge` | scripts/library_packages.py:277-292 | the edges of a node are those of the entry with its identity |
| `LibraryComposition.EdgeLifts` | scripts/library_import.py:215-218 | when keys are unambiguous every in-list dependency of `_topo` is an edge that `validate` follows |
| `LibraryComposition.AcceptedPackageCanBeOrdered` | scripts/library_import.py:213-214 | when keys are unambiguous and the package graph is acyclic, `_topo` raises on no layer |
| `LibraryComposition.CleanReportHasDistinctKeys` | scripts/library_packages.py:247-249 | an empty report implies distinct keys in every layer |
| `LibraryComposition.CompositionHoldsExactlyWhenUnambiguous` | scripts/library_packages.py:284-286 | over all ways to wire dependencies between given keys, an empty report guarantees that every layer can be ordered if and only if no key is available in two layers that a layer may depend on |
| `DecSnapshot.IndexHoldsTheLast` | scripts/dec_export.py:80-86 | of several notes or rows with one number the last one counts |
| `DecSnapshot.CollectRows` | scripts/dec_export.py:88-100 | a server row enters on its own exactly when no vault note has its number |
| `DecSnapshot.CollectEntries` | scripts/dec_export.py:101-113 | every number of a row or a note has one entry; a note wins over the row, which lends date and task only when the titles are alike |
| `DecSnapshot.AddLinks` | scripts/dec_export.py:117-124 | a link is recorded on both sides at once, exactly when it is a `supersedes` link to another decision's note |
| `DecSnapshot.CollectLinks` | scripts/dec_export.py:115-124 | the two relations are exact converses: each holds exactly the replacements the notes state |
| `DecSnapshot.OrderEntries` | scripts/dec_export.py:126-141 | entries and their links come in numeric order, each once |
| `DecSnapshot.BuildSnapshot` | scripts/dec_export.py:67-142 | each id once and in numeric order, each entry as its note or row says, links exactly as the notes state; fails exactly when some id has no number |
| `DecSnapshot.SnapshotIdsExactly` | scripts/dec_export.py:83-100 | every number of a decision note or a server row has an entry, and no other |
| `DecSnapshot.NoteWins` | scripts/dec_export.py:101-113 | for a number with a note, title, status, body and source are those of its last note, whatever the rows say |
| `DecSnapshot.RowFillsDateAndTask` | scripts/dec_export.py:103-110 | date and task come from the last row of the number if its title is alike, otherwise the date is the note's and there is no task; dates are cut to ten characters |
| `DecSnapshot.RowStandsAlone` | scripts/dec_export.py:89-100 | a number without a note has the fields of its last row, an unknown status read as "proposed", and supersedes nothing |
| `DecSnapshot.SupersedesExactly` | scripts/dec_export.py:115-125 | when no two notes share a key, an entry supersedes exactly the other decisions that a `supersedes` link of its own note names |
| `DecSnapshot.KeyLeadsToTheLast` | scripts/dec_export.py:85 | of notes that share a key the one last in the dictionary is meant |
| `DecSnapshot.SnapshotIsWellLinked` | scripts/dec_export.py:115-141 | `supersedes` and `superseded_by` mirror each other, with no self reference and no dangling id |
| `DecSnapshot.FourDigitsAscend` | scripts/dec_export.py:127 | four-digit ids are strictly increasing |
| `AdrMarkdown.StripTrims` | scripts/adr_common.py:206-207 | stripping returns a text without blanks at its ends and leaves exactly such texts alone |
| `AdrMarkdown.RenderSplits` | scripts/adr_common.py:90 | front matter is found again before any body, whatever the body holds |
| `AdrMarkdown.SplitExactly` | scripts/adr_common.py:90 | for every text: front matter and rest are what stands before and after the first closing line, and there is none without an opening and a closing line |
| `AdrMarkdown.KnownExactly` | scripts/adr_common.py:127-138 | exactly the ten known fields are written |
| `AdrMarkdown.FalsyExactly` | scripts/adr_common.py:105 | which values Python takes for false |
| `AdrMarkdown.DecIdExactly` | scripts/dec_export.py:42 | an id is `DEC-` and at least four digits |
| `AdrMarkdown.HeadingDrops` | scripts/adr_common.py:194 | the heading line goes with one line feed after it, and nothing else |
| `AdrMarkdown.OtherTextStays` | scripts/adr_common.py:194-203 | a text without a heading keeps everything |
| `AdrMarkdown.RoundTripsExactly` | scripts/adr_common.py:186-208 | fields always come back; the body comes back if and only if it is stripped and not empty, the id holds no line feed, and whatever follows a line feed in the title is blank |
| `DecRender.RenderFiles` | scripts/dec_export.py:231-249 | the files of an export, a later entry replacing an earlier one of the same name |
| `DecRender.NamesAreApart` | scripts/adr_common.py:80-81 | decisions with different ids never share a file name, whatever their slugs |
| `DecRender.RenderedTexts` | scripts/dec_export.py:235-246 | every decision has its own file with its own text |
| `DecRender.FileSays` | scripts/dec_export.py:237-245 | the front matter of a file names id, title, status, date, both links and the source of the export |
| `DecRender.BodyComesBack` | scripts/dec_export.py:246 | read again, a file has the fields of its decision, and its cleaned body if and only if that is not empty and the title is one line |
| `DecRender.HeadingIsCleaned` | scripts/dec_export.py:227-228 | a heading `# DEC-...` at the start of a body goes, with the lines after it |
| `DecRender.OtherBodiesAreTrimmed` | scripts/dec_export.py:227-228 | a body without one is only trimmed, its line ends translated |
| `DecRender.IndexHasHeader` | scripts/adr_index.py:56-67 | the index opens with the header |
| `DecRender.IndexLists` | scripts/adr_index.py:56-67 | and holds the row of every decision, in order |
| `DecRender.PreambleIsShown` | scripts/adr_index.py:56-67 | below the header stands the trimmed content of `_preamble.md` |
| `DecRender.RowSays` | scripts/adr_index.py:62-65 | a row names id, escaped title, status and file |
| `DecRender.EscapedAppend` | scripts/adr_index.py:63 | escaping a title is done character by character |
| `DecRender.EscapedPlain` | scripts/adr_index.py:63 | bars are escaped and nothing else |
| `DecRender.ApplyRenders` | scripts/dec_export.py:252-271 | after applying a render the directory holds the rendered files, written or already reading as they should, the files no render generates as they were, and nothing stale |
| `DecRender.RenderAgain` | scripts/dec_export.py:252-271 | rendering again right after applying rewrites exactly the files and the index whose text holds a carriage return, and deletes nothing |
| `DecRender.RenderSettles` | scripts/dec_export.py:339-359 | `render --check` passes after `render --apply` if and only if no rendered text, of a file or of the index, holds a carriage return |
| `DecRender.RenderSettlesExactly` | scripts/dec_export.py:231-271 | on the snapshot: it passes if and only if no title and no cleaned body holds a carriage return |
| `DecRender.LineEndsSettle` | scripts/dec_export.py:227-228 | bodies with LF and CRLF line ends in any mixture always settle |
| `DecRender.LoneReturnNeverSettles` | scripts/dec_export.py:227-271 | the file of a decision whose body is `a\rb` is rewritten again after every apply, whatever the directory held |
| `DecRender.ReturnInIndex` | scripts/adr_index.py:56-67 | the index holds a carriage return if and only if a title does |
| `DecRender.ReturnInFile` | scripts/dec_export.py:235-246 | a rendered file holds a carriage return if and only if the title or the cleaned body does |
| `DecRender.CleanedReturns` | scripts/dec_export.py:227-228 | cleaning leaves a carriage return only where the body has one that no line feed follows |
| `TextMode.UniversalIsExact` | scripts/dec_export.py:269 | reading a file in text mode changes its text if and only if that holds a carriage return |
| `TextMode.RestReads` | scripts/adr_common.py:100-106 | reading what is left of a file after n characters read gives the rest of what was read |
| `TextMode.UnixKeepsLoneReturns` | scripts/dec_export.py:228 | replacing CRLF by LF leaves a carriage return exactly where one stands alone |
| `DecExport.AdrReadsBack` | scripts/vault_lint.py:109-120 | the linter reads in a rendered file, whatever its line ends, the id and fields of its decision |
| `DecExport.EntrySays` | scripts/dec_export.py:127-142 | what an exported entry says, field by field, with an absent date or task written as null |
| `DecExport.EntryReadsBack` | scripts/vault_lint.py:178-233 | the linter reads an exported entry back, or refuses it exactly when its title is blank |
| `DecExport.SnapshotReadsBack` | scripts/vault_lint.py:154-234 | an exported snapshot has no schema issue if and only if no title is blank, and is then read back whole |
| `DecExport.FilesMirrorEntries` | scripts/vault_lint.py:253-294 | in a rendered directory the ADR files are those of the decisions and no file is stray |
| `DecExport.OwnRenderConformsExactly` | scripts/vault_lint.py:237-420 | generator and linter agree: a snapshot linted against its own applied render conforms if and only if there is a directory to read and every title is trimmed and not empty |
| `DecExport.LintOwnRender` | scripts/vault_lint.py:237-420 | running the linter on an applied render reports nothing under exactly that condition |
| `DecExport.BuiltSnapshotIsWellFormed` | scripts/dec_export.py:67-142 | every snapshot the merge builds from well-formed ids meets the hypotheses of the previous two |
| `VaultLint.FirstsHold` | scripts/vault_lint.py:216-233 | the first declaration of an id counts |
| `VaultLint.Report.ReadDocs` | scripts/vault_lint.py:253-282 | documents by id, one issue exactly when some ADR cannot be read and one for exactly the ids declared twice |
| `VaultLint.Report.FindStrays` | scripts/vault_lint.py:283-294 | an issue exactly when the directory holds another Markdown file |
| `VaultLint.Report.ParseSnapshotDecisions` | scripts/vault_lint.py:154-234 | decisions by id, schema issues for exactly the malformed entries and repetition issues for exactly the repeated ids |
| `VaultLint.Report.CheckCoverage` | scripts/vault_lint.py:319-339 | an issue for exactly the ids of one side the other side lacks |
| `VaultLint.Report.CheckRefs` | scripts/vault_lint.py:343-363 | a dangling issue exactly when a reference leads nowhere, an asymmetry issue exactly when one is not mirrored |
| `VaultLint.Report.CheckLinks` | scripts/vault_lint.py:341-384 | both directions of every decision's links |
| `VaultLint.Report.CheckFields` | scripts/vault_lint.py:386-418 | a mismatch issue for exactly the decisions whose title or status differs |
| `VaultLint.RunSnapshotLint` | scripts/vault_lint.py:237-420 | the set of issues reported, exactly, for every directory and every snapshot file |
| `VaultLint.CleanExactlyWhenConformant` | scripts/vault_lint.py:1-28 | the report is empty if and only if ADRs and decisions correspond one to one, links exist and mirror each other, titles and statuses agree and nothing is stray or unreadable |
| `VaultLint.MatchesExactly` | scripts/vault_lint.py:387-412 | a title or status agrees with the snapshot if and only if it is the snapshot's text with blanks around it |
| `VaultLint.MismatchExactly` | scripts/vault_lint.py:387-412 | a mismatch is reported exactly when it does not |
| `VaultLint.ReadEntryExactly` | scripts/vault_lint.py:178-233 | an entry of any snapshot is read exactly when id, title and status are texts that are not blank, the other six fields are there and both links are lists of texts, and then as it says |
| `VaultLint.ReadDocExactly` | scripts/vault_lint.py:109-120 | a file is read exactly when it has an ADR's name and front matter that is a record with an id |
| `VaultLint.StraysExactly` | scripts/vault_lint.py:253-294 | a stray file is reported exactly when a Markdown file is neither an ADR nor set apart by an underscore |
| `VaultLint.FormatExactly` | scripts/vault_lint.py:300-314 | a snapshot of another format is reported, and only that |
| `VaultLint.MalformedEntryIsNamed` | scripts/vault_lint.py:179-197 | a malformed entry is reported under its id when that is a text |
| `VaultSync.MergeEntities` | scripts/vault_sync.py:89-106 | the merged list, and whether it differs from the vault's |
| `VaultSync.MergedIsAdditive` | scripts/vault_sync.py:89-106 | the vault's entities stay first and unchanged, every ADR entity's key is present, nothing changes exactly when all were |
| `VaultSync.MergedAddsOnlyNew` | scripts/vault_sync.py:101-105 | only ADR entities with a key not seen before are appended |
| `VaultSync.PlanScalars` | scripts/vault_sync.py:189-200 | missing scalars are filled, disagreements become conflicts and are not overwritten |
| `VaultSync.PlanOne` | scripts/vault_sync.py:171-240 | the action for one ADR: create, unchanged exactly when the note is up to date, or update with the synchronised front matter and the same body |
| `VaultSync.ConflictsAreDisagreements` | scripts/vault_sync.py:189-200 | a conflict is reported for exactly the scalars both sides know and disagree about, with both values |
| `VaultSync.UpdateIsAdditive` | scripts/vault_sync.py:185-227 | an update keeps every unmanaged field, every source and entity and every scalar the note had |
| `VaultSync.UpdateBrings` | scripts/vault_sync.py:188-227 | an update fills each missing scalar the ADR knows, adds the ADR's file to the sources unless listed, and stamps title and text |
| `VaultSync.UpdateMerges` | scripts/vault_sync.py:88-108 | every entity of the ADR is in the note afterwards, two entities being one when node, path and symbol are |
| `VaultSync.StampSays` | scripts/vault_sync.py:219-227 | the stamp holds file, hash and time of the run that wrote it, and a valid one is kept |
| `VaultSync.UnchangedExactly` | scripts/vault_sync.py:229-232 | a note is left alone exactly when an update would change nothing in it, an empty text filled with an empty text apart |
| `VaultSync.StampSeesEdits` | scripts/vault_sync.py:178-180 | for an injective hash and titles of one line, a stamp is valid for exactly the title and text it was made from |
| `VaultSync.EditIsUpdated` | scripts/vault_sync.py:178-232 | an ADR whose text was edited since is planned as "update", and one that was not as "unchanged" if and only if nothing is filled with the empty string |
| `VaultSync.NewNoteSays` | scripts/vault_sync.py:125-140 | what a new note says of its ADR: alias, title, days and sources |
| `VaultSync.NewNoteHasEntities` | scripts/vault_sync.py:141-152 | and it has a `graphify` block exactly when the ADR names entities |
| `VaultSync.NewNoteCarries` | scripts/vault_sync.py:141-152 | and its scalars, entities and stamp |
| `VaultSync.NewBodyHolds` | scripts/vault_sync.py:154-162 | its body holds the ADR's body between heading and proof section |
| `VaultSync.SyncedIsWellShaped` | scripts/vault_sync.py:202-227 | an update leaves front matter the next run can read |
| `VaultSync.SyncedIsUpToDate` | scripts/vault_sync.py:189-229 | an updated note is up to date if and only if no field was filled with the empty string |
| `VaultSync.NewIsUpToDate` | scripts/vault_sync.py:128-152 | a created note is up to date if and only if no ADR scalar is the empty string, and has no conflict |
| `VaultSync.ReplanExactly` | scripts/vault_sync.py:171-240 | planning again from what an action left is "unchanged" if and only if no field was filled with the empty string, with the same conflicts in every case |
| `VaultSyncRun.WrittenReadsBack` | scripts/vault_sync.py:260-265 | the front matter of a written note reads back exactly, its body with line ends translated: the note itself comes back if and only if the body holds no carriage return |
| `VaultSyncRun.IndexVault` | scripts/adr_common.py:109-122 | each four-digit alias leads to the last note, in file order, that has it |
| `VaultSyncRun.FourDigitsExactly` | scripts/adr_common.py:120 | an alias is indexed when it is `DEC-` and four digits, no more and no less |
| `VaultSyncRun.PlanSync` | scripts/vault_sync.py:243-253 | one action per ADR, planned from the note that holds its id |
| `VaultSyncRun.ApplySync` | scripts/vault_sync.py:256-265 | actions are written one after the other, a later one over an earlier one |
| `VaultSyncRun.NoteAfter` | scripts/vault_sync.py:256-265 | after any run each name holds what the last action that wrote under it left, line ends translated in reading, or what it held before |
| `VaultSyncRun.BodyAfter` | scripts/vault_sync.py:3-7 | whatever the actions of a run, a note nobody wrote is untouched, a note whose last write is an update keeps its body bytes if and only if they held no carriage return, and one whose last write is a new note of the same name has that note's body instead |
| `VaultSyncRun.CarriageReturnIsLost` | scripts/vault_sync.py:231-238 | a note whose body is `a\rb` has the body `a\nb` after its next update |
| `VaultSyncRun.RawBodyReads` | scripts/adr_common.py:100-106 | the body of a loaded note is the translation of what the file holds after its front matter |
| `VaultSyncRun.AliasedAfter` | scripts/vault_sync.py:128-131 | after any run a note that was created has the alias of its own ADR only, and every other note the aliases it had |
| `VaultSyncRun.HolderAfter` | scripts/adr_common.py:115-122 | after a run each ADR with a four-digit id, whose id is its own and whose note nobody else writes last, finds the note its action was about |
| `VaultSyncRun.SyncSettlesExactly` | scripts/vault_sync.py:1-35 | plan, apply, plan again: an ADR whose id is its own and whose note nobody else writes last is "unchanged" if and only if its id has four digits and no field was filled with the empty string, and the conflicts are the same |
| `VaultSyncRun.SharedNoteNeverSettles` | scripts/vault_sync.py:220-227 | two ADRs that share a note and hash differently are never both "unchanged" |
| `VaultSyncRun.CreatedIsFoundExactly` | scripts/vault_sync.py:256-265 | a note just created is found by the next run if and only if its id has four digits and no later action wrote under its name; otherwise the ADR is planned as "create" again |
| `VaultSyncRun.CreatedAgainExactly` | scripts/vault_sync.py:181-182 | after any run an ADR is planned as "create" if and only if no note is left with its alias |
| `VaultSyncRun.ReplacedIsCreatedAgain` | scripts/vault_sync.py:256-265 | an ADR whose note a new note of the same name has replaced is planned as "create" if and only if no other note is left with its alias |
| `VaultSyncRun.TakenNoteNeverSettles` | scripts/vault_sync.py:220-227 | an ADR whose note another ADR with a different hash writes last is never "unchanged" on that note |
| `SessionModel.RenewalBeforeExpiry` | dashboard/src/persistentSession.ts:52-65 | the renewal fires strictly before expiry if and only if the lifetime is above one second: a minute before from two minutes on, after half the lifetime below, for a quarter of an hour when none is given |
| `SessionModel.StepKeepsInv` | dashboard/src/persistentSession.ts:52-116 | every step of timers, hooks, sign-ins, server and vault, lost answers and late requests included, keeps: one rotation at a time, tokens on their way to the vault unused and distinct, a consumed token in the vault only while its rotation settles or after one of the three failures |
| `SessionModel.StagesInOrder` | dashboard/src/persistentSession.ts:85-108 | every rotation goes through its stages in order and never back |
| `SessionModel.RotationsStartLoading` | dashboard/src/persistentSession.ts:111-116 | a rotation is started by a timer or a hook and begins by loading the vault |
| `SessionModel.RequestsCarryTheVault` | dashboard/src/persistentSession.ts:86-95 | a request carries what the vault holds and is sent once, by a rotation that then waits for its answer |
| `SessionModel.RefusalForgets` | dashboard/src/persistentSession.ts:99-103 | after a 401 the vault is being cleared, the renewal is off and the token cannot be loaded again |
| `SessionModel.ForgettingStays` | dashboard/src/persistentSession.ts:99-103 | nothing but the end of that clear moves the rotation, and until then no request is sent |
| `SessionModel.ForgottenIsGone` | dashboard/src/persistentSession.ts:99-103 | once it succeeds the vault is empty and nothing is running |
| `SessionModel.HookPresents` | dashboard/src/persistentSession.ts:85-95 | from an idle session with a token, a hook leads to one request with that token |
| `SessionModel.AnswerGoesOn` | dashboard/src/persistentSession.ts:106-107 | the exchanged token goes on to be stored |
| `SessionModel.AnswerIsKept` | dashboard/src/persistentSession.ts:80-83 | once stored it is in the vault, its renewal pending and the session idle |
| `SessionModel.AnswerIsNotKept` | dashboard/src/persistentSession.ts:80-83 | a failed store goes on to clear, and a renewal is scheduled whatever the clear answers |
| `SessionModel.FailureKeepsTheToken` | dashboard/src/persistentSession.ts:96-107 | any other failure leaves the vault as it was, and a timer that waited retries after 30 seconds |
| `SessionModel.SignInIsKept` | dashboard/src/persistentSession.ts:72-83 | a sign-in's token ends in the vault, or the vault is cleared, and its renewal is pending in both cases |
| `SessionModel.CallersShareOneRotation` | dashboard/src/persistentSession.ts:111-116 | callers join the rotation in flight or start the only one; a timer callback waits for it |
| `PersistentSession.Session.On401` | dashboard/src/persistentSession.ts:111-116 | the hook joins the rotation in flight or starts one |
| `SessionModel.EmptyVaultEndsRotation` | dashboard/src/persistentSession.ts:86-88 | without a token nothing is sent |
| `SessionModel.ConfigureForgets` | dashboard/src/persistentSession.ts:36-40 | configuring forgets the timer and the slot and nothing else |
| `SessionModel.ReplayExactlyWhenStale` | dashboard/src/persistentSession.ts:78-107 | a consumed token is presented exactly when a rotation loads a stale vault, and a vault turns stale exactly when it still holds the token of a rotation and the store and the clear after it both fail, or the answer to it is lost, refused or comes without its token, or the request arrives after it was given up |
| `SessionModel.UnderWayExactly` | dashboard/src/persistentSession.ts:96-105 | a request under way comes to carry a consumed token exactly when a rotation loads a stale vault or when an earlier request with the same token, given up, arrives first |
| `SessionModel.EveryRunKeepsInv` | dashboard/src/persistentSession.ts:85-116 | at most one refresh request is outstanding over every run in which the vault is configured while idle |
| `SessionModel.NoTokenIsReplayed` | dashboard/src/persistentSession.ts:72-116 | over every run in which none of these failures happens no consumed token is ever presented and no request under way carries one |
| `SessionModel.FailedClearReplays` | dashboard/src/persistentSession.ts:80 | when that clear fails the next refresh presents the consumed token |
| `SessionModel.FailedStoreIsReachable` | dashboard/src/persistentSession.ts:80 | such a state is reached from every vault that holds a token |
| `SessionModel.LostAnswerReplays` | dashboard/src/persistentSession.ts:96-107 | from every vault that holds a token: when the answer is lost after the server has rotated, or comes without tokens, the next refresh presents the consumed token |
| `SessionModel.LateArrivalReplays` | dashboard/src/persistentSession.ts:96-98 | the same when a request that was given up arrives afterwards |
| `SessionModel.LateRequestConsumes` | dashboard/src/persistentSession.ts:96-98 | such a request is carried out: its token is consumed and the one issued reaches nobody |
| `SessionModel.OvertakenRequestReplays` | dashboard/src/persistentSession.ts:54-58 | a retry can be overtaken by the request it repeats, and then carries a consumed token |
| `SessionModel.ConfigureIsSafeExactlyWhenIdle` | dashboard/src/persistentSession.ts:36-40 | from every state that satisfies the invariant, configuring the vault can be followed by a run with two requests outstanding if and only if a rotation, of whatever kind, was running |
| `PersistentSession.Session.ScheduleRenewal` | dashboard/src/persistentSession.ts:52-60 | the pending renewal is replaced by one after the delay or, if that is shorter, one second; for a token that lives longer than a second it fires before expiry; the invariant is kept |
| `PersistentSession.Session.RefreshSession` | dashboard/src/persistentSession.ts:111-116 | a rotation in flight is joined and nothing is started; otherwise one starts: afterwards exactly one is running, the one callers share |
| `PersistentSession.Session.OnTimer` | dashboard/src/persistentSession.ts:54-58 | a timer callback joins or starts the only rotation, waits for it and leaves no timer behind |
| `PersistentSession.Session.Return` | dashboard/src/persistentSession.ts:112-114 | the end of a rotation frees the slot, and a timer that waited retries when the server was not reached |
| `PersistentSession.Session.OnLoaded` | dashboard/src/persistentSession.ts:86-95 | the stored token is presented, and it was consumed before if and only if the vault is stale; without one the rotation ends |
| `PersistentSession.Session.OnRefused` | dashboard/src/persistentSession.ts:99-102 | a 401 cancels the renewal and starts clearing the vault; the token is not sent again |
| `PersistentSession.Session.OnUnreachable` | dashboard/src/persistentSession.ts:96-105 | any other failure ends the rotation and keeps the secret, and leaves the vault stale if and only if the server had rotated the token in it; a timer that waited retries after 30 seconds |
| `PersistentSession.Session.OnBareAnswer` | dashboard/src/persistentSession.ts:73-77 | a good answer without a refresh token ends the rotation with nothing stored, and without a JWT counts as unreachable; it leaves the vault stale if and only if the server had rotated the token in it |
| `PersistentSession.Session.OnAnswer` | dashboard/src/persistentSession.ts:106-107 | a good answer with tokens goes on to be stored, with a token never stored or consumed before |
| `PersistentSession.Session.OnStored` | dashboard/src/persistentSession.ts:80-82 | a stored token has not been consumed and its renewal fires before it expires; a failed store goes on to clear |
| `PersistentSession.Session.OnCleared` | dashboard/src/persistentSession.ts:80-82 | the rotation ends with a renewal scheduled; the vault is left stale if and only if the clear failed and the consumed token is still there |
| `PersistentSession.Session.OnForgot` | dashboard/src/persistentSession.ts:101-102 | forgetting a refused secret ends the rotation and schedules nothing |
| `PersistentSession.Session.OnSignIn` | dashboard/src/persistentSession.ts:72-80 | a sign-in starts storing a token that is neither consumed nor anywhere else on its way |
| `PersistentSession.Session.OnSignInStored` | dashboard/src/persistentSession.ts:80-82 | the sign-in's token is kept, not consumed, and its renewal fires before it expires, or it goes on to be cleared |
| `PersistentSession.Session.OnSignInCleared` | dashboard/src/persistentSession.ts:80-82 | a sign-in whose token could not be kept still schedules a renewal |
| `PersistentSession.Session.ConfigureVault` | dashboard/src/persistentSession.ts:36-40 | a new vault forgets the timer and the slot; the invariant is kept if no rotation is running, and otherwise two requests can be outstanding later |
| `ConnectionMonitor.StepKeepsInv` | dashboard/src/connection.ts:47-98 | a retry timer is pending only while unreachable and not stopped, such a state always has a retry or a probe, delays climb the ladder, listeners hear changes only |
| `ConnectionMonitor.RunsFromStart` | dashboard/src/connection.ts:39-122 | the same over every run from the start, with delays non-decreasing within 3 to 30 seconds since the last answer |
| `ConnectionMonitor.ClimbingGrows` | dashboard/src/connection.ts:58-67 | delays since the last reset never shrink and stay within 3 and 30 seconds |
| `ConnectionMonitor.AuthExpiredIsSticky` | dashboard/src/connection.ts:69-80 | an expired session is left only through `clearAuthExpired`; a 401 enters it and cancels the retry; an answer resets the backoff and shows as connected exactly outside it; a stopped monitor stays stopped |
| `ConnectionMonitor.WhatShows` | dashboard/src/connection.ts:58-115 | outside an expired session: a status from 200 to 299 shows as connected, any other as unreachable with that status, a failed probe as unreachable, a 401 as expired, and the first check as connecting |
| `ConnectionMonitor.ExpiredHides` | dashboard/src/connection.ts:69-80 | an expired session hides what the probes say and retries nothing |
| `ConnectionMonitor.ProbesAreStarted` | dashboard/src/connection.ts:82-98 | a check or a fired retry starts a probe, its answer ends it |
| `ConnectionMonitor.FailureWaits` | dashboard/src/connection.ts:58-80 | each failure waits for its place on the ladder of 3, 6, 12, 24 and 30 seconds, an answer starts it again |
| `ConnectionMonitor.FailuresClimb` | dashboard/src/connection.ts:58-80 | over any run of failures the retry is the place of the last one on the ladder away |
| `ConnectionMonitor.CallingBackBreaksTheTimer` | dashboard/src/connection.ts:76-80 | a listener that makes any calls while it is told of `unreachable` leaves a timer pending outside that state unless nothing was told, or the calls stop the monitor or lead back there |
| `ConnectionMonitor.SecondProbeExactly` | dashboard/src/connection.ts:82-98 | a second probe runs beside the first if and only if the listener told of `connecting` checks in its turn; there are never more than two |
| `ConnectionMonitor.Monitor.SetCurrent` | dashboard/src/connection.ts:47-51 | listeners are told of a changed snapshot, of each change once and of nothing else, and never after a stop |
| `ConnectionMonitor.Monitor.Schedule` | dashboard/src/connection.ts:58-67 | unless stopped a retry is pending, between 3 and 30 seconds away and no sooner than any delay since the last answer |
| `ConnectionMonitor.Monitor.Reachable` | dashboard/src/connection.ts:69-74 | an answer resets the backoff |
| `ConnectionMonitor.Monitor.NotReachable` | dashboard/src/connection.ts:76-80 | a failure schedules a retry unless the session is expired |
| `ConnectionMonitor.Monitor.BeginCheck` | dashboard/src/connection.ts:82-88 | one probe at a time |
| `ConnectionMonitor.Monitor.EndCheck` | dashboard/src/connection.ts:88-96 | a probe ends as its status says |
| `ConnectionMonitor.Monitor.OnRetry` | dashboard/src/connection.ts:63-66 | a fired retry is no longer pending and probes again |
| `ConnectionMonitor.Monitor.OnUnauthorized` | dashboard/src/connection.ts:109-112 | a 401 cancels the retry and shows an expired session |
| `ConnectionMonitor.Monitor.OnSignIn` | dashboard/src/connection.ts:113-115 | signing in or out leaves an expired session |
| `ConnectionMonitor.Monitor.Halt` | dashboard/src/connection.ts:116-120 | stopping cancels the retry |
| `Transfers.PartsAreFull` | dashboard/src/transfersApi.ts:123-127 | parts 1 to ceil(total/size) are non-empty ranges inside the payload and later ones are empty |
| `Transfers.PartsTile` | dashboard/src/transfersApi.ts:123-127 | the first part starts at 0, each ends where the next starts, the last ends at the total |
| `Transfers.ByteHasOnePart` | dashboard/src/transfersApi.ts:123-127 | every byte lies in exactly one part |
| `Transfers.StepKeepsInv` | dashboard/src/transfersApi.ts:135-145 | whatever runner moves next, every item taken is completed once or held by one runner, never both, and parts and bytes count exactly what is completed |
| `Transfers.FailureIsFinal` | dashboard/src/transfersApi.ts:144 | once a worker has failed the upload never resolves, while the other runners go on |
| `Transfers.EveryRun` | dashboard/src/transfersApi.ts:135-145 | under every interleaving at most four parts are in flight, and a resolved run has run each item exactly once |
| `Transfers.CompletionMeansAll` | dashboard/src/transfersApi.ts:208-235 | completion is requested only when every item was run once, exactly the parts with a URL have an ETag, and their bytes are all counted |
| `Transfers.TagsAreKept` | dashboard/src/transfersApi.ts:218-226 | what is sent at completion: each stored answer puts its tag, unquoted, under the number of its part, and the other parts keep theirs |
| `Transfers.InFlightCounts` | dashboard/src/transfersApi.ts:135-145 | the number in flight is that of the runners at work |
| `Transfers.UnquotedExactly` | dashboard/src/transfersApi.ts:225 | a quote at either end of a tag goes, and nothing else |
| `Transfers.UploadedMatchesExactly` | dashboard/src/transfersApi.ts:199-235 | for distinct part numbers the bytes counted at completion are those of the file if and only if every part 1 to ceil(total/size) was given with its URL |
| `Transfers.MissingPartIsNotNoticed` | dashboard/src/transfersApi.ts:199-235 | an upload of one byte without its part is complete from the start |
| `Transfers.Upload.constructor` | dashboard/src/transfersApi.ts:208-209 | nothing taken and nothing counted at the start |
| `Transfers.Upload.NextItem` | dashboard/src/transfersApi.ts:137-143 | a runner takes the next item or leaves its loop |
| `Transfers.Upload.SkipPart` | dashboard/src/transfersApi.ts:213-214 | a part without URL counts as run and adds nothing |
| `Transfers.Upload.PartStored` | dashboard/src/transfersApi.ts:215-226 | an answer with an ETag counts the part's bytes, one without makes the worker throw |
| `Coordination.IndexById` | dashboard/src/coordination.ts:99 | a later item replaces an earlier one of the same id |
| `Coordination.RootOf` | dashboard/src/coordination.ts:101-109 | terminates on every reply structure, cycles included, at the end of the walk up |
| `Coordination.WalkEnds` | dashboard/src/coordination.ts:103-108 | with distinct ids the walk ends at an item without known parent or on a loop of replies |
| `Coordination.ParentIsNamed` | dashboard/src/coordination.ts:99-106 | an item leads to the last item that carries the id it answers, if there is one |
| `Coordination.RootIsReached` | dashboard/src/coordination.ts:101-109 | whatever the ids, the root is reached by following `inReplyTo`, at an item that answers nothing known or whose id was met on the way |
| `Coordination.RootIsIdempotent` | dashboard/src/coordination.ts:101-109 | with distinct ids the root of a root is itself, on cycles too |
| `Coordination.BuildThreads` | dashboard/src/coordination.ts:110-115 | one thread per root id; its replies are the items under the id that are not their own root, in order and once each |
| `Coordination.EveryItemSitsOnce` | dashboard/src/coordination.ts:98-117 | with distinct ids every item sits in exactly one thread, as its root or as one reply, never both |
| `Coordination.LostExactly` | dashboard/src/coordination.ts:112-114 | whatever the ids and links, an item is in no thread if and only if it is its own root and is not the root of the first item whose root has its event id |
| `Coordination.RepeatedIdIsLost` | dashboard/src/coordination.ts:110-115 | of two items without replies that carry one event id the second is in no thread |
| `RoadmapFormat.ReadMetadata` | dashboard/src/roadmapFormat.ts:51-69 | the loop over metadata entries returns all of them, or fails exactly when a name, a value or their number is not allowed |
| `RoadmapFormat.MetadataRoundTrip` | dashboard/src/roadmapFormat.ts:51-69 | metadata reads back exactly when it is within the limits |
| `RoadmapFormat.TaskRoundTrip` | dashboard/src/roadmapFormat.ts:76-84 | a task reads back exactly when it is within the limits |
| `RoadmapFormat.StepRoundTrip` | dashboard/src/roadmapFormat.ts:86-109 | a step reads back exactly when it is within the limits and no hydration key repeats |
| `RoadmapFormat.ParsedStepIsGood` | dashboard/src/roadmapFormat.ts:86-109 | no step outside the limits is ever returned |
| `RoadmapFormat.PhaseRoundTrip` | dashboard/src/roadmapFormat.ts:111-122 | a phase reads back exactly when it is within the limits |
| `RoadmapFormat.DocumentRoundTrip` | dashboard/src/roadmapFormat.ts:162-183 | a document reads back exactly when all its parts are within the limits |
| `RoadmapFormat.Validate` | dashboard/src/roadmapFormat.ts:162-186 | parsing and graph together decide as the specification does |
| `RoadmapFormat.ValidationIsExact` | dashboard/src/roadmapFormat.ts:162-186 | validation accepts the encoding of exactly the acceptable documents and returns them unchanged, returns nothing else for any input, and is idempotent |
| `RoadmapFormat.AcceptedExactlyWhenWritten` | dashboard/src/roadmapFormat.ts:162-190 | any JSON value is accepted as a document if and only if it writes that document - no field but its own, optional fields null or left out, lists and metadata left out only where empty - and the document is within the limits with its graph in order |
| `RoadmapFormat.ParseStepExactly` | dashboard/src/roadmapFormat.ts:86-119 | the same for a step |
| `RoadmapFormat.ParseMetadataExactly` | dashboard/src/roadmapFormat.ts:51-72 | the same for metadata |
| `RoadmapFormat.ParseTextExactly` | dashboard/src/roadmapFormat.ts:39-44 | a text is accepted when it is not empty, within its length and no private path |
| `RoadmapFormat.ParseKeyExactly` | dashboard/src/roadmapFormat.ts:46-49 | a key is accepted when it is a letter or digit followed by at most 63 letters, digits, dots, underscores and hyphens |
| `RoadmapFormat.MetadataExactly` | dashboard/src/roadmapFormat.ts:51-72 | metadata is within the limits when it has at most twenty entries, names of one to 64 characters that do not look secret, and texts of at most 500 characters that are no private path |
| `RoadmapData.ImportThenExport` | dashboard/src/roadmapData.ts:64-94 | importing and exporting, step by step and task by task, keeps every exchanged field but the export date and a missing revision number |
| `RoadmapData.DocumentSurvives` | dashboard/src/roadmapFormat.ts:202-234 | exporting an imported accepted document succeeds and returns it with no export date and a filled-in revision number |
| `RoadmapData.ImportedRoadmap` | dashboard/src/roadmapData.ts:64-94 | an imported roadmap is a draft with the number of its steps, a revision of its own or one above the previous, and the identity and approval of the previous roadmap |
| `RoadmapData.ImportedStep` | dashboard/src/roadmapData.ts:68-77 | each step stands at its place, not started, waiting for its dependencies and available exactly without any |
| `RoadmapData.RoadmapToDocument` | dashboard/src/roadmapFormat.ts:202-234 | exporting succeeds if and only if the roadmap's document is within the limits and its graph is acceptable, and returns that document unchanged |
| `RoadmapData.DataSource.ReplaceDocument` | dashboard/src/roadmapData.ts:117-122 | a refused document changes nothing, an accepted one replaces the project's roadmap and no other |
| `AtlasCamera.RotationsCancel` | dashboard/src/atlas/camera.ts:20-43 | `toWorldDirection` inverts the rotation of `toCamera`, on both sides |
| `AtlasCamera.PanMoves` | dashboard/src/atlas/camera.ts:71-76 | panning moves a visible point by (dx, dy) times the target's depth over its own and keeps its depth |
| `AtlasCamera.PanIsExactOnTargetPlane` | dashboard/src/atlas/camera.ts:71-76 | a visible point moves by exactly (dx, dy) if and only if it lies in the target plane or dx and dy are zero |
| `AtlasCamera.CursorPoint` | dashboard/src/atlas/camera.ts:82-83 | the point zooming holds on to is the point of the target plane under the cursor |
| `AtlasCamera.ZoomKeepsCursor` | dashboard/src/atlas/camera.ts:78-90 | zooming leaves the target-plane point under the cursor at the same screen position, also when the distance is clamped |
| `AtlasCamera.ZoomScalesTheDistance` | dashboard/src/atlas/camera.ts:78-90 | zooming multiplies the distance by the factor, within 8 and 4000, and keeps the direction |
| `AtlasCamera.ZoomBack` | dashboard/src/atlas/camera.ts:78-90 | zooming in and out again at one place gives back the camera when no distance is clamped |
| `AtlasCamera.SeenExactly` | dashboard/src/atlas/camera.ts:45-55 | a point is seen when it lies more than one unit in front of the eye, and the target is seen in the middle |

## Left out

- SseParser.SseParser.ParseFrame: integers are unbounded, so the rounding of `Number.parseInt` beyond 2^53 is not modelled.
- SseDelivery.DeliveryIsAnInterval: text is characters; UTF-8 decoding is outside the model, and what the decoder flushes at the end of a body is any text without a line feed.
- SseLoop.RunsFromStart: the inactivity watchdog is one of the ways a connection may end at any time; messages of a chunk that follow a `close()` made by their listener are not followed one by one.
- Md5.Md5Bytes: the 64-entry sine table is a parameter of program and specification alike; base64 encoding is not modelled.
- LibraryPackages.Validate: the tests of files, hashes, owners and versions are one list of flaws per entry; message texts and the order of the nodes in the cycle search are arbitrary.
- LibraryImport.LoadPlan: the scope, hash and content tests of an entry are one predicate.
- LibraryImport.ImportPlan: server lookups and publication are functions.
- RoadmapFormat.Validate: a refusal is one value, without the path and text of its message; the regular expressions for private paths and secret names and `Date.parse` are predicates; string lengths count characters.
- DecSnapshot.BuildSnapshot: the similarity of titles and the number of an id are functions; digits are ASCII; links to different ids of one number keep their order of discovery.
- DecRender.RenderFiles: the slug of a title and the fixed sentences of the index are functions and texts without a carriage return; digits are ASCII.
- AdrMarkdown.RoundTripsExactly: YAML is a pair of inverse functions whose dump has no `---` line and escapes carriage returns; a parser that raises is not modelled.
- VaultLint.RunSnapshotLint: the order of the issues and their texts; a YAML error inside an ADR, which the linter does not catch.
- VaultSync.PlanOne: front matter whose managed fields have shapes the code raises on; the content hash and the clock are parameters.
- VaultSyncRun.PlanSync: the ADR files are given as read; the bytes of the front matter, which YAML writes anew, are not compared.
- SessionModel.StepKeepsInv: sign-out and the JWT in memory; a sign-in whose answer has no refresh token; what a revoked session does on the server.
- ConnectionMonitor.RunsFromStart: listeners added after `stop()`; a probe that throws before its first await; listeners that call back are followed for one change (`CallingBackBreaksTheTimer`, `SecondProbeExactly`), not over whole runs.
- Transfers.CompletionMeansAll: a part number is taken together with its URL under its canonical key; the single-PUT branch and progress callbacks are not modelled.
- Coordination.BuildThreads: the final sort of the threads by the time of their roots.
- AtlasCamera.ZoomKeepsCursor: floating-point rounding; the margins of the viewport, orbiting and interpolation.
- Parsing of coordination events, `openItems`, `latestHandoff`, roadmap focus and proposal review: filters over lists and copies of fields, without state or recursion.
- The legacy vault mode of the linter, the comparison with the old Markdown corpus and the download of a snapshot: reports and network calls.
- The API wrapper files, the DOM code, the evaluation scripts and the desktop tests: user interface, I/O and rounding.
