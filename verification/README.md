# Verified models of the filesystem services

The repository is a set of services that talk over FIFOs and keep replicated stores in step. This project models the
parts of them whose correctness is least obvious, in Dafny, and proves what they keep: over every input, over every run
of their steps, and over every interleaving of their threads. `dafny verify dfyconfig.toml` checks all of it.

## The modules

| module | what it models |
|---|---|
| `FileUri` | the token escaping that turns a file URI into a file name, as eight sequential replacements |
| `CommandCodec`, `AttributeLookup`, `AttributeAgreement` | the printer of `name="value"` commands, their framing, the shell tokenizer with its chunked loop, the pattern shortcut for one attribute, and when it agrees with the tokenizer |
| `FifoTransfer` | one deadline-bound writer and one reader of a FIFO |
| `Sessions`, `SessionWriters`, `SessionArrivals`, `SessionProgress` | the generated dispatcher that runs sessions in parallel and the requests of one session in order |
| `EventProtocol`, `EventDelivery`, `DirectoryJournal`, `EventsProcessor` | the directory events processor: stability, journal, seal, termination, the reconnecting batch writer, and the reader of its protocol |
| `BulkAdd`, `BulkDelivery` | the fan-out of announced files to worker threads with queues of their own, and the collector of their outcomes |
| `UploadPool`, `DirectoryUpload`, `UploadScanner`, `UploadProgress` | the directory uploader: scanner, bounded task queue, workers, response, what the scanner decides, and how the upload comes to its end |
| `Records`, `Sync`, `Replicas`, `DocStore`, `InterruptedDelete` | the document store with two replicas, a table and a file storage: put, attach, delete, read, synchronize |
| `DocumentPages`, `IndexSync` | the paged listing of documents and the reconciliation of the vector index with it |
| `Framing` | base-128 varints and length-delimited messages (Protocol Buffers Encoding, "Base 128 Varints") |
| `CaptureEvents`, `Publisher`, `CaptureReference`, `Capture`, `CaptureLimits` | the retrying publisher of capture events, and the consumer that reassembles interleaved connections |
| `Routes`, `Gateway` | the HTTP gateway: canonical paths, discovery documents, merging, first-match resolution, polling |
| `Options`, `Strings`, `Sequences`, `Sets`, `Order` | small shared definitions |

## How the environment is modelled

- Threads, processes and clients are steps of a transition system; a run is any sequence of enabled steps, so a lemma
  about every run is about every interleaving (`Sessions`, `BulkAdd`, `DirectoryUpload`, `FifoTransfer`).
- System calls, broker reports, scans and clocks are scripts that a method takes as a parameter: a write accepts some
  prefix or fails with one of the errors that the code tells apart, and a script that has run out means a full pipe, a
  passed deadline or a stop signal. Where only the point of failure matters, a `budget` says how many calls succeed.
- JSON text, text encodings, path filters and hashes are function parameters with the few laws that are needed, stated
  as `Lawful` predicates.
- The SQL table and directories are finite maps. Objects that the code updates in place are classes whose methods say
  what the new state is.

## Where code and promise part

These are properties that one would expect and that the code does not have; each is stated with the condition under
which it does hold.

- A URI does not always survive canonizing and decanonizing: `/question/` comes back changed. `FileUri.RoundTripIff`
  gives the exact class of URIs that return.
- On hand-written commands the attribute shortcut can find a value that tokenizing does not: inside an argument whose
  blanks are quoted or escaped, behind an earlier argument with the same name that is not quoted, or beside a carriage
  return, a form feed or a vertical tab, which are blanks for the pattern and part of an argument for the tokenizer
  (`AttributeLookup.ShortcutErrsOnHandwrittenInput` is one input). `AttributeAgreement.MatchIsFirstIff` and
  `AttributeAgreement.ShortcutAgreesIff` say for every input exactly when the two agree; on everything that the
  ambassador prints they do.
- A FIFO writer whose deadline passes half-way leaves its reader with a torn result that the reader reports as a good
  one (`FifoTransfer.TornExample`); a good result is whole exactly in the other runs (`FifoTransfer.ReadsWhatWasWritten`).
- A connection that breaks when only the line end of a batch is missing makes the reader accept a batch that the writer
  sends again (`EventProtocol.ConnectionReads`, `EventsProcessor.BreakBeforeLineEnd`); `EventsProcessor.ReadersSeeTheJournal` shows that this is the only way
  in which the readers of all connections together see anything but the journal.
- A failed attachment rolls both replicas back, except when the file system fails after the directory of the chunk was
  made and before its placeholders are complete: the directory stays (`DocStore.Store.Attach`), and the next
  synchronization turns it into a row without a parent (`DocStore.LeakBecomesOrphan`).
- The docstring of the publisher claims order without reservation, but a failed delivery can let later events overtake
  the failed one (`Publisher.FailureReorders`). `Publisher.RequeueOrderIff` and `Publisher.OrderIff` say exactly when the
  order is kept: while the queue of the producer is full it always is, and a retry keeps it if and only if the failed
  records are the last ones that were handed over and their failures were reported in that order.
- A put that fails after its directory was made leaves both replicas half-way. The next synchronization makes them
  consistent if and only if the size had been written, and the document then lacks its type unless that was written too
  (`DocStore.TornPutIsSynced`).
- A deletion that fails half-way through the directories reports that nothing was deleted and leaves the table as it is.
  The next synchronization deletes the rows whose directories are gone, and chunks of a document that is gone stay
  without a parent (`InterruptedDelete.OthersRead`); `InterruptedDelete.ConsistentIff` says exactly when the replicas are
  consistent again.
- Two connections can share a temporary file: a chunked one and one of the older kind whose names differ by the trace
  number (`CaptureLimits.OldFilesCanClash`). Temporary files that an earlier run has left go into the next log
  (`CaptureLimits.LeftoverGoesIn`). `CaptureLimits.RightIffSeparate` shows for any starting files that reassembly is
  right for every sequence of events exactly when the temporary names are different and those of the connections hold
  nothing at the start.

## Model

| member | source | states |
|---|---|---|
| FileUri.CanonizeIsExpansion | ai_agents_framework/docs_dispatcher/sources/backend/mysql/utils.py:10-32 | the eight sequential replacements are one simultaneous expansion of every reserved character, for all strings |
| FileUri.TableIs | ai_agents_framework/docs_dispatcher/sources/backend/mysql/utils.py:10-19 | the token of each reserved character |
| FileUri.CanonizeConcat | ai_agents_framework/docs_dispatcher/sources/backend/mysql/utils.py:27-32 | canonizing works character by character: it distributes over concatenation |
| FileUri.CanonizeIsSafe | ai_agents_framework/docs_dispatcher/sources/backend/mysql/utils.py:27-32 | no reserved character is left, so the result is one path component |
| FileUri.CanonizeIdempotent | ai_agents_framework/docs_dispatcher/sources/backend/mysql/utils.py:27-32 | canonizing twice is canonizing once |
| FileUri.DecanonizeIdempotent | ai_agents_framework/docs_dispatcher/sources/backend/mysql/utils.py:35-40 | decanonizing twice is decanonizing once: no new token arises from decoding the eight tokens in turn |
| FileUri.CanonizeAfterDecanonize | ai_agents_framework/docs_dispatcher/sources/backend/mysql/utils.py:27-45 | canonize(decanonize(s)) = canonize(s) for every string |
| FileUri.StoredFormsAreEqual | ai_agents_framework/docs_dispatcher/sources/backend/mysql/utils.py:43-45 | the database form and the storage form of a URI compare equal, and compare with others as the URI itself does |
| FileUri.RoundTripIff | ai_agents_framework/docs_dispatcher/sources/backend/mysql/utils.py:27-40 | decanonize(canonize(u)) = u if and only if no token word stands between characters that the encoding turns into its percent signs and that are still undecoded at its row |
| FileUri.PlainUriReturns | ai_agents_framework/docs_dispatcher/sources/backend/mysql/utils.py:27-40 | a URI without any of the eight words returns, whatever else it holds |
| FileUri.AmbiguousExample | ai_agents_framework/docs_dispatcher/sources/backend/mysql/utils.py:27-40 | the premise is needed: `/question/` does not return, while `?colon?` does |
| CommandCodec.SplitQuotedArguments | common/modules/api_fs_bash_utils.py:188-264 | the shell function with its chunk-consuming fast path returns what the one-character-at-a-time machine returns, on every input, and fails exactly when the number of unescaped quotes is odd |
| CommandCodec.QuotesDecide | common/modules/api_fs_bash_utils.py:208-232 | the machine is inside quotes exactly when it has passed an odd number of unescaped quotes |
| CommandCodec.NormalizeIsReceived | ai_agents_framework/ai_agent_http_ambassador/server.py:110-111 | the two replacements turn CRLF and LF into CR and leave everything else |
| CommandCodec.QuotingIsEscaping | ai_agents_framework/ai_agent_http_ambassador/server.py:111-111 | the two replacements put a backslash before every backslash and quote, simultaneously |
| CommandCodec.ParseOfPrint | ai_agents_framework/ai_agent_http_ambassador/server.py:105-120 | tokenizing a printed command gives back every `name=value` in order, for all well-formed names and NUL-free values |
| CommandCodec.ForwardedTells | ai_agents_framework/ai_agent_http_ambassador/server.py:114-116 | every argument is forwarded in its place; the session id takes the value of the argument of its name, and comes last if there is none |
| CommandCodec.PrintFailsOnNul | ai_agents_framework/ai_agent_http_ambassador/server.py:108-109 | a command fails to print exactly when some value holds a NUL |
| CommandCodec.CanonizeKeepsPrinted | common/modules/api_fs_query.py:13-16 | canonization only adds the line end to a printed command |
| CommandCodec.CanonizeStrips | common/modules/api_fs_query.py:13-16 | blank space around a command goes and a line end comes behind it |
| CommandCodec.CommandsRoundTrip | common/modules/api_fs_query.py:13-16 | for any list of commands: printing, framing, splitting into lines and tokenizing gives command `i` back as line `i` |
| AttributeLookup.ExtractOrDefault | common/modules/api_fs_bash_utils.py:278-323 | the shell function: errors for an empty delimiter or an open quote, the shortcut first, the default for an empty value |
| AttributeLookup.SafeInputIffClosed | common/modules/api_fs_bash_utils.py:296-296 | the pattern for safe input matches exactly the inputs on which the tokenizer ends outside quotes and escapes |
| AttributeLookup.SimpleByCode | common/modules/api_fs_bash_utils.py:297-297 | the characters that the value pattern takes, by their codes |
| AttributeLookup.SearchFindsCarried | common/modules/api_fs_bash_utils.py:297-304 | on a printed command the value pattern finds exactly the simple value that the command carries under the name, even when values hold text that looks like the attribute |
| AttributeLookup.FirstValueIsCarried | common/modules/api_fs_bash_utils.py:311-320 | taking the first matching token finds the value that the command carries |
| AttributeLookup.ShortcutAgrees | common/modules/api_fs_bash_utils.py:296-322 | on every printed command with distinct plain names, shortcut and tokenizing give the same value or default, and the shortcut applies exactly to simple values |
| AttributeLookup.SerializedShortcutAgrees | ai_agents_framework/ai_agent_http_ambassador/server.py:114-120 | hence on everything that the ambassador serializes, the session id included |
| AttributeAgreement.SearchIsLeftmost | common/modules/api_fs_bash_utils.py:297-304 | searching gives the match at the leftmost place that has one |
| AttributeAgreement.MatchIsFirstIff | common/modules/api_fs_bash_utils.py:296-322 | on every input the pattern applies to: the first argument that starts with the key begins at the match if and only if the tokenizer is there outside quotes, escapes and arguments, has finished no argument with the key, and the key holds no quote, backslash or separator; it is the whole match if and only if moreover a separator or the end is behind it |
| AttributeAgreement.MatchAgreesIff | common/modules/api_fs_bash_utils.py:296-322 | for every such input, key and default: both ways give the same value if and only if that holds, or the argument that carries the key elsewhere happens to lead to the same value |
| AttributeAgreement.ShortcutAgreesIff | common/modules/api_fs_bash_utils.py:296-322 | hence, for every input at all, exactly when the shell function gives what tokenizing alone would give |
| AttributeLookup.ShortcutErrsOnHandwrittenInput | common/modules/api_fs_bash_utils.py:296-304 | off the printed form the shortcut can return a value that tokenizing does not |
| FifoTransfer.StepKeepsInv | common/modules/api_fs_query.py:154-235 | every step of writer and reader keeps: what was read and what is in the pipe are the accepted beginning of the payload |
| FifoTransfer.ReadsWhatWasWritten | common/modules/api_fs_query.py:154-235 | in every interleaving a reader's good result is a nonempty beginning of the payload within the limit, and all of it if and only if the writer's deadline did not pass half-way, which is when the writer reports success |
| FifoTransfer.TornExample | common/modules/api_fs_query.py:155-185 | a run in which the writer times out and the reader reports a torn result as good |
| FifoTransfer.StepGetsNearer | common/modules/api_fs_query.py:154-235 | every step of either leaves less to do, and the deadline of either can end it at any time |
| FifoTransfer.NobodyReads | common/modules/api_fs_query.py:155-185 | bytes are accepted only while somebody reads, and a writer that has more to write to nobody is told so |
| FifoTransfer.RefusesIff | common/modules/api_fs_query.py:187-235 | a reader refuses exactly what goes beyond its limit |
| FifoTransfer.WholeIsPossible | common/modules/api_fs_query.py:154-235 | every payload within the limit can be handed over whole |
| Sessions.StepKeepsInv | common/build_api_services.py:218-324 | every step of dispatcher, handlers, result writers and clients keeps the invariant of the protocol |
| Sessions.RunKeepsInv | common/build_api_services.py:368-424 | hence every run of the parallel-by-session server does |
| Sessions.StartsInTurn | common/build_api_services.py:244-289 | in every reachable state a request has started only if all earlier ones of its session have ended |
| Sessions.AtMostOneActive | common/build_api_services.py:290-323 | at most one request of a session is executing or publishing |
| Sessions.FinishedIsPrefix | common/build_api_services.py:244-323 | the finished requests of a session are a prefix of its arrivals |
| Sessions.ExecutesInArrivalOrder | common/build_api_services.py:306-313 | no request executes twice, and those of one session execute in arrival order |
| Sessions.ExecutedIffStarted | common/build_api_services.py:306-313 | a request has been executed exactly when it has started |
| Sessions.StateOutlivesRequest | common/build_api_services.py:227-243 | pruning and removal of state never touch a request that has not ended |
| Sessions.DiscardedForSuccessor | common/build_api_services.py:262-284 | a result is drained or its writer killed only when a later request of the same session has arrived |
| SessionWriters.WriterIsPublishing | common/build_api_services.py:314-322 | in every reachable state a result writer is alive only while its own request publishes: the handler waits for it |
| SessionWriters.AtMostOneWriter | common/build_api_services.py:314-322 | at most one result writer of a session is alive |
| SessionWriters.EarlierAreOver | common/build_api_services.py:254-288 | once a request has started, every earlier result of its session has been read, drained or killed, and nothing is left of the state of the earlier requests |
| SessionWriters.DiscardedWasReady | common/build_api_services.py:262-284 | a result is drained or its writer killed only after it was announced as ready |
| SessionWriters.ForgottenIsRemoved | common/build_api_services.py:227-243 | of a session that the table has forgotten no state is left |
| SessionWriters.HandlerIsKnown | common/build_api_services.py:413-422 | a handler's process is on record until it has ended, from the moment its successor can be read |
| SessionWriters.NobodyIsPresumed | common/build_api_services.py:254-260 | the shortcut for a handler that has died is never taken when handlers run to their end |
| SessionArrivals.RequestsAreArrivals | common/build_api_services.py:404-424 | every command that was read has one request, of its session and in its place |
| SessionArrivals.PrunesEvery64 | common/build_api_services.py:404-407 | with every 64th command, and with no other, the whole table is looked through |
| SessionArrivals.PruningDecides | common/build_api_services.py:232-243 | a session is passed over only if its last request is not over; otherwise it leaves the table with its state |
| SessionArrivals.PruningFollowsList | common/build_api_services.py:232-243 | pruning touches listed sessions only and ends when the list is empty |
| SessionArrivals.DispatcherGoesOn | common/build_api_services.py:404-424 | the dispatcher is never stuck with a command in hand, whatever the handlers do |
| SessionArrivals.DispatcherGetsNearer | common/build_api_services.py:404-424 | each of its steps brings it nearer to the next command |
| SessionProgress.UnreadResultsDoNotBlock | common/build_api_services.py:254-288 | from every reachable state, without any client ever reading, the handlers can bring every dispatched request to its turn |
| SessionProgress.SessionsOverlap | common/build_api_services.py:413-424 | requests of different sessions can be active at the same time |
| EventProtocol.IterDirectoryEventStream | common/modules/directory_event_protocol.py:6-34 | the generator yields what the specification of a reading yields, fails when it does, and its sequences strictly increase |
| EventProtocol.ReadsIff | common/modules/directory_event_protocol.py:6-34 | a reader comes to the end if and only if every line is blank, a notice or a well-formed batch and the sequences increase over all batches; then it has yielded their events in order |
| EventProtocol.ReadFrames | common/modules/directory_event_protocol.py:6-34 | whole batches read back as exactly their events |
| EventProtocol.ConnectionReads | common/modules/directory_event_protocol.py:6-34 | a torn connection yields exactly its whole batches, and an error exactly when the torn batch is cut inside its text; a batch that lacks only its line end is taken as whole |
| EventDelivery.EventWriter.Flush | utility/file-uploader/streaming_directory_events_processor.py:189-222 | for every sequence of partial writes, EAGAIN, EPIPE, ENXIO and other errors: a batch is delivered whole if and only if all its bytes are accepted before an error, another error is raised if and only if it comes first, EPIPE and ENXIO end the connection; delivered events and what stays pending are the old pending ones in order, and each connection's bytes are whole batches and at most one torn one |
| EventDelivery.AcceptedIff | utility/file-uploader/streaming_directory_events_processor.py:203-206 | all the bytes are accepted if and only if the answers before the first error have room for them |
| EventDelivery.BlockedByAnswer | utility/file-uploader/streaming_directory_events_processor.py:216-222 | an error other than a full pipe is one of the answers |
| EventDelivery.EventWriter.Close | utility/file-uploader/streaming_directory_events_processor.py:224-231 | closing ends the connection and changes neither what was delivered nor what the connections took; with a reset the batch in flight is forgotten and stays pending |
| EventDelivery.EventWriter.Recover | utility/file-uploader/streaming_directory_events_processor.py:216-222 | EPIPE and ENXIO end the connection, EAGAIN keeps the batch and its offset, other errors are raised |
| EventDelivery.EventWriter.CurrentInOrder | utility/file-uploader/streaming_directory_events_processor.py:189-222 | the connection in use continues the journal where the earlier ones ended, torn batch included |
| DirectoryJournal.AnnounceKeeps | utility/file-uploader/streaming_directory_events_processor.py:289-304 | announcing a file that is stable and not announced like that keeps: numbers 1..n, no repetition, only stable files |
| DirectoryJournal.EveryStableGrows | utility/file-uploader/streaming_directory_events_processor.py:289-304 | no file that was the same in two consecutive scans goes unannounced |
| DirectoryJournal.ReflectsGrows | utility/file-uploader/streaming_directory_events_processor.py:289-304 | the dictionary of emitted identities is, after every turn, the last stable identity of each path, a function of the scans alone |
| EventsProcessor.AnnounceStable | utility/file-uploader/streaming_directory_events_processor.py:289-304 | one turn's loop over the files keeps all of this and queues exactly what it journals, each event with the id of the request |
| EventsProcessor.TakeTurn | utility/file-uploader/streaming_directory_events_processor.py:289-308 | after every turn the events generated less those delivered are the ones pending |
| EventsProcessor.LookForSeal | utility/file-uploader/streaming_directory_events_processor.py:310-321 | the seal is observed in the first turn in which it is read or nothing has appeared for the update timeout; the turn expires exactly when there has been no seal, nothing ever appeared and the initial timeout is over |
| EventsProcessor.QuietTurn | utility/file-uploader/streaming_directory_events_processor.py:323-335 | all stable events are created exactly in a turn that sees every file as it was last announced |
| EventsProcessor.Drain | utility/file-uploader/streaming_directory_events_processor.py:351-360 | the termination record counts as delivered exactly when nothing is left |
| EventsProcessor.Terminate | utility/file-uploader/streaming_directory_events_processor.py:338-360 | the record of termination is numbered last and counts the events generated, delivered and still pending |
| EventsProcessor.Run | utility/file-uploader/streaming_directory_events_processor.py:281-373 | for every script of scans, clocks, system calls and seals: the journal is numbered 1..last and says exactly what the scans say; when the loop ends by itself, its last scan is the first quiet one after the seal was observed; it times out exactly in the first turn that expires; an error is raised only for a refused scan or an error of a system call, and the journal then still says what the scans say; connections carry the journal in order; report, record and pending events agree; every event carries the id of the request |
| EventsProcessor.ReadersSeeCarried | common/modules/directory_event_protocol.py:6-34 | the readers of all connections see at least what was delivered, and exactly that if none broke just before a line end |
| EventsProcessor.ReadersSeeTheJournal | utility/file-uploader/streaming_directory_events_processor.py:179-231 | what all readers yield followed by what is pending is the journal if and only if no connection broke just before the line end of a batch |
| EventsProcessor.BreakBeforeLineEnd | utility/file-uploader/streaming_directory_events_processor.py:216-222 | such a break: a reader has seen an event that stays pending |
| BulkAdd.StepKeepsInv | ai_agents_framework/ai_agent/sources/rag_bulk_add.py:125-264 | every step of reader, workers and collector keeps: each worker's tasks are resolved, in hand or queued, in its order |
| BulkAdd.AssignedOnce | ai_agents_framework/ai_agent/sources/rag_bulk_add.py:234-242 | number k is the task of worker (k-1) mod W, of no other, and once |
| BulkAdd.EndedRun | ai_agents_framework/ai_agent/sources/rag_bulk_add.py:197-264 | for every number of workers and every scheduling: when a run has ended, each announced file has exactly one outcome about its own path, numbers are 1..n, the terminal record is n+1 unless the reader failed, each worker kept its order, and what was published is a prefix of what was collected |
| BulkAdd.RunsAreBounded | ai_agents_framework/ai_agent/sources/rag_bulk_add.py:173-264 | no run is longer than the events and workers allow |
| BulkAdd.NeverStuck | ai_agents_framework/ai_agent/sources/rag_bulk_add.py:173-181 | short of the end some thread can always move: the joins never wait in a circle |
| BulkDelivery.PublishedUpToFailure | ai_agents_framework/ai_agent/sources/rag_bulk_add.py:157-170 | in every run the published outcomes are the recorded ones up to the first that could not be published |
| BulkDelivery.AbortedIff | ai_agents_framework/ai_agent/sources/rag_bulk_add.py:226-256 | the terminal record is missing exactly when the reader of the stream failed |
| BulkDelivery.JoinedAreDone | ai_agents_framework/ai_agent/sources/rag_bulk_add.py:173-181 | a queue that has been joined is empty and its worker has gone |
| UploadPool.WorkerKeepsInv | utility/file-uploader/streaming_directory_upload_processor.py:405-446 | every step of a worker keeps: a file is as often queued, held, completed or failed together as it was put, and the counters of unfinished, active, completed and bytes say what they stand for |
| UploadPool.AllTerminal | utility/file-uploader/streaming_directory_upload_processor.py:590-590 | when nothing is unfinished every file that was put has been completed or has failed |

| DirectoryUpload.StepKeepsInv | utility/file-uploader/streaming_directory_upload_processor.py:376-606 | every step of scanner, workers and signals keeps the invariant of the upload |
| DirectoryUpload.QueuedOnceAndStable | utility/file-uploader/streaming_directory_upload_processor.py:531-570 | in every reachable state a path is put at most once or dropped at most once and not both, only after two consecutive scans with the same identity, and no more than the limit is put; what is queued has been put or dropped unless the scanner waits for room to put it, during which anything can fail |
| DirectoryUpload.QuietExit | utility/file-uploader/streaming_directory_upload_processor.py:572-583 | the quiet exit is taken only when all tasks are terminal and every file of the last scan was queued |
| DirectoryUpload.QueueIsBounded | utility/file-uploader/streaming_directory_upload_processor.py:394-394 | the task queue keeps within its capacity, and the two counters count what they stand for |
| UploadScanner.AdmittedIff | utility/file-uploader/streaming_directory_upload_processor.py:531-550 | a walk is admitted if and only if names, directories and bytes keep within their limits; otherwise the error says which did not |
| UploadScanner.ActivityIsNoted | utility/file-uploader/streaming_directory_upload_processor.py:551-556 | an admitted walk is activity exactly when a file, an unsupported entry or the set of directories has changed |
| UploadScanner.EveryStableIsQueued | utility/file-uploader/streaming_directory_upload_processor.py:557-570 | unless something fails, every file that two consecutive scans found the same is queued by the end of the second pass |
| UploadScanner.DropOutcome | utility/file-uploader/streaming_directory_upload_processor.py:567-569 | a file that has come to rest but is not allowed is removed unread and counted, or the upload ends with an error |
| UploadScanner.DecideOutcome | utility/file-uploader/streaming_directory_upload_processor.py:572-583 | exactly when the loop is left, quietly or for want of any activity |
| UploadScanner.LoopHeadIsLeft | utility/file-uploader/streaming_directory_upload_processor.py:461-461 | at the head of the loop a stop signal or a failure leads out of it, without an error |
| UploadScanner.StopsOnSignal | utility/file-uploader/streaming_directory_upload_processor.py:461-461 | a signal can come at any time, and nothing else stops the upload |
| UploadScanner.PassGetsNearer | utility/file-uploader/streaming_directory_upload_processor.py:557-586 | every step of a pass brings it nearer to its end |
| UploadScanner.LoopNeverStuck | utility/file-uploader/streaming_directory_upload_processor.py:461-586 | in the loop something other than a signal can always happen |
| UploadScanner.RoomIs | utility/file-uploader/streaming_directory_upload_processor.py:394-394 | the queue has room for four tasks a worker and for 32 at least |
| UploadScanner.ResponseTells | utility/file-uploader/streaming_directory_upload_processor.py:349-373 | what the response says besides the counts |
| DirectoryUpload.UploadEnds | utility/file-uploader/streaming_directory_upload_processor.py:349-373 | at the end each accepted file was completed once or failed once, completed and failed add up to the tasks put, bytes are the sum copied, and the response reports success exactly when no error occurred and nothing failed |
| DirectoryUpload.FailureIsSignalled | utility/file-uploader/streaming_directory_upload_processor.py:342-346 | without tolerance a failed file is signalled, unless a worker is just about to; with tolerance none is |
| DirectoryUpload.NothingAfterFailure | utility/file-uploader/streaming_directory_upload_processor.py:556-572 | once a failure has been signalled nothing more is queued or dropped, and nothing is put but the file in hand |
| DirectoryUpload.NoWalkAfterStop | utility/file-uploader/streaming_directory_upload_processor.py:461-461 | after a stop signal or a failure no further walk is admitted |
| UploadProgress.NeverStuck | utility/file-uploader/streaming_directory_upload_processor.py:588-594 | once the scanner has left its loop, something other than a signal can happen until the upload is done |
| UploadProgress.RunsAreBounded | utility/file-uploader/streaming_directory_upload_processor.py:588-594 | and no more of it than six steps for each queued file, what the workers have begun, and two for each worker and the scanner |
| Records.Database.UpdateFileRecordExt | ai_agents_framework/docs_dispatcher/sources/backend/mysql/app/crud.py:122-139 | the synced fields are copied, the path in decanonized form, and nothing else changes |
| Records.Database.CreateFileRecordWithUid | ai_agents_framework/docs_dispatcher/sources/backend/mysql/app/crud.py:36-62 | an existing id is refused and nothing changes |
| Sync.ApplyStorageFields | ai_agents_framework/docs_dispatcher/sources/backend/mysql/sync.py:35-58 | a row is reported changed exactly when some synced field differs, paths up to their stored form |
| Sync.DeleteUnknown | ai_agents_framework/docs_dispatcher/sources/backend/mysql/sync.py:72-78 | exactly the rows that storage does not know go, and are counted |
| Sync.UpdateKnown | ai_agents_framework/docs_dispatcher/sources/backend/mysql/sync.py:80-90 | exactly the rows that differ are rewritten, and are counted |
| Sync.CreateMissing | ai_agents_framework/docs_dispatcher/sources/backend/mysql/sync.py:95-105 | exactly the missing records are created |
| Sync.SynchronizeRecords | ai_agents_framework/docs_dispatcher/sources/backend/mysql/sync.py:61-112 | the loops leave the table that the specification gives and count created, updated, deleted and unchanged rows |
| Sync.SynchronizationSettles | ai_agents_framework/docs_dispatcher/sources/backend/mysql/sync.py:61-112 | from any table and any storage: ids and synced fields match storage, rows that agreed stay as they were, created+updated+unchanged = records, deleted+updated+unchanged = rows, and a second run finds nothing to do |
| Sync.InLineStays | ai_agents_framework/docs_dispatcher/sources/backend/mysql/sync.py:61-112 | nothing is counted if and only if the table is in line with storage, and then nothing changes |
| Replicas.SynchronizationChangesNothing | ai_agents_framework/docs_dispatcher/sources/backend/mysql/sync.py:61-112 | on consistent replicas a synchronization changes and counts nothing |
| Replicas.ReadIds | ai_agents_framework/docs_dispatcher/sources/backend/mysql/read_id.py:208-235 | the three loops give for each requested id what reading that id alone gives |
| Replicas.ReadsBack | ai_agents_framework/docs_dispatcher/sources/backend/mysql/read_id.py:43-205 | on consistent replicas an id reads back exactly what was put or attached under it if that is text, and is reported missing exactly when it is not stored |
| Replicas.FoundWhere | ai_agents_framework/docs_dispatcher/sources/backend/mysql/read_id.py:43-103 | a record is found in both replicas, which must agree, or in the one that has it |
| Replicas.ReadsText | ai_agents_framework/docs_dispatcher/sources/backend/mysql/read_id.py:138-205 | a document reads as its payload, a chunk as its slice if that lies in the payload, and either only if it is text |
| Replicas.IsBase64Iff | ai_agents_framework/docs_dispatcher/sources/backend/mysql/attach_doc_chunk.py:85-86 | the type is a list of words with commas between them, and base64 is one of them |
| Replicas.OnlyBase64IsNotText | ai_agents_framework/docs_dispatcher/sources/backend/mysql/read_id.py:185-194 | only a chunk of a document of base64 type can fail to be text |
| DocStore.Find | ai_agents_framework/docs_dispatcher/sources/backend/mysql/attach_doc_chunk.py:37-40 | the first occurrence of a chunk, or none |
| DocStore.FindsFirst | ai_agents_framework/docs_dispatcher/sources/backend/mysql/attach_doc_chunk.py:37-40 | wherever a chunk lies in the payload, it is found there or before |
| DocStore.LocateReasons | ai_agents_framework/docs_dispatcher/sources/backend/mysql/attach_doc_chunk.py:69-98 | why an attachment is turned down, the first reason that applies |
| DocStore.LocateInConsistent | ai_agents_framework/docs_dispatcher/sources/backend/mysql/attach_doc_chunk.py:69-98 | on consistent replicas an attachment is turned down for one of four reasons only, and otherwise the chunk lies at its first occurrence in the parent |
| DocStore.Store.Put | ai_agents_framework/docs_dispatcher/sources/backend/mysql/put_doc.py:45-80 | what both replicas are after a put that succeeds, and after one that fails at any file or at the last update, with the row, the directory and the contents of the new document spelled out |
| DocStore.Store.Attach | ai_agents_framework/docs_dispatcher/sources/backend/mysql/attach_doc_chunk.py:69-133 | what both replicas are after an attachment that succeeds, is turned down, or fails at any file: rolled back in full unless the directory of the chunk leaks; the chunk is decoded first when the type of its parent says base64 |
| DocStore.Store.StoreChunk | ai_agents_framework/docs_dispatcher/sources/backend/mysql/doc_storage/operations.py:68-109 | when the files of a chunk are complete, when only its placeholders are, and what is left otherwise |
| DocStore.Store.Delete | ai_agents_framework/docs_dispatcher/sources/backend/mysql/delete_doc.py:67-87 | the requested records and what is attached to them leave both replicas, with exact counts and the missing ids; when the file system fails at a directory, as many as it could remove are gone, of that one a part is left, and the table is as it was; what goes are exactly the rows that are requested or attached to a requested one, with their directories, and all else stays as it is |
| DocStore.PutKeepsConsistent | ai_agents_framework/docs_dispatcher/sources/backend/mysql/put_doc.py:58-80 | a successful put keeps the replicas consistent |
| DocStore.AttachKeepsConsistent | ai_agents_framework/docs_dispatcher/sources/backend/mysql/attach_doc_chunk.py:69-133 | a successful attachment does: the chunk has a live parent and an in-range slice, and reads as attached |
| DocStore.DeleteKeepsConsistent | ai_agents_framework/docs_dispatcher/sources/backend/mysql/delete_doc.py:43-87 | a deletion does: no chunk loses its parent |
| DocStore.HistoryIsConsistent | ai_agents_framework/docs_dispatcher/sources/backend/mysql/put_doc.py:58-80 | after any sequence of successful operations: both replicas agree, a synchronization changes and counts nothing, and every id reads back as what was stored |
| DocStore.OrphanRowIsDeleted | ai_agents_framework/docs_dispatcher/sources/backend/mysql/put_doc.py:58-69 | a put that failed before its directory was made is undone by a synchronization |
| DocStore.LastUpdateIsMadeUp | ai_agents_framework/docs_dispatcher/sources/backend/mysql/put_doc.py:77-78 | a put that failed in its last update is completed by one |
| DocStore.TornPutIsSynced | ai_agents_framework/docs_dispatcher/sources/backend/mysql/put_doc.py:58-80 | a put that failed after its directory was made, at any file: the row that a synchronization makes of it, that it reads as the document exactly when its parent had been written, and that the replicas are consistent again if and only if its size had |
| DocStore.LeakBecomesOrphan | ai_agents_framework/docs_dispatcher/sources/backend/mysql/attach_doc_chunk.py:109-131 | a leaked directory becomes one row without a parent, under which nothing can be read, and no other row changes |
| InterruptedDelete.DeletionFails | ai_agents_framework/docs_dispatcher/sources/backend/mysql/delete_doc.py:78-84 | the state that a failed deletion leaves is one that the following are about |
| InterruptedDelete.RowsRepaired | ai_agents_framework/docs_dispatcher/sources/backend/mysql/delete_doc.py:78-84 | after a deletion that failed half-way, a synchronization deletes exactly the rows whose directories are gone, and changes at most that of the directory at which it failed |
| InterruptedDelete.OthersRead | ai_agents_framework/docs_dispatcher/sources/backend/mysql/delete_doc.py:78-84 | every other record then reads as before, unless its document is gone or no longer reads, and then it does not read either |
| InterruptedDelete.ConsistentIff | ai_agents_framework/docs_dispatcher/sources/backend/mysql/delete_doc.py:78-84 | the replicas are consistent again if and only if no remaining chunk has lost its document and the failed directory still has all that its record and the remaining chunks need |
| DocumentPages.GetDocuments | ai_agents_framework/docs_dispatcher/sources/backend/mysql/get_docs.py:38-65 | the page of an offset and a limit, and the errors for negative ones |
| DocumentPages.PagesAreValid | ai_agents_framework/ai_agent/sources/rag_sync.py:170-207 | the validator never rejects a page of the listing, the page starts where it is asked to, and what it says remains is what remains |
| DocumentPages.ValidIff | ai_agents_framework/ai_agent/sources/rag_sync.py:170-207 | exactly which responses the validator accepts |
| DocumentPages.ExtractChunkRecords | ai_agents_framework/ai_agent/sources/rag_sync.py:37-77 | the records of a page in order, or an error exactly when a chunk occurs twice in it |
| DocumentPages.ListingIsComplete | ai_agents_framework/docs_dispatcher/sources/backend/mysql/get_docs.py:30-65 | the listing names every stored chunk exactly once and nothing else |
| DocumentPages.PageTells | ai_agents_framework/docs_dispatcher/sources/backend/mysql/get_docs.py:18-58 | every document of a page has the path and the type of its row and exactly its chunks, all in the order of their ids |
| IndexSync.ReportedSizeIsActual | ai_agents_framework/ai_agent/sources/rag_sync.py:143-156 | at every moment, whatever has failed, the reported size is the number of index ids |
| IndexSync.DeleteChromaIds | ai_agents_framework/ai_agent/sources/rag_sync.py:99-105 | the batches succeed exactly when the calls suffice; otherwise what is deleted is what the calls that succeeded could delete, and is exactly what is noted |
| IndexSync.FinalizeReconciliation | ai_agents_framework/ai_agent/sources/rag_sync.py:159-167 | deletes exactly the ids that were there at first, are no chunks and were not deleted by an earlier attempt, and does so exactly when the calls suffice for their batches, so that it can be called again after a failure |
| IndexSync.ReconcileOne | ai_agents_framework/ai_agent/sources/rag_sync.py:116-139 | a chunk is noted, read and upserted exactly when it can be read and its three calls succeed; otherwise the error says which of the two it was, and the state still says what the index holds |
| IndexSync.ReconcileChroma | ai_agents_framework/ai_agent/sources/rag_sync.py:108-140 | a page: all its chunks are in the index with the text that was read, other entries are untouched, duplicates are reported only when there are some, and any other error has its cause, a chunk that cannot be read or too few calls |
| IndexSync.ReconcilePages | ai_agents_framework/ai_agent/sources/rag_sync.py:210-241 | for every batch size and every point of failure: it succeeds if and only if each stored chunk can be read and the calls suffice, one a page, three a chunk and one a batch of deletions; on success each document has been visited once and the index holds exactly the stored chunks, created and updated ids together being these; an error has its cause; nothing is deleted before all pages are processed, and the validator and the duplicate checks never fire; the report then names as created exactly the stored chunks that the index did not have, as updated those that it had, and as deleted the rest, each once |
| Framing.EncodeVarint | common/images/streaming_test_aggregator/tap_subscriber/tap_subscriber.py:63-69 | the loop gives the base-128 encoding |
| Framing.DecodeVarint32 | common/images/streaming_test_aggregator/tap_subscriber/decode_envoy_tap.py:39-57 | the loop decodes up to five groups, and tells truncation, excess over 32 bits and excess length apart |
| Framing.VarintRoundTrip | common/images/streaming_test_aggregator/tap_subscriber/decode_envoy_tap.py:39-57 | at any offset, decoding inverts encoding for all values below 2^32 and rejects all others |
| Framing.DecodedIsEncoded | common/images/streaming_test_aggregator/tap_subscriber/decode_envoy_tap.py:39-57 | what is decoded is the encoding of its value if and only if its last byte is not a superfluous zero |
| Framing.SuperfluousZero | common/images/streaming_test_aggregator/tap_subscriber/decode_envoy_tap.py:39-57 | a longer encoding of zero is accepted |
| Framing.IterTraceWrappers | common/images/streaming_test_aggregator/tap_subscriber/decode_envoy_tap.py:60-83 | the framing loop terminates on every byte string and yields what the specification yields |
| Framing.CutFrames | common/images/streaming_test_aggregator/tap_subscriber/decode_envoy_tap.py:60-83 | concatenated messages cut anywhere give exactly the complete ones, and an error unless the cut falls between two |
| Framing.FramesRoundTrip | common/images/streaming_test_aggregator/tap_subscriber/tap_subscriber.py:426-430 | framed payloads read back as exactly these payloads |
| CaptureEvents.ConnectionEventsDiffer | common/images/streaming_test_aggregator/tap_subscriber/tap_subscriber.py:333-355 | no two events of a connection are the same |
| CaptureEvents.ChunksJoin | common/images/streaming_test_aggregator/tap_subscriber/tap_subscriber.py:333-347 | the pieces of a content join to the content and none is longer than the limit |
| Publisher.PublishConnection | common/images/streaming_test_aggregator/tap_subscriber/tap_subscriber.py:333-355 | the loop publishes the pieces numbered from zero and then their number, by steps of the publisher only |
| Publisher.AfterKeeps | common/images/streaming_test_aggregator/tap_subscriber/tap_subscriber.py:259-330 | no sequence of publications, polls, requeues and calls of the producer loses or adds an event |
| Publisher.RequeueOrderIff | common/images/streaming_test_aggregator/tap_subscriber/tap_subscriber.py:284-290 | from a state in the order of publication, a requeue keeps the order if and only if the failed records are the last that were handed over and their failures were reported in that order |
| Publisher.DrainOrderIff | common/images/streaming_test_aggregator/tap_subscriber/tap_subscriber.py:284-308 | hence what a whole drain, with the reports that it meets at its start and all that it hands over, does to the order |
| Publisher.OrderIff | common/images/streaming_test_aggregator/tap_subscriber/tap_subscriber.py:259-330 | for every such sequence of steps: the records that the producer has and those that wait are in the order of publication all the time if and only if every requeue finds its failures so |
| Publisher.ReportedAllKeeps | common/images/streaming_test_aggregator/tap_subscriber/tap_subscriber.py:270-275 | delivery reports conserve events: published = pending + failed + in flight + delivered, as multisets |
| Publisher.BufferedEventPublisher.Requeue | common/images/streaming_test_aggregator/tap_subscriber/tap_subscriber.py:287-290 | failed records go to the front in the order of their reports |
| Publisher.BufferedEventPublisher.DrainAvailable | common/images/streaming_test_aggregator/tap_subscriber/tap_subscriber.py:284-308 | draining conserves events, requeues failures first, then hands records over as long as the producer has room and no longer, tells whether nothing is pending, and keeps the order if and only if the failures that it finds are the last records and were reported in turn |
| Publisher.RoomForAllIff | common/images/streaming_test_aggregator/tap_subscriber/tap_subscriber.py:292-308 | all that waits is handed over if and only if every call of the producer finds room |
| Publisher.BufferedEventPublisher.Publish | common/images/streaming_test_aggregator/tap_subscriber/tap_subscriber.py:277-282 | publishing adds one event, conserves the others, and keeps the order if and only if its drain does |
| Publisher.BufferedEventPublisher.DrainAll | common/images/streaming_test_aggregator/tap_subscriber/tap_subscriber.py:310-330 | a normal return means that everything published has been delivered, and was sent in the order of publication when every requeue found its failures in turn; it gives up only when all its turns are used up, with something left to do in each |
| Publisher.FailureReorders | common/images/streaming_test_aggregator/tap_subscriber/tap_subscriber.py:259-290 | after a failed delivery events can be delivered out of order |
| Capture.HandledBounded | common/images/streaming_test_aggregator/log_event_aggregator/log_event_aggregator.py:169-216 | after every event the counter is the sum of the live buffers and below the limit |
| Capture.ChunkGoesWhere | common/images/streaming_test_aggregator/log_event_aggregator/log_event_aggregator.py:180-200 | a chunk stays in memory as long as the limit allows; when it is reached the buffer of its connection, and no other, is written |
| Capture.HandledRefines | common/images/streaming_test_aggregator/log_event_aggregator/log_event_aggregator.py:154-227 | with separate temporary files the consumer ends the capture exactly when an unbuffered reading of the events does, in the same way, and otherwise keeps in step with it |
| Capture.ConsumeCapture | common/images/streaming_test_aggregator/log_event_aggregator/log_event_aggregator.py:133-227 | for every sequence of events: the files are the completed connections, each its chunks 0..count-1 joined, and the ending is the one that the events call for |
| CaptureLimits.RightIffSeparate | common/images/streaming_test_aggregator/log_event_aggregator/log_event_aggregator.py:165-216 | from any starting files, reassembly is right for every sequence of events and limit if and only if the temporary names are different and those of the connections hold nothing at the start |
| CaptureLimits.NumbersAreSeparate | common/images/streaming_test_aggregator/log_event_aggregator/log_event_aggregator.py:174-182 | they are for the connections that the publisher sends, whose identities are numbers |
| CaptureLimits.OldFilesCanClash | common/images/streaming_test_aggregator/log_event_aggregator/log_event_aggregator.py:165-182 | a file of the older kind can share the temporary file of a connection |
| CaptureLimits.LeftoverGoesIn | common/images/streaming_test_aggregator/log_event_aggregator/log_event_aggregator.py:59-67 | a temporary file left from an earlier run goes into the next log |
| CaptureLimits.InterleavingRestores | common/images/streaming_test_aggregator/log_event_aggregator/log_event_aggregator.py:169-216 | however the publications of several logs are interleaved, no event is turned down, every log is restored, and the capture can be completed |
| Routes.NormalizesIff | fs_api_proxy/http_api_gateway/controller.py:91-103 | a path is accepted exactly when it is canonical or canonical with a slash after it, and gives that canonical path |
| Routes.PathErrors | fs_api_proxy/http_api_gateway/controller.py:91-103 | why a path is turned down, the first reason that applies |
| Routes.ValidateDiscoveryDocument | fs_api_proxy/http_api_gateway/controller.py:106-134 | the loop gives the sorted routes or the first thing that is wrong |
| Routes.ValidatedIff | fs_api_proxy/http_api_gateway/controller.py:106-134 | a document is accepted exactly when its parts are there, every route is valid, and no two have the same canonical path; its routes are then those, sorted, each with its canonical path and its own timeout or the default |
| Routes.RouteOfIff | fs_api_proxy/http_api_gateway/controller.py:119-132 | a raw route gives exactly the route of its canonical path with its timeout, or the default when it has none |
| Routes.RouteErrors | fs_api_proxy/http_api_gateway/controller.py:119-129 | why a raw route is turned down, the first reason that applies |
| Routes.FirstErrorIs | fs_api_proxy/http_api_gateway/controller.py:118-133 | the error of a document is that of its first route that is not valid or repeats a path |
| Gateway.MergeRoutes | fs_api_proxy/http_api_gateway/controller.py:167-177 | the nested loops give the merge of the snapshots, sorted by path and each path once |
| Gateway.OwnerIsLast | fs_api_proxy/http_api_gateway/controller.py:167-177 | the owner of a path is the highest index that advertises it |
| Gateway.MergedFacts | fs_api_proxy/http_api_gateway/controller.py:167-177 | merged routes are canonical, belong to their owners with the owners' timeouts, and cover every advertised path |
| Gateway.BuildRds | fs_api_proxy/http_api_gateway/controller.py:285-306 | two exact rules for each route and one for the rest |
| Gateway.Resolution | fs_api_proxy/http_api_gateway/controller.py:285-306 | for every request the first matching rule leads to the highest-index backend that advertises its path, with or without a slash at the end, with that backend's timeout, and to backend 0 otherwise |
| Gateway.PollBackends | fs_api_proxy/http_api_gateway/controller.py:365-385 | the snapshots after a turn do not depend on the order of the answers, and a change is reported exactly when there is one |
| Gateway.Run | fs_api_proxy/http_api_gateway/controller.py:445-464 | after every turn in which all backends are known, what is published is the merge of the last good snapshots, whatever the order of the answers and whatever collisions the hash has |

## Left out

- EventDelivery.EventWriter.Flush: "delivered" means accepted by the pipe; bytes that a reader never takes out of the
  pipe before it goes away are not modelled as lost.
- AttributeLookup.ExtractOrDefault: the attribute name and the delimiter are matched literally; pattern characters in
  them, and locales in which more characters count as blanks or letters, are not modelled.
- CommandCodec.CommandsRoundTrip: argument values are text; the JSON text of other values is whatever the caller passes.
- Sessions.StepKeepsInv: a handler that is killed half-way is not modelled. Its successor would take it for done, which
  is what the check of the process id is for.
- BulkAdd.EndedRun: a collector or a worker thread that cannot be started is not modelled, nor is a failing print of the
  report.
- DirectoryUpload.UploadEnds: workers that die because their status channel fails are not modelled; a walk is one step
  whose findings are arbitrary, so nodes that vanish during a walk are covered, the order of the walk is not.
- DocStore.Store.Attach: the database itself does not fail once the row has been created, and the rollback does not fail.
  A file is written as a whole or not at all.
- DocStore.Store.Put: metadata, and file names that the file system refuses or gives a meaning of its own, are not
  modelled; the latter are failures of the file system.
- IndexSync.FinalizeReconciliation: stale ids are deleted in some order, not in that of their text; a call that fails has
  changed nothing, and nobody else changes the index.
- IndexSync.ReconcilePages: the table does not change between pages.
- Capture.ConsumeCapture: Kafka polling and commits, and the clock, are reduced to a sequence of events that may end.
- Gateway.Run: fetching, request normalization by Envoy, and failures to write the published files are not modelled.
- Publisher.OrderIff: events are told apart by what they hold, so that order is stated for events that differ from one
  another, as those of one connection do; what the broker does with records in flight is not modelled.
- Routes.ValidatedIff: timeouts are real numbers; their rendering is not modelled.
- Framing.IterTraceWrappers: whether bytes are a message is a predicate; truncation flags inside messages and the syslog
  framing of the reassembled stream are not modelled.
- Preparation of request directories and FIFOs, permissions, signals, process ids, heartbeats and status channels.
- The serial shell server, the GUI listener, the generators of code and documentation, pages, charts, cron jobs and
  container files.
- Embeddings, the language model, the text splitter, and the upload of single files.
