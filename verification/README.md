# Orcal: verified models

Orcal runs commands in sandboxes. Its daemon records each command's output in a framed,
append-only log, streams the log to any number of clients that may drop and resume, keeps rows of
sandboxes, snapshots and execs in step with a container runtime, writes files into containers, and
keeps an audit log that clients page through. This project models those parts in Dafny and proves
what they promise.

| file | what it models |
|---|---|
| `ExecLog.dfy` | the log format, the reader, the repair of a torn tail, the writer, and its life across kills |
| `Supervise.dfy` | the runtime's stream (`demux`) and the supervisor that records it |
| `OutputProtocol.dfy` | wake-up channels, and one writer with any number of output handlers, step by step, across daemon restarts |
| `ExecOutput.dfy` | the output handler's loop as one connection runs it |
| `Sse.dfy` | the event-stream printer, the incremental parsers of the SDKs, the Go client's scanner |
| `Follow.dfy` | streams cut at any byte, and the reconnect loop that stitches them |
| `EndToEnd.dfy` | from the supervisor to the terminal over an exec's whole life |
| `Commands.dfy` | the exit status of `exec`, and `logs` without following |
| `ExecRows.dfy` | exec rows across daemon crashes and reconciliation |
| `Sandboxes.dfy` | sandbox operations under per-sandbox locks, in every interleaving |
| `Lineage.dfy` | the runtime, and whole calls of the sandbox and snapshot services |
| `Paths.dfy`, `Archive.dfy` | `path.Clean` as a stack machine, and the check of uploaded archives |
| `Extraction.dfy` | unpacking a downloaded archive behind that check, links included |
| `Files.dfy` | writing a file into a tree and reading it back |
| `Audit.dfy` | the in-memory audit repository, pruning, and cursor pagination |
| `Wrappers.dfy` | the Option datatype |

Code that changes things in place is a class or a method with loops, proved equal to a function of
the old state; the properties are lemmas about that function. Concurrency and crashes are state
machines: one atomic step for each persisted or observable effect, and a step that is not possible
in a state leaves it alone, so that every sequence of steps is an interleaving and a theorem about
all sequences is one about all runs.

Some results are worth knowing before reading on:

- Container conservation fails when an operation is interrupted at the wrong place: its closing
  write is lost, or the daemon dies, while the containers have changed and the row does not say so
  yet, or a create that failed has made a container all the same. Requests carry the client's
  context into the runtime calls and the writes (`internal/api/sandboxes.go`), so a client that
  disconnects is enough. `Sandboxes.AccountedExactlyWhenUnharmed` is the exact condition, sandbox by
  sandbox, over all runs; `Sandboxes.LostCreationOrphansForEver`,
  `Sandboxes.LostCreateCallOrphansForEver` and `Sandboxes.LostRestoreLeavesNoContainer` are runs
  from the empty system. State edges hold with failing writes and crashes anywhere.
- A sandbox whose row rests in `destroying`, as after a crash during a destroy, can never be
  destroyed: no operation gets past its check from there. From every other state at rest it can, from
  `creating` by way of a start. `Sandboxes.DestroyableExactly` says so for every reachable state,
  `Sandboxes.CrashedDestroyIsStuck` is the run.
- The check of archive headers reads names and link targets as text, and unpacking a download
  follows links. Accepted entries land where their names say if and only if no name passes through
  a link that was in the destination or that the headers before it make, a hard link to a symbolic
  link being that link again (`Extraction.LandsAsNamedExactly`; `Extraction.ReachesAsNamedExactly`
  is the condition for names and hard-link targets together, which the headers tell without any
  resolution). Three accepted archives have an entry that lands outside the destination: by links
  through links (`Extraction.AcceptedEntryLandsOutside`), by a hard link to a link
  (`Extraction.HardLinkedEntryLandsOutside`), and, where the first component of each name is
  dropped after the check, by a single link (`Extraction.StrippedEntryLandsOutside`).
- An exec whose start fails is marked failed without a notification
  (`internal/exec/service.go:115-141`). Handlers parked on it, and no others, have to wait for their
  heartbeat to see the end (`OutputProtocol.HeartbeatNeededExactly`).
- A daemon whose listing of running execs fails at boot only logs that
  (`cmd/orcald/main.go:107-109`) and serves on: the rows running then have nobody to end them until
  the next boot whose listing succeeds, which picks them up. `ExecRows.NoForgottenRow` is the exact
  condition, `ExecRows.FailedListingForgets` the run, `ExecRows.NextBootPicksUp` the remedy.
- A runtime stream that ends right behind a frame header loses its payload without a gap record:
  the payload read returns a bare `io.EOF`, the wrapping keeps it recognisable, and the supervisor
  takes it for a clean end. `Supervise.BrokenEndIsNoticedExactly` is the exact condition,
  `Supervise.TornStreamTakenAsClean` the smallest case.
- `logs` without `--follow`, asked while a record is being written, prints that record too: it
  stops at the first record that reaches the size it was told (`Commands.AvailableIsExactly`).

An exited row lacks its exit code exactly when the inspection that ended it gave none
(`ExecRows.CodeMissingExactlyWhenSilent`). Both runtimes of the repository always give one
(`internal/runtime/docker/docker.go:256-260`, `internal/runtime/fake/fake.go:282-290`), so this is
a condition on other runtimes.

## Model

| member | source | states |
|---|---|---|
| ExecLog.ReadRecords | internal/exec/log.go:189-229 | reading header by header and payload by payload returns every complete record from the offset and stops at the first torn or oversized frame; a missing file has none; a negative offset, a failing open and a failing read at any point are errors |
| ExecLog.LogWriter.RepairTornTail | internal/exec/log.go:72-126 | the seeking walk cuts the file exactly where the reader's scan ends |
| ExecLog.LogWriter.Append | internal/exec/log.go:128-169 | the whole new writer state and error for every size, bound, earlier failure and disk behaviour, short writes and failing stats included |
| ExecLog.NewLogWriter | internal/exec/log.go:43-68 | a writer on the repaired file, or none and the file as it was |
| ExecLog.EncodeThenScan | internal/exec/log.go:150-153 | reading what was encoded gives back the frames, with nothing left over |
| ExecLog.RepairRefinesReader | internal/exec/log.go:70-126 | on arbitrary bytes the cut is the last offset the reader returns, the kept bytes are the encoding of those records, repair is idempotent, and reading from the k-th boundary drops the first k records |
| ExecLog.ScannedBytesAreEncoding | internal/exec/log.go:20-26 | the bytes a read passes over are exactly the encoding of the records it returns |
| ExecLog.ScanGrows | internal/exec/log.go:20-22 | appending bytes never changes or removes a record already readable |
| ExecLog.TornTailAddsNothing | internal/exec/log.go:70-71 | a frame cut anywhere short of its end adds no record |
| ExecLog.WholeFrameAddsOne | internal/exec/log.go:150-168 | a frame written in full adds exactly its record |
| ExecLog.StepKeepsRecords | internal/exec/log.go:43-169 | opening, appending, failing to append, or being killed after any byte keeps all records in place and adds exactly the frame written in full |
| ExecLog.ReopenKeepsFullyWritten | internal/exec/log.go:43-126 | after any history of writers and kills, reopening leaves exactly the fully written frames, in order |
| ExecLog.CursorSurvives | internal/exec/log.go:20-22 | an offset that was once a boundary stays one through any later history, with the same records below it and the rest above it |
| ExecLog.AppendReturnsBoundary | internal/exec/log.go:128-169 | the offset a successful append returns is a boundary |
| ExecLog.ReadReturnsBoundaries | internal/exec/log.go:226-227 | the offsets a read returns are boundaries |
| ExecLog.OffsetIsSize | internal/exec/log.go:155-168 | while stats work, the size a writer reports is that of its file after any history, failed writes included |
| ExecLog.NoErrorMeansWritten | internal/exec/log.go:128-169 | an append without an error has added exactly its record, or dropped it for want of room and said so; after one that failed, every later one fails |
| ExecLog.ReadsCounted | internal/exec/log.go:208-228 | how many reads a scan makes: two for each record, one more, and another behind a header of legal size whose payload is not there |
| ExecLog.ReadingFails | internal/exec/log.go:189-229 | never for want of a file; with one, when it cannot be opened, the offset is negative or one of those reads fails |
| ExecLog.Uint32IsBigEndian | internal/exec/log.go:20-26 | each byte weighs 256 times the one behind it |
| Supervise.Wire.Recv | internal/runtime/docker/demux.go:16-36 | one frame, or an error with whether it is io.EOF under its wrapping |
| Supervise.FramesAreDelivered | internal/runtime/docker/demux.go:14-36 | round trip: whatever list of stream bytes and payloads the runtime frames, the frames received are one for each in order, with its payload, on standard error exactly for stream byte 2, and the stream ends whole |
| Supervise.BrokenEndIsNoticedExactly | internal/runtime/docker/demux.go:17-30 | an end is taken as an error if and only if the stream is not whole and does not stop right behind a header that announced a payload |
| Supervise.TornStreamTakenAsClean | internal/runtime/docker/demux.go:27-30 | a concrete incomplete stream that ends without an error |
| Supervise.Run | internal/exec/service.go:143-204 | the log file and the row's outcome that a supervisor leaves, for every stream, bound and disk; an exited row has the runtime's code and the log's size, and says truncated if and only if some frame received or the gap is missing |
| Supervise.NothingAfterADrop | internal/exec/log.go:140-148 | after the first dropped frame nothing more is written and truncated stays |
| Supervise.FedTakesPrefix | internal/exec/service.go:160-176 | the recorded frames are a prefix of those received, short only by a drop or a failed append, within the size bound |
| Supervise.LogIsBoundedPrefix | internal/exec/service.go:151-182 | a whole run leaves the earlier records, a prefix of the frames, and at most one final gap, which needs a noticed broken end and room; the file stays within its bound |
| Supervise.AppendFailsExactlyWhenTooLarge | internal/exec/log.go:128-142 | with a working disk a supervisor's append fails if and only if some frame is too large for the log, also after truncation |
| Supervise.LongestPrefixThatFits | internal/exec/log.go:128-168 | with a working disk exactly the longest prefix is recorded that fits the bound and has no frame too large for the log, and truncated says that the next frame was dropped for want of room |
| Supervise.ExitedMeansRecorded | internal/exec/service.go:159-190 | an exec that exited has the runtime's code, and all frames and the gap of a broken end are recorded if and only if it does not say truncated; with a working disk it fails exactly if waiting failed or a frame was too large |
| Broadcast.Broadcaster.Wait | internal/exec/broadcaster.go:14-23 | the channel of the id, made if there is none |
| Broadcast.Broadcaster.Notify | internal/exec/broadcaster.go:25-32 | closes and forgets the id's channel |
| Broadcast.ClosedExactlyByNotify | internal/exec/broadcaster.go:14-32 | a channel got from Wait is open, and closed after any further calls if and only if one of them notified its id |
| OutputProtocol.StepKeepsInv | internal/api/execs.go:117-179 | every step of the writer, of any handler and of other execs, and every restart of the daemon, keeps the protocol's invariant |
| OutputProtocol.RecordsOnlyGrow | internal/exec/service.go:143-269 | the log's records only gain a tail, across appends, kills and repairs |
| OutputProtocol.DeliveryIsExact | internal/api/execs.go:155-179 | at every moment of every interleaving a handler has sent the records from its start to its cursor, in order, each once |
| OutputProtocol.ExitAfterEverything | internal/api/execs.go:131-141 | a handler that sent `exit` has sent exactly the final log from its start, and that log never changes again |
| OutputProtocol.FrozenAfterFinish | internal/exec/service.go:178-182 | once the row is not running, no later step of anyone writes the log |
| OutputProtocol.NoLostWakeUp | internal/api/execs.go:118-151 | a handler parked on an open channel while the writer owes no notification has sent everything, and the exec is still running |
| OutputProtocol.EveryoneIsWoken | internal/exec/service.go:181-182 | when the supervisor is done no handler is left asleep |
| OutputProtocol.HeartbeatNeededExactly | internal/exec/service.go:115-141 | of the handlers parked when nothing more will be written, exactly those whose exec's start failed hold an open channel and must wait for their heartbeat |
| OutputProtocol.ExitIsReachable | internal/api/execs.go:117-153 | from there every connected handler reaches `exit` by its own steps alone, with a heartbeat only if the exec's start failed |
| ExecOutput.Drain | internal/api/execs.go:155-179 | prints one event per record from the offset, in order, and returns the last offset; a failing read prints nothing, a breaking connection ends it in the record being sent |
| ExecOutput.SendRecord | internal/api/execs.go:160-175 | the event name and payload of each kind of record |
| ExecOutput.HandleExecOutput | internal/api/execs.go:117-153 | with the log growing between reads, what gets through is, up to where the connection breaks and heartbeats apart, one event per record of a contiguous run; `exit` is sent if and only if some turn finds the row ended and reads and sends all the rest, and every turn before it found the exec running, read and sent without fault and was not disconnected; then all records of the last log read were sent |
| ExecOutput.WovenFromParts | internal/api/execs.go:143-151 | any stream is its events with heartbeats woven in |
| ExecOutput.ServedIsAnAttempt | internal/api/execs.go:117-153 | what the handler serves, cut where the connection breaks, is one of the connections the follow loop is proved against |
| Sse.SSEParser.Feed | sdk/python/src/orcal/_sse.py:8-16 | the events of the complete blocks of buffer and chunk, and the rest kept |
| Sse.ParseBlock | sdk/typescript/src/sse.ts:21-39 | the event of a block, or nothing if it has no name, no data or does not decode |
| Sse.FeedTwice | sdk/python/src/orcal/_sse.py:8-16 | feeding two pieces in turn is feeding them joined |
| Sse.ChunksDoNotMatter | sdk/python/src/orcal/_sse.py:8-16 | for arbitrary input, malformed blocks included, any chunking gives the same events and leftover as one feed |
| Sse.ByteChunksDoNotMatter | sdk/typescript/src/sse.ts:7-19 | the same with a streaming decoder in front, even when a chunk ends inside a character |
| Sse.SseWriter.Send | internal/api/sse.go:28-38 | the bytes of one event |
| Sse.SseWriter.Heartbeat | internal/api/sse.go:40-46 | the bytes of a heartbeat |
| Sse.ParsesBack | sdk/python/src/orcal/_sse.py:8-38 | any interleaving of sends and heartbeats parses back to exactly the sent events in order, nothing left over |
| Sse.StreamOutput | pkg/orcalclient/execs.go:60-83 | the scan loop yields the events of the lines read one by one, up to a line that is too long or does not decode |
| Sse.GoAgrees | pkg/orcalclient/execs.go:60-78 | on every stream the server can produce the Go scanner and the SDK parsers see the same events |
| Sse.DataLinesAreJoined | sdk/python/src/orcal/_sse.py:18-38 | data lines are joined by newlines, whether the name comes before or behind them |
| Sse.LastNameCounts | sdk/python/src/orcal/_sse.py:18-38 | of several names in a block the last one counts |
| Sse.OtherFieldsAreIgnored | sdk/python/src/orcal/_sse.py:18-38 | lines with other fields change nothing |
| Sse.IncompleteBlocksAreDropped | sdk/python/src/orcal/_sse.py:18-38 | a block has an event only if some line of it is a name and some line data, and always then if every text decodes |
| Sse.NameIsForOneEvent | pkg/orcalclient/execs.go:60-78 | in the Go client a name is used up by the data line behind it |
| Sse.CarriageReturnIsDropped | pkg/orcalclient/execs.go:60-82 | a carriage return before a newline is part of the line end |
| Sse.LongLineFails | pkg/orcalclient/execs.go:60-82 | a line that does not fit the buffer ends the scan with an error |
| Follow.Stream | cmd/orcal/exec_cmd.go:89-131 | the handler's state after the events of one connection, stopped where its bound says or where a write to the terminal fails, and whether it failed |
| Follow.UnknownEventsAreIgnored | cmd/orcal/exec_cmd.go:89-131 | events of unknown names make no difference, wherever they come |
| Follow.RecordFitsTheLine | pkg/orcalclient/execs.go:61-62 | a record of the largest payload is one line within the client's buffer and decodes to itself |
| Follow.GoScanCut | pkg/orcalclient/execs.go:60-82 | a stream cut at any byte yields exactly the events complete by then, and fails exactly if it ends inside the data of one |
| Follow.BodyEvents | pkg/orcalclient/execs.go:46-83 | a connection's body, cut anywhere, yields exactly the records and then the exit that are complete by then; uncut, all of them |
| Follow.SmoothExactly | cmd/orcal/exec_cmd.go:89-131 | an answered connection fails exactly if it is unclean, torn inside an event, or brings more events than writes succeed |
| Follow.UncutIsComplete | cmd/orcal/exec_cmd.go:89-131 | one that is clean and uncut, whose writes succeed, shows all the server reached, and the exit if there is one |
| Follow.StreamShowsRun | cmd/orcal/exec_cmd.go:89-131 | one connection shows exactly the run of records from its offset that came through, ends with its cursor behind them, and sees an exit exactly if that came through, after all records and with its code and diagnostics |
| Follow.StitchedInExtension | cmd/orcal/logs_cmd.go:52 | a cursor handed over to a grown or repaired log continues the same run |
| Follow.FollowLogs | cmd/orcal/logs_cmd.go:45-66 | over at most four streams, each cut anywhere while the log grows, what is shown is exactly what the connections used let through, a contiguous run from the start, none twice and none skipped, and all of it if it saw `exit`; the connections before the last one ended cleanly without an exit, and the last one decides: an error exactly if it was refused, unclean, torn inside an event or had a write fail, an exit exactly if that came through, giving up only after all four; with the exact diagnostics |
| EndToEnd.HandlerIsAnAttempt | internal/api/execs.go:117-179 | a handler in any interleaving serves such a connection: its records are those it sent, and with `exit` all of the final log |
| EndToEnd.WorldGrows | internal/exec/log.go:20-22 | connections made one after the other in an exec's life read logs that only grow, across restarts and repairs |
| EndToEnd.TurnsGrow | internal/api/execs.go:118-134 | so do the reads of one connection |
| EndToEnd.EndedLogIsFinal | internal/exec/service.go:178-182 | the log of an exec that has ended is the one it will always have |
| EndToEnd.ServeExec | internal/api/execs.go:117-153 | with `exit`, one connection has been sent the exec's final log from its start; and `exit` is sent if and only if the turns say so, as for the handler |
| EndToEnd.FollowExec | cmd/orcal/logs_cmd.go:45-66 | over an exec's whole life, restarts included, the follow loop shows a contiguous run of the exec's log and ends as its connections say, and with `exit` it has shown all of the final log, to which nothing is ever added |
| Commands.StreamAndExit | cmd/orcal/exec_cmd.go:70-87 | the exact status: a failed stream exactly if the connection failed, the tool's own status if it ended without an exit or the exit has no code, success for code 0, any other code itself; and every record shown with an exit |
| Commands.HandleUpTo | cmd/orcal/exec_cmd.go:122-125 | a bounded handler takes all records below its bound and the first that reaches it |
| Commands.BoundedStream | cmd/orcal/exec_cmd.go:89-131 | the same for a connection cut at any byte |
| Commands.ReadAvailableLogs | cmd/orcal/logs_cmd.go:33-43 | shows exactly the run of records that came through up to the first that reaches the reported size, stops there, and fails exactly if it neither stops nor ends cleanly |
| Commands.AvailableIsExactly | cmd/orcal/logs_cmd.go:38-41 | when it stops it has shown the records complete when the size was taken, and one more exactly if a record was half written then |
| ExecRows.StepKeepsInv | internal/exec/service.go:85-304 | every persisted step, crash, boot and failed listing keeps rows coherent, and owners only of running rows |
| ExecRows.EndedRowsAreFinal | internal/exec/service.go:192-204 | a row that left `running` never changes again, whatever crashes and boots follow |
| ExecRows.RowsAreCoherent | internal/exec/service.go:133-204 | finished_at is set exactly on rows that are not running, an exit code only on exited ones |
| ExecRows.StartIsRecorded | internal/exec/service.go:85-141 | a start ends with the handle on record and a supervisor, or with a row failed without a code that names the handle if there is one |
| ExecRows.PollerWritesWhatItSees | internal/exec/service.go:255-304 | a poller waits while the exec runs, then ends the row with the code it sees, or as failed if the inspection fails |
| ExecRows.ReconciliationWritesWhatItSees | internal/exec/service.go:223-253 | a listed row without a handle is failed; the others end with what the inspection says, or are polled on |
| ExecRows.SupervisorWritesItsVerdict | internal/exec/service.go:184-204 | exited with the runtime's code if the log was kept and the code is known, failed without one otherwise |
| ExecRows.CodeMissingExactlyWhenSilent | internal/exec/service.go:243-304 | an exited row has no code exactly if the last verdict on it was an inspection without one, and otherwise that verdict's code |
| ExecRows.CodeExactlyWhenExited | internal/exec/service.go:185-204 | if no inspection of an exec was silent, its row has a code exactly when it exited |
| ExecRows.SilentRuntimeLeavesNoCode | internal/exec/service.go:243-300 | two runs to an exited row without a code, one through reconciliation and one through a poller |
| ExecRows.ReconcileLeavesPollers | internal/exec/service.go:223-253 | after reconciliation a running row has a poller, or one about to write its verdict, exactly unless it was given up meanwhile |
| ExecRows.HandlelessRowsEnd | internal/exec/service.go:223-253 | over all runs, a row whose exec never got a handle is ended before the daemon serves again, unless it was given up |
| ExecRows.NoForgottenRow | internal/exec/service.go:223-304 | over all runs, a running row has nobody to end it if and only if, since the last crash, its last write or the read before it failed, its poller was told to stop, or the listing at boot failed while it ran |
| ExecRows.GivenUpUntilRestart | internal/exec/service.go:223-304 | such a row stays running and unowned until the daemon restarts |
| ExecRows.NextBootPicksUp | internal/exec/service.go:223-252 | the next boot whose listing succeeds takes every running row up again |
| ExecRows.FailedListingForgets | cmd/orcald/main.go:107-109 | a run in which a serving daemon has forgotten a running row |
| Sandboxes.CallIsAnEdge | internal/sandbox/service.go:126-461 | each call of a lock holder writes along an edge of the state table and leaves what it may write next an edge away |
| Sandboxes.OnlyTableEdges | internal/sandbox/state.go:16-27 | in every interleaving, with failing writes and crashes, a row starts as creating and every write follows the table or keeps the state |
| Sandboxes.DestroyedIsFinal | internal/sandbox/state.go:22 | destroyed is absorbing |
| Sandboxes.ForkSectionSetsOnlyTheParent | internal/sandbox/service.go:377-392 | the second section changes nothing but the parent of the row as it then is |
| Sandboxes.AdmittedExactly | internal/sandbox/service.go:202-357 | which rows each operation gets past its check on, and that the check changes nothing |
| Sandboxes.StartStopMoveTheContainer | internal/sandbox/service.go:202-277 | undisturbed, a start leaves the container and the row running, a stop both stopped, and everything else as it was |
| Sandboxes.RestoreCompletes | internal/sandbox/service.go:395-462 | undisturbed, a new running container of the image takes the old one's place, and the snapshot becomes the parent |
| Sandboxes.FailuresAreRecorded | internal/sandbox/service.go:126-461 | a call the runtime refuses, or whose container is not there, leads to the error on record, with the containers as they were and the container still named |
| Sandboxes.CallConserves | internal/sandbox/service.go:126-461 | each call keeps its sandbox's live containers accounted for, and says at which places the row is disturbed |
| Sandboxes.StepKeepsOwned | internal/sandbox/service.go:126-461 | whatever fails or crashes, rows and copies name only containers made for their own sandbox |
| Sandboxes.InterruptedExactly | internal/sandbox/service.go:126-461 | an operation whose lock goes without its closing write leaves the sandbox accounted for if and only if it stood before its first effect or had nothing to record |
| Sandboxes.RunConserves | internal/sandbox/lock.go:14-25 | a sandbox none of whose operations was interrupted harmfully is accounted for, whatever befalls other sandboxes and whenever else the daemon crashes |
| Sandboxes.AccountedExactlyWhenUnharmed | internal/sandbox/service.go:126-461 | over all runs, a sandbox is accounted for at every moment its lock is free if and only if none of its operations was interrupted harmfully or recorded its error over a container that a failed create had made |
| Sandboxes.LiveContainerHasOneRow | internal/sandbox/service.go:126-167 | for such a sandbox, with its lock free, a live container is the one of its row, of no other row, and that row is not destroyed |
| Sandboxes.FreeRowTellsTheTruth | internal/sandbox/service.go:214-277 | for such a sandbox, with the lock free, a running or stopped row has a live container, a destroyed row none, and the state is not transient |
| Sandboxes.CallbackSeesLiveContainer | internal/sandbox/service.go:301-357 | for such a sandbox a callback under the lock sees one and the same live container throughout |
| Sandboxes.LostWriteOrphansContainer | internal/sandbox/service.go:162-166 | any creation or restore interrupted at its closing write leaves a live container that no row and no operation names |
| Sandboxes.OrphanForEver | internal/sandbox/service.go:126-461 | nothing the service does later reaches such a container |
| Sandboxes.LostCreationOrphansForEver | internal/sandbox/service.go:162-166 | a run from the empty system to such a container, by a lost write or a crash |
| Sandboxes.LostRestoreLeavesNoContainer | internal/sandbox/service.go:420-439 | a run to a running row without a container |
| Sandboxes.LostCreateCallOrphansForEver | internal/sandbox/service.go:133-146 | a run in which the error is recorded and a container made by the failed create lives for ever |
| Sandboxes.LostErrorLeavesCreating | internal/sandbox/service.go:182-189 | a run to a row in creating, where a destroy is refused and a start leads to error |
| Sandboxes.DestroyingNeverLeaves | internal/sandbox/state.go:20 | a row at rest in destroying stays there, whatever is tried |
| Sandboxes.DestroyableExactly | internal/sandbox/service.go:202-277 | in every reachable state, a sandbox nobody is operating on can still be destroyed if and only if its row is not in destroying |
| Sandboxes.CrashedDestroyIsStuck | internal/sandbox/service.go:231-248 | a run by a crash during a destroy, after which the row stays in destroying and its container lives, whatever follows |
| FakeRuntime.Fake.Create | internal/runtime/docker/docker.go:143-171 | a stopped container, or a failure when a committed image is missing; a create that fails otherwise may have made a container |
| FakeRuntime.Fake.Transition | internal/runtime/fake/fake.go:117-151 | a container that is missing or gone is not found, any other changes state |
| FakeRuntime.Fake.Destroy | internal/runtime/fake/fake.go:131-140 | the container is gone; a missing one is no error |
| FakeRuntime.Fake.Snapshot | internal/runtime/fake/fake.go:191-217 | a new image, and the container's state restored on every path |
| FakeRuntime.Fake.DeleteSnapshot | internal/runtime/fake/fake.go:219-233 | refuses exactly while a container that is not gone was made from the image |
| Lineage.Sandboxes.Create | internal/sandbox/service.go:126-167 | rows and containers after a creation, whichever step fails |
| Lineage.Sandboxes.Transition | internal/sandbox/service.go:251-277 | the same for start and stop |
| Lineage.Sandboxes.Destroy | internal/sandbox/service.go:214-249 | the same for destroy |
| Lineage.StartStopMoveTheContainer | internal/sandbox/service.go:202-277 | a start leaves the container and the row running, a stop both stopped, and everything else as it was |
| Lineage.StartedThenStopped | internal/sandbox/service.go:202-277 | from any reachable state, starting a stopped sandbox with a live container and stopping it again brings row and container to running and back |
| Lineage.RefusedTransitionIsAnError | internal/sandbox/service.go:251-277 | a start or stop that the runtime refuses leaves the row in error and the containers as they were |
| Lineage.FailedLaunchIsAnError | internal/sandbox/service.go:126-189 | a container that cannot be made, started or found running leaves the row in error, naming it if it was made |
| Lineage.RefusedDestroyIsAnError | internal/sandbox/service.go:231-248 | a destroy that the runtime refuses leaves the row in error, naming the container still |
| Lineage.MissingContainerIsNoError | internal/sandbox/service.go:231-248 | a container that is missing or gone does not keep its sandbox from being destroyed |
| Lineage.LostWritesLeaveTheRow | internal/sandbox/service.go:214-277 | a last write that is lost leaves the row as it was before it, whatever the container did |
| Lineage.Snapshots.Restore | internal/sandbox/service.go:395-462 | the same for restore |
| Lineage.RestoreReplacesContainer | internal/sandbox/service.go:395-462 | from any reachable state, when nothing fails, the old container is gone, a new one runs the snapshot's image, the row names it and the snapshot, and nothing else has changed |
| Lineage.Snapshots.Fork | internal/sandbox/service.go:359-393 | the same for fork |
| Lineage.ForkIsCreation | internal/sandbox/service.go:359-393 | a fork is a creation from the snapshot's image whose row then gets the snapshot for a parent exactly if it runs and that write succeeds; a failed first write makes nothing |
| Lineage.Snapshots.Create | internal/snapshot/service.go:60-88 | image and row, or the image rolled back |
| Lineage.SnapshotRecords | internal/snapshot/service.go:60-88 | over all runs, a snapshot names its sandbox, that sandbox's parent and a new image; a failed commit changes nothing |
| Lineage.Snapshots.CountChildren | internal/snapshot/service.go:124-130 | positive exactly when a snapshot names this one as its parent |
| Lineage.Snapshots.Delete | internal/snapshot/service.go:118-141 | image before row; a refusal leaves both, a missing image is tolerated |
| Lineage.DeletionOutcome | internal/snapshot/service.go:118-141 | with any step failing, the row goes if and only if nothing descends from it, its image was removed or not there any more, and the row could be deleted |
| Lineage.CallKeepsInv | internal/snapshot/service.go:118-141 | every whole call keeps lineage, images and rows consistent |
| Lineage.LineageIsClosed | internal/snapshot/service.go:124-140 | after any sequence of whole calls every snapshot's parent exists and no snapshot is its own ancestor |
| Lineage.LiveParentCannotBeDeleted | internal/snapshot/service.go:132-139 | the parent of a running or stopped sandbox with a live container exists, and deleting it changes nothing |
| Lineage.FamilyLife | internal/sandbox/service.go:359-393 | from any reachable state, when nothing fails: a snapshot of a fork descends from the forked snapshot, which cannot be deleted while the fork runs, nor after it while the child is there, and after the child goes if and only if it had no other child or user |
| Lineage.FailedInsertLeavesNoImage | internal/snapshot/service.go:77-81 | a failed insert with a working rollback leaves rows, containers and images as they were |
| Paths.CleanTwice | internal/files/validate.go:26 | cleaning is idempotent |
| Paths.SplitJoin | internal/files/validate.go:23 | splitting joined components gives them back |
| Paths.PrefixTestIsExact | internal/files/validate.go:40 | the string prefix test decides exactly whether the normal form starts with a parent component |
| Paths.EscapesExactly | internal/files/validate.go:36-56 | the normal form starts with a parent component exactly if some prefix of the path has more parent components than names; otherwise it has as many components as names were not climbed back |
| Paths.ComponentsStand | internal/files/validate.go:23 | the components of a path are exactly the texts that stand between its slashes |
| Archive.TarHeader.Sanitize | internal/files/validate.go:29-67 | rewrites the header in place, or refuses it and leaves it alone |
| Archive.AcceptedExactlyWhenInside | internal/files/validate.go:36-56 | an entry is accepted if and only if it and what it links to, read as text component by component, never step up more often than down before |
| Archive.LinkTestIsExact | internal/files/validate.go:44-56 | the same for link targets alone, hard links from the root, symbolic links from their directory |
| Archive.SanitizeIsIdempotent | internal/files/validate.go:58-66 | sanitizing again changes nothing; place, kind, link and size are kept, owners and set-id bits cleared, and exactly directories end in a slash |
| Extraction.Destination.ExtractEntry | cmd/orcal/cp_cmd.go:249-286 | the links after unpacking one checked entry, its name stripped as a string or not |
| Extraction.Destination.ExtractArchive | cmd/orcal/cp_cmd.go:216-238 | the links after unpacking the entries up to the first that is refused or cannot be written, and success exactly if there is none |
| Extraction.StripFirstDropsOne | cmd/orcal/cp_cmd.go:240-247 | on a name as the check leaves it, stripping drops exactly the first component |
| Extraction.WalkIsLinkFree | cmd/orcal/cp_cmd.go:249-286 | path resolution through links ends at a path no part of which is a link |
| Extraction.WalkIsNormal | internal/files/validate.go:36-56 | where nothing is a link, walking a path ends at its normal form, or climbs above the top exactly if it escapes |
| Extraction.WalksAsNamedExactly | cmd/orcal/cp_cmd.go:249-286 | path resolution ends where a plain path says if and only if no part of it is a link |
| Extraction.LinksAsNamed | cmd/orcal/cp_cmd.go:249-286 | while entries land as named, the links there are those the headers make |
| Extraction.LinkAtThePath | cmd/orcal/cp_cmd.go:249-286 | where a link is at an entry's own path, a directory or file does not land as named, and a link does, replacing it |
| Extraction.LandsAsNamedExactly | internal/files/validate.go:36-56 | of accepted and unpacked entries each lands where its name says if and only if no name passes through a link that was there or that the headers before it make |
| Extraction.ReachesAsNamedExactly | internal/files/validate.go:44-56 | every entry lands, and every hard link reaches, where its header says if and only if none of them passes through a link that was there or that a header before it names |
| Extraction.AcceptedEntryLandsOutside | internal/files/validate.go:44-56 | three accepted entries, two of them symbolic links, of which the last lands above the destination |
| Extraction.HardLinkedEntryLandsOutside | cmd/orcal/cp_cmd.go:277-282 | three accepted entries, a symbolic link, a hard link to it and a file through that, which lands beside the destination |
| Extraction.StrippedEntryLandsOutside | cmd/orcal/cp_cmd.go:228-247 | with names stripped after the check, two accepted entries, one of them a link, of which the other lands beside the destination |
| Archive.SanitizeArchive | internal/files/archive.go:71-106 | success is exactly a whole archive within its limits with every entry inside; the output is then every entry in order, each in its place with kind, link, size and a regular body unchanged and no owner, and always a prefix of that within the limit, the last body as far as it arrived |
| Files.ValidatedIsCleaned | internal/files/validate.go:16-27 | an accepted path is its components without empty ones and dots, equals the cleaned string, and validates to itself |
| Files.AcceptedPaths | internal/files/validate.go:16-27 | a path is accepted exactly if it starts with a slash and no two dots stand alone between its slashes |
| Files.Tree.StatPath | internal/runtime/fake/filesystem.go:86-106 | the node, or why there is none |
| Files.Tree.ReadArchive | internal/runtime/fake/filesystem.go:108-177 | the one entry of a file, or an entry for exactly each node of a directory's tree, the directory first |
| Files.Tree.WriteArchive | internal/runtime/fake/filesystem.go:179-222 | entries applied in order below an existing directory, missing ancestors of files created, up to the first entry of another type, which is refused |
| Files.CopyKeepsNodes | internal/runtime/fake/filesystem.go:108-222 | round trip: the archive read at a path, in whatever order, unpacked where nothing of that name is, gives every node of its tree as it was, nothing else, and keeps what was there |
| Files.DeepestExistingAncestor | internal/files/write.go:59-79 | the longest existing proper prefix; anchor, missing names and base name make up the target; fails exactly when blocked by a file |
| Files.BuildFileTar | internal/files/write.go:81-119 | one directory entry per missing name from the top, then the file |
| Files.TarWrites | internal/runtime/fake/filesystem.go:193-221 | applying that archive gives the target its body, adds exactly the missing directories and changes nothing else |
| Files.WriteKeepsTree | internal/runtime/fake/filesystem.go:202-217 | the tree stays well-formed |
| Files.Write | internal/files/write.go:16-57 | the exact error of every failing case, with the tree unchanged, and on success the body in place, missing directories made, everything else as it was |
| Files.WriteSucceedsExactly | internal/files/write.go:16-57 | a write succeeds if and only if the path is accepted and not the root, the body can be read and fits, the container is there, only a regular file is at the target and only directories are on the way |
| Files.WriteErrorsMean | internal/files/write.go:16-57 | what the error of a write that fails says is so |
| Files.Read | internal/files/service.go:65-105 | the content of a regular file, or the exact error, also when the container changes between the look at the file and the archive |
| Files.ReadSucceedsExactly | internal/files/service.go:65-105 | content exactly for an accepted path of a regular file in a container that is there |
| Files.ReadErrorsMean | internal/files/service.go:65-105 | what the error of a read says was so at one of its two looks |
| Files.WriteThenRead | internal/files/service.go:65-105 | what was written is read back under any spelling of the path, and other paths read as before |
| Audit.MemoryRepo.Create | internal/audit/memory.go:18-24 | appends the event |
| Audit.MemoryRepo.List | internal/audit/memory.go:26-60 | the matching events below the cursor, newest first, cut at the limit |
| Audit.ListedMeans | internal/audit/memory.go:30-51 | what a listing asks of an event, field by field |
| Audit.MemoryRepo.DeleteOlderThan | internal/audit/memory.go:62-76 | keeps, in place and in order, the recent events, and counts the others |
| Audit.MemoryRepo.DeleteBeyondCount | internal/audit/memory.go:78-101 | keeps, in place and in order, the events whose ids are among the newest, and counts the others |
| Audit.Prune | internal/audit/service.go:49-66 | both in turn, with the exact total removed |
| Audit.CountKeepsLargest | internal/audit/memory.go:84-98 | sorting, taking and looking ids up keeps exactly the events with fewer than that many larger ids |
| Audit.PruneKeepsExactly | internal/audit/service.go:49-66 | pruning keeps exactly the events recent enough and among the largest ids of those, in the original order |
| Audit.PageFacts | internal/api/events.go:33-45 | a page is descending, below the cursor, and complete down to its last event, or altogether when it is not full or no limit is set |
| Audit.RecordAndPruneEvolve | internal/audit/memory.go:18-101 | recording an event with a fresh larger id, and pruning, are changes pagination is proved against |
| Audit.NextPage | internal/api/events.go:43-45 | one page more keeps the pages so far descending, genuine and complete |
| Audit.FewerBelow | sdk/python/src/orcal/_pagination.py:9-13 | strictly fewer ids are left below each next cursor, whatever was recorded or pruned in between |
| Audit.Paginate | sdk/python/src/orcal/_pagination.py:1-13 | the loop ends, yields strictly descending ids, only events it was shown, and every matching event present throughout |

## Left out

- The HTTP server, routing, request decoding, error classification, authentication, rendering and settings: plumbing and table lookups.
- The Docker adapter apart from `demux` and the image check of `Create`: foreign calls; the fake runtime is the specification of the rest.
- The SQLite repositories: each store is a map or a sequence with atomic operations whose writes may fail.
- The tar, JSON and base64 libraries: an entry is its header and body, a payload's text is any encoding on one line that decodes to itself, grows at most as base64 does, and has no prefix that decodes.
- Names, identifiers, times and audit fields are numbers; identifiers are fresh, and audit ids ordered as numbers.
- Real time: heartbeats, poll intervals and shutdown may happen at any step.
- Loss of bytes already written: a kill ends a write after any byte, and what was written stays.
- Log reads from an offset that is not a record boundary: what they return is incidental.
- The truncated flag across restarts: it is modelled within one supervisor.
- Integer overflow of sizes and offsets: they are unbounded, except that the Follow model keeps offsets below the 64-bit limit.
- `files.List`, downloads, and the permission, set-id and modification-time details of tree nodes beyond what writing sets.
- OutputProtocol.DeliveryIsExact: reading a record and sending it are one step, so for a connection that breaks off the sent records may run ahead of the bytes the client got; Follow.FollowLogs covers bodies cut at any byte.
- OutputProtocol.StepKeepsInv: the repair a restarted daemon makes is part of the restart, since reconciliation comes before serving.
- Follow.Stream: the scan of the body comes before the handling of its events, which is the same because handling does not influence the scan; of a record whose write to the terminal fails, nothing is counted as shown.
- Follow.FollowLogs: diagnostics that cannot be written between connections are not modelled.
- Sandboxes.RunConserves: no containers are removed behind the service's back; a start or stop that fails has changed no more than a container may on its own.
- Extraction.Destination.ExtractArchive: of the files only the links are kept; an entry that cannot be written for whatever reason ends the unpacking. Uploads are unpacked by the container runtime, which is not part of this model.
- Lineage.LineageIsClosed: calls are whole, because snapshot deletion takes no lock and a fork has two sections between which another call may land.
- Files.Write: a cleaned path is its list of components and a tar name the list below its destination; the sandbox lookup around it is in Sandboxes.CallbackSeesLiveContainer.
- Files.Read: the tar stream is its entries; beyond its root the order of a directory's archive is left open.
- Archive.SanitizeArchive: the destination only appears in error texts, and writing the output does not fail.
- Audit.MemoryRepo.List: sorting is by insertion where the library's algorithm is its own; for distinct ids the result is the same.
