# Verified model of the cellary core

A Dafny model of the parts of cellary that keep state across asynchronous steps or run
real algorithms: planning and driving a device's lifecycle, the fleet's readiness
pipeline, the ADB wire protocol, reconnecting, USB registry attribution, the audit log
and device leases. `dafny verify dfyconfig.toml` checks everything.

Code that the program writes as loops over maps and arrays is written as loops here, and
an object whose methods update fields is a class. Each such method is proved to take one
step of a function on plain values, and the results below are lemmas about runs of those
functions: every interleaving of awaits, timers and outside events is a sequence of
events.

| files | what they model |
|---|---|
| `LifecycleGraph`, `Refinement`, `Composition` | layered state graphs, paths, `refines` chains, merging layers |
| `PathFinding`, `Navigator`, `NavigationLimit` | Dijkstra with its early exit and refinement fallback; choosing a target; the detect, plan, execute-one-step loop and its step limit |
| `FleetDevice`, `FleetObserver`, `FleetWorld`, `FleetPool`, `FleetWaits` | one device's pipeline, the observer and its gone timers, the two together under raw bus events, the pool's mutable records, promises that wait for a modem |
| `AdbFraming`, `AdbConnection`, `AdbShell`, `AdbEndToEnd` | message framing, routing to waiters, handlers and queues, concurrent shell commands, and all of it from bytes to a shell's output |
| `ReconnectLoop`, `ReconnectSupervisor` | backoff and one loop; concurrent loops and shutdown |
| `IoregTree`, `IoregLocation` | attributing disks to USB devices; packed location ids and device selection |
| `AuditText`, `AuditSink`, `TailBlocks`, `AuditReader` | lines in files, rotation and pruning, reading the end of a log file by file, reading the tail |
| `LeaseRegistry` | exclusive leases with lazy expiry |
| `Prefixes`, `Wrappers` | statements about every point of a run; option and result types |

## Where the code does less than it says

Each of these is proved: an input on which the code breaks its word, and the exact
condition under which it keeps it.

- Rotated audit files are named by millisecond and a counter that starts over with the
  process. A rotation keeps the log exactly when its name is unused
  (`AuditSink.RenameKeepsLogExactly`); a restart within the same millisecond loses lines
  (`AuditSink.CollisionLosesLines`).
- A tail reads each file through a window, so files larger than it lose records. Record by
  record a query gets the end of the log exactly when enough matching records were read
  before any was lost (`TailBlocks.LastReadAreLastExactly`, `AuditReader.TailOfLog`); all
  queries get it exactly when every file fits the window
  (`AuditReader.TailIsTrueExactlyWhenFilesFit`). A configured maximum is respected exactly
  when it is positive (`AuditReader.MaxLimitRespectedExactly`); zero returns a whole file
  (`AuditReader.ZeroReturnsWholeFile`), and less cuts it from the front
  (`AuditReader.NonPositiveDropsFromFront`).
- A USB node whose ids cannot be read drops the disk names in its own block even when it
  lies under a readable device; every other node's names go to the nearest device
  (`IoregTree.OwnerIsNearestExactly`, `IoregTree.UnreadableNodeLosesNames`).
- The port-tier limit of 7 admits one tier too many. A place has an id of its own, and one
  that reads back, exactly when it has at most six tiers (`IoregLocation.OwnIdExactly`).
  The seventh lands on the bus byte: either the bus is no longer readable
  (`IoregLocation.SeventhTierCorruptsBus`) or the id is that of the hub
  (`IoregLocation.SeventhTierAliases`, `IoregLocation.SeventhPortCollides`).
- A second detach in a row leaves a gone timer running that the next attach does not
  clear (`FleetObserver.DetachMatchesExactlyOnBus`). The watcher's own record of attached
  devices prevents it, which `FleetWorld.RunKeepsInv` relies on.
- Restarting a device that still holds a modem gives the modem up without closing it
  (`FleetWorld.ModemsAccountedForExactly`, `FleetWorld.RestartLosesModem`); restarting one
  that is off the bus parks it in assessment with no timeout
  (`FleetWorld.AlwaysDrivenExactly`, `FleetWorld.RestartStrands`), until it comes back with
  another, uncritical state, is pulled again, is declared gone, or is restarted while
  attached (`FleetWorld.StaysStrandedExactly`). The second can happen in the daemon's own
  reset when the device is pulled while it is being reset
  (packages/daemon/src/device-manager.ts:189-203).
- The pool means to resume a device that leaves its critical state after the assessment
  timeout, without a replug (packages/core/src/fleet/pool.ts:342-347). It sees states only
  with attaches and detaches, and the watcher passes on no attach of a device it knows
  (packages/core/src/discovery/watcher.ts:66), so while the watcher is watching such a
  device stays in error exactly until it is pulled or restarted
  (`FleetWorld.ParkedMovesExactly`).
- Delays stay within 1.25 times the configured maximum exactly when the initial delay does
  (`ReconnectLoop.DelaysBoundedExactly`).
- A returned shutdown can be relied on to leave no reconnect loop running exactly when the
  modem was marked closed before the call, as `Modem.close` does, and every loop running
  then is in the supervisor's map (`ReconnectSupervisor.ShutdownQuiescesExactly`). The map
  loses loops exactly when a shutdown returns while one is running
  (`ReconnectSupervisor.KnownExactly`), which takes a shutdown of an open modem
  (`ReconnectSupervisor.UnclosedShutdownLosesLoop`); closing afterwards is too late
  (`ReconnectSupervisor.ClosingLaterIsTooLate`).
- A failure is reported with attempts left exactly when a loop is aborted in a sleep while
  the modem is open (`ReconnectLoop.FailsEarlyExactly`,
  `ReconnectSupervisor.FailuresExhaustedExactly`), as a shutdown of an open modem does
  (`ReconnectSupervisor.OpenShutdownFailsEarly`).
- The comment on `compose` says duplicate state ids within a layer are an error; to the
  code an earlier definition in the same layer might as well not be there
  (`Composition.DuplicatesAreInvisible`, `Composition.DuplicateIsAccepted`). Edge keys are
  concatenations, so with ids that contain `->` a transition can silently replace one
  between other states (`Composition.ComposeArrows`); later layers override pair by pair
  exactly when no two pairs share a key (`Composition.LaterLayersOverrideExactly`).
- `navigate` does not look at the device again after its last permitted step. On an honest
  device it succeeds exactly when the target is reached with steps to spare
  (`Navigator.Navigate`): a limit above the length of every way that costs no more than the
  cheapest plan is enough (`NavigationLimit.ArrivesWhenCheapWaysAreShort`), and so is the
  number of states, but nothing smaller than that is on every graph
  (`NavigationLimit.LimitIsTight`, `NavigationLimit.LastStepGoesUnseen`).

## Model

| member | source | states |
|---|---|---|
| Composition.Compose | packages/core/src/lifecycle/graph.ts:32-98 | Succeeds exactly when no surviving state refines a missing one and no surviving edge touches a missing one, reports the first kind before the second, and otherwise yields a graph whose states and edges are exactly the last definitions in layer order |
| Composition.DuplicatesAreInvisible | packages/core/src/lifecycle/graph.ts:28-45 | Whatever the other layers, leaving out an earlier definition of a state in its own layer changes neither whether composition is refused nor what any state or transition is |
| Composition.DuplicateIsAccepted | packages/core/src/lifecycle/graph.ts:29-31 | A layer that defines a state twice composes, the last definition standing |
| Composition.LaterLayersOverrideExactly | packages/core/src/lifecycle/graph.ts:26 | Every pair of states keeps the transition defined for it last exactly when no two pairs share a key |
| Composition.OneEdgePerPair | packages/core/src/lifecycle/graph.ts:26 | Under that condition a pair has no other transition, whatever earlier layers define |
| Composition.ArrowFreeIsEnough | packages/core/src/lifecycle/graph.ts:53-54 | State ids without an arrow meet the condition |
| Composition.ComposeArrows | packages/core/src/lifecycle/graph.ts:51-56 | A layer with arrows in its ids composes without an error and without its first transition |
| Refinement.IsRefinementOf | packages/core/src/lifecycle/graph.ts:225-245 | Terminates on cyclic chains and is true exactly when the target lies on the refines chain |
| Refinement.RefinementDepth | packages/core/src/lifecycle/graph.ts:248-262 | Terminates on cyclic chains with the number of hops before the chain ends or revisits a state |
| Refinement.DepthUnique | packages/core/src/lifecycle/graph.ts:248-262 | The depth is a property of the graph, so comparisons of depths mean something |
| PathFinding.MinIndex | packages/core/src/lifecycle/graph.ts:139-147 | The scan picks the queued state of least distance, the earliest on a tie |
| PathFinding.RelaxEdges | packages/core/src/lifecycle/graph.ts:158-171 | Expanding a state keeps every recorded distance the cost of a recorded path, leaves no edge out of a finished state unrelaxed, and keeps finished states no farther than waiting ones |
| PathFinding.Search | packages/core/src/lifecycle/graph.ts:127-172 | Stops on every graph; when the target was not reached, exactly the reachable states have distances |
| PathFinding.SearchFinished | packages/core/src/lifecycle/graph.ts:136-175 | When the loop ends, early or not, the target has a predecessor exactly when it is reachable, and no path beats the recorded distances |
| PathFinding.ReconstructPath | packages/core/src/lifecycle/graph.ts:287-306 | The predecessor links spell out the recorded path, with its cost and whether any edge of it is manual |
| PathFinding.FindReachableRefinement | packages/core/src/lifecycle/graph.ts:265-284 | The cheapest recorded state that refines the target, none exactly when no recorded one does |
| PathFinding.FindPath | packages/core/src/lifecycle/graph.ts:109-187 | An answer exactly when some reachable state is or refines the target; the answer is a connected chain of permitted edges to the target itself if reachable, else to a refinement, with its true total; with non-negative costs no competing path is cheaper |
| BestTarget.FindBestTarget | packages/core/src/lifecycle/graph.ts:195-220 | A terminal state with a plan that no other such state beats on depth and then cost, the earliest of those; none exactly when no terminal state can be reached |
| LifecycleGraph.EdgeIsPath | packages/core/src/lifecycle/graph.ts:158-162 | A transition is a way by itself exactly when it is automatic or manual steps are asked for |
| Navigator.IsAtTarget | packages/core/src/lifecycle/navigator.ts:242-257 | The navigator's own walk decides the same refinement relation as the graph's |
| Navigator.Navigate | packages/core/src/lifecycle/navigator.ts:98-237 | On any device each executed transition is automatic, registered, permitted and the first of a plan from the state just detected, of a cheapest plan when no cost is negative; so is the transition a failure names, whose action is missing, is manual although registered, or threw; and each kind of result means what it says. On an honest device with positive costs the remaining optimal cost strictly falls at every replan, no state repeats, at most the first plan's cost is paid whether it arrives or not, and it arrives exactly when the device is at the target after fewer steps than the limit, in particular when the limit is at least the number of states |
| NavigationLimit.ArrivesTooLate | packages/core/src/lifecycle/navigator.ts:230-236 | Every result of a call on an honest device that is not at the target before the limit is a failure, wherever the device is after the last permitted step |
| NavigationLimit.LimitIsTight | packages/core/src/lifecycle/navigator.ts:230-236 | For every number of states there is a graph on which every result of a call with one step fewer than that fails an honest device at its target |
| NavigationLimit.LastStepGoesUnseen | packages/core/src/lifecycle/navigator.ts:230-236 | One transition and a limit of one: the honest device reaches the target and the call fails |
| NavigationLimit.ArrivesWhenCheapWaysAreShort | packages/core/src/lifecycle/navigator.ts:122-234 | On an honest device arrival is certain, whatever plans are chosen among equals, once the limit exceeds the length of every permitted way that costs no more than the cheapest plan |
| Navigator.StepPaysOff | packages/core/src/lifecycle/navigator.ts:178-219 | Taking the first edge of a cheapest plan lowers the optimal remaining cost by at least that edge's cost |
| Navigator.ConvergingRunIsShort | packages/core/src/lifecycle/navigator.ts:122-234 | A run whose remaining cost keeps falling visits fewer states than the graph has before it reaches the target |
| Navigator.PaidAtMost | packages/core/src/lifecycle/navigator.ts:122-219 | What has been paid is covered by the fall in remaining cost |
| AdbFraming.Checksum | packages/core/src/protocols/adb/wire.ts:41-47 | The byte sum as the signed 32-bit number bitwise operators produce |
| AdbFraming.WriteUInt32LE | packages/core/src/protocols/adb/wire.ts:51-57 | Writes the four little-endian bytes in place and nothing else, or fails on a value outside the range |
| AdbFraming.SerializeHeader | packages/core/src/protocols/adb/wire.ts:49-59 | Fails exactly when the length or checksum does not fit its slot; otherwise header and payload are the message's encoding, every byte of which `AdbFraming.WireFormat` names |
| AdbFraming.WireFormat | packages/core/src/protocols/adb/wire.ts:49-59 | On the wire a message is six little-endian words, command, both arguments, payload length, byte sum and complemented command, and then its payload |
| AdbFraming.WordsAreBytes | packages/core/src/protocols/adb/wire.ts:49-59 | Two headers with the same six words are the same 24 bytes, so that names them all |
| AdbFraming.SumAdds | packages/core/src/protocols/adb/wire.ts:41-47 | The checksum counts every byte of a payload once, wherever it stands |
| AdbFraming.CommandsSpellTheirNames | packages/core/src/protocols/adb/constants.ts:9-20 | Every command word reads on the wire as its own four letters |
| AdbFraming.CapIsSendable | packages/core/src/protocols/adb/constants.ts:35 | No payload within the 4096-byte cap can make a header write fail |
| AdbFraming.EncodeParses | packages/core/src/protocols/adb/wire.ts:535-552 | A serialized message at the front of any buffer parses back to itself and leaves the rest |
| AdbFraming.PartialDoesNotParse | packages/core/src/protocols/adb/wire.ts:536-541 | A proper prefix of a serialized message is never taken for a whole one |
| AdbFraming.ParseIncremental | packages/core/src/protocols/adb/wire.ts:522-533 | Parsing what has arrived and later the left-over with more bytes is parsing everything at once |
| AdbFraming.ChunkingInvisible | packages/core/src/protocols/adb/wire.ts:522-533 | On any byte stream, well formed or not, the messages routed and the bytes kept do not depend on how it was chunked |
| AdbFraming.FramingIsLossless | packages/core/src/protocols/adb/wire.ts:403-552 | After any number of chunks of a serialized list, exactly the messages wholly received have been routed, in order and unchanged, and less than one message is buffered |
| AdbConnection.Connection.constructor | packages/core/src/protocols/adb/wire.ts:149-187 | A fresh connection has nothing buffered, waiting, queued or sent |
| AdbConnection.Connection.SendMessage | packages/core/src/protocols/adb/wire.ts:403-413 | Writes the header and then, unless it is empty, the payload; writes nothing once closed or when a header field is out of range, which alone throws; what has been written stays the serialization of what was sent |
| AdbConnection.OneMoreOnWire | packages/core/src/protocols/adb/wire.ts:403-413 | The two writes of a message add exactly its encoding to the bytes written |
| AdbConnection.Connection.TryParseMessage | packages/core/src/protocols/adb/wire.ts:535-552 | Takes the first whole message off the buffer, or leaves the buffer alone |
| AdbConnection.Connection.TakePending | packages/core/src/protocols/adb/wire.ts:466-472 | The oldest queued message of the stream, leaving the rest and no empty queue |
| AdbConnection.Connection.RouteMessage | packages/core/src/protocols/adb/wire.ts:486-519 | A message goes to its stream's handler, else its waiter, else its queue, with an OKAY for a handled write |
| AdbConnection.Connection.DrainBuffer | packages/core/src/protocols/adb/wire.ts:522-528 | Routes every whole message in order and leaves less than one buffered |
| AdbConnection.Connection.OnData | packages/core/src/protocols/adb/wire.ts:530-533 | A chunk has the effect of routing all that the old buffer and it contain together |
| AdbConnection.Connection.ReadStreamMessage | packages/core/src/protocols/adb/wire.ts:425-463 | Takes the oldest queued message or registers a waiter; between operations its drain finds nothing |
| AdbConnection.Connection.CleanupStream | packages/core/src/protocols/adb/wire.ts:475-479 | Forgets the stream's waiter, handler and queue, and no other stream's |
| AdbConnection.Connection.OnClose | packages/core/src/protocols/adb/wire.ts:554-582 | Every waiter is rejected once and every handler dropped; a second close or error does nothing |
| AdbConnection.Connection.Close | packages/core/src/protocols/adb/wire.ts:364-372 | Our own close drops handlers and leaves waiters to their timers |
| AdbConnection.ChunksRoute | packages/core/src/protocols/adb/wire.ts:521-533 | Routing chunk by chunk has the effect of routing the whole stream's messages |
| AdbShell.DoneMeans | packages/core/src/protocols/adb/wire.ts:238-273 | A shell returns exactly when its first message is OKAY and a close follows, with the payloads of the writes in between, in order |
| AdbShell.StepKeepsInv | packages/core/src/protocols/adb/wire.ts:228-519 | Every step of any stream keeps every shell's reads, queue, progress and sends consistent with its own messages alone |
| AdbShell.RunKeepsInv | packages/core/src/protocols/adb/wire.ts:228-519 | So do all interleavings of shells, other streams, incoming messages, timeouts and closes |
| AdbShell.NothingLost | packages/core/src/protocols/adb/wire.ts:425-519 | While a shell runs, what its reads were given followed by its queue is what was routed to it, and it never waits while a message of its own is queued |
| AdbShell.ShellOutput | packages/core/src/protocols/adb/wire.ts:228-274 | However other streams interleave, a shell that returns, returns the data of its own stream in order |
| AdbShell.ShellProgress | packages/core/src/protocols/adb/wire.ts:251-268 | A waiting shell's progress is a function of the messages routed to it alone |
| AdbShell.ShellSaid | packages/core/src/protocols/adb/wire.ts:238-273 | On an open connection a shell that has returned has sent its OPEN, one OKAY for each chunk it returned and one CLSE, in that order, all to the stream named by the first message it got |
| AdbShell.SendsMean | packages/core/src/protocols/adb/wire.ts:238-273 | At every stage what a shell owes the other side is its OPEN, an OKAY for each write consumed, and a CLSE once it has returned |
| AdbShell.ClosedSaysNothing | packages/core/src/protocols/adb/wire.ts:403-404 | Once the connection is closed it stays closed and nothing more is sent |
| AdbShell.RejectedExactly | packages/core/src/protocols/adb/wire.ts:445-460 | The read a shell waits on is rejected by nothing but its own timer and the loss of the connection; closing it ourselves leaves the read waiting |
| AdbShell.RejectedReadEnds | packages/core/src/protocols/adb/wire.ts:445-460 | A shell whose read is rejected ends without a result, no other shell is touched, and a lost connection leaves no waiter and no handler |
| AdbShell.EndingCleansUp | packages/core/src/protocols/adb/wire.ts:238-271 | A shell that ends leaves no waiter, handler or queue of its stream, except the queue exactly when its opening read was rejected |
| AdbEndToEnd.DeliverRoutes | packages/core/src/protocols/adb/wire.ts:521-533 | Delivering the messages a chunk completes does to the connection what draining its buffer does |
| AdbEndToEnd.BytesAreMessages | packages/core/src/protocols/adb/wire.ts:521-552 | A run over chunks of bytes is the run over the messages they complete, with the bytes of an incomplete one kept |
| AdbEndToEnd.RoutedAreReceived | packages/core/src/protocols/adb/wire.ts:486-519 | In every interleaving, what is routed to a shell's stream is exactly what the connection received for it |
| AdbEndToEnd.ShellReturnsItsStream | packages/core/src/protocols/adb/wire.ts:228-274 | However the other side's bytes are cut into chunks, however much has arrived and whatever else goes on, a shell that returns, returns what that side's messages hold for its stream |
| AdbEndToEnd.OneOutput | packages/core/src/protocols/adb/wire.ts:251-273 | A stream's messages allow one output only |
| AdbEndToEnd.HandlerGetsItsStream | packages/core/src/protocols/adb/wire.ts:486-503 | On an open connection, among any other messages, a persistent stream's handler is given the data written to it until its first close, in order, each write is acknowledged once to its sender, and that close ends it |
| FleetDevice.StepKeepsPipeline | packages/core/src/fleet/pipeline.ts:61-261 | Every handler, timer and completion keeps: one pipeline per generation, readiness showing its stage, timers of the current generation only, retries bounded |
| FleetDevice.StalePipelineWritesNothing | packages/core/src/fleet/pipeline.ts:189-213 | A completion of an aborted or outdated pipeline changes nothing but its own bookkeeping |
| FleetDevice.CompletionShows | packages/core/src/fleet/pipeline.ts:142-231 | After an awaited completion the device shows connecting exactly when it was provisioned, checking exactly on progress, degraded exactly on an impaired connect and ready exactly on a healthy one, with the modem just returned, and an error exactly on failure, with a retry scheduled exactly for the first three pipelines |
| FleetDevice.HeldOnlyByConnect | packages/core/src/fleet/pipeline.ts:215-229 | Nothing but an awaited connect makes a device ready or degraded, or one of them the other |
| FleetDevice.StartsExactly | packages/core/src/fleet/pool.ts:327-359 | A pipeline starts exactly on a state change of an assessed or stalled device that is uncritical and on the bus, on the uncritical return of an offline device with automatic provisioning, on such a restart on the bus, and on the retry timer |
| FleetDevice.StepKeepsWiring | packages/core/src/fleet/pool.ts:386-414 | A held modem always carries the pool's listeners, and no other modem does |
| FleetDevice.StepLeaksExactly | packages/core/src/fleet/pool.ts:193-228 | A step leaves an open modem unaccounted for exactly when it restarts a device that holds one |
| FleetDevice.RestartStrandsExactlyOffBus | packages/core/src/fleet/pool.ts:193-228 | A restart leaves the device with nothing to move it on exactly when it is off the bus |
| FleetDevice.GoneIsInert | packages/core/src/fleet/pool.ts:361-381 | A device dropped off the bus has no timer, no current pipeline, no listener, and no open modem if none was lost |
| FleetDevice.InertStays | packages/core/src/fleet/pool.ts:361-381 | Nothing that arrives later changes a dropped device's readiness or opens a modem for it |
| FleetObserver.AttachMatches | packages/core/src/discovery/observer.ts:279-316 | After an attach no gone timer of the device runs |
| FleetObserver.DetachMatchesExactlyOnBus | packages/core/src/discovery/observer.ts:318-348 | A detach leaves exactly the filed timer running if and only if the session was on the bus; otherwise the replaced timer survives the next attach and drops an attached device |
| FleetObserver.SaysExactly | packages/core/src/discovery/observer.ts:279-347 | After any events, one more is reported as a first sighting exactly when the device is not known, and otherwise as a state change exactly when its state is not the one the event before carried, ahead of the attach or detach it came with |
| FleetObserver.DeviceObserver.OnAttach | packages/core/src/discovery/observer.ts:279-316 | Cancels the filed timer, emits appeared, or state-changed if it changed and then attached, and touches no other id |
| FleetObserver.DeviceObserver.OnDetach | packages/core/src/discovery/observer.ts:318-348 | Ignores unknown ids; otherwise emits state-changed if it changed and then detached, starts a gone timer, and touches no other id |
| FleetObserver.DeviceObserver.OnGoneTimer | packages/core/src/discovery/observer.ts:338-347 | Forgets the session and emits gone |
| FleetWorld.RunKeepsInv | packages/core/src/fleet/pool.ts:193-414 | In every interleaving of bus events, timers, restarts, completions and modem closes, observer, watcher and pool agree on whether the device is attached, and every dropped entry is inert |
| FleetWorld.OnlyTheCurrentPipelineWrites | packages/core/src/fleet/pipeline.ts:142-213 | In every interleaving, only a pipeline of the current generation with its signal not aborted writes, and it is the only one of its generation |
| FleetWorld.CompletionShowsInRuns | packages/core/src/fleet/pipeline.ts:142-231 | In every interleaving an awaited completion shows its own stage, verdict or failure |
| FleetWorld.ShowsTheLastVerdict | packages/core/src/fleet/pipeline.ts:225-229 | At every point of every run a degraded device shows the last modem an awaited connect returned, and its verdict was degraded; a ready one likewise, and its verdict was not |
| FleetWorld.PipelineStartsExactly | packages/core/src/fleet/pipeline.ts:61-139 | In every interleaving exactly these events start a pipeline, one each: an uncritical first sighting or return, of a stranded device only with another state, a restart on the bus, a retry timer |
| FleetWorld.AbandonedAreAborted | packages/core/src/fleet/pool.ts:304-307 | In every interleaving a pipeline in flight has been told to abort exactly when its generation has passed |
| FleetWorld.ParkedMovesExactly | packages/core/src/fleet/pool.ts:342-358 | While the watcher is watching, a device parked by the assessment timeout stays parked exactly until it is pulled or restarted |
| FleetWorld.ErrorsAccountedForInRuns | packages/core/src/fleet/pipeline.ts:77-164 | In every interleaving, errors are retried, parked, or final after four pipeline starts |
| FleetWorld.GoneMeansGone | packages/core/src/fleet/pool.ts:361-381 | The gone timer fires only for a device off the bus, and drops it with nothing of its generation in flight and no timer pending |
| FleetWorld.DroppedNeverChanges | packages/core/src/fleet/pool.ts:361-381 | A dropped entry's readiness is final, whatever arrives later |
| FleetWorld.ModemsAccountedForExactly | packages/core/src/fleet/pipeline.ts:205-231 | At every point of a run all returned modems but the held one are closed, exactly when no restart hits a device holding one |
| FleetWorld.AtMostOneModem | packages/core/src/fleet/pool.ts:298-325 | In such a run a device has at most one open modem, exactly when it shows ready or degraded, and none once detached |
| FleetWorld.RestartLosesModem | packages/core/src/fleet/pool.ts:193-228 | A run in which a restart of a ready device leaves its modem open with nothing that holds it |
| FleetWorld.AlwaysDrivenExactly | packages/core/src/fleet/pool.ts:193-228 | At every point of a run each transient stage has a timer or pipeline that will move it on, exactly when no restart hits a device off the bus |
| FleetWorld.RestartStrands | packages/daemon/src/device-manager.ts:189-203 | A run in which a device pulled while being reset is restarted into an assessment that nothing scheduled will end |
| FleetWorld.StrandedMovesExactly | packages/core/src/fleet/pool.ts:254-381 | A stranded device is moved on by exactly four kinds of event: coming back with another, uncritical state, being pulled, being declared gone, a restart while attached |
| FleetWorld.StaysStrandedExactly | packages/core/src/fleet/pool.ts:254-381 | Over any run it stays stranded exactly as long as none of them comes |
| FleetPool.ManagedDevice.Handle | packages/core/src/fleet/pipeline.ts:77-231 | Any timer, completion or modem close that reaches a record takes exactly its step, an awaited completion shows what `FleetDevice.CompletionShows` says; the record's invariant is kept, no modem left unaccounted for, and nothing but bookkeeping changed once the device is off the bus or dropped |
| FleetPool.ManagedDevice.Detach | packages/core/src/fleet/pool.ts:298-325 | From any state the pipeline can be in, a detach leaves nothing current, scheduled or wired, and no modem open that was accounted for |
| FleetPool.ManagedDevice.Reattach | packages/core/src/fleet/pool.ts:277-296 | A record without listeners is valid and on the bus again, no modem lost |
| FleetPool.ManagedDevice.ChangeState | packages/core/src/fleet/pool.ts:327-359 | A state change keeps the pipeline and wiring invariants and every modem accounted for |
| FleetPool.ManagedDevice.Restart | packages/core/src/fleet/pool.ts:193-228 | Keeps the record's invariant, and its modems accounted for exactly when it held none |
| FleetPool.ModemPool.OnObserverEvent | packages/core/src/fleet/pool.ts:232-252 | Handling an observer event is the world model's delivery for that id, and changes no other device |
| FleetPool.Fleet.OnUsbAttach | packages/core/src/discovery/observer.ts:279-316 | Watcher, observer and pool objects together take exactly the world model's step, every record of the pool stays valid, and no other id changes |
| FleetPool.Fleet.OnUsbDetach | packages/core/src/discovery/observer.ts:318-336 | The same for a detach, except for the shared timer numbers |
| FleetPool.Fleet.OnGoneTimer | packages/core/src/discovery/observer.ts:338-347 | The same for a gone timer, which drops a record that can never change its readiness again |
| FleetPool.Fleet.OnDeviceEvent | packages/core/src/fleet/pipeline.ts:77-261 | The same for every timer, completion and modem close of a device in the pool |
| FleetPool.Fleet.Restart | packages/core/src/fleet/pool.ts:193-228 | The same for a restart, which fails exactly for an id that is not in the pool |
| FleetWaits.FirstMatchFinds | packages/core/src/fleet/wait-manager.ts:149-156 | The initial scan finds a modem exactly when a matching device is ready or degraded |
| FleetWaits.RunKeepsInv | packages/core/src/fleet/wait-manager.ts:42-197 | In every interleaving an unsettled wait owns one listener, one timer and one pending entry, a settled one nothing |
| FleetWaits.NoLostWakeup | packages/core/src/fleet/wait-manager.ts:116-196 | While a wait is unsettled no device of its vendor, with its text in the name, or of its id is ready or degraded |
| FleetWaits.SettlesOnce | packages/core/src/fleet/wait-manager.ts:160-195 | Every wait settles at most once and owns its resources exactly until then |
| FleetWaits.StopSettlesAll | packages/core/src/fleet/wait-manager.ts:51-56 | Cancelling leaves no unsettled wait, listener, timer or pending entry |
| FleetWaits.ResolvesWithAMatch | packages/core/src/fleet/wait-manager.ts:116-175 | A wait that resolves, resolves with the modem of a device of its vendor, with its text in the name, or of its id, that is ready or degraded at that moment |
| FleetWaits.SettledByWhat | packages/core/src/fleet/wait-manager.ts:160-196 | A wait times out exactly by its own timer, hears that the pool stopped exactly on a stop, and resolves on everything else |
| FleetWaits.WaitManager.WaitFor | packages/core/src/fleet/wait-manager.ts:63-107 | Resolves at once or registers a listener, a timer and a cancellation |
| FleetWaits.WaitManager.Emit | packages/core/src/fleet/wait-manager.ts:163-175 | Listeners registered when an emission begins are each called once, and may unsubscribe |
| FleetWaits.WaitManager.UpdateReadiness | packages/core/src/fleet/pool.ts:418-427 | A readiness change tells the listeners of targeted waits and then those of any-ready waits, once the device shows it |
| FleetWaits.WaitManager.TimerFires | packages/core/src/fleet/wait-manager.ts:177-183 | A timeout rejects its own wait if that has not settled, and no other |
| FleetWaits.WaitManager.CancelPending | packages/core/src/fleet/wait-manager.ts:51-56 | Cancelling in any order of the pending set empties it |
| ReconnectLoop.DelayBounds | packages/core/src/reconnector.ts:69-72 | Every delay lies between the initial delay and the larger of it and 1.25 times the maximum |
| ReconnectLoop.DelaysBoundedExactly | packages/core/src/reconnector.ts:69-72 | All delays stay within 1.25 times the maximum exactly when the initial one does |
| ReconnectLoop.BackoffDoubles | packages/core/src/reconnector.ts:70 | Without jitter the delay starts at the initial one and doubles until it reaches the cap and stays there |
| ReconnectLoop.AttemptsBounded | packages/core/src/reconnector.ts:68-81 | However its awaits settle, a loop never makes more attempts than allowed |
| ReconnectLoop.FailsEarlyExactly | packages/core/src/reconnector.ts:74-105 | A failure is reported with attempts left exactly when the loop was aborted in a sleep of an open modem |
| ReconnectLoop.EndedStays | packages/core/src/reconnector.ts:93-106 | A loop that has ended does nothing more |
| ReconnectLoop.EndsExactly | packages/core/src/reconnector.ts:65-110 | Left alone, a loop that has ended reports reconnection after k attempts exactly when attempt k is the first, within the limit, whose reopen and init both succeed, and failure exactly when none that the limit allows does |
| ReconnectLoop.ReconnectedMeans | packages/core/src/reconnector.ts:83-92 | Whenever it is closed or aborted, a loop reports reconnection only from an init of that attempt that succeeded with the modem open |
| ReconnectLoop.JitterIsAQuarter | packages/core/src/reconnector.ts:70-72 | Jitter moves a delay by up to a quarter of its base either way, never below the initial delay |
| ReconnectLoop.Run | packages/core/src/reconnector.ts:58-106 | The loop ends after at most three awaits per allowed attempt, in the state its steps describe, silently exactly when the modem is closed, having slept the delay of attempt after attempt |
| ReconnectSupervisor.NothingAfterClosing | packages/core/src/reconnector.ts:160-191 | From the moment the modem is marked closed no reopen starts and no callback fires |
| ReconnectSupervisor.EachLoopIsBounded | packages/core/src/reconnector.ts:179-191 | In any interleaving each loop makes at most the allowed reopens and reports at most one ending |
| ReconnectSupervisor.SaidExactly | packages/core/src/reconnector.ts:65-191 | At any point of any run, only while the modem is open: a reopen starts exactly when an unaborted sleep ends, a reconnection is announced exactly when an init succeeds, a failure exactly when a sleep is aborted, the last allowed attempt fails or none is allowed, and the first disconnect exactly when a loop begins with none in the map |
| ReconnectSupervisor.KnownExactly | packages/core/src/reconnector.ts:134-177 | Every running loop is in the map throughout a run, exactly when no shutdown returns while one is running |
| ReconnectSupervisor.OneLoopPerAdapter | packages/core/src/reconnector.ts:156-169 | While every running loop is in the map there is at most one per adapter |
| ReconnectSupervisor.ShutdownQuiesces | packages/core/src/reconnector.ts:171-177 | When a shutdown of a closed modem whose loops are all in the map has returned, none is running, so no reopen is in flight, and nothing has been reopened or reported since the call |
| ReconnectSupervisor.ShutdownQuiescesExactly | packages/core/src/reconnector.ts:121-177 | Whatever happens while it waits, a shutdown returns with no loop running, exactly when the modem was closed and every running loop in the map at the call |
| ReconnectSupervisor.UnclosedShutdownLosesLoop | packages/core/src/reconnector.ts:171-177 | During a shutdown of an open modem a loop can start that outlives it unknown to the supervisor |
| ReconnectSupervisor.ClosingLaterIsTooLate | packages/core/src/reconnector.ts:171-177 | Then a second shutdown, after closing, returns with that loop running |
| ReconnectSupervisor.FailuresExhaustedExactly | packages/core/src/reconnector.ts:108-119 | In a run every reported failure follows the allowed number of reopens, exactly when no aborted sleep settled on an open modem |
| ReconnectSupervisor.ClosingFirstExhausts | packages/core/src/reconnector.ts:108-119 | So it is in every run that shuts down only closed modems |
| ReconnectSupervisor.OpenShutdownFailsEarly | packages/core/src/reconnector.ts:74-105 | A shutdown of an open modem makes a sleeping loop report failure after no reopen at all |
| ReconnectSupervisor.Supervisor.Begin | packages/core/src/reconnector.ts:160-169 | Keeps every loop's attempts and reports bounded and the map accurate; a closed modem starts nothing |
| ReconnectSupervisor.Supervisor.Resume | packages/core/src/reconnector.ts:179-191 | The same when an await settles, and nothing is reported once the modem is closed |
| ReconnectSupervisor.Supervisor.Shutdown | packages/core/src/reconnector.ts:172-175 | Aborts every loop in the map, and on a closed modem keeps waiting for all that run |
| ReconnectSupervisor.Supervisor.FinishShutdown | packages/core/src/reconnector.ts:175-176 | Returns only when the loops it waited for have left; if only closed modems were shut down, none is running |
| IoregTree.SegmentNodes | packages/core/src/discovery/ioreg.ts:164-189 | The nodes re-assemble to the dump from its first header on: nothing lost, moved or kept from before |
| IoregTree.NearestCorrect | packages/core/src/discovery/ioreg.ts:192-224 | Looking back for the last device under a falling depth bound finds the nearest enclosing device, judged from depths alone |
| IoregTree.OwnerIsNearestExactly | packages/core/src/discovery/ioreg.ts:203-225 | Names go to the nearest device, the node itself included, except exactly under a USB node with unreadable ids that has a device above it |
| IoregTree.UnreadableNodeLosesNames | packages/core/src/discovery/ioreg.ts:203-206 | Every attribution of a readable device over a USB node without readable ids holds none of that node's names, although the device encloses it |
| IoregTree.AttributeDevices | packages/core/src/discovery/ioreg.ts:192-229 | One record per readable USB node, in order, holding exactly the names it owns in order; names nobody owns are dropped |
| IoregTree.TreesAgree | packages/core/src/discovery/ioreg.ts:191-229 | On the printed form of any forest, the owners computed from depths are the ones the forest's own structure gives |
| IoregLocation.BusLocationToLocationId | packages/core/src/discovery/ioreg.ts:112-121 | The bus byte and up to seven tiers are packed as 32-bit shifts do it |
| IoregLocation.LocationReadsBack | packages/core/src/discovery/ioreg.ts:106-110 | For a bus below 256 and up to six ports in 1..15, reading the bus byte and nibbles recovers the inputs |
| IoregLocation.LocationsNeverCollide | packages/core/src/discovery/ioreg.ts:103-121 | Distinct places never share a location id |
| IoregLocation.OwnIdExactly | packages/core/src/discovery/ioreg.ts:103-121 | The id of a place reads back as that place, and no other place of at most six tiers has it, exactly when it has at most six tiers |
| IoregLocation.SeventhTierAliases | packages/core/src/discovery/ioreg.ts:114-118 | Every place with a seventh tier has the id of a place with six; when the bus is still readable, of its own hub |
| IoregLocation.SeventhTierCorruptsBus | packages/core/src/discovery/ioreg.ts:114-118 | With a seventh tier the bus byte reads back exactly when the tier adds no bit to it |
| IoregLocation.SeventhPortCollides | packages/core/src/discovery/ioreg.ts:114-118 | Bus 16 with seventh port 1: the bus reads back and the id is the hub's |
| IoregLocation.SelectsExactlyTheUnambiguous | packages/core/src/discovery/ioreg.ts:132-146 | A device is chosen exactly when it alone has the ids or, among several, it alone is at the expected location |
| LeaseRegistry.LazyAnswersLikeEager | packages/daemon/src/lease-registry.ts:59-114 | With a clock that never goes back, every answer is that of a registry that deletes leases the instant they expire |
| LeaseRegistry.LeaseIsExclusive | packages/daemon/src/lease-registry.ts:59-98 | Between a claim and its release, renewal, disconnect or expiry nobody else can claim, release or operate the device, whatever calls come between |
| LeaseRegistry.ExpiryFreesTheDevice | packages/daemon/src/lease-registry.ts:106-114 | A timed lease blocks another client exactly until its expiry |
| LeaseRegistry.ReleaseFreesTheDevice | packages/daemon/src/lease-registry.ts:73-87 | Once its holder releases a device or disconnects, anybody may operate or claim it, and no other lease is touched |
| LeaseRegistry.ClaimLasts | packages/daemon/src/lease-registry.ts:64-66 | A granted claim names its holder until the time asked for has passed since the second reading of the clock, and for good when none was asked for |
| LeaseRegistry.Registry.LookUp | packages/daemon/src/lease-registry.ts:106-114 | A lookup forgets the lease if it has expired and changes nothing else |
| LeaseRegistry.Registry.DoClaim | packages/daemon/src/lease-registry.ts:59-67 | Claims or renews unless another client holds the device, with the expiry taken from the second clock reading |
| LeaseRegistry.Registry.DoRelease | packages/daemon/src/lease-registry.ts:73-80 | Releases the holder's own lease, ignores a free device, and refuses anyone else |
| LeaseRegistry.Registry.DoReleaseAll | packages/daemon/src/lease-registry.ts:83-87 | Deleting while iterating removes exactly the client's leases |
| LeaseRegistry.Registry.DoAssertHolder | packages/daemon/src/lease-registry.ts:93-98 | Passes for a free device and for its holder only |
| LeaseRegistry.Registry.DoAskHolder | packages/daemon/src/lease-registry.ts:101-103 | The holder of an unexpired lease, or nobody |
| AuditText.SplitText | packages/daemon/src/audit-reader.ts:132 | Splitting written lines gives them back |
| AuditText.SmallFileReadWhole | packages/daemon/src/audit-reader.ts:117-132 | A file no larger than the window is read completely |
| AuditText.LargeFileReadsTail | packages/daemon/src/audit-reader.ts:117-132 | A larger file yields exactly the longest run of last lines shorter than the window |
| AuditText.ReadsAllExactlyWhenItFits | packages/daemon/src/audit-reader.ts:117-132 | A file is read completely exactly when it fits the window, and otherwise loses at least a line |
| AuditSink.RunKeepsInv | packages/daemon/src/audit-sink.ts:69-178 | Through any appends, rotations and restarts with fresh names and rising times, the byte count is the file's size and the files hold a suffix of what was appended |
| AuditSink.DiskHoldsTheLastLines | packages/daemon/src/audit-sink.ts:147-178 | With pruning too, the files oldest to newest hold the last lines appended, in order |
| AuditSink.DiskHoldsEveryLine | packages/daemon/src/audit-sink.ts:95-145 | With nothing aged out, they hold exactly the lines appended, in order |
| AuditSink.SizesBounded | packages/daemon/src/audit-sink.ts:79-111 | The active file stays under the limit across restarts and every rotated one has reached it |
| AuditSink.StepFilesExactly | packages/daemon/src/audit-sink.ts:69-178 | Which files a step leaves: a full active file is added under the time and counter of that moment, and that step and a restart keep exactly the rotated files last written within the retention window |
| AuditSink.PruneExactly | packages/daemon/src/audit-sink.ts:154-178 | Pruning keeps exactly the rotated files whose modification time is no older than the retention window, and changes nothing else |
| AuditSink.SessionNamesFresh | packages/daemon/src/audit-sink.ts:135-137 | Within a session a rotation can only meet a name left from before it |
| AuditSink.RenameKeepsLogExactly | packages/daemon/src/audit-sink.ts:135-138 | A rotation keeps the log exactly when its name is not taken |
| AuditSink.CollisionLosesLines | packages/daemon/src/audit-sink.ts:66-138 | For any size limit, two lines that reach it, a restart between them and one millisecond lose the first |
| AuditSink.FileAuditSink.constructor | packages/daemon/src/audit-sink.ts:69-92 | Opening reuses the active file, seeds the count from its size, starts the counter over and prunes |
| AuditSink.FileAuditSink.AppendRecord | packages/daemon/src/audit-sink.ts:95-112 | Appends one line and rotates once the limit is reached |
| AuditSink.FileAuditSink.RotateFile | packages/daemon/src/audit-sink.ts:129-145 | Moves the active file to its new name, replacing one of that name, opens an empty one and prunes |
| AuditSink.FileAuditSink.PruneOld | packages/daemon/src/audit-sink.ts:154-178 | Removes exactly the rotated files last written before the retention window |
| AuditReader.SortNewestFirst | packages/daemon/src/audit-reader.ts:79-84 | The same files, by falling modification time |
| AuditReader.SortingReversesRotation | packages/daemon/src/audit-reader.ts:66-87 | With rising times, any listing sorts into the reverse of the order the files were rotated in |
| AuditReader.Tail | packages/daemon/src/audit-reader.ts:50-64 | Although it stops early, the result is the last of the records that all files yield: the least of the maximum, the number there is, and the number asked for or one; or the cut of the newest file when the maximum is not positive |
| AuditReader.TailSize | packages/daemon/src/audit-reader.ts:51-63 | A request within the maximum returns exactly the last that many records when there are as many |
| TailBlocks.LastReadAreLastExactly | packages/daemon/src/audit-reader.ts:54-63 | For any number wanted, the last records read are the last of the log, record by record with its place, exactly when enough was read before anything was lost |
| TailBlocks.LastRecordsAreLast | packages/daemon/src/audit-reader.ts:54-63 | Then their contents are the same, and when no two records are the same, only then |
| AuditReader.BlocksAre | packages/daemon/src/audit-reader.ts:54-63 | The files divide into what their windows lose and what they read, which together are the log |
| AuditReader.EnoughByFirstLargeFile | packages/daemon/src/audit-reader.ts:54-61 | It is enough that the files up to the first one larger than the window yield the limit |
| AuditReader.LostRecords | packages/daemon/src/audit-reader.ts:107-136 | What a window reads are the last records of its file; what it loses are those in front |
| AuditReader.NothingOutsideWindows | packages/daemon/src/audit-reader.ts:90-136 | When every file fits the window, the records read are those of every line |
| AuditReader.TailOfLog | packages/daemon/src/audit-reader.ts:50-136 | After any regular run of the writer and with files of any size, the tail is record by record the end of the log exactly when enough was read before any loss; the log is what was appended when nothing aged out |
| AuditReader.TailIsTrueExactlyWhenFilesFit | packages/daemon/src/audit-reader.ts:108-136 | Every query within every maximum gets the true tail exactly when every file fits the window |
| AuditReader.MaxLimitRespectedExactly | packages/daemon/src/audit-reader.ts:50-64 | No query returns more than the configured maximum exactly when that is positive |
| AuditReader.ZeroReturnsWholeFile | packages/daemon/src/audit-reader.ts:50-64 | With a maximum of zero every record of a newest file that fits the window is returned |
| AuditReader.NonPositiveDropsFromFront | packages/daemon/src/audit-reader.ts:50-64 | A negative maximum drops that many records from the front of the newest file and returns the rest |

## Left out

- USB, serial ports, sockets, file descriptors and child processes: foreign calls, replaced by steps that succeed or fail.
- Watcher pause and resume, and the awaits inside `ModemPool.stop`: events can be missed or arrive there, and the code claims nothing about them.
- State detectors, transition actions, vendor resolvers and the analysis of session history: oracles, given by functions or carried by events.
- `provision` and `Modem.connectFromPrepared`: one asynchronous result each; closing a stale modem is one step with its return.
- Listeners that call back into the pool synchronously, and callbacks that throw inside a reconnect loop (the supervisor's `onError`).
- The internal-error throw for a connection without a preparation report (packages/core/src/fleet/pipeline.ts:220-223): the pool's own options rule it out.
- Data of a persistent ADB stream that arrives before its handler is registered, and the handshake: the code makes no promise about the first.
- Several readers of one stream at once: a shell has one read outstanding by construction, other streams are not given any promise.
- Text extraction with regular expressions in ioreg, `wholeDiskBsdName`, JSON and UTF-8: properties are functions of a block, parsing is a function of a line, and a character is a byte.
- ioreg device records pushed onto two lists at once: the stack refers to a device by its place in the list, which models the sharing.
- Rounding of delays and costs: exact reals.
- fsync, and failures of unlink, stat and directory reads, in the audit log.
- Letter case in device names and filters: names are taken as already in lower case.
- AdbShell.ShellSaid: says nothing of a connection that closed, since sends are then dropped.
- Navigator.Navigate: convergence is stated for positive costs, since a zero-cost cycle of replans need not make progress.
- IPC, streaming of events to clients, preparation verdicts, message encodings, the CLI, the monitor and the store: plumbing, data or smaller versions of the above.
