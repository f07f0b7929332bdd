# Verified models of thread ownership, brokering and history

Dafny models of the parts of this repository that coordinate processes, native harness
sessions and stored threads, with proofs of what they guarantee over every input and every
interleaving. `dafny verify dfyconfig.toml` checks all of it.

## What is modelled

**Process-tree ownership (Rust).** `ProcessTree` is the supervisor's ledger of owned processes,
frame by frame, and the fixpoint that finds descendants; `LedgerSoundness` says what the ledger
holds after any run of frames, `LedgerOutcomes` how each single one ends. `ScanRefinement` is
the macOS shortcut that narrows a system scan before reading executable paths, proved
indistinguishable from the full scan over every sequence of frames. `RemoteLifecycle` is the
Shim's own closure and the order in which it stops a tree. `Lineage` defines reachability by
parent links, without a loop.

**The harness broker (TypeScript).** `BrokerLeases` treats the code between two awaits of the
server as one atomic step over the session records, the writer map and the provisional lease,
and proves the lease theorems over every interleaving of opens, outputs, executes, reopens and
closes on any number of connections. `BootstrapGate` is what a session without a known native
identity may be told to do. `BrokerSessions` and `BrokerRequests` say exactly what each step
does to a session and which requests on it go through. `StrandedSessions` is about a session
closed while it is reopened. `BrokerServer` is the object whose methods perform those steps.
`Framing` is the newline framing over arbitrary chunks, `BrokerProtocol` the two sequence
counters and the request table as a two-party protocol over an in-order channel, `BrokerFrames`
what any frame does to either end, `BrokerTranscript` everything that is said on one, and
`BrokerRuns` shows runs of it that exist.

**Per-thread coordination in the Host (TypeScript).** `TurnSteering` (stop a turn, then start
its replacement; `SteeringSteps` says exactly what each step does, `SteeringEnds` that steers
can end), `RequestQueue` (the per-thread order of requests; `QueueProgress` shows that they
run), `IdleRelease` (closing idle sessions while excluding operations; `ReleaseOutcomes` says
which ones and how it ends), `MessageQueue` (messages waiting for a turn to end; `MessageSteps`
is what each operation does, `MessageOrder` their order) and `OutputChannel` (one reader, any
number of writers) are transition systems with a class underneath; `QueuedRelease` puts idle
release and the request queue together. An async function is the sequence of steps between its
awaits; the result of a promise race is chosen by the event, so every order is a run.

**History and lists (TypeScript).** `HistoryPaging` is cursor paging over a history that grows
between pages, `LiveHistory` the same when entries are also rewritten in place, `ThreadList`
the order of thread rows and paging after an anchor, `SessionTree` the plain and the memoised
walk to a fork tree's root, `ThreadFilter` the two parent walks that decide whether a record is
listed, `Rollback` the whole rollback request down to the guarded store write, `RollbackExact`
when it goes through, `RollbackGuards` the guards behind it, `RollbackLineage` a forked thread
and its source over any run of rollbacks and new turns, `RollbackRuns` runs of it that exist,
`Snapshots` the merge of read-only snapshots. `RecordChain` holds what the walks share,
`Prelude` the sequence facts everything shares.

Identifiers, timestamps and texts are abstract values with equality (host thread ids in
`ThreadList` are sequences of code units, because their order matters). JSON text is an
encoding that `parse` undoes and that contains no raw newline; cursors are the pair they
encode. Reading a path is a lookup by PID that may fail, the same for the whole frame. Time is
a number the environment increases; timers and races are events that may happen whenever the
code lets them.

## What the proofs found

- The refinement and safety properties of the ledger, the scan, the leases, the protocol,
  steering, idle release and paging hold for all inputs that meet the conditions named in the
  table; where a condition is named, the table says what holds without it.
- An unidentified broker session that has *faulted* is no longer gated: releasing the
  provisional lease clears `awaitingNativeIdentity`, so every further command is forwarded. The
  owner of such a session has exactly its one bootstrap turn, that turn's cancel and responses
  admitted through `session.execute` if and only if the session has not faulted
  (`BootstrapGate.BootstrapOnlyUnlessFaulted`), and a concrete run shows two unfailed turns going
  through.
- `session.commands.execute` passes no gate. Counting both routes, an unidentified session that
  has not faulted was given exactly its unfailed invocations and the bootstrap turn it remembers,
  if any (`BootstrapGate.TurnsGivenExactly`); `BootstrapGate.InvokedSessionTakesTwoTurns` is a run
  in which these are two.
- A client that keeps its own limit of 32 requests can still overflow the server's frame queue:
  exactly while the server is still writing an answer, and with all other places taken
  (`BrokerProtocol.OverflowExactly`). `BrokerRuns.OverflowReached` is a run in which it happens
  behind the answer to the hello.
- The test for an untouched fork compares lengths only. Over any run of rollbacks, new turns and
  refreshes of a thread and of its source, the thread is rollback-capable if and only if the source
  still has the fork turn and the thread has gained as many turns as it has dropped
  (`RollbackLineage.CapableExactlyInBalance`). A fork rollback always copies the source turns the
  thread was forked from; the turns it keeps are those forked from them if and only if it keeps no
  more than were there all the time, and it leaves a capable thread if and only if the source still
  has the selected turn (`RollbackLineage.ForkRollbackMeaning`). `RollbackRuns` has the runs: one
  dropped turn ends the lineage, gained turns restore it, and then a fork rollback maps a turn the
  thread gained onto the copy of a turn of the source; a rollback of the source ends the lineage of
  an untouched thread, also behind a fork rollback that read the source before.
- A broker session closed while it is reopened ends up with a live native session whose key is free
  for others (`StrandedSessions.ReopenStrandsExactly` says exactly when, `TwoSessionsOfOneKey` is a
  run).
- Two frames that are each within the size bound are refused when one chunk carries both beyond
  it (`Framing.CoalescedFramesRejected`); `Framing.RejectedExactly` gives the exact condition.

## Model

| member | source | states |
|---|---|---|
| ProcessTree.DescendantSnapshots | crates/platform/src/process.rs:155-174 | the repeat-until-unchanged loop terminates and returns the closure specified by repeated passes |
| ProcessTree.DescendantsExact | crates/platform/src/process.rs:155-174 | over any enumeration the result holds exactly the non-root ids reachable by parent links, each after its parent |
| ProcessTree.DescendantsExactWhenDistinct | crates/platform/src/process.rs:155-174 | with one snapshot per PID, exactly the reachable non-root snapshots, no PID twice |
| ProcessTree.FindInstance | crates/platform/src/process.rs:150-152 | a snapshot of the same instance, and none exactly when there is none |
| ProcessTree.FindsFirst | crates/platform/src/process.rs:293-296 | both searches stop at the first match in enumeration order |
| ProcessTree.FirstForeign | crates/platform/src/process.rs:323-340 | a group member that is neither known nor a descendant, and none exactly when all are attributed |
| ProcessTree.ReportsFirstForeign | crates/platform/src/process.rs:326-338 | the process named in the error is the first such member |
| ProcessTree.ObservedProcessTree.NewWithOwnedProcesses | crates/platform/src/process.rs:217-237 | the new ledger holds the owned processes and, unless its instance is already there, the root |
| ProcessTree.ObservedProcessTree.RefreshKnown | crates/platform/src/process.rs:287-300 | retired and replaced descendants are forgotten, the root is kept |
| ProcessTree.ObservedProcessTree.ObserveSnapshots | crates/platform/src/process.rs:256-357 | the new ledger, the returned list or the error of one frame, on either platform |
| LedgerOutcomes.FirstLedger | crates/platform/src/process.rs:217-237 | before any frame the group counts from the given start or the root's own, the executable is fixed, and the root is known |
| LedgerOutcomes.RootDecidedExactly | crates/platform/src/process.rs:260-281 | another start under the root's PID, or another executable of it while that is fixed, stops the frame and leaves the ledger alone; otherwise it goes on with the root as it is seen |
| LedgerOutcomes.MembersInOrder | crates/platform/src/process.rs:306-317 | the owned group's members are those of its id that started no earlier, in enumeration order |
| LedgerOutcomes.GroupDecidedExactly | crates/platform/src/process.rs:323-340 | then a frame is refused on Linux alone, for the first group member that is neither a survivor nor a descendant of one, and the ledger is what survived |
| LedgerOutcomes.ReportedInLedgerOrder | crates/platform/src/process.rs:347-357 | a successful frame reports the running processes of the new ledger in its order |
| LedgerSoundness.InitialLedgerSound | crates/platform/src/process.rs:217-237 | the new ledger is sound exactly when the given processes have distinct ids and none reuses the root's |
| LedgerSoundness.ObserveKeepsSound | crates/platform/src/process.rs:256-357 | every frame, failing or not, keeps ids distinct and the root's instance in the ledger |
| LedgerSoundness.ObserveExact | crates/platform/src/process.rs:282-357 | after a successful frame the ledger holds exactly what is reachable from the survivors and the owned group, and one live snapshot of each is returned |
| LedgerSoundness.LedgerEntryRuns | crates/platform/src/process.rs:287-300 | every entry but the root is in the frame that was observed |
| LedgerSoundness.ReusedPidDropped | crates/platform/src/process.rs:282-300 | a known PID now used by another process that nothing attributes to the tree leaves the ledger |
| LedgerSoundness.LinuxRefusesExactlyForeignMembers | crates/platform/src/process.rs:318-340 | on Linux, with one snapshot per PID, a frame is refused if and only if some owned-group member lacks lineage from the surviving ledger |
| LedgerSoundness.LinuxSuccessMeansLineage | crates/platform/src/process.rs:318-340 | whatever PIDs a frame repeats, success on Linux means every owned-group member is reachable from the surviving ledger |
| LedgerSoundness.RunKeepsSound | crates/platform/src/process.rs:256-357 | soundness and the root's instance over any sequence of frames |
| ScanRefinement.CloseOverParents | crates/platform/src/macos_process_observation.rs:76-86 | the candidate loop terminates in a set closed under parent links and below every closed set that holds the seeds |
| ScanRefinement.SeedsExactly | crates/platform/src/macos_process_observation.rs:58-75 | the candidates start from the known ids, the root and the owned group's members that are not older than it, and from no other process |
| ScanRefinement.CandidatesLeast | crates/platform/src/macos_process_observation.rs:61-86 | the candidates are the least closed set holding the known ids, the root and the owned group |
| ScanRefinement.ResolveTreeCandidates | crates/platform/src/macos_process_observation.rs:51-104 | exactly the readable snapshots of candidate identities, in enumeration order |
| ScanRefinement.NarrowBeforeReading | crates/platform/src/macos_process_observation.rs:87-103 | narrowing and then reading paths selects the same snapshots as reading and then narrowing |
| ScanRefinement.ObserveKept | crates/platform/src/process.rs:256-357 | observing only snapshots of a covering id set gives the same result and ledger as observing all |
| ScanRefinement.CandidatesCover | crates/platform/src/macos_process_observation.rs:58-86 | the candidates cover everything the observer looks at, whatever paths are unreadable |
| ScanRefinement.NarrowScanRefinesFullScan | crates/platform/src/macos_process_observation.rs:51-104 | one frame: same list, same error, same root, same ledger as with the full scan |
| ScanRefinement.NarrowRunRefinesFullRun | crates/platform/src/macos_process_observation.rs:51-104 | the two observers cannot be told apart over any sequence of frames from any ledger |
| ScanRefinement.ObserveNarrowly | crates/platform/src/process.rs:243-254 | the macOS observer that scans narrowly meets the specification of the full scan |
| RemoteLifecycle.SelectTree | crates/shim/src/remote_lifecycle.rs:316-333 | the Shim's closure is the root followed by the supervisor's descendants |
| RemoteLifecycle.SortedRootIsLast | crates/shim/src/remote_lifecycle.rs:340-342 | the stable sort moves the root from first to last and keeps the order of the others |
| RemoteLifecycle.SendInOrder | crates/shim/src/remote_lifecycle.rs:343-345 | signals go out in order up to and including the first one refused |
| RemoteLifecycle.ForcedInOrder | crates/shim/src/remote_lifecycle.rs:350-354 | the forced pass is for the processes found running, and only those, in the order of the tree |
| RemoteLifecycle.TerminateTree | crates/shim/src/remote_lifecycle.rs:340-363 | every other process before the root in both passes, force only for processes found running when they are reached and only after the whole polite pass, and success exactly when nothing survives |
| BrokerLeases.SingleWriter | packages/harness-broker/src/server.ts:353-383 | in every reachable state each live record with a writer key owns it, no two share a native session, and no key is left behind |
| BrokerLeases.OwnerChangesThroughAbsence | packages/harness-broker/src/server.ts:421-434 | no step of any run hands a native key from one owner to another |
| BrokerLeases.OneProvisionalHolder | packages/harness-broker/src/server.ts:510-532 | at most one create or record holds the provisional lease, and a record marked with it is the holder |
| BrokerLeases.OpenAdmittedExactly | packages/harness-broker/src/server.ts:483-524 | an open is admitted if and only if its source is of this harness and unowned and no provisional lease is held |
| BrokerLeases.FinishOpenInv | packages/harness-broker/src/server.ts:533-638 | a finished open, accepted or released on any of its error paths, keeps every lease accounted for |
| BrokerLeases.ForwardInv | packages/harness-broker/src/server.ts:306-419 | late identities, faults and stale forwarders keep every lease accounted for |
| BrokerLeases.FinishCloseInv | packages/harness-broker/src/server.ts:421-434 | a finished close gives back exactly the record's own key and lease |
| BrokerLeases.LoseConnectionInv | packages/harness-broker/src/server.ts:897-905 | a lost connection starts closing all its sessions without freeing a key early |
| BrokerLeases.FinishReopenInv | packages/harness-broker/src/server.ts:732-826 | a reopen, even of a record closed meanwhile, keeps every lease accounted for |
| BrokerLeases.RunInv | packages/harness-broker/src/server.ts:298-434 | owners and lease holders are exactly the live records and opens entitled to them, in every run |
| BrokerSessions.OpenAnswered | packages/harness-broker/src/server.ts:483-524 | why an open is refused, without a trace, and the reservation of an admitted one |
| BrokerSessions.OpenEndsExactly | packages/harness-broker/src/server.ts:533-638 | a session is registered exactly if the harness opened one, the connection is still there, its identity is as asked for and nobody else is entitled to that; nothing else is touched |
| BrokerSessions.OutputDoesExactly | packages/harness-broker/src/server.ts:319-401 | an output of the session's own forwarder faults it, identifies it or leaves it alone, exactly when; one of a retired forwarder does nothing |
| BrokerSessions.CloseBeginsExactly | packages/harness-broker/src/server.ts:421-427 | a session starts to close once, and its forwarder is retired |
| BrokerSessions.CloseEndsExactly | packages/harness-broker/src/server.ts:428-434 | an ended close leaves a session that is gone and waits for nothing |
| BrokerSessions.LostExactly | packages/harness-broker/src/server.ts:897-905 | a lost connection closes exactly its own registered sessions |
| BrokerSessions.ServerClosesExactly | packages/harness-broker/src/server.ts:926-930 | closing the server retires the forwarder of every registered session, once |
| BrokerSessions.ReopensExactly | packages/harness-broker/src/server.ts:732-825 | which sessions are reopened, and that the new native session takes over exactly if it comes with the same identity |
| BrokerRequests.AdmittedExactly | packages/harness-broker/src/server.ts:639-664 | in every reachable state a command goes through if and only if it comes from the owner and the session has an identity, or has faulted, or the command is its first unfailed turn or belongs to that |
| BrokerRequests.AdmittedIsGiven | packages/harness-broker/src/server.ts:664-685 | an admitted command is open under a new ticket as it was sent, a refused one leaves no trace |
| BrokerRequests.AnswerIsKept | packages/harness-broker/src/server.ts:686-693 | its answer is kept once, and no other command is touched |
| BrokerRequests.InvokedExactly | packages/harness-broker/src/server.ts:720-731 | a harness command of the owner is handed on whatever is known of the session, if it has commands |
| BrokerRequests.InvocationAnswered | packages/harness-broker/src/server.ts:724-731 | and answered alone |
| StrandedSessions.ReopenStrandsExactly | packages/harness-broker/src/server.ts:732-826 | a reopen installs a native session whose key its record does not own if and only if a close of the record finished while it was being reopened |
| StrandedSessions.TwoSessionsOfOneKey | packages/harness-broker/src/server.ts:816-825 | a concrete run that ends with two live native sessions of one key, one in a closed record |
| BootstrapGate.UnidentifiedSessionIsGated | packages/harness-broker/src/server.ts:639-693 | an unidentified live session is gated if and only if it has not faulted; while gated `session.execute` gave it at most one unfailed turn, every cancel was of a turn given before, every response came after one, and no option changed |
| BootstrapGate.BootstrapOnlyUnlessFaulted | packages/harness-broker/src/server.ts:643-731 | in every reachable state the owner of an unidentified session has exactly its bootstrap turn, that turn's cancel and responses admitted by `session.execute` if and only if the session has not faulted; on both routes it is these and every invocation of a harness command |
| BootstrapGate.TurnsGivenExactly | packages/harness-broker/src/server.ts:639-731 | in every reachable state an unidentified session that has not faulted was given, on both routes, exactly its unfailed invocations and one turn more if it remembers a bootstrap turn |
| BootstrapGate.InvokedSessionTakesTwoTurns | packages/harness-broker/src/server.ts:720-731 | a concrete run in which a gated session that has not faulted is given two unfailed turns |
| BootstrapGate.FaultedUnidentifiedSessionTakesTwoTurns | packages/harness-broker/src/server.ts:298-304 | a concrete run in which a faulted unidentified session is sent two unfailed turns |
| BootstrapGate.RunGateInv | packages/harness-broker/src/server.ts:639-693 | over any run, what `session.execute` gave a gated session: one unfailed turn it remembers, cancels and responses only after their turn |
| BrokerServer.HarnessBroker.BeginOpen | packages/harness-broker/src/server.ts:483-524 | reserves the source key and the provisional lease, or changes nothing |
| BrokerServer.HarnessBroker.FinishOpen | packages/harness-broker/src/server.ts:533-638 | registers the record under its native key or releases both reservations |
| BrokerServer.HarnessBroker.ReleaseOpenReservations | packages/harness-broker/src/server.ts:525-532 | gives back only what this open reserved |
| BrokerServer.HarnessBroker.ReleaseProvisionalWriter | packages/harness-broker/src/server.ts:298-304 | frees the lease only if the record is its holder |
| BrokerServer.HarnessBroker.ForwardOutput | packages/harness-broker/src/server.ts:306-419 | a current forwarder's output claims the key, faults the record or leaves it alone; a stale one does nothing |
| BrokerServer.HarnessBroker.FinishCloseRecord | packages/harness-broker/src/server.ts:428-434 | the part of a close after its awaits |
| BrokerServer.HarnessBroker.OnConnectionLost | packages/harness-broker/src/server.ts:897-905 | every session of the connection starts closing |
| BrokerServer.HarnessBroker.CloseNow | packages/harness-broker/src/server.ts:926-930 | closing the server retires every registered session's forwarder, once |
| BrokerServer.HarnessBroker.BeginExecute | packages/harness-broker/src/server.ts:639-664 | admits a command or refuses it at the gate, and remembers the bootstrap turn |
| BrokerServer.HarnessBroker.FinishExecute | packages/harness-broker/src/server.ts:686-693 | a failed bootstrap turn frees the gate for another |
| BrokerServer.HarnessBroker.BeginInvoke | packages/harness-broker/src/server.ts:720-731 | a harness command of the owner goes to the native session whatever the gate says |
| BrokerServer.HarnessBroker.FinishInvoke | packages/harness-broker/src/server.ts:724-731 | its answer touches no record |
| BrokerServer.HarnessBroker.BeginReopen | packages/harness-broker/src/server.ts:732-751 | started exactly for a faulted session of its owner with a native identity that is not being reopened, and its forwarder is retired |
| BrokerServer.HarnessBroker.FinishReopen | packages/harness-broker/src/server.ts:761-825 | the new session replaces the old under a new generation exactly if it comes with the same native identity |
| Framing.NewlineIndex | packages/harness-broker/src/framing.ts:28-28 | the first newline, or the length if there is none |
| Framing.FrameReader.OnData | packages/harness-broker/src/framing.ts:21-50 | one chunk: the values delivered, the bytes kept, and whether the reader gave up |
| Framing.DrainInTwo | packages/harness-broker/src/framing.ts:28-49 | draining what arrived and then the rest is draining it all at once |
| Framing.ChunkIndependence | packages/harness-broker/src/framing.ts:20-50 | however the bytes are cut up, the reader is where one drain of all of them would be |
| Framing.DrainWire | packages/harness-broker/src/framing.ts:5-13 | whole frames followed by an unfinished line give every value and leave the line |
| Framing.RoundTrip | packages/harness-broker/src/framing.ts:5-50 | any chunking of a written stream delivers exactly the completed values in order and keeps exactly the unfinished frame |
| Framing.RejectedExactly | packages/harness-broker/src/framing.ts:22-27 | a chunk is refused if and only if it and the unfinished line before it exceed the bound together |
| Framing.SmallChunksNeverRejected | packages/harness-broker/src/framing.ts:22-27 | frames of at most F bytes in chunks of at most C bytes are never refused when F + C - 1 fits the bound |
| Framing.CoalescedFramesRejected | packages/harness-broker/src/framing.ts:7-27 | two writable frames in one chunk beyond the bound are refused, one after the other they are not |
| Framing.SmallChunkBoundIsTight | packages/harness-broker/src/framing.ts:7-27 | a frame of F bytes in any pieces, the last of C bytes carrying its newline and the start of the next frame, is refused as soon as F + C - 1 exceeds the bound, although both frames fit it |
| BrokerProtocol.SequenceChecksNeverFire | packages/harness-broker/src/client.ts:315-351 | in no run does either side's sequence check fire or a response name an unknown request |
| BrokerProtocol.FirstServerFrameIsReady | packages/harness-broker/src/server.ts:845-864 | the first frame the client is sent answers its hello, and no later one does |
| BrokerProtocol.EveryRequestSettlesOnce | packages/harness-broker/src/client.ts:282-371 | a request is pending or settled, never twice, with the server's answer to its own id or the connection's failure, and nothing stays pending once nothing is in flight |
| BrokerProtocol.PendingBounded | packages/harness-broker/src/client.ts:282-286 | the client's limit on pending requests holds in every run |
| BrokerProtocol.OverflowExactly | packages/harness-broker/src/server.ts:832-893 | the next frame of a client within its limit overflows the server's frame queue if and only if an answer, to the hello or to a request, is being written and the 31 other places are taken |
| BrokerRuns.OverflowReached | packages/harness-broker/src/server.ts:835-889 | a run in which the 32 requests of such a client overflow the queue behind the hello's answer |
| BrokerRuns.EveryRequestCanSettle | packages/harness-broker/src/client.ts:282-356 | from every reachable state of a standing connection some continuation without new requests answers all that was asked |
| BrokerFrames.ClientTakesExactly | packages/harness-broker/src/client.ts:315-356 | what any frame does to a client in any state: the number it must carry, what it settles, and when it fails the connection |
| BrokerFrames.ServerTakesExactly | packages/harness-broker/src/server.ts:842-874 | which frame a server in any state answers, serves or closes the socket for |
| BrokerFrames.LosesExactly | packages/harness-broker/src/client.ts:358-371 | a lost connection rejects every waiter of the client once, and closes the server |
| BrokerFrames.SettledForGood | packages/harness-broker/src/client.ts:340-371 | no later step of any run changes what a caller was told |
| BrokerTranscript.NothingSaidIsLost | packages/harness-broker/src/server.ts:281-294 | what the client has heard and what is on its way is, in order and numbered from one, exactly the hello's answer, the answers and every output reported while the client was known and the socket open |
| BrokerTranscript.NothingAskedIsLost | packages/harness-broker/src/client.ts:282-306 | what the server has begun to serve and what is on its way is, in order, exactly what the client asked whenever it was allowed to |
| BrokerProtocol.BrokerConnection.SendRequest | packages/harness-broker/src/client.ts:282-306 | the next number and a new waiter, or a refusal that changes nothing |
| BrokerProtocol.BrokerConnection.OnFrame | packages/harness-broker/src/client.ts:315-356 | one frame settles the waiter it names, or fails the connection |
| BrokerProtocol.BrokerConnection.OnFailure | packages/harness-broker/src/client.ts:358-371 | every waiter is rejected, once |
| BrokerProtocol.ConnectionState.OnFrame | packages/harness-broker/src/server.ts:832-841 | a frame is queued, or the connection is closed when it is one too many |
| BrokerProtocol.ConnectionState.StartNext | packages/harness-broker/src/server.ts:842-874 | the hello first, then requests numbered without a gap; either stays counted |
| BrokerProtocol.ConnectionState.OnWritten | packages/harness-broker/src/server.ts:887-889 | a frame leaves the count only once its answer has been written |
| TurnSteering.OnePendingSteerPerThread | packages/host-runtime/src/external-turn-steering.ts:104-158 | in every reachable state at most one steer per thread is under way, and it is the pending one |
| TurnSteering.StartsOnlyWhenAllowed | packages/host-runtime/src/external-turn-steering.ts:219-246 | a steer starts at most once, only after its cancel was accepted and the outcome it received, a published non-failed one of its own turn, with no failure recorded, the connection open and no turn active; and when it resumes with that outcome it starts if and only if all this holds |
| SteeringSteps.CallAnswered | packages/host-runtime/src/external-turn-steering.ts:104-137 | in every reachable state, exactly which calls are accepted, and why each other one is not |
| SteeringSteps.AcceptedSteer | packages/host-runtime/src/external-turn-steering.ts:128-152 | an accepted call is one more steer waiting for its cancel, and one more receipt owed if it has a message |
| SteeringSteps.StepsExactly | packages/host-runtime/src/external-turn-steering.ts:160-252 | every step of every steer: what it learns, when it fails, when it starts, and that a start ends as success if and only if it succeeded; other steers are left alone |
| SteeringSteps.ReceiptsExactly | packages/host-runtime/src/external-turn-steering.ts:139-152 | a steer that is over settles or forgets its own receipt, once, and no other that is still owed |
| SteeringEnds.EverySteerCanEnd | packages/host-runtime/src/external-turn-steering.ts:188-252 | from every reachable state timers, continuations and start answers alone can end every steer, leave nothing pending and settle every kept receipt |
| TurnSteering.EvictExact | packages/host-runtime/src/external-turn-steering.ts:142-147 | eviction keeps every unsettled receipt, drops only the oldest settled ones, and keeps the bound unless unsettled receipts alone exceed it |
| TurnSteering.RepeatJoinsFirstResult | packages/host-runtime/src/external-turn-steering.ts:113-126 | while the connection is open and a steer unsettled, repeating its identity with the same input joins it and any other input is refused |
| TurnSteering.RepeatJoinsKeptReceipt | packages/host-runtime/src/external-turn-steering.ts:113-126 | a kept receipt names the one steer it was made for, and a settled one succeeded |
| TurnSteering.ExternalTurnSteering.RunSteer | packages/host-runtime/src/external-turn-steering.ts:104-158 | admission, joining and each refusal, in that order |
| TurnSteering.ExternalTurnSteering.OnTerminal | packages/host-runtime/src/external-turn-steering.ts:160-163 | only the pending steer of that turn learns the outcome, and only the first one |
| TurnSteering.ExternalTurnSteering.OnInterrupt | packages/host-runtime/src/external-turn-steering.ts:165-176 | only the pending steer of that turn fails |
| TurnSteering.ExternalTurnSteering.CloseAll | packages/host-runtime/src/external-turn-steering.ts:178-186 | every pending steer fails and all receipts go |
| TurnSteering.ExternalTurnSteering.OnTerminalResumed | packages/host-runtime/src/external-turn-steering.ts:225-246 | the checks between the terminal outcome and the start |
| TurnSteering.ExternalTurnSteering.Finish | packages/host-runtime/src/external-turn-steering.ts:247-250 | the pending entry goes only if it is the steer's own |
| TurnSteering.ExternalTurnSteering.OnReceiptResumed | packages/host-runtime/src/external-turn-steering.ts:139-152 | a success settles its receipt and evicts, a failure forgets it |
| RequestQueue.StartsExactlyInTurn | packages/host-runtime/src/desktop-request-queue.ts:10-18 | a waiting request may start if and only if every earlier request of its thread has settled, however those ended |
| RequestQueue.OneAtATimeInOrder | packages/host-runtime/src/desktop-request-queue.ts:10-18 | a request of a thread has started only if all earlier ones are over |
| RequestQueue.NothingPendingNothingKept | packages/host-runtime/src/desktop-request-queue.ts:18-26 | once nothing is pending no thread entry is kept and every request has settled |
| RequestQueue.DrainCoversEverything | packages/host-runtime/src/desktop-request-queue.ts:29-32 | with admission stopped, the settling of what was pending leaves nothing unsettled |
| QueueProgress.StepsExactly | packages/host-runtime/src/desktop-request-queue.ts:10-28 | in every reachable state a request starts when it has its turn, ends when it runs, and is forgotten only after it ended |
| QueueProgress.EveryRequestCanRun | packages/host-runtime/src/desktop-request-queue.ts:10-32 | from every reachable state every request can still be run to its end, and then nothing is kept |
| RequestQueue.DesktopRequestQueue.Run | packages/host-runtime/src/desktop-request-queue.ts:10-28 | the request is chained to the thread's newest and becomes it |
| RequestQueue.DesktopRequestQueue.OnCleanUp | packages/host-runtime/src/desktop-request-queue.ts:20-25 | the thread entry goes only if it is still this request's |
| IdleRelease.ClosingExcludesOperations | packages/host-runtime/src/external-thread-idle-release.ts:87-95 | in every reachable state a thread being closed has no unfinished runOperation task |
| IdleRelease.OperationCountExact | packages/host-runtime/src/external-thread-idle-release.ts:103-121 | a thread's count is the number of its unfinished tracked tasks and is absent exactly at zero |
| IdleRelease.OneReleasePerThread | packages/host-runtime/src/external-thread-idle-release.ts:193-214 | at most one release per thread is under way, and the thread is listed as closing exactly while it closes |
| IdleRelease.ClosingStartsOnlyAtRest | packages/host-runtime/src/external-thread-idle-release.ts:171-201 | a thread starts closing only when a queued release gets its turn, the current instance is at rest with no task unfinished, and the full timeout has passed since the history last shows it active |
| IdleRelease.RemovalNeedsConfirmedClose | packages/host-runtime/src/external-thread-idle-release.ts:216-253 | apart from the environment, a thread leaves the registry only at a confirmed close of its still-current instance with history and identity stored and no operation under way |
| IdleRelease.FailedReleaseIsFinal | packages/host-runtime/src/external-thread-idle-release.ts:247-249 | the failure mark stays, the instance is never released again, and it stays registered |
| IdleRelease.LastActiveExact | packages/host-runtime/src/external-thread-idle-release.ts:62-71 | the recorded activity of an instance is the time of the last event in the history that touched it |
| ReleaseOutcomes.MarksExact | packages/host-runtime/src/external-thread-idle-release.ts:216-253 | an instance is marked as failed if and only if in the history a close of it threw, ran out of time, or finished while it was not kept |
| ReleaseOutcomes.ChecksExactly | packages/host-runtime/src/external-thread-idle-release.ts:193-214 | a check schedules exactly the threads that are at rest, not closing and without a release under way, told from the history |
| ReleaseOutcomes.TurnTakenExactly | packages/host-runtime/src/external-thread-idle-release.ts:197-208 | a queued release closes its thread if and only if it is at rest when its turn comes |
| ReleaseOutcomes.CloseEndsExactly | packages/host-runtime/src/external-thread-idle-release.ts:223-253 | a close that threw or ran out of time marks its instance; one that finished takes the thread away if the instance was kept and marks it if not |
| ReleaseOutcomes.LeavesExactly | packages/host-runtime/src/external-thread-idle-release.ts:198-214 | after its close a release leaves the closing threads and then the scheduled ones |
| ReleaseOutcomes.FailedCloseIsTheLast | packages/host-runtime/src/external-thread-idle-release.ts:229-249 | after a close that fails, over every later run, the instance is never scheduled or closed again and stays registered |
| ReleaseOutcomes.TracksExactly | packages/host-runtime/src/external-thread-idle-release.ts:87-121 | an operation is under way exactly from its admission, an output always, until it ends |
| ReleaseOutcomes.SettingsExact | packages/host-runtime/src/external-thread-idle-release.ts:255-266 | settings take effect until the Host stops, and stopping or disabling ends all releasing |
| IdleRelease.ExternalThreadIdleRelease.RunOperation | packages/host-runtime/src/external-thread-idle-release.ts:88-95 | an operation is tracked exactly if the Host is not stopping and the thread is not closing |
| IdleRelease.ExternalThreadIdleRelease.OnOutput | packages/host-runtime/src/external-thread-idle-release.ts:98-101 | output is tracked even while the thread closes, and counts as activity |
| IdleRelease.ExternalThreadIdleRelease.OnTaskEnded | packages/host-runtime/src/external-thread-idle-release.ts:107-118 | the count goes down, and at zero the entry goes and the current instance is touched |
| IdleRelease.ExternalThreadIdleRelease.CheckAll | packages/host-runtime/src/external-thread-idle-release.ts:193-214 | each eligible thread without a scheduled release gets one |
| IdleRelease.ExternalThreadIdleRelease.OnReleaseStarted | packages/host-runtime/src/external-thread-idle-release.ts:198-202 | eligibility is decided again when the release gets its turn |
| IdleRelease.ExternalThreadIdleRelease.OnClosed | packages/host-runtime/src/external-thread-idle-release.ts:237-249 | which thread a finished close removes, or that it failed |
| QueuedRelease.ClosingHoldsTheQueue | packages/host-runtime/src/external-thread-idle-release.ts:197-208 | while a thread closes its release holds the thread's request queue: what was queued before is over, what was queued after waits |
| QueuedRelease.ClosingExcludesEverything | packages/host-runtime/src/external-thread-idle-release.ts:87-95 | while a thread closes neither an admitted operation nor a queued request of it is under way |
| MessageQueue.EverySubmissionInOnePlace | packages/host-runtime/src/external-thread-queue.ts:76-89 | every submission ever added is in exactly one place: one queue once, the Host's hands, started, deleted or cleared |
| MessageQueue.PlacesChangeOnlyAsAsked | packages/host-runtime/src/external-thread-queue.ts:124-186 | a submission changes place only by the operation that names it, or a take while it is the head, and started, deleted and cleared are final |
| MessageOrder.WaitingInOrder | packages/host-runtime/src/external-thread-queue.ts:82-182 | while nobody reorders a thread or takes past its head, and one message is in hand at a time, those waiting stand in the order they were added and the one in hand came before them |
| MessageOrder.HandedOutInOrder | packages/host-runtime/src/external-thread-queue.ts:161-182 | first in, first out: once a message was handed out no earlier one of its thread ever waits or is handed out again, failed starts included |
| MessageQueue.QueueBounded | packages/host-runtime/src/external-thread-queue.ts:82-87 | queued plus in hand never exceeds the capacity plus the most ever in hand at once |
| MessageQueue.ReorderPermutes | packages/host-runtime/src/external-thread-queue.ts:137-158 | an accepted reorder is a permutation of the queue in exactly the order asked for |
| MessageQueue.TakeThenRestore | packages/host-runtime/src/external-thread-queue.ts:161-182 | taking the head and putting it back changes nothing |
| MessageQueue.UpdateExact | packages/host-runtime/src/external-thread-queue.ts:116-122 | an update is accepted exactly for a queued id with text and changes the content of that submission alone |
| MessageQueue.AddStep | packages/host-runtime/src/external-thread-queue.ts:82-88 | an accepted submission goes to the end of its thread's queue, below the capacity, and no other queue changes |
| MessageSteps.AddsExactly | packages/host-runtime/src/external-thread-queue.ts:76-89 | what a submission needs, which refusal it gets for the first thing it lacks, and that it joins the end |
| MessageSteps.UpdatesExactly | packages/host-runtime/src/external-thread-queue.ts:116-122 | an update changes the content of the queued submission in its place, or is refused for the first thing it lacks |
| MessageSteps.DeletesExactly | packages/host-runtime/src/external-thread-queue.ts:124-135 | the named submission goes, the others keep their order, and the answer says whether it was there |
| MessageSteps.ReordersExactly | packages/host-runtime/src/external-thread-queue.ts:137-158 | accepted exactly if every queued submission is named once, and then in that order |
| MessageSteps.TakesExactly | packages/host-runtime/src/external-thread-queue.ts:161-177 | the head, or the named submission wherever it stands; the others keep their order |
| MessageSteps.RestoresAndClears | packages/host-runtime/src/external-thread-queue.ts:180-186 | what is put back is the head again, and a cleared thread has nothing queued |
| MessageSteps.PlacesChangeAsAsked | packages/host-runtime/src/external-thread-queue.ts:124-186 | over runs, what is asked of a submission happens to it |
| MessageSteps.AddedOrNot | packages/host-runtime/src/external-thread-queue.ts:76-89 | over runs, an accepted submission waits in its thread's queue, and one that is not adds nothing |
| MessageQueue.ExternalThreadQueue.AddSubmission | packages/host-runtime/src/external-thread-queue.ts:76-89 | the refusals in order, and the appended submission |
| MessageQueue.ExternalThreadQueue.UpdateSubmission | packages/host-runtime/src/external-thread-queue.ts:116-122 | refused or the content replaced in place |
| MessageQueue.ExternalThreadQueue.DeleteSubmission | packages/host-runtime/src/external-thread-queue.ts:124-135 | the named submission is spliced out, an emptied queue leaves the map |
| MessageQueue.ExternalThreadQueue.ReorderSubmissions | packages/host-runtime/src/external-thread-queue.ts:137-158 | refused unless every queued id is named exactly once |
| MessageQueue.ExternalThreadQueue.TakeSubmission | packages/host-runtime/src/external-thread-queue.ts:161-177 | the head or the named submission leaves the queue |
| MessageQueue.ExternalThreadQueue.RestoreSubmission | packages/host-runtime/src/external-thread-queue.ts:180-182 | the submission is the head again |
| OutputChannel.KthReaderGetsKthValue | packages/harness-adapter/src/output-channel.ts:22-42 | over every interleaving the k-th reader gets the k-th accepted value, the end exactly when fewer were accepted before it, and otherwise waits |
| OutputChannel.NeverBothWaiting | packages/harness-adapter/src/output-channel.ts:22-42 | readers never wait while values are kept, and what is kept is what no reader has had |
| OutputChannel.EmitAcceptedExactly | packages/harness-adapter/src/output-channel.ts:22-28 | emit answers true exactly when the value is one readers will get |
| OutputChannel.HarnessOutputChannel.EmitOutput | packages/harness-adapter/src/output-channel.ts:22-28 | the oldest waiting reader gets the value, or it is kept |
| OutputChannel.HarnessOutputChannel.Finish | packages/harness-adapter/src/output-channel.ts:30-35 | every waiting reader is told the end |
| OutputChannel.HarnessOutputChannel.ReadNext | packages/harness-adapter/src/output-channel.ts:37-42 | the oldest kept value, the end, or a place among those waiting |
| HistoryPaging.AscendingWalk | packages/host-runtime/src/external-thread-history.ts:94-129 | following nextCursor over a growing history under any limits is never refused, ends within as many pages as there are matches, and delivers exactly the matching history as of the last page |
| HistoryPaging.DescendingWalk | packages/host-runtime/src/external-thread-history.ts:94-129 | newest first it delivers exactly the matching history as of the first page, whatever is appended in between |
| HistoryPaging.BackwardsFromAscendingPage | packages/host-runtime/src/external-thread-history.ts:123-128 | from backwardsCursor a descending walk delivers exactly the matches up to and including the page's first, even if the history has grown since that page |
| HistoryPaging.BackwardsFromDescendingPage | packages/host-runtime/src/external-thread-history.ts:123-128 | from a descending page, an ascending walk delivers exactly the matches from the page's first on, however the history has grown since |
| HistoryPaging.PageExactly | packages/host-runtime/src/external-thread-history.ts:94-129 | a page holds the first matches from the cursor's place on, 25 or between 1 and 100 as asked, announces more exactly when some are left, and its cursors stand behind its last row and on its first |
| HistoryPaging.StartExactly | packages/host-runtime/src/external-thread-history.ts:105-112 | a cursor points at the first entry it names, or behind it |
| HistoryPaging.RefusedExactly | packages/host-runtime/src/external-thread-history.ts:94-118 | which direction, cursor and limit are refused |
| HistoryPaging.AnchorGoneExactly | packages/host-runtime/src/external-thread-history.ts:105-115 | a cursor is refused exactly when no entry carries its anchor, in either direction |
| HistoryPaging.ItemKeysDistinct | packages/host-runtime/src/external-thread-history.ts:168-178 | item keys are unique over the whole thread when item ids are unique within each turn |
| LiveHistory.PageByKey | packages/host-runtime/src/external-thread-history.ts:94-129 | a page depends on entries only through their keys: read as keys it is the page of the keys, if the filter can be told from the keys of these entries |
| LiveHistory.PageDeliversItsVersion | packages/host-runtime/src/external-thread-history.ts:120-121 | what a page adds to a walk are matching entries of the history as that page saw it |
| LiveHistory.TurnFilterByKey | packages/host-runtime/src/external-thread-history.ts:192-192 | the filter of an item listing can be told from the keys of a thread's items |
| LiveHistory.ItemListing | packages/host-runtime/src/external-thread-history.ts:180-201 | listing the items of a thread or of one turn of it, while turns are rewritten and added, is never refused and delivers by key exactly those items as of the last page |
| LiveHistory.ItemListingNewestFirst | packages/host-runtime/src/external-thread-history.ts:180-201 | newest first it delivers by key exactly the items asked for as of its first page |
| LiveHistory.ItemListingTurnedRound | packages/host-runtime/src/external-thread-history.ts:123-128 | turning round on a page of items delivers by key exactly those asked for up to the page's first, however the thread has developed |
| LiveHistory.AscendingLiveWalk | packages/host-runtime/src/external-thread-history.ts:94-129 | when entries are also rewritten in place, an ascending walk delivers by key exactly the matching history as of its last page |
| LiveHistory.DescendingLiveWalk | packages/host-runtime/src/external-thread-history.ts:94-129 | and a descending one exactly the matching history as of its first page |
| LiveHistory.BackwardsOverLiveHistory | packages/host-runtime/src/external-thread-history.ts:123-128 | turning round on a page delivers by key exactly the matches up to its first, whatever was added or rewritten since |
| LiveHistory.ItemHistoryGrows | packages/host-runtime/src/external-thread-history.ts:168-178 | items rewritten in place, a last turn that gains items and a thread that gains turns only extend the item keys |
| ThreadList.CompareSwaps | packages/host-runtime/src/external-thread-list.ts:53-65 | swapping two rows swaps the sign of the comparison |
| ThreadList.CompareTransitive | packages/host-runtime/src/external-thread-list.ts:53-65 | the comparison and its ties are transitive, in either direction |
| ThreadList.TiesExactly | packages/host-runtime/src/external-thread-list.ts:53-65 | rows tie exactly when both are official at one time or external with one time and id |
| ThreadList.ComesFirstExactly | packages/host-runtime/src/external-thread-list.ts:48-65 | ascending the older row comes first and descending the newer one; at one time external before official, and of two external rows the smaller id |
| ThreadList.SortStrict | packages/host-runtime/src/external-thread-list.ts:225-225 | sorted external rows with distinct ids are strictly ordered, and are the same rows |
| ThreadList.SortedUnique | packages/host-runtime/src/external-thread-list.ts:225-225 | there is only one such order, so any sort gives it |
| ThreadList.AfterRow | packages/host-runtime/src/external-thread-list.ts:67-81 | what lies after a row's anchor is exactly the rest of the sorted list |
| ThreadList.PagingIsExact | packages/host-runtime/src/external-thread-list.ts:194-235 | listing after the last row until no more are announced yields the whole sorted list with no gap or repeat, within as many pages as rows |
| SessionTree.SessionTreeId | packages/host-runtime/src/external-thread-repository.ts:379-393 | the root of the record's chain, and an error exactly when the chain is cyclic |
| SessionTree.RootFromParent | packages/host-runtime/src/external-thread-repository.ts:386-390 | a thread belongs to the session of the thread it is a subagent of, else of the one it was forked from, else to its own |
| SessionTree.Resolve | packages/host-runtime/src/external-thread-list.ts:162-188 | one record resolved with the memo: every remembered answer is that record's root |
| SessionTree.ResolveExternalSessionTreeIds | packages/host-runtime/src/external-thread-list.ts:156-192 | every record gets the root of its own chain, the one the plain walk finds, and it fails exactly when some chain is cyclic |
| RecordChain.RootOrCycle | packages/host-runtime/src/external-thread-repository.ts:382-391 | over any finite store a chain has a root or is cyclic, never both |
| RecordChain.RootUnique | packages/host-runtime/src/external-thread-repository.ts:379-393 | a chain has at most one root, so the two walks agree |
| ThreadFilter.BelongsToCurrentSession | packages/host-runtime/src/external-thread-list.ts:91-107 | true exactly for records whose chain of subagent parents ends, every link bound to one native session |
| ThreadFilter.OwnedThroughParent | packages/host-runtime/src/external-thread-list.ts:91-107 | a subagent is owned while its parent is stored, ready, of its harness and session, and owned itself |
| ThreadFilter.DescendsFrom | packages/host-runtime/src/external-thread-list.ts:118-127 | true exactly for records with that thread somewhere up their chain of subagent parents |
| Rollback.CommittedRollback | packages/host-runtime/src/external-thread-rollback.ts:221-402 | a committed rollback leaves an exact, strictly shorter prefix of the stored host turns, of exactly the computed length, and touches no other thread |
| Rollback.CommittedFork | packages/host-runtime/src/external-thread-repository.ts:259-333 | the stored record after a fork rollback: kept host ids over the snapshot's native turns, the new session and the selected fork turn |
| Rollback.CommittedLastTurn | packages/host-runtime/src/external-thread-repository.ts:335-377 | the stored record after dropping the last turn, with its fork turn unchanged |
| Rollback.ForkRollbackLineage | packages/host-runtime/src/external-thread-repository.ts:276-328 | the thread again has exactly the turns up to its fork turn if and only if the selected source turn has no earlier duplicate |
| Rollback.ValidSourceKeepsLineage | packages/mapping-store/src/records.ts:90-106 | unique turn ids make that hold always |
| RollbackExact.LastTurnCommitsExactly | packages/host-runtime/src/external-thread-rollback.ts:105-215 | exactly when dropping the last turn goes through |
| RollbackExact.ForkCommitsExactly | packages/host-runtime/src/external-thread-rollback.ts:221-380 | exactly when a rollback by fork goes through, and how many turns it leaves: a turn the source has begun since counts among those to drop |
| RollbackExact.UnchangedExactly | packages/host-runtime/src/external-thread-rollback.ts:306-312 | exactly when nothing is to be done |
| RollbackExact.RefusedForAReason | packages/host-runtime/src/external-thread-rollback.ts:221-380 | no rollback is refused for a reason that does not hold |
| RollbackGuards.ValidExactly | packages/mapping-store/src/records.ts:72-140 | what a record must be to be stored |
| RollbackGuards.ReplacesExactly | packages/mapping-store/src/mapping-store.ts:553-581 | exactly when the store takes a shorter session in place of the one that was read |
| RollbackGuards.ReplacesAfterLastTurnExactly | packages/mapping-store/src/mapping-store.ts:583-608 | the same for a session with one turn less |
| RollbackGuards.CommitAsksExactly | packages/host-runtime/src/external-thread-repository.ts:259-333 | what the repository asks of a fork rollback on its own |
| RollbackGuards.CommitLastTurnAsksExactly | packages/host-runtime/src/external-thread-repository.ts:335-377 | and of dropping the last turn |
| RollbackGuards.MergesExactly | packages/mapping-store/src/mapping-store.ts:764-799 | an unknown turn goes to the end, a known one may learn its checkpoint, a contradiction is refused |
| RollbackGuards.PersistsExactly | packages/host-runtime/src/external-thread-repository.ts:198-222 | exactly when a turn is persisted |
| RollbackGuards.ReconcilesExactly | packages/mapping-store/src/mapping-store.ts:620-664 | exactly when the turns a refresh found replace the stored ones |
| RollbackLineage.PersistedTurn | packages/host-runtime/src/external-thread-repository.ts:198-222 | a persisted turn of the live session goes to the end of the stored turns or is one of them, and no other thread changes |
| RollbackLineage.ReconciledTurns | packages/mapping-store/src/mapping-store.ts:620-664 | what a refresh found replaces the stored turns and nothing else, in a valid record of the next revision |
| RollbackLineage.CapableExactlyInBalance | packages/host-runtime/src/external-thread-rollback.ts:293-305 | over any run of rollbacks, new turns and refreshes of the thread and of its source, the thread stays rollback-capable if and only if the source still has the fork turn and the thread has gained as many turns as it has dropped |
| RollbackLineage.OriginalTurnsExactly | packages/host-runtime/src/external-thread-repository.ts:298-315 | over such a run, a host turn is the one forked at its place if and only if it was there all the time |
| RollbackLineage.ForkRollbackMeaning | packages/host-runtime/src/external-thread-repository.ts:259-333 | a fork rollback, whichever version of the source it read, commits only in balance and keeps it; it copies the source turns the thread was forked from, its kept turns refer to these copies and are the turns forked from them if and only if it keeps no more than were there all the time; the thread is rollback-capable again if and only if the source still has the selected turn |
| RollbackRuns.LastTurnRollbackEndsLineage | packages/host-runtime/src/external-thread-repository.ts:366-372 | a concrete thread that could be rolled back by fork and, after one committed last-turn rollback, no longer can |
| RollbackRuns.GainedTurnsRestoreLineage | packages/host-runtime/src/external-thread-rollback.ts:297-305 | the same thread can again after dropping two turns and gaining two |
| RollbackRuns.GainedTurnBecomesSourceTurn | packages/host-runtime/src/external-thread-rollback.ts:297-326 | and a fork rollback of it then maps a turn it gained onto the copy of the source's second turn |
| RollbackRuns.SourceRollbackEndsLineage | packages/host-runtime/src/app-server-host.ts:2809-2817 | a concrete rollback of the source takes the fork turn with it, and the untouched thread can no longer be rolled back by fork |
| RollbackRuns.StaleForkEndsLineage | packages/host-runtime/src/external-thread-repository.ts:259-333 | a concrete fork rollback that read the source before two rollbacks of it still commits, and leaves a fork turn the source no longer has |
| Rollback.IncapableIsRefused | packages/host-runtime/src/external-thread-rollback.ts:297-305 | without that lineage a fork rollback is refused whatever the adapter answers |
| Snapshots.MergeReadonlySnapshot | packages/host-runtime/src/external-thread-runtime.ts:98-136 | the loops over turns compute the specified merge |
| Snapshots.MergeTurnItems | packages/host-runtime/src/external-thread-runtime.ts:110-118 | the loops over items compute the specified merge |
| Snapshots.MergeExtends | packages/host-runtime/src/external-thread-runtime.ts:98-136 | one read removes or moves no turn and no item |
| Snapshots.ReadsExtend | packages/host-runtime/src/external-thread-runtime.ts:168-173 | over any number of reads every later result extends every earlier one |
| Snapshots.MergeInOrder | packages/host-runtime/src/external-thread-runtime.ts:129-135 | what joins the result joins it at the end in the order of the new snapshot, and its state is the newest one known |
| Snapshots.LastWordCounts | packages/host-runtime/src/external-thread-runtime.ts:102-128 | if a snapshot names a turn or an item twice its last word counts, and known items keep their places |
| Snapshots.MergeWellFormed | packages/host-runtime/src/external-thread-runtime.ts:98-136 | turn keys and item ids stay unique |
| Snapshots.MergedItemsExact | packages/host-runtime/src/external-thread-runtime.ts:110-118 | an item is in the result exactly if the update has it or it was known and the update does not mention its id |
| Snapshots.MergeReflectsUpdate | packages/host-runtime/src/external-thread-runtime.ts:119-131 | every turn of the new snapshot is reflected in the result with all its items |
| Snapshots.MergeRetainsKnown | packages/host-runtime/src/external-thread-runtime.ts:104-128 | every known turn keeps its place and what the update does not say about it |
| Snapshots.MergeIdempotent | packages/host-runtime/src/external-thread-runtime.ts:98-136 | merging one snapshot twice is merging it once, if its own keys are unique |
| Snapshots.ReadonlySnapshotSession.ReadSnapshot | packages/host-runtime/src/external-thread-runtime.ts:168-173 | a failed read changes nothing, a successful one returns what is now known |

## Left out

- Reading /proc, libproc, pidfds and delivering signals: snapshots, path reads and refused signals are inputs. Path reads are taken to be the same for every read of one PID within a frame.
- The deadlines and waiting loops of `terminate_tree`: what still runs after each wait is an input.
- `matching_root`, listener and argument checks of the Shim: one-pass checks.
- BrokerLeases.SingleWriter: is about records and the writer map, not about live native handles; StrandedSessions says when a reopen leaves one that the map does not know.
- BrokerLeases.RunInv: session selections, client tools, environments and metadata carried along with a record are not modelled, nor the closing of a native handle after a refused open.
- BootstrapGate.TurnsGivenExactly: `session.readSnapshot`, `session.refreshUsage` and `session.commands.list` give the native session no turn and are not modelled.
- Framing.FrameReader.OnData: an exception thrown by the frame handler is not modelled, only one thrown by the parser; the reader's single error is kept as "gave up".
- BrokerProtocol.EveryRequestSettlesOnce: assumes no request timeout and no frame over the size bound, whose counter would advance without a frame; tokens, generations and client-tool frames are taken as valid.
- Sockets, descriptor publication, permissions and authentication of the broker: an in-order byte channel to the right peer is assumed.
- TurnSteering.StartsOnlyWhenAllowed: what `start` itself does, and parsing of steering input, are not modelled; the failed outcome of a start is one event.
- RequestQueue: the value a request resolves to; only whether it settled matters to the order.
- IdleRelease: `list`, `waitForClose`, `drain`, `failure` and the interval timer; a check may happen at any time. The outputs awaited by a close are part of its single outcome.
- MessageQueue: offset paging of `list` and the extraction of text from input, which is either a text or absent; identifiers are issued fresh.
- OutputChannel: the check for a second consumer, and `undefined` as an emitted value, which the source cannot tell from an empty buffer.
- HistoryPaging: the per-turn items view and the JSON text of cursors; entries without a stable id.
- ThreadList.PagingIsExact: starts from the rows that match a query; filters other than the two parent walks in ThreadFilter (archive state, directories, providers, kinds, search text, pins) are one-pass checks. Merging with official rows is not modelled.
- SessionTree.ResolveExternalSessionTreeIds: requires distinct record ids, which the store guarantees by keying records by id.
- Rollback.CommittedRollback: refreshing the records before planning, restoring and comparing the configuration and closing the new session on an error are inputs or omitted; the store's cross-record checks and file write are one flag.
- RollbackLineage.CapableExactlyInBalance: a refresh that finds known turns in another order, or fewer of them with known ones behind, is not an event of the run, nor is the removal of a thread; new host turn ids are taken to be fresh, as random ids are.
- Snapshots: explicitly undefined optional fields, and turn projection.
- `app-server-host.ts`, harness discovery, proxy handling, account and usage views, launch services: request routing, operating-system calls and finite tables.
