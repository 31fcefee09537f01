# KVM-RS verification

A Dafny model of the parts of KVM-RS whose correctness is not visible from one function body: the
concurrent protocols of the desktop front end and the server, the capture-to-injection pipeline,
resumable file transfer, clipboard mirroring, and the byte and text codecs. Everything below is
proved for all inputs, all runs or all reachable states of the model.

`dafny verify dfyconfig.toml` checks the whole project.

## How it is organised

| file | component |
|---|---|
| `SessionSlot.dfy` | generation counter, session slot, install and exit path of the front end |
| `Server.dfy` | accept and permits, handshake and pairing phases, registry fan-out |
| `RateLimiter.dfy` | the per-IP failure limiter: one piece of code, which pairing and SOCKS5 run on separate tables |
| `FailureRecords.dfy` | failures recorded some time after the check that let their author through |
| `Capture.dfy` | the capture callback: modifiers, hotkey, debounce, mouse motion |
| `Injector.dfy`, `Session.dfy` | the client's injector and its select loop |
| `Pipeline.dfy` | capture, forwarder, server fan-out and client composed |
| `FreeName.dfy`, `FileTransfer.dfy` | download names and the resumable transfer |
| `Clipboard.dfy` | the two clipboard watchers and the channels between them |
| `Framing.dfy`, `Socks5.dfy`, `Addr.dfy` | frames, SOCKS5 negotiation, host/port text |
| `Socks5Limiter.dfy` | the proxy's limiter with connections interleaving |
| `PendingRace.dfy` | a server run that attains the bound on failures in a window |
| `Protocol.dfy`, `Text.dfy`, `Decimal.dfy`, `Base.dfy` | shared messages and helpers |

Concurrent code is a state machine: a `State`, an `Enabled` and an `Apply` for each atomic step, and
theorems over every sequence of steps. Code that updates an object is also a class whose methods
are proved against those functions. Loops of the program are loops.

## What is proved

- **Supersession.** In every interleaving of resets, installs and exits, a stored session of
  generation g means that every later reset is still between its bump and its take, and an install
  never overwrites another generation's session. Two expectations turn out to be false of the code,
  and each comes with a concrete run and the exact condition. A slow reset can cancel a newer session
  (`OlderResetCanCancelNewer`): it does so exactly when a newer session was installed before its take
  and nothing emptied the slot in between (`TakeCancelsOlderIff`). The exit path's separate check and
  clear can orphan a live session (`ExitClearCanOrphan`): exactly when another generation's session,
  whose driver is still in its loop, was installed between the check and the clear
  (`OrphaningClearIff`, `RunSupervisedIffNotOvertaken`). In runs without that, every reset stops
  every driver there is.
- **Server.** Permits are conserved, the registry is exactly the handlers between registration and
  removal, each of them paired, and each client's queue carries exactly a contiguous slice of one
  global broadcast log. The limiter's pruned list decides what the full failure history decides;
  with check and record in one step a window holds at most five failures, with handlers
  interleaving at most five plus one per other pending permit. The SOCKS5 proxy has no such permits:
  no number bounds its windows (`NoUniformBound`), only the handlers past their check do. Both counts
  are exact (`WindowExact`), and the server's bound is attained (`WindowBoundAttained`).
- **Pipeline.** With the hotkey as the only toggler, a client holds nothing down whenever the last
  toggle or release it processed says off, through the forwarder, the server run, its queue and the
  select loop of its session.
- **Files.** Two uninterrupted attempts always complete; resuming after any interruptions of the
  same file delivers exactly the file; nothing but the part file is ever touched. A finished file
  called `<name>.part` can be deleted by a later transfer of `<name>` (`CompletedPartFileCanBeLost`);
  a finished file survives exactly the transfers that are not of that name, are refused, cannot open
  the part file, or fail leaving its bytes as they were (`CompletedFileSurvivesIff`).
- **Clipboard.** No ping-pong under any schedule; the bound on messages counts failed writes at the
  server. If writes succeed, a copy drains under exactly the schedules that give the poll, the
  delivery and the receipt their turns in order. With writes failing it does not always drain, and
  the outcome is exact for every schedule (`CopyLandsIff`): both sides hold the copy iff those
  turns occur in order and the first receipt due is written. A server's failed receipt of a client's
  text undoes the copy iff the old text is not empty and not too long, the server polls, and the
  client's receipt of it is written;
  a pair that falls silent after a failed receipt without that is left with different clipboards.
  With several clients, a server's copy reaches each by that client's own turns alone
  (`ServerCopyOutcome`), and a client's copy never reaches another client (`ClientCopyOutcome`).
- **Decisions.** Beside the invariants it is stated, for every input or run, which way each operation
  goes: when the hotkey fires and a move becomes a delta (`ToggleIff`, `MoveForwardedIff`), what is
  down at the client (`ClientDownIff`), when a session loop ends (`ExitIff`), who is accepted
  (`KnownDeviceAcceptedIff`, `ProofDecidesIff`), which task stops (`SupersededStopsIff`), how a
  transfer ends (`OutcomeMeans`), and which bytes or text are refused and why.
- **Codecs.** Round trips in both directions, exact consumption of the stream, and for host/port
  text the exact set of hosts that survive formatting and parsing.

## Model

| member | source | states |
|---|---|---|
| SessionSlot.StepKeepsInv | ui/src/main.rs:197-204 | every atomic step of any task keeps the invariant linking the slot, the lock and the resets in flight |
| SessionSlot.RunKeepsInv | ui/src/main.rs:197-437 | the invariant holds in every state of every interleaving |
| SessionSlot.CurrentOwnsSlot | ui/src/main.rs:419-426 | if the counter still reads a task's generation, the slot is empty or holds that task's own session |
| SessionSlot.StaleSessionsArePending | ui/src/main.rs:197-204 | a stored session of generation g implies every reset above g is between bump and take; with none in flight it is the current one |
| SessionSlot.InstallReplacesOnlyOwn | ui/src/main.rs:407-437 | an install only overwrites an empty slot or its own generation's session |
| SessionSlot.InstallersExclude | ui/src/main.rs:418-437 | at most one task is between acquiring and releasing the slot lock |
| SessionSlot.TakeCancelsOlderIff | ui/src/main.rs:197-204 | a reset's take cancels only an older session, if any, iff no newer generation's session was installed before it with the slot not emptied in between |
| SessionSlot.NewestResetCancelsOlder | ui/src/main.rs:197-204 | so a reset that is still the newest at its take cancels only an older generation's session |
| SessionSlot.OlderResetCanCancelNewer | ui/src/main.rs:197-204 | a concrete run in which a slow reset cancels the session of a newer generation |
| SessionSlot.StepSupervisedIff | ui/src/main.rs:388-392 | one step keeps every live driver reachable through the slot iff it is not a clear while the slot holds a live driver's session |
| SessionSlot.RunSupervisedIff | ui/src/main.rs:301-392 | over a whole run every uncancelled driver stays reachable iff no exit clear found a live driver's session in the slot |
| SessionSlot.OwnClearIsSafe | ui/src/main.rs:388-392 | an exit clear that finds the slot empty or holding its own generation orphans nobody |
| SessionSlot.CurrentClearIsSafe | ui/src/main.rs:388-392 | an exit clear that still finds its own generation current orphans nobody |
| SessionSlot.ClearDropsForeignIff | ui/src/main.rs:388-392 | an exit clear drops another generation's session iff it was installed since the exit check and not taken |
| SessionSlot.OrphaningClearIff | ui/src/main.rs:388-392 | an exit clear orphans a driver iff such a session's driver is still in its loop |
| SessionSlot.RunSupervisedIffNotOvertaken | ui/src/main.rs:301-392 | over a whole run every uncancelled driver stays reachable iff no exit clear was overtaken that way since its check |
| SessionSlot.TakeStopsAllIff | ui/src/main.rs:199-201 | after a reset's take no uncancelled driver is left iff every one was reachable before it |
| SessionSlot.TakeStopsAll | ui/src/main.rs:197-204 | in a run without an orphaning clear every reset's take leaves no uncancelled driver |
| SessionSlot.SupersededStopsIff | ui/src/main.rs:249-261 | over every run: a check that reads another generation stops its task for good, and a first install's session is cancelled from then on; one that reads its own goes on |
| SessionSlot.InstallWasCheckedTwice | ui/src/main.rs:415-427 | every install was preceded by both of its task's checks, in order, each reading its own generation |
| SessionSlot.DriverLeavesIff | ui/src/main.rs:308-313 | a driver whose session ends leaves for good iff it is cancelled, and otherwise reconnects |
| SessionSlot.FailedConnectIsDone | ui/src/main.rs:233-235 | a connect that fails is done for good and clears nothing |
| SessionSlot.SupersededExitClearsNothing | ui/src/main.rs:388-392 | an exit check that reads another generation is never followed by a clear |
| SessionSlot.DisconnectOnlyResets | ui/src/main.rs:206-212 | a disconnect only bumps and takes, in every run |
| SessionSlot.ReconnectUndisturbed | ui/src/main.rs:315-362 | a run in which a driver's reconnect is installed again under its own number and token |
| SessionSlot.ExitClearCanOrphan | ui/src/main.rs:388-392 | a concrete run that ends with an uncancelled running session and an empty slot |
| SessionSlot.AppState.FetchAdd | ui/src/main.rs:198 | the bump is the step Bump and hands out the new generation |
| SessionSlot.AppState.TakeAndCancel | ui/src/main.rs:199-201 | the slot is emptied and whatever it held is cancelled; nobody is left driving iff all were reachable |
| SessionSlot.AppState.LoadIsCurrent | ui/src/main.rs:415-417 | the unlocked check and what a superseded caller does at 249-261 and 350-362: cancelled and done, or out of its loop |
| SessionSlot.AppState.LockSlot | ui/src/main.rs:418 | acquiring the lock, which nobody held |
| SessionSlot.AppState.RecheckUnderLock | ui/src/main.rs:418-426 | the locked check; when it agrees the slot is empty or the task's own, when not the lock is dropped and the caller stops |
| SessionSlot.AppState.WriteSlot | ui/src/main.rs:427-436 | the write replaces nothing of another generation, even if the counter moved since the check |
| SessionSlot.AppState.UnlockSlot | ui/src/main.rs:436-437 | the guard is dropped and the task drives the session it stored |
| SessionSlot.AppState.LoadOnExit | ui/src/main.rs:388-389 | the exit check as its own step |
| SessionSlot.AppState.ClearOnExit | ui/src/main.rs:390 | the exit clear; it keeps supervision iff it orphans nobody, which an empty or own slot ensures |
| RateLimiter.StoredFailures | server/src/server.rs:305-312 | the retained list is exactly the failures of the last window of the full history |
| RateLimiter.StoredLimitIff | server/src/server.rs:286-316 | the stored deadline limits at t iff some failure has five failures in the window ending at it and is less than a window old |
| RateLimiter.RecordRefines | server/src/server.rs:299-316 | recording in the table is recording in the history, independently of other IPs |
| RateLimiter.Limiter.IsRateLimited | server/src/server.rs:286-297 | answers exactly the full-history specification for that IP |
| RateLimiter.Limiter.RecordPairingFailure | server/src/server.rs:299-316 | appends to the history, keeps the refinement and leaves every other IP's entry alone |
| RateLimiter.AtomicWindowBound | server/src/server.rs:406-447 | with check and record as one step every half-open 600s window holds at most five failures |
| FailureRecords.WindowExact | server/src/server.rs:286-316 | a window with five failures or more holds five plus one for each handler recording in it after the fifth, all of them past their check at the fifth |
| FailureRecords.ExceedsIff | server/src/server.rs:286-316 | a window exceeds five iff another handler past its check at the fifth records in it |
| FailureRecords.WindowBound | server/src/server.rs:286-316 | so a window holds at most five plus one for each other handler past its check when the fifth was recorded |
| Server.StepKeepsPermits | server/src/server.rs:174-215 | free permits plus handlers holding one stay 256 at every step |
| Server.StepKeepsRegistry | server/src/server.rs:462-480 | the registry stays exactly the handlers between registration and removal, each paired |
| Server.StepKeepsFanOut | server/src/server.rs:233-238 | every queue stays the slice of the broadcast log of its client's span |
| Server.StepKeepsLimiter | server/src/server.rs:406-447 | every record stays attributable to one pending handler whose check was not limited |
| Server.RunKeepsInv | server/src/server.rs:336-586 | all of the above in every reachable state |
| Server.ReachableServer | server/src/server.rs:174-215 | permits, registry and paired fingerprints in every reachable state, spelled out |
| Server.FanOutIsSlice | server/src/server.rs:462-467 | the broadcasts in a client's queue are exactly the global log from its registration to its removal or to now |
| Server.ClientsAgree | server/src/server.rs:233-238 | two clients hold the same broadcasts in the same order for the time both were registered |
| Server.PairingNeedsProof | server/src/server.rs:400-447 | a fingerprint joins the paired set only through a matching proof of a peer that was not limited at its check |
| Server.CheckAdmitsIff | server/src/server.rs:406-416 | the limiter check admits a handler iff its IP is not limited, or closes it for good |
| Server.KnownDeviceAcceptedIff | server/src/server.rs:418-422 | over runs: reading the fingerprint accepts exactly the paired ones, which are never judged or recorded afterwards |
| Server.ProofDecidesIff | server/src/server.rs:424-447 | a matching proof ends accepted and paired for good, any other is turned down for ever and leaves one failure of its IP at that instant |
| Server.AcceptedWasLetThrough | server/src/server.rs:418-462 | whoever registers as a device was found paired or proved itself as that device |
| Server.RecordNeedsUnpaired | server/src/server.rs:418-447 | every recorded failure is of a handler whose fingerprint was not paired when it was read |
| Server.QueueIsTraffic | server/src/server.rs:462-574 | a client's queue is exactly the broadcasts while it is registered and its handler's own messages, in order |
| Server.HolderCanRelease | server/src/server.rs:174-215 | whoever holds a permit can give it back |
| Server.FinishedSendsNothing | server/src/server.rs:583-586 | a handler that has finished queues nothing more |
| Server.BlockedFailuresPrecede | server/src/server.rs:406-447 | a failure recorded during a block comes from a handler that passed its check before the block and was pending at it |
| Server.InterleavedWindowBound | server/src/server.rs:406-447 | with handlers interleaving, every 600s window holds at most 5 + 255 failures of an IP |
| PendingRace.WindowBoundAttained | server/src/server.rs:174-184 | some run records 5 + 255 failures of one IP in a window: four, then 256 connections admitted together |
| Server.SendToAll | server/src/server.rs:233-238 | the loop gives every registered client one copy and nobody else anything |
| Server.ControlServer.TryAccept | server/src/server.rs:174-189 | a connection is dropped iff no permit is free, otherwise it takes one and a fresh id |
| Server.ControlServer.AcceptHello | server/src/server.rs:362-394 | a hello of the right version moves the handler on to its pair request |
| Server.ControlServer.CheckRate | server/src/server.rs:406-416 | a pair request passes iff the full-history specification does not limit its IP |
| Server.ControlServer.IsPaired | server/src/server.rs:418-422 | a known fingerprint is accepted without its proof, any other goes on to it |
| Server.ControlServer.PairDevice | server/src/server.rs:424-435 | a matching proof adds exactly that fingerprint |
| Server.ControlServer.RecordFailure | server/src/server.rs:436-447 | any other proof records one failure of that IP |
| Server.ControlServer.Insert | server/src/server.rs:462-467 | registration opens the client's span; the first-client answer is exact |
| Server.ControlServer.BroadcastAll | server/src/server.rs:233-238 | a broadcast is one step of the protocol for all registered clients |
| Server.ControlServer.SendDirect | server/src/server.rs:518-520 | a reply is queued for the own peer, after what is there, and for nobody else |
| Server.ControlServer.Remove | server/src/server.rs:570-574 | removal closes the span; the now-empty answer is exact |
| Server.ControlServer.AbortHandler | server/src/server.rs:190-215 | a handler that gives up before registering returns its permit |
| Server.ControlServer.ReleasePermit | server/src/server.rs:477-480 | a registered handler gives its permit back once |
| Capture.ChordBits | server/src/capture.rs:351-383 | the mask test says exactly that every required modifier is held on either side |
| Capture.PressedIsHeld | server/src/capture.rs:193-198 | the tracked pressed set is the history's held set |
| Capture.SwallowedIsOutstanding | server/src/capture.rs:200-208 | the swallowed set is exactly the keys with a chord press since their last release |
| Capture.ReleaseConsumedIff | server/src/capture.rs:219-244 | a release is consumed iff a press of that key since its previous release completed the chord; otherwise forwarded iff on, with code and mask |
| Capture.PressForwardedIff | server/src/capture.rs:192-218 | a press is forwarded iff forwarding is on and it does not complete the chord, with code and a mask that tells the held modifiers |
| Capture.TogglesInWindow | server/src/capture.rs:276-294 | hotkey toggles in any window of length L number at most L/250ms + 1 |
| Capture.FiresAreSpaced | server/src/capture.rs:276-285 | consecutive toggles are at least 250ms apart, for any clock readings |
| Capture.NoDeltaAfterTurnOn | server/src/capture.rs:180-187 | the first move at or after an observed off-to-on change produces no delta |
| Capture.MotionConserved | server/src/capture.rs:296-349 | forwarded deltas plus motion skipped as warp, as seed or while off plus rounding is the final position, on both axes |
| Capture.TruncLoss | server/src/capture.rs:312-313 | truncation loses less than a pixel iff the displacement fits 32 bits, and nothing iff it is also whole |
| Capture.RoundingBound | server/src/capture.rs:312-349 | accumulated rounding stays below one pixel per forwarded move |
| Capture.IntegerMotionExact | server/src/capture.rs:312-349 | on integer coordinates nothing is lost to rounding |
| Capture.ActGate | server/src/capture.rs:180-274 | a callback forwards only with the flag on; a toggle flips the flag and forwards nothing |
| Capture.ToggleIff | server/src/capture.rs:192-208 | over histories: an action toggles iff it is the first press of its key, completes the chord, and the last toggle is a debounce ago; it then turns the flag over |
| Capture.FlagAfterAction | server/src/capture.rs:276-294 | the flag is what the last toggle or store left |
| Capture.WasEnabledIsLastSeen | server/src/capture.rs:180-187 | the remembered flag is the one the last callback saw or left |
| Capture.SeedIff | server/src/capture.rs:296-310 | a seed is pending iff no move has used one up since the start or an observed turn-on |
| Capture.WarpingIff | server/src/capture.rs:315-340 | a warp is pending iff the last move was an ordinary one at the edge while forwarding |
| Capture.MoveForwardedIff | server/src/capture.rs:296-349 | a move yields the truncated displacement from the previous one iff forwarding is on, it is no warp and no seed, and that is not zero |
| Capture.PointerForwardedIff | server/src/capture.rs:245-265 | buttons and the wheel are forwarded and swallowed iff forwarding is on, with their own values |
| Capture.WrapMeaning | server/src/capture.rs:260-263 | the wheel's 32-bit value is the congruent number in range |
| Capture.ModifierCodesDiffer | server/src/capture.rs:210-213 | the eight modifier keys have different codes |
| Capture.CaptureState.ProcessEvent | server/src/capture.rs:180-274 | the callback body does what the event function says to every field and the outcome |
| Capture.CaptureState.TryFireHotkey | server/src/capture.rs:276-294 | the debounced toggle on the shared flags |
| Capture.CaptureState.ProcessMouseMove | server/src/capture.rs:296-349 | warp, seed, delta and edge handling of a move |
| Injector.DownSinceMeaning | client/src/inject.rs:13-16 | "down since" is the earliest press not released since |
| Injector.InjectKeepsInv | client/src/inject.rs:30-91 | every event keeps both held lists equal to what is down, in press order |
| Injector.HeldIsDown | client/src/inject.rs:30-91 | after any events the lists are duplicate-free and hold exactly what the emitted calls leave down, for any many-to-one key table |
| Injector.ReleaseEverythingClears | client/src/inject.rs:96-108 | release_all leaves nothing down |
| Injector.ReleaseAllIsExact | client/src/inject.rs:96-108 | release_all releases each held key, then each held button, exactly once, newest first |
| Injector.ReleaseBackwards | client/src/inject.rs:99-107 | the reversed loop emits the releases of the reversed list |
| Injector.DownIffAsked | client/src/inject.rs:30-91 | a key is down iff some press of a code that stands for it has no later release of such a code and no release-all; a button likewise |
| Injector.MotionsAreAsked | client/src/inject.rs:33-64 | pointer motions and scrolls are exactly those of the events, in order, the vertical axis negated, zeros omitted |
| Injector.InjectCalls | client/src/inject.rs:36-83 | each key or button event makes one call of its own kind; an unknown code makes none |
| Injector.InputInjector.InjectEvent | client/src/inject.rs:30-91 | the injector's lists and calls after each kind of event, as the injector that DownIffAsked and MotionsAreAsked describe |
| Injector.InputInjector.ReleaseAllHeld | client/src/inject.rs:96-108 | empties both lists, emits the releases, leaves nothing down |
| Session.RunLoopKeepsInv | client/src/session.rs:263-333 | the injector invariant holds after any script of select results |
| Session.ExitLeavesNothingDown | client/src/session.rs:263-335 | whatever ended the loop, after the exit path nothing is held or down |
| Session.ExitIff | client/src/session.rs:263-333 | the loop runs on iff its script holds no cancel, goodbye, read error, failed send or ping after over 20 silent seconds |
| Session.ExitReason | client/src/session.rs:263-333 | it ends for the reason of the first event that ends it |
| Session.Run | client/src/session.rs:259-335 | the select loop with its exits and the release after it |
| Session.Dispatch | client/src/session.rs:296-313 | what each received envelope does to the injector |
| Pipeline.RunForwarder | server/src/server.rs:149-167 | the forwarder's loop broadcasts release-all before a toggle-off notice |
| Pipeline.StreamGated | server/src/capture.rs:167-294 | inputs occur in the capture channel only where the preceding toggles leave forwarding on, and the toggles tell the flag |
| Pipeline.NoInputWhileOff | server/src/capture.rs:167-294 | no input lies between a toggle-off and the next toggle-on |
| Pipeline.SliceGated | server/src/server.rs:149-167 | any contiguous part of the forwarder's output, among other messages, keeps that discipline |
| Pipeline.OffMeansNothingDown | client/src/session.rs:297-313 | whenever the received envelopes say off, the client has nothing down |
| Pipeline.NothingHeldWhileOff | client/src/session.rs:297-313 | end to end from capture history to client, for every joining point and every key table |
| Pipeline.ReleaseAllHoldsUntilOn | client/src/session.rs:297-313 | a client that processed a release-all holds nothing until it sees forwarding on |
| Pipeline.QueueIsPart | server/src/server.rs:233-238 | a registered client's queue carries a contiguous part of the forwarder's output |
| Pipeline.RegisteredClientNothingHeldWhileOff | server/src/server.rs:149-167 | the same through the actual queue of a client of a server run, still registered or removed on the way |
| Pipeline.RunLoopIsClientAfter | client/src/session.rs:263-333 | after any select results the session's injector is that of the envelopes handled before the exit |
| Pipeline.SessionNothingHeldWhileOff | client/src/session.rs:263-335 | so the running session of such a client holds nothing while off, and nothing once it has ended |
| Pipeline.ForwarderLosesNothing | server/src/server.rs:149-167 | every input and toggle of the channel is broadcast once, in order; only release-alls are added |
| Pipeline.CaptureLosesNothing | server/src/capture.rs:167-178 | from callback to broadcast: the inputs and toggles broadcast are those the callbacks produced, in order |
| Pipeline.ClientIsInjected | client/src/session.rs:296-313 | a client's injector is exactly the one its inputs, with a release-all for each toggle-off, lead to |
| Pipeline.ClientDownIff | client/src/session.rs:296-313 | so what is down at the client is what those events ask for, and the pointer moves as they ask |
| FreeName.SanitizeIsSafe | server/src/file_transfer.rs:272-291 | every sanitized name is one ordinary trimmed path component without control characters |
| FreeName.SanitizeKeepsIff | server/src/file_transfer.rs:272-291 | exactly the safe names are kept unchanged |
| FreeName.SanitizeDropsDirectories | server/src/file_transfer.rs:274-279 | any directory part in front of a safe name is dropped |
| FreeName.SanitizeLastComponent | server/src/file_transfer.rs:272-291 | any last component is trimmed and kept if that leaves a safe name, and becomes received_file otherwise |
| FreeName.SanitizeIgnoresTrailing | server/src/file_transfer.rs:274-279 | a trailing slash or dot component is not a component |
| FreeName.CandidateFormat | server/src/file_transfer.rs:308-313 | candidate i is stem (i).ext, or name (i) without an extension |
| FreeName.StemAndSuffix | server/src/file_transfer.rs:302-306 | stem and extension recompose the name, split at the last dot unless it leads |
| FreeName.CandidatesDiffer | server/src/file_transfer.rs:308-313 | candidates for different indices are different names |
| FreeName.TakenBound | server/src/file_transfer.rs:308-318 | a directory cannot hold more of the first candidates than it has entries |
| FreeName.UniqueDestPath | server/src/file_transfer.rs:296-319 | returns the candidate of least free index within one more try than there are entries |
| FileTransfer.TooLargeIff | server/src/file_transfer.rs:137-153 | an offer is refused iff there is a limit and it exceeds it, and then nothing is touched |
| FileTransfer.OutcomeMeans | server/src/file_transfer.rs:157-266 | within the limit, outcome and part file follow from the leftover, the bytes that arrive, the faults and the hash of the first size bytes |
| FileTransfer.InterruptedResumes | server/src/file_transfer.rs:159-177 | after a broken connection the next attempt asks for exactly what is missing |
| FileTransfer.CompleteMeans | server/src/file_transfer.rs:215-255 | completion means a new file of the offered length and hash under a free name, the part file gone, and exactly the missing bytes read |
| FileTransfer.OtherEntriesKept | server/src/file_transfer.rs:157-266 | all outcomes keep every other entry; only a completion adds one, under a free name |
| FileTransfer.AttemptCompletesOrCleans | server/src/file_transfer.rs:159-266 | an uninterrupted attempt completes or removes a wrong leftover |
| FileTransfer.TwoAttemptsSuffice | client/src/file_transfer.rs:116-161 | at most two uninterrupted attempts complete, from any directory |
| FileTransfer.ResumeDeliversExactly | client/src/file_transfer.rs:129-146 | after any interruptions of the same file one attempt delivers exactly the file |
| FileTransfer.TransfersKeepEntries | server/src/file_transfer.rs:157-266 | over any sequence of transfers an entry that is no transfer's part file keeps its bytes |
| FileTransfer.EntryKeptIff | server/src/file_transfer.rs:138-266 | one transfer keeps an entry's bytes iff it is not its part file, is refused, cannot open it, or fails with those bytes in place |
| FileTransfer.EntryKeptThroughoutIff | server/src/file_transfer.rs:138-266 | over any sequence of transfers an entry keeps its bytes throughout iff each transfer spares it, a condition on the transfers alone |
| FileTransfer.CompletedFileSurvivesIff | server/src/file_transfer.rs:246-254 | a completed file, of the offered length and hash, survives later transfers iff each spares it |
| FileTransfer.CompletedPartFileCanBeLost | server/src/file_transfer.rs:157-223 | for every name and content: two transfers that lose a completed file, whatever the hash |
| FileTransfer.Downloads.HandleTransfer | server/src/file_transfer.rs:137-266 | the receive loop under any read sizes and faults: refused iff over the limit, directory, outcome, offset and what stays unread |
| FileTransfer.SendFrom | client/src/file_transfer.rs:129-146 | the send loop writes exactly the file from the accepted offset |
| Clipboard.StepBalance | client/src/clipboard.rs:57-85 | each message uses up a change that a copy or a start paid for |
| Clipboard.NoPingPong | server/src/server.rs:257-279 | messages ever sent number at most copies plus started clients plus failures at the server, in every interleaving |
| Clipboard.OnlySendableInFlight | server/src/server.rs:268-270 | in every run no empty text and none over a mebibyte is ever on its way |
| Clipboard.PollSendsIff | client/src/clipboard.rs:71-79 | a poll sends exactly a clipboard that was not seen, is not empty and not over a mebibyte |
| Clipboard.ReceiptMeans | server/src/server.rs:260-265 | what a receipt does to clipboard and last-seen text on either side, writes failing or not |
| Clipboard.OutboxIsFifo | client/src/session.rs:290-294 | what a client polled is what was handed over and then what is in its outbox |
| Clipboard.InboxIsFifo | server/src/server.rs:255-265 | what was handed to the server's channel is what its watcher received and then what is in its inbox |
| Clipboard.InitialContentIsSent | client/src/clipboard.rs:57-79 | a starting client's first poll sends what its clipboard holds, if that may be sent |
| Clipboard.LeaveRemovesOne | client/src/clipboard.rs:67 | a client that leaves takes its channels with it and touches nothing else |
| Clipboard.ServerCopyOutcome | server/src/server.rs:257-279 | a server's copy, any number of clients, any writes failing: a client holds it iff poll and receipt take their turns in order and that first receipt is written; messages, silence and agreement exactly |
| Clipboard.ClientCopyOutcome | client/src/clipboard.rs:57-85 | a client's copy, any number of others, any writes failing: the server holds it iff it lands, the client loses it iff it is undone, the others never hold it; messages, failures and silence exactly |
| Clipboard.CopyLandsIff | client/src/clipboard.rs:57-85 | for a pair, any writes failing: both hold the copy iff it lands, both the old text iff it is undone, silent disagreement iff a failed write is not successfully answered |
| Clipboard.CopyDrainsIff | client/src/clipboard.rs:57-85 | if writes succeed: the copy reaches both iff the poll, delivery and receipt occur in order; silent iff both hold it; at most one message and three changes |
| Clipboard.MovesBound | client/src/clipboard.rs:57-85 | from any state of a pair, with anything in flight, only boundedly many successful turns change anything |
| Clipboard.CopyAlwaysFinishes | client/src/clipboard.rs:57-85 | after any schedule of successful turns one more of each in order ends in agreement and silence, with one message in all |
| Clipboard.SameCopyIsSilent | client/src/clipboard.rs:73-77 | copying the text everybody already holds sends nothing, any writes failing |
| Clipboard.FailedWriteUndoesCopy | server/src/server.rs:261-264 | the shortest schedule that undoes a client's copy, with two messages |
| Clipboard.RunIsSchedule | client/src/clipboard.rs:57-85 | every run of the protocol is such a schedule |
| Clipboard.ClientRoundIsRun | client/src/clipboard.rs:57-85 | one round of the client's thread is its receipts in order and then its poll |
| Clipboard.ServerRoundIsRun | server/src/server.rs:259-275 | one round of the server's thread is its receipts in order and then its poll |
| Clipboard.ClientWatcher.Round | client/src/clipboard.rs:59-85 | one round, with reads and writes that may fail, drains in order and sends nothing after a text that was written |
| Clipboard.ServerWatcher.Round | server/src/server.rs:259-275 | one round, with reads and writes that may fail, drains in order and does not echo what it could write |
| Framing.HeaderIsExact | common/src/lib.rs:178-188 | the size check makes the 32-bit length exact and within the reader's limit |
| Framing.FrameRoundTrip | common/src/lib.rs:195-211 | reading a written frame returns the envelope and leaves the rest |
| Framing.FramesRoundTrip | common/src/lib.rs:178-211 | reading the concatenated frames of any list returns the list and leaves the rest |
| Framing.SerializeAllIff | common/src/lib.rs:180-182 | a list is writable iff each body fits |
| Framing.PrefixIsError | common/src/lib.rs:199-208 | a proper prefix of a frame always ends in end-of-stream |
| Framing.ReadConsumesFrame | common/src/lib.rs:195-211 | a successful read consumed exactly a header and the body it announces |
| Framing.ReadVerdict | common/src/lib.rs:195-211 | which input ends in which error: short, announcing over 10 MiB, or not decodable |
| Framing.HeaderIsBigEndian | common/src/lib.rs:184-186 | the header is the length in network byte order |
| Framing.ReadEnvelopeFrom | common/src/lib.rs:195-211 | the stream reader returns the frame, the exact rest and the exact error |
| Framing.SendEnvelope | common/src/lib.rs:213-221 | writes the frame, as much of it as gets through and an error, or, when it is too large, nothing |
| Framing.XorAccumulate | common/src/lib.rs:169-175 | the accumulator is zero iff all positions agree |
| Framing.ProofMatches | common/src/lib.rs:169-175 | the constant-time comparison decides equality |
| Socks5.ConstantTimeEq | server/src/socks5.rs:53-62 | the length test and the accumulating loop decide equality |
| Socks5.AnonymousExchange | server/src/socks5.rs:222-282 | a greeting offering no-auth and any CONNECT request yield the target and leave exactly the payload |
| Socks5.AuthenticatedExchange | server/src/socks5.rs:161-282 | with authentication the target is returned iff the peer is not limited and both credentials match |
| Socks5.TargetOnlyIfEntitled | server/src/socks5.rs:137-283 | a target is returned only for a well-formed exchange by an entitled peer, followed by exactly the unread bytes |
| Socks5.RequestVerdict | server/src/socks5.rs:231-282 | byte by byte, which request is short, of an unsupported command or address type, or of an invalid domain |
| Socks5.GreetingVerdict | server/src/socks5.rs:143-187 | which complete greeting is refused for its methods, the limiter or missing credentials |
| Socks5.VersionVerdict | server/src/socks5.rs:143-152 | a greeting of another version is refused once its header is there; a short one ends the stream |
| Socks5.PortIsBigEndian | server/src/socks5.rs:244-248 | ports are in network byte order |
| Socks5.AuthenticateOn | server/src/socks5.rs:188-221 | the sub-negotiation on the stream; exactly a wrong pair is recorded, also when its rejection cannot be written |
| Socks5.SelectMethodOn | server/src/socks5.rs:143-229 | greeting, limiter check, method choice, the replies as far as they get through, and the record among those of other connections |
| Socks5.ReadRequestOn | server/src/socks5.rs:231-282 | the request on the stream, its errors and its failure replies as far as they get through |
| Socks5.RepliesTellOutcome | server/src/socks5.rs:137-283 | what has been written back for each kind of outcome, byte for byte |
| Socks5.NegotiateOn | server/src/socks5.rs:137-283 | outcome, unread rest, replies and recorded failure of the whole negotiation, with failing writes and other connections' failures between check and record |
| Socks5Limiter.StepKeepsInv | server/src/socks5.rs:67-93 | at every step of every interleaving each record belongs to one handler, pending since its unlimited check |
| Socks5Limiter.PendingWindowBound | server/src/socks5.rs:161-221 | a window holds five failures plus exactly those of the other handlers past their check at the step of the fifth that record in it later |
| Socks5Limiter.FailsAtMostOnce | server/src/socks5.rs:210-221 | a connection that failed or ended never fails again |
| Socks5Limiter.NegotiationIsSteps | server/src/socks5.rs:161-221 | between a connection's check and its decision only others record; its failure is the next record, in time order |
| Socks5Limiter.NegotiateInRun | server/src/socks5.rs:137-283 | the negotiation of an admitted connection does to the shared limiter what its fail or end step does to the protocol |
| Socks5Limiter.NoUniformBound | server/src/socks5.rs:72-80 | for every number some run records that many failures of one IP at one instant |
| Decimal.PrintRoundTrip | client/src/addr.rs:56-62 | a printed number is a non-empty digit string that reads back as itself |
| Addr.RoundTripIff | client/src/addr.rs:9-62 | parsing a formatted address returns the pair iff the host is representable, whatever the default port |
| Addr.FormatInjective | client/src/addr.rs:56-62 | formatting is injective on representable hosts |
| Addr.BareHostDefaults | client/src/addr.rs:35-51 | a bare host with no colon or several is taken whole with the default port |
| Addr.BracketedDefaults | client/src/addr.rs:15-33 | a bracketed host without a port gets the default port; an empty one is rejected |
| Addr.PortAcceptedIff | client/src/addr.rs:43-45 | a port text is accepted iff it is a number of at most 65535, with leading zeros and a plus sign if it likes |
| Addr.PlainVerdict | client/src/addr.rs:35-46 | host:port is decided by its port text; an empty host is rejected |
| Addr.BracketedVerdict | client/src/addr.rs:15-33 | what follows a closing bracket: nothing, a port, or an error |
| Addr.UnclosedRejected | client/src/addr.rs:15-18 | a bracket never closed is rejected |
| Addr.EmptyAddressIff | client/src/addr.rs:10-13 | an address is empty iff it is all white space |

## Left out

- TLS, certificates, pinning, timeouts, keep-alive scheduling on the server and the sockets themselves: calls into foreign code; a timeout appears as an abort of a handler or an exit of the loop.
- `perform_handshake` on the client, which sends a greeting and a pair request and classifies the two replies; the server's side of that exchange is modelled.
- mDNS discovery, configuration files, audit log, installers, React front end and status events.
- SHA-256 and bincode: a hash is an arbitrary function, the body codec any codec that round-trips; a pair request carries the outcome of the proof comparison, which `Framing.ProofMatches` decides.
- `key_to_code`, `code_to_key` and `convert_mouse_button` entry by entry, and `server/src/hotkey.rs`: tables; keys other than modifiers are their codes, the client's table is any partial map, the chord is a datatype.
- `forwarding_active`, `last_error` and `latency_ms` of the front end: written by check-then-act event tasks, no invariant is promised.
- `auto_forward` and the agreement of the last broadcast toggle with the flag when clients toggle: test and swap are separate steps in the code, so neither is kept under interleaving; the end-to-end claims are for hotkey toggles.
- Another task storing the forwarding flag in the middle of one capture callback: a callback is one step of the model.
- 64-bit wrap-around of the generation counter and of connection ids.
- Overlapping transfers of the same name: transfers are modelled one after another.
- Windows path rules: names follow Unix paths.
- NaN and infinite mouse coordinates: coordinates are real numbers.
- Clipboard contents changing between the drain and the poll of one round of a watcher: a copy falls between rounds or between steps of the protocol, not inside the `Round` methods.
- Where exactly other connections record their failures during one SOCKS5 negotiation: the method records them together after the check, since nothing looks at the limiter between that and its own record.
- The text form of a SOCKS5 target and the relay after negotiation: a target is its address bytes or domain and its port; which byte strings are UTF-8 is a parameter.
- `common/src/display.rs`: not called by the modelled code.
