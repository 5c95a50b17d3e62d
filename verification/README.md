# Verified models of the vehicle workspace

This project models the parts of the ROS 2 workspace in which state, protocol steps or arithmetic interact,
and proves what those parts are relied on for. Verify with `dafny verify dfyconfig.toml` (Dafny 4.11).

Every component that changes its fields step by step is a class whose methods are tied, by their
postconditions, to a specification function on values; what holds over whole runs is proved about those
functions by induction over arbitrary event sequences. Loops of the tools are methods with invariants,
proved against closed forms or simple definitions that do not mention the loop.

| files | what they are about |
|---|---|
| `SecOc.dfy`, `SecOcRuns.dfy` | truncated freshness counters, and a sender and a receiver over a lossy channel with crashes |
| `Coordinator.dfy` | the update coordinator: approval spool, pending requests, active set, lock calls, timers |
| `CoordinatorRuns.dfy` | its events and runs; what becomes of every accepted request |
| `PollRuns.dfy`, `AnswerRuns.dfy` | one poll request by request; whose answers decide which requests |
| `ActiveRuns.dfy`, `AskRuns.dfy` | whose update begins and ends when; which requests the driver is asked about, and where verdicts go |
| `VerdictRuns.dfy`, `HoldRuns.dfy`, `TimingRuns.dfy` | why each verdict came out as it did; whom the vehicle is held for and what was sent before a lock was asked for; when verdicts go out |
| `SecuredRuns.dfy` | the coordinator behind SecOC, with peers, a hostile bus and restarts |
| `LockRuns.dfy`, `LockProtocol.dfy` | lock state against active set; coordinator and stop server over an asynchronous call, restarts of both |
| `StopServer.dfy` | the emergency stop server and its saved navigation goal |
| `SerialComms.dfy`, `CanComms.dfy`, `HardwareSystem.dfy` | byte-stream resynchronisation, frame draining, odometry, gyro calibration, failure counters |
| `ReadRuns.dfy`, `WriteRuns.dfy` | odometry and yaw rate in terms of the frames received; write errors in terms of the outcomes |
| `BeamTrace.dfy`, `MapCleaner.dfy` | the integer beam trace, look and hit counting, the flipped raster |
| `ManualOverride.dfy` | arm, engage, tail and silence of the gamepad override |
| `ParamRewriter.dfy` | the indentation-stack rewriter |
| `NavProbe.dfy`, `CuspGeometry.dfy` | path splitting, segment distance, sample pairing; what a cusp is |
| `Options.dfy` | the optional value |

## What is assumed

- The MAC is an arbitrary function of identifier, payload and counter. Where a run needs it, a delivered frame
  whose tag matches was built by the sender for exactly that identifier, payload and counter (`Honest`).
- Counter files survive crashes. An offer is written whole or not at all, and taking an offer or an answer down
  succeeds.
- The coordinator is the stop server's only caller; a call that fails has had no effect.
- Times are reals and do not run backwards; angles, velocities and positions are reals. Cells and counters are
  integers; freshness counters are below 2^32; CAN frames are full ones.
- Whether SecOC accepted a frame (joined to the counters in `SecuredRuns`), whether a head unit is up, whether
  an offer could be written and whether the stop service is ready are inputs of each handler; the last is constant
  within one handler.

## Where code and comments part

The model follows the code.

- `docs/ARCHITECTURE.md`, section 5.3, accepts any counter above the last one; the code also rejects a jump
  of more than 0x8000 (`SecOc.WindowDecides`).
- Approval is said to be what locks the vehicle. The verdict is on the bus before the lock is even requested
  (`LockRuns.ApprovedBeforeLocked`), and the lock call's completion does not look at the active set again: the
  vehicle can stay locked for nobody, or an update can run unlocked and without its timeout
  (`LockRuns.LockedForNobody`, `LockRuns.UpdateRunsUnlocked`). No timer repairs the former; the next CAN traffic does.
- A coordinator that restarts does not know of a lock it finds. The two sides disagree until its own first call, a
  lock, is carried out; the lock it found ends with its own first unlock (`LockProtocol.RestartLeavesLock`,
  `LockProtocol.AgreeAfterRestartIff`).
- Start-up is said to clear what an earlier run left in the spool. It clears offers, each with its answer; an
  answer without its offer stays, and decides a later request whose offer gets the same name
  (`AnswerRuns.LeftoverApproves`), which a forward clock excludes (`AnswerRuns.EveryAnswerIsGiven`).
- A second request is said to take the first one's card down. It does not when the second is approved without
  asking because no head unit is up (`VerdictRuns.OlderOfferOutlivesIff`); the requester can then be told to go
  ahead and afterwards not to, with the vehicle held (`AnswerRuns.ApprovedThenDenied`).
- A goal sent after the unlock does not drop the saved goal; the old goal is published after it
  (`StopServer.OldGoalOvertakesNew`).
- `can_write_failures_` is described as consecutive failed cycles and the congestion count as consecutive
  congested ones. A congested cycle resets the former, a hard failure does not reset the latter, and only the
  motor frame decides which kind a cycle is: a queue full for the steering frame alone counts as a hard failure
  (`HardwareSystem.CountersMean`, `HardwareSystem.LastingFailure`).
- The gyro settle window is described in read cycles; it counts accepted IMU samples
  (`HardwareSystem.OffsetIsMean`).
- The rewriter reports which overrides were not found; a scoped one that matched nothing goes unreported when
  another override rewrote a line with the same last component (`ParamRewriter.UnusedYetUnlisted`).
- The path metrics report cusps as a count of their own; a run of two points is dropped before counting, so
  cusps next to each other or to an end are missed (`NavProbe.CuspCountExactIff`).

## Model

| member | source | states |
|---|---|---|
| `SecOc.FvStore.Build` | src/update_coordinator/update_coordinator/secoc_utils.py:63-68 | A built frame carries payload, MAC and low half of one fresh counter, which is stored before the frame is handed out; a counter past four bytes raises and stores nothing |
| `SecOc.FvStore.Verify` | src/update_coordinator/update_coordinator/secoc_utils.py:71-89 | The outcome for every frame, short, foreign, outside the window or raising included; only acceptance moves the floor |
| `SecOc.ReconstructIsLeastAbove` | src/update_coordinator/update_coordinator/secoc_utils.py:75-79 | The reconstructed counter is the least value above the floor with the received low 16 bits |
| `SecOc.GenuineAcceptedIff` | src/update_coordinator/update_coordinator/secoc_utils.py:71-89 | A genuine frame is accepted, with its exact counter recovered, if and only if floor < fv <= floor + 0x8000 |
| `SecOc.GenuineRejectedFor` | src/update_coordinator/update_coordinator/secoc_utils.py:71-89 | A genuine frame that is not accepted is out of the window if and only if it is up to 2^16 ahead of the floor; any other is taken for the next counter with its low half and fails by its MAC, or raises if that counter needs a fifth byte |
| `SecOc.WindowDecides` | src/update_coordinator/update_coordinator/secoc_utils.py:75-86 | Some tag makes a frame acceptable if and only if its low half is 1 to 0x8000 ahead of the floor's and the counter it stands for fits in four bytes |
| `SecOc.BehindFloorRejected` | src/update_coordinator/update_coordinator/secoc_utils.py:75-86 | Frames 0 to 0x7FFF behind the floor are rejected whatever the MAC says |
| `SecOcRuns.NextKeepsInv` | src/update_coordinator/update_coordinator/secoc_utils.py:63-89 | Build, send, crash on either side and delivery of any frame keep: counters increasing per identifier, accepted frames among built ones, floors at most send counters |
| `SecOcRuns.RunIsReplayFree` | src/update_coordinator/update_coordinator/secoc_utils.py:51-89 | Over every run with loss, duplication, reordering, corruption and crashes: accepted counters strictly increase per identifier, nothing is accepted twice, what is accepted was built so, and no two frames sent share a counter |
| `SecOcRuns.NewestFrameAcceptedIff` | src/update_coordinator/update_coordinator/secoc_utils.py:63-89 | In every run the sender's newest frame is accepted on arrival if and only if it is 1 to 0x8000 ahead of the receiver's floor |
| `SecOcRuns.LeftBehindIff` | src/update_coordinator/update_coordinator/secoc_utils.py:63-89 | Once the sender is more than 0x8000 ahead of the floor, in any continuation the floor moves again if and only if an older frame, built before and still in the window, is delivered; without that nothing is accepted any more, however new |
| `Coordinator.UpdateCoordinator.constructor` | src/update_coordinator/update_coordinator/node.py:198-211 | Starts unlocked with nothing pending and sweeps an earlier run's offers with their answers |
| `Coordinator.UpdateCoordinator.UpdateLock` | src/update_coordinator/update_coordinator/node.py:596-610 | The whole state after re-checking the lock: nothing while a call is in flight, else the timer follows the set and one call is made if the lock state is wrong and the service ready |
| `Coordinator.UpdateCoordinator.CallService` | src/update_coordinator/update_coordinator/node.py:612-619 | A call goes out, and is marked in flight, exactly when the service is ready |
| `Coordinator.UpdateCoordinator.OnServiceDone` | src/update_coordinator/update_coordinator/node.py:621-631 | Completion clears the in-flight mark; only success changes the lock state |
| `Coordinator.UpdateCoordinator.Begin` | src/update_coordinator/update_coordinator/node.py:476-517 | A request is approved at once or put to the driver, superseding an older offer, with the full new state of spool, pending map and timers |
| `Coordinator.UpdateCoordinator.HandleCan` | src/update_coordinator/update_coordinator/node.py:258-307 | The state after any frame; short, foreign, unverified or unknown ones change nothing; what a REQUEST and a RUNNING do is in `ActiveRuns` and `AskRuns` |
| `Coordinator.UpdateCoordinator.OnCanEvent` | src/update_coordinator/update_coordinator/node.py:252-256 | Draining a queue is handling its frames in order and re-checking the lock once more |
| `Coordinator.UpdateCoordinator.ResolveOne` | src/update_coordinator/update_coordinator/node.py:529-544 | Resolving takes request, offer and answer out, sends the request's own verdict, and holds the vehicle only on approval |
| `Coordinator.UpdateCoordinator.PollApprovals` | src/update_coordinator/update_coordinator/node.py:555-568 | One poll resolves each pending requester by answer or deadline in turn, and lets the timer die with the last |
| `Coordinator.UpdateCoordinator.CheckTimeouts` | src/update_coordinator/update_coordinator/node.py:581-594 | Expired updates end together, and the lock is re-checked if there were any |
| `Coordinator.UpdateCoordinator.OnSelfStart` | src/update_coordinator/update_coordinator/node.py:633-641 | A self-update becomes active and the lock is re-checked; the caller is told of success in any case |
| `Coordinator.UpdateCoordinator.OnSelfDone` | src/update_coordinator/update_coordinator/node.py:643-651 | A self-update ends, if there is one, and the lock is re-checked |
| `Coordinator.UpdateCoordinator.Destroy` | src/update_coordinator/update_coordinator/node.py:662-670 | Shutdown withdraws every pending offer and answer, and sends nothing |
| `ActiveRuns.UpdatesEndIff` | src/update_coordinator/update_coordinator/node.py:292-651 | At every event of every run an update ends if and only if the event is a verified RUNNING on the updating ECU's own CAN id, a tick of the living timeout timer more than the limit after its start, or the computer's own report; one that survives keeps its time unless that ECU is started anew |
| `ActiveRuns.UpdatesBeginIff` | src/update_coordinator/update_coordinator/node.py:476-641 | At every event of every run an update begins, or begins anew, if and only if the event is its ECU's verified REQUEST while the driver cannot be asked, a poll that approves that ECU, or the computer's own start; its time is the event's |
| `AskRuns.RequestAsksIff` | src/update_coordinator/update_coordinator/node.py:476-527 | In any state a verified REQUEST is put to the driver, with the slot, a name of the ECU, second and next number, and a deadline of 30 s for the cluster and 9.5 s for the ESP32, if and only if approval is required, a head unit is up and the offer can be written; otherwise it is approved at once on that ECU's verdict id; the earlier request of the ECU is dropped or stays as it was, others always stay |
| `AskRuns.PollLeavesIff` | src/update_coordinator/update_coordinator/node.py:555-568 | In every run a poll leaves pending exactly the requests with no answer and a deadline still ahead, unchanged, and the poll timer lives on if and only if any is left |
| `AskRuns.RequestsAreFrames` | src/update_coordinator/update_coordinator/node.py:258-293 | In every run the requests taken in are exactly the verified REQUEST frames, in order, each with its CAN id's requester and verdict id |
| `AskRuns.VerdictGoesBack` | src/update_coordinator/update_coordinator/node.py:519-544 | In every run each verdict goes to the peer whose REQUEST frame it answers, on 0x301 under identifier 3 or 0x311 under 6, with that frame's slot; silence decides nothing before 30 s or 9.5 s |
| `ApprovalRuns.NextKeepsInv` | src/update_coordinator/update_coordinator/node.py:252-307 | Every handler keeps the approval invariant of `ApprovalRuns.RunKeepsInv` |
| `ApprovalRuns.RunKeepsInv` | src/update_coordinator/update_coordinator/node.py:430-568 | In every run over any leftover spool: each accepted request is answered exactly once, or pending, superseded or withdrawn; verdicts carry their own request's slot, DID and CAN id; an answer decides only the request whose offer bears its name (whose answer it is: `AnswerRuns`); offer names never recur in the run; the spool's offers are exactly the pending ones; something pending keeps the poll timer alive |
| `ApprovalRuns.Conservation` | src/update_coordinator/update_coordinator/node.py:476-568 | Accepted requests = verdicts sent + pending + superseded + withdrawn |
| `ApprovalRuns.OlderOfferSurvivesIff` | src/update_coordinator/update_coordinator/node.py:479-502 | In one step: an older request of the same requester stays pending, with its offer, if and only if the new one is approved because the gate is off or no head unit is up |
| `VerdictRuns.OlderOfferOutlivesIff` | src/update_coordinator/update_coordinator/node.py:479-502 | In every run that is if and only if no head unit is up, since nothing waits with the gate off |
| `AnswerRuns.ApprovedThenDenied` | src/update_coordinator/update_coordinator/node.py:476-568 | A run in which one requester gets an approval and then a denial on the same CAN id, and the vehicle stays held |
| `AnswerRuns.LeftoverApproves` | src/update_coordinator/update_coordinator/node.py:456-565 | A run in which nobody answers and silence is to deny, and an answer an earlier run left under the new offer's name approves the request |
| `AnswerRuns.DriverAnswersExplained` | src/update_coordinator/update_coordinator/node.py:430-568 | In every run over any leftover spool, an answer that decided a request was written to that request's own offer while it stood, or its name was already answered when the offer was made |
| `AnswerRuns.NewOfferStrayIff` | src/update_coordinator/update_coordinator/node.py:495-511 | In every run a new offer finds an answer not given to it if and only if its name is already answered when it is made |
| `AnswerRuns.StrayDecidesIff` | src/update_coordinator/update_coordinator/node.py:555-565 | In every run the next poll decides a request by an answer not given to its offer if and only if a pending offer bears the answer's name |
| `AnswerRuns.EveryAnswerIsGiven` | src/update_coordinator/update_coordinator/node.py:430-568 | In every run in which leftover answers carry a second before the run's first offer, time does not run back before it, and the head unit answers only offers it can have seen, every driver's decision was written to that very offer while it stood |
| `AnswerRuns.SweptAnswerNeverDecides` | src/update_coordinator/update_coordinator/node.py:456-474 | In every run an answer an earlier run left together with its offer decides nothing: a verdict under that name takes an answer written in this run |
| `SecuredRuns.BusKeepsInv` | src/update_coordinator/update_coordinator/node.py:258-307 | Any frame on the bus makes the coordinator take in a request exactly if SecOC accepts it under a REQUEST identifier, for that requester and slot |
| `SecuredRuns.WireIsRun` | src/update_coordinator/update_coordinator/node.py:262-290 | The counters of the joined system go through a run of the sender and receiver model, identifiers chosen by CAN id and magic byte |
| `SecuredRuns.ReplayNeverAsksAgain` | src/update_coordinator/update_coordinator/node.py:258-307 | In every run with a hostile bus and coordinator restarts, the requests ever taken in are exactly the accepted REQUEST frames, in order; those are distinct and each was built by its peer with that slot |
| `VerdictRuns.EveryVerdictIsFair` | src/update_coordinator/update_coordinator/node.py:476-568 | In every run a verdict without the driver is an approval sent with the request, or the configured default sent no earlier than the deadline; the driver is asked only when approval is required |
| `HoldRuns.OnlyApprovedHold` | src/update_coordinator/update_coordinator/node.py:538-544 | In every run whoever has an active update was started by an act already logged: an approval sent at the moment the update became active, or the computer's own start |
| `HoldRuns.LockNeedsApproval` | src/update_coordinator/update_coordinator/node.py:535-610 | In every run, before each lock call in the one log of verdicts, self-starts and calls stands the approving verdict of an update active at the call, or the start of a self-update active at the call |
| `HoldRuns.EveryCallFits` | src/update_coordinator/update_coordinator/node.py:600-610 | In every run each call, at the moment it is made, asks for the lock if and only if some update is active; the log is exactly the verdicts and the calls, merged |
| `TimingRuns.RunInTime` | src/update_coordinator/update_coordinator/node.py:546-568 | With polls at most 100 ms apart while the timer lives, no request stays pending past a poll after its deadline |
| `TimingRuns.VerdictsBeatThePeer` | src/update_coordinator/update_coordinator/node.py:115-124 | Under the same schedule every verdict goes out less than 30.1 s after a request of the cluster and 9.6 s after one of the ESP32, within the 60 s and 10 s they wait |
| `LockRuns.HandlersUpdate` | src/update_coordinator/update_coordinator/node.py:581-651 | Every handler that can change the active set leaves what a lock check leaves, or has changed neither set nor lock |
| `LockRuns.PollEachPolled` | src/update_coordinator/update_coordinator/node.py:555-565 | What a whole poll does to the lock: a non-empty set stays so, at most one call is made, and it asks for the opposite of the known lock state |
| `LockRuns.MismatchIsExcused` | src/update_coordinator/update_coordinator/node.py:581-631 | In every run, with no call in flight, the lock differs from the set being non-empty, or a non-empty set lacks its timer, only if since the last agreement the set's emptiness changed during a call, the service was not ready, or a call failed |
| `LockRuns.CompletionAgreesIff` | src/update_coordinator/update_coordinator/node.py:621-631 | A successful completion leaves agreement if and only if the set is as the call assumed |
| `LockRuns.LockedForNobody` | src/update_coordinator/update_coordinator/node.py:596-651 | A run that ends locked with nothing active and no call in flight |
| `LockRuns.UpdateRunsUnlocked` | src/update_coordinator/update_coordinator/node.py:596-651 | A run that ends unlocked with an active update and no timeout timer |
| `LockRuns.UnlockedForNotReady` | src/update_coordinator/update_coordinator/node.py:612-615 | A run whose mismatch is excused by the service not being ready alone |
| `LockRuns.UnlockedForFailedCall` | src/update_coordinator/update_coordinator/node.py:621-631 | A run whose mismatch is excused by a failed call |
| `LockRuns.TimersDoNotRepair` | src/update_coordinator/update_coordinator/node.py:555-594 | A lock held for nobody, with nothing pending, survives every timer tick |
| `LockRuns.TrafficRepairs` | src/update_coordinator/update_coordinator/node.py:252-256 | With the service ready, the next drained CAN queue leaves agreement or makes the right call |
| `LockRuns.ExpiryReleases` | src/update_coordinator/update_coordinator/node.py:581-594 | A timeout tick ends exactly the updates older than the limit, and asks for the unlock if and only if all were |
| `LockRuns.ApprovedBeforeLocked` | src/update_coordinator/update_coordinator/node.py:529-544 | A poll's approval is logged first, and the lock call right after it in the same handler if and only if no call is in flight, the service is ready and the vehicle is not locked |
| `LockRuns.UnaskedBeforeLocked` | src/update_coordinator/update_coordinator/node.py:476-507 | The same of an approval given without asking |
| `PollRuns.PollCallsAt` | src/update_coordinator/update_coordinator/node.py:555-610 | If a poll makes a call, it makes it right after one of its requests, and at that moment it matches the active set |
| `PollRuns.PollOvertakesUnlockIff` | src/update_coordinator/update_coordinator/node.py:555-565 | In every run a poll ends with an unlock called for and somebody active if and only if it began locked with nobody active and the service ready, and denied a request before approving the first |
| `PollRuns.PollOvertakesUnlock` | src/update_coordinator/update_coordinator/node.py:555-565 | A run from start-up in which that happens |
| `LockProtocol.CoordinatorStep` | src/update_coordinator/update_coordinator/node.py:596-619 | Any coordinator event makes at most one call, none while one is in flight, and for the opposite of the lock state it knows |
| `LockProtocol.CallsMatchTheSet` | src/update_coordinator/update_coordinator/node.py:600-610 | Whatever the event, at the moment of the request a lock is asked for with a non-empty active set and an unlock with an empty one |
| `LockProtocol.LockStatesAgree` | src/update_coordinator/update_coordinator/node.py:596-631 | In every run of both nodes, restarts of either included and requests in flight lost or carried out late: at most one call of the present coordinator in flight, exactly while it says so; with none, is_locked equals locked_ if and only if nothing else has set the lock since the coordinator's last call, or has set it to what it believes; the calls carried out for any one coordinator alternate, lock first |
| `LockProtocol.AgreeAfterRestartIff` | src/update_coordinator/update_coordinator/node.py:198-210 | In every run whose restarts lose the request in flight, with no call in flight both sides agree if and only if the server was not locked at the last restart or a call has been carried out since; a lock found ends with the coordinator's own first unlock |
| `LockProtocol.FirstCallIsLock` | src/update_coordinator/update_coordinator/node.py:198-210 | In every run with restarts, the present coordinator's first call is a lock, whatever it found |
| `LockProtocol.RestartLeavesLock` | src/update_coordinator/update_coordinator/node.py:198-210 | A run with a restart that ends locked with the coordinator believing the opposite and nothing to ask for |
| `LockProtocol.LocksRepeat` | src/update_coordinator/update_coordinator/node.py:198-210 | A run in which, across a restart, two locks in a row are carried out |
| `StopServer.EmergencyStopServer.OnLock` | src/ackermann_bringup/src/emergency_stop_server.cpp:57-78 | A lock snapshots the goal in flight, disarms the restore timer and publishes the lock |
| `StopServer.EmergencyStopServer.OnUnlock` | src/ackermann_bringup/src/emergency_stop_server.cpp:80-96 | An unlock re-arms the restore timer if a goal is saved and publishes the release |
| `StopServer.EmergencyStopServer.OnGoalPose` | src/ackermann_bringup/src/emergency_stop_server.cpp:105-115 | A new goal is remembered and drops the saved one only while locked |
| `StopServer.EmergencyStopServer.OnNavStatus` | src/ackermann_bringup/src/emergency_stop_server.cpp:117-129 | Navigation counts as active exactly when some goal is accepted or executing |
| `StopServer.EmergencyStopServer.SaveGoalForRestore` | src/ackermann_bringup/src/emergency_stop_server.cpp:131-149 | The last goal is saved if enabled and navigation is active; otherwise an older save stays |
| `StopServer.EmergencyStopServer.ScheduleGoalRestore` | src/ackermann_bringup/src/emergency_stop_server.cpp:159-166 | The timer is armed exactly when a goal is saved, else left as it was |
| `StopServer.EmergencyStopServer.OnRestoreTimer` | src/ackermann_bringup/src/emergency_stop_server.cpp:168-186 | What the timer publishes and leaves, both guards included |
| `StopServer.RunKeepsInv` | src/ackermann_bringup/src/emergency_stop_server.cpp:57-187 | Over every run the timer is armed exactly when unlocked with a saved goal; every republished goal is, up to its stamp, the one in flight at a lock that found navigation active, each lock at most once and in order; saves = republished + discarded while locked + overwritten + currently saved |
| `StopServer.TimerGuardsRedundant` | src/ackermann_bringup/src/emergency_stop_server.cpp:171-173 | In every run an armed timer that fires republishes: neither guard ever holds |
| `StopServer.RepublishesNewestIff` | src/ackermann_bringup/src/emergency_stop_server.cpp:105-115 | What will be republished is the newest goal if and only if no different goal arrived unlocked since the snapshot |
| `StopServer.OldGoalOvertakesNew` | src/ackermann_bringup/src/emergency_stop_server.cpp:105-187 | A run in which the driver's newer goal is followed by the restored older one |
| `StopServer.KnowsTheLast` | src/ackermann_bringup/src/emergency_stop_server.cpp:105-129 | In every run the server holds the last goal message, and takes navigation for active if and only if the last status message lists a status 1 or 2 |
| `StopServer.LockSavesIff` | src/ackermann_bringup/src/emergency_stop_server.cpp:131-149 | In every run a lock saves the last goal message if restoring is enabled and the last status message lists a status 1 or 2, and otherwise leaves what was saved |
| `SerialComms.SerialPort.Checksum` | src/ackermann_hardware/src/include/ackermann_hardware/serial_comms.hpp:134-138 | The wrapping byte sum is the sum of the first 35 bytes modulo 256 |
| `SerialComms.ValidIffSealed` | src/ackermann_hardware/src/include/ackermann_hardware/serial_comms.hpp:127-145 | A packet is valid if and only if it is the header AA 55, 33 payload bytes and the low byte of their sum from first to last, that is, what a sender makes of its payload |
| `SerialComms.SerialPort.FindNewest` | src/ackermann_hardware/src/include/ackermann_hardware/serial_comms.hpp:127-145 | The backward search finds the last valid packet of the buffer, or none if there is none |
| `SerialComms.SerialPort.ReadSensorValues` | src/ackermann_hardware/src/include/ackermann_hardware/serial_comms.hpp:105-170 | Packet and kept buffer of a call are those of the specification on buffer plus received bytes |
| `SerialComms.ReadMeetsSpec` | src/ackermann_hardware/src/include/ackermann_hardware/serial_comms.hpp:105-170 | A call keeps a suffix of at most 476 bytes without a valid packet, and delivers the newest valid packet, just before that suffix |
| `SerialComms.RunKeepsInv` | src/ackermann_hardware/src/include/ackermann_hardware/serial_comms.hpp:105-170 | For any chunking, after each call the buffer is such a suffix of the stream, and deliveries are disjoint valid packets in stream order |
| `SerialComms.StepDelivers` | src/ackermann_hardware/src/include/ackermann_hardware/serial_comms.hpp:117-162 | A valid packet that now ends the stream, untouched by earlier deliveries and with at most 512 bytes buffered, is what this call returns, and it empties the buffer |
| `SerialComms.SerialSession` | src/ackermann_hardware/src/include/ackermann_hardware/serial_comms.hpp:105-170 | Both, for every run of this reader |
| `CanComms.CanLink.ReadSensorValues` | src/ackermann_hardware/src/can_comms.cpp:80-169 | Per source the last frame drained; freshness per source; the accepted sequence number moves only with an accepted sample |
| `CanComms.CanLink.Write` | src/ackermann_hardware/src/can_comms.cpp:171-194 | A failed write is transient exactly if it was refused for the moment (full queue or signal), and a written frame clears the mark |
| `CanComms.LastOfKept` | src/ackermann_hardware/src/can_comms.cpp:89-135 | Draining any queue gives for a source what draining only its frames gives: the last one |
| `CanComms.DrainHoldsEach` | src/ackermann_hardware/src/can_comms.cpp:89-135 | After a drain each of the four sources, steering feedback included, holds exactly the last frame of its kind in the queue, and nothing if there was none |
| `CanComms.EncoderStandsAlone` | src/ackermann_hardware/src/can_comms.cpp:137-139 | Encoder result and freshness depend on the 0x110 frames alone, so no IMU fault alters them |
| `CanComms.ImuValidIff` | src/ackermann_hardware/src/can_comms.cpp:145-166 | In every run an IMU sample is valid if and only if both halves arrived, their last sequences match, and differ from that of the last valid one |
| `CanComms.ImuStaleIff` | src/ackermann_hardware/src/can_comms.cpp:145-166 | In every run it is called stale if and only if both halves arrived and match under the sequence of the last valid one |
| `CanComms.FreshSamplesAdvance` | src/ackermann_hardware/src/can_comms.cpp:156-166 | In every run successive valid samples carry different sequence numbers, 255 to 0 included |
| `HardwareSystem.AckermannSystem.OnActivate` | src/ackermann_hardware/src/ackermann_system.cpp:268-313 | Activation re-baselines odometry and calibration and leaves the write counters alone |
| `HardwareSystem.AckermannSystem.Read` | src/ackermann_hardware/src/ackermann_system.cpp:342-571 | One connected read over any queue takes both sensors to the state of the specification and reports its error decision; `ReadRuns` says of these what the frames received have to do with them; a read without connection changes nothing |
| `HardwareSystem.AckermannSystem.UpdateGyro` | src/ackermann_hardware/src/ackermann_system.cpp:483-512 | Settling, sampling, calibrated and crashed cases of one IMU sample |
| `HardwareSystem.AckermannSystem.UpdateOdometry` | src/ackermann_hardware/src/ackermann_system.cpp:519-566 | Positions, velocities over measured time, hold and escalation of one cycle |
| `HardwareSystem.AckermannSystem.Write` | src/ackermann_hardware/src/ackermann_system.cpp:573-694 | Commands are sent clamped to 0.286 rad and 18.77 rad/s, both frames are attempted, counters and error are those `WriteRuns` is about, and a cycle with both frames written succeeds and resets both counters |
| `HardwareSystem.AccumulatorIsAge` | src/ackermann_hardware/src/ackermann_system.cpp:519-566 | Over any pattern of missed frames enc_dt_accum_ is the measured time since the last fresh frame or activation, and a connected read fails exactly when none arrived and that age is at least 0.333 s |
| `HardwareSystem.VelocityIntegrates` | src/ackermann_hardware/src/ackermann_system.cpp:521-538 | Published velocity times interval, summed over fresh cycles, plus what fell into intervals of at most 0.1 ms, is the position since activation |
| `HardwareSystem.NothingLost` | src/ackermann_hardware/src/ackermann_system.cpp:521-538 | With periods above 0.1 ms the latter is zero, however many frames were missed |
| `HardwareSystem.PositionIsLastCount` | src/ackermann_hardware/src/ackermann_system.cpp:521-545 | Each wheel's position is its own count in the last fresh frame, in radians |
| `HardwareSystem.VelocityAddsUp` | src/ackermann_hardware/src/ackermann_system.cpp:519-538 | So, with such periods, published velocities add up to exactly the angle last counted |
| `HardwareSystem.OffsetIsMean` | src/ackermann_hardware/src/ackermann_system.cpp:485-502 | The gyro offset is the mean of the first 200 samples after the 45 settling ones, crashes left out; until then calibration goes on |
| `HardwareSystem.PublishedRate` | src/ackermann_hardware/src/ackermann_system.cpp:504-512 | The yaw rate published is zero until then and during crashes, else raw less that mean |
| `ReadRuns.WheelsFollowFrames` | src/ackermann_hardware/src/ackermann_system.cpp:519-530 | After any reads since activation the left wheel stands at radsPerCount times the left field, and the right wheel at radsPerCount times the right field, of the last velocity frame in all queues received |
| `ReadRuns.WheelsStartAtRest` | src/ackermann_hardware/src/ackermann_system.cpp:281-288 | While none was received both wheels stand at zero, at rest |
| `ReadRuns.ReadFailsIff` | src/ackermann_hardware/src/ackermann_system.cpp:517-566 | In every run a connected read fails if and only if its queue has no velocity frame and the measured time since the last read with one, or since activation, is at least 0.333 s |
| `ReadRuns.VelocityIsTurnOverTime` | src/ackermann_hardware/src/ackermann_system.cpp:521-541 | In every run a read with a velocity frame publishes for each wheel the angle turned since the last such read over the measured time since then, or holds its velocity if that is at most 0.1 ms; a read without one holds position and velocity |
| `ReadRuns.GyroFollowsFrames` | src/ackermann_hardware/src/ackermann_system.cpp:459-513 | In every run the gyro has seen exactly the z rate and crash flag of the last gyro frame of each read whose last two IMU halves match under a new number |
| `ReadRuns.YawRateFollowsFrames` | src/ackermann_hardware/src/ackermann_system.cpp:483-513 | In every run such a read publishes its own z rate less the mean of the first 200 usable ones, zero before and during crashes; every other read leaves the rate alone |
| `HardwareSystem.CountersMean` | src/ackermann_hardware/src/ackermann_system.cpp:656-691 | Since the last successful cycle one counter is the trailing run of hard-classified cycles, the other the number of transient ones |
| `WriteRuns.CountersAreRuns` | src/ackermann_hardware/src/ackermann_system.cpp:656-691 | From any outcomes of both frames of every cycle, successes included: one counter is the stretch of last cycles that failed and not for the moment, the other the number of cycles since the last success whose motor frame was refused for the moment |
| `WriteRuns.WriteErrorIff` | src/ackermann_hardware/src/ackermann_system.cpp:656-694 | In every run a connected write reports an error if and only if not both frames were written and either the motor frame was refused for the moment, as in at least 90 cycles since the last success, or it was not and the last five cycles were all failures of that kind |
| `HardwareSystem.FailuresAreReported` | src/ackermann_hardware/src/ackermann_system.cpp:656-691 | From a successful cycle on, no 450 consecutive failing cycles avoid an error |
| `HardwareSystem.StutterIsQuiet` | src/ackermann_hardware/src/ackermann_system.cpp:656-691 | Up to 449 failing cycles, four hard and one transient over and over, raise none |
| `HardwareSystem.LastingFailure` | src/ackermann_hardware/src/can_comms.cpp:183-218 | A lasting failure stays unreported for under 90 cycles if the motor frame is refused for the moment, and for under 5 in every other case, a full queue for the steering frame alone included |
| `BeamTrace.NearestUnique` | src/ackermann_simulation/tools/clean_map_from_bag.py:121-134 | The shorter axis of the closed form is the one multiple within half a cell of the ideal line |
| `BeamTrace.StepFollows` | src/ackermann_simulation/tools/clean_map_from_bag.py:129-134 | One loop iteration, with its two tests on the doubled error, takes the closed form from step n to n + 1 in every octant |
| `BeamTrace.WithinHalfCell` | src/ackermann_simulation/tools/clean_map_from_bag.py:121-134 | At step n the longer axis has advanced n and the shorter is within half a cell of n * minor / major, in every octant |
| `BeamTrace.EndsMeet` | src/ackermann_simulation/tools/clean_map_from_bag.py:123-124 | The trace starts at the sensor cell and reaches the return cell after exactly max(dc, dr) steps |
| `BeamTrace.VisitsAreDistinct` | src/ackermann_simulation/tools/clean_map_from_bag.py:124-134 | A trace never visits a cell twice |
| `BeamTrace.ReturnNotSeenThrough` | src/ackermann_simulation/tools/clean_map_from_bag.py:124-128 | The return cell is never among those counted as seen through |
| `MapCleaner.MapEvidence.constructor` | src/ackermann_simulation/tools/clean_map_from_bag.py:84-107 | Occupied cells are those at 65 or more, and both counters start empty |
| `MapCleaner.MapEvidence.AddBeam` | src/ackermann_simulation/tools/clean_map_from_bag.py:121-138 | The loop stops at the return cell after max(dc, dr) iterations, or after exactly 600 on a longer beam; each occupied cell crossed before the return gains one look, the return cell one hit, nothing else changes |
| `MapCleaner.MapEvidence.AddBeams` | src/ackermann_simulation/tools/clean_map_from_bag.py:109-138 | After any list of beams an occupied cell's counters are the numbers of distinct beams that crossed it and that returned from it |
| `MapCleaner.MapEvidence.StaleCells` | src/ackermann_simulation/tools/clean_map_from_bag.py:140-141 | A cell is erased exactly if occupied, with at least 50 looks and hits at most 2% of looks |
| `MapCleaner.CrossedOnce` | src/ackermann_simulation/tools/clean_map_from_bag.py:124-134 | No grid cell is counted twice by one beam |
| `MapCleaner.FlipCoversOnce` | src/ackermann_simulation/tools/clean_map_from_bag.py:153-166 | Every output pixel is the image of exactly one grid cell under the row flip |
| `MapCleaner.WriteRaster` | src/ackermann_simulation/tools/clean_map_from_bag.py:150-166 | Both images, every pixel: erased cells 254 and 0 in the diff, every other cell with its own level and class |
| `MapCleaner.Clean` | src/ackermann_simulation/tools/clean_map_from_bag.py:84-166 | Counting, erasing and writing together: pixel row h - 1 - r is 254 for a cell that 50 beams looked through and at most 2% as many returned from, else 0 from 65 on, 205 below 0 and 254 otherwise, and reads back under the written thresholds as that class; the diff is 0 exactly at the erased cells |
| `ManualOverride.Override.OnDisarm` | src/ackermann_bringup/src/xbox_override.py:362-368 | Disarming clears both triggers, and starts a tail only if engaged |
| `ManualOverride.Override.Trigger` | src/ackermann_bringup/src/xbox_override.py:370-385 | A trigger arms when seen at rest and reads as zero until then |
| `ManualOverride.Override.OnTick` | src/ackermann_bringup/src/xbox_override.py:387-475 | State and published message of a tick in every case, stale pad included |
| `ManualOverride.ArmedMeansSeen` | src/ackermann_bringup/src/xbox_override.py:387-413 | In every run a trigger is armed if and only if a tick saw it at 0.90 or more and no tick since found the pad stale; engaged implies both armed |
| `ManualOverride.ThrottleRange` | src/ackermann_bringup/src/xbox_override.py:379-385 | A trigger reads as pressed below the rest threshold and as zero above it, between 0 and 1 |
| `ManualOverride.CommandWithinCaps` | src/ackermann_bringup/src/xbox_override.py:453-465 | A command is within the speed and steering caps, still with both triggers pressed, and has no yaw rate without speed |
| `ManualOverride.MotionNeedsTheOperator` | src/ackermann_bringup/src/xbox_override.py:387-475 | In every run anything but zeros is published only with a fresh message, RB held, both triggers seen at rest since the pad was last stale and not both pressed, within the caps |
| `ManualOverride.EngagedTickDrives` | src/ackermann_bringup/src/xbox_override.py:387-466 | In every run a tick leaves the override engaged if and only if the last message is fresh with RB held and both triggers were seen at rest; it then publishes forward speed in the share RT is pulled of its cap, backward in that of LT, none for neither or both; an angle to the side of the stick, zero in the dead zone and at the cap from full deflection; and the yaw rate with wz * wheelbase = vx * tan(angle) |
| `ManualOverride.FurtherInIsFaster` | src/ackermann_bringup/src/xbox_override.py:379-459 | Of any two engaged ticks with the same trigger alone pressed, further in is at least as fast, forward for RT and backward for LT, and strictly so before full travel with a positive cap |
| `ManualOverride.TailFollowsDisengagement` | src/ackermann_bringup/src/xbox_override.py:362-368 | In every run tail_until is the last disengagement plus the tail, by either path |
| `ManualOverride.SilentExactlyAfterTail` | src/ackermann_bringup/src/xbox_override.py:442-475 | Left disengaged, a tick publishes zeros until the tail is over and nothing from then on |
| `ParamRewriter.FindOverride` | src/ackermann_simulation/tools/mkparams.py:27-35 | The first override whose last component is the key and whose scope, if any, is the parent |
| `ParamRewriter.MatchesIff` | src/ackermann_simulation/tools/mkparams.py:27-32 | An override without a dot concerns its key under any parent; a dotted one its last component directly under its last but one, whatever stands before |
| `ParamRewriter.FirstMatchWins` | src/ackermann_simulation/tools/mkparams.py:20-44 | A file in which the first of two matching overrides wins, an undotted one reaches a top-level key, and a block does not enclose a line indented like itself |
| `ParamRewriter.PopToParent` | src/ackermann_simulation/tools/mkparams.py:24-26 | After the pops the stack is the blocks enclosing the line, and its top is the parent by the simple definition |
| `ParamRewriter.PopLeavesEnclosing` | src/ackermann_simulation/tools/mkparams.py:24-25 | Popping by indentation leaves exactly the earlier blocks that enclose the line, indents still rising |
| `ParamRewriter.TopIsParent` | src/ackermann_simulation/tools/mkparams.py:26-32 | The top of that stack is the latest enclosing block |
| `ParamRewriter.PushCompletesStack` | src/ackermann_simulation/tools/mkparams.py:38-42 | Pushing a line with an empty value, and no other, makes the stack right for the next line |
| `ParamRewriter.HandleKey` | src/ackermann_simulation/tools/mkparams.py:22-43 | One key line: output, parent and stack all as the simple definition has them |
| `ParamRewriter.Rewrite` | src/ackermann_simulation/tools/mkparams.py:20-44 | The one-pass stack refines the simple definition: line count is preserved, and only key lines some override matches under their parent change, by the first such override; the hits are those lines |
| `ParamRewriter.ListedMissingIff` | src/ackermann_simulation/tools/mkparams.py:47-48 | An override is listed as not found if and only if no line with its last component was rewritten by any override |
| `ParamRewriter.UnusedYetUnlisted` | src/ackermann_simulation/tools/mkparams.py:47-48 | A file and two overrides with one unused and yet not listed |
| `NavProbe.SplitAtCusps` | src/ackermann_simulation/tools/nav_probe.py:95-106 | The loop builds exactly the pieces between successive reversals, and the filter keeps the long ones |
| `CuspGeometry.CuspIffAcute` | src/ackermann_simulation/tools/nav_probe.py:96-100 | A plan doubles back at b between a and c if and only if the squared distance from a to c is less than those over b together |
| `CuspGeometry.CuspIffTurns` | src/ackermann_simulation/tools/nav_probe.py:96-100 | Along a line it doubles back exactly where the position along the line turns, strictly on both sides |
| `CuspGeometry.CuspIffBehind` | src/ackermann_simulation/tools/nav_probe.py:96-100 | With the next point k times the step beyond b it does so exactly for negative k |
| `CuspGeometry.ForwardPlanIsOneRun` | src/ackermann_simulation/tools/nav_probe.py:95-106 | A plan that never goes back along its line has no cusp, is one run and is returned whole |
| `CuspGeometry.OutAndBackSplitsOnce` | src/ackermann_simulation/tools/nav_probe.py:95-106 | A plan out along a line and back has one cusp, at the turning point, and splits into the way out and the way back |
| `NavProbe.RunsPartition` | src/ackermann_simulation/tools/nav_probe.py:95-105 | Before filtering the runs rejoin to the plan, neighbours share exactly their reversal point, and no run has a reversal inside it |
| `NavProbe.LongInOrder` | src/ackermann_simulation/tools/nav_probe.py:106 | Returned are exactly the runs of three or more points, in order |
| `NavProbe.CuspCountExactIff` | src/ackermann_simulation/tools/nav_probe.py:126-144 | The reported cusp count never exceeds the number of reversals and equals it if and only if none is next to an end or to another |
| `NavProbe.FootIsNearest` | src/ackermann_simulation/tools/nav_probe.py:68-77 | No point of the segment is nearer than the one the distance is measured to, coinciding ends included |
| `NavProbe.FootOnSegment` | src/ackermann_simulation/tools/nav_probe.py:74-77 | That point lies on the segment |
| `NavProbe.PairUp` | src/ackermann_simulation/tools/nav_probe.py:338-342 | One pass pairs every output with the latest input not after it, or the first if all are later |

## Left out

- AES-CMAC itself, key loading and the CAN sockets: foreign calls; the MAC is a parameter.
- A counter file that is missing or unreadable reads as 0: state is assumed to survive.
- ROS plumbing, launch files, logging, parameters, maps and worlds: no logic of their own.
- World-to-cell conversion, pose chaining and the float rounding of 2% of the looks: the map tool is modelled from cells on.
- Completion notices, the age of the head unit's liveness file and the offers' JSON: inputs or cosmetic.
- SecuredRuns.ReplayNeverAsksAgain: follows inbound frames only; the send counters of the coordinator's own verdicts are covered by the sender side of `SecOcRuns`.
- Offers of other producers in the spool, and offer files of this node's targets that appear by other hands.
- Exceptions from CAN sends and from the self-update flag file, and the flag's recovery at start-up, which finds nothing active.
- Coordinator.UpdateCoordinator.PollApprovals: the order of the pending dictionary is any list of its keys.
- TimingRuns.VerdictsBeatThePeer: the schedule of polls is assumed, not derived from the executor.
- ManualOverride.ThrottleRange: says nothing of a trigger at 0.90 itself, where rounding decides.
- ManualOverride.EngagedTickDrives: the speed with a trigger at exactly 0.90 is left open, for the same reason.
- Coordinator.UpdateCoordinator.ResolveOne: a failure to take an offer or answer file down, which the code ignores, is assumed not to happen.
- LockProtocol.LockStatesAgree: a call whose answer never comes stays in flight; nothing is said of when answers come.
- StopServer.EmergencyStopServer.OnLock: the cancel request to the navigator and the repeated 100 ms lock message are not modelled.
- StopServer.EmergencyStopServer.OnRestoreTimer: the delay before it fires is not modelled, only that it may fire while armed.
- HardwareSystem.AckermannSystem.OnActivate: the reset and centring frames it sends are not modelled.
- HardwareSystem.AckermannSystem.Read: accelerations, the steering feedback fit and the pot's fault flags are not modelled.
- SerialComms.SerialPort.ReadSensorValues: the packet is delivered as bytes; its fields are not decoded.
- CAN frames shorter than their message, and errors of the receive call other than an empty queue.
- NavProbe.FootIsNearest: speaks of squared distances; the square root is left out.
- NavProbe.CuspCountExactIff: the length test before the metrics, and curvature and radius, are not modelled.
- Pad auto-detection, event-device reading, argument parsing, the out-of-range index branch and the closing burst of zeros of the override.
- The regular expression that recognises a key line, and reading and writing the parameter file.
- Steering-wheel geometry, IMU scaling, the camera, sign and road-class nodes and the world generators: one-line algebra or thin wrappers.
- Floating-point rounding, trigonometric accuracy and clock jumps.
