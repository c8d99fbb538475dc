# tcan: the protocols of a threaded bus library

This project models the stateful core of tcan, a C++ library that drives CAN and other buses from
several threads, and proves what its protocols guarantee over every run. Each source file that changes
things in place is modelled by a class with the same fields and methods (`DeviceCanOpen`, `CanDevice`,
`CanMsg`, `Bus`, `BusManager`, `CanBus`, `DeviceJ1939`); each method is proved to do what a
specification function says, and the theorems are about those functions and about runs of them. The
threads around an output queue are a step system whose actions interleave freely.

| files | what they are about |
|---|---|
| `SdoQueue.dfy`, `SdoRetry.dfy` | the CANopen SDO queue as a state with ghost history: every submission has a ticket, and a log says which tickets the bus was handed. First in first out, one outstanding request, the retry schedule, the time to drain |
| `SdoAnswers.dfy` | the map of received answers, seen by the object an answer is about |
| `CanOpenModel.dfy`, `DeviceCanOpen.dfy`, `CanDevice.dfy` | a whole CANopen device: life cycle, queue, answers, default callbacks that run with the queue mutex released; a simulation theorem carries every theorem on the queue over to devices |
| `TransmitMonitor.dfy`, `Delivery.dfy`, `WakeUps.dfy`, `SyncAllBuses.dfy`, `SyncProgress.dfy`, `SyncCallers.dfy` | the monitor of an asynchronous bus: mutex, two condition variables, a transmit thread that drops the lock while it writes, any number of senders and waiters; then many such buses and one thread in `sendSyncOnAllBuses(true)`, and several of them |
| `Bus.dfy`, `BusManager.dfy` | passive mode and error flags over frame sequences; the synchronous round-robin scheduler with failing writes |
| `CanBus.dfy`, `BusDevice.dfy`, `J1939.dfy` | masked dispatch of frames, from the identifier to the callback and, for SAE J1939, to the parser; the sanity check of all devices of a bus, each by its own override, and whole runs of a bus |
| `CanMsg.dfy`, `SdoMsg.dfy` | the little-endian codec and the SDO and NMT messages |
| `FilterCalculator.dfy` | the script that derives a CAN filter and mask from a range of identifiers |

How to read the model:

* Unsigned counters are 32 bits wide and wrap (`Words.Increment`). Where a theorem needs that a counter
  does not wrap, the exact condition is stated, and what happens without it is proved too.
* A window (`window`, `before`, `after`) is the list of submissions made by other threads and callbacks
  while an operation has released the queue mutex. It is arbitrary, but other parties only append: they do
  not check for timeouts, answer or clear meanwhile. The code needs that, since `sendNextSdo` pops without a
  test; `SdoRetry.CheckInsideWindow` says exactly what a timeout check inside a window does.
* Submitted messages that wait for an answer have all eight data bytes. SDO answers have at least the four
  bytes that name their object; the branches that read the data of an answer need all eight.
* A device's `sent` / `bus` is what was handed to `sendMessage` of the bus, in order.
* Writes to a device either succeed, would block, or fail; receptions are a frame, nothing, or a failure.
  Both are arbitrary inputs.

## Where the code differs from its own description

* The option comment calls `maxSdoSentCounter_` the number of tries of a transmission. The code sends a
  request S + 2 times for a value S: once, and S + 1 times again. This is because `sdoSentCounter_ > S` is
  tested before the increment, and `sdoTimeoutCounter_` is not reset by a resend, so that from
  check T + 2 on every check resends (`SdoRetry.UnansweredRequest`).
* `activate()` is meant to start the transmit thread on a formerly passive bus, and auto-activation to make
  the bus send again. Both change the flag without the mutex, and auto-activation notifies nobody. A frame
  stays behind when nothing more reaches the wire in any run in which nobody starts a send, activates or
  stops the bus and the transmit thread does not wake spuriously. `WakeUps.ActivateLosesWakeUp` and
  `WakeUps.AutoActivationLosesWakeUp` say exactly when that happens, `WakeUps.WakeUpsAreLost` that it does
  happen, and `WakeUps.NextPushRecovers` that the next frame queued ends it. A full queue takes no frame and
  notifies nobody, so there the loss is for good, whatever is sent (`WakeUps.StaysForGoodExactly`,
  `WakeUps.BusesFallSilent`). On a bus that is never passive
  no wake-up is lost (`WakeUps.NoLostWakeUps`).
* `stopThreads(true)` joins the transmit thread. It has the same gap: the thread never terminates exactly if
  the notifications come between its look at the flag and its sleep (`WakeUps.StopTerminatesExactly`).
* The filter script prints base-format masks of 11 bits. Such a pair is the best one among 11-bit
  identifiers, and never the best one when 29-bit identifiers count as well
  (`FilterCalculator.OptimalExactlyForExtendedRanges`).
* Dispatch takes the first matching entry of an unordered map. Which entry some frame reaches depends on the
  iteration order exactly when two overlapping matchers are registered with different entries
  (`CanBuses.OrderMatters`).
* J1939 packing shifts the fields without masking them, so it is invertible exactly for priorities up to 7
  and parameter group numbers of 18 bits (`J1939.PackRoundTrip`). A J1939 device listens to the low byte of its
  32-bit node id, so two devices compete exactly when those bytes are equal
  (`J1939.DeviceMatchersDisjoint`).

## Model

| member | source | states |
|---|---|---|
| SdoQueue.StopAndWait | tcan_can/src/DeviceCanOpen.cpp:172-257 | over every run of submissions, checks, answers and clears: what the events submitted since the last clear reaches the bus first in first out (submitted = first transmissions, then the queue without its head), repeats of one submission are contiguous and only of one that waits for an answer, and of all transmitted requests only the head is still outstanding, with all eight bytes |
| SdoQueue.RetiresExactlyTheHead | tcan_can/src/DeviceCanOpen.cpp:183-251 | any submissions during an unlock window leave the head in place; the retirement removes exactly that head, flushes the NMT commands behind it, sends the next request and resets both counters; the order of the rest is the order of submission |
| SdoQueue.SubmitAllGrows | tcan_can/src/DeviceCanOpen.cpp:42-62 | submissions to a nonempty queue send nothing and only append |
| SdoQueue.FlushClosedForm | tcan_can/src/DeviceCanOpen.cpp:241-250 | the loop sends exactly the leading run of NMT commands and then the first request, and keeps only that request and what is behind it |
| SdoQueue.NmtRunMeaning | tcan_can/src/DeviceCanOpen.cpp:245-249 | the flushed run is the longest prefix of messages that need no answer |
| SdoQueue.SubmitKeepsFifo | tcan_can/src/DeviceCanOpen.cpp:42-62 | a submission keeps the queue invariant: queue is the unretired suffix of the submissions, its head waits for an answer, the log matches the bus |
| SdoQueue.CheckKeepsFifo | tcan_can/src/DeviceCanOpen.cpp:208-233 | so does a timeout check with any window |
| SdoQueue.AnswerKeepsFifo | tcan_can/src/DeviceCanOpen.cpp:172-205 | so does an answer, matching or not, with any window |
| SdoQueue.AnswerExactly | tcan_can/src/DeviceCanOpen.cpp:172-205 | every answer about the object of the head, be it a read response, a write confirmation or an error, retires the head, resets the counters and moves up what is behind it and what its callback submitted; every other answer changes nothing |
| SdoQueue.ReadResponseCodes | tcan_can/src/DeviceCanOpen.cpp:183 | the answers that are kept are the expedited upload responses of section 7.2.4 of CiA 301 with data of unspecified size or of four, two or one bytes |
| SdoQueue.SubmitExactly | tcan_can/src/DeviceCanOpen.cpp:42-62 | nothing submitted is lost: it goes out at once if and only if nothing is queued, a request then stays with fresh counters, a command leaves, and otherwise it waits last |
| SdoQueue.SubmittedIsGiven | tcan_can/src/DeviceCanOpen.cpp:42-257 | over every run the ghost history of submissions is what the events and their windows submitted since the last clear |
| SdoQueue.BusOnlyGrows | tcan_can/src/DeviceCanOpen.cpp:42-257 | nothing handed to the bus is ever taken back |
| SdoQueue.IdleCheck | tcan_can/src/DeviceCanOpen.cpp:208-233 | a disabled check, or one on an empty queue, does nothing |
| SdoQueue.FirstTransmissionsInOrder | tcan_can/src/DeviceCanOpen.cpp:235-251 | leaving retransmissions out of what the bus was handed gives a prefix of the submissions |
| SdoQueue.FifoIsInOrder | tcan_can/src/DeviceCanOpen.cpp:42-62 | the invariant implies submitted = first transmissions followed by the queue without its head |
| SdoQueue.FifoRepeatsContiguously | tcan_can/src/DeviceCanOpen.cpp:223-228 | only the head is ever transmitted again |
| SdoQueue.FifoHasOneOutstanding | tcan_can/src/DeviceCanOpen.cpp:177-200 | the last message handed to the bus is the head of a nonempty queue, and it waits for an answer |
| SdoRetry.UnansweredRequest | tcan_can/src/DeviceCanOpen.cpp:208-233 | an unanswered request is resent on the checks T+2 to T+S+2 and on no other, and check T+S+3 retires it if and only if T+S+3 fits the 32-bit counter |
| SdoRetry.RetrySchedule | tcan_can/src/DeviceCanOpen.cpp:208-233 | after any events with k checks the head is unchanged, the counter has counted k, and the number of transmissions is one plus the resend counter |
| SdoRetry.RunKeepsSchedule | tcan_can/src/DeviceCanOpen.cpp:208-238 | in every reachable state the resend counter is max(0, timeout counter - (T+1)) and the timeout counter is at most T+S+2 |
| SdoRetry.NewHeadIsJustSent | tcan_can/src/DeviceCanOpen.cpp:235-251 | whatever brings a new head, that request has been sent exactly once and its counters start at zero |
| SdoRetry.LastCheck | tcan_can/src/DeviceCanOpen.cpp:217-228 | the check that ends the period retires the head exactly when no counter wrapped |
| SdoRetry.CheckInsideWindow | tcan_can/src/DeviceCanOpen.cpp:188-221 | a timeout check that runs inside the window of an answer: if it counts or resends, the answer retires the same request with the same effect; if it gives up, the answer retires the next request, just sent and unanswered, or finds the queue empty |
| SdoRetry.DrainsExactly | tcan_can/src/DeviceCanOpen.cpp:208-251 | without answers and new requests the queue is empty exactly from check (requests queued)*(T+S+3) - timeout counter on |
| SdoRetry.CheckLowersMeasure | tcan_can/src/DeviceCanOpen.cpp:208-251 | each check on a nonempty queue lowers that number by exactly one, whether it waits, resends, or retires and flushes |
| SdoRetry.NmtKeepsMeasure | tcan_can/src/DeviceCanOpen.cpp:42-62 | NMT submissions do not change the time to drain |
| SdoAnswers.AnswerIdInjective | tcan_can/src/DeviceCanOpen.cpp:259-261 | different objects have different answer ids |
| SdoAnswers.StoreChangesOne | tcan_can/src/DeviceCanOpen.cpp:184-187 | an answer stored under its id is found for its own object and changes what is found for no other |
| SdoAnswers.RemoveChangesOne | tcan_can/src/DeviceCanOpen.cpp:54-58 | an erased one is not found any more, and no other object is affected |
| CanOpenModel.DeviceRunsItsQueue | tcan_can/src/DeviceCanOpen.cpp:23-134 | simulation: every run of a device takes its queue through a legal run of the queue alone, so all theorems on queue runs hold inside devices |
| CanOpenModel.DeviceStopAndWait | tcan_can/src/DeviceCanOpen.cpp:23-251 | the queue theorem over every run of a whole device with its default callbacks |
| CanOpenModel.DeviceKeepsSchedule | tcan_can/src/DeviceCanOpen.cpp:208-238 | the retry counters of a device are on the schedule in every reachable state |
| CanOpenModel.DeviceDrainsExactly | tcan_can/src/DeviceCanOpen.cpp:23-36 | over every run without answers, resets and new requests, the queue of a device that does not time out is empty exactly from sanity check (requests queued)*(T+S+3) - timeout counter on, although its own handler may submit an NMT stop |
| CanOpenModel.SanityCheckLowersMeasure | tcan_can/src/DeviceCanOpen.cpp:23-36 | a sanity check that does not time out brings the queue one check closer to empty |
| CanOpenModel.FetchesTheLatestAnswer | tcan_can/src/DeviceCanOpen.cpp:80-89 | over every run of events a fetch for an object returns a frame if and only if it was received as a read response to the current request for that object, and since then none was received for it, no fetch for it was made, and no request for it went out at once |
| CanOpenModel.FetchedAtMostOnce | tcan_can/src/DeviceCanOpen.cpp:80-89 | after a fetch for an object, a later one succeeds only if an answer for it was received in between |
| CanOpenModel.LookupExactly | tcan_can/src/DeviceCanOpen.cpp:54-89 | what every event does to what can be fetched for every object: stores, takes away, or leaves it |
| CanOpenModel.AnswerRetiresRequest | tcan_can/src/DeviceCanOpen.cpp:172-205 | in a device too every answer about the current object retires the request, with the stop command of an error between the submissions of others; any other answer leaves the whole device as it is |
| CanOpenModel.AnswerIsFresh | tcan_can/src/DeviceCanOpen.cpp:54-58 | an answer fetched after a request that went out at once was received after that request |
| CanOpenModel.StepBringsAnswer | tcan_can/src/DeviceCanOpen.cpp:181-187 | only a read response to the head of the queue puts a new answer in the map, under its own object |
| CanOpenModel.CounterCountsChecks | tcan_can/include/tcan_can/CanDevice.hpp:115-127 | over every run the timeout counter is the number of sanity checks made while not missing since the last handled message or restart, modulo 2^32 |
| CanOpenModel.TimeoutExact | tcan_can/src/DeviceCanOpen.cpp:23-36 | a check makes a device missing if and only if the limit M is not zero and the number of such checks before it, modulo 2^32, is at least M+1 |
| CanOpenModel.ErrorIsSticky | tcan_can/include/tcan_can/CanDevice.hpp:104-113 | no run leads from error to active without missing or initializing in between |
| CanOpenModel.MissingHasACause | tcan_can/src/DeviceCanOpen.cpp:23-30 | over every run, a missing device has been missing since a sanity check that timed out, which left the SDO queue empty and sent nothing |
| CanOpenModel.MissingLasts | tcan_can/src/DeviceCanOpen.cpp:23-36 | over every run, a missing device stays missing, whatever is sent and checked, until a received message configures it (active), it is reset or restarted (initializing), or its current request is answered with an error (error) |
| CanOpenModel.StateChangesExactly | tcan_can/src/DeviceCanOpen.cpp:23-134 | from every state to every other one: exactly which events make the change (a configuring message, a timed-out check, a given-up request of an active device, an error response to the current request, a reset); so an initializing device does become active, and an SDO timeout never overrides missing |
| CanOpenModel.BecomingMissing | tcan_can/src/DeviceCanOpen.cpp:25-29 | of all events only a sanity check makes a device missing; it leaves the queue empty and sends nothing |
| CanOpenModel.MissingIsNotOverridden | tcan_can/src/DeviceCanOpen.cpp:23-36 | a sanity check changes nothing at all in a missing device |
| CanOpenModel.GivingUp | tcan_can/src/DeviceCanOpen.cpp:64-71 | giving up retires the request, and stops the node and reports an error exactly if the device was active |
| CanOpenModel.StopIsTheStopCommand | tcan_can/src/DeviceCanOpen.cpp:111-112 | the stop command is byte 0x02 and the node id under identifier 0 |
| CanOpenModel.ErrorResponse | tcan_can/src/DeviceCanOpen.cpp:73-78 | an error response retires the head, queues an NMT stop between the window's submissions and puts the device in error from any state |
| CanOpenModel.ResetGoesOutAtOnce | tcan_can/src/DeviceCanOpen.cpp:121-134 | a reset or restart command, as bytes 0x82 or 0x81 and the node id under identifier 0, is the next message on the bus whatever request is outstanding; only the restart clears the device timeout counter |
| CanOpenModel.Run | tcan_can/src/DeviceCanOpen.cpp:23-257 | every run keeps the queue invariant and the agreement of answer map and log |
| DevicesCanOpen.DeviceCanOpen.constructor | tcan_can/src/DeviceCanOpen.cpp:11-21 | a new device is valid, initializing, with nothing queued, sent or stored |
| DevicesCanOpen.DeviceCanOpen.SendSdo | tcan_can/src/DeviceCanOpen.cpp:42-62 | the method on the fields does what the model's submission does, answer map included |
| DevicesCanOpen.DeviceCanOpen.SendNextSdo | tcan_can/src/DeviceCanOpen.cpp:235-251 | pop and loop refine the recursive flush |
| DevicesCanOpen.DeviceCanOpen.HandleTimedoutSdo | tcan_can/src/DeviceCanOpen.cpp:64-71 | the callback with other threads' submissions before and after it keeps the head and reads it in bounds |
| DevicesCanOpen.DeviceCanOpen.HandleSdoError | tcan_can/src/DeviceCanOpen.cpp:73-78 | the same for the error callback |
| DevicesCanOpen.DeviceCanOpen.CheckSdoTimeout | tcan_can/src/DeviceCanOpen.cpp:208-233 | the check refines the model, and returns false exactly when it gave up a request |
| DevicesCanOpen.DeviceCanOpen.SanityCheck | tcan_can/src/DeviceCanOpen.cpp:23-36 | the sanity check refines the model and returns whether the device is neither missing nor in error |
| DevicesCanOpen.DeviceCanOpen.ParseSdoAnswer | tcan_can/src/DeviceCanOpen.cpp:172-205 | the answer handler refines the model and returns true exactly when the answer is for the head; every read is in bounds, also for short answers in the branches that do not read data |
| DevicesCanOpen.DeviceCanOpen.GetSdoAnswer | tcan_can/src/DeviceCanOpen.cpp:80-89 | the fetch returns what the map has for the object, and refines the model, which forgets it |
| DevicesCanOpen.DeviceCanOpen.SetNmtResetRemoteCommunication | tcan_can/src/DeviceCanOpen.cpp:121-126 | clear, send and state change refine the model |
| DevicesCanOpen.DeviceCanOpen.SetNmtRestartRemoteDevice | tcan_can/src/DeviceCanOpen.cpp:128-134 | the same with the timeout counter reset |
| CanDevices.CanDevice.SanityCheck | tcan_can/include/tcan_can/CanDevice.hpp:69-78 | the check of the base class, with the increment hidden in the comparison |
| DeviceLives.CounterCountsChecks | tcan_can/include/tcan_can/CanDevice.hpp:69-127 | over every history of any CAN device the timeout counter is the number of sanity checks made while not missing since a message was handled or the counter reset, modulo 2^32 |
| DeviceLives.TimeoutExact | tcan_can/include/tcan_can/CanDevice.hpp:69-127 | a check makes any CAN device missing if and only if the limit M is not zero and that number is at least M+1 |
| DeviceLives.StateChangesExactly | tcan_can/include/tcan_can/CanDevice.hpp:69-113 | exactly which events take any CAN device from one state to another: a configuring message from initializing or missing to active, a timed-out check to missing |
| DeviceLives.ActiveExactly | tcan_can/include/tcan_can/CanDevice.hpp:69-127 | over every history a device that starts initializing is active if and only if a message configured it and no check has timed out since |
| DeviceLives.LimitOfZero | tcan_can/include/tcan_can/CanDevice.hpp:123-127 | with a limit of zero no history makes a device missing |
| BusLives.TimeoutExact | tcan_can/src/CanBus.cpp:30-48 | over every run of dispatches and sanity checks of a bus, for each of its devices: a check makes it missing if and only if its limit M is not zero and at least M+1 checks were made since a frame of it was handled (modulo 2^32) |
| BusLives.PlainDevicesLiveAlone | tcan_can/src/CanBus.cpp:30-48 | simulation: over every run of a bus each base-class device goes through its own history, so every theorem on such histories holds of it |
| BusLives.CanOpenDevicesLiveAlone | tcan_can/src/CanBus.cpp:30-48 | the same for each CANopen device and its runs |
| BusLives.CounterCountsChecks | tcan_can/src/CanBus.cpp:30-48 | the counter of each device is the number of checks made on it since a frame of it was handled, modulo 2^32 |
| CanDevices.CanDevice.IsTimedOut | tcan_can/include/tcan_can/CanDevice.hpp:123-127 | the comparison is made before the increment, and a limit of zero leaves the counter alone |
| CanDevices.CanDevice.ConfigureDeviceInternal | tcan_can/include/tcan_can/CanDevice.hpp:104-113 | a device becomes active only from initializing or missing, and only if it was configured |
| TransmitMonitor.FirstInFirstOut | tcan_can/src/SocketBus.cpp:174-205 | under every interleaving of any number of threads, with any write failures and flag changes: frames written, then the unsent queue, are the frames accepted in order; the queue respects its capacity; a frame being written stays the front until it is popped; nobody else holds the mutex |
| TransmitMonitor.StepKeepsOrdered | tcan/include/tcan/Bus.hpp:301-350 | every atomic action of every thread keeps that invariant |
| TransmitMonitor.RunKeepsOrdered | tcan/include/tcan/Bus.hpp:330-350 | so does every list of actions |
| WakeUps.WaitEndsExactly | tcan/include/tcan/Bus.hpp:250-254 | a thread at the wait for the empty queue gets the lock if and only if the bus is passive or stopped or has nothing queued, and sleeps with the mutex released otherwise |
| WakeUps.HoldsBack | tcan/include/tcan/Bus.hpp:339-345 | over every run of a bus that stays passive or stopped, nothing reaches the wire but the one write that had begun |
| WakeUps.PassivatingHoldsBack | tcan/include/tcan/Bus.hpp:145-147 | so passivating or stopping a bus holds back every other frame until it is activated |
| WakeUps.StopTerminatesExactly | tcan/include/tcan/Bus.hpp:97-115 | the notifications of stopThreads leave no waiting thread un-notified; the transmit thread never terminates if and only if they come between its look at the flag and its sleep |
| WakeUps.NoLostWakeUps | tcan/include/tcan/Bus.hpp:250-350 | on a running bus that is never passive: an un-notified sleeping transmit thread has an empty queue or the pusher holds the mutex on its way to notify; an un-notified waiter for the empty queue faces a nonempty one, or a transmit thread that holds the mutex and will notify |
| WakeUps.TransmitThreadNeverStuck | tcan/include/tcan/Bus.hpp:330-350 | in every reachable state of such a bus in which no other thread holds the mutex, steps of the transmit thread alone put the next unsent frame on the wire |
| WakeUps.HarmlessActivationsLoseNothing | tcan/include/tcan/Bus.hpp:137-147 | with passivity changes too, in runs whose activations avoid the two gaps no wake-up is lost and no frame stays behind |
| WakeUps.StaysBehindExactly | tcan/include/tcan/Bus.hpp:330-350 | with a frame to send on a running active bus and no aid on its way: nothing more reaches the wire in any unaided run of all threads if and only if the transmit thread sleeps un-notified or is past its look at the queue; otherwise releasing the mutex and its own steps send the frame |
| WakeUps.ActivateLosesWakeUp | tcan/include/tcan/Bus.hpp:137-140 | after any interleaving since the flag was set, the notification of activate leaves the frame behind if and only if it comes between the transmit thread's look at the queue and its sleep |
| WakeUps.AutoActivationLosesWakeUp | tcan/include/tcan/Bus.hpp:234-244 | auto-activation leaves the queued frame behind if and only if the transmit thread sleeps or is between its look at the queue and its sleep |
| WakeUps.WakeUpsAreLost | tcan/include/tcan/Bus.hpp:137-140 | for both, a complete run from the start of a passive bus to a running active one whose only frame stays behind |
| WakeUps.LossPersists | tcan/include/tcan/Bus.hpp:330-350 | over every unaided run of all threads the queue and the wire stay as they are |
| WakeUps.NextPushRecovers | tcan/include/tcan/Bus.hpp:301-309 | the notification for the next frame queued ends a loss, since its sender holds the mutex and so finds the transmit thread asleep |
| WakeUps.SpuriousWakeRecovers | tcan/include/tcan/Bus.hpp:333-337 | so does a spurious wake-up of the sleeping transmit thread |
| WakeUps.StaysForGoodExactly | tcan/include/tcan/Bus.hpp:293-309 | nothing more reaches the wire whatever is sent, until somebody activates or stops the bus or the transmit thread wakes spuriously, if and only if the transmit thread falls asleep and the queue is full; with room, one more send gets the frames moving |
| WakeUps.FullLossPersists | tcan/include/tcan/Bus.hpp:293-309 | over every such run, sends included, a full queue and the wire stay as they are |
| WakeUps.BusesFallSilent | tcan/include/tcan/Bus.hpp:234-244 | a complete run from the start that silences a running active bus for good |
| Delivery.Delivers | tcan/include/tcan/Bus.hpp:330-350 | a transmit thread that does not fall asleep puts exactly the first unsent frame on the wire by its own steps |
| SyncAllBuses.SyncIsAloneInEveryQueue | tcan_can/src/CanBusManager.cpp:7-25 | at the end of the call, before the locks are released, the queue of every asynchronous bus with room that was running and active when the call began and not passivated or stopped since is exactly the SYNC frame, and all frames accepted earlier are on its wire in order: from any state of the buses, whatever the other threads of all buses did, and whether or not other buses are passive or stopped |
| SyncAllBuses.SyncAfterAnyHistory | tcan_can/src/CanBusManager.cpp:7-25 | the same for a call that begins after any history of each bus since its creation, passive at first or passivated and activated in between |
| SyncAllBuses.SyncIsLastWhenHeldBack | tcan_can/src/CanBusManager.cpp:7-25 | on an asynchronous bus that is passive or stopped during the whole call the SYNC is last in the queue at the end, unless the queue is full |
| SyncAllBuses.OtherBusesGetOneSync | tcan_can/src/CanBusManager.cpp:22-24 | a bus that is not asynchronous gets exactly one SYNC behind what it has, if there is room, and nothing else changes |
| SyncAllBuses.SyncIsTheSyncObject | tcan_can/include/tcan_can/CanBus.hpp:120-122 | the frame is the SYNC object: identifier 0x80, no data |
| SyncAllBuses.StepKeepsOwnerAlone | tcan/include/tcan/Bus.hpp:250-254 | while the caller owns the lock it got from waitForEmptyQueue, only its own frames are queued and no frame is in flight |
| SyncAllBuses.PlayKeepsInv | tcan_can/src/CanBusManager.cpp:11-24 | over every interleaving the caller stands on each bus where its two loops say |
| SyncProgress.CallCompletes | tcan_can/src/CanBusManager.cpp:7-25 | from every state that a call reaches, on asynchronous buses that stay active or stay passive or stopped, if no other thread holds a lock that is still to be taken, steps of the caller and the transmit threads alone complete the call |
| SyncCallers.CallersNeverDeadlock | tcan_can/src/CanBusManager.cpp:7-25 | any number of threads may be in the call at once, on buses that stay active or stay passive or stopped: from every reachable state in which no thread outside the call holds a lock, steps of the callers and the transmit threads alone let all of them return |
| SyncCallers.FrontIsAlone | tcan_can/src/CanBusManager.cpp:12-17 | the fixed lock order: nobody has a lock that the foremost caller still needs |
| SyncCallers.JointPlayKeepsInv | tcan_can/src/CanBusManager.cpp:7-25 | over every interleaving of the callers each of them stands where its loops say, as if it were the only one |
| PassiveMode.PassiveExactly | tcan/include/tcan/Bus.hpp:234-244 | for each setting of the two options, over every history, exactly when the bus is passive; with both options set, after a nonempty history of frames, if and only if the last frame was an error frame |
| PassiveMode.ErrorNeverActivates | tcan_can/src/SocketBus.cpp:207-218 | an error frame never activates the bus, for all options |
| PassiveMode.ErrorFlagExactly | tcan_can/src/SocketBus.cpp:162-168 | over every history the error flag is set if and only if the last frame was an error frame |
| Buses.ErrorFrameBits | tcan_can/src/SocketBus.cpp:164 | the two comparisons select the identifiers with the error flag, without the flags above it, and with some error class |
| PassiveMode.PersistentExactly | tcan/include/tcan/Bus.hpp:213-217 | the persistent flag is set if and only if an error frame arrived since its last reset |
| Buses.Bus.ReadMessage | tcan/include/tcan/Bus.hpp:234-244 | classification and auto-activation of one reception, and whether a frame was read |
| Buses.Bus.ReadData | tcan_can/src/SocketBus.cpp:143-171 | which receptions count as errors of the bus and which as error frames |
| Buses.Bus.HandleBusErrorMessage | tcan_can/src/SocketBus.cpp:207-218 | both error flags are raised, and the bus is passivated if that is enabled |
| Buses.Bus.WriteData | tcan_can/src/SocketBus.cpp:174-205 | a write removes the front exactly if it succeeded, and flags a bus error exactly if it failed for another reason than blocking |
| Buses.Bus.WriteMessages | tcan/include/tcan/Bus.hpp:226-229 | a passive bus writes nothing and reports success |
| Buses.Bus.SendMessage | tcan/include/tcan/Bus.hpp:293-309 | a frame is accepted exactly if the queue is below its limit, and dropped otherwise |
| Buses.Bus.ResetErrorMsgFlag | tcan/include/tcan/Bus.hpp:213-217 | the flag is returned and cleared |
| BusManagers.BusManager.WriteMessagesSynchronous | tcan/include/tcan/BusManager.hpp:57-78 | the nested loop ends for finitely many failures, drains every active synchronous and semi-synchronous bus in order, leaves the others alone, and returns true if and only if no write failed |
| BusManagers.BusManager.WriteRound | tcan/include/tcan/BusManager.hpp:61-75 | one pass of the inner loop gives each bus at most one write |
| BusManagers.FairRounds | tcan/include/tcan/BusManager.hpp:60-76 | after k passes without a failure a served bus has sent exactly its first min(k, n) frames |
| BusManagers.RoundsExactly | tcan/include/tcan/BusManager.hpp:60-76 | with failing and blocking writes too: after k passes a served bus has sent exactly its first frames, as many as writes succeeded, and keeps the others in order |
| BusManagers.RoundsConserve | tcan/include/tcan/BusManager.hpp:60-76 | whatever fails, nothing is lost, duplicated or reordered |
| BusManagers.SuccessMeansNoFailure | tcan/include/tcan/BusManager.hpp:65-71 | all passes succeed if and only if the writes that the queued frames need succeed at once |
| BusManagers.RoundLowersTotalWork | tcan/include/tcan/BusManager.hpp:60-76 | each pass that writes lowers queued frames plus failures left; a pass that writes nothing is the last |
| BusManagers.RoundsDrain | tcan/include/tcan/BusManager.hpp:57-78 | when nothing is eligible any more, all served queues are on the wire |
| CanBuses.OverlapExactly | tcan_can/src/CanBus.cpp:26-28 | two matchers accept a common identifier if and only if they agree on the bits both look at |
| CanBuses.OrderIndependent | tcan_can/src/CanBus.cpp:26-38 | on disjoint matchers every iteration order of the map picks the same entry for every frame |
| CanBuses.OrderMatters | tcan_can/src/CanBus.cpp:26-38 | some frame reaches different entries in different iteration orders of the map if and only if two overlapping matchers have different entries |
| CanBuses.RouteIsUnique | tcan_can/src/CanBus.cpp:30-38 | a frame has one destination, the unmapped handler included |
| CanBuses.ConnectionSetIsDisjoint | tcan_can/include/tcan_can/DeviceCanOpen.hpp:21-35 | the COB-ID bases of section 7.3.3 of CiA 301 plus node ids 1 to 127 collide only for the same object of the same node, and never with NMT commands or SYNC |
| CanBuses.NodeIdsAreOneTo127 | tcan_can/include/tcan_can/DeviceCanOpen.hpp:21-35 | the bit form of a node id is the range 1 to 127 |
| CanBuses.ConnectionSetBases | tcan_can/include/tcan_can/DeviceCanOpen.hpp:21-35 | the bases are those of section 7.3.3 of CiA 301: emergency, four PDOs each way, SDO each way, NMT error control |
| CanBuses.RequestsNameTheirNode | tcan_can/include/tcan_can/SdoMsg.hpp:37-57 | a request goes out under the SDO identifier of its node, from which the node id is recovered, and an NMT command under identifier 0 |
| CanBuses.FirstMeaning | tcan_can/src/CanBus.cpp:26-28 | the first accepting matcher of an order, with none accepting before it |
| CanBuses.OverlapIsAmbiguous | tcan_can/src/CanBus.cpp:26-28 | for two overlapping matchers there are two iteration orders, each key once, that send some frame to either of them |
| CanBuses.CanBus.AddCanMessage | tcan_can/include/tcan_can/CanBus.hpp:76-86 | the first registration of a matcher stands |
| CanBuses.CanBus.AddDevice | tcan_can/include/tcan_can/CanBus.hpp:42-47 | devices are kept in the order of registration |
| CanBuses.FindMatcher | tcan_can/src/CanBus.cpp:26-28 | the search returns the first matcher of the iteration order that accepts the identifier, or none |
| CanBuses.CanBus.HandleMessage | tcan_can/src/CanBus.cpp:21-39 | for every iteration order the frame goes to the first entry whose matcher accepts it, or to the unmapped handler if there is none; only the owning device has its counter reset and may become active |
| CanBuses.CanBus.SanityCheck | tcan_can/src/CanBus.cpp:41-61 | every device is checked once by its own sanity check, base-class or CANopen; the three summaries are the quantified statements over all devices, and the bus is passivated if and only if all are missing and that is enabled |
| CanBuses.Summaries | tcan_can/src/CanBus.cpp:42-58 | the summaries say: some device is missing or in error, all are active, all are missing |
| BusDevices.Device.SanityCheck | tcan_can/include/tcan_can/CanDevice.hpp:69-78 | the virtual call: a CANopen device gets its override with any window, any other device the check of the base class; the CANopen invariant is kept |
| J1939.PackRoundTrip | tcan_can_j1939/include/tcan_can_j1939/J1939CanMsg.hpp:22-39 | unpacking gives back what was packed if and only if priority and group number have the widths of section 5.2 of SAE J1939-21 |
| J1939.PackLayout | tcan_can_j1939/include/tcan_can_j1939/J1939CanMsg.hpp:22-23 | as a number the identifier is the sum of its fields at the weights of section 5.2 of SAE J1939-21 |
| J1939.DeviceAccepts | tcan_can_j1939/src/DeviceJ1939.cpp:10-12 | for every 32-bit node id, a device's matcher accepts exactly the extended frames whose source is its low byte |
| J1939.AcceptedBySourceOnly | tcan_can_j1939/src/DeviceJ1939.cpp:10-12 | a packed frame is accepted by the devices at its source address and by no other |
| J1939.DeviceMatchersDisjoint | tcan_can_j1939/src/DeviceJ1939.cpp:10-12 | two devices can compete for a frame if and only if their node ids share the low byte |
| J1939.DisjointFromBaseFormat | tcan_can_j1939/src/DeviceJ1939.cpp:10-12 | nor does a J1939 device compete with a callback for a base-format identifier |
| J1939.FirstRegistrationStands | tcan_can_j1939/include/tcan_can_j1939/DeviceJ1939.hpp:21 | the parser map holds the first parser registered for a group |
| J1939.EndToEnd | tcan_can_j1939/src/DeviceJ1939.cpp:14-23 | a frame packed from fitting fields is dispatched to the device at its source address and there to the parser first registered for its group |
| J1939.DeviceJ1939.AddParser | tcan_can_j1939/include/tcan_can_j1939/DeviceJ1939.hpp:21 | a registration keeps the map in agreement with the list of registrations |
| J1939.DeviceJ1939.InitDevice | tcan_can_j1939/src/DeviceJ1939.cpp:10-12 | the device registers its own matcher, and only once |
| J1939.DeviceJ1939.ParseMessage | tcan_can_j1939/src/DeviceJ1939.cpp:14-23 | the first parser of the frame's group gets it; an unknown group gets none |
| CanMsgs.CodecRoundTrip | tcan_can/include/tcan_can/CanMsg.hpp:102-275 | appending any list of signed or unsigned 8, 16 and 32-bit values that fits and reading at the cumulative offsets returns the list |
| CanMsgs.WriteThenRead | tcan_can/include/tcan_can/CanMsg.hpp:158-275 | a value written at any position is read back there |
| CanMsgs.WriteKeepsOthers | tcan_can/include/tcan_can/CanMsg.hpp:158-224 | a positional write changes no value beside it, in the old length or in the new one, and never shrinks the length |
| CanMsgs.LengthAfterWrite | tcan_can/include/tcan_can/CanMsg.hpp:158-224 | the new length is the larger of the old one and the end of what was written; the identifier stays |
| CanMsgs.LeastSignificantFirst | tcan_can/include/tcan_can/CanMsg.hpp:102-224 | the byte order: each byte is the digit of its weight, least significant first, negative values included |
| CanMsgs.BytesAreModulo | tcan_can/include/tcan_can/CanMsg.hpp:235-249 | reassembling the stored bytes gives the value modulo its width, negative values included |
| CanMsgs.CanMsg.Write | tcan_can/include/tcan_can/CanMsg.hpp:102-156 | the appending overloads on the eight-byte buffer |
| CanMsgs.CanMsg.WriteAt | tcan_can/include/tcan_can/CanMsg.hpp:158-224 | the positional overloads, with the length they leave |
| SdoMsgs.RequestRoundTrip | tcan_can/include/tcan_can/SdoMsg.hpp:37-64 | the getters recover command, index, subindex and data of a request |
| SdoMsgs.NmtRoundTrip | tcan_can/include/tcan_can/SdoMsg.hpp:53-57 | an NMT message carries command and node and waits for no answer |
| FilterCalculator.AcceptsExactlyTheBlock | tcan_utils/python/filter_calculator.py:24-31 | among the identifiers of its format the synthesised pair accepts exactly the smallest aligned power-of-two block around the range |
| FilterCalculator.AcceptsByFormatBits | tcan_utils/python/filter_calculator.py:24-31 | of any number it accepts, or not, what the bits of the format say |
| FilterCalculator.SynthesisIsOptimal | tcan_utils/python/filter_calculator.py:24-31 | any pair that accepts the whole range accepts every identifier of the format that the script's pair accepts |
| FilterCalculator.NoPairAcceptsLess | tcan_utils/python/filter_calculator.py:24-31 | any pair that accepts a range accepts its whole block |
| FilterCalculator.OptimalExactlyForExtendedRanges | tcan_utils/python/filter_calculator.py:28-31 | against identifiers of both formats the script is optimal if and only if the range ends above 0x7FF |
| FilterCalculator.PrintsExactlyFor29Bits | tcan_utils/python/filter_calculator.py:34-38 | the script's assertion holds and it prints a result if and only if the range is nonempty and ends at 0x1FFFFFFF or below, and the printed filter and mask accept exactly the block |
| FilterCalculator.FoldsClosed | tcan_utils/python/filter_calculator.py:24-26 | the AND and OR folds over the range are the first and last number of its block |
| FilterCalculator.LevelIsLeast | tcan_utils/python/filter_calculator.py:24-26 | no smaller aligned block contains the range |
| FilterCalculator.BlockIsInterval | tcan_utils/python/filter_calculator.py:24-26 | a block is an interval of 2^k numbers from a multiple of 2^k |

## Left out

- CANopen NMT state and heartbeat parsing (`nmtState_`, `parseHeartBeat`, `getStatus`), and with them the enter-pre-operational and start commands, which are submissions like the stop command: assignments without a further property.
- Clearing the SDO queue, an answer, or a timeout check inside an unlock window: the run theorems do not cover them. Of a check inside the window of an answer, `SdoRetry.CheckInsideWindow` states the effect; after a clear the code's unguarded pop has no meaning.
- CanBuses.CanBus.AddDevice: does not call the device's `initDevice`, which is up to its class; the one of J1939 devices is `J1939.DeviceJ1939.InitDevice`.
- Changes of a device's life cycle by other threads in the middle of an operation, and user overrides of the callbacks other than the messages they submit.
- `configureDevice` is a Boolean input; what it does to a device is up to the user's class.
- Frames that the SDO queue hands to the bus may be dropped there when the output queue is full; the SDO theorems speak of what was handed over.
- Freshness of answers for requests that were queued behind others: the code erases stale answers only for requests that go out at once, and only for those it is claimed.
- WakeUps.NoLostWakeUps: for runs without passivate and stop; those change their flags without the mutex. Thread creation and the joins of shutdown are not modelled.
- SyncAllBuses.SyncIsAloneInEveryQueue: nothing is claimed of a bus that is itself passive or stopped when the call begins, or passivated or stopped during it. The call without waiting pushes on queues whose locks it does not hold, and is not part of this model; no claim is made for buses that are not asynchronous.
- Fair schedulers, priorities and real time: the monitor theorems are about safety, and about what steps of given threads can achieve from every reachable state.
- BusManagers.BusManager.WriteMessagesSynchronous: writes fail finitely often, as otherwise the source's loop would not end, and nothing is submitted and no passivity changes during the call.
- Negative arguments of the filter script, for which its unbounded bit operators mean something else; the option for the extended format has no effect in the code and none here.
- Right shifts of negative numbers are arithmetic, as on all supported compilers.
- Sockets, poll and errno beyond success, blocking and failure; the decoding of error frames into text; logging; hashing.
- The serial, IP and EtherCAT buses, the ROS bridge, J1939 signal scaling, and the table of SDO error names.
