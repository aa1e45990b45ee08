# CXL memory simulator: verified model

The repository simulates hosts that reach CXL memory devices through upstream port, downstream port and controller.
This project models its hardest parts and proves what they are for:

- the transaction path from the hosts to the memories and back: order, exactly-once delivery, routing of responses, the
  count that makes a signalled write safe to read, the table of signals, the packet a host is then given back, the
  payloads' owners, flit accounting, what is left at rest, and the one-entry mailboxes (`CxlSystem.dfy`, `ReadBack.dfy`,
  `SignalTable.dfy`, `LostSignal.dfy`, `HandedOver.dfy`, `PayloadOwners.dfy`, `Misrouting.dfy`, `CxlPorts.dfy`,
  `Stretches.dfy`, `PathMoves.dfy`, `WholePath.dfy`, `AtRest.dfy`, `PacketsOfTwo.dfy`, `HostSide.dfy`, `Mailbox.dfy`);
- the repository's own DRAM controller: open rows, conservation of requests, completion times (`Dram.dfy`);
- the payload event queue that wakes the two wrappers (`PayloadEventQueue.dfy`, `WakeUps.dfy`, `TimeOrderedList.dfy`),
  the payload pool (`PayloadPool.dfy`) and the packet ring in shared memory (`PacketRing.dfy`);
- the arithmetic core of the bundled fmt library: big integers (`Positional.dfy`, `LimbArithmetic.dfy`, `Columns.dfy`,
  `BigIntegers.dfy`), the shortest-digit printer (`ShortestDigits.dfy`, `DigitText.dfy`, `ScaledFloats.dfy`,
  `BufferCapacity.dfy`, `ExactPrinter.dfy`, `MissedBoundary.dfy`, `ShortestOutput.dfy`) and digit generation for a given
  precision (`Grisu.dfy`);
- the queue and the shutdown of the bundled spdlog thread pool (`BoundedQueues.dfy`, `ThreadPool.dfy`).

`Rings.dfy` and `Basics.dfy` hold what several of these share.

Objects that the program updates in place are classes whose methods follow the original's branches. Where threads or
processes interleave, the same operations are steps of a state machine, and the theorems range over every interleaving;
each step covers what runs without interruption, which for the simulation threads is the stretch between two waits, for
the thread pool what happens under the queue's lock, and for the packet ring a single access to shared memory.

## What holds only under a condition

Some things the code is meant to do fail for some inputs. The model keeps the code as it is and proves exactly when it
is right.

- `subtract_aligned` never advances in the loop that pays the last borrow. The difference is right exactly when that
  borrow does not meet a zero limb (`SubtractAligned`, `BorrowStops`); `ABorrowIsLost` subtracts 1 from 2^64 and misses.
  Division only meets the harmless case.
- `compare` answers equal numbers with different exponents by the exponents (`Compare`). So `divmod_assign` is right
  except for a dividend equal to the divisor with the larger exponent (`DivmodAssign`), as in
  `AnEqualIsNotDivided`; a divisor with a non-zero lowest limb rules that out (`NonZeroLowLimb`).
- `fallback_format` halves the denominator when the predecessor is closer and the exponent is not negative; the text is
  then always outside the boundaries (`AHalvedDenominator` prints 2^81): it is the shortest for twice the number
  (`FallbackFormat`, `DoubledMeansBetween`). Otherwise it misses a lower boundary that should count when the lower gap
  has more trailing zero limbs than the denominator. The text is the shortest decimal if and only if neither happens:
  `ShortestExactlyWhen` says so with tests on the significand and the two exponents (`BoundaryMissed`, which looks for a
  power of ten that divides the boundary and exceeds 2^e); `ABoundaryIsMissed` is an input that fails.
- Grisu's error is multiplied by ten in 64 bits and wraps from the twentieth decimal on. Up to the nineteenth an answer
  is certain for every real within the error, and failure is unavoidable; from then on no answer is certain, and from
  the sixty-fourth on the code always claims to be done (`Certified`, `ErrorSize`). Where no digit at all is wanted, it
  gives up exactly in two bands beside the middle in which it need not (`GivesUpTooEarlyExactlyWhen`, with an input in
  `GivesUpTooEarly`).
- The controller finds the way back by address only, not by device. A response goes home exactly when the last request
  of its class with its address came from the same host (`LastEntryDecides`); `ResponseToTheWrongHost` is a run of
  the ports and the controller in which it does not.
- The guard on closing commands in the DRAM controller compares addresses up to the first wildcard. It covers what the
  command closes exactly when that wildcard is not below the row level (`GuardProtectsExactlyWhen`). The controller
  keeps rows open as long as all addresses so far are of that kind; everything else it keeps for any addresses.
  `CloseAnActiveRow` is a run that closes the row of an active request by one address of the other kind.
- The DRAM controller ignores whether the active buffer took a request. A request is lost exactly when an opening
  command issues while that buffer holds more than its maximum (`FinishTick`). `LoseARequest` runs into this for any
  maximum, on a device that is not yet ready to serve the opened requests.
- The table of signals keeps one bit per address. A read goes exactly when the last thing that happened to its address's
  bit is that it was raised (`ReadGoesExactlyWhen`). So two signals before a read count as one, and a second read of the
  address waits for ever unless the address is written again (`WaitsForEver`; `TwoSignalsOneRead` and `SecondReadWaits`
  are such runs of the ports, for every schedule, and all their continuations); and one signal lets several hosts go
  that look before it is freed (`OneSignalTwoReads`).
- The upstream port sends the last write of a group of four only when the group is full, and a read only with a second
  one. The path comes to rest whatever is scheduled (`RunToRest`). Then all write packets of a host are signalled if and
  only if its writes are a multiple of four, and all its read packets are handed over if and only if its reads are even;
  otherwise the last packet is never answered (`SignalledAtRestExactlyWhen`, `HandedAtRestExactlyWhen`, with a run in
  `LastSignalMissing`). A number of payloads per packet that four divides, as 1024 bytes in requests of 64 give, never
  runs into this (`NothingMissing`).
- The thread pool's shutdown can complete if and only if the queue has any capacity (`CompletesExactlyWhen`).
- Giving a payload back to the pool keeps the pool sound exactly when the payload was in use (`Free`, `GiveBack`); along
  the transaction path it always is (`HostPoolKept`, `MemoryPoolKept`).

## Model

| member | source | states |
|---|---|---|
| `CxlSystem.OrderKept` | backplane/components/port/usp.cpp:37-179 | every step of every thread keeps, per host, what arrived, then the controller's queue, then the ports' queues equal to the sequence issued, and the routing table equal to what the entries so far leave behind; clashes of addresses do not matter |
| `CxlSystem.RunOrdered` | backplane/components/controller.cpp:36-74 | the same along every run from empty queues, for any number of hosts |
| `CxlSystem.ReturnPossible` | backplane/components/controller.cpp:83-147 | a response in the controller can always be sent: its address has an entry in the table, and the entry names a host |
| `CxlSystem.LastEntryDecides` | backplane/components/controller.cpp:149-167 | a request finds its way home exactly when the last request that entered with its address came from the same host |
| `Misrouting.ResponseToTheWrongHost` | backplane/components/controller.cpp:149-157 | a run of the ports' and the controller's threads with two hosts: both see the one signal of an address, their reads are in the controller together, and host 0's response is sent to host 1 |
| `CxlSystem.RoutedKept` | backplane/components/controller.cpp:83-147 | as long as no two hosts have requests in flight to one address, every response in flight is routed to its own host |
| `CxlSystem.ConservedKept` | backplane/components/wrapper/mem_wrapper.cpp:109-161 | a host's arrivals stay divided among DRAM, controller, backward queues and taken responses, whatever order the DRAMs finish in |
| `CxlSystem.CountedKept` | backplane/components/wrapper/sim_wrapper.cpp:165-184 | signals raised and signals waiting stay the packets issued, and taken responses stay N times the signals plus the count |
| `CxlSystem.WaitingSignals` | backplane/components/wrapper/sim_wrapper.cpp:177-183 | N times the waiting signals is the count plus the unanswered requests; so a response that is due always finds a signal to raise, and the front that is read exists |
| `CxlSystem.InvKept` | backplane/components/wrapper/sim_wrapper.cpp:122-184 | order, routing, conservation, counting and the store's contents together are kept by every step after which no addresses clash |
| `CxlSystem.RunInv` | backplane/components/controller.cpp:36-167 | they hold along every run without clashes |
| `CxlSystem.LastWriteWins` | backplane/components/wrapper/mem_wrapper.cpp:184-187 | a byte in the backing store is that of the last arrival that covers it |
| `CxlSystem.ReadAfterWrite` | backplane/components/wrapper/sim_wrapper.cpp:165-184 | when a host's k-th signal is up it is that of its k-th packet, and each payload of its first k packets has arrived with its bytes in the store, unless a later arrival covers them, under any completion order of the DRAMs |
| `CxlSystem.ExactlyOnce` | backplane/components/port/dsp.cpp:21-76 | every request a host issued is in exactly one place on the way, never lost and never twice |
| `ReadBack.BothInvKept` | backplane/components/wrapper/sim_wrapper.cpp:212-262 | with reads and writes in one state, every step keeps the writes' invariant, the packets cut up in address order, and a raised signal behind every address a read need not wait for |
| `ReadBack.SignalledBytesReturned` | backplane/components/wrapper/sim_wrapper.cpp:221-240 | along every run, a read packet goes out only after a signal for its address; from then on each byte it looks up is that of the signalled write packet, unless a later arrival covers it or the packet was for another device |
| `HandedOver.ReadsWhatWasWritten` | backplane/components/wrapper/sim_wrapper.cpp:137-163 | along every run without clashes: a read packet goes out only after a write packet's signal for its address, and if its responses come in address order from one device, the packet handed to the host is that write packet byte for byte, unless something later was written over it |
| `HandedOver.TakenOnce` | backplane/components/wrapper/mem_wrapper.cpp:163-172 | a response points into the memory: the bytes it brings are those the memory holds in the step that takes it |
| `HandedOver.CollectedKept` | backplane/components/wrapper/sim_wrapper.cpp:144-162 | every packet handed over is N responses put together in the order they were taken, and the packet under way is the rest |
| `HandedOver.CutUpAndJoined` | backplane/components/wrapper/sim_wrapper.cpp:256-261 | the payloads a write packet is cut into put together are the packet, and lie in address order |
| `SignalTable.RaisedLastExactlyWhen` | backplane/utilities/sync_object.h:17-30 | along every run, an address's bit is true exactly when the last thing that happened to it is that it was raised |
| `SignalTable.RaisedExactlyWhen` | backplane/components/wrapper/sim_wrapper.cpp:165-184 | a step raises a bit exactly when it adds that signal to those of some host, and the signal was the oldest waiting one |
| `SignalTable.ReadGoesExactlyWhen` | backplane/components/wrapper/sim_wrapper.cpp:212-219 | a read packet can go exactly then |
| `SignalTable.WaitsForEver` | backplane/components/wrapper/sim_wrapper.cpp:212-219 | once the bit is false and no write packet of the address is unsignalled, no read of it ever goes, unless the address is written again |
| `SignalTable.OneSignalTwoReads` | backplane/components/wrapper/sim_wrapper.cpp:214-218 | as the signal is freed a cycle after it is seen, two hosts' reads can go on one signal |
| `LostSignal.TwoSignalsOneRead` | backplane/utilities/sync_object.h:17-19 | runs of the ports' and the controller's threads, in any order: two write packets of one address are signalled, one read goes, and the bit is false |
| `LostSignal.SecondReadWaits` | backplane/components/wrapper/sim_wrapper.cpp:212-219 | however such a run goes on, a second read never goes unless the address is written again |
| `PathMoves.LaneAfter` | backplane/components/port/usp.cpp:81-179 | what each step does to one host's queues in its two ports, and that it leaves the other hosts' alone |
| `PathMoves.DeskAfter` | backplane/components/controller.cpp:149-167 | what each step does to the controller's queues and its table |
| `PathMoves.NearerTheEnd` | backplane/components/port/dsp.cpp:21-62 | every step of a thread brings a request nearer to the host it ends at |
| `Stretches.UspStretch` | backplane/components/port/usp.cpp:37-56 | the upstream port's thread between two waits: what it sends is in the downstream port, and what it holds is what the state has in it |
| `Stretches.ResponseStretch` | backplane/components/controller.cpp:83-147 | the controller's response thread: a few responses go, oldest first, each with the host the table names |
| `WholePath.Path.Take` | backplane/components/controller.cpp:36-167 | every step that a thread makes is a step of the state machine, and extends its run |
| `WholePath.Path.RunUsp` | backplane/components/port/usp.cpp:37-56 | a stretch of an upstream port's thread is a step of the run or none; a port not at rest brings requests nearer or has less work left |
| `WholePath.Path.RunDspForward` | backplane/components/port/dsp.cpp:21-40 | a cycle of the downstream port enters the oldest read and the oldest write into the controller |
| `WholePath.Path.RunDspBackward` | backplane/components/port/dsp.cpp:42-62 | and hands the oldest response of each class on |
| `WholePath.Path.RunRequests` | backplane/components/controller.cpp:36-74 | a stretch of the request thread is a delivery of the run, or none and less work left |
| `WholePath.Path.RunResponses` | backplane/components/controller.cpp:83-147 | a stretch of the response thread returns responses to the downstream ports the table names, step by step of the run, or leaves less work |
| `WholePath.Path.Finish` | backplane/components/wrapper/mem_wrapper.cpp:109-123 | a DRAM may finish any of its requests |
| `WholePath.Path.RunToRest` | backplane/components/port/usp.cpp:37-56 | whichever thread with work left is scheduled next, the path of any number of hosts comes to rest, with everything under way moved on and every new signal in the table |
| `AtRest.SignalledAtRestExactlyWhen` | backplane/components/port/usp.cpp:117-159 | when no thread has work left and the DRAMs are empty, all write packets of a host are signalled if and only if its writes are a multiple of four; otherwise exactly the last signal is missing |
| `AtRest.HandedAtRestExactlyWhen` | backplane/components/port/usp.cpp:48-51 | and, without clashes, all its read packets are handed over if and only if its reads are even; otherwise all but the last |
| `AtRest.NothingMissing` | backplane/components/port/usp.cpp:28-28 | so nothing is missing when four divides the payloads of a packet |
| `AtRest.LastSignalMissing` | backplane/components/port/usp.cpp:119-129 | one packet of two writes comes to rest unsignalled, whatever the schedule |
| `PayloadOwners.HostPoolKept` | backplane/components/wrapper/mem_wrapper.cpp:174-192 | every step takes what it adds from the host's pool and gives back what arrives at a memory, which was in use |
| `PayloadOwners.MemoryPoolKept` | backplane/components/port/usp.cpp:162-166 | every step takes what arrives from the memory's pool and gives back what the host has taken, which was in use |
| `PayloadOwners.ReleasedOnce` | backplane/components/wrapper/mem_wrapper.cpp:91-101 | no payload is given back twice to either pool, and none is in use that was given back |
| `CxlPorts.Usp.Resume` | backplane/components/port/usp.cpp:37-56 | one stretch of the request thread, from wait to wait: the flit that was waited for is counted and its writes or reads leave, oldest first; the next flit is the one that is due, at the latency its group or packet has to pay; a port not at rest always gets some of its remaining work done |
| `CxlPorts.Usp.StartWriteFlit` | backplane/components/port/usp.cpp:117-159 | starting a write flit charges the right latency and loses nothing; writes taken and flits sent stay 4g + f and 5g + f, and no front is taken of an empty queue |
| `CxlPorts.Usp.FinishWriteFlit` | backplane/components/port/usp.cpp:119-157 | a write flit sends the write it completes and, unless it is the group's last, takes the front one |
| `CxlPorts.Usp.Push` | backplane/components/port/usp.cpp:162-172 | a request joins the queue of its class and disturbs nothing |
| `CxlPorts.Usp.SendReads` | backplane/components/port/usp.cpp:107-113 | a read flit carries the two oldest reads |
| `CxlPorts.HeldWhenIdle` | backplane/components/port/usp.cpp:119-129 | a port at rest still holds the last write unless the writes are a multiple of four, and one read if their number is odd |
| `CxlPorts.PaidOnce` | backplane/components/port/usp.cpp:101-138 | of four write groups in a row, of the read flits of a packet, and of sixteen requests of a class, exactly one pays for the port, or the controller |
| `CxlPorts.Dsp.Forward` | backplane/components/port/dsp.cpp:21-40 | at most one read and one write pass per cycle, each the oldest |
| `CxlPorts.Dsp.Backward` | backplane/components/port/dsp.cpp:42-62 | the same for responses |
| `CxlPorts.Controller.PushRequest` | backplane/components/controller.cpp:149-157 | a request is queued and its class's table points its address to its host; the other class is untouched |
| `CxlPorts.Controller.PushResponse` | backplane/components/controller.cpp:159-167 | a response joins the queue of its class only |
| `CxlPorts.Controller.ResumeRequests` | backplane/components/controller.cpp:36-74 | between two waits exactly the request that was waited for leaves, the oldest of its class; a write follows a read; the 16k-th request of a class pays the controller's latency and the others the link's; and no request waits for ever |
| `CxlPorts.Controller.ResumeResponses` | backplane/components/controller.cpp:83-147 | responses leave in order and each to the host its class's table names, in groups of up to three reads, up to two writes, or up to two writes and a read; what is waited for next, what it costs, and that no response waits for ever |
| `CxlPorts.Controller.ServeGroup` | backplane/components/controller.cpp:83-147 | a group that nothing joins is up to three reads, or up to two writes, or up to two writes and a read, as the queues are when it begins, and leaves them in order |
| `Mailbox.ResponseTimes` | backplane/components/port/usp.cpp:58-93 | the thread's loop hands responses over at the times of its specification, which are more than a clock period apart within a class, whatever the queues hold on each round |
| `Mailbox.OneInEight` | backplane/components/port/usp.cpp:67-86 | of eight responses of a class in a row exactly one pays for the port |
| `Mailbox.NoMailboxFull` | backplane/components/wrapper/sim_wrapper.cpp:111-141 | from the thread to the mailbox: for every pattern of rounds and every fall of the responses among the clock's edges, no response finds its mailbox full, and the queue behind it holds at most one |
| `Mailbox.NeverOverwritten` | backplane/components/wrapper/sim_wrapper.cpp:288-296 | for responses so spaced and a clock with edges half a period apart, no response finds its mailbox full |
| `Mailbox.EdgesAlternate` | backplane/components/wrapper/sim_wrapper.cpp:111-141 | between two positive edges comes a negative one |
| `Mailbox.QueueBound` | backplane/components/wrapper/sim_wrapper.cpp:111-120 | the queue behind a mailbox holds at most one response |
| `HostSide.SimWrapper.HandleWritePacket` | backplane/components/wrapper/sim_wrapper.cpp:242-262 | a write packet adds one waiting signal and N payloads that cut its bytes up in address order |
| `HostSide.SimWrapper.ReceiveResponse` | backplane/components/wrapper/sim_wrapper.cpp:288-296 | a response fills the mailbox of its class only |
| `HostSide.SimWrapper.ClockPosedge` | backplane/components/wrapper/sim_wrapper.cpp:111-120 | a positive edge moves both mailboxes to their queues |
| `HostSide.SimWrapper.ClockNegedge` | backplane/components/wrapper/sim_wrapper.cpp:122-190 | a negative edge sends the oldest request of each class, takes the oldest response of each, so that what leaves and what stays are each queue in its order, counts as the system's model counts, and hands over a read packet made of its responses' bytes in the order they came |
| `HostSide.EdgeIsMove` | backplane/components/wrapper/sim_wrapper.cpp:122-135 | for either class the edge is the system's move of at most one request to the upstream port, and keeps what is under way |
| `HostSide.SimWrapper.TakeRack` | backplane/components/wrapper/sim_wrapper.cpp:137-163 | the N-th read response completes a packet of exactly the collected bytes |
| `HostSide.SimWrapper.TakeWack` | backplane/components/wrapper/sim_wrapper.cpp:165-184 | the N-th write response raises the oldest waiting signal, which exists |
| `Dram.GuardProtectsExactlyWhen` | etc/generic_dram_controller.cpp:227-249 | the guard recognises every row a closing command would close exactly when the command's first wildcard is not below the row level |
| `Dram.RowsStayOpen` | etc/generic_dram_controller.cpp:190-253 | a command the guard lets through leaves the row of every request in the active buffer open |
| `Dram.NoSecondOpening` | etc/generic_dram_controller.cpp:126-131 | a request in the active buffer never needs another opening command |
| `Dram.CompletionIsLatest` | etc/generic_dram_controller.cpp:147-166 | the completion times of the recurrence are the maximum over earlier reads of their departure plus the number of reads after them |
| `Dram.PushOnTime` | etc/generic_dram_controller.cpp:118-120 | a read that starts waiting changes no earlier completion time |
| `Dram.ServeOnTime` | etc/generic_dram_controller.cpp:147-166 | serving one read per cycle meets the recurrence's time of every read |
| `Dram.ExactlyOnePlace` | etc/generic_dram_controller.cpp:51-136 | an accepted request that was not lost is in exactly one buffer or completed, and called back at most once |
| `Dram.DramController.Remove` | etc/generic_dram_controller.cpp:122-131 | a request taken out of its buffer is out of that buffer only, and in hand until it is put somewhere |
| `Dram.DramController.Send` | etc/generic_dram_controller.cpp:51-84 | a read of an address waiting to be written is forwarded to the next cycle; any other request joins its buffer while that holds at most its maximum; conservation and order are kept for any address, and open rows as long as no address has a wildcard below the row |
| `Dram.DramController.PrioritySend` | etc/generic_dram_controller.cpp:86-92 | a maintenance request is queued if there is room |
| `Dram.DramController.ServeCompletedReads` | etc/generic_dram_controller.cpp:147-166 | each cycle completes the oldest waiting read, if its data has come, and calls back those from outside |
| `Dram.DramController.SetWriteMode` | etc/generic_dram_controller.cpp:173-183 | write mode starts above the high mark or without reads and ends below the low mark with reads waiting, and changes at no other time |
| `Dram.DramController.ScheduleRequest` | etc/generic_dram_controller.cpp:190-253 | what is chosen is a ready pick: an active one if one is ready, else maintenance while any waits, ready or not, else a write or a read as the mode says; never one whose command would close an active request's row group; and nothing is chosen for these reasons only. The mode changes exactly at its two marks, and only when neither an active request nor maintenance goes first |
| `Dram.RightfulExactlyWhen` | etc/generic_dram_controller.cpp:190-253 | these rules leave exactly one choice, the decision |
| `Dram.DramController.ModeChangesExactlyWhen` | etc/generic_dram_controller.cpp:173-183 | the mode changes if and only if nothing goes first and its mark is passed, or there are no reads |
| `Dram.DramController.StartTick` | etc/generic_dram_controller.cpp:94-100 | the first half of a cycle completes the oldest waiting read if its data is there and takes the maintenance requests that find room, and keeps conservation, open rows and completion times |
| `Dram.DramController.FinishTick` | etc/generic_dram_controller.cpp:112-134 | the chosen request's command changes the rows; a final one takes the request out of its buffer, to wait for its data or be completed; an opening one moves it to the end of the active buffer, or loses it if that is over-full; all other requests stay where they are, and conservation, open rows and completion times are kept |
| `Dram.WhereRequestsAre` | etc/generic_dram_controller.cpp:112-134 | after a final command the request is gone from its buffer only, after an opening one it is last in the active buffer if there was room, and otherwise all stay; the order of the others is kept |
| `Dram.DramController.Tick` | etc/generic_dram_controller.cpp:94-136 | one whole cycle, for every scheduler and device that answer from what they are shown: the one rightful choice is made, what its command does to rows, buffers and waiting reads, and what is completed, called back or lost; conservation, open rows and completion times are kept, nothing is lost while the active buffer is not over-full, and it never holds more than one above its maximum |
| `Dram.LoseARequest` | etc/generic_dram_controller.cpp:126-131 | a run of whole cycles, for any maximum, that loses a request to an over-full active buffer |
| `Dram.CloseAnActiveRow` | etc/generic_dram_controller.cpp:227-249 | a run in which maintenance with a wildcard below the row closes the row of an active request |
| `PayloadEventQueue.InsertedSorted` | libs/systemc-3.0.0/include/tlm_utils/peq_with_cb_and_phase.h:76-103 | an entry goes behind all that are due no later, so the list stays in order of time and then of notification |
| `PayloadEventQueue.InvKept` | libs/systemc-3.0.0/include/tlm_utils/peq_with_cb_and_phase.h:219-282 | every step of notifiers, callback process and kernel keeps the order of all lists, the payloads' due times and the wake-up, also when callbacks notify the queue again |
| `PayloadEventQueue.WakesKeptInside` | libs/systemc-3.0.0/include/tlm_utils/peq_with_cb_and_phase.h:250-282 | when the callback process goes back to waiting, the one notification the event can have is due no later than anything left |
| `PayloadEventQueue.WakesKeptOutside` | libs/systemc-3.0.0/include/tlm_utils/peq_with_cb_and_phase.h:219-237 | new notifications never push the wake-up behind the first entry |
| `PayloadEventQueue.DeltaOrderKeptInside` | libs/systemc-3.0.0/include/tlm_utils/peq_with_cb_and_phase.h:255-265 | payloads of a delta cycle are handed over in that cycle, in order, and none is left when the process waits |
| `PayloadEventQueue.NumberedOnce` | libs/systemc-3.0.0/include/tlm_utils/peq_with_cb_and_phase.h:228-231 | no timed notification occurs twice |
| `PayloadEventQueue.NoWakeupLost` | libs/systemc-3.0.0/include/tlm_utils/peq_with_cb_and_phase.h:219-282 | along every run, payloads are handed over at exactly their time, in order of time and then of notification; whenever the process waits, each one due by then was handed over exactly once, and the event is due no later than the first of the others |
| `WakeUps.MovesOn` | libs/systemc-3.0.0/include/tlm_utils/peq_with_cb_and_phase.h:250-282 | in every state that keeps the invariant and in which the process does not wait, exactly one of its steps is possible, and has one result |
| `WakeUps.LessLeft` | libs/systemc-3.0.0/include/tlm_utils/peq_with_cb_and_phase.h:250-282 | each of its steps leaves less of what is due |
| `WakeUps.AsMuchLeft` | libs/systemc-3.0.0/include/tlm_utils/peq_with_cb_and_phase.h:219-232 | what is notified meanwhile, by callbacks too, leaves as much |
| `WakeUps.WakeUpEnds` | libs/systemc-3.0.0/include/tlm_utils/peq_with_cb_and_phase.h:250-282 | so every wake-up, whatever is notified in it, takes at most as many steps of the process as were left when it began, can go on until the process waits, and has then handed over everything due by then, in its time and delta cycle |
| `WakeUps.AlwaysPossible` | libs/systemc-3.0.0/include/tlm_utils/peq_with_cb_and_phase.h:219-237 | payloads can be notified in every state, and at rest the kernel can go on to the time the event is pending for, and wakes the process |
| `WakeUps.EverythingHandedOver` | libs/systemc-3.0.0/include/tlm_utils/peq_with_cb_and_phase.h:250-282 | from every state that keeps the invariant, process and kernel alone hand over all that was notified, exactly once, each at its time or in its delta cycle: one wake-up makes the next, however many lists are filled |
| `TimeOrderedList.TimeOrdered.Insert` | libs/systemc-3.0.0/include/tlm_utils/peq_with_cb_and_phase.h:76-103 | the linked list, with its search and its re-used elements, inserts as the specification does, and list and free elements stay disjoint chains |
| `TimeOrderedList.TimeOrdered.Search` | libs/systemc-3.0.0/include/tlm_utils/peq_with_cb_and_phase.h:88-93 | the search stops at the first entry that is due later |
| `TimeOrderedList.TimeOrdered.TakeSpare` | libs/systemc-3.0.0/include/tlm_utils/peq_with_cb_and_phase.h:77-87 | an element is new or comes from the free chain, and is in neither chain any more |
| `TimeOrderedList.TimeOrdered.DeleteTop` | libs/systemc-3.0.0/include/tlm_utils/peq_with_cb_and_phase.h:105-113 | the first entry goes, and its element joins the free chain |
| `PayloadPool.Mm.Allocate` | backplane/utilities/mm.cpp:3-16 | allocation pops a stack of free payloads or makes a new one, and never hands out one in use |
| `PayloadPool.Mm.Free` | backplane/utilities/mm.cpp:18-31 | freeing pushes; the list has as many nodes as payloads were ever free together; a sound pool stays sound exactly when the payload was in use |
| `PayloadPool.Mm.AddNode` | backplane/utilities/mm.cpp:20-26 | a node is made only when no empty one is left, at the front of a list that stays well-formed |
| `PayloadPool.GiveBack` | backplane/utilities/mm.cpp:18-31 | every payload keeps one owner exactly when the one given back was in use |
| `PacketRing.UnreadUntouched` | backplane/utilities/packet_buffer.cpp:17-21 | the producer never writes to a cell with an unread packet |
| `PacketRing.InvKept` | backplane/utilities/packet_buffer.cpp:9-27 | every single access to shared memory by producer or consumer keeps unread packets as sent, partial copies right and the indices in step |
| `PacketRing.PrefixReceived` | backplane/utilities/shmem_communicator.cpp:26-34 | along every interleaving, what was received is a prefix of what was sent, packet by packet, and at most 8191 packets wait |
| `PacketRing.EveryPacketArrives` | backplane/utilities/packet_buffer.cpp:17-27 | however the sides interleave, the consumer has received every packet sent by some moment once it has made two steps and one for each word for each of them |
| `PacketRing.WaitsExactlyWhen` | host/packetManager.cpp:69-77 | a side has to wait exactly when the ring is full, or empty; so both never wait for each other |
| `PacketRing.SendsExactlyWhen` | backplane/utilities/packet_buffer.cpp:9-21 | any packet can be sent exactly when fewer than 8191 are on their way |
| `PacketRing.FullAndEmpty` | backplane/utilities/packet_buffer.cpp:9-15 | the tests on the indices say exactly when 8191 packets, or none, are unread |
| `PacketRing.PacketBuffer.Write` | backplane/utilities/packet_buffer.cpp:17-21 | run on its own, writing to a buffer with room appends |
| `PacketRing.PacketBuffer.Read` | backplane/utilities/packet_buffer.cpp:23-27 | run on its own, reading takes the oldest packet |
| `PacketRing.PacketBuffer.IsFull` | backplane/utilities/packet_buffer.cpp:9-11 | the index test says whether 8191 packets are stored |
| `PacketRing.PacketBuffer.IsEmpty` | backplane/utilities/packet_buffer.cpp:13-15 | the index test says whether none is |
| `BoundedQueues.CircularQ.PushBack` | libs/spdlog/include/details/circular_q.h:49-62 | pushing appends and keeps the last items that fit; overrun is counted exactly when the queue was full, and a disabled queue ignores the item |
| `BoundedQueues.CircularQ.PopFront` | libs/spdlog/include/details/circular_q.h:99-102 | popping removes the oldest item that is neither popped nor overrun |
| `BoundedQueues.CircularQ.Front` | libs/spdlog/include/details/circular_q.h:66-74 | the front is the oldest item that is neither popped nor overrun |
| `BoundedQueues.CircularQ.Size` | libs/spdlog/include/details/circular_q.h:77-87 | the size is the number of stored items, at most the capacity |
| `BoundedQueues.CircularQ.At` | libs/spdlog/include/details/circular_q.h:91-95 | items are indexed from the oldest |
| `BoundedQueues.CircularQ.Full` | libs/spdlog/include/details/circular_q.h:109-117 | full means that the capacity is used up; a disabled queue is never full |
| `Rings.RingPush` | libs/spdlog/include/details/circular_q.h:53-60 | writing at the tail appends, and running into the head drops the oldest item, wherever head and tail lie |
| `BoundedQueues.BlockingQueue.DequeueFor` | libs/spdlog/include/details/mpmc_blocking_q.h:54-67 | under the lock, dequeuing takes the oldest item, and fails exactly on an empty queue |
| `BoundedQueues.BlockingQueue.EnqueueNoWait` | libs/spdlog/include/details/mpmc_blocking_q.h:43-50 | without waiting, a full queue gives up its oldest item |
| `ThreadPool.InvKept` | libs/spdlog/include/details/thread_pool-inl.h:71-121 | every step of posters, destructor and workers keeps sent messages equal to removed ones followed by the queue, with terminate messages last, and each terminate message in the queue or with one worker |
| `ThreadPool.RunInv` | libs/spdlog/include/details/thread_pool-inl.h:16-31 | this holds along every run of a pool with at least one thread |
| `ThreadPool.PossibleExactlyWhen` | libs/spdlog/include/details/mpmc_blocking_q.h:32-67 | a message can be posted unless the pool closes, or has no room where the poster waits for it; a worker takes a message exactly when it is idle and one is there |
| `ThreadPool.OneStepLess` | libs/spdlog/include/details/thread_pool-inl.h:38-53 | every step of the shutdown but an idle time-out does exactly one unit of what remains |
| `ThreadPool.NoDeadlockExactlyWhen` | libs/spdlog/include/details/thread_pool-inl.h:42-50 | while anything remains, some step is possible exactly when the queue has capacity or a worker is busy |
| `ThreadPool.AllJoined` | libs/spdlog/include/details/thread_pool-inl.h:91-113 | when nothing remains, every worker has exited with exactly one terminate message and the queue is empty |
| `ThreadPool.ShutdownCompletes` | libs/spdlog/include/details/thread_pool-inl.h:38-121 | with capacity, every maximal interleaving of the shutdown has the same number of steps; the workers take each message queued when it began exactly once, in order and before any terminate message, then one of these each |
| `ThreadPool.CompletesExactlyWhen` | libs/spdlog/include/details/thread_pool-inl.h:38-53 | some run of the shutdown completes if and only if the queue has any capacity |
| `BigIntegers.Accumulator.Add` | libs/spdlog/include/fmt/bundled/format-inl.h:488-491 | the two words add as one 128-bit number |
| `BigIntegers.Accumulator.ShiftRight32` | libs/spdlog/include/fmt/bundled/format-inl.h:492-497 | the shift divides the 128-bit number by 2^32; what is cut off is its low limb |
| `BigIntegers.Bigint.AssignWord` | libs/spdlog/include/fmt/bundled/format-inl.h:585-593 | a 64-bit value is represented exactly, without a zero limb on top |
| `BigIntegers.Bigint.Multiply32` | libs/spdlog/include/fmt/bundled/format-inl.h:542-551 | multiplication by a 32-bit factor is exact |
| `BigIntegers.Bigint.Multiply64` | libs/spdlog/include/fmt/bundled/format-inl.h:553-568 | multiplication by a 64-bit factor is exact, with carries that fit 64 bits |
| `BigIntegers.Bigint.ShiftLeft` | libs/spdlog/include/fmt/bundled/format-inl.h:597-610 | the shift multiplies by the power of two |
| `BigIntegers.Bigint.RemoveLeadingZeros` | libs/spdlog/include/fmt/bundled/format-inl.h:523-527 | zero limbs on top go, the value stays |
| `BigIntegers.Bigint.SubtractBigits` | libs/spdlog/include/fmt/bundled/format-inl.h:517-521 | bit 63 of the wrapped difference is the borrow |
| `BigIntegers.Bigint.SubtractAligned` | libs/spdlog/include/fmt/bundled/format-inl.h:530-540 | the difference is exact if and only if the last borrow does not meet a zero limb |
| `BigIntegers.Bigint.DivmodAssign` | libs/spdlog/include/fmt/bundled/format-inl.h:710-730 | quotient and remainder are right if and only if the dividend is not equal to the divisor with a larger exponent |
| `BigIntegers.ABorrowIsLost` | libs/spdlog/include/fmt/bundled/format-inl.h:538-538 | 2^64 minus 1 with both numbers at exponent zero comes out wrong |
| `BigIntegers.AnEqualIsNotDivided` | libs/spdlog/include/fmt/bundled/format-inl.h:712-712 | 2^32 with exponent one divided by itself with exponent zero gives zero |
| `BigIntegers.NonZeroLowLimb` | libs/spdlog/include/fmt/bundled/format-inl.h:710-730 | a divisor with a non-zero lowest limb rules that case out |
| `BigIntegers.Bigint.Square` | libs/spdlog/include/fmt/bundled/format-inl.h:678-706 | column sums give the exact square |
| `BigIntegers.Bigint.AssignPow10` | libs/spdlog/include/fmt/bundled/format-inl.h:659-676 | repeated squaring and a shift give exactly the power of ten |
| `BigIntegers.SquareHasRoom` | libs/spdlog/include/fmt/bundled/format-inl.h:678-683 | for every decimal exponent of a double, squaring finds its 2n limbs in the buffer of 32 |
| `BigIntegers.Compare` | libs/spdlog/include/fmt/bundled/format-inl.h:618-632 | the answer is the sign of the difference, and for equal numbers the sign of the difference of the exponents |
| `BigIntegers.AddCompare` | libs/spdlog/include/fmt/bundled/format-inl.h:635-656 | the early exits give the sign of lhs1 + lhs2 - rhs for any mix of exponents |
| `Columns.ColumnsAreProduct` | libs/spdlog/include/fmt/bundled/format-inl.h:685-702 | the columns of cross products, weighted by their places, sum to the product |
| `Columns.SquareIsExact` | libs/spdlog/include/fmt/bundled/format-inl.h:678-706 | when all columns are done nothing is carried out, and the limbs are the square |
| `ExactPrinter.SetUp` | libs/spdlog/include/fmt/bundled/format-inl.h:974-1009 | the three cases of exponents set up numerator, denominator and boundaries as fractions of one denominator, up to the halved denominator of the first |
| `ExactPrinter.DivideOff` | libs/spdlog/include/fmt/bundled/format-inl.h:1015-1015 | dividing off a digit keeps the number equal to the digits so far plus the remainder |
| `ExactPrinter.Flags` | libs/spdlog/include/fmt/bundled/format-inl.h:1016-1018 | the two comparisons decide whether the digits so far, or the next number, lie between the boundaries |
| `ExactPrinter.DoubledMisses` | libs/spdlog/include/fmt/bundled/format-inl.h:986-987 | with the halved denominator the result is outside the boundaries, always |
| `ExactPrinter.PrintDigits` | libs/spdlog/include/fmt/bundled/format-inl.h:1014-1036 | the loop ends, with digits only, and with the shortest decimal between the boundaries, nearest to the number among those of its length |
| `ExactPrinter.FallbackFormat` | libs/spdlog/include/fmt/bundled/format-inl.h:962-1037 | the same for the whole printer and every positive double, and the decimal exponent that goes with the text; with the halved denominator the text is outside the boundaries and, as long as it is, the shortest and nearest for twice the number |
| `ShortestOutput.DoubledMeansBetween` | libs/spdlog/include/fmt/bundled/format-inl.h:986-987 | with the halved denominator it is half the decimal that lies between the real boundaries |
| `ShortestDigits.FlagsDecide` | libs/spdlog/include/fmt/bundled/format-inl.h:1016-1018 | the flags are exact tests of lying between the boundaries |
| `ShortestDigits.NoneHere` | libs/spdlog/include/fmt/bundled/format-inl.h:1020-1020 | with both flags off no decimal of this length lies between the boundaries |
| `ShortestDigits.ChoiceIsNearest` | libs/spdlog/include/fmt/bundled/format-inl.h:1020-1028 | the last digit, settled by the flags and half to even, gives a nearest decimal between the boundaries |
| `ShortestDigits.ShortestWithBoundary` | libs/spdlog/include/fmt/bundled/format-inl.h:1016-1016 | a shortest decimal with the lower boundary excluded is one with it included, exactly when that boundary is not itself a decimal of a length at which nothing else lies between the boundaries |
| `ShortestOutput.WithinMeansBetween` | libs/spdlog/include/fmt/bundled/format-inl.h:965-1010 | lying between the scaled integers is lying between the real boundaries, half way to the neighbours |
| `ShortestOutput.ShortestExactlyWhen` | libs/spdlog/include/fmt/bundled/format-inl.h:962-1037 | the printed text is a shortest decimal between the boundaries if and only if the denominator was not halved and the lower boundary is not missed, tests on significand and exponents that can be made before the call |
| `MissedBoundary.BoundaryIsShortestExactlyWhen` | libs/spdlog/include/fmt/bundled/format-inl.h:1016-1016 | the lower boundary of a number with a large exponent is the shortest decimal if and only if a power of ten longer than the interval divides it: a bounded test on 2f - 1 and e |
| `ShortestOutput.AHalvedDenominator` | libs/spdlog/include/fmt/bundled/format-inl.h:986-987 | on 2^81, whose predecessor is closer, the printer gives a decimal outside its real boundaries, half of which is between them |
| `ShortestOutput.ABoundaryIsMissed` | libs/spdlog/include/fmt/bundled/format-inl.h:1016-1016 | a double whose lower boundary is missed |
| `ExactPrinter.OperandsFit` | libs/spdlog/include/fmt/bundled/format-inl.h:573-573 | for every double, with the decimal exponent of its upper boundary or the next one, all four numbers fit 32 limbs at the top of every round of the digit loop, with the zero limbs division puts below them counted in |
| `BufferCapacity.DenominatorFits` | libs/spdlog/include/fmt/bundled/format-inl.h:974-1009 | twenty times the denominator, which bounds them all, has at most 32 limbs above the lowest limb |
| `BufferCapacity.DecimalExponents` | libs/spdlog/include/fmt/bundled/format-inl.h:1077-1085 | the decimal exponents a double can have, for which powers of ten are computed |
| `BufferCapacity.NextToTenTo23` | libs/spdlog/include/fmt/bundled/format-inl.h:1077-1085 | the double below 10^23, whose upper boundary is 10^23, is one of these |
| `Grisu.DirectionIsRight` | libs/spdlog/include/fmt/bundled/format-inl.h:739-753 | a direction is given exactly when it is right for every remainder within the error |
| `Grisu.CountDigits` | libs/spdlog/include/fmt/bundled/format-inl.h:764-775 | the count is the number of decimal digits |
| `Grisu.FixedHandler.OnStart` | libs/spdlog/include/fmt/bundled/format-inl.h:870-885 | with a fixed number of decimals, the precision left decides between digits, nothing, and a single rounded digit |
| `Grisu.FixedHandler.OnDigit` | libs/spdlog/include/fmt/bundled/format-inl.h:887-913 | before the last digit the digit is appended; at the last the number read is rounded in the certain direction or the handler fails; the text is one longer only where rounding gives the next power of ten |
| `Grisu.FixedHandler.IncrementLast` | libs/spdlog/include/fmt/bundled/format-inl.h:903-911 | the carry adds exactly one, in digits only, and in one more of them only for a number of nines |
| `Grisu.SettleIsRight` | libs/spdlog/include/fmt/bundled/format-inl.h:892-902 | with the true error the decision is nearest for every real within it, and fails only when no number of that length is |
| `Grisu.EndsDecide` | libs/spdlog/include/fmt/bundled/format-inl.h:733-753 | being nearest for all reals within the error is being nearest at both ends |
| `Grisu.ErrorSize` | libs/spdlog/include/fmt/bundled/format-inl.h:852-852 | the 64-bit error is the true one up to 19 decimals, exceeds any unit from 20 on, and is zero from 64 on |
| `Grisu.NextIntegralDigit` | libs/spdlog/include/fmt/bundled/format-inl.h:798-848 | one division keeps the value equal to digits plus remainder, with the remainder below a divisor that fits 64 bits |
| `Grisu.NextDecimal` | libs/spdlog/include/fmt/bundled/format-inl.h:850-859 | one decimal keeps the scaled value equal to digits plus fraction without overflow, and the error grows modulo 2^64 |
| `Grisu.GrisuGenDigits` | libs/spdlog/include/fmt/bundled/format-inl.h:781-860 | for every scaled value and every precision the digits stop at the wanted place and are the whole units of that place, or one more as the remainder is past the middle by the error modulo 2^64, and the verdict is `Done` exactly when the remainder is that far from the middle; up to 19 decimals an answer is certain and a failure unavoidable, from 20 on an answer is never certain; where no digit is wanted the verdict is that of comparing tenths, and right if given |
| `Grisu.GivesUpTooEarlyExactlyWhen` | libs/spdlog/include/fmt/bundled/format-inl.h:793-796 | where no digit is wanted, the code gives up although a certain answer exists exactly in two bands beside the middle |
| `Grisu.GivesUpTooEarly` | libs/spdlog/include/fmt/bundled/format-inl.h:793-796 | a value in such a band, as large as a normalised product |

## Left out

- Shared-memory set-up, process control, configuration and trace parsing, console output, statistics: input and output.
- The DRAM device, the request scheduler and the refresh manager: the controller takes their answers as parameters, any request of a buffer and any command that opens only closed banks or closes what its row group says. Auto-precharge commands and plugins are not part of this model.
- The SystemC kernel: only what its standard (IEEE Std 1666-2011, section 5.10) says of one event's pending notification, of delta cycles and of time is used; its source is not part of this model.
- The payload event queue's `cancel_all`, and an immediate notification made by a callback of the queue itself; no caller does either. Vectors of the delta lists are sequences, without their doubling.
- The wrappers' own threads in `WholePath`: there their queues are those of the state, one request or response at a time.
- The memory wrapper and the bridge as classes: their queues and the backing store are stages of `CxlSystem`. The bridge keeps its front command until it is accepted, which would only add easy members. 
- Reads and writes are kept apart in `CxlSystem`, which follows one class at a time, since queues and routing tables are; `ReadBack` joins them through the store and the signals. For reads, the packets and signals of `CxlSystem` stand for read packets and completed ones.
- Byte order of a read packet whose responses come out of address order: data is placed by arrival count, and `TakeRack` and `CollectedKept` say just that; `ReadsWhatWasWritten` asks for address order.
- A host's process that waits for a signal: `ReadBack` has the steps in which it sees the signal, frees it and sends the packet, and lets a process that sees none do something else instead; the packet's own delays are not modelled.
- DivmodAssign: asks for a quotient below 2^31, since counting further overflows the code's `int`, and for a dividend that is zero-free on top or no longer than the divisor, since lengths decide comparisons; every caller's operands are like that.
- Width of the big integer's exponent: not modelled. The capacity of its buffer is no precondition of its methods; `OperandsFit`, an invariant of the digit loop, and `SquareHasRoom` bound the limbs the printer needs.
- FallbackFormat: takes the decimal exponent as any for which the upper boundary stays below the next power of ten; that the first Grisu pass delivers such an exponent is not part of this model. A single-precision number is not either.
- Grisu's shortest mode, the cached powers of ten, `snprintf_float`, locales and the number layout around the digits.
- Reference counts of payloads: each is taken and given back once, as `PayloadOwners` follows them.
- The thread pool's condition variables beyond the conditions they wait for, exceptions in message handlers, and new posts during the shutdown. Moving and copying of the circular queue.
- Memory ordering: the ring's single accesses are taken as sequentially consistent. Host programs beyond sending and receiving are not part of this model.
- DramController: for a read latency of at least one cycle; a request of no known kind, for which the code throws, is not sent.
- The host's trace generator, JSON headers, sockets, sinks and formatters of the logger.
