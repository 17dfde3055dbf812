# A model of the packet generator

The program is a packet generator of two threads. The management thread takes requests of clients; the generation
thread sends packets. Two lock-free rings join them. This project models the logic of both threads and proves what
the parts promise, alone and together:

- **The ring** (`SpscSteps`, `SpscSafety`, `SpscRefinement`, `SpscRing`). The ring is a system of two threads in which
  every atomic load or store and every access to one slot is a step, so a run is any interleaving at that grain. The
  machine with 64-bit counters that wrap is the image of one with unbounded counters, over runs of any length; the
  unbounded one is a bounded FIFO queue. Slots are constructed, read and destroyed once, and the threads never touch
  the same slot. The member functions are proved again in their own form, over an array.
- **The protocol** (`Protocol`, `ProtocolProofs`, `ProtocolTheorems`, `ProtocolSteps`). The two managers exchange
  requests and responses over two bounded queues, each manager with a program counter, because a request is visible to
  the other thread before its callback is stored. The theorems are about every interleaving: no enforced callback is
  missing, at most one request of each kind is open and exactly when a callback waits for it, answers are those of an
  Idle/Running machine, and every accepted request is answered at its callback if and only if none was handled while
  the ring of responses was full.
- **The management manager** (`MgmtManager`, `Messages`) as a class over two rings, each method proved to be the
  protocol's steps, with the other thread's steps between them.
- **The generation manager** (`GenManager`, `GenLife`, `GeneratorRuns`) as a class over the same rings, the timers and
  the generators, which it builds from the bytes of capture files. One iteration is proved to be a run of the protocol,
  for all batches, clock readings, results of the pool and of the device, and all that the other thread does meanwhile.
  It runs the events of exactly those flows that are due, in the order of their deadlines; the answers and the reports
  that it offers to the ring are those of the life cycle and of the flows' histories; afterwards a flow's timer is
  pending exactly when its last copy did not fail, for the time that its history gives.
- **Timers** (`Timers`, `Handles`, `Generators`): ownership of timers by handles that are moved and assigned, pending
  and due timers, and which flow each of them belongs to.
- **The flows generator** (`Flows`, `FlowTheorems`): flows that share one rotation of addresses. What every flow looks
  like is defined from the history of events alone, and the class is proved to follow it under every interleaving.
- **Loading a capture** (`Capture`, `Headers`, `CaptureLoader`): records as bytes, the reading loop that links packet
  buffers and frees them on failure, and the check and the rewriting of headers in those buffers.
- **Replaying it** (`Replay`): what a file makes of a generator's packets, and when a flow sends which of them.
- **Configuration** (`GenConfig`): which captures of a configuration are accepted, and what comes of them.
- **Arithmetic and printing** (`Words`, `Cycles`, `Numerals`): masks and wrap-around, durations and cycles, numbers
  printed in place.

`Wrappers` holds the option type. `dafny verify dfyconfig.toml` checks everything.

## What the proofs found

- An answer can be lost: while the management thread does not look, a running generation fills the ring of responses
  with reports (`put/spsc_ring.h:106-109` refuses, `gen/manager.cpp:140`, `193`, `217`, `223` ignore it). It is lost if
  and only if its request is handled while that ring is full (`LostIffRingFull`), which takes at least 254 waiting
  reports (`FewReportsNoLoss`); a run with exactly 254 loses one (`AnAnswerCanBeLost`). Then no request of that kind is
  ever accepted again (`LostAnswerBlocksItsKind`).
- A network of two addresses has no hosts between its ends. Nothing excludes it, and the address cursor then visits all
  2^32 addresses before it is back (`HostsOfNetwork`). Flows work with hosts of the network they are configured with
  exactly when that does not have two addresses (`HostsAreInsideIff`).
- The servers' network is read from the field of the clients (`mgmt/gen_config.cpp:90`), so it is the configured one
  exactly when both are the same (`LoadsAsDocumentedIff`), and every packet of every run is sent to the address that it
  comes from (`EveryPacketReturns`). Two fields that are documented as optional (lines 18-23) must be there (line 78);
  a capture that meets the documentation is accepted exactly when both are.
- Packets do not follow each other as they did when they were captured. The comment at
  `gen/priv/flows_generator.cpp:30-35` has every time-stamp relative to the previous packet's, and that at lines 26-29
  has the gap of 100 ms only where a flow starts again. The code stores with every packet the time since the first one,
  because the previous time-stamp is set once (line 53), and adds the gap to each of them (line 56). And a flow is
  scheduled with the time of the packet that it has just sent (line 299), so it waits for a packet as long as is stored
  with the one before (`DueOfNextPacket`, `ReplayOfGenerator`). It waits as the comments mean it to if and only if the
  capture has a single packet (`WaitsAsMeantIff`, `ReplaysAsMeantIff`). Leaving restarts aside, it does so exactly when
  the stored times double from packet to packet (`InnerWaitsAsMeantIff`); with the gap granted before every packet, as
  the code adds it, exactly when all packets have the same time-stamp (`WaitsWithGapIff`). For three packets, the second
  0.25 seconds after the first and the third 1.25 seconds after that, a flow waits 0.1 seconds for the second, 0.35 for
  the third and 1.6 to start again (`NotAsMeant`).
- A new flow is to start from the first packet (`gen/priv/flows_generator.cpp:152`). Its first event counts up before it
  sends (line 226), so it sends the second, unless there is no other (`FirstPacketSentIff`).
- The check of headers asks for a whole IPv4 header, but takes the length that it claims to find the ports. A header
  that claims less than the smallest length is accepted, and setting the port overwrites it: it stays as it was for every
  port exactly when the claimed length is at least 20 bytes (`IpHeaderStaysIff`).
- A file that ends in the middle of a record loads as its complete records, without an error. It needs buffers for the
  incomplete record too: with fewer, the same file fails to load (`TruncatedFileLoadsItsCompleteRecords`).
- The comment at `put/spsc_ring.h:72-73` says that the buffer has twice the ring's size; the code gives it the ring's
  size, and that is what is modelled and suffices.

## Reading of the source where its letter and its purpose differ

- `TG_ENFORCE` (`put/tg_assert.h:4-7`) aborts when its argument is true, while every use states what should hold. It
  is modelled as an assertion of its argument. In the protocol a response without a callback aborts the process, and
  this is proved never to happen.
- `event_handle::operator=` (`gen/priv/event_handle.cpp:23-29`) swaps through a template that assigns again. It is
  modelled as the move and swap that it spells out.

## Model

| member | source | states |
|---|---|---|
| Words.SizeTestAcceptsPowersOfTwo | put/spsc_ring.h:45 | The static assertion on the size accepts exactly the powers of two |
| Words.MaskIsRemainder | put/spsc_ring.h:110 | Masking a counter gives its remainder by the size |
| Words.SlotSurvivesWrap | put/spsc_ring.h:110 | The slot of a wrapped counter is the slot of the unbounded counter, since the size divides 2^64 |
| Words.WrappedDifference | put/spsc_ring.h:106-108 | A difference of wrapped counters is the true difference while that is less than 2^64 |
| Words.WrappedSum | put/spsc_ring.h:112 | Adding to a wrapped counter wraps the true sum |
| Words.OfferedRange | put/spsc_ring.h:200-209 | Where the available elements end: no wrap, wrap, exactly full, end at slot 0 |
| SpscSafety.PopTakesAsMuchAsItCan | put/spsc_ring.h:241-259 | The copying callback makes a bulk consume take the smaller of what is asked and what is available, wherever the buffer ends |
| SpscSafety.ProducerKeepsInv | put/spsc_ring.h:105-113 | Every step of a push keeps the chain of counters, the histories and the state of every slot; a push that does not give up has room for something |
| SpscSafety.RoomCounters | put/spsc_ring.h:134-140 | What the producer knows of the room, from its stale copy or after the refresh, is room that is there; less than asked means that the ring gets full |
| SpscSafety.ConstructKeepsInv | put/spsc_ring.h:145-152 | The slot that is constructed is raw memory, and becomes the element |
| SpscSafety.ConsumerKeepsInv | put/spsc_ring.h:186-221 | Every step of a consume keeps the invariant, in both ranges; a range is offered only when there is something to take |
| SpscSafety.MoveOutKeepsInv | put/spsc_ring.h:206-210 | What the callback moves out is constructed, and is the next element in order |
| SpscSafety.DestroyKeepsInv | put/spsc_ring.h:195-197 | An element is destroyed once, after it was moved from |
| SpscSafety.RefuseKeepsInv | put/spsc_ring.h:172 | A single consume whose callback refuses leaves the element in place |
| SpscSafety.RunInv | put/spsc_ring.h:67-74 | The invariant holds after every interleaving of the two threads |
| SpscRefinement.WrappingRefinesUnbounded | put/spsc_ring.h:67-71 | The run with 64-bit counters is the image of the unbounded run, also after more than 2^64 elements |
| SpscRefinement.RingIsFifo | put/spsc_ring.h:97-260 | After every interleaving the published elements are the consumed ones followed by the live contents of the buffer, at most `size` of them, and no slot was misused |
| SpscRefinement.SlotsNeverRace | put/spsc_ring.h:110-171 | The slot that the producer writes next is never the one that the consumer reads or destroys next |
| SpscRefinement.RingRefinesQueue | put/spsc_ring.h:105-221 | Every step is a step of a queue bounded by `size`: a push takes effect when it publishes, a take when it hands its slots back; refusals and short counts are honest, and a call that does not give up pushes or takes something |
| SpscRing.BulkPopIsSinglePops | put/spsc_ring.h:231-259 | A bulk pop that returns k gives the outputs and the state of k single pops |
| SpscRing.Ring.constructor | put/spsc_ring.h:77 | A new ring is empty, with raw slots |
| SpscRing.Ring.TryPush | put/spsc_ring.h:100-114 | Fails exactly when the ring is full; otherwise the element is the last of the queue |
| SpscRing.Ring.TryPushMany | put/spsc_ring.h:127-155 | Pushes the longest prefix that fits |
| SpscRing.Ring.TryConsume | put/spsc_ring.h:160-178 | Shows the oldest element and removes it when the callback accepts; nothing only when the queue is empty. The copy of the producer's counter is refreshed exactly when it shows nothing |
| SpscRing.Ring.TryPopMany | put/spsc_ring.h:241-260 | Copies out the oldest elements: as many as are asked for, of those that the consumer's copy of the counter shows, or of all that there are when it shows none |
| SpscRing.Ring.TakeRanges | put/spsc_ring.h:204-218 | One range or two give the next elements in order across the end of the buffer |
| SpscRing.Ring.Drain | put/spsc_ring.h:78-90 | The destructor ends, having destroyed every remaining element once and left all slots raw |
| SpscRing.Ring.CountPopSlots | put/spsc_ring.h:263-268 | The difference of the shared counters is the number of elements |
| Protocol.PopCount | mgmt/messages.h:67-68 | A pop gives at most 8 messages, and none only from an empty queue |
| ProtocolProofs.RequestKeepsInv | mgmt/manager.cpp:117-183 | A request keeps the protocol's invariant, refused or accepted, with its callback not yet stored |
| ProtocolProofs.StoreKeepsInv | mgmt/manager.cpp:131 | So does storing the callback after the enqueue |
| ProtocolProofs.CallbackIsThere | mgmt/manager.cpp:187 | The response that arrives finds the callback of its own request |
| ProtocolProofs.ItemKeepsInv | gen/manager.cpp:133-224 | Handling a request keeps the invariant, whether the answer finds room or is lost |
| ProtocolProofs.StepKeepsInv | mgmt/manager.cpp:82-86 | Every step of either thread keeps the invariant |
| ProtocolProofs.OutIsShort | mgmt/messages.h:77-83 | At most three requests are ever in the ring of requests |
| ProtocolTheorems.ProtocolIsSafe | mgmt/manager.cpp:117-253 | Over every interleaving: no enforced callback is missing, no enqueue of a request fails, and for each kind at most one request is open, exactly when a callback waits, and it is the one waited for |
| ProtocolTheorems.AcceptedIffNoneOpen | mgmt/manager.cpp:121-136 | A request is accepted if and only if none of its kind is open anywhere and its configuration is valid |
| ProtocolTheorems.RequestsAnsweredInOrder | gen/manager.cpp:97-194 | Requests are handled in the order of acceptance; the answers, and whether generation runs, are those of a two-state machine folded over requests and timeouts |
| ProtocolTheorems.RunningIff | gen/manager.cpp:97-194 | Generation runs if and only if a start that could build its generators was handled, and neither a stop nor a timeout came after |
| ProtocolTheorems.ResponseTells | gen/manager.cpp:133-224 | Every response answers its own request, at the only place in the run where that was handled: a start was answered as started, already started or failed by whether a run went on there and whether its generators could be built |
| ProtocolTheorems.StartsAlternate | gen/manager.cpp:138-143 | Over every interleaving, between two answers of successful starts the generation thread handled a stop or a timeout |
| ProtocolTheorems.AcceptedRequestsConserved | mgmt/messages.h:58-72 | For each kind, the accepted requests are, in order, those answered at their callback, those whose answer was lost, and those in the batches and rings; no two are the same |
| ProtocolTheorems.CallbacksFireOnce | mgmt/manager.cpp:185-253 | A callback is called at most once, with the answer to its own request |
| ProtocolTheorems.LostIffRingFull | gen/manager.cpp:140 | An answer of some kind is lost if and only if a request of that kind is handled while the ring of responses is full |
| ProtocolTheorems.FewReportsNoLoss | gen/manager.cpp:309-334 | While fewer than 254 reports wait in the ring of responses, no step loses an answer |
| ProtocolTheorems.EveryAnswerDeliveredIffNeverFull | mgmt/manager.cpp:185-253 | When nothing is in flight, every accepted request of a kind was answered at its callback, in order, if and only if none was handled while the ring of responses was full; at most one is without an answer |
| ProtocolTheorems.LostAnswerBlocksItsKind | mgmt/manager.cpp:121-126 | After an answer of some kind is lost, no request of that kind is ever accepted or answered again |
| ProtocolTheorems.AnAnswerCanBeLost | gen/manager.cpp:217-218 | A run with 254 waiting reports in which the answer to a stop is lost |
| MgmtManager.TypeIsKind | mgmt/manager.cpp:52-55 | The type of a response that arrives leads to the callback slot of the request that it answers |
| MgmtManager.LocalStepsAreAtomic | mgmt/manager.cpp:129-131 | Storing a callback, and handling a popped response, may be taken as done before any steps of the other thread that come in between |
| Messages.MessagesQueue.Enqueue | mgmt/messages.h:58-62 | Fails exactly on a full ring; otherwise the message is the last |
| Messages.MessagesQueue.Dequeue | mgmt/messages.h:64-72 | Pops the oldest messages: 8, or as many as the consumer's copy of the counter shows, or all that wait when it shows none |
| MgmtManager.ManagerImpl.constructor | mgmt/manager.cpp:64-80 | Starts in the protocol's first state, without callbacks |
| MgmtManager.ManagerImpl.OnReqStartGen | mgmt/manager.cpp:117-143 | Is the protocol's two steps of a request; the client is refused at once exactly while a start is open or its configuration is invalid, never for a full ring, and otherwise the request is accepted |
| MgmtManager.ManagerImpl.OnReqStopGen | mgmt/manager.cpp:145-163 | The same for a stop |
| MgmtManager.ManagerImpl.OnReqGetStats | mgmt/manager.cpp:165-183 | The same for statistics |
| MgmtManager.ManagerImpl.OnIncMsg | mgmt/manager.cpp:185-265 | Is the protocol's step of a response: the callback of the answered request is set, is called, with an error exactly for a start that was refused or failed, and is cleared; reports call nothing |
| MgmtManager.ManagerImpl.HandleAll | mgmt/messages.h:69-71 | The popped responses are handled one by one, in order; the callbacks called are those of the requests that they answer, each with its status |
| MgmtManager.ManagerImpl.ProcessEvents | mgmt/manager.cpp:82-86 | One iteration, while the other thread makes any number of steps, is a run of the protocol with those steps in it: a request at most, one pop, and the handling of all that was popped. Every callback is called with the status that the handling of its request calls for: an error exactly when that was a start that found generation running or its generators impossible to build |
| MgmtManager.CallsAreTruthful | mgmt/manager.cpp:185-253 | In every run, a callback is called with success if and only if its request is not a start, or the start, where the generation thread handled it, found no run going on and all its generators could be built |
| MgmtManager.ManagerImpl.PeerRun | mgmt/messages.h:58-72 | Any steps of the other thread on the rings keep the class in agreement with the protocol |
| Timers.EventScheduler.RetTimer | gen/priv/event_scheduler.h:70-78 | A timer that is not about to run can be returned; it is no longer pending, and the 32-bit count goes down |
| Timers.EventScheduler.ScheduleSingle | gen/priv/event_scheduler.h:82-92 | A timer that is not about to run can be set: it is pending for the given time from now with its context, instead of any before |
| Timers.EventScheduler.TakeDue | gen/priv/event_scheduler.h:54-61 | Exactly the timers whose deadline has come are taken off to be run, unless the last look was less than a microsecond ago, which is then not taken as a look |
| Timers.LooksInTrueTime | gen/priv/event_scheduler.h:54-61 | The test on wrapping cycles is that at least a microsecond of true time has passed, for looks less than 2^64 cycles apart |
| Timers.EventScheduler.Next | gen/priv/event_scheduler.h:59 | Due timers run in the order of their deadlines |
| Timers.EventHandle.constructor | gen/priv/event_handle.cpp:9-12 | A new handle owns a new timer, and the count of timers is the number of owners |
| Timers.EventHandle.Destroy | gen/priv/event_handle.cpp:13-16 | The destructor returns the timer, which is no longer pending, if there is one |
| Timers.EventHandle.TakeFrom | gen/priv/event_handle.cpp:18-21 | The move constructor moves the ownership and empties the other handle |
| Timers.EventHandle.MoveAssign | gen/priv/event_handle.cpp:23-29 | The ownership moves and the timer owned before is returned once; assignment to itself changes nothing |
| Timers.EventHandle.ScheduleSingle | gen/priv/event_handle.cpp:31-36 | Schedules the owned timer |
| Handles.NewEvent | gen/priv/flows_generator.cpp:218-219 | Assigning a new handle to the default one leaves exactly one owner of the new timer, which is pending |
| Handles.DestroyAll | gen/manager.cpp:246 | The destruction of all owners of handles returns every timer; none is pending |
| Generators.FlowOfTimer | gen/priv/flows_generator.cpp:302-306 | The context of a timer names the flow whose handle owns it, and its deadline is that of the flow's history |
| Generators.EventKeepsArmed | gen/priv/flows_generator.cpp:277-299 | An event leaves the timer of every flow of every generator as the history wants it, whether its copy failed or not |
| Generators.AllDueRan | gen/manager.cpp:125 | Running all due timers runs the events of exactly the flows that are due, each once, in the order of their deadlines |
| Generators.AllDueAreThese | gen/manager.cpp:125 | An event of a flow ran if and only if it was time to look, its last copy had not failed and its deadline had come; no flow ran twice, and deadlines are in order |
| Generators.PktsOfGenerator | gen/priv/flows_generator.cpp:295 | Of the packets that the events of all generators pass on, a generator's are those of its own successful reports, in order; there are as many as copies that did not fail |
| GenLife.ExpiredByTrueTime | gen/manager.cpp:118 | The test on wrapping cycles measures true time for runs shorter than 2^64 cycles |
| GenLife.LifeReacts | gen/manager.cpp:133-224 | The life cycle that a message leads to runs exactly when the protocol's generation side does |
| GenLife.ReplayOfGenerator | gen/manager.cpp:149-162 | A generator that was built has a packet for every record of its file; its flows start after the gap, and then send the next packet as long after the one before as is stored with that one |
| GenLife.SetupOfGenerator | gen/manager.cpp:149-162 | A generator that was built works with a packet for each record of its file: its length, from the client exactly if its sender is that of the first, and the gap of 100 ms plus the time since the first by both stamps, or so many given distances; and with the hosts of both networks |
| GenLife.ReportOfGenerator | gen/priv/flows_generator.cpp:226-299 | An event of it reports the next record of the file, with that record's length, at the time it ran, from a host of the clients' network to one of the servers' or back, by the side that the record comes from; the flow is next due the packet's time after it was scheduled |
| GenLife.BuildsIff | gen/manager.cpp:149-168 | A generator can be built if and only if its file can be used and a flow's share of a second, in whole microseconds, is a timer cycle at least |
| GenLife.LifeOfMessage | gen/manager.cpp:133-224 | A stop ends the life cycle, a start begins one exactly when none goes on and all can be built, from when the clock was read and for the whole cycles in its milliseconds; statistics change nothing |
| GenLife.MarksOfMessage | gen/manager.cpp:133-194 | The counters of drops start again exactly with a run that begins, unless the device's could not be reset; a start that fails for want of a buffer counts that |
| GenLife.IterationAlone | gen/manager.cpp:97-131 | Without steps of the other thread meanwhile, an iteration's run is its own steps and nothing else |
| GeneratorRuns.LoadCapture | gen/priv/flows_generator.cpp:176-177 | A generator's packets are what loading its file, from the buffers that are left, gives |
| GeneratorRuns.BuildGenerators | gen/manager.cpp:145-168 | All generators are built from their files, with the timers of their flows set, exactly when every file loads and no flows are less than a cycle apart; otherwise none is left and no timer is out, and it says whether a buffer was missing |
| GeneratorRuns.ReportsOfGenerator | gen/manager.cpp:309-334 | Of the reports of all events, a generator's are those of its own history, in order; there is one for each event |
| GeneratorRuns.RunEarliest | gen/priv/flows_generator.cpp:224-306 | The callback of the earliest due timer is the event of its flow, sends the packet that the flow's history gives, and leaves all timers as the histories want them |
| GeneratorRuns.Summarize | gen/manager.cpp:202-213 | One entry for each flow of each generator, in order, with the counters and the duration that its history gives |
| GeneratorRuns.EntryOfFlow | gen/manager.cpp:202-213 | The entry of flow i of generator g is at its place, and has as many packets and bytes as were reported of that flow, and the time from its first report to its last |
| GeneratorRuns.FlowsStart | gen/priv/flows_generator.cpp:204-221 | Flow i of a new generator is due i shares of a second and the first packet's time after its clock was read |
| GenManager.ManagerImpl.constructor | gen/manager.cpp:82-95 | Starts in the protocol's first state; nothing runs, no timers, nothing to transmit |
| GenManager.ManagerImpl.TransmitTxPkts | gen/manager.cpp:259-269 | The device takes a prefix of the burst, the rest is freed, in order and each packet once; the counter of drops goes up by those that were freed |
| GenManager.ManagerImpl.SendPkt | gen/manager.cpp:298-302 | Every packet given is taken, freed or waiting; fewer than 64 wait between calls |
| GenManager.ManagerImpl.OnStart | gen/manager.cpp:133-194 | The life cycle, the answer, the counters and the generators after a start, refused, failed or not: a run begins exactly when none goes on and all can be built, lasts the whole cycles in its milliseconds, and its generators replay the files that were asked for |
| GenManager.ManagerImpl.StopGeneration | gen/manager.cpp:244-255 | All generators go, no timer is out, generation does not run |
| GenManager.ManagerImpl.OnStop | gen/manager.cpp:196-219 | The same, always answered, with the statistics of all flows as they were before, the packets freed since the counters were reset and the buffers that could not be had |
| GenManager.ManagerImpl.OnIncMsg | gen/manager.cpp:133-224 | Handling a message and answering it is one step of the protocol; the answer is the message's own, with the statistics of the run, and is put on the ring of responses unless that is full |
| GenManager.ManagerImpl.HandleBatch | gen/manager.cpp:101 | A batch of messages is the protocol's steps, with those of the other thread before each of them, and gives the life cycle, the counters and the answers of the reference folded over it; without a stop, running flows go on as they were, and otherwise they are as they were or new |
| GenManager.ManagerImpl.Emit | gen/manager.cpp:309-334 | The packet of an event goes to the transmit buffer, or a missing buffer is counted; its report is put on the ring of responses unless that is full |
| GenManager.ManagerImpl.RunScheduler | gen/manager.cpp:125 | The events of exactly the flows that are due run, in the order of their deadlines, whatever the other thread does between them; packets are passed on in that order, failed copies are counted, each event's report is offered to the ring with what its flow's history says, and all timers are as the histories want them |
| GenManager.ManagerImpl.ProcessEvents | gen/manager.cpp:97-131 | One iteration is a run of the protocol, with the other thread's steps before each answer and each report: the batch, and then nothing, the timeout, or the events that are due with their reports. By true time, a run that the batch leaves going is stopped if and only if more than its duration has passed; otherwise exactly the flows that are due run, each event with what was read for it. Answers and reports are those of the life cycle, the counters and the flows' histories. The transmit buffer is empty at both ends, what the code enforces holds, without generation there are no timers, and the flush after a timeout has nothing to send |
| GenManager.ManagerImpl.EndedMeans | gen/manager.cpp:113-131 | What follows the batch, by true time and by the state that can be seen: a run is stopped if and only if its time is over, and one that goes on ran the events of exactly the flows that are due |
| GenManager.ManagerImpl.PeerStep | mgmt/messages.h:58-72 | Any step of the other thread on the rings keeps the class in agreement with the protocol; its request goes behind those that wait |
| GenManager.ManagerImpl.Meanwhile | mgmt/messages.h:58-72 | So does any number of them |
| GenManager.ManagerImpl.FlowIsPendingIffCopied | gen/priv/flows_generator.cpp:277-299 | Between iterations the timer of a flow is pending if and only if its last copy did not fail, and then for the time that its history gives |
| GenManager.ManagerImpl.Destroy | gen/priv/event_scheduler.h:39-47 | At destruction the scheduler has all its timers back |
| GenManager.ManagerImpl.CountEventsIsFlows | gen/priv/event_scheduler.h:105 | The count of events is the number of flows of all generators, and of handles that own a timer |
| GenManager.ManagerImpl.PacketsBalance | gen/manager.cpp:259-269 | Packets passed since the counters were reset are those taken by the device, those counted as dropped, and those that wait |
| Flows.HostsOfNetwork | gen/priv/flows_generator.cpp:180-181 | How many addresses a cursor of a network's hosts visits: one for a single host, all there are for two addresses, otherwise those between the ends |
| FlowTheorems.HostsAreInsideIff | gen/priv/flows_generator.cpp:180-181 | Every address that flows ever get is one of the configured network, neither its first nor its last unless it is the only one, if and only if the network does not have two addresses |
| Flows.NextHost | gen/priv/flows_generator.cpp:164-167 | The cursor moves to the next host, around the range, exactly at the end of a burst |
| Flows.FlowsGenerator.Allocate | gen/priv/flows_generator.cpp:230-235 | The m-th use of the shared cursors gives the hosts of allocation m |
| Flows.FlowsGenerator.constructor | gen/priv/flows_generator.cpp:134-171 | The flows have the first allocations, in order |
| Flows.FlowsGenerator.SetupFlowEvents | gen/priv/flows_generator.cpp:202-222 | Fails exactly when the step is no cycle, and then takes no timer; otherwise every flow owns a timer that is pending until its start, a step after the one before, plus the first packet's time |
| Flows.FlowsGenerator.OnFlowEvent | gen/priv/flows_generator.cpp:224-300 | For every interleaving: an event moves its flow to the next packet of the capture, with the shared cursors' addresses when it starts again, counts that packet and its bytes, reports it from the side it comes from, sends it unless the copy failed, and sets the timer for that packet's time later unless the copy failed; all as the history gives, and no other flow changes |
| Flows.FlowsGenerator.SendAndReport | gen/priv/flows_generator.cpp:254-297 | Every event is reported once, with the packet and the addresses that the history gives; a packet is sent exactly with a successful report |
| FlowTheorems.HostInClosedForm | gen/priv/flows_generator.cpp:164-167 | Allocation m has the host number (m / burst) mod C of its range, for every range of 32-bit addresses |
| FlowTheorems.SamePairIff | gen/priv/flows_generator.cpp:164-167 | Two allocations get the same pair of addresses if and only if their bursts are the same modulo lcm(C, S) |
| FlowTheorems.AllocationsDiffer | gen/priv/flows_generator.cpp:226-236 | No two flows work with the same allocation at any time |
| FlowTheorems.RestartsAreRounds | gen/priv/flows_generator.cpp:226-236 | There are as many allocations by restarts as complete rounds of the flows |
| FlowTheorems.ReportOfEvent | gen/priv/flows_generator.cpp:254-264 | Report p is that of event p and depends on nothing later |
| FlowTheorems.ReportsOfOneFlow | gen/priv/flows_generator.cpp:226-264 | A flow with k events has k reports; number q of them is of packet q mod n |
| FlowTheorems.CountersAreReported | gen/priv/flows_generator.cpp:237-253 | A flow has counted as many packets as reports of it, the sum of the lengths in them, up to 64 bits, and has the times of the first and the last of them |
| FlowTheorems.AddressesOfReport | gen/priv/flows_generator.cpp:226-243 | A report has on the client's side and on the server's the hosts at the same place around both ranges: that of the flow's number, or, after a restart, that of the rounds of all flows completed before; the same for a burst of them |
| FlowTheorems.SentForReport | gen/priv/flows_generator.cpp:276-297 | The packets sent match the successful reports one to one, in order |
| FlowTheorems.FailedCopyEndsFlow | gen/priv/flows_generator.cpp:277-281 | A failed copy is the last event of its flow |
| FlowTheorems.BytesOfRound | gen/priv/flows_generator.cpp:247 | Every round of a flow adds the bytes of the whole capture |
| FlowTheorems.RoundIsCapture | gen/priv/flows_generator.cpp:247 | These are the lengths of all its packets, each once |
| FlowTheorems.DueInTrueTime | gen/priv/flows_generator.cpp:216-221 | Flow i is first due at the wrapped time of its set-up, i steps and the first packet's time |
| FlowTheorems.FirstDuesInTrueTime | gen/priv/flows_generator.cpp:214-221 | So are all flows, each by the clock when its own timer is set |
| FlowTheorems.StartsAreSpread | gen/priv/flows_generator.cpp:204-221 | For any clock that does not go back: a later flow is due at least its steps later, and within a second of its own set-up and the first packet's time |
| Cycles.RoundTripLoss | put/time_utils.h:19-49 | What a duration loses on the way to cycles and back, exactly |
| Cycles.CyclesOfDuration | put/time_utils.h:19-34 | A duration is converted to the whole cycles in it, of a product that is kept in 64 bits |
| Cycles.DurationOfCycles | put/time_utils.h:36-49 | Cycles are converted to the whole units that they take, likewise |
| Cycles.RoundTripBounds | put/time_utils.h:19-49 | The round trip never adds; it loses at most one unit on a timer as fine as the unit, and nothing exactly when the conversion cuts nothing off |
| Cycles.FromDurationAdds | put/time_utils.h:19-34 | The conversion is monotone, and additive to within one cycle |
| Cycles.StartsFillTheSecond | gen/priv/flows_generator.cpp:206-212 | n steps fit a second; how much of it they leave, at most; and when the step is no cycle |
| Capture.FileHeadersAccepted | gen/priv/tcap_loader.cpp:23-29 | Exactly the files that begin with the eight bytes of magic number and version 2.4 are accepted |
| Capture.HeaderReadsBack | gen/priv/tcap_loader.cpp:52-58 | A record's header reads back from its bytes |
| Capture.HeaderIsUnique | gen/priv/tcap_loader.cpp:52-58 | Any sixteen bytes are the bytes of the header that they read as |
| Capture.SerialisedBytes | gen/priv/tcap_loader.cpp:52-58 | The bytes of a record are its seconds, its microseconds and twice its length, four bytes each with the lowest first, and its payload |
| Capture.RecordFromBytes | gen/priv/tcap_loader.cpp:52-87 | A record that loads from any bytes has the seconds, the microseconds, the length and the payload that are there |
| Capture.ChunksOfPayload | gen/priv/tcap_loader.cpp:69-84 | Segments concatenate to the payload, all but the last fill their buffer, and no more are used than needed |
| Capture.BuffersIsQuotient | gen/priv/tcap_loader.cpp:69-84 | How many buffers are in use when a given byte is stored |
| Capture.TruncatedFileLoadsItsCompleteRecords | gen/priv/flows_generator.cpp:41-60 | A file of complete records, cut anywhere inside one more, loads as exactly the complete ones, if and only if the pool has the buffers for them and for the cut one |
| Capture.LoadedIsInFile | gen/priv/flows_generator.cpp:41-60 | What loads from any file is what it holds from the start, and when loading ends at the end of the file, not one more complete record is left |
| Capture.NoMemoryIff | gen/priv/tcap_loader.cpp:64-90 | Loading ends for want of a buffer if and only if with some larger number of buffers it ends otherwise; unless buffers are empty, if and only if more comes of it with more of them |
| Capture.TimesOfRecords | gen/priv/flows_generator.cpp:48-56 | Without a given distance, the times stored with any two packets differ by a million times the difference of their seconds and the difference of their microseconds; with one, by as many distances as packets. The first has the gap |
| Capture.WaitsAsMeantIff | gen/priv/flows_generator.cpp:26-35 | What a flow waits for each packet, which is the time stored with the one before, is the time since the previous packet, and the gap where it starts again, if and only if the capture has a single packet |
| Capture.InnerWaitsAsMeantIff | gen/priv/flows_generator.cpp:30-35 | Restarts aside, if and only if the stored times double from packet to packet |
| Capture.WaitsWithGapIff | gen/priv/flows_generator.cpp:53-56 | Were the gap meant before every packet, if and only if all packets have the same time-stamp |
| Replay.DueOfNextPacket | gen/priv/flows_generator.cpp:226-299 | For every history: the event after k events of a flow sends packet (k + 1) mod n, and is due the time stored with packet k mod n after the flow was scheduled |
| Replay.ReplaysAsMeantIff | gen/priv/flows_generator.cpp:26-35 | In every run every later packet is due as the comments mean it to be, in cycles, if and only if the capture has a single packet |
| Replay.NotAsMeant | gen/priv/flows_generator.cpp:26-35 | A file of three packets, stamped to the microsecond, that loads and on which no packet after the first is due as it is meant to be |
| Replay.FirstPacketSentIff | gen/priv/flows_generator.cpp:152 | The first packet that a new flow sends is the capture's first if and only if there is no other |
| Replay.LoadForFlows | gen/priv/flows_generator.cpp:22-132 | What loading a file gives is a function of its bytes, the buffers and the configuration: a packet of each record's length and direction with its stored time, or which failure it was; and how many buffers it takes |
| Replay.PacketsIff | gen/priv/flows_generator.cpp:22-132 | A file can be used if and only if it begins as a capture, ends after its last complete record, has one, and the headers of all are as they must be |
| Replay.NoBufferIff | gen/priv/flows_generator.cpp:22-132 | It is refused for want of a buffer if and only if it begins as a capture and loading it would end otherwise with more buffers; unless these are empty, if and only if more would load of it |
| Headers.RewrittenIff | gen/priv/flows_generator.cpp:87-126 | What goes into flows is the packet between the configured addresses, with the client's port in the two bytes that are the client's port, if it has ports and one is configured, and every other byte as it was |
| Headers.PacketsAreRewritten | gen/priv/flows_generator.cpp:87-126 | Every packet of a capture is so rewritten, from the client exactly if its sender is that of the first packet |
| Headers.AcceptableIff | gen/priv/flows_generator.cpp:68-124 | A packet can be worked with if and only if its first segment has a type of IPv4 and 34 bytes, and, where a TCP or UDP port is to be set, that header whole: 20 or 8 bytes after as many as the IPv4 header claims |
| Headers.IpHeaderStaysIff | gen/priv/flows_generator.cpp:98-124 | Setting a port leaves the IPv4 header as it was, for every port, if and only if that claims to be at least 20 bytes long |
| CaptureLoader.CheckHeaders | gen/priv/flows_generator.cpp:68-126 | Accepts a packet exactly when the headers that are changed are in its first segment, and rewrites them; the first packet's sender is the client |
| CaptureLoader.CheckPkts | gen/priv/flows_generator.cpp:68-127 | The loop accepts exactly the captures of which it accepts every packet, and rewrites all of them in their buffers, each from its own side |
| CaptureLoader.File.Read | gen/priv/tcap_loader.cpp:59 | One item is read if the file holds it and it is not empty; a short read takes what is left and sets the end-of-file indicator |
| CaptureLoader.MbufPool.Free | gen/priv/tcap_loader.cpp:68 | Freeing a chain frees each of its buffers, which are in use, once |
| CaptureLoader.TcapLoader.Open | gen/priv/tcap_loader.cpp:17-31 | Opens exactly the files whose header is accepted, and stands after it |
| CaptureLoader.TcapLoader.NextSegment | gen/priv/tcap_loader.cpp:69-84 | The loop's body: the chain grows by a buffer that holds the next bytes, and the head's counters follow |
| CaptureLoader.TcapLoader.LoadSegments | gen/priv/tcap_loader.cpp:69-84 | The loop ends with the whole payload in the chain, or with an error that tells which of memory, file or room ended it |
| CaptureLoader.TcapLoader.LoadBody | gen/priv/tcap_loader.cpp:64-90 | The chain holds the payload piece by piece with the right counts, or no buffer is left in use; the error tells which of memory, file or room ended it |
| CaptureLoader.TcapLoader.LoadPkt | gen/priv/tcap_loader.cpp:40-90 | One record: outcome, time in microseconds from both numbers of its stamp, position, indicator and buffers in use, for every file and every pool |
| CaptureLoader.PacketHolds | gen/priv/tcap_loader.cpp:64-90 | A packet that was loaded is a chain of buffers, linked from head to last, which together hold its bytes, all full but the last, with its length and their number in the head |
| CaptureLoader.NextPkt | gen/priv/flows_generator.cpp:48-59 | The packet's time in cycles, by the given distance of packets or by its capture |
| CaptureLoader.LoadRecords | gen/priv/flows_generator.cpp:41-60 | The loop gives the packets of all records until one does not load, and fails unless that was at the end of the file |
| CaptureLoader.LoadPkts | gen/priv/flows_generator.cpp:22-132 | Loading succeeds exactly when the file ends after its records, there is one, and all headers are accepted; it then gives every packet, rewritten, with its time and its side, and otherwise no buffer is left in use |
| GenConfig.LoadCaptures | mgmt/gen_config.cpp:82-133 | The captures are accepted in order, up to the first that is not, whose error it is |
| GenConfig.LoadsWhatItSays | mgmt/gen_config.cpp:83-132 | An accepted capture asks for what its fields say, each in its range; a number that is not one is not asked for, and the servers' network is the clients' |
| GenConfig.LoadsAsDocumentedIff | mgmt/gen_config.cpp:78-131 | A capture that meets the documentation is accepted if and only if no optional field is missing; its servers' network is the configured one if and only if it is that of the clients |
| GenConfig.EveryPacketReturns | mgmt/gen_config.cpp:89-130 | Every packet of every run of an accepted configuration goes to the address that it comes from |
| Numerals.U32ToDec | put/stacktrace.cpp:14-29 | The first eleven characters hold the decimal numeral and its terminator; nothing else changes |
| Numerals.DecReadsBack | put/stacktrace.cpp:20-23 | The numeral has no leading zero and reads back to the value |
| Numerals.DecIsShort | put/stacktrace.cpp:16-17 | It has at most k digits for values below 10^k |
| Numerals.DecIsUnique | put/stacktrace.cpp:20-26 | It is the only canonical numeral of the value |
| Numerals.AsWritten | put/stacktrace.cpp:14-43 | The digit of the lowest place is the last, in both numerals, each written as usual |
| Numerals.U64ToHex | put/stacktrace.cpp:31-43 | The prefix, sixteen digits and a terminator; nothing else changes |
| Numerals.HexReadsBack | put/stacktrace.cpp:36-38 | The sixteen digits read back to the value |
| Numerals.HexIsUnique | put/stacktrace.cpp:36-38 | Only they do |

## Left out

- Memory ordering: atomic loads and stores are atomic steps in one order. That the threads never touch the same slot at
  the same time is what makes plain accesses to slots sound.
- Callbacks of the ring are parameters: whether one element is accepted, how many of a range are. A bulk callback is
  taken to return no more than it was offered.
- `count_push_slots` and `capacity` of the ring, and copying instead of moving into it, add nothing.
- Liveness: that either thread ever runs again, or that the ring of responses never fills.
- GenManager.ManagerImpl.ProcessEvents: the management thread makes its steps before each message is handled and before
  each report; what the iteration still does after its last message touches no ring.
- HTTP, coroutines, response bodies and logging; a callback is a token that is called once. An unknown target, answered
  at once with "not found", is left out too.
- GenManager.ManagerImpl.OnStop: does not model the statistics of the device that the answer carries, only those that
  the manager adds to them.
- GeneratorRuns.BuildGenerators: how many buffers the pool has at a start is a parameter, since it is shared with packets
  in flight. That a generator's buffers are freed with it is not modelled.
- GenManager.ManagerImpl.RunScheduler: whether the pool has a buffer for a copy, and what the device takes, are
  parameters. The addresses in a copy are those of its report; checksums are left to the device.
- Timers.EventScheduler.Next: of timers with the same deadline any may run first. Deadlines are compared as 64-bit words
  as they stand. A timer that is stopped or set while it is about to run, and periodic timers, are not modelled: nothing
  does the former, which is proved, and the latter are not used.
- Packets received from the device, which are freed at once.
- Flows.FlowsGenerator.OnFlowEvent: counters of packets and bytes wrap at 64 bits as in the code; the beginning of a
  flow is stated for flows of fewer than 2^64 packets, where the code's own test for the first packet holds. The 32-bit
  index of a packet is unbounded here, so captures of 2^32 packets or more are not covered.
- CaptureLoader.File.Read: errors of reading other than the end of the file, and the value of `errno`.
- Time-stamps are unbounded until they are converted to cycles; the code's 64-bit microseconds hold every time-stamp of
  a record, but a given distance of packets could overflow them.
- Replay.ReplaysAsMeantIff: in cycles it is stated for a timer of a million cycles a second or more, time-stamps that do
  not go back, and stored times of fewer than 2^64 cycles; `Capture.WaitsAsMeantIff` has no such condition.
- The parser of configurations and its kinds of numbers, the duration and the device under test; the reading of a network
  from a text is a parameter. Other configuration files, the set-up of the device and of memory, signal handlers,
  start-up.
