# Drivers and servers of the CAmkES component library: model and proofs

Three parts of the component library are modelled and proved here.

**The timer server** (`components/TimeServerNVTMR/src/time_server.c`) shares one 1 ms hardware
tick among the timers of all clients. `TimerServer` is the component in its own form: timers are
nodes of a doubly linked list, sorted by deadline, that runs through the per-client arrays, and
every request relinks nodes in place. Each of its methods is proved to do what the operation of the
same name does in `TimerModel`, where the list is a sequence. `TimerDrain` is about the loop of the
tick handler: how many signals it gives, in which order, and what it leaves; `TimerEnds` and
`TimerOrbit` say exactly when it ends, for every state, with sums that wrap and periods that are zero.
`TimerTable` removes the queue: the server refines a table in which a tick fires everything due,
each timer by itself. `TimerRuns` and `TimerReports` prove over that table, and carry back to the
server, what clients rely on over whole runs: no drift, one-shots fire once and on time, a stop
cancels, completion words are exact.

**The CAN driver** (`components/can/src`, with the bus handshake of `components/spi/src/spi.c`) has
an RPC thread and an interrupt callback that share two rings, a flag, a semaphore, an SPI buffer and
the controller. `RingSteps`, `CanTransmit`, `CanReceive` and `SpiBus` are step systems, one step per
access to shared state, and their main results hold for every interleaving; so does transmission
progress (`CanProgress`), and from every state they reach, everything can come to rest with an empty
queue (`CanRest`). That no frame is overwritten in a transmit buffer does not hold: `CanBuffers` says
exactly in which runs the buffers stay in order, `CanLoss` that any departure makes a loss possible, and
`CanOverlap` exhibits a run that loses a frame.
Beside them stand the rings as objects (`Ring`), the byte layouts (`CanFrames`), the filter-slot allocator
(`CanFilters`), the priority cache (`CanPriority`), the bit-timing search (`CanBitTiming`) and the rate
at which the controller runs after it (`CanBitRate`).

**The clock-controller gate** (`components/clkcar/src/fwd_driver.c`) decides which register accesses
of a guest reach the hardware. `ClockGate` proves its bit-scanning loop against a statement about
bits, and what holds of the registers over every run of accesses.

`Words` has the 64-bit addition and the single bits of 32-bit words that several modules use.

## Where the code does less than it could be taken to promise

- A due periodic timer with period 0 keeps the tick handler busy for ever; one request is enough
  (`ZeroPeriodHangs`). `DrainEndsBelow` gives the exact condition for every state, in closed form, and
  `HorizonSuffices` one that callers can check before the run.
- A relative one-shot whose 64-bit deadline wraps is signalled at the first tick
  (`RelativeNeverEarlyIff`).
- `start_xmit` can set TXnIF of a buffer that the callback has taken since TXREQ was read. The buffers
  are in order throughout a run if and only if that never happens (`BuffersOkIff`), which is so when no
  attempt of `can_send` overlaps a callback (`ExclusiveNoClash`). Otherwise a loaded frame can be
  overwritten: from the state right after the first such step there is always a continuation that does
  so (`ClashMakesLossPossible`; `OverlapLosesFrame` is a run). Progress is not affected.
- `can_recv` can return without a frame, because a dropped frame posts the semaphore too
  (`SecondReceiveMisses`). `FindsEmptyIff` says when one call does, `MissesIff` when some later call will.
- An identifier survives the registers exactly when it fits its format (`IdRoundTrip`).
- `set_rx_filter` reads masks back through `uint8_t`. A mask above 0xFF is not recognised
  (`SupportedIff`), and one without any of the low eight bits makes the next set overwrite a filter in
  use (`NextSetOverwritesIff`, `WideMaskOverwrites`); with one of these bits in every mask no run does
  (`LowMasksAreSafe`).
- `can_sendto` into a buffer whose cache slot is taken sends with priority -1 in two bits, that is 3,
  and leaves the old identifier in the cache. With 5, 3 and 4 sent in this order, 5 and 3 to the same
  buffer, 4 goes out before 3 (`StaleCacheFails`). `SendStaysOrderedIff` and `RunStaysOrderedIff` say
  exactly which sends keep the order for good.
- The search for the bit timing does not minimise the timing error, although the comment at
  components/can/src/controller.c:215 says so: it measures a quantum against one oscillator tick,
  while the controller makes quanta of an even number of ticks. Of all rates the controller runs at the one
  asked for exactly for 14 (`MetExactly`, `SetBaudrate`); five more it could meet and misses
  (`MissedExactly`), 100 kbit/s and 500 kbit/s among them: at 500 kbit/s a bit lasts 48 oscillator periods
  and not 40 (`HalfMegabitFails`). `ExactRateIff` gives the condition in terms of the search's result. A
  quantum of an odd number of ticks has no error in the search and the worst one afterwards
  (`OddTicksAreWorst`).
- The prescaler is cut to eight bits and can be rounded to 0. The controller works with the computed
  timing, with the prescaler step nearest to the rate, exactly when a bit has at most 16 quanta and the
  prescaler was in 1..64 (`DecodesNearestIff`). At 4845 bit/s it is cut, at 800001 bit/s it is 0, and at
  800 kbit/s the bit has 25 quanta (`SlowRateFails`, `ZeroPrescalerFails`, `FastRateFails`).
- The comment at components/clkcar/src/fwd_driver.c:83-85 says that writes are blocked for two
  devices only; the code lets writes through for four devices only. The model follows the code.

## Model

| member | source | states |
|---|---|---|
| TimerServer.TimeServer.constructor | components/TimeServerNVTMR/src/time_server.c:279-295 | all timers of all clients exist, are off and are numbered by their place in the arrays; the list and the completion words are empty and the clock reads 0 |
| TimerServer.TimeServer.RemoveTimer | components/TimeServerNVTMR/src/time_server.c:83-94 | unlinking the node at any position leaves a well-formed doubly linked list of the other nodes in the same order, whatever links the removed node keeps; the assertion that a node without predecessor is the head holds |
| TimerServer.TimeServer.InsertTimer | components/TimeServerNVTMR/src/time_server.c:96-110 | the node is linked in after exactly those nodes whose deadline is smaller, and the list stays well formed |
| TimerServer.TimeServer.SignalClient | components/TimeServerNVTMR/src/time_server.c:112-130 | signalling the first timer emits its client's badge, sets its completion bit and re-arms a periodic timer or turns a one-shot off, keeping the whole invariant; the case of a timer that is off cannot occur |
| TimerServer.TimeServer.SignalClients | components/TimeServerNVTMR/src/time_server.c:132-137 | in every state in which the loop ends, it leaves the specified drained state, while nodes are re-inserted into the list being drained |
| TimerServer.TimeServer.IrqHandle | components/TimeServerNVTMR/src/time_server.c:140-148 | a tick advances the 64-bit clock by TIMER_PERIOD and drains everything due, whenever the drain ends; where no sum wraps it is the tick of the model |
| TimerServer.TimeServer.OneshotRelative | components/TimeServerNVTMR/src/time_server.c:150-165 | -1 and no change for a timer number out of range; otherwise the timer, whatever it was before, is a relative one-shot with deadline now + ns (64-bit) and is in its place in the list |
| TimerServer.TimeServer.OneshotAbsolute | components/TimeServerNVTMR/src/time_server.c:167-182 | as above, an absolute one-shot whose deadline is ns |
| TimerServer.TimeServer.SetPeriodic | components/TimeServerNVTMR/src/time_server.c:184-200 | as above, periodic with period ns and first deadline now + ns |
| TimerServer.TimeServer.Stop | components/TimeServerNVTMR/src/time_server.c:202-215 | -1 and no change out of range; otherwise the timer is off and out of the list, everything else as it was |
| TimerServer.TimeServer.Completed | components/TimeServerNVTMR/src/time_server.c:217-225 | returns the word whose set bits are the timers signalled and not yet reported, and clears it for this client only |
| TimerServer.TimeServer.Time | components/TimeServerNVTMR/src/time_server.c:227-232 | the clock that the ticks advance |
| TimerServer.PositionIs | components/TimeServerNVTMR/src/time_server.c:96-110 | the place the insertion loop stops at is the only one with earlier deadlines before it and none at it |
| TimerModel.InsertKeeps | components/TimeServerNVTMR/src/time_server.c:96-110 | inserting keeps the queue sorted and without repetition and adds exactly one member |
| TimerModel.WithoutKeeps | components/TimeServerNVTMR/src/time_server.c:83-94 | removing keeps the queue sorted and without repetition and takes out exactly one member |
| TimerModel.ArmKeeps | components/TimeServerNVTMR/src/time_server.c:150-200 | after arming, the queue holds exactly the timers that are not off, each once, by deadline |
| TimerModel.DisarmKeeps | components/TimeServerNVTMR/src/time_server.c:202-215 | the same after a stop |
| TimerModel.FireKeeps | components/TimeServerNVTMR/src/time_server.c:112-130 | the same after every round of the drain loop |
| TimerModel.FireMeasure | components/TimeServerNVTMR/src/time_server.c:112-137 | each signal lowers the sum over active timers of the signals still due (1, or (now - deadline) / period + 1) by exactly one |
| TimerEnds.DrainEndsExactly | components/TimeServerNVTMR/src/time_server.c:112-137 | in every state the drain loop ends if and only if each due periodic timer can be taken beyond now by some number of 64-bit additions of its period |
| TimerOrbit.DrainEndsBelow | components/TimeServerNVTMR/src/time_server.c:112-137 | in every state the drain loop ends if and only if, for each due periodic timer, now is below the highest 64-bit value that agrees with its deadline in the bits below the lowest set bit of its period |
| TimerOrbit.CanPassIff | components/TimeServerNVTMR/src/time_server.c:122-122 | some number of 64-bit additions of the period takes a timer beyond now if and only if its deadline or that highest value is beyond now |
| TimerOrbit.ReachesHighest | components/TimeServerNVTMR/src/time_server.c:122-122 | that highest value is reached by adding the period some number of times |
| TimerOrbit.NeverAbove | components/TimeServerNVTMR/src/time_server.c:122-122 | no number of additions of the period goes beyond it |
| TimerEnds.EndsPasses | components/TimeServerNVTMR/src/time_server.c:112-137 | a loop that ends has taken each due periodic timer beyond now |
| TimerEnds.BudgetEnds | components/TimeServerNVTMR/src/time_server.c:112-137 | if numbers of signals that are enough for the timers are given, the loop ends within their sum |
| TimerEnds.ZeroPeriodHangs | components/TimeServerNVTMR/src/time_server.c:184-200 | after a request for period 0 as the only one, the next tick never ends |
| TimerDrain.SafeEnds | components/TimeServerNVTMR/src/time_server.c:132-137 | where periods are positive and no sum wraps, the loop ends, in the state the other results are about |
| TimerDrain.ZeroPeriodStaysDue | components/TimeServerNVTMR/src/time_server.c:112-137 | a due timer with period 0 is still due after any number of rounds of the drain loop |
| TimerDrain.DrainKeeps | components/TimeServerNVTMR/src/time_server.c:132-137 | the drained server is well formed, has nothing due, and has the same clock and timers |
| TimerDrain.NothingDue | components/TimeServerNVTMR/src/time_server.c:132-137 | when the first timer is not due, no active timer has a deadline at or before now |
| TimerDrain.DrainLog | components/TimeServerNVTMR/src/time_server.c:132-137 | a drain gives exactly as many signals as the measure says |
| TimerDrain.BurstInOrder | components/TimeServerNVTMR/src/time_server.c:112-137 | the signals of a drain come in non-decreasing order of deadline and none is early |
| TimerDrain.DrainTimer | components/TimeServerNVTMR/src/time_server.c:112-137 | what the loop does to one timer depends on no other: its signals and new deadline in closed form |
| TimerDrain.DrainWords | components/TimeServerNVTMR/src/time_server.c:112-137 | a drain sets the completion bit of a timer exactly when the timer had something due |
| TimerTable.TickRefines | components/TimeServerNVTMR/src/time_server.c:140-148 | a tick of the list server is a tick of the table that fires everything due at once |
| TimerTable.ArmRefines | components/TimeServerNVTMR/src/time_server.c:150-200 | arming overwrites one entry of the table |
| TimerTable.StopRefines | components/TimeServerNVTMR/src/time_server.c:202-215 | stopping turns off one entry of the table |
| TimerTable.CompletedRefines | components/TimeServerNVTMR/src/time_server.c:217-225 | reporting forgets the finished timers of one client |
| TimerTable.RunRefines | components/TimeServerNVTMR/src/time_server.c:83-225 | after every sequence of requests and ticks the server and the table agree on deadlines, signals of each timer and unreported timers, and the server is well formed |
| TimerRuns.NoDrift | components/TimeServerNVTMR/src/time_server.c:112-200 | a periodic timer armed at t0 with period p has fired floor((now - t0) / p) times, the i-th with deadline t0 + (i + 1) p at the first tick that reaches it, whatever others do |
| TimerRuns.NextDeadline | components/TimeServerNVTMR/src/time_server.c:112-200 | its next deadline is in (now, now + p] |
| TimerRuns.OneShot | components/TimeServerNVTMR/src/time_server.c:112-182 | a one-shot timer left alone fires exactly once, at the first tick that reaches its deadline, and not before |
| TimerRuns.FirstTickOnTime | components/TimeServerNVTMR/src/time_server.c:29-30 | that tick is never early, and less than TIMER_PERIOD late for a deadline in the future |
| TimerRuns.OffStaysSilent | components/TimeServerNVTMR/src/time_server.c:202-215 | a timer that is off gives no signal until it is armed again |
| TimerReports.PeriodicPromise | components/TimeServerNVTMR/src/time_server.c:184-200 | no drift, stated of the server from the request on, over every run that leaves the timer alone |
| TimerReports.OneshotPromise | components/TimeServerNVTMR/src/time_server.c:150-182 | fired once and on time, or still waiting, stated of the server from the request on; the deadline before the request plays no part |
| TimerReports.AbsolutePromise | components/TimeServerNVTMR/src/time_server.c:167-182 | over every run that leaves the timer alone, an absolute one-shot gives one signal, with deadline ns, never before ns and less than one tick after it, or at the next tick if ns has passed; until then none, and it waits for ns |
| TimerReports.StopPromise | components/TimeServerNVTMR/src/time_server.c:202-215 | after a stop the signals of the timer stay what they were, over every run that does not arm it |
| TimerReports.CompletionExact | components/TimeServerNVTMR/src/time_server.c:112-225 | in every run, bit k of each completion word handed out, and of each word as it stands, is set if and only if timer k fired since that client last asked |
| TimerReports.OthersUntouched | components/TimeServerNVTMR/src/time_server.c:150-225 | a request of one client changes no timer, word or signal history of another |
| TimerReports.BadgesArmed | templates/seL4TimeServer-to.template.c:37-38 | every emitted badge is between 1 and the largest badge and belongs to a client that armed that timer earlier in the run, which is what the lookup asserts |
| TimerReports.HorizonSuffices | components/TimeServerNVTMR/src/time_server.c:132-200 | if every period is positive and fits 64 bits beyond the end of the run, every tick of the run ends and nothing wraps |
| TimerReports.RelativeNeverEarlyIff | components/TimeServerNVTMR/src/time_server.c:150-165 | over every run that leaves the timer alone, the signal of a relative one-shot is at or after its time if and only if the 64-bit sum does not wrap, then less than one tick late; when it wraps, the first tick gives the one signal |
| Words.SetAndClearBit | components/TimeServerNVTMR/src/time_server.c:112-114 | setting or clearing BIT(k), k < 32, changes bit k and no other |
| Ring.NextIsRemainder | components/can/src/queue.c:44-55 | the index computed as a remainder is the following slot, wrapping at the end |
| Ring.FullAndEmpty | components/can/src/queue.c:32-41 | the full test holds exactly when size - 1 messages are queued, the empty test exactly when none is |
| Ring.MessageQueue.IsFull | components/can/src/queue.c:32-35 | true exactly when size - 1 messages are queued |
| Ring.MessageQueue.IsEmpty | components/can/src/queue.c:38-41 | true exactly when no message is queued |
| Ring.MessageQueue.Append | components/can/src/queue.c:44-48 | one message is added at the end; nothing outside the queue's own slots is written |
| Ring.MessageQueue.Remove | components/can/src/queue.c:51-55 | the oldest message is returned and taken out |
| Ring.MessageQueue.Push | components/can/src/queue.c:101-113 | queued and 0, or -1 and unchanged, exactly according to whether size - 1 messages were queued |
| Ring.MessageQueue.Pop | components/can/src/queue.c:126-138 | the oldest message, or NULL and unchanged exactly when the queue was empty |
| Ring.InitQueues | components/can/src/queue.c:62-90 | both queues are empty and own disjoint halves of the one allocation |
| Ring.MessageQueue.OtherKept | components/can/src/queue.c:62-90 | an operation on one queue leaves the contents of the other as they were |
| RingSteps.ProducerSimulates | components/can/src/queue.c:101-113 | each producer step (unlocked test, copy, index update) is a step of a bounded FIFO; no queued frame is overwritten |
| RingSteps.ConsumerSimulates | components/can/src/queue.c:126-138 | each consumer step is a step of the bounded FIFO; no unwritten slot is read |
| RingSteps.RingIsFifo | components/can/src/queue.c:32-186 | every interleaving of one producer and one consumer is a run of a FIFO of capacity size - 1, each call taking effect at one of its own steps, with refused and empty results only when the FIFO is full or empty |
| CanTransmit.ConservationOfFrames | components/can/src/dev.c:136-144 | under every interleaving, frames taken by the callback followed by those queued are those accepted, in order; each returned can_send has queued its frame exactly once, and of the calls made only the current one has not returned; every frame taken is in the handler, in a buffer, sent, or overwritten |
| CanTransmit.RpcConserves | components/can/src/dev.c:136-144 | each step of can_send and start_xmit keeps that account through the retry loop |
| CanTransmit.IrqConserves | components/can/src/irq.c:106-148 | each step of transmit_message keeps that account |
| CanTransmit.IrqAccounts | components/can/src/irq.c:114-144 | each frame popped is passed on to exactly one place |
| CanTransmit.TransmittedAccounts | components/can/src/irq.c:106-148 | a completion by the controller moves the frame of its buffer to the frames sent |
| CanProgress.ProgressOverRuns | components/can/src/irq.c:106-148 | under every interleaving: while a frame is queued, a buffer is being sent, flagged, or in the hands of the callback, or an attempt of can_send is still looking for one; and transmission that is not stopped has such a buffer or the callback is about to stop it |
| CanProgress.RpcProgress | components/can/src/irq.c:257-271 | each step of can_send keeps this: what the scan has passed stays covered, and an attempt ends with an active buffer |
| CanProgress.IrqProgress | components/can/src/irq.c:106-148 | each step of the callback keeps this: a buffer stops being active only when the queue is found empty for it, and is uncovered only with xmit_stopped set under the lock |
| CanProgress.TransmittedProgress | components/can/src/irq.c:106-148 | a completion at any time keeps the invariant |
| CanProgress.AtRestAllSent | components/can/src/dev.c:136-144 | under every interleaving, when nothing is running or pending any more, the queue is empty and the frames sent or overwritten are exactly those of the calls that returned |
| CanProgress.FlagResumes | components/can/src/irq.c:263-269 | under every interleaving, once start_xmit has set a flag, xmit_stopped is clear from the next step until it gives up the lock |
| CanProgress.RunningSkipsScan | components/can/src/irq.c:260-260 | while transmission is running an attempt touches no register |
| CanRest.AlwaysCanRest | components/can/src/irq.c:106-148 | from every state that some interleaving reaches, a continuation without new calls ends with no thread inside a call, nothing pending, an empty queue, and every frame sent or overwritten: no deadlock on the locks, no frame left behind |
| CanRest.ComesToRest | components/can/src/dev.c:136-144 | steps that each lower the work left lead to rest |
| CanRest.NextDrops | components/can/src/irq.c:257-271 | short of rest some step that is no new call can be taken and lowers the work left: a thread that waits for a lock waits for one that can go on |
| CanRest.OneSlotIsFull | components/can/src/queue.c:32-35 | with a queue of one slot no frame is ever accepted and no can_send returns, so two slots are needed for the above |
| CanBuffers.BuffersOkIff | components/can/src/irq.c:257-271 | over a run, TXnIF implies TXREQ clear, a claimed buffer is free and a buffer holds a frame exactly while loaded or being sent, in every state, if and only if start_xmit never sets the flag of a buffer that is being sent or claimed by the callback |
| CanBuffers.NoClashSound | components/can/src/irq.c:106-148 | in a run without such a step no frame is ever overwritten |
| CanBuffers.ClashBreaks | components/can/src/irq.c:264-266 | such a step breaks its buffer at once |
| CanLoss.ClashMakesLossPossible | components/can/src/irq.c:132-136 | up to its first such step a run has lost no frame, and from the state right after that step some continuation overwrites one |
| CanLoss.ComesToLoad | components/can/src/irq.c:115-137 | a callback that is to serve a buffer can come to load it, with calls that push frames in time |
| CanLoss.FlaggedFrameLost | components/can/src/irq.c:106-148 | a frame in a buffer whose TXnIF is set can be overwritten by a later load |
| CanBuffers.IrqKeepsBuffer | components/can/src/irq.c:106-148 | no step of the callback breaks a buffer |
| CanBuffers.AtRestNoneLost | components/can/src/dev.c:136-144 | at rest after a run without such a step, the frames sent are exactly those of the calls that returned |
| CanBuffers.ExclusiveNoClash | components/can/src/irq.c:257-271 | there is no such step if attempts of can_send and callbacks do not overlap |
| CanOverlap.OverlapBreaksBuffers | components/can/src/irq.c:257-271 | a reachable run ends with TX0IF set while TXREQ 0 is set and a frame is pending in the buffer |
| CanOverlap.OverlapLosesFrame | components/can/src/irq.c:132-136 | the run goes on to a state in which the callback has overwritten that frame, four calls having returned and nothing having been sent |
| CanReceive.SemaphoreAccounts | components/can/src/irq.c:155-180 | at every step: semaphore + token in use = queued + dropped - empty receives - post still owed, and empty receives never exceed dropped frames |
| CanReceive.RpcAccounts | components/can/src/dev.c:146-150 | a receive that finds the queue empty is paid for by a dropped frame |
| CanReceive.BlockedMeansEmpty | components/can/src/dev.c:146-150 | a can_recv that is blocked leaves at most one frame queued, whose post is owed, and none when the callback is idle |
| CanReceive.DeliveryInOrder | components/can/src/dev.c:146-150 | frames delivered, in transit and queued are the frames pushed, in order, each once; calls without a frame never outnumber dropped frames |
| CanReceive.ReceivedIsQueuedOrDropped | components/can/src/irq.c:155-170 | under every interleaving, the frames read from the controller are the frames queued merged with the frames dropped, each in its order, but for one just arriving |
| CanReceive.FindsEmptyIff | components/can/src/dev.c:146-150 | a can_recv about to test the queue finds it empty if and only if semaphore + 1 + owed post = dropped - empty receives |
| CanReceive.MissesIff | components/can/src/irq.c:160-170 | from any reachable state at rest, some continuation without further drops makes a can_recv return without a frame if and only if more frames were dropped than receives found nothing |
| CanReceive.SecondReceiveMisses | components/can/src/dev.c:146-150 | two frames arriving at a queue with room for one make the second of two receives return without a frame |
| SpiBus.CommandsAreAtomic | components/can/src/spi_cmd.c:48-146 | in every interleaving of both threads and the controller, which may change registers by itself at any time, there is one order of commands and changes such that the registers are at every moment what it leaves, and each command does there what it is for: byte i of a read is register reg + i, a write stores its bytes from reg on and nothing else, a bit-modify takes the bits of the value where the mask is 1; finished commands are those of the order, in the order they released the lock, but for one in hand |
| SpiBus.ApplyDoes | components/can/src/spi_cmd.c:48-146 | the operation of each command, register by register and bit by bit |
| SpiBus.ModifyBits | components/can/src/spi_cmd.c:125-146 | bit k of the result is bit k of the value where the mask has a 1, and the old bit elsewhere |
| SpiBus.ReadAfterWrite | components/can/src/spi_cmd.c:68-123 | a read of the registers just written returns the bytes written |
| SpiBus.StepKeeps | components/can/src/spi_cmd.c:48-146 | each step of a thread or of the bus keeps the invariant of the lock holder, the shared buffers and the semaphore |
| SpiBus.CompleteKeeps | components/spi/src/spi.c:100-108 | the one callback per accepted transfer posts for the thread that waits, with its command carried out and its reply in place |
| SpiBus.ChangeKeeps | components/can/src/spi_cmd.c:48-146 | a change the controller makes by itself is one event of the order and disturbs no command under way |
| SpiBus.CopyKeeps | components/can/src/spi_cmd.c:48-86 | the reply is read from behind the command bytes before anyone else can write the buffer |
| SpiBus.PerformApplies | components/can/src/spi_cmd.c:48-146 | the bytes a command sends are decoded by the controller, by the opcodes of the chip, to the operation that was meant |
| CanFrames.IdRoundTrip | components/can/src/controller.c:428-490 | the format always survives encoding and decoding; the identifier exactly when it fits its format |
| CanFrames.DlcRoundTrip | components/can/src/controller.c:449-496 | remote flag and length survive the DLC register |
| CanFrames.IdLayout | components/can/src/controller.c:435-448 | every bit of the four registers: which bit of the identifier or format it is, and that the others are 0 |
| CanFrames.MaskLayout | components/can/src/controller.c:149-163 | the same of a mask, which has no format bit; the extended part of a standard mask is 0 |
| CanFrames.DlcLayout | components/can/src/controller.c:449-496 | every bit of the DLC register as written, and which bits of it are read |
| CanFrames.ReadsWord | components/can/src/controller.c:477-488 | of any register contents, which bits the identifier and format received are made of |
| CanFrames.LoadTxb | components/can/src/controller.c:428-455 | the buffer holds the encoded frame, the part transferred ends with the payload, and the rest is zero |
| CanFrames.FrameBuffer.RecvRxb | components/can/src/controller.c:469-500 | fills the caller's frame in place: whatever frame the bytes are the encoding of is restored, and the data beyond its payload is kept |
| CanFrames.FrameRoundTrip | components/can/src/controller.c:428-500 | decoding an encoded frame restores format, remote flag, length and payload of every frame with at most eight bytes, the identifier if and only if it is in range, and gives remote frames length 0 |
| CanFrames.FilterMeaning | components/can/src/controller.c:144-187 | for identifiers of the filter's format, the registers accept exactly those with ((id ^ filter) & mask) == 0 |
| CanFilters.Controller.IsFilterEmpty | components/can/src/controller.c:120-132 | true exactly when all four registers of the filter are zero |
| CanFilters.Controller.WriteToFilter | components/can/src/controller.c:144-187 | writes one filter, and the mask of its group unless the mask given is zero; no other register changes |
| CanFilters.Controller.SetRxFilter | components/can/src/controller.c:323-363 | the registers end up as the allocator's specification says, for every register content |
| CanFilters.Controller.ClearRxFilter | components/can/src/controller.c:372-396 | the same for clearing |
| CanFilters.SetAllocates | components/can/src/controller.c:323-363 | takes the first slot that is free, in an empty group or one with the same mask; changes no other filter; returns -1 exactly when there is no such slot |
| CanFilters.PassedOver | components/can/src/controller.c:348-359 | when the loop goes on to the next group, this group has no slot the set could take |
| CanFilters.ClearFrees | components/can/src/controller.c:372-396 | frees one slot and keeps every other filter and its mask |
| CanFilters.AllocatorInvariant | components/can/src/controller.c:323-396 | over every run from zeroed registers, a mask is zero exactly when its group is empty, and a live filter's mask is the one it was set with |
| CanFilters.LiveFiltersAccept | components/can/src/controller.c:144-396 | over every such run each live filter accepts, of the standard identifiers, exactly those that agree with the one it was set with on the mask it was set with |
| CanFilters.SetAccepts | components/can/src/controller.c:144-363 | for both formats, any register contents and any mask but 0: a set changes one slot and at most the mask of its group, and if that group's mask read as free the registers then accept exactly the identifiers of the format that agree on the mask |
| CanFilters.ClearWrites | components/can/src/controller.c:372-396 | whatever the registers hold, a clear zeroes its slot, the mask of the group if that is then empty, and nothing else |
| CanFilters.ExtendedMaskReadsBack | components/can/src/controller.c:327-341 | of an extended mask set_rx_filter recognises bits 25..18 and 7..0 |
| CanFilters.ReadBack | components/can/src/controller.c:331-341 | what set_rx_filter reads back tells it exactly whether the group is empty and which mask its filters have |
| CanFilters.SupportedIff | components/can/src/controller.c:327-339 | a filter set into an empty bank is in use and its mask is read back as given exactly when one of the 11 identifier bits is set and the mask is 1..0xFF |
| CanFilters.NextSetOverwritesIff | components/can/src/controller.c:327-347 | after a first set with one of the 11 identifier bits, the next set, whatever it is, overwrites that filter if and only if the mask has none of its low eight bits |
| CanFilters.LowMasksAreSafe | components/can/src/controller.c:323-396 | in every run of sets and clears in which each mask has one of its low eight bits, however wide, a set only ever takes a slot that was empty and changes no other filter |
| CanFilters.WideMaskOverwrites | components/can/src/controller.c:327-347 | with mask 0x100 the second set overwrites the filter of the first |
| CanPriority.TxbCache.GetFramePriority | components/can/src/prio.c:40-72 | -1 and no change for a taken slot; otherwise the result and the TXP of every other cached buffer are the numbers of cached identifiers greater than theirs |
| CanPriority.TxbCache.RankSlots | components/can/src/prio.c:51-63 | the pairwise loops give each slot the number of cached identifiers greater than its own |
| CanPriority.TxbCache.Clear | components/can/src/prio.c:30-33 | frees the slot and leaves the controller as it was |
| CanPriority.SlotsOfRun | components/can/src/prio.c:30-49 | over every run of sends and clears, a slot is free unless a frame was sent to it since it was last cleared, and then has the identifier of the first such frame; the frame pending is the last one sent to the buffer |
| CanPriority.PrioritiesOfRun | components/can/src/prio.c:40-72 | over every run, a clear changes no priority; a send to a free slot gives each cached frame the number of greater identifiers cached; a send to a taken slot gives its own frame 3 and changes no other |
| CanPriority.GreaterIsAntitone | components/can/src/prio.c:51-63 | that number is strictly larger for the smaller of two identifiers and equal for equal ones |
| CanPriority.TxbCache.SendFrame | components/can/src/dev.c:118-134 | the buffer's identifier and TXP, and those of the others, after a send to an idle buffer |
| CanPriority.SendToFreeOrders | components/can/src/dev.c:118-134 | a send into a free slot with a non-zero identifier orders all cached buffers, with a priority that fits two bits, whatever their priorities were before |
| CanPriority.PriorityOrder | components/can/src/prio.c:30-72 | over every run of such sends and of cache clears, smaller identifiers have strictly larger TXP and equal ones equal TXP |
| CanPriority.StaysOrderedIff | components/can/src/prio.c:40-72 | the order holds after every further run of sends into free slots and clears if and only if it holds now and the cache has the identifiers of the pending frames |
| CanPriority.SendStaysOrderedIff | components/can/src/prio.c:42-45 | a send to any slot keeps the order for good if and only if the slot is free, or the send repeats the identifier in it and this is the smallest |
| CanPriority.RunStaysOrderedIff | components/can/src/dev.c:118-134 | over a run of any sends and clears, the order is there to stay in every state if and only if each send meets that condition |
| CanPriority.StaleCacheFails | components/can/src/prio.c:42-45 | for all identifiers b < d < a, sending a and b to one buffer and then d to another leaves d before b, although the order held after b |
| CanBitTiming.ComputeTiming | components/can/src/controller.c:205-269 | for every 32-bit rate, either a division by zero, exactly where the rate or the 32-bit divisor is 0, or the first number of quanta in 8..25 with the least error; segments that fill the bit, propseg 2, phseg2 the nearest to 30 percent of the bit, in 2..8 and not above phseg1, phseg1 at most 8 exactly when there are at most 16 quanta |
| CanBitTiming.TqErrorIsDistance | components/can/src/controller.c:218-230 | the error minimised is the distance from the quantum to the nearest multiple of the oscillator tick |
| CanBitRate.SetBaudrate | components/can/src/controller.c:205-270 | for every 32-bit argument that does not divide by zero, the controller, by the fields it decodes, runs at the rate asked for if and only if that is one of 14 listed rates; the mode bit of CNF2 is set and CNF3 holds phase 2 only; at the listed rates the bus is sampled once and the jump width is 1 |
| CanBitRate.MetExactly | components/can/src/controller.c:205-270 | of all rates whose divisor does not wrap, those 14 are the ones met |
| CanBitRate.ExactRateIff | components/can/src/controller.c:212-242 | the rate is met if and only if the search ends with at most 16 quanta and 2 * rate * quanta divides the oscillator frequency at most 64 times |
| CanBitRate.MissedExactly | components/can/src/controller.c:212-233 | five listed rates are exactly those that some prescaler in 1..64 with 8..16 quanta meets and the search does not |
| CanBitRate.OddTicksAreWorst | components/can/src/controller.c:224-242 | with the rounded prescaler q the rate is off by at most the part 1 / (2q - 1), and by that much if and only if a quantum should be 2q - 1 ticks |
| CanBitRate.OddTicks | components/can/src/controller.c:224-242 | where a quantum should be 2k + 1 ticks the prescaler is k + 1, and the bit as many ticks too long as it has quanta |
| CanBitRate.HalfMegabitFails | components/can/src/controller.c:212-242 | at 500 kbit/s the search picks 8 quanta, the prescaler is 3 and a bit lasts 48 oscillator periods, though 10 quanta and prescaler 2 meet the rate |
| CanBitRate.RunsAtMeans | components/can/src/controller.c:90-108 | what the controller decodes from the registers: a prescaler in 1..64, the stored one if that is, and eight quanta fewer when there are more than 16 |
| CanBitRate.OtherBits | components/can/src/controller.c:90-108 | the mode bit is set and the other bits of CNF3 are clear; the sampling bit is clear if and only if there are at most 16 quanta, and the jump width is 1 if and only if the stored prescaler is in 1..64 |
| CanBitTiming.DecodesNearestIff | components/can/src/controller.c:205-270 | the controller decodes the computed timing, and its prescaler is the step nearest to the rate, if and only if there are at most 16 quanta and the prescaler before it is stored is in 1..64 |
| CanBitTiming.NearestStepIff | components/can/src/controller.c:242-242 | the stored prescaler is the step nearest to the rate if and only if it was in 1..255 before it was stored |
| CanBitTiming.PrescalerInByte | components/can/src/controller.c:242-242 | from 4893 bit/s on the prescaler is never cut, and up to 800 kbit/s it is never 0 |
| CanBitTiming.ZeroPrescalerFails | components/can/src/controller.c:242-258 | at 800001 bit/s the prescaler is 0, the controller takes 64, and neither gives the rate |
| CanBitTiming.SlowRateFails | components/can/src/controller.c:242-242 | at 4845 bit/s the search picks 8 quanta, the stored prescaler is 2, and that is not the nearest step |
| CanBitTiming.CnfRoundTripIff | components/can/src/controller.c:90-108 | the CNF bytes decode to the fields given, phase 2 being read from CNF3 only in the mode that CNF2 selects, if and only if every field is within its register's range |
| CanBitTiming.TimingReachesController | components/can/src/controller.c:205-270 | the controller decodes the computed timing exactly when there are at most 16 quanta and the stored prescaler is 1..64 |
| CanBitTiming.FastRateFails | components/can/src/controller.c:212-258 | at 800 kbit/s the search picks 25 quanta, and the controller does not decode the timing computed |
| ClockGate.CountTrailingZeros | components/clkcar/src/fwd_driver.c:95-95 | the position of the lowest set bit |
| ClockGate.AllowEnbRst | components/clkcar/src/fwd_driver.c:86-114 | within 32 rounds, accepts a write if and only if every set bit names an allowed device of the bank |
| ClockGate.Gate.Handler | components/clkcar/src/fwd_driver.c:42-150 | the handler of the register's type decides as specified for every kind of access |
| ClockGate.Gate.HandleRegister | components/clkcar/src/fwd_driver.c:175-214 | an aligned write that the register's type lets through leaves its value in that word and no other word changes; an answered read returns the word; otherwise frame and value stay as they were |
| ClockGate.Gate.GenFwdRead | components/clkcar/src/fwd_driver.c:222-232 | the register's value if the offset is an aligned one below the page size of a register neither reserved nor of unknown type, and 0 otherwise; the frame never changes |
| ClockGate.Gate.GenFwdWrite | components/clkcar/src/fwd_driver.c:240-249 | the word holds the value written if its type lets the write through; nothing else changes |
| ClockGate.GateHolds | components/clkcar/src/fwd_driver.c:42-214 | over every run of accesses, reserved, misc, foreign source and PLLP base and misc words keep their value, and an enable or reset word keeps its value or holds only allowed bits |
| ClockGate.LastWriteStays | components/clkcar/src/fwd_driver.c:175-214 | over every run each word holds the value of the last write to it that its type lets through, or its initial value |
| ClockGate.ReadsLastWrite | components/clkcar/src/fwd_driver.c:222-232 | after every run a read returns that value, or 0 if reads of the register are not answered |
| ClockGate.AllowedMeans | components/clkcar/src/fwd_driver.c:42-150 | reads are let through exactly for registers neither reserved nor of unknown type; writes exactly to words that are not protected, with only allowed bits for enable and reset words |
| ClockGate.WriteThenRead | components/clkcar/src/fwd_driver.c:222-249 | a client that writes and reads back gets its value if the write was let through, and no other word has changed |
| ClockGate.NeverChangesIff | components/clkcar/src/fwd_driver.c:42-214 | the words that no run of accesses can change, whatever the frame holds, are exactly the reserved, misc, foreign source and PLLP base and misc words |
| ClockGate.ProtectedIff | components/clkcar/src/fwd_driver.c:42-214 | a word accepts a write with only allowed bits exactly when it is not one of those |

## Left out

- Locks of the timer server: each request and each tick is one atomic operation, as time_server_lock makes it; the read of the clock at components/TimeServerNVTMR/src/time_server.c:227-232 without the lock is taken to be atomic.
- Timer hardware set-up, acknowledging its interrupt, and running out of memory in post_init.
- TimerServer.TimeServer.IrqHandle: requires that the drain ends, which DrainEndsBelow characterises; where it does not, the component hangs.
- TimerTable.TickRefines: whole runs are about ticks at which the clock and the next deadlines of due periodic timers fit 64 bits; HorizonSuffices says what this asks of callers.
- TimerServer.TimeServer.constructor: requires at most 32 timers per client, so that BIT(id) fits the completion word; the component is configured with 6 (components/TimeServerTK1/TimeServer.camkes:43).
- The step systems (RingSteps, CanTransmit, CanReceive, SpiBus) are on values: the two threads interleave inside a call, which a method cannot express. They do not capture update in place; module Ring does so for the queues, one call at a time.
- Memory ordering between the two threads beyond one step per shared access.
- The rest of the interrupt callback: error, wake-up and message-error flags, the acknowledgements emitted for each buffer, clearing the priority cache, and the order of transmit and receive work within one callback; transmission and reception are separate systems.
- CanTransmit.IrqConserves: the wait at components/can/src/irq.c:134 masks the register address and so reads register 0, not TXBCTRL; it is taken to pass at any time, and that a loaded buffer is free is proved from the flags instead.
- SpiBus.CommandsAreAtomic: says nothing of the bytes a refused command returns.
- CanRest.AlwaysCanRest: that threads are scheduled and the controller finishes is not assumed, so frames can be sent, but nothing says when they are.
- CanOverlap.OverlapLosesFrame: relies on that wait passing while TXREQ is set, as it does when register 0 reads 0; what the chip itself does with a load during transmission, or when a buffer is requested again, is not part of this model.
- can_abort, and can_sendto mixed with queued sending: they bypass the queue and its flags.
- CanReceive.MissesIff: is about states in which neither thread is inside a call.
- Transmit priority of queued frames: load_txb writes the priority the client set, which the queue never looks at.
- SPI commands other than reading, writing and modifying registers: reset, status, request to send, load and read of buffers. A transfer the bus refuses has no effect and the command then returns stale bytes, as in the driver, which ignores the status.
- components/can/src/spi_cmd.c:299-303 ignores which receive buffer is asked for, so the receive codec is about the bytes read, not about the choice of the buffer.
- CanFrames.FrameBuffer.RecvRxb: requires a length of at most 8 in a data frame, the size of the payload array; the driver does not check it.
- CanFrames.LoadTxb: requires a length of at most 8; with a larger one the driver copies beyond both arrays.
- Filter and mask registers are plain storage at the addresses of components/can/include/mcp2515.h:46-51, which the mode switches in can_set_filter do not disturb in this model.
- CanFilters.Controller.ClearRxFilter: requires a filter index below 6; the driver checks none, and clearing the -1 of a failed set writes through index 255, at addresses that are not filter registers.
- CanFilters.SetAllocates: is about the identifiers and masks of AllocatorInvariant.
- CanFilters.AllocatorInvariant: standard identifiers 1..0x7FF and masks 1..0xFF; SupportedIff and NextSetOverwritesIff show what goes wrong outside. Extended and mixed filters and disabling of filtering are not part of the invariant.
- CanPriority.PriorityOrder: compares identifiers without the format bit, as the code does.
- The macro DIV_ROUND is not part of this model; its value is taken to be (n + d / 2) / d.
- Mode changes, waiting for reset, one-shot and rollover settings, error reports and logging of the CAN driver.
- The register table, the device and clock numbers and the PLL address ranges of the clock controller come from a platform library that is not part of this model; they are parameters. Registers are plain memory.
- UART, GPIO and clock-set-up components, applications, assemblies and generated templates: straight-line code that would add only easy members.
