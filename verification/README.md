# A verified model of the dual OTU2 card firmware

The project models the stateful core of the firmware of a multiplexer card with 16 client ports and
two lines, and proves what that core is for:

- **The co-operative scheduler** (`Ticks`, `SchedulerModel`, `SchedulerPass`, `PassOrder`, `MessageLists`,
  `TaskList`, `Scheduler`, `IdleAccount`, `Dispatcher`). Tasks and messages are nodes of doubly linked lists that
  are changed in place. `SchedulerModel` gives the same scheduler as a transition system on values;
  every operation on the nodes is proved to act as the step of its name, and `Scheduler.Valid` says
  that the state is always explained by the history of steps. What is proved about runs (delivery of
  messages exactly once and in order, distinct handles, spacing of dispatches across wraps of the
  tick counter, who is served by a pass, how often and in what order) therefore holds of every sequence
  of calls; so does the account of the idle task, which publishes the processor usage.
- **The ring buffer and the 9-bit UART pipeline** (`BitMask`, `RingModel`, `RingBuffer`, `UartModel`,
  `UartPipeline`). The buffer refines a bounded queue, also when its free-running counters wrap at
  2^32. The pipeline loses nothing, never waits with its interrupt off, and keeps two protocols apart.
- **The interface control** (`RateRegisters`, `InterfaceModel`, `CardModel`, `InterfaceControl`).
  User commands and the direct writes of the IPGLB protocol leave requests that a periodic pass over 18
  interfaces settles. Proved for each interface by itself, over every interleaving of commands, writes,
  visits and restorations from start-up on: a counter module is there exactly with the capability; and
  the exact conditions under which out of service means transmitter off, monitoring agrees with the
  state, and a client's record agrees with the shared registers.
- **The alarms** (`Alarms`). After an evaluation the alarms say exactly which measured values are beyond
  their limits, and the LEDs follow the alarms.

Classes are the records the source updates in place; the functions beside them say what each method
makes of a state, and the lemmas state what that is worth. The scheduler, the UART, the card and the
alarms keep a `ghost` trace of what has happened, and `Valid` says that the state is where the trace
leads; so the theorems about runs hold of every sequence of calls. The trace is there for the proofs
only.

Rows of the table marked **Main** are the theorems over whole runs or all inputs, and the methods tied
to them; the other rows are the operations they are about and the steps they rest on.

Assumptions, all of them about the caller or the environment: fewer than 2^16 tasks are created in
all; fewer than 2^16 messages wait at a time (the counters are 16 bits wide; `Mailbox.Remove` says
what happens beyond); a task function calls the interface of the scheduler in any way except to delete
its own task; time only moves forward; memory may run out at any allocation. The scan of the priority
table is taken to have the six entries of the table, although its loop bound admits a seventh
(`src/scheduler.c:167`), and a message is taken to get the memory for its bytes, although the code
asks for the size of their count (`src/scheduler.c:590`). A user command does not interrupt the visit
of one interface, but may come between any two.

Findings, each stated by a lemma named in the table:

- A resumed task is not due for all gaps below 2^32 but exactly as long as gap and period together
  stay below it (`ResumedIsDue`, `ResumedExample`).
- The copy of a block into the ring buffer is not split at the end of the memory, so it is right
  exactly when the block fits in front of the end (`PutManyExact`, `SpillExample`).
- STM4 shares the select code of STM1 and never reads back, so its request is never committed: the
  capabilities of the rate before stay (`Stm4KeepsCapabilities`). The code for reading STM4 needs a
  fourth bit that the field does not have.
- A state value other than the three of the service state leaves monitoring as it was: 3 as a command,
  and any value from 3 on as a stored setting, since a command stores its raw value
  (`VisitKeepsMonitoring`, `StoredStateBreaks`).
- The IPGLB protocol writes the transmitter request without a look at the service state
  (`src/common/src/ipglb_protocol_2.c:364`). Of the modelled events this is the only one that can make a
  safe interface unsafe (`StepKeepsSafe`, `ForcedTxBreaks`); it stays so until another state is asked for
  or the transmitter is switched off again (`RunKeepsSafe`).
- At start-up three rates are not requested again and depend on the stored loopback mode to reach the
  registers (`StartUpAgrees`, `FirstVisitAgrees`, `HeldBackExample`).
- A status LED write that fails is not repeated until the alarms change again, and a reload of the
  defaults changes the alarms without a write (`RunKeepsSync`, `ReloadExample`, `StaysStale`).

Where code and comments disagree the code is followed: the bit positions written beside the rate
select fields (`src/mmap.h:718-736`) are off from the third field on, and the test that the slot
number is known (`src/main.c:6753`) compares an unsigned byte with -1 and so always passes.

## Model

| member | source | states |
|---|---|---|
| SchedulerModel.RunConserves | src/scheduler.c:575-640 | **Main.** over every run and for every destination, what was taken out, then what its task has collected, then what waits in the mailbox is what was there plus everything sent, in sending order: exactly once, first in first out |
| SchedulerModel.StepConserves | src/scheduler.c:921-967 | one step moves mail but neither loses, doubles nor reorders it, for the named task and for every other |
| SchedulerModel.DeletePurges | src/scheduler.c:796-803 | a deletion leaves neither the task nor any message for its handle in the mailbox |
| SchedulerModel.RunKeepsWellFormed | src/scheduler.c:296-341 | **Main.** over every run with fewer than 2^16 creations handles are non-zero, pairwise distinct and at most the last one given out, which counts the creations |
| SchedulerModel.CreationAfterLastHandle | src/scheduler.c:301-308 | the bound is exact: it is the creation that reaches 2^16 that hands out the null handle |
| SchedulerModel.StepSets | src/scheduler.c:435-557 | each operation sets the fields of the task it names to the values asked for, with tick counts in 32-bit arithmetic, and leaves its other fields alone |
| SchedulerModel.StepOnOthers | src/scheduler.c:386-557 | an operation on one handle leaves every other task as it was, and only a creation brings a new handle to life |
| SchedulerModel.DispatchSpacing | src/scheduler.c:185-191 | **Main.** two dispatches of a task with no resume or period change between them are at least its period of real ticks apart, across any number of counter wraps |
| SchedulerModel.ResumedIsDue | src/scheduler.c:821-825 | a resumed task passes the check for its dispatch if and only if the gap modulo the counter and its period together stay below 2^32 |
| SchedulerModel.ResumedExample | src/scheduler.c:821-825 | with the longest period a resumed task is not due one tick later |
| SchedulerModel.NewPeriodIsDue | src/scheduler.c:536-557 | after a new period the task is due as after a resume if it is to run, and otherwise if and only if the gap modulo the counter reaches the period |
| SchedulerModel.NoDispatchWhileOut | src/scheduler.c:175-178 | **Main.** between a suspension or a deletion of a task and its next resume it is never dispatched, whatever else happens |
| SchedulerModel.HeadStays | src/scheduler.c:320-330 | the first task stays at the head of the list in every run that does not delete it |
| SchedulerModel.SkippingHeadSkipsIdle | src/scheduler.c:993-1000 | summing behind the head is summing over every task but the one at the head |
| SchedulerModel.DispatchRecordsElapsed | src/scheduler.c:201-209 | a dispatch leaves the real time spent in the task function, modulo the counter, as its elapsed ticks, whatever the function called |
| Ticks.DueMeansElapsed | src/scheduler.c:185-189 | a task found due since its last dispatch has waited its period in real ticks |
| Ticks.DueThroughout | src/scheduler.c:185-189 | a due task stays due through a window if and only if its count does not pass the end of the counter in it |
| Ticks.ReloadIsDue | src/scheduler.c:821-825 | the reload value makes a task due at a later check if and only if gap modulo counter and period stay below 2^32 |
| SchedulerPass.PassServes | src/scheduler.c:162-219 | **Main.** in one pass every task that is active and due from the start of the pass to its end is dispatched, unless it is deleted or suspended first, or given another priority or a period with which it is not due until the end |
| SchedulerPass.PassBeginsAtMost | src/scheduler.c:93-96 | **Main.** a task that keeps its priority is dispatched in one pass at most as often as the priority occurs in the cycle |
| SchedulerPass.SlotsInCycle | src/scheduler.c:93-96 | the priorities occur three times, twice and once in the cycle |
| SchedulerPass.ScanBeginsOnce | src/scheduler.c:170-216 | one scan of the list dispatches no task twice although task functions create and delete tasks under way |
| PassOrder.ScanBeginsAs | src/scheduler.c:180-181 | a scan for one priority dispatches no task of another, as the priorities are at the time of the dispatch |
| PassOrder.PassServesBefore | src/scheduler.c:93-96 | **Main.** when a pass dispatches a normal or low task, every high task that is ready throughout has been dispatched or taken out before; when it dispatches a low one, so has every normal task |
| PassOrder.PassServesBetween | src/scheduler.c:93-96 | **Main.** a high task that stays due is dispatched or taken out between any normal dispatch and a low one, in either order, and between two dispatches of the same normal or low task; a low one between two dispatches of the same normal task |
| PassOrder.PassOrdered | src/scheduler.c:162-219 | both, for all dispatches and tasks of a complete pass |
| SchedulerPass.RunKeepsOrder | src/scheduler.c:320-330 | no run reorders two tasks of the list, and tasks created later stand behind those that were there |
| SchedulerPass.DeadStaysDead | src/scheduler.c:301-308 | a handle that has been given out and is no longer live never comes back to life |
| MessageLists.Mailbox.Insert | src/scheduler.c:836-851 | appends a message at the tail of the doubly linked mailbox and counts it |
| MessageLists.Mailbox.Remove | src/scheduler.c:860-886 | unlinks exactly the given node and keeps both link directions, head and tail; with the count wrapped to one at the head the whole list is lost |
| MessageLists.Mailbox.Extract | src/scheduler.c:921-967 | **Main.** splits the mailbox: the inbox gets every matching node at its end in mailbox order, the mailbox keeps the rest in order, both stay linked both ways and the count stays the length |
| MessageLists.Inbox.LocateTail | src/scheduler.c:898-908 | finds the last node of a list by walking it, null for the empty list |
| MessageLists.Inbox.FlushFrom | src/scheduler.c:632-638 | the recursive flush frees data and node of every message exactly once, whatever the length, and leaves null |
| MessageLists.Inbox.FlushIteratively | src/scheduler.c:621-630 | the iterative variant does the same |
| MessageLists.ValuesOfMatching | src/scheduler.c:931-962 | the nodes that extraction takes carry the messages selected for the destination, in order |
| TaskList.Tasks.Append | src/scheduler.c:318-330 | appends a task node at the tail, linked both ways, and counts it |
| TaskList.Tasks.Unlink | src/scheduler.c:771-794 | unlinks the node wherever it is and keeps links, head, tail and count |
| TaskList.Tasks.Locate | src/scheduler.c:739-759 | finds the first node with the handle, and null exactly if there is none |
| Scheduler.Scheduler.Locate | src/scheduler.c:739-759 | returns a node if and only if the handle is live |
| Scheduler.Scheduler.Create | src/scheduler.c:296-341 | acts as the step of its name and returns the new handle; without memory nothing changes |
| Scheduler.Scheduler.Delete | src/scheduler.c:386-397 | acts as the step of its name; every message for the task, collected or waiting, is freed |
| Scheduler.Scheduler.DeleteNode | src/scheduler.c:769-804 | unlinks the node, purges the mailbox of its mail and frees each message once |
| Scheduler.Scheduler.SetPriority | src/scheduler.c:435-447 | acts as the step of its name and succeeds if and only if the handle is live |
| Scheduler.Scheduler.Suspend | src/scheduler.c:459-470 | acts as the step of its name and succeeds if and only if the handle is live |
| Scheduler.Scheduler.Resume | src/scheduler.c:482-494 | acts as the step of its name at the tick that it reads |
| Scheduler.Scheduler.SetPeriodicTicks | src/scheduler.c:536-557 | acts as the step of its name at the tick that it reads |
| Scheduler.Scheduler.SendMsg | src/scheduler.c:575-608 | appends the message to the mailbox, or changes nothing if memory is missing for node or data, and then leaves no node behind |
| Scheduler.Scheduler.FlushMsgs | src/scheduler.c:618-640 | frees what the task has collected and leaves the mailbox and every other task alone |
| Scheduler.Scheduler.Collect | src/scheduler.c:196-200 | moves the task's mail from the mailbox to its inbox, keeping every list of the scheduler apart from the others |
| Scheduler.Scheduler.Begin | src/scheduler.c:189-203 | reload, collection and snapshot together are the dispatch step |
| Scheduler.Scheduler.End | src/scheduler.c:207-209 | the bookkeeping after the task function is the end step |
| Scheduler.Scheduler.Delivers | src/scheduler.c:575-640 | **Main.** exactly-once delivery in order for every sequence of calls on the linked lists |
| Scheduler.Scheduler.SpacesDispatches | src/scheduler.c:185-191 | **Main.** the spacing of dispatches for every sequence of calls on the linked lists |
| Dispatcher.Dispatcher.Initialize | src/scheduler.c:127-143 | creates the idle task as the first task, with handle 1 |
| Dispatcher.Dispatcher.RunTask | src/scheduler.c:204-205 | calls the function of the task: the idle task publishes and reloads if and only if a second has passed at its check, and every other function leaves usage and reload count alone |
| Dispatcher.Dispatcher.CallTask | src/scheduler.c:189-205 | reload, collection and call, with the same account of the idle task |
| Dispatcher.Dispatcher.VisitTask | src/scheduler.c:172-215 | one round of the scan is a visit of the model: checks in order, dispatch only if all hold, and the visited node is still listed afterwards; the usage and its reload count change if and only if the idle task is dispatched and finds that a second has passed |
| Dispatcher.Dispatcher.Scan | src/scheduler.c:169-216 | a scan visits up to the end of the list and terminates although tasks come and go under way |
| Dispatcher.Dispatcher.RunCycle | src/scheduler.c:166-218 | a pass makes six complete scans, each for the next priority of the cycle |
| Dispatcher.Dispatcher.Serve | src/scheduler.c:151-222 | **Main.** a pass runs if and only if the counter has moved, serves every task that is due throughout at least once, a task of fixed priority at most three, two or one times, and the priorities in order, and keeps the snapshot for the next call; the account of the idle task goes on |
| Dispatcher.PassServed | src/scheduler.c:162-219 | the two bounds of a pass and its order, for every task and priority together |
| Dispatcher.Dispatcher.SumElapsed | src/scheduler.c:991-1000 | sums the elapsed ticks behind the head in 32-bit arithmetic |
| Dispatcher.Dispatcher.RunIdle | src/scheduler.c:980-1012 | publishes the busy time behind the head as a percentage and reloads if and only if at least 1000 ticks have passed since the last reload, and otherwise changes nothing |
| Dispatcher.Dispatcher.PublishesOthers | src/scheduler.c:985-1005 | **Main.** however the dispatcher has been called since start-up, without a deletion of the idle task: the usage is 0 until the first publication, and from then on the percentage that exactly the other tasks had used at the last one |
| Dispatcher.Dispatcher.PublishesWhenDue | src/scheduler.c:985-1009 | **Main.** every dispatch of the idle task comes to the check, and publishes if and only if at least 1000 real ticks, modulo the counter, lie between the reload of the last publication and the check |
| IdleAccount.IdleIsSkipped | src/scheduler.c:985-1000 | if the idle task is never deleted, what it sums is the elapsed time of exactly the other tasks |
| IdleAccount.ShowsLast | src/scheduler.c:1005 | what is shown after any history is what the last publication left, or 0 |
| IdleAccount.ShowsOthers | src/scheduler.c:985-1005 | and that is the percentage of exactly the tasks other than the idle task |
| IdleAccount.PublishesEverySecond | src/scheduler.c:987-1009 | the exact condition in real ticks for a check to publish |
| IdleAccount.IdleIsChecked | src/scheduler.c:204-205 | every dispatch of the idle task calls its function |
| BitMask.TestFindsPowers | src/ring_buffer.c:34 | for a positive size the mask test holds if and only if it is a power of two |
| BitMask.MaskIsMod | src/ring_buffer.c:107-108 | masking with a power of two minus one is the remainder |
| RingModel.AcceptsPowers | src/ring_buffer.c:31-34 | initialisation accepts exactly positive element sizes with a power of two or zero elements |
| RingModel.NothingFits | src/ring_buffer.c:56-68 | a ring of no elements is full and empty at once: it refuses every element and yields none |
| RingModel.PutRefines | src/ring_buffer.c:101-117 | a put succeeds if and only if the bounded queue has room and then appends, wherever the counters have wrapped to |
| RingModel.GetRefines | src/ring_buffer.c:123-140 | a get succeeds if and only if the queue is not empty and then takes its first element |
| RingModel.RunRefines | src/ring_buffer.c:56-140 | **Main.** over every run of puts and gets the replies and the contents are those of a queue bounded by the number of elements |
| RingModel.TakesExactly | src/ring_buffer.c:79-81 | a block is taken if and only if one element would stay free behind it |
| RingModel.PutManyIsPuts | src/ring_buffer.c:76-94 | a block that ends before the end of the memory leaves byte for byte the state that single puts leave |
| RingModel.PutManyExact | src/ring_buffer.c:82-89 | **Main.** blocks of a given size always arrive as they should if and only if they fit in front of the end of the memory |
| RingModel.SpillExample | src/ring_buffer.c:82-89 | with four elements and the head at the last one, a block of two does not arrive |
| RingBuffer.RingTable.Init | src/ring_buffer.c:24-50 | sets up the next of ten records if table, pointers and sizes allow it, and otherwise changes nothing |
| RingBuffer.RingTable.PutData | src/ring_buffer.c:101-117 | appends to the queue behind the descriptor or refuses, also for a descriptor outside the table or never set up, and leaves the other queues alone |
| RingBuffer.RingTable.GetData | src/ring_buffer.c:123-140 | takes the first element of the queue behind the descriptor or refuses, and leaves the other queues alone |
| RingBuffer.RingTable.PutMany | src/ring_buffer.c:76-94 | appends a whole block, or refuses it unless the queue stays shorter than the ring |
| RingBuffer.RingTable.GetCount | src/ring_buffer.c:146-149 | the redundant count is the length of the queue |
| UartModel.RunDelivers | src/main.c:4964-4974 | **Main.** in every interleaving the words sent, then the words waiting, are the accepted words cut to 9 bits, in order |
| UartModel.RunKeepsSound | src/main.c:6215-6227 | in every interleaving a waiting word has the transmit interrupt on |
| UartModel.RunSeparates | src/main.c:6238-6253 | **Main.** however the two protocols and the interrupts interleave, the receive rule gives each protocol exactly its own accepted bytes, in order |
| UartModel.Drains | src/main.c:6215-6227 | with nothing new queued one interrupt per word sends everything, and the next one switches the interrupt off |
| UartPipeline.Uart.QueueDataToArm | src/main.c:4964-4974 | queues the low 9 bits of the word and switches the interrupt on if fewer than 4096 words wait, and otherwise changes nothing |
| UartPipeline.Uart.CallbackUartTrdy | src/main.c:6208-6230 | writes the low 9 bits of the first word to the transmit register, or switches the interrupt off and writes nothing if there is none |
| UartPipeline.Uart.ArmHandler | src/main.c:4869-4877 | writes the first word to the transmit register if there is one, and leaves the interrupt alone |
| UartPipeline.Uart.SendPacket | src/main.c:6651-6663 | queues the bytes of a packet in order with their tag, with any interrupts between them |
| UartPipeline.Uart.Separates | src/main.c:6268-6287 | **Main.** at any time both protocols' accepted bytes are sent or waiting, in order, and nothing waits with the interrupt off |
| UartPipeline.Receiver.CallbackUartRrdy | src/main.c:6238-6253 | a word gives its low 8 bits to one protocol and nothing to the other, as its bit 8 says |
| UartPipeline.Receiver.ReceivesAccepted | src/main.c:6238-6253 | **Main.** a receiver that has got every word written to the transmit register holds, with what still waits, exactly the accepted bytes of each protocol in order |
| RateRegisters.HoldsLastRate | src/ipglb_adapter.c:1103-2121 | **Main.** for any sequence of rate changes the fields of each client hold what belongs to the last rate set for it, as if no other client existed |
| RateRegisters.WritesOneClient | src/ipglb_adapter.c:1073-1107 | setting a rate stores the select code, leaves the reconfigure bit at 0, and touches no field of any other client |
| RateRegisters.FieldPositions | src/mmap.h:718-736 | where the fields of each client are in the registers, by division with their weights |
| RateRegisters.WritesNothingElse | src/mmap.h:825-832 | the clock chip controls above the eight STM4 bits keep their values |
| RateRegisters.WritesStaySized | src/mmap.h:718-742 | every register stays a 32-bit value |
| RateRegisters.ReadBack | src/ipglb_adapter.c:2141-2243 | every rate is written as its select code, and with the request unchanged a rate and its protocol read back as set if and only if it is one of seven; every other rate reads back as STM1 |
| RateRegisters.Stm4LooksLikeStm1 | src/ipglb_adapter.c:1143-1152 | STM4 and STM1 differ in the separate bit and not in the select code |
| RateRegisters.TopLevel.Write | src/ipglb_adapter.c:1103-2121 | the sequence of field assignments has that effect on the registers themselves |
| CardModel.RunKeepsSafe | src/main.c:6826-7011 | **Main.** in every run of commands, direct writes, visits and restorations an interface ends safe (settled out of service only with its transmitter asked for and commanded off) if and only if it started so and no write enabled the transmitter while it was settled out of service, or a state was asked for or the transmitter switched off and no such write came since |
| CardModel.RunIsSafeExactly | src/main.c:6826-7011 | **Main.** an interface is safe at every moment of a run if and only if it starts safe and no such write comes |
| CardModel.RunKeepsModule | src/main.c:6978-6985 | **Main.** in every run whatsoever an interface has its counter module exactly if it is capable of one |
| CardModel.ReachableHasModule | src/main.c:640-646 | the same for every state reachable from start-up with any settings of the user |
| CardModel.ReachableIsSafe | src/main.c:611-665 | **Main.** from start-up on, with any settings of the user, an interface is safe if and only if no such write has come, or none since a state was asked for or the transmitter switched off |
| CardModel.RunKeepsMonitoring | src/main.c:6846-6883 | in every run whose state commands for an interface ask for one of the three states it ends in order (monitored only in service unless a state change is due) if and only if it started so or a state command, a restoration or a change while unmonitored put it in order |
| CardModel.ReachableIsMonitored | src/main.c:611-616 | **Main.** from start-up on that is so if and only if its stored state was one of the three or something since has put it in order |
| CardModel.RunAgrees | src/main.c:6894-6990 | in every run, whatever is asked of other clients, a client ends with its record in agreement with its own fields of the shared registers if and only if it started so or its loopback request, a rate request or a restoration saw to it |
| CardModel.ReachableAgrees | src/main.c:622-638 | **Main.** from start-up on that is so if and only if the client is not mapped, its stored rate was requested, the registers held it, or something since has seen to it |
| CardModel.ReachableLine | src/main.c:6894-6900 | a line stays what initialisation made it, OTU2 with counter module and error correction, whatever rates are asked of it |
| CardModel.StepKeepsPlaced | src/ipglb_adapter.c:1101-2122 | a step at one interface leaves the register fields of every other client alone, whatever the record said |
| CardModel.PassSettles | src/main.c:6826-7003 | after a pass, at every interface, no state or rate request is open, the rate asked for is in force and the module goes with the capability; and out of service means transmitter off if and only if that held before or the transmitter was to be switched off |
| CardModel.ForcedTxBreaks | src/common/src/ipglb_protocol_2.c:363-367 | one direct write enables the transmitter of any interface that is settled out of service |
| InterfaceModel.StepKeepsSafe | src/main.c:6846-6883 | after a step an interface is safe if and only if it was and the step is not such a write, or the step turns the transmitter off or asks for a state |
| InterfaceModel.VisitKeepsMonitoring | src/main.c:6848-6879 | a visit makes monitoring and state agree if and only if one of the three states was asked for or nothing is monitored, for every value asked for |
| InterfaceModel.StoredStateBreaks | src/main.c:613-616 | a stored state of 7 leaves an interface monitored in no service state |
| InterfaceModel.StepKeepsMonitoring | src/main.c:6846-6883 | a step leaves an interface in order if and only if it was or the step puts it in order |
| InterfaceModel.OutOfServiceWins | src/main.c:3626-3662 | enabling the transmitter and going out of service before the same visit, in either order, ends with the transmitter commanded off |
| InterfaceModel.StateTakesEffect | src/main.c:3626-3628 | one visit after a state or loopback command its low two bits are in force, monitoring follows the state, and out of service commands the transmitter off |
| InterfaceModel.EnableTakesEffect | src/main.c:3650-3662 | a transmitter command is ignored out of service or without a transceiver, and otherwise reaches the pin one visit later unless the port is about to go out of service |
| InterfaceModel.RawStateDecides | src/Middlewares/KURS/src/kurs_core.c:1311-1312 | after a state command it is its raw value and not its low two bits that decides about a transmitter command until the next visit, and a port asked out of service ends commanded off either way |
| InterfaceModel.DataTypeTakesEffect | src/main.c:3772-3795 | one visit after a rate command on a mapped client the rate is in force and in the registers; a fixed-rate port ignores it |
| InterfaceModel.DirectWritesTakeEffect | src/common/src/ipglb_protocol_2.c:918-919 | one visit after a direct write the rate is in force on a mapped client and given up on a fixed-rate port, the loopback mode is in force uncut, and the transmitter is commanded |
| InterfaceModel.BootTakesEffect | src/main.c:611-665 | one visit after start-up the stored state, loopback mode, rate and transmitter setting are in force, the transmitter off if the port starts out of service |
| InterfaceModel.VisitTakesEffect | src/main.c:6829-6893 | a visit puts every open state and loopback request in force |
| InterfaceModel.CountersAreCleared | src/main.c:6829-6845 | the counters are to be cleared after the command for it, a restoration and a start-up only; the next visit clears them and asks for it again if and only if it sets a rate |
| InterfaceModel.VisitCommandsTx | src/main.c:6992-7003 | a visit commands the transmitter as asked and keeps the request open until the pin reads back so |
| InterfaceModel.RateSettles | src/main.c:6894-6990 | a visit closes every rate request, and the rate asked for is in force if and only if the port has a fixed rate, is mapped, or needed no change |
| InterfaceModel.LoopbackSettles | src/ipglb_adapter.c:2315-2526 | **Main.** a loopback request sets the rate of a mapped client in record and registers if and only if it is one of the first eight with one of the three modes, or asks for the loop to the client, or for none with OTU1, STM16 or FC2; apart from that it changes only itself |
| InterfaceModel.ClientRateSettles | src/main.c:6902-6986 | on a mapped client the registers hold the rate asked for, and protocol and capabilities follow it for the rates that read back |
| InterfaceModel.Stm4KeepsCapabilities | src/main.c:6906-6976 | after a request for STM4 the capabilities and the module are those of the rate before |
| InterfaceModel.BootIsSafe | src/main.c:611-665 | start-up makes an interface safe whatever its stored settings are, with its module, and in order if and only if the stored state is one of the three |
| InterfaceModel.RestoredAfterVisit | src/main.c:717-730 | one visit after the defaults are restored the interface is in service, monitored and transmitting, a mapped client at STM1 in record and registers |
| InterfaceModel.FirstVisitAgrees | src/main.c:622-651 | after start-up and one visit a mapped client is in agreement if and only if its rate is none of OTU1, STM16 and FC2, or its stored loopback mode is none or to the client, or to the line on the first eight clients, or the registers held the rate |
| InterfaceModel.StartUpAgrees | src/main.c:622-638 | at start-up a client is in agreement if and only if it is not mapped, its rate is none of OTU1, STM16 and FC2, or the registers hold it |
| InterfaceModel.HeldBackExample | src/main.c:622-651 | the client of index 8 with OTU1 and a loop to the line stored keeps the registers of another rate |
| InterfaceModel.VisitAgrees | src/main.c:6884-6990 | after any visit record and registers agree if and only if they did or the loopback request set the rate |
| InterfaceControl.Interface.SetIfPortRate | src/ipglb_adapter.c:1058-1107 | refuses fixed-rate and unmapped ports with different answers and without effect, and otherwise puts the rate asked for in registers and record |
| InterfaceControl.Interface.ReadIfPortRate | src/ipglb_adapter.c:2132-2246 | the branches on the select code read rate and protocol as the model says |
| InterfaceControl.Interface.SetIfPortLoopback | src/ipglb_adapter.c:2315-2526 | sets the rate again for exactly the modes, clients and rates the model says, and always succeeds |
| InterfaceControl.Interface.SettleRateRequest | src/main.c:6894-6990 | cancels, sets, reads and commits as the model says |
| InterfaceControl.Interface.UserSet | src/main.c:3626-3795 | the commands and direct writes leave the requests the model says; enabling the transmitter is refused out of service or without a transceiver, a loopback without one, a rate on a fixed-rate port, and nothing else |
| InterfaceControl.Interface.Boot | src/main.c:613-665 | restores the user's settings as the model says |
| InterfaceControl.Interface.RestoreDefaults | src/main.c:4766-4789 | sets the defaults and every request as the model says |
| InterfaceControl.InterfaceCard.Task10 | src/main.c:6820-7003 | **Main.** the loop over the records is the pass of the model, and settles every interface |
| InterfaceControl.InterfaceCard.BootUp | src/main.c:601-665 | start-up leaves every interface as its settings, or the defaults, say, and starts the trace |
| InterfaceControl.InterfaceCard.Command | src/main.c:3626-3795 | a command is the event of the model at one interface |
| InterfaceControl.InterfaceCard.RestoreAll | src/main.c:717-730 | the restoration is the event of the model at every interface in turn |
| InterfaceControl.InterfaceCard.IsSafe | src/main.c:6826-7011 | **Main.** however the card has been called since start-up, the exact condition for an interface to be safe |
| InterfaceControl.InterfaceCard.HasModule | src/main.c:6978-6985 | **Main.** however the card has been called since start-up, an interface has its counter module exactly if it is capable of one |
| InterfaceControl.InterfaceCard.IsMonitored | src/main.c:6846-6883 | **Main.** however it has been called with state commands for the three states, the exact condition for monitoring and state to agree |
| InterfaceControl.InterfaceCard.IsInAgreement | src/main.c:6894-6990 | **Main.** however it has been called, the exact condition for a record to agree with the registers |
| Alarms.SeverityIsExact | src/ipglb_adapter.c:819-838 | a value is critical if and only if it is beyond a critical limit by more than the tolerance, and normal if and only if it is within all limits up to the tolerance |
| Alarms.AlarmCard.UpdateAlarms | src/ipglb_adapter.c:871-886 | every measured value gets the severity its limits give it and keeps the one before as previous, FEC load only if capable, and nothing else changes; the card temperature is judged so often that its previous severity is lost |
| Alarms.AlarmCard.UpdateCardAlarm1 | src/ipglb_adapter.c:892-943 | the scan with early exits raises the first alarm if and only if the card or some monitored interface shows a warning |
| Alarms.AlarmCard.UpdateCardAlarm2 | src/ipglb_adapter.c:948-1051 | **Main.** the scan raises the second alarm if and only if the card or some monitored interface shows something critical or an alarm of the protocol it carries |
| Alarms.AlarmsAreExact | src/ipglb_adapter.c:819-1051 | **Main.** with the severities up to date the second alarm is on if and only if the card or a monitored interface has a value beyond a critical limit by more than the tolerance or an alarm of its protocol, and the first if and only if one of them has a value beyond a warning limit and no critical one |
| Alarms.AlarmCard.EvaluateAlarms | src/main.c:6756-6766 | **Main.** the evaluation ends with both alarms as the measured values say, whatever severities were stored before |
| Alarms.RunsCountOnlyInService | src/ipglb_adapter.c:905-938 | in every run whose state commands for an interface ask for one of the three states, the interface, if it started in order or was put in order, adds to neither alarm while it is not in service and no state change is due |
| Alarms.ReachableCountsOnlyInService | src/ipglb_adapter.c:905-938 | the same from start-up on, for an interface whose stored state was one of the three or that has been put in order since |
| Alarms.AlarmCard.Task55 | src/main.c:6705-6768 | **Main.** between evaluations every interface has its turn once and in index order, the selection stays in range, and at the end of the round the alarms are what the measured values say |
| Alarms.WrittenOnChange | src/main.c:6763-6766 | the LEDs are written if and only if the pair of alarms changes |
| Alarms.StepKeepsSync | src/main.c:6502-6530 | LEDs that show the alarms go on doing so if and only if no write of a change fails and no reload changes the pair |
| Alarms.RunKeepsSync | src/main.c:6763-6766 | **Main.** the LEDs show the current alarms at every moment of a run, from the first write on, if and only if no write of a change fails and no reload changes the pair |
| Alarms.ReloadExample | src/main.c:4737-4738 | a reload after the LEDs have shown that all is well puts them out of step |
| Alarms.AlarmCard.ReloadDefaults | src/main.c:4737-4738 | the reload is the event of the model |
| Alarms.AlarmCard.ShowsAlarms | src/main.c:6705-6768 | **Main.** however the tasks have been called, undisturbed LEDs show the alarms from the first write on |
| Alarms.AlarmCard.ShowsAlarmsUndisturbed | src/main.c:6763-6766 | the same if no defaults were reloaded and every write got through |
| Alarms.AlarmCard.CountsOnlyInService | src/ipglb_adapter.c:905-938 | however tasks and card have been called with state commands for the three states, an interface that was stored or put in order adds to neither alarm while it is not in service and no state change is due |
| Alarms.StaysStale | src/main.c:6763-6766 | LEDs out of step stay so until the alarms change |

## Left out

- The scheduler branch without a retimer, the busy LED, the getters of handles, priorities, periods and statistics, and the counting semaphore: not compiled in or easy.
- A second call of the scheduler's initialisation, and task functions that delete their own task: the first would lose the list, the second would leave the main loop on a freed node.
- Task nodes have no memory state of their own: that a deleted node is freed once is not modelled, that no list or loop reaches it any more is.
- Scheduler.Scheduler.Create: is stated for fewer than 2^16 creations in all, because the next one hands out the null handle (`CreationAfterLastHandle`).
- Scheduler.Scheduler.SendMsg: is stated for fewer than 2^16 waiting messages, because the count is 16 bits wide; `Mailbox.Insert` and `Mailbox.Remove` are stated beyond that.
- RingBuffer.RingTable.PutMany: is stated for blocks that fit in front of the end of the memory, because any other one overwrites memory that is not the buffer's; `PutManyExact` says what the queue then holds.
- Dispatcher.Dispatcher.RunIdle: the percentage is computed over reals; the rounding of single precision, which can make it one lower, is not modelled.
- UartPipeline.Uart.SendPacket: the sender of many words at once, `queue_many_to_arm`, is not called in the compiled code and not modelled.
- UartPipeline.Uart.ArmHandler: its read is taken as uninterrupted, as an alarm callback is; its alarm is not started in the present code.
- InterfaceControl.Interface.SetIfPortRate: the clock chip set-up, the transceiver resets, the framer update bit and the rate change flag of a client are not modelled.
- InterfaceControl.Interface.SetIfPortLoopback: the loopback bits themselves are device registers and not modelled.
- InterfaceControl.Interface.SettleRateRequest: clearing hardware counters and reporting a local loss of signal to the far end are not modelled.
- InterfaceControl.InterfaceCard.Task10: the frequency adjustment and the request to reboot a transceiver are not modelled.
- InterfaceControl.Interface.UserSet: commands name an interface by its index; the arithmetic on parameter identifiers is a finite table. A data type outside the table yields an arbitrary rate, as it does in the code.
- InterfaceControl.InterfaceCard.RestoreAll: takes the restoration as one step per interface, although the code stores the values of all interfaces before it sets their flags.
- Alarms.AlarmCard.Task55: new measurements are arbitrary; the recovery from a loss of frame is device access and not modelled.
- Automatic protection switching (switched off in the configuration), the logger, the channel selection of the I2C bus, flash, drivers, and the tables of clock settings.
