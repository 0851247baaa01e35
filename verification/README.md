# CRTP stack and system-load snapshot table, modelled in Dafny

This project models the packet-transport core of the POD flight-controller firmware, a
port of the Crazyflie CRTP stack, and the per-task snapshot table of its system-load monitor.

CRTP moves small packets between the vehicle and a ground link through an interchangeable
transport. A packet carries a 4-bit port, a 2-bit channel, a length and up to 30 payload
bytes. The stack keeps:

- one outbound queue of 120 packets;
- an optional inbound queue of 16 packets for each of the 16 ports;
- a table of 16 port callbacks;
- the link, which is either the no-op sentinel or a supplied transport;
- throughput statistics.

A transmit task drains the outbound queue into the link. A receive task polls the link and
fans each packet out to its port's queue and callback.

The model is sequential and functional. The whole stack is one immutable `Crtp.Stack`
value, and every public operation is a pure function from a stack to a new stack and a result:

- `crtpInit`, `crtpTest`;
- `crtpInitTaskQueue`, `crtpRegisterPortCB`;
- `crtpSendPacket`, `crtpSendPacketBlock`, `crtpGetFreeTxQueuePackets`;
- the three `crtpReceivePacket` variants;
- `crtpReset`, `crtpIsConnected`, `crtpSetLink`.

Each task body is modelled as one loop iteration: `CrtpPumps.TxStep` and `CrtpPumps.RxStep`.
The transport is an oracle. Its answers to `sendPacket`, `receivePacket` and `isConnected`,
and the kernel tick count, are parameters of the steps. A call that suspends its caller ends
in `Blocked`. The packet a pump holds while it waits stays in the state:

- `inFlight`: the transmit task keeps retrying this packet until the link accepts it;
- `held`: the receive task is waiting to put this packet into a full port queue.

The RTOS message queues are modelled in `MessageQueue`. They are bounded FIFOs with the
CMSIS-RTOS2 calling conventions the stack relies on:

- timeout 0 fails at once;
- `osWaitForever` suspends the caller;
- a null handle answers `osErrorParameter` (and has 0 free slots).

`SysLoad` models `getPreviousTaskData`, a find-or-append over a 32-entry array with a
high-water index. It also models the snapshot update of the one-second `timerHandler`.

Modules: `Optional`, `Uint` (explicit uint32_t wrap-around), `MessageQueue`, `CrtpPacket`,
`CrtpStats`, `CrtpLink`, `Crtp` (stack state and public API), `CrtpPumps` (task
iterations), `CrtpProperties` (multi-step properties), `SysLoad`.

Behaviour of the code that a reader might not expect, which the model keeps as written:

- **Next sample deadline.** It becomes `now + 500`, not the previous deadline plus 500. It
  is computed in uint32_t, so it can wrap. A sample taken in the last 500 ticks before the
  tick counter wraps leaves a deadline that has already passed. The next packet counted,
  even in the same tick, takes another sample, over one tick or over zero ticks. The rates
  are then computed by dividing by that interval as a float (`CrtpStats.DeadlineWrapResamples`).
- **Sentinel send.** The sentinel's `sendPacket` is `nopFunc`, which returns the non-zero
  `ENETDOWN`. The transmit loop only retries while the answer is `false` (zero). So a packet
  still being retried when the link is swapped to the sentinel counts as sent and is lost
  (`CrtpProperties.SwapToSentinelDropsInFlight`).
- **Transmit task parked in its get.** The transmit loop tests the link once, then waits
  forever on the outbound queue. A task that started waiting while a transport was
  installed is still waiting after the link becomes the sentinel. It takes the next packet
  sent and hands it to the sentinel, which counts it as sent
  (`CrtpProperties.ParkedPumpLosesPacketAfterSwap`). The state records this wait as
  `txWaiting`.
- **Callback registration.** Out-of-range ports are not all ignored. The guard `port > 16`
  lets port 16 and negative ports through (see Findings). The model's stack uses the
  corrected bound.
- **Queue creation.** There is no range check. The port argument is the 4-bit `CRTPPort`,
  so the model types it 0..15. Only double creation is a contract violation (`requires`).

`ASSERT` in a public function is modelled as a `requires`, because it is a caller's
programming error. `timerHandler`'s ASSERTs depend on what the kernel reports, so the model
returns `AssertionFailed` there instead.

## Model

| member | source | states |
|---|---|---|
| `MessageQueue.Put` | Core/modules/Src/crtp.c:169 | A put appends at the tail exactly when the queue has room. A full queue is never changed. On a full queue, timeout 0 fails with a resource error, `osWaitForever` suspends, and exactly the other timeouts time out. A null handle is a parameter error. |
| `MessageQueue.Get` | Core/modules/Src/crtp.c:101 | A get returns the oldest item and leaves the rest in order, exactly when the queue is non-empty. An empty queue is never changed. On an empty queue, timeout 0 fails with a resource error, `osWaitForever` suspends, and exactly the other timeouts time out. |
| `MessageQueue.Space` | Core/modules/Src/crtp.c:117 | Free slots plus queued items equal the capacity; a null handle has none. |
| `MessageQueue.Reset` | Core/modules/Src/crtp.c:180 | Reset empties a queue and keeps its capacity; a null handle stays null. |
| `MessageQueue.Drain` | Core/modules/Src/crtp.c:101 | Getting until the queue reports empty yields as many items as were queued. |
| `MessageQueue.PutAllAppends` | Core/modules/Src/crtp.c:169 | Successive puts leave the items in the order they were put, behind those already queued. |
| `MessageQueue.DrainYieldsOldestFirst` | Core/modules/Src/crtp.c:101 | Successive gets return the queued items oldest first. |
| `MessageQueue.FifoOrder` | Core/modules/Src/crtp.c:143-145 | First in, first out: draining after putting `xs` yields the earlier items, then `xs` in order. |
| `Uint.Add32` | Core/modules/Src/crtp.c:224 | uint32_t addition: exact below 2^32, reduced by 2^32 above. |
| `Uint.Sub32` | Core/modules/Src/crtp.c:218 | uint32_t subtraction: exact when no borrow, otherwise 2^32 is added. |
| `Uint.ToU32` | Core/modules/Src/crtp.c:110-113 | Passing a C `int` as a uint32_t timeout keeps non-negative values and adds 2^32 to negative ones. |
| `CrtpStats.ClearStats` | Core/modules/Src/crtp.c:210-213 | Both counters become 0; the sample and both deadlines are kept. |
| `CrtpStats.UpdateStats` | Core/modules/Src/crtp.c:215-226 | Nothing changes unless `now > nextStatisticsTime`. A sample records both counts and the ticks since the previous sample, zeroes the counters, sets `previousStatisticsTime` to `now` and the next deadline to `now + 500` in uint32_t. |
| `CrtpStats.CountAtAppend` | Core/modules/Src/crtp.c:128-129 | Counting packets over two runs of ticks is counting over the first run, then over the second. |
| `CrtpStats.CountingBeforeDeadline` | Core/modules/Src/crtp.c:128-151 | Packets counted up to the deadline, in either direction, only add to that direction's counter. Nothing is sampled or cleared, and the other counter is untouched. |
| `CrtpStats.SampleReportsIntervalCount` | Core/modules/Src/crtp.c:215-225 | Take packets counted in one direction from a zero counter, where only the last passes the deadline. The sample it triggers reports all of them, including the triggering packet, over the ticks since the previous sample. It reports the other counter as it stood, and both counters are back to 0. |
| `CrtpStats.DeadlineWrapResamples` | Core/modules/Src/crtp.c:224 | A sample taken in the last 500 ticks before the tick counter wraps sets a deadline already passed. The next tick samples again over one tick, and a second update in the same tick samples again over zero ticks. |
| `Crtp.Boot` | Core/modules/Src/crtp.c:38-71 | At power-on no queue exists, no callback is set, the link is the sentinel and the stack is not initialised. |
| `Crtp.Init` | Core/modules/Src/crtp.c:77-87 | The first call creates an empty outbound queue of 120 and sets the init flag. A repeated call changes nothing. Nothing else is touched. |
| `Crtp.SelfTest` | Core/modules/Src/crtp.c:89-91 | `crtpTest` returns the init flag. Since queue creation is taken to succeed, that flag holds exactly when the outbound queue exists. |
| `Crtp.SelfTestReportsInit` | Core/modules/Src/crtp.c:77-91 | `crtpTest` is false at power-on and true after `crtpInit`; `crtpInit` is idempotent. |
| `Crtp.InitTaskQueue` | Core/modules/Src/crtp.c:93-96 | Allowed only for a port that has no queue. Afterwards that port has an empty queue of capacity 16, and every other port and all other state are unchanged. |
| `Crtp.ReceiveWithTimeout` | Core/modules/Src/crtp.c:98-114 | On a port that has a queue: a packet comes back exactly when the queue is non-empty. It is the head, and the port keeps the rest. Otherwise the stack is unchanged and the outcome depends on the timeout. |
| `Crtp.ReceivePacket` | Core/modules/Src/crtp.c:98-102 | Returns the oldest queued packet and removes only it. An empty queue fails at once with nothing changed. |
| `Crtp.ReceivePacketBlock` | Core/modules/Src/crtp.c:104-108 | An empty queue suspends the caller with nothing changed; otherwise behaves as `crtpReceivePacket`. |
| `Crtp.ReceivePacketWait` | Core/modules/Src/crtp.c:110-114 | wait 0 behaves as `crtpReceivePacket` and wait -1 as `crtpReceivePacketBlock`. Any other wait on an empty queue, including a negative wait other than -1, times out with nothing changed. |
| `Crtp.GetFreeTxQueuePackets` | Core/modules/Src/crtp.c:116-118 | Free slots are always 120 minus the queued count (0 before init). |
| `Crtp.SendWithTimeout` | Core/modules/Src/crtp.c:165-177 | A packet is admitted exactly when the stack is initialised and the outbound queue is not full. It goes at the tail and nothing else changes. Any other outcome leaves the stack unchanged. |
| `Crtp.SendPacket` | Core/modules/Src/crtp.c:165-170 | Needs `size <= 30`. A full queue refuses the packet with resource error and stays unchanged. Otherwise the packet is appended and the free slots drop by exactly 1. |
| `Crtp.SendPacketBlock` | Core/modules/Src/crtp.c:172-177 | A full queue suspends the caller; otherwise behaves as `crtpSendPacket`. |
| `Crtp.Reset` | Core/modules/Src/crtp.c:179-186 | Returns 0 and leaves the outbound queue empty (120 free after `crtpInit`). The link's reset is called exactly when the link provides one. Nothing else changes. |
| `Crtp.IsConnected` | Core/modules/Src/crtp.c:188-192 | Returns the link's answer when it provides `isConnected`. Reports disconnected only if that answer is false, so the default is connected. |
| `Crtp.UnlinkedReportsConnected` | Core/modules/Src/crtp.c:188-204 | With only the sentinel installed, at power-on or after `crtpSetLink(NULL)`, the stack reports itself connected. |
| `Crtp.SetLink` | Core/modules/Src/crtp.c:194-204 | Installs the supplied transport, or the sentinel for null. Exactly two calls: the old link is disabled first, then the new one enabled. Nothing else changes. |
| `Crtp.SentinelSwapResumes` | Core/modules/Src/crtp.c:194-204 | Swapping to the sentinel and then to a transport leaves every queue, callback and counter as it was; the second swap disables the sentinel. |
| `Crtp.RegisterPortCBAsWritten` | Core/modules/Src/crtp.c:158-163 | As written: ports above 16 leave the table unchanged, and ports 0..15 overwrite their slot. Port 16 and negative ports write outside the table. |
| `Crtp.GuardAdmitsPortSixteen` | Core/modules/Src/crtp.c:159 | Port 16 passes the `>` guard and writes out of bounds. |
| `Crtp.RegisterPortCB` | Core/modules/Src/crtp.c:158-163 | With the intended bound, a port inside the table gets the callback (None clears it). No other slot changes, and an out-of-range port changes nothing. |
| `Crtp.RegisterPortCBAgreesInBounds` | Core/modules/Src/crtp.c:158-163 | The corrected registration equals the code as written wherever the latter stays in bounds. |
| `Crtp.LastRegistrationWins` | Core/modules/Src/crtp.c:162 | Registering twice for a port is the same as registering only the second callback. |
| `CrtpPumps.TxStep` | Core/modules/Src/crtp.c:119-134 | With no packet in hand and no wait in progress, a sentinel link idles with nothing changed. With an active link, or a wait already in progress, an empty queue leaves the task waiting in its get. Otherwise the in-flight packet, or else the head of the queue, is offered to the current link, even if the link changed during the wait. It is sent exactly when the link is the sentinel or accepts, and only then is `txCount` counted. A rejected packet stays in flight. |
| `CrtpPumps.RxStep` | Core/modules/Src/crtp.c:137-156 | Nothing happens unless a packet is held, or an active link's receive returned 0. A full port queue makes the pump hold the packet. Otherwise it is appended to its port's queue if one exists, then its callback runs if one is set, then `rxCount` is counted. Other ports are untouched; a port with neither discards it. |
| `CrtpProperties.TransmitInQueueOrder` | Core/modules/Src/crtp.c:124-131 | Against an accepting transport, n transmit steps hand over exactly the first n queued packets, in queue order, and leave the rest queued. |
| `CrtpProperties.SendReachesTransport` | Core/modules/Src/crtp.c:165-170 | A packet sent while the outbound queue has room is handed, unchanged, to an accepting transport right after every packet queued before it. The queue is then empty. |
| `CrtpProperties.ReceiveOne` | Core/modules/Src/crtp.c:141-151 | With room in its port's queue, a received packet is appended to that queue only, and nothing is held. |
| `CrtpProperties.PortOrderPreserved` | Core/modules/Src/crtp.c:141-151 | When every port queue has room for the run, each port queue gains exactly the packets addressed to it, in arrival order. |
| `CrtpProperties.ReceiveUntilEmpty` | Core/modules/Src/crtp.c:98-102 | Calling `crtpReceivePacket` until it fails yields what draining the port's message queue yields. |
| `CrtpProperties.ReceiveYieldsQueueOrder` | Core/modules/Src/crtp.c:98-102 | Repeated `crtpReceivePacket` returns a port's queued packets oldest first until it fails. |
| `CrtpProperties.NoReorderingWithinPort` | Core/modules/Src/crtp.c:143-145 | When every port queue has room, packets for a port with an empty queue come back out of `crtpReceivePacket` in the order the transport surfaced them. |
| `CrtpProperties.RxStepPending` | Core/modules/Src/crtp.c:141-151 | After a delivering receive step, a port's pending packets are its old queue followed by the delivered packet if it is addressed there, whether queued or held. |
| `CrtpProperties.PollAccounts` | Core/modules/Src/crtp.c:137-156 | Over one receive-task iteration, a port with a queue keeps every pending packet and gains exactly the arriving packet addressed to it, at the end. |
| `CrtpProperties.TakeAccounts` | Core/modules/Src/crtp.c:98-102 | Over one `crtpReceivePacket` call, the packet returned on a port is the first of its pending packets, and the others stay pending in order. |
| `CrtpProperties.ActAccounts` | Core/modules/Src/crtp.c:98-156 | Over either kind of action, for a port with a queue: packets taken, then packets pending, equal the packets pending before, then the arrivals. |
| `CrtpProperties.RunAccounts` | Core/modules/Src/crtp.c:98-156 | The same accounting holds over any interleaving of receive-task iterations and `crtpReceivePacket` calls. |
| `CrtpProperties.NoReorderingUnderBackpressure` | Core/modules/Src/crtp.c:143-145 | Take any interleaving of receive-task iterations and application reads, including a full queue that makes the task hold a packet. A port whose queue starts empty hands out a prefix of the packets surfaced for it, in order, and the remainder is still inside the stack. Nothing is lost, duplicated or reordered. |
| `CrtpProperties.RegisteredCallbackSeesPacket` | Core/modules/Src/crtp.c:143-148 | After a callback is registered for a port, a packet received for it invokes that callback exactly once, last, after the packet was put in the port's queue when one exists. |
| `CrtpProperties.SentinelLinkIsInert` | Core/modules/Src/crtp.c:119-156 | With the sentinel link, no packet in hand and the transmit task not waiting in its get, neither task step changes anything. |
| `CrtpProperties.SwapToSentinelDropsInFlight` | Core/modules/Src/crtp.c:127-129 | A packet in flight when the link becomes the sentinel counts as transmitted on the next step, even though it reached no transport. |
| `CrtpProperties.ParkedPumpLosesPacketAfterSwap` | Core/modules/Src/crtp.c:123-129 | Suppose the transmit task starts waiting on an empty queue while a transport is installed, and the link is then swapped to the sentinel. The next packet sent is taken, counted as transmitted, and reaches no transport. |
| `SysLoad.Initial` | Core/modules/Src/sysload.c:45-48 | At power-on the table has 32 zero entries, none in use, and satisfies the table invariants. |
| `SysLoad.GetPreviousTaskData` | Core/modules/Src/sysload.c:73-89 | If an entry in use has the task number, the first such entry is returned and nothing changes. Otherwise entry `taskTopIndex` gets the number, the index grows by exactly 1 and no other entry changes. Appending needs a free entry, so the index never exceeds 32. Distinct numbers and zeroed unused entries are preserved, so a fresh entry's counter is 0. |
| `SysLoad.CopyForward` | Core/modules/Src/sysload.c:107-115 | After one loop pass, the reported task's entry holds its current run-time counter. Entries for other tasks are unchanged and the table invariants still hold. |
| `SysLoad.TimerHandler` | Core/modules/Src/sysload.c:91-120 | `triggerDump == 0` changes nothing. Otherwise, on completion, every reported task's entry holds its current run-time counter, unreported entries are unchanged, entries already in use keep their task numbers, every newly used entry belongs to a reported task, `previousTotalRunTime` equals the total and `triggerDump` is 0. It cannot halt when the report and the table have room. |

## Left out

- Threads, preemption and timing: the tasks' `osDelay(10)` idling and retry back-off, and
  every suspension. A call that would suspend ends in `Blocked`. A pump's waiting packet is
  kept in `inFlight` or `held`, and a transmit task waiting in its get is marked by `txWaiting`. Within one call no other context runs, so a bounded wait
  on a queue that cannot serve it times out.
- The float rates `rxRate` and `txRate`. The model keeps the sample they are computed from:
  the two counts and the elapsed ticks.
- Task creation, the log group registration, `DEBUG_PRINT`, the per-task load percentage,
  stack high-water mark and task name in `timerHandler`. They are RTOS set-up, output or
  floating point.
- `sysLoadInit` and `sysLoadTest`, which only create and start the RTOS timer. The parameter
  write that sets `triggerDump` happens outside the model; the handler takes it as given.
- The radio and USB transports, which are parameters: a transport's identity, whether it
  provides `reset` and `isConnected`, and its answers per call. What a port callback does
  when called is also outside the model; the receive step records the call as an event.
- `crtp.h` is not part of this model. The packet layout (4-bit port, 2-bit channel, length,
  payload) and `CRTP_MAX_DATA_SIZE = 30` are taken from the CRTP packet definition.
- `ASSERT(p)` null checks. Packets are values in the model, so there is no null packet.
- The kernel's `uxTaskGetSystemState`, which is a parameter: the list of reported tasks (at
  most the 32 the buffer holds, each task once) and the total run time.
- `sensors.c`, the I2C and SPI drivers, `commander.h` and the Kalman filter header. These
  are outside the transport core.
- Crtp.Init, Crtp.InitTaskQueue: `osMessageQueueNew` is taken to succeed. The firmware sets
  the init flag, and leaves a port's queue handle as returned, without testing for NULL. An
  allocation failure would leave `crtpTest` passing with no outbound queue. Allocation is
  outside the model.
- SysLoad.TimerHandler: does not say exactly when the handler halts on a failed ASSERT. It
  only says that a halt needs a non-zero trigger, and that no halt happens when fewer than 32
  tasks are reported and the table has a free entry for each. Stating the exact condition
  would need the count of distinct new task numbers.

## Findings

| source | as written | input that shows it | evidently intended | confidence | as-written member | corrected member |
|---|---|---|---|---|---|---|
| Core/modules/Src/crtp.c:159 | `if (port > CRTP_NBR_OF_PORTS) return;` and then `callbacks[port] = cb`. Port 16 and any negative port pass the guard and write outside the 16-entry table. | `crtpRegisterPortCB(16, cb)` | `port >= CRTP_NBR_OF_PORTS` (and rejecting negative ports): out-of-range ports leave the table unchanged | high; not executed | `Crtp.RegisterPortCBAsWritten`, `Crtp.GuardAdmitsPortSixteen` | `Crtp.RegisterPortCB` |
