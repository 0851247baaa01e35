/** The CRTP stack: one record holding the outbound queue, the per-port inbound queues,
    the callback table, the link and the statistics, and the public operations on it as
    pure state transitions. */
module Crtp {

  import opened Optional
  import opened Uint
  import opened MessageQueue
  import opened CrtpPacket
  import opened CrtpStats
  import opened CrtpLink

  const TxQueueSize: nat := 120
  const RxQueueSize: nat := 16

  /** A registered port callback, known to the stack only by an opaque handle. */
  type Callback = nat

  /** The stack's state. `inFlight` is the packet the transmit pump has taken from the
      outbound queue and not yet had accepted; `txWaiting` says the transmit pump is
      suspended in its wait-forever get on the outbound queue, past its test of the link;
      `held` is the packet the receive pump got from the transport and is waiting to put
      into a full port queue. */
  datatype Stack = Stack(
    isInit: bool,
    txQueue: Handle<Packet>,
    queues: seq<Handle<Packet>>,
    callbacks: seq<Option<Callback>>,
    link: Link,
    inFlight: Option<Packet>,
    txWaiting: bool,
    held: Option<Packet>,
    stats: Stats)

  predicate TxQueueOk(h: Handle<Packet>) {
    h.Some? ==>
      && h.value.capacity == TxQueueSize
      && h.value.Valid()
      && forall i | 0 <= i < |h.value.items| :: WellSized(h.value.items[i])
  }

  predicate PortQueueOk(h: Handle<Packet>) {
    h.Some? ==> h.value.capacity == RxQueueSize && h.value.Valid()
  }

  predicate Valid(s: Stack) {
    && (s.isInit <==> s.txQueue.Some?)
    && TxQueueOk(s.txQueue)
    && |s.queues| == NbrOfPorts
    && (forall k | 0 <= k < NbrOfPorts :: PortQueueOk(s.queues[k]))
    && |s.callbacks| == NbrOfPorts
    && (s.inFlight.Some? ==> WellSized(s.inFlight.value))
    && (s.txWaiting ==> s.inFlight.None?)
  }

  /** The number of packets waiting in the outbound queue. */
  function Queued(s: Stack): nat
    requires Valid(s) && s.isInit
  {
    |s.txQueue.value.items|
  }

  /** The power-on state: nothing created, nothing registered, the sentinel link. */
  function Boot(): (s: Stack)
    ensures Valid(s) && !s.isInit && s.link == Sentinel && !s.txWaiting
    ensures forall k | 0 <= k < NbrOfPorts :: s.queues[k].None? && s.callbacks[k].None?
  {
    Stack(false, None, seq(NbrOfPorts, k => None), seq(NbrOfPorts, k => None),
          Sentinel, None, false, None, Initial())
  }

  /** crtpInit: creates the empty outbound queue once; a second call changes nothing. */
  function Init(s: Stack): (r: Stack)
    requires Valid(s)
    ensures Valid(r) && r.isInit
    ensures s.isInit ==> r == s
    ensures !s.isInit ==> Queued(r) == 0 && r.txQueue.value.capacity == TxQueueSize
    ensures r.(isInit := s.isInit, txQueue := s.txQueue) == s
  {
    if s.isInit then s else s.(isInit := true, txQueue := Some(Queue(TxQueueSize, [])))
  }

  /** crtpTest: passes exactly when the outbound queue has been created. */
  function SelfTest(s: Stack): (r: bool)
    requires Valid(s)
    ensures r <==> s.txQueue.Some?
  {
    s.isInit
  }

  lemma SelfTestReportsInit(s: Stack)
    requires Valid(s)
    ensures !SelfTest(Boot())
    ensures SelfTest(Init(s))
    ensures Init(Init(s)) == Init(s)
  {
  }

  /** crtpInitTaskQueue: gives a port that has none an empty queue of 16 packets. */
  function InitTaskQueue(s: Stack, port: PortId): (r: Stack)
    requires Valid(s)
    requires s.queues[port].None?
    ensures Valid(r)
    ensures r.queues[port].Some? && r.queues[port].value.items == []
    ensures r.queues[port].value.capacity == RxQueueSize
    ensures forall k | 0 <= k < NbrOfPorts && k != port :: r.queues[k] == s.queues[k]
    ensures r.(queues := s.queues) == s
  {
    s.(queues := s.queues[port := Some(Queue(RxQueueSize, []))])
  }

  /** How a call that may suspend its caller ended. */
  datatype Completion = Completed(status: Status) | Blocked

  datatype ReceiveResult = ReceiveResult(stack: Stack, completion: Completion, packet: Option<Packet>)

  /** osMessageQueueGet on a port's queue with the given timeout. */
  function ReceiveWithTimeout(s: Stack, port: PortId, timeout: u32): (r: ReceiveResult)
    requires Valid(s)
    requires s.queues[port].Some?
    ensures Valid(r.stack)
    ensures r.packet.Some? <==> |s.queues[port].value.items| > 0
    ensures r.packet.Some? ==>
              && r.completion == Completed(OsOk)
              && r.stack.queues[port].Some?
              && [r.packet.value] + r.stack.queues[port].value.items == s.queues[port].value.items
              && r.stack.queues[port].value.capacity == RxQueueSize
              && forall k | 0 <= k < NbrOfPorts && k != port :: r.stack.queues[k] == s.queues[k]
    ensures r.stack.(queues := s.queues) == s
    ensures r.packet.None? ==>
              && r.stack == s
              && r.completion == (if timeout == 0 then Completed(OsErrorResource)
                                  else if timeout == WaitForever then Blocked
                                  else Completed(OsErrorTimeout))
  {
    match Get(s.queues[port], timeout)
    case Retrieved(p, q) => ReceiveResult(s.(queues := s.queues[port := Some(q)]), Completed(OsOk), Some(p))
    case GetFailed(status) => ReceiveResult(s, Completed(status), None)
    case GetBlocked => ReceiveResult(s, Blocked, None)
  }

  /** crtpReceivePacket: returns the oldest queued packet, or fails at once leaving everything unchanged. */
  function ReceivePacket(s: Stack, port: PortId): (r: ReceiveResult)
    requires Valid(s)
    requires s.queues[port].Some?
    ensures Valid(r.stack)
    ensures |s.queues[port].value.items| == 0 ==>
              r == ReceiveResult(s, Completed(OsErrorResource), None)
    ensures |s.queues[port].value.items| > 0 ==>
              && r.packet == Some(s.queues[port].value.items[0])
              && r.completion == Completed(OsOk)
              && r.stack.queues[port].Some?
              && r.stack.queues[port].value.items == s.queues[port].value.items[1..]
              && forall k | 0 <= k < NbrOfPorts && k != port :: r.stack.queues[k] == s.queues[k]
    ensures r.stack.(queues := s.queues) == s
  {
    ReceiveWithTimeout(s, port, 0)
  }

  /** crtpReceivePacketBlock: on an empty queue the caller is suspended. */
  function ReceivePacketBlock(s: Stack, port: PortId): (r: ReceiveResult)
    requires Valid(s)
    requires s.queues[port].Some?
    ensures Valid(r.stack)
    ensures |s.queues[port].value.items| == 0 ==> r == ReceiveResult(s, Blocked, None)
    ensures |s.queues[port].value.items| > 0 ==> r == ReceivePacket(s, port)
  {
    ReceiveWithTimeout(s, port, WaitForever)
  }

  /** crtpReceivePacketWait: `wait` is a C int passed on as a uint32_t timeout, so -1 is
      osWaitForever and waits like crtpReceivePacketBlock. */
  function ReceivePacketWait(s: Stack, port: PortId, wait: i32): (r: ReceiveResult)
    requires Valid(s)
    requires s.queues[port].Some?
    ensures Valid(r.stack)
    ensures wait == 0 ==> r == ReceivePacket(s, port)
    ensures wait == -1 ==> r == ReceivePacketBlock(s, port)
    ensures wait != 0 && wait != -1 && |s.queues[port].value.items| == 0 ==>
              r == ReceiveResult(s, Completed(OsErrorTimeout), None)
    ensures |s.queues[port].value.items| > 0 ==> r == ReceivePacket(s, port)
  {
    ReceiveWithTimeout(s, port, ToU32(wait))
  }

  /** crtpGetFreeTxQueuePackets. */
  function GetFreeTxQueuePackets(s: Stack): (n: int)
    requires Valid(s)
    ensures s.isInit ==> n == TxQueueSize - Queued(s) && 0 <= n <= TxQueueSize
    ensures !s.isInit ==> n == 0
  {
    Space(s.txQueue)
  }

  datatype SendResult = SendResult(stack: Stack, completion: Completion)

  /** osMessageQueuePut on the outbound queue with the given timeout. */
  function SendWithTimeout(s: Stack, p: Packet, timeout: u32): (r: SendResult)
    requires Valid(s)
    requires WellSized(p)
    ensures Valid(r.stack)
    ensures !s.isInit ==> r == SendResult(s, Completed(OsErrorParameter))
    ensures r.completion == Completed(OsOk) <==> s.isInit && Queued(s) < TxQueueSize
    ensures r.completion == Completed(OsOk) ==>
              && r.stack.isInit
              && r.stack.txQueue.value.items == s.txQueue.value.items + [p]
              && r.stack.(txQueue := s.txQueue) == s
    ensures r.completion != Completed(OsOk) ==> r.stack == s
    ensures s.isInit && Queued(s) == TxQueueSize ==>
              r.completion == (if timeout == 0 then Completed(OsErrorResource)
                               else if timeout == WaitForever then Blocked
                               else Completed(OsErrorTimeout))
  {
    match Put(s.txQueue, p, timeout)
    case Stored(q) => SendResult(s.(txQueue := Some(q)), Completed(OsOk))
    case PutFailed(status) => SendResult(s, Completed(status))
    case PutBlocked => SendResult(s, Blocked)
  }

  /** crtpSendPacket: queues the packet at the tail of the outbound queue without waiting.
      A full queue refuses it and is left as it was; an accepted packet takes one free slot. */
  function SendPacket(s: Stack, p: Packet): (r: SendResult)
    requires Valid(s)
    requires WellSized(p)
    ensures Valid(r.stack)
    ensures !s.isInit ==> r == SendResult(s, Completed(OsErrorParameter))
    ensures s.isInit && Queued(s) == TxQueueSize ==> r == SendResult(s, Completed(OsErrorResource))
    ensures s.isInit && Queued(s) < TxQueueSize ==>
              && r.completion == Completed(OsOk)
              && r.stack.isInit
              && r.stack.txQueue.value.items == s.txQueue.value.items + [p]
              && GetFreeTxQueuePackets(r.stack) == GetFreeTxQueuePackets(s) - 1
              && r.stack.(txQueue := s.txQueue) == s
  {
    SendWithTimeout(s, p, 0)
  }

  /** crtpSendPacketBlock: on a full outbound queue the caller is suspended. */
  function SendPacketBlock(s: Stack, p: Packet): (r: SendResult)
    requires Valid(s)
    requires WellSized(p)
    ensures Valid(r.stack)
    ensures s.isInit && Queued(s) == TxQueueSize ==> r == SendResult(s, Blocked)
    ensures !(s.isInit && Queued(s) == TxQueueSize) ==> r == SendPacket(s, p)
  {
    SendWithTimeout(s, p, WaitForever)
  }

  datatype ResetResult = ResetResult(stack: Stack, linkResetCalled: bool, ret: int)

  /** crtpReset: empties the outbound queue, calls the link's reset when it has one, returns 0. */
  function Reset(s: Stack): (r: ResetResult)
    requires Valid(s)
    ensures Valid(r.stack)
    ensures r.ret == 0
    ensures r.stack.isInit == s.isInit
    ensures s.isInit ==> Queued(r.stack) == 0 && GetFreeTxQueuePackets(r.stack) == TxQueueSize
    ensures r.linkResetCalled <==> s.link.HasReset()
    ensures r.stack.(txQueue := s.txQueue) == s
  {
    ResetResult(s.(txQueue := MessageQueue.Reset(s.txQueue)), s.link.HasReset(), 0)
  }

  /** crtpIsConnected, given the answer the link's isConnected would give. */
  function IsConnected(s: Stack, linkAnswer: bool): (r: bool)
    ensures s.link.HasIsConnected() ==> r == linkAnswer
    ensures !r <==> s.link.HasIsConnected() && !linkAnswer
  {
    if s.link.HasIsConnected() then linkAnswer else true
  }

  datatype LinkSwap = LinkSwap(stack: Stack, calls: seq<EnableCall>)

  /** crtpSetLink: disables the current link (the `if (link)` test always holds, since the
      pointer starts at the sentinel and is never null), installs the supplied transport or,
      for null, the sentinel, then enables whatever was installed. */
  function SetLink(s: Stack, lk: Option<Transport>): (r: LinkSwap)
    requires Valid(s)
    ensures Valid(r.stack)
    ensures lk.Some? ==> r.stack.link == Active(lk.value)
    ensures lk.None? ==> r.stack.link == Sentinel
    ensures |r.calls| == 2
    ensures r.calls[0] == SetEnable(s.link, false)
    ensures r.calls[1] == SetEnable(r.stack.link, true)
    ensures r.stack.(link := s.link) == s
  {
    var next := if lk.Some? then Active(lk.value) else Sentinel;
    LinkSwap(s.(link := next), [SetEnable(s.link, false), SetEnable(next, true)])
  }

  /** Swapping to the sentinel and back to a transport loses nothing the stack holds. */
  lemma SentinelSwapResumes(s: Stack, t: Transport)
    requires Valid(s)
    ensures var back := SetLink(SetLink(s, None).stack, Some(t));
            && back.stack == s.(link := Active(t))
            && back.calls[0] == SetEnable(Sentinel, false)
  {
  }

  /** The sentinel has no isConnected, so with no transport installed, at power-on or after
      crtpSetLink(NULL), the stack reports itself connected whatever is asked of it. */
  lemma UnlinkedReportsConnected(s: Stack, linkAnswer: bool)
    requires Valid(s)
    ensures IsConnected(Boot(), linkAnswer)
    ensures IsConnected(SetLink(s, None).stack, linkAnswer)
  {
  }

  /** What crtpRegisterPortCB, as written, does to the callback table: its guard `port > 16`
      lets port 16, and every negative port, through to an out-of-bounds array write. */
  datatype Registration = Registered(stack: Stack) | OutOfBoundsWrite(index: int)

  function RegisterPortCBAsWritten(s: Stack, port: i32, cb: Option<Callback>): (r: Registration)
    requires Valid(s)
    ensures port > NbrOfPorts ==> r == Registered(s)
    ensures 0 <= port < NbrOfPorts ==> r == Registered(s.(callbacks := s.callbacks[port := cb]))
    ensures r.OutOfBoundsWrite? <==> port < 0 || port == NbrOfPorts
  {
    if port > NbrOfPorts then Registered(s)
    else if 0 <= port < |s.callbacks| then Registered(s.(callbacks := s.callbacks[port := cb]))
    else OutOfBoundsWrite(port)
  }

  /** The guard lets port 16 through, and the write lands outside the 16-entry table. */
  lemma GuardAdmitsPortSixteen(s: Stack, cb: Option<Callback>)
    requires Valid(s)
    ensures RegisterPortCBAsWritten(s, 16, cb) == OutOfBoundsWrite(16)
  {
  }

  /** crtpRegisterPortCB with the bound check it evidently intends (`port >= 16`, and no
      negative port): a port inside the table gets `cb` (None clears it); any other port
      leaves the table unchanged. */
  function RegisterPortCB(s: Stack, port: i32, cb: Option<Callback>): (r: Stack)
    requires Valid(s)
    ensures Valid(r)
    ensures 0 <= port < NbrOfPorts ==> r.callbacks[port] == cb
    ensures forall k | 0 <= k < NbrOfPorts && k != port :: r.callbacks[k] == s.callbacks[k]
    ensures r.(callbacks := s.callbacks) == s
  {
    if port < 0 || port >= NbrOfPorts then s else s.(callbacks := s.callbacks[port := cb])
  }

  /** The corrected registration does what the code as written does wherever that stays in bounds. */
  lemma RegisterPortCBAgreesInBounds(s: Stack, port: i32, cb: Option<Callback>)
    requires Valid(s)
    ensures RegisterPortCBAsWritten(s, port, cb).Registered? ==>
              RegisterPortCBAsWritten(s, port, cb).stack == RegisterPortCB(s, port, cb)
  {
  }

  /** The last registration for a port wins. */
  lemma LastRegistrationWins(s: Stack, port: i32, first: Option<Callback>, second: Option<Callback>)
    requires Valid(s)
    ensures RegisterPortCB(RegisterPortCB(s, port, first), port, second) == RegisterPortCB(s, port, second)
  {
  }
}
