/** One loop iteration of each of the stack's two tasks. The transport is an oracle: its
    answer to sendPacket and receivePacket, and the tick count, are inputs of the step. */
module CrtpPumps {

  import opened Optional
  import opened Uint
  import opened MessageQueue
  import opened CrtpPacket
  import opened CrtpStats
  import opened CrtpLink
  import opened Crtp

  datatype TxOutcome =
    | Idle                          // sentinel link: osDelay(10)
    | AwaitingPacket                // active link, empty outbound queue: the get waits
    | Rejected(packet: Packet)      // sendPacket refused it; it stays in flight for the retry
    | Transmitted(packet: Packet)   // sendPacket took it; txCount was incremented

  datatype TxStepResult = TxStepResult(stack: Stack, outcome: TxOutcome)

  /** Whether a transmit step hands a packet to the link: one is in flight, or the outbound
      queue has one to take and the pump either finds the link active at the top of its loop
      or is already suspended in the get, where it no longer looks at the link. */
  predicate TxAttempts(s: Stack)
    requires Valid(s) && s.isInit
  {
    s.inFlight.Some? || ((s.link.Active? || s.txWaiting) && Queued(s) > 0)
  }

  /** The packet a transmit step hands to the link. */
  function TxCandidate(s: Stack): Packet
    requires Valid(s) && s.isInit && TxAttempts(s)
  {
    if s.inFlight.Some? then s.inFlight.value else s.txQueue.value.items[0]
  }

  /** One call of link->sendPacket on the packet the pump holds. `== false` tests the
      answer against zero, and the sentinel answers with the non-zero ENETDOWN, so a packet
      handed to the link after it became the sentinel counts as sent. */
  function Attempt(s: Stack, p: Packet, accepts: bool, now: u32): TxStepResult {
    if s.link.Sentinel? || accepts then
      TxStepResult(s.(inFlight := None, stats := CountTx(s.stats, now)), Transmitted(p))
    else
      TxStepResult(s.(inFlight := Some(p)), Rejected(p))
  }

  /** One iteration of crtpTxTask, where `accepts` is the active transport's sendPacket
      answer. The link is tested only at the top of the loop: a pump suspended in the get
      takes the next packet and offers it to whatever link is installed by then. */
  function TxStep(s: Stack, accepts: bool, now: u32): (r: TxStepResult)
    requires Valid(s) && s.isInit
    ensures Valid(r.stack) && r.stack.isInit
    ensures !TxAttempts(s) && !s.txWaiting && s.link.Sentinel? ==> r == TxStepResult(s, Idle)
    ensures !TxAttempts(s) && (s.txWaiting || s.link.Active?) ==>
              r == TxStepResult(s.(txWaiting := true), AwaitingPacket)
    ensures TxAttempts(s) ==>
              && (r.outcome.Rejected? || r.outcome.Transmitted?)
              && r.outcome.packet == TxCandidate(s)
              && (r.outcome.Transmitted? <==> s.link.Sentinel? || accepts)
              && !r.stack.txWaiting
              && (s.inFlight.None? ==> r.stack.txQueue.value.items == s.txQueue.value.items[1..])
              && (s.inFlight.Some? ==> r.stack.txQueue == s.txQueue)
    ensures r.outcome.Transmitted? ==> r.stack.inFlight.None? && r.stack.stats == CountTx(s.stats, now)
    ensures r.outcome.Rejected? ==> r.stack.inFlight == Some(r.outcome.packet) && r.stack.stats == s.stats
    ensures r.stack.(txQueue := s.txQueue, inFlight := s.inFlight, txWaiting := s.txWaiting, stats := s.stats) == s
  {
    match s.inFlight
    case Some(p) => Attempt(s, p, accepts, now)
    case None =>
      if s.link.Sentinel? && !s.txWaiting then TxStepResult(s, Idle)
      else
        match Get(s.txQueue, WaitForever)
        case Retrieved(p, q) => Attempt(s.(txQueue := Some(q), txWaiting := false), p, accepts, now)
        case _ => TxStepResult(s.(txWaiting := true), AwaitingPacket)
  }

  datatype RxEvent = PutInQueue(port: PortId, packet: Packet) | CallbackInvoked(callback: Callback, packet: Packet)

  datatype RxStepResult = RxStepResult(stack: Stack, events: seq<RxEvent>)

  /** Whether a receive step has a packet to deliver: one is held, or the link is active and
      its receivePacket returned 0. */
  predicate RxDelivers(s: Stack, status: int) {
    s.held.Some? || (s.link.Active? && status == 0)
  }

  /** The packet a receive step delivers. */
  function RxCandidate(s: Stack, incoming: Packet): Packet {
    if s.held.Some? then s.held.value else incoming
  }

  /** Delivering one packet: put it in its port's queue when there is one (waiting while it
      is full), then call its port's callback when there is one, then count it. */
  function Deliver(s: Stack, p: Packet, now: u32): RxStepResult
    requires Valid(s)
  {
    var h := s.queues[p.port];
    if h.Some? && h.value.IsFull() then
      RxStepResult(s.(held := Some(p)), [])
    else
      var queues := if h.Some? then s.queues[p.port := Some(Put(h, p, WaitForever).queue)] else s.queues;
      var queued := if h.Some? then [PutInQueue(p.port, p)] else [];
      var invoked := if s.callbacks[p.port].Some? then [CallbackInvoked(s.callbacks[p.port].value, p)] else [];
      RxStepResult(s.(queues := queues, held := None, stats := CountRx(s.stats, now)), queued + invoked)
  }

  /** One iteration of crtpRxTask, where `status` is what the transport's receivePacket
      returned and `incoming` the packet it wrote; zero means a packet arrived. */
  function RxStep(s: Stack, status: int, incoming: Packet, now: u32): (r: RxStepResult)
    requires Valid(s) && s.isInit
    ensures Valid(r.stack) && r.stack.isInit
    ensures !RxDelivers(s, status) ==> r == RxStepResult(s, [])
    ensures RxDelivers(s, status) ==>
              var p := RxCandidate(s, incoming);
              var h := s.queues[p.port];
              var cb := s.callbacks[p.port];
              && (h.Some? && |h.value.items| == RxQueueSize ==> r == RxStepResult(s.(held := Some(p)), []))
              && (!(h.Some? && |h.value.items| == RxQueueSize) ==>
                    && r.stack.held.None?
                    && r.stack.stats == CountRx(s.stats, now)
                    && (h.Some? ==> r.stack.queues[p.port] == Some(Queue(RxQueueSize, h.value.items + [p])))
                    && (h.None? ==> r.stack.queues[p.port] == None)
                    && (forall k | 0 <= k < NbrOfPorts && k != p.port :: r.stack.queues[k] == s.queues[k])
                    && |r.events| == (if h.Some? then 1 else 0) + (if cb.Some? then 1 else 0)
                    && (h.Some? ==> r.events[0] == PutInQueue(p.port, p))
                    && (cb.Some? ==> r.events[|r.events| - 1] == CallbackInvoked(cb.value, p)))
    ensures r.stack.(queues := s.queues, held := s.held, stats := s.stats) == s
  {
    if s.held.Some? then Deliver(s, s.held.value, now)
    else if s.link.Sentinel? || status != 0 then RxStepResult(s, [])
    else Deliver(s, incoming, now)
  }
}
