/** Properties of the stack over several steps: ordering through both pumps, and what the
    sentinel link does to the pumps. */
module CrtpProperties {

  import opened Optional
  import opened Uint
  import opened MessageQueue
  import opened CrtpPacket
  import opened CrtpStats
  import opened CrtpLink
  import opened Crtp
  import opened CrtpPumps

  datatype TxRun = TxRun(stack: Stack, transmitted: seq<Packet>)

  /** `n` transmit steps against a transport that accepts every packet, collecting what it was handed. */
  function TransmitSteps(s: Stack, n: nat, now: u32): (r: TxRun)
    requires Valid(s) && s.isInit
    ensures Valid(r.stack) && r.stack.isInit
    decreases n
  {
    if n == 0 then TxRun(s, [])
    else
      var step := TxStep(s, true, now);
      var rest := TransmitSteps(step.stack, n - 1, now);
      var sent := if step.outcome.Transmitted? then [step.outcome.packet] else [];
      TxRun(rest.stack, sent + rest.transmitted)
  }

  /** The transmit pump hands packets to the transport in the order they were queued. */
  lemma {:induction false} TransmitInQueueOrder(s: Stack, n: nat, now: u32)
    requires Valid(s) && s.isInit && s.link.Active? && s.inFlight.None?
    requires n <= Queued(s)
    ensures TransmitSteps(s, n, now).transmitted == s.txQueue.value.items[..n]
    ensures TransmitSteps(s, n, now).stack.txQueue.value.items == s.txQueue.value.items[n..]
    ensures TransmitSteps(s, n, now).stack.inFlight.None?
    decreases n
  {
    if n > 0 {
      var step := TxStep(s, true, now);
      assert step.outcome == Transmitted(s.txQueue.value.items[0]);
      TransmitInQueueOrder(step.stack, n - 1, now);
      var items := s.txQueue.value.items;
      assert items[1..][..n - 1] == items[1..n];
      assert [items[0]] + items[1..n] == items[..n];
      assert items[1..][n - 1..] == items[n..];
    }
  }

  /** A packet sent while the outbound queue has room reaches an accepting transport,
      unchanged, right after every packet queued before it: the transmit steps that empty
      the queue hand over exactly the earlier packets and then this one. */
  lemma SendReachesTransport(s: Stack, p: Packet, now: u32)
    requires Valid(s) && s.isInit && s.link.Active? && s.inFlight.None? && Queued(s) < TxQueueSize
    requires WellSized(p)
    ensures SendPacket(s, p).completion == Completed(OsOk)
    ensures var run := TransmitSteps(SendPacket(s, p).stack, Queued(s) + 1, now);
            && run.transmitted == s.txQueue.value.items + [p]
            && run.stack.txQueue.value.items == []
  {
    var sent := SendPacket(s, p).stack;
    TransmitInQueueOrder(sent, Queued(s) + 1, now);
    assert sent.txQueue.value.items[..Queued(s) + 1] == sent.txQueue.value.items;
  }

  /** The packets of `ps` addressed to `port`, in order. */
  function AddressedTo(ps: seq<Packet>, port: PortId): (r: seq<Packet>)
    ensures |r| <= |ps|
    ensures forall i | 0 <= i < |r| :: r[i].port == port
    decreases |ps|
  {
    if ps == [] then []
    else (if ps[0].port == port then [ps[0]] else []) + AddressedTo(ps[1..], port)
  }

  /** The state after the receive pump gets each packet of `ps` from the transport in turn. */
  function ReceiveSteps(s: Stack, ps: seq<Packet>, now: u32): (r: Stack)
    requires Valid(s) && s.isInit
    ensures Valid(r) && r.isInit
    decreases |ps|
  {
    if ps == [] then s else ReceiveSteps(RxStep(s, 0, ps[0], now).stack, ps[1..], now)
  }

  /** Every existing port queue has room for the packets of `ps` addressed to it. */
  predicate RoomFor(s: Stack, ps: seq<Packet>)
    requires Valid(s)
  {
    forall k: PortId :: s.queues[k].Some? ==> |s.queues[k].value.items| + |AddressedTo(ps, k)| <= RxQueueSize
  }

  /** A port queue with `xs` added at its tail; a missing queue stays missing. */
  function Extended(h: Handle<Packet>, xs: seq<Packet>): Handle<Packet> {
    if h.Some? then Some(Queue(RxQueueSize, h.value.items + xs)) else None
  }

  /** One receive step with a packet from the transport and room in its port's queue. */
  lemma ReceiveOne(s: Stack, p: Packet, now: u32)
    requires Valid(s) && s.isInit && s.link.Active? && s.held.None?
    requires s.queues[p.port].Some? ==> |s.queues[p.port].value.items| < RxQueueSize
    ensures RxStep(s, 0, p, now).stack.held.None?
    ensures forall k: PortId :: RxStep(s, 0, p, now).stack.queues[k] == Extended(s.queues[k], AddressedTo([p], k))
  {
    var s1 := RxStep(s, 0, p, now).stack;
    assert RxDelivers(s, 0) && RxCandidate(s, p) == p;
    forall k: PortId ensures s1.queues[k] == Extended(s.queues[k], AddressedTo([p], k)) {
      assert [p][1..] == [];
      assert AddressedTo([p], k) == (if p.port == k then [p] else []);
      if s.queues[k].Some? {
        assert PortQueueOk(s.queues[k]);
        assert s.queues[k].value.items + [] == s.queues[k].value.items;
      }
    }
  }

  lemma AddressedToSplits(ps: seq<Packet>, k: PortId)
    requires ps != []
    ensures AddressedTo(ps, k) == AddressedTo([ps[0]], k) + AddressedTo(ps[1..], k)
  {
    assert [ps[0]][1..] == [];
    assert AddressedTo([ps[0]], k) == (if ps[0].port == k then [ps[0]] else []) + [];
  }

  lemma RoomRemains(s: Stack, s1: Stack, ps: seq<Packet>)
    requires Valid(s) && Valid(s1) && ps != [] && RoomFor(s, ps)
    requires forall k: PortId :: s1.queues[k] == Extended(s.queues[k], AddressedTo([ps[0]], k))
    ensures RoomFor(s1, ps[1..])
  {
    forall k: PortId | s1.queues[k].Some?
      ensures |s1.queues[k].value.items| + |AddressedTo(ps[1..], k)| <= RxQueueSize
    {
      AddressedToSplits(ps, k);
    }
  }

  lemma ExtendedTwice(h: Handle<Packet>, xs: seq<Packet>, ys: seq<Packet>)
    ensures Extended(Extended(h, xs), ys) == Extended(h, xs + ys)
  {
    if h.Some? {
      assert h.value.items + xs + ys == h.value.items + (xs + ys);
    }
  }

  /** Each port queue receives exactly the packets addressed to it, in the order the
      transport surfaced them; ports without a queue stay without one. */
  lemma {:induction false} PortOrderPreserved(s: Stack, ps: seq<Packet>, now: u32)
    requires Valid(s) && s.isInit && s.link.Active? && s.held.None?
    requires RoomFor(s, ps)
    ensures ReceiveSteps(s, ps, now).held.None?
    ensures forall k: PortId :: ReceiveSteps(s, ps, now).queues[k] == Extended(s.queues[k], AddressedTo(ps, k))
    decreases |ps|
  {
    if ps == [] {
      forall k: PortId ensures s.queues[k] == Extended(s.queues[k], []) {
        if s.queues[k].Some? {
          assert PortQueueOk(s.queues[k]);
          assert s.queues[k].value.items + [] == s.queues[k].value.items;
        }
      }
    } else {
      var p := ps[0];
      AddressedToSplits(ps, p.port);
      ReceiveOne(s, p, now);
      var s1 := RxStep(s, 0, p, now).stack;
      RoomRemains(s, s1, ps);
      PortOrderPreserved(s1, ps[1..], now);
      assert ReceiveSteps(s, ps, now) == ReceiveSteps(s1, ps[1..], now);
      forall k: PortId ensures ReceiveSteps(s, ps, now).queues[k] == Extended(s.queues[k], AddressedTo(ps, k)) {
        AddressedToSplits(ps, k);
        ExtendedTwice(s.queues[k], AddressedTo([p], k), AddressedTo(ps[1..], k));
      }
    }
  }

  /** The packets crtpReceivePacket returns on `port` until it reports an empty queue. */
  function ReceiveUntilEmpty(s: Stack, port: PortId): (r: seq<Packet>)
    requires Valid(s) && s.queues[port].Some?
    ensures r == Drain(s.queues[port].value)
    decreases |s.queues[port].value.items|
  {
    var got := ReceivePacket(s, port);
    if got.packet.Some? then [got.packet.value] + ReceiveUntilEmpty(got.stack, port) else []
  }

  /** crtpReceivePacket returns a port's queued packets oldest first. */
  lemma ReceiveYieldsQueueOrder(s: Stack, port: PortId)
    requires Valid(s) && s.queues[port].Some?
    ensures ReceiveUntilEmpty(s, port) == s.queues[port].value.items
  {
    assert PortQueueOk(s.queues[port]);
    DrainYieldsOldestFirst(s.queues[port].value);
  }

  /** End to end: packets addressed to a port with an empty queue come back out of
      crtpReceivePacket exactly in the order the transport surfaced them. */
  lemma NoReorderingWithinPort(s: Stack, ps: seq<Packet>, port: PortId, now: u32)
    requires Valid(s) && s.isInit && s.link.Active? && s.held.None?
    requires s.queues[port].Some? && s.queues[port].value.items == []
    requires RoomFor(s, ps)
    ensures ReceiveSteps(s, ps, now).queues[port].Some?
    ensures ReceiveUntilEmpty(ReceiveSteps(s, ps, now), port) == AddressedTo(ps, port)
  {
    PortOrderPreserved(s, ps, now);
    ReceiveYieldsQueueOrder(ReceiveSteps(s, ps, now), port);
  }

  /** One thing that may happen next on the receive side: the receive pump runs one
      iteration against the transport's answer, or an application task calls
      crtpReceivePacket on a port. */
  datatype RxAction = Poll(status: int, incoming: Packet) | Take(port: PortId)

  /** What the packet traffic of a run looks like from outside the stack: a packet the
      transport surfaced, or a packet crtpReceivePacket returned on a port. */
  datatype Observed = Arrived(packet: Packet) | Taken(port: PortId, packet: Packet)

  datatype RxRun = RxRun(stack: Stack, log: seq<Observed>)

  /** The packets surfaced by the transport for port `k`, in order. */
  function Arrivals(log: seq<Observed>, k: PortId): seq<Packet>
    decreases |log|
  {
    if log == [] then []
    else (if log[0].Arrived? && log[0].packet.port == k then [log[0].packet] else []) + Arrivals(log[1..], k)
  }

  /** The packets crtpReceivePacket returned on port `k`, in order. */
  function Takes(log: seq<Observed>, k: PortId): seq<Packet>
    decreases |log|
  {
    if log == [] then []
    else (if log[0].Taken? && log[0].port == k then [log[0].packet] else []) + Takes(log[1..], k)
  }

  lemma {:induction false} ArrivalsConcat(a: seq<Observed>, b: seq<Observed>, k: PortId)
    ensures Arrivals(a + b, k) == Arrivals(a, k) + Arrivals(b, k)
    decreases |a|
  {
    if a == [] {
      assert a + b == b;
    } else {
      assert (a + b)[0] == a[0] && (a + b)[1..] == a[1..] + b;
      ArrivalsConcat(a[1..], b, k);
    }
  }

  lemma {:induction false} TakesConcat(a: seq<Observed>, b: seq<Observed>, k: PortId)
    ensures Takes(a + b, k) == Takes(a, k) + Takes(b, k)
    decreases |a|
  {
    if a == [] {
      assert a + b == b;
    } else {
      assert (a + b)[0] == a[0] && (a + b)[1..] == a[1..] + b;
      TakesConcat(a[1..], b, k);
    }
  }

  /** The packets for port `k` inside the stack: its queue, then the packet the receive
      pump holds when that one is addressed to `k`. */
  function Pending(s: Stack, k: PortId): seq<Packet>
    requires Valid(s)
  {
    (if s.queues[k].Some? then s.queues[k].value.items else [])
      + (if s.held.Some? && s.held.value.port == k then [s.held.value] else [])
  }

  /** One action. A consumer calling on a port without a queue observes nothing; the
      firmware asserts on that call. */
  function Act(s: Stack, a: RxAction, now: u32): (r: RxRun)
    requires Valid(s) && s.isInit
    ensures Valid(r.stack) && r.stack.isInit
  {
    match a
    case Poll(status, incoming) =>
      var arrived := if s.held.None? && s.link.Active? && status == 0 then [Arrived(incoming)] else [];
      RxRun(RxStep(s, status, incoming, now).stack, arrived)
    case Take(port) =>
      if s.queues[port].None? then RxRun(s, [])
      else
        var got := ReceivePacket(s, port);
        RxRun(got.stack, if got.packet.Some? then [Taken(port, got.packet.value)] else [])
  }

  /** The actions in turn, with everything observed along the way. */
  function RunActions(s: Stack, actions: seq<RxAction>, now: u32): (r: RxRun)
    requires Valid(s) && s.isInit
    ensures Valid(r.stack) && r.stack.isInit
    decreases |actions|
  {
    if actions == [] then RxRun(s, [])
    else
      var first := Act(s, actions[0], now);
      var rest := RunActions(first.stack, actions[1..], now);
      RxRun(rest.stack, first.log + rest.log)
  }

  /** For a port with a queue, after a receive step that delivers, the port's pending
      packets are its queue as it was, then the delivered packet when it is addressed to
      the port, whether it went into the queue or is now held. */
  lemma RxStepPending(s: Stack, status: int, incoming: Packet, k: PortId, now: u32)
    requires Valid(s) && s.isInit && s.queues[k].Some? && RxDelivers(s, status)
    ensures var after := RxStep(s, status, incoming, now).stack;
            var p := RxCandidate(s, incoming);
            && after.queues[k].Some?
            && Pending(after, k) == s.queues[k].value.items + (if p.port == k then [p] else [])
  {
    var p := RxCandidate(s, incoming);
    assert PortQueueOk(s.queues[k]);
    var after := RxStep(s, status, incoming, now).stack;
    if p.port != k {
      assert after.queues[k] == s.queues[k];
    }
  }

  /** ActAccounts for a step of the receive pump. */
  lemma PollAccounts(s: Stack, status: int, incoming: Packet, k: PortId, now: u32)
    requires Valid(s) && s.isInit && s.queues[k].Some?
    ensures var r := Act(s, Poll(status, incoming), now);
            && r.stack.queues[k].Some?
            && Takes(r.log, k) + Pending(r.stack, k) == Pending(s, k) + Arrivals(r.log, k)
  {
    var r := Act(s, Poll(status, incoming), now);
    if !RxDelivers(s, status) {
      assert r == RxRun(s, []);
      assert Pending(s, k) + [] == Pending(s, k);
    } else {
      RxStepPending(s, status, incoming, k, now);
      if s.held.Some? {
        assert r.log == [];
      } else {
        assert r.log == [Arrived(incoming)] && r.log[1..] == [];
        assert Takes(r.log, k) == [];
        assert Arrivals(r.log, k) == if incoming.port == k then [incoming] else [];
      }
    }
  }

  /** ActAccounts for an application call of crtpReceivePacket. */
  lemma TakeAccounts(s: Stack, port: PortId, k: PortId, now: u32)
    requires Valid(s) && s.isInit && s.queues[k].Some?
    ensures var r := Act(s, Take(port), now);
            && r.stack.queues[k].Some?
            && Takes(r.log, k) + Pending(r.stack, k) == Pending(s, k) + Arrivals(r.log, k)
  {
    var r := Act(s, Take(port), now);
    if s.queues[port].Some? && ReceivePacket(s, port).packet.Some? {
      var got := ReceivePacket(s, port);
      assert r.log == [Taken(port, got.packet.value)] && r.log[1..] == [];
      assert Arrivals(r.log, k) == [];
      assert Takes(r.log, k) == if port == k then [got.packet.value] else [];
    } else {
      assert r == RxRun(s, []);
      assert Pending(s, k) + [] == Pending(s, k);
    }
  }

  /** Over one action, for a port with a queue, the packets taken and those still pending
      afterwards are exactly those pending before and those that arrived, in that order. */
  lemma ActAccounts(s: Stack, a: RxAction, k: PortId, now: u32)
    requires Valid(s) && s.isInit && s.queues[k].Some?
    ensures var r := Act(s, a, now);
            && r.stack.queues[k].Some?
            && Takes(r.log, k) + Pending(r.stack, k) == Pending(s, k) + Arrivals(r.log, k)
  {
    match a
    case Poll(status, incoming) => PollAccounts(s, status, incoming, k, now);
    case Take(port) => TakeAccounts(s, port, k, now);
  }

  /** Chaining two accounting steps. */
  lemma Regroup<T>(p0: seq<T>, t1: seq<T>, p1: seq<T>, a1: seq<T>, t2: seq<T>, p2: seq<T>, a2: seq<T>)
    requires t1 + p1 == p0 + a1
    requires t2 + p2 == p1 + a2
    ensures (t1 + t2) + p2 == p0 + (a1 + a2)
  {
    calc {
      (t1 + t2) + p2;
      t1 + (t2 + p2);
      (t1 + p1) + a2;
      p0 + (a1 + a2);
    }
  }

  /** The accounting of ActAccounts over a whole run. */
  lemma {:induction false} RunAccounts(s: Stack, actions: seq<RxAction>, k: PortId, now: u32)
    requires Valid(s) && s.isInit && s.queues[k].Some?
    ensures var r := RunActions(s, actions, now);
            && r.stack.queues[k].Some?
            && Takes(r.log, k) + Pending(r.stack, k) == Pending(s, k) + Arrivals(r.log, k)
    decreases |actions|
  {
    if actions == [] {
      assert Pending(s, k) + [] == Pending(s, k);
    } else {
      var first := Act(s, actions[0], now);
      var rest := RunActions(first.stack, actions[1..], now);
      assert RunActions(s, actions, now) == RxRun(rest.stack, first.log + rest.log);
      ActAccounts(s, actions[0], k, now);
      RunAccounts(first.stack, actions[1..], k, now);
      ArrivalsConcat(first.log, rest.log, k);
      TakesConcat(first.log, rest.log, k);
      Regroup(Pending(s, k), Takes(first.log, k), Pending(first.stack, k), Arrivals(first.log, k),
              Takes(rest.log, k), Pending(rest.stack, k), Arrivals(rest.log, k));
    }
  }

  /** However the receive pump's steps interleave with application calls of
      crtpReceivePacket, and whether or not a full queue makes the pump hold a packet, a port
      whose queue starts empty hands out exactly the packets the transport surfaced for it,
      in that order, with the rest still inside the stack: nothing is lost, duplicated or
      reordered. */
  lemma NoReorderingUnderBackpressure(s: Stack, actions: seq<RxAction>, k: PortId, now: u32)
    requires Valid(s) && s.isInit
    requires s.queues[k].Some? && s.queues[k].value.items == []
    requires s.held.Some? ==> s.held.value.port != k
    ensures var r := RunActions(s, actions, now);
            Arrivals(r.log, k) == Takes(r.log, k) + Pending(r.stack, k)
  {
    RunAccounts(s, actions, k, now);
    assert Pending(s, k) == [];
  }

  /** After registering a callback for a port, a packet received for that port invokes it
      exactly once, as the last thing delivered, after the packet went into the port's queue
      when there is one. */
  lemma RegisteredCallbackSeesPacket(s: Stack, p: Packet, cb: Callback, now: u32)
    requires Valid(s) && s.isInit && s.link.Active? && s.held.None?
    requires s.queues[p.port].Some? ==> |s.queues[p.port].value.items| < RxQueueSize
    ensures var step := RxStep(RegisterPortCB(s, p.port, Some(cb)), 0, p, now);
            && |step.events| == (if s.queues[p.port].Some? then 2 else 1)
            && step.events[|step.events| - 1] == CallbackInvoked(cb, p)
            && (s.queues[p.port].Some? ==> step.events[0] == PutInQueue(p.port, p))
  {
  }

  /** With the sentinel link, nothing in a pump's hands and the transmit pump not suspended
      in its get, neither pump changes anything. */
  lemma SentinelLinkIsInert(s: Stack, accepts: bool, status: int, incoming: Packet, now: u32)
    requires Valid(s) && s.isInit && s.link.Sentinel? && s.inFlight.None? && s.held.None?
    requires !s.txWaiting
    ensures TxStep(s, accepts, now) == TxStepResult(s, Idle)
    ensures RxStep(s, status, incoming, now) == RxStepResult(s, [])
  {
  }

  /** A packet still being retried when the link is swapped to the sentinel is counted as
      sent on the next transmit step and never reaches any transport. */
  lemma SwapToSentinelDropsInFlight(s: Stack, now: u32)
    requires Valid(s) && s.isInit && s.inFlight.Some?
    ensures var step := TxStep(SetLink(s, None).stack, false, now);
            && step.outcome == Transmitted(s.inFlight.value)
            && step.stack.inFlight.None?
            && step.stack.stats == CountTx(s.stats, now)
  {
  }

  /** A transmit pump that suspended in its get while the link was active, with the outbound
      queue empty, is still suspended after the link is swapped to the sentinel; the next
      packet sent is taken, handed to the sentinel, counted as sent and reaches no
      transport. */
  lemma ParkedPumpLosesPacketAfterSwap(s: Stack, p: Packet, accepts: bool, now: u32)
    requires Valid(s) && s.isInit && s.link.Active? && s.inFlight.None? && Queued(s) == 0
    requires WellSized(p)
    ensures var parked := TxStep(s, accepts, now);
            var swapped := SetLink(parked.stack, None).stack;
            var sent := SendPacket(swapped, p).stack;
            var step := TxStep(sent, accepts, now);
            && parked.outcome == AwaitingPacket
            && swapped.link == Sentinel && swapped.txWaiting
            && step.outcome == Transmitted(p)
            && step.stack.txQueue.value.items == []
            && step.stack.stats == CountTx(s.stats, now)
  {
  }
}
