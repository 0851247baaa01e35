/** The throughput statistics of the stack: packets counted since the last sample and
    the sample itself, taken once the tick count passes the next sample deadline. */
module CrtpStats {

  import opened Uint

  const StatsInterval: u32 := 500

  /** The counts and the elapsed ticks one sample was taken from. The firmware turns them
      into the float rates 1000 * count / interval; those rates are not modelled. */
  datatype Sample = Sample(rxCount: u32, txCount: u32, interval: u32)

  datatype Stats = Stats(
    rxCount: u32,
    txCount: u32,
    lastSample: Sample,
    nextStatisticsTime: u32,
    previousStatisticsTime: u32)

  /** The zero-initialised statistics record. */
  function Initial(): Stats {
    Stats(0, 0, Sample(0, 0, 0), 0, 0)
  }

  /** clearStats: the counters restart from zero; the sample and the deadlines are kept. */
  function ClearStats(st: Stats): (r: Stats)
    ensures r.rxCount == 0 && r.txCount == 0
    ensures r.lastSample == st.lastSample
    ensures r.nextStatisticsTime == st.nextStatisticsTime
    ensures r.previousStatisticsTime == st.previousStatisticsTime
  {
    st.(rxCount := 0, txCount := 0)
  }

  /** updateStats at tick `now`. */
  function UpdateStats(st: Stats, now: u32): (r: Stats)
    ensures now <= st.nextStatisticsTime ==> r == st
    ensures now > st.nextStatisticsTime ==>
              && r.rxCount == 0 && r.txCount == 0
              && r.lastSample.rxCount == st.rxCount
              && r.lastSample.txCount == st.txCount
              && r.lastSample.interval == Sub32(now, st.previousStatisticsTime)
              && r.previousStatisticsTime == now
              && r.nextStatisticsTime == Add32(now, StatsInterval)
  {
    if now > st.nextStatisticsTime then
      var sample := Sample(st.rxCount, st.txCount, Sub32(now, st.previousStatisticsTime));
      ClearStats(st).(lastSample := sample,
                      previousStatisticsTime := now,
                      nextStatisticsTime := Add32(now, StatsInterval))
    else
      st
  }

  /** The two directions the stack counts packets in. */
  datatype Direction = Rx | Tx

  /** The packets counted in direction `d` since the last sample. */
  function Counter(st: Stats, d: Direction): u32 {
    match d
    case Rx => st.rxCount
    case Tx => st.txCount
  }

  /** The packets direction `d` contributed to a sample. */
  function SampleCount(sm: Sample, d: Direction): u32 {
    match d
    case Rx => sm.rxCount
    case Tx => sm.txCount
  }

  /** `st` with the counter of direction `d` set to `n`. */
  function WithCounter(st: Stats, d: Direction, n: u32): (r: Stats)
    ensures Counter(r, d) == n
  {
    match d
    case Rx => st.(rxCount := n)
    case Tx => st.(txCount := n)
  }

  /** The other direction. */
  function Other(d: Direction): Direction {
    if d == Rx then Tx else Rx
  }

  /** One packet counted in direction `d` (`rxCount++` or `txCount++`) followed by
      updateStats, as each pump does per packet. */
  function Count(st: Stats, d: Direction, now: u32): Stats {
    UpdateStats(WithCounter(st, d, Add32(Counter(st, d), 1)), now)
  }

  /** The receive pump's per-packet accounting. */
  function CountRx(st: Stats, now: u32): Stats {
    Count(st, Rx, now)
  }

  /** The transmit pump's per-packet accounting. */
  function CountTx(st: Stats, now: u32): Stats {
    Count(st, Tx, now)
  }

  /** The statistics after one packet is counted in direction `d` at each tick of `ticks`. */
  function CountAt(st: Stats, d: Direction, ticks: seq<u32>): Stats
    decreases |ticks|
  {
    if ticks == [] then st else CountAt(Count(st, d, ticks[0]), d, ticks[1..])
  }

  /** Counting over two runs of ticks is counting over the first, then over the second. */
  lemma {:induction false} CountAtAppend(st: Stats, d: Direction, a: seq<u32>, b: seq<u32>)
    ensures CountAt(st, d, a + b) == CountAt(CountAt(st, d, a), d, b)
    decreases |a|
  {
    if a != [] {
      assert (a + b)[0] == a[0] && (a + b)[1..] == a[1..] + b;
      CountAtAppend(Count(st, d, a[0]), d, a[1..], b);
    } else {
      assert a + b == b;
    }
  }

  /** Packets counted up to the deadline only accumulate in their own direction's counter:
      nothing is sampled or cleared and the other counter is untouched. */
  lemma {:induction false} CountingBeforeDeadline(st: Stats, d: Direction, ticks: seq<u32>)
    requires forall i | 0 <= i < |ticks| :: ticks[i] <= st.nextStatisticsTime
    requires Counter(st, d) + |ticks| < U32Limit
    ensures CountAt(st, d, ticks) == WithCounter(st, d, Counter(st, d) + |ticks|)
    decreases |ticks|
  {
    if ticks != [] {
      var st' := Count(st, d, ticks[0]);
      assert st' == WithCounter(st, d, Counter(st, d) + 1);
      CountingBeforeDeadline(st', d, ticks[1..]);
      assert WithCounter(st', d, Counter(st', d) + |ticks[1..]|)
          == WithCounter(st, d, Counter(st, d) + |ticks|);
    }
  }

  /** Packets counted in one direction from a cleared counter at the ticks `ticks`, all at
      or before the deadline except the last, which passes it: the sample that packet
      triggers reports all of them, the triggering one included, over the ticks since the
      previous sample; it reports the other direction's counter as it stood; and both
      counters restart from zero. */
  lemma SampleReportsIntervalCount(st: Stats, d: Direction, ticks: seq<u32>)
    requires Counter(st, d) == 0
    requires 0 < |ticks| < U32Limit
    requires forall i | 0 <= i < |ticks| - 1 :: ticks[i] <= st.nextStatisticsTime
    requires st.previousStatisticsTime <= st.nextStatisticsTime < ticks[|ticks| - 1]
    ensures var r := CountAt(st, d, ticks);
            && SampleCount(r.lastSample, d) == |ticks|
            && SampleCount(r.lastSample, Other(d)) == Counter(st, Other(d))
            && r.lastSample.interval == ticks[|ticks| - 1] - st.previousStatisticsTime
            && r.rxCount == 0 && r.txCount == 0
            && r.previousStatisticsTime == ticks[|ticks| - 1]
  {
    var init, last := ticks[..|ticks| - 1], ticks[|ticks| - 1];
    assert ticks == init + [last];
    CountAtAppend(st, d, init, [last]);
    CountingBeforeDeadline(st, d, init);
    var mid := CountAt(st, d, init);
    assert [last][1..] == [];
    assert CountAt(st, d, ticks) == Count(mid, d, last);
  }

  /** The next deadline is `now + 500` in uint32_t: a sample taken within 500 ticks of the
      counter wrapping sets a deadline that has already passed, so the very next tick samples
      again, over an interval of one tick, and a second packet counted in the same tick
      samples again at once, over an interval of zero ticks. */
  lemma DeadlineWrapResamples(st: Stats, now: u32)
    requires now > st.nextStatisticsTime
    requires U32Limit - StatsInterval <= now < U32Limit - 1
    ensures UpdateStats(st, now).nextStatisticsTime < now
    ensures UpdateStats(UpdateStats(st, now), now + 1).lastSample.interval == 1
    ensures UpdateStats(UpdateStats(st, now), now).lastSample.interval == 0
  {
  }
}
