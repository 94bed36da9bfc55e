/**
 * A byte sent by `put` on one device and received by `get` on another with
 * the same configuration: the receiver's Rx line is the transmitter's Tx
 * pin.  Where `one_half_delay` does not wrap, `get` returns the byte `put`
 * sent, whenever the receiver starts waiting no later than the start bit.
 */
module RoundTrip {
  import opened UartMath
  import opened Timing
  import opened Avr
  import opened DelayPlan
  import opened Transmit
  import opened Receive
  import opened Soft

  /** Bit `pin` of the Tx port as a line: one level change per port write. */
  function TxLine(writes: seq<PortWrite>, pin: nat): (line: Line)
    requires pin < 8
    ensures |line| == |writes|
  {
    seq(|writes|, j requires 0 <= j < |writes| => Edge(writes[j].at, BitOf(writes[j].value, pin)))
  }

  /** The changes of a line come at strictly increasing cycles. */
  ghost predicate Ascending(line: Line)
  {
    forall i, j :: 0 <= i < j < |line| ==> line[i].at < line[j].at
  }

  /** Between change j and the next one, a line is at the level of change j. */
  lemma {:induction false} LevelBetween(line: Line, j: nat, t: nat)
    requires Ascending(line) && j < |line|
    requires line[j].at <= t && (j + 1 < |line| ==> t < line[j + 1].at)
    ensures Level(line, t) == line[j].high
    decreases |line|
  {
    var n := |line|;
    if j < n - 1 {
      var prefix := line[..n - 1];
      assert line[j + 1].at <= line[n - 1].at;
      assert prefix[j] == line[j];
      assert j + 1 < |prefix| ==> prefix[j + 1] == line[j + 1];
      LevelBetween(prefix, j, t);
    }
  }

  /** Before its first change a line idles high. */
  lemma {:induction false} LevelBefore(line: Line, t: nat)
    requires Ascending(line) && (|line| == 0 || t < line[0].at)
    ensures Level(line, t)
    decreases |line|
  {
    var n := |line|;
    if n > 0 {
      var prefix := line[..n - 1];
      assert line[0].at <= line[n - 1].at;
      assert |prefix| > 0 ==> prefix[0] == line[0];
      LevelBefore(prefix, t);
    }
  }

  /** The writes of `put` come one period apart, so the Tx line they make is ascending. */
  lemma FrameLineAscends(port: bv8, mask: bv8, pin: nat, data: bv8, t0: nat, period: nat)
    requires pin < 8 && period > 0
    ensures Ascending(TxLine(FrameWrites(port, mask, data, t0, period), pin))
  {
    var line := TxLine(FrameWrites(port, mask, data, t0, period), pin);
    forall i, j | 0 <= i < j < |line| ensures line[i].at < line[j].at {
      assert j * period == i * period + (j - i) * period;
      MulMonotone(period, 1, j - i);
    }
  }

  /**
   * The Tx line of `put` carries level k of the frame from write k until write
   * k + 1 (the stop bit from write 9 on), and idles high before write 0.
   */
  lemma FrameLevels(port: bv8, mask: bv8, pin: nat, data: bv8, t0: nat, period: nat, k: nat, t: nat)
    requires pin < 8 && BitOf(mask, pin) && period > 0 && k < 10
    requires t0 + 6 + k * period <= t && (k < 9 ==> t < t0 + 6 + (k + 1) * period)
    ensures Level(TxLine(FrameWrites(port, mask, data, t0, period), pin), t) == Frame(data)[k]
  {
    FrameLineAscends(port, mask, pin, data, t0, period);
    FrameWritesTiming(port, mask, data, t0, period);
    LevelBetween(TxLine(FrameWrites(port, mask, data, t0, period), pin), k, t);
  }

  /** A line idle before s and low for one period from s is seen low within a period of s. */
  lemma {:induction false} PollFinds(line: Line, t: nat, period: nat, s: nat)
    requires period > 0 && t <= s
    requires forall u :: t <= u < s ==> Level(line, u)
    requires forall u :: s <= u < s + period ==> !Level(line, u)
    ensures PollUntil(line, t, period, false).Some?
    ensures s <= PollUntil(line, t, period, false).value < s + period
    decreases s - t
  {
    if Level(line, t) {
      assert t < s;
      if t > Horizon(line) {
        LevelSettles(line, t, s);
        assert false;
      }
      if t + period <= s {
        PollFinds(line, t + period, period, s);
      } else {
        assert !Level(line, t + period);
      }
    }
  }

  /** The sample times of `get`, k periods after the first, fall in data bit k. */
  lemma SampleInBit(s: nat, te: nat, h: nat, c: nat, k: nat)
    requires s <= te < s + 3 && c <= h + 4 && h + 7 <= 2 * c
    ensures s + (k + 1) * c <= te + 4 + h + k * c < s + (k + 2) * c
  {
    assert (k + 1) * c == k * c + c;
    assert (k + 2) * c == k * c + 2 * c;
  }

  /** The receiver, waiting from r0 <= the start bit, sees it low within one polling turn. */
  lemma SeesStartBit(port: bv8, mask: bv8, pin: nat, data: bv8, t0: nat, c: nat, r0: nat)
    requires pin < 8 && BitOf(mask, pin) && c >= PollPeriod && r0 <= t0 + 6
    ensures var te := PollUntil(TxLine(FrameWrites(port, mask, data, t0, c), pin), r0, PollPeriod, false);
      te.Some? && t0 + 6 <= te.value < t0 + 6 + PollPeriod
  {
    var line := TxLine(FrameWrites(port, mask, data, t0, c), pin);
    var s := t0 + 6;
    FrameLineAscends(port, mask, pin, data, t0, c);
    forall u | r0 <= u < s ensures Level(line, u) {
      LevelBefore(line, u);
    }
    forall u | s <= u < s + PollPeriod ensures !Level(line, u) {
      FrameLevels(port, mask, pin, data, t0, c, 0, u);
    }
    PollFinds(line, r0, PollPeriod, s);
  }

  /** Sampling from te + 4 + h every c cycles reads the eight data bits of the frame. */
  lemma SamplesAreData(port: bv8, mask: bv8, pin: nat, data: bv8, t0: nat, c: nat, h: nat, te: nat)
    requires pin < 8 && BitOf(mask, pin) && c > 0
    requires t0 + 6 <= te < t0 + 6 + 3 && c <= h + 4 && h + 7 <= 2 * c
    ensures Samples(TxLine(FrameWrites(port, mask, data, t0, c), pin), te + 4 + h, c, 8) == Bits(data)
  {
    var line := TxLine(FrameWrites(port, mask, data, t0, c), pin);
    var samples := Samples(line, te + 4 + h, c, 8);
    forall k | 0 <= k < 8 ensures samples[k] == Bits(data)[k] {
      SampleAt(line, te + 4 + h, c, 8, k);
      SampleInBit(t0 + 6, te, h, c, k);
      FrameLevels(port, mask, pin, data, t0, c, k + 1, te + 4 + h + k * c);
    }
  }

  /**
   * `put` with bit period c, then `get` with padding whose period is c and
   * whose half-bit offset h keeps the window: `get` returns the byte sent.
   */
  lemma PutThenGetWith(port: bv8, mask: bv8, pin: nat, data: bv8, t0: nat, r0: nat,
                       plan: GetPlan, c: nat, h: nat)
    requires pin < 8 && BitOf(mask, pin) && r0 <= t0 + 6
    requires 6 + Cost(plan.perBit) == c && Cost(plan.half) == h
    requires c <= h + 4 && h + 7 <= 2 * c
    ensures var r := GetResult(TxLine(FrameWrites(port, mask, data, t0, c), pin), r0, plan);
      r.Some? && r.value.byte == data
  {
    var line := TxLine(FrameWrites(port, mask, data, t0, c), pin);
    SeesStartBit(port, mask, pin, data, t0, c, r0);
    var te := PollUntil(line, r0, PollPeriod, false).value;
    SamplesAreData(port, mask, pin, data, t0, c, h, te);
    GetDecodes(line, r0, plan, data, te);
  }

  /**
   * `put` then `get`: on one configuration where `one_half_delay` does not
   * wrap, a receiver that starts waiting no later than the start bit returns
   * the byte the transmitter sent.
   */
  lemma PutThenGet(clk: uint32, baud: uint32, port: bv8, mask: bv8, pin: nat, data: bv8, t0: nat, r0: nat)
    requires GetAccepted(clk, baud) && 3 * clk - 8 * baud < 511 * baud
    requires pin < 8 && BitOf(mask, pin)
    requires r0 <= t0 + 6
    ensures var line := TxLine(FrameWrites(port, mask, data, t0, CyclesRequired(clk, baud).value), pin);
      var r := GetResult(line, r0, GetPlanFor(clk, baud));
      r.Some? && r.value.byte == data
  {
    OneHalfDelayWindow(clk, baud);
    GetHalfIsExact(clk, baud);
    PutThenGetWith(port, mask, pin, data, t0, r0, GetPlanFor(clk, baud),
                   CyclesRequired(clk, baud).value, OneHalfDelay(clk, baud).value);
  }
}
