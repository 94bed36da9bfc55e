/**
 * Consecutive `put` calls on one device received by `get_bytes<n>` on
 * another with the same configuration.  Each `put` returns
 * 10 * cycles_required + 2 cycles after it starts, and the next may start
 * any time after that.  The receiver starts its first polling turn no later
 * than the first start bit.  Then, where `one_half_delay` does not wrap,
 * `get_bytes` stores exactly the bytes sent, in order.  Keeping up with
 * frames sent back to back takes 2 * cycles_required >= one_half_delay + 11.
 * That is what `cycles_required >= 16` buys.
 */
module BurstRoundTrip {
  import opened UartMath
  import opened Timing
  import opened Avr
  import opened DelayPlan
  import opened BurstPlan
  import opened Transmit
  import opened Receive
  import opened Burst
  import opened Soft
  import opened RoundTrip

  // ---------------------------------------------------------------------------
  // The Tx line of several `put` calls

  /** The writes of consecutive `put` calls, call i starting at cycle starts[i] and sending data[i]. */
  function PutsWrites(port: bv8, mask: bv8, data: seq<bv8>, starts: seq<nat>, period: nat): (w: seq<PortWrite>)
    requires |data| == |starts|
    ensures |w| == 10 * |data|
    decreases |data|
  {
    if |data| == 0 then []
    else FrameWrites(port, mask, data[0], starts[0], period) + PutsWrites(port, mask, data[1..], starts[1..], period)
  }

  /** One more `put` call appends its frame's writes: the trace `SoftUart.Put` extends. */
  lemma {:induction false} PutsWritesSnoc(port: bv8, mask: bv8, data: seq<bv8>, starts: seq<nat>,
                                          d: bv8, t: nat, period: nat)
    requires |data| == |starts|
    ensures PutsWrites(port, mask, data + [d], starts + [t], period)
      == PutsWrites(port, mask, data, starts, period) + FrameWrites(port, mask, d, t, period)
    decreases |data|
  {
    if |data| == 0 {
      assert data + [d] == [d] && starts + [t] == [t];
      assert PutsWrites(port, mask, [], [], period) == [];
    } else {
      assert (data + [d])[1..] == data[1..] + [d];
      assert (starts + [t])[1..] == starts[1..] + [t];
      PutsWritesSnoc(port, mask, data[1..], starts[1..], d, t, period);
    }
  }

  /** Each `put` starts no earlier than the previous one returned. */
  predicate Spaced(starts: seq<nat>, period: nat)
  {
    forall i :: 0 <= i < |starts| - 1 ==> starts[i] + 10 * period + 2 <= starts[i + 1]
  }

  /** A later `put` starts no earlier than an earlier one. */
  lemma {:induction false} SpacedMonotone(starts: seq<nat>, period: nat, i: nat, j: nat)
    requires Spaced(starts, period) && i <= j < |starts|
    ensures starts[i] <= starts[j]
    decreases j - i
  {
    if i < j {
      SpacedMonotone(starts, period, i + 1, j);
    }
  }

  /** Every write of the calls comes at or after the first start bit. */
  lemma {:induction false} PutsWritesAfter(port: bv8, mask: bv8, data: seq<bv8>, starts: seq<nat>, period: nat)
    requires |data| == |starts| && |data| > 0 && Spaced(starts, period)
    ensures forall m :: 0 <= m < 10 * |data| ==>
      starts[0] + 6 <= PutsWrites(port, mask, data, starts, period)[m].at
    decreases |data|
  {
    var first := FrameWrites(port, mask, data[0], starts[0], period);
    var w := PutsWrites(port, mask, data, starts, period);
    if |data| > 1 {
      var rest := PutsWrites(port, mask, data[1..], starts[1..], period);
      assert Spaced(starts[1..], period);
      PutsWritesAfter(port, mask, data[1..], starts[1..], period);
      assert starts[0] <= starts[1];
      forall m | 10 <= m < 10 * |data| ensures starts[0] + 6 <= w[m].at {
        assert w[m] == rest[m - 10];
      }
    }
    forall m | 0 <= m < 10 ensures starts[0] + 6 <= w[m].at {
      assert w[m] == first[m];
    }
  }

  /** The Tx line of appended writes is the lines of the two parts appended. */
  lemma TxLineAppend(a: seq<PortWrite>, b: seq<PortWrite>, pin: nat)
    requires pin < 8
    ensures TxLine(a + b, pin) == TxLine(a, pin) + TxLine(b, pin)
  {
    var whole := TxLine(a + b, pin);
    forall m | 0 <= m < |whole| ensures whole[m] == (TxLine(a, pin) + TxLine(b, pin))[m] {
      if m < |a| {
        assert (a + b)[m] == a[m];
      } else {
        assert (a + b)[m] == b[m - |a|];
      }
    }
  }

  /** Changes before a list whose first change is at or before t do not decide the level at t. */
  lemma {:induction false} LevelOfSuffix(before: Line, line: Line, t: nat)
    requires |line| > 0 && line[0].at <= t
    ensures Level(before + line, t) == Level(line, t)
    decreases |line|
  {
    var whole := before + line;
    var n := |line|;
    assert whole[|whole| - 1] == line[n - 1];
    if line[n - 1].at > t {
      assert n > 1;
      assert whole[..|whole| - 1] == before + line[..n - 1];
      assert line[..n - 1][0] == line[0];
      LevelOfSuffix(before, line[..n - 1], t);
    }
  }

  /** The line of the calls is the line of the first call followed by that of the others. */
  lemma PutsLineSplit(port: bv8, mask: bv8, pin: nat, data: seq<bv8>, starts: seq<nat>, period: nat)
    requires pin < 8 && |data| == |starts| && |data| > 0
    ensures TxLine(PutsWrites(port, mask, data, starts, period), pin)
      == TxLine(FrameWrites(port, mask, data[0], starts[0], period), pin)
         + TxLine(PutsWrites(port, mask, data[1..], starts[1..], period), pin)
  {
    TxLineAppend(FrameWrites(port, mask, data[0], starts[0], period),
                 PutsWrites(port, mask, data[1..], starts[1..], period), pin);
  }

  /** Every change of the line of the calls comes after a cycle t before the first start bit. */
  lemma PutsLineAfter(port: bv8, mask: bv8, pin: nat, data: seq<bv8>, starts: seq<nat>, period: nat, t: nat)
    requires pin < 8 && |data| == |starts| && |data| > 0 && Spaced(starts, period)
    requires t < starts[0] + 6
    ensures forall m :: 0 <= m < |TxLine(PutsWrites(port, mask, data, starts, period), pin)| ==>
      TxLine(PutsWrites(port, mask, data, starts, period), pin)[m].at > t
  {
    PutsWritesAfter(port, mask, data, starts, period);
  }

  /** The first change of the line of the calls is the first start bit. */
  lemma PutsLineFirst(port: bv8, mask: bv8, pin: nat, data: seq<bv8>, starts: seq<nat>, period: nat)
    requires pin < 8 && |data| == |starts| && |data| > 0
    ensures |TxLine(PutsWrites(port, mask, data, starts, period), pin)| > 0
    ensures TxLine(PutsWrites(port, mask, data, starts, period), pin)[0].at == starts[0] + 6
  {
    var w := PutsWrites(port, mask, data, starts, period);
    assert w[0] == FrameWrites(port, mask, data[0], starts[0], period)[0];
  }

  /** Before the first start bit the line idles high. */
  lemma PutsLineIdle(port: bv8, mask: bv8, pin: nat, data: seq<bv8>, starts: seq<nat>, period: nat, t: nat)
    requires pin < 8 && |data| == |starts| && |data| > 0 && Spaced(starts, period)
    requires t < starts[0] + 6
    ensures Level(TxLine(PutsWrites(port, mask, data, starts, period), pin), t)
  {
    var line := TxLine(PutsWrites(port, mask, data, starts, period), pin);
    PutsLineAfter(port, mask, pin, data, starts, period, t);
    LevelOfPrefix([], line, t);
    assert [] + line == line;
  }

  /** Within the first call's frame, until the second call's start bit, the later calls do not matter. */
  lemma PutsLevelFirst(port: bv8, mask: bv8, pin: nat, data: seq<bv8>, starts: seq<nat>,
                       period: nat, k: nat, t: nat)
    requires pin < 8 && BitOf(mask, pin) && period > 0
    requires |data| == |starts| && Spaced(starts, period) && 0 < |data| && k < 10
    requires starts[0] + 6 + k * period <= t
    requires k < 9 ==> t < starts[0] + 6 + (k + 1) * period
    requires 1 < |data| ==> t < starts[1] + 6
    ensures Level(TxLine(PutsWrites(port, mask, data, starts, period), pin), t) == Frame(data[0])[k]
  {
    var first := TxLine(FrameWrites(port, mask, data[0], starts[0], period), pin);
    var rest := TxLine(PutsWrites(port, mask, data[1..], starts[1..], period), pin);
    PutsLineSplit(port, mask, pin, data, starts, period);
    if |data| > 1 {
      assert Spaced(starts[1..], period);
      PutsLineAfter(port, mask, pin, data[1..], starts[1..], period, t);
    }
    LevelOfPrefix(first, rest, t);
    FrameLevels(port, mask, pin, data[0], starts[0], period, k, t);
  }

  /** After the second call's start bit, the first call does not matter. */
  lemma PutsLevelLater(port: bv8, mask: bv8, pin: nat, data: seq<bv8>, starts: seq<nat>, period: nat, t: nat)
    requires pin < 8 && |data| == |starts| && 1 < |data|
    requires starts[1] + 6 <= t
    ensures Level(TxLine(PutsWrites(port, mask, data, starts, period), pin), t)
      == Level(TxLine(PutsWrites(port, mask, data[1..], starts[1..], period), pin), t)
  {
    var first := TxLine(FrameWrites(port, mask, data[0], starts[0], period), pin);
    var rest := TxLine(PutsWrites(port, mask, data[1..], starts[1..], period), pin);
    PutsLineSplit(port, mask, pin, data, starts, period);
    PutsLineFirst(port, mask, pin, data[1..], starts[1..], period);
    LevelOfSuffix(first, rest, t);
  }

  /**
   * The line of several `put` calls carries level k of frame i from write k
   * of call i until the next write (the stop bit until the next call's start bit).
   */
  lemma {:induction false} PutsLevel(port: bv8, mask: bv8, pin: nat, data: seq<bv8>, starts: seq<nat>,
                                     period: nat, i: nat, k: nat, t: nat)
    requires pin < 8 && BitOf(mask, pin) && period > 0
    requires |data| == |starts| && Spaced(starts, period) && i < |data| && k < 10
    requires starts[i] + 6 + k * period <= t
    requires k < 9 ==> t < starts[i] + 6 + (k + 1) * period
    requires i + 1 < |data| ==> t < starts[i + 1] + 6
    ensures Level(TxLine(PutsWrites(port, mask, data, starts, period), pin), t) == Frame(data[i])[k]
    decreases i
  {
    if i == 0 {
      PutsLevelFirst(port, mask, pin, data, starts, period, k, t);
    } else {
      SpacedMonotone(starts, period, 1, i);
      PutsLevelLater(port, mask, pin, data, starts, period, t);
      assert Spaced(starts[1..], period);
      PutsLevel(port, mask, pin, data[1..], starts[1..], period, i - 1, k, t);
    }
  }

  // ---------------------------------------------------------------------------
  // The receiving loop keeps up

  /**
   * Frame j's start bit is at s = starts[j] + 6.  With c <= h + 3 and
   * h + 11 <= 2c, a bit loop of that frame starting at i0, with
   * s + 2 + h <= i0 <= s + 5 + h, takes sample k inside data bit k.  It
   * starts waiting for the next start bit after its own stop bit began, and
   * no later than 10c + 2 cycles after s, which is before the next call's
   * start bit.
   */
  lemma BurstTiming(s: nat, h: nat, c: nat, i0: nat, k: nat)
    requires s + 2 + h <= i0 <= s + 5 + h
    requires c <= h + 3 && h + 11 <= 2 * c
    ensures s + (k + 1) * c <= i0 + 1 + k * c < s + (k + 2) * c
    ensures s + 9 * c <= i0 + 8 * c + 8 <= s + 10 * c + 2
  {
    assert (k + 1) * c == k * c + c;
    assert (k + 2) * c == k * c + 2 * c;
  }

  /** A bit loop of frame j whose first sample is at `first`, inside the window, reads byte j. */
  ghost predicate SamplesRead(line: Line, data: seq<bv8>, starts: seq<nat>, c: nat, h: nat)
  {
    |data| == |starts| &&
    forall j, first :: 0 <= j < |data| && starts[j] + 9 + h <= first <= starts[j] + 12 + h ==>
      Pack(Samples(line, first, c, 8)) == data[j]
  }

  /** The wait that a bit loop of frame j in the window starts at `from` sees the next start bit within a turn. */
  ghost predicate EdgesFound(line: Line, starts: seq<nat>, c: nat, h: nat)
  {
    forall j, from :: 0 <= j < |starts| - 1 && starts[j] + 16 + h + 8 * c <= from <= starts[j] + 19 + h + 8 * c ==>
      PollUntil(line, from, PollPeriod, false).Some?
      && starts[j + 1] + 6 <= PollUntil(line, from, PollPeriod, false).value < starts[j + 1] + 9
  }

  /** The eight samples of a bit loop of frame j read its data bits. */
  lemma FrameSamples(port: bv8, mask: bv8, pin: nat, data: seq<bv8>, starts: seq<nat>,
                     c: nat, h: nat, j: nat, first: nat)
    requires pin < 8 && BitOf(mask, pin) && c > 0
    requires |data| == |starts| && Spaced(starts, c) && j < |data|
    requires starts[j] + 9 + h <= first <= starts[j] + 12 + h
    requires c <= h + 3 && h + 11 <= 2 * c
    ensures Pack(Samples(TxLine(PutsWrites(port, mask, data, starts, c), pin), first, c, 8)) == data[j]
  {
    var line := TxLine(PutsWrites(port, mask, data, starts, c), pin);
    var samples := Samples(line, first, c, 8);
    forall k | 0 <= k < 8 ensures samples[k] == Bits(data[j])[k] {
      SampleAt(line, first, c, 8, k);
      BurstTiming(starts[j] + 6, h, c, first - 1, k);
      assert k * c <= 7 * c by { MulMonotone(c, k, 7); }
      PutsLevel(port, mask, pin, data, starts, c, j, k + 1, first + k * c);
    }
    assert samples == Bits(data[j]);
    PackOfBits(data[j]);
  }

  /** After a frame, the loop's wait for the next start bit ends within a polling turn of it. */
  lemma NextStartBit(port: bv8, mask: bv8, pin: nat, data: seq<bv8>, starts: seq<nat>,
                     c: nat, h: nat, j: nat, from: nat)
    requires pin < 8 && BitOf(mask, pin) && c >= PollPeriod
    requires |data| == |starts| && Spaced(starts, c) && j + 1 < |data|
    requires starts[j] + 16 + h + 8 * c <= from <= starts[j] + 19 + h + 8 * c
    requires c <= h + 3 && h + 11 <= 2 * c
    ensures var next := PollUntil(TxLine(PutsWrites(port, mask, data, starts, c), pin), from, PollPeriod, false);
      next.Some? && starts[j + 1] + 6 <= next.value < starts[j + 1] + 9
  {
    var line := TxLine(PutsWrites(port, mask, data, starts, c), pin);
    var s' := starts[j + 1] + 6;
    BurstTiming(starts[j] + 6, h, c, from - 8 * c - 8, 0);
    forall u | from <= u < s' ensures Level(line, u) {
      PutsLevel(port, mask, pin, data, starts, c, j, 9, u);
    }
    forall u | s' <= u < s' + PollPeriod ensures !Level(line, u) {
      if j + 2 < |data| {
        assert starts[j + 1] + 10 * c + 2 <= starts[j + 2];
      }
      PutsLevel(port, mask, pin, data, starts, c, j + 1, 0, u);
    }
    PollFinds(line, from, PollPeriod, s');
  }

  /** The line of consecutive `put` calls is read frame by frame and each next start bit is found. */
  lemma PutsRead(port: bv8, mask: bv8, pin: nat, data: seq<bv8>, starts: seq<nat>, c: nat, h: nat)
    requires pin < 8 && BitOf(mask, pin) && c >= PollPeriod
    requires |data| == |starts| && Spaced(starts, c)
    requires c <= h + 3 && h + 11 <= 2 * c
    ensures SamplesRead(TxLine(PutsWrites(port, mask, data, starts, c), pin), data, starts, c, h)
    ensures EdgesFound(TxLine(PutsWrites(port, mask, data, starts, c), pin), starts, c, h)
  {
    var line := TxLine(PutsWrites(port, mask, data, starts, c), pin);
    forall j, first | 0 <= j < |data| && starts[j] + 9 + h <= first <= starts[j] + 12 + h
      ensures Pack(Samples(line, first, c, 8)) == data[j]
    {
      FrameSamples(port, mask, pin, data, starts, c, h, j, first);
    }
    forall j, from | 0 <= j < |starts| - 1 && starts[j] + 16 + h + 8 * c <= from <= starts[j] + 19 + h + 8 * c
      ensures PollUntil(line, from, PollPeriod, false).Some?
      ensures starts[j + 1] + 6 <= PollUntil(line, from, PollPeriod, false).value < starts[j + 1] + 9
    {
      NextStartBit(port, mask, pin, data, starts, c, h, j, from);
    }
  }

  /** The last frame of a burst: its byte, and the burst ends. */
  lemma ReadLast(line: Line, i0: nat, after: nat, period: nat, data: seq<bv8>, j: nat)
    requires j + 1 == |data|
    requires Pack(Samples(line, i0 + 1, period, 8)) == data[j]
    ensures BurstFrom(line, i0, 1, after, period).bytes == data[j..]
    ensures BurstFrom(line, i0, 1, after, period).finish.Some?
  {
    assert [data[j]] == data[j..];
  }

  /** A frame followed by others: its byte, then the burst from the next start bit. */
  lemma ReadNext(line: Line, i0: nat, count: nat, after: nat, period: nat, te: nat, data: seq<bv8>, j: nat)
    requires count >= 2 && j + 1 < |data|
    requires PollUntil(line, i0 + 8 * period + 8, PollPeriod, false) == Some(te)
    requires Pack(Samples(line, i0 + 1, period, 8)) == data[j]
    requires BurstFrom(line, te + 8 + after, count - 1, after, period).bytes == data[j + 1..]
    requires BurstFrom(line, te + 8 + after, count - 1, after, period).finish.Some?
    ensures BurstFrom(line, i0, count, after, period).bytes == data[j..]
    ensures BurstFrom(line, i0, count, after, period).finish.Some?
  {
    assert i0 + 8 * period + 6 + 2 == i0 + 8 * period + 8;
    assert [data[j]] + data[j + 1..] == data[j..];
  }

  /**
   * From a bit loop of frame j that starts inside the window on, on a line
   * read frame by frame, the burst decodes every remaining frame and ends:
   * the inter-frame padding is h - 6, so each later bit loop starts two
   * cycles after its edge + h, inside the window again.
   */
  lemma {:induction false} BurstReads(line: Line, data: seq<bv8>, starts: seq<nat>, c: nat, h: nat,
                                      after: nat, period: nat, count: nat, j: nat, i0: nat)
    requires SamplesRead(line, data, starts, c, h) && EdgesFound(line, starts, c, h)
    requires j < |data| && count == |data| - j
    requires starts[j] + 8 + h <= i0 <= starts[j] + 11 + h
    requires after + 6 == h && period == c
    ensures BurstFrom(line, i0, count, after, period).bytes == data[j..]
    ensures BurstFrom(line, i0, count, after, period).finish.Some?
    decreases count
  {
    assert Pack(Samples(line, i0 + 1, period, 8)) == data[j];
    if j + 1 < |data| {
      var from := i0 + 8 * period + 8;
      assert PollUntil(line, from, PollPeriod, false).Some?;
      var te := PollUntil(line, from, PollPeriod, false).value;
      assert starts[j + 1] + 6 <= te < starts[j + 1] + 9;
      BurstReads(line, data, starts, c, h, after, period, count - 1, j + 1, te + 8 + after);
      ReadNext(line, i0, count, after, period, te, data, j);
    } else {
      ReadLast(line, i0, after, period, data, j);
    }
  }

  /** get_bytes keeps up with back-to-back frames: c <= h + 3 and h + 11 <= 2c. */
  lemma BurstWindow(clk: uint32, baud: uint32)
    requires GetBytesAccepted(clk, baud)
    requires 3 * clk - 8 * baud < 511 * baud
    ensures var c, h := CyclesRequired(clk, baud).value, OneHalfDelay(clk, baud).value;
      c <= h + 3 && h + 11 <= 2 * c && h >= 6
  {
    CyclesRequiredIsNearest(clk, baud);
    OneHalfDelayIsHalfUp(clk, baud);
    var c: int := CyclesRequired(clk, baud).value;
    var h: int := OneHalfDelay(clk, baud).value;
    assert 2 * (2 * baud) * h - 2 * baud <= 2 * (3 * clk - 8 * baud);
    assert 2 * (3 * clk - 8 * baud) < 2 * (2 * baud) * h + 2 * baud;
    BurstWindowArithmetic(baud, c, clk, h);
  }

  /**
   * c is the nearest integer to clk/baud and h the nearest integer to
   * 1.5 * clk/baud - 4; then c - 3 <= h <= 2c - 11 once c >= 16.
   */
  lemma BurstWindowArithmetic(baud: int, c: int, clk: int, h: int)
    requires baud > 0 && c >= 16
    requires 2 * baud * c - baud <= 2 * clk < 2 * baud * c + baud
    requires 2 * (2 * baud) * h - 2 * baud <= 2 * (3 * clk - 8 * baud) < 2 * (2 * baud) * h + 2 * baud
    ensures c <= h + 3 && h + 11 <= 2 * c && h >= 6
  {
    assert baud * (6 * c - 21) < baud * (4 * h);
    MulCancelLess(baud, 6 * c - 21, 4 * h);
    assert baud * (4 * h) < baud * (6 * c - 11);
    MulCancelLess(baud, 4 * h, 6 * c - 11);
  }

  /** A receiver polling from r0 <= the first start bit sees it low within one polling turn. */
  lemma SeesFirstStartBit(port: bv8, mask: bv8, pin: nat, data: seq<bv8>, starts: seq<nat>, c: nat, r0: nat)
    requires pin < 8 && BitOf(mask, pin) && c >= PollPeriod
    requires |data| == |starts| && Spaced(starts, c) && 0 < |data|
    requires r0 <= starts[0] + 6
    ensures var te := PollUntil(TxLine(PutsWrites(port, mask, data, starts, c), pin), r0, PollPeriod, false);
      te.Some? && starts[0] + 6 <= te.value < starts[0] + 9
  {
    var line := TxLine(PutsWrites(port, mask, data, starts, c), pin);
    forall u | r0 <= u < starts[0] + 6 ensures Level(line, u) {
      PutsLineIdle(port, mask, pin, data, starts, c, u);
    }
    forall u | starts[0] + 6 <= u < starts[0] + 6 + PollPeriod ensures !Level(line, u) {
      if 1 < |data| {
        assert starts[0] + 10 * c + 2 <= starts[1];
      }
      PutsLevel(port, mask, pin, data, starts, c, 0, 0, u);
    }
    PollFinds(line, r0, PollPeriod, starts[0] + 6);
  }

  /** The burst of `get_bytes` once its first start bit is seen at te: its bit loop starts at `start`. */
  lemma BurstResultFrom(line: Line, r0: nat, plan: BurstPlan, n: uint8, te: nat, start: nat, bytes: seq<bv8>)
    requires n >= 1
    requires PollUntil(line, r0 + 1, PollPeriod, false) == Some(te)
    requires start == te + 3 + Cost(plan.half)
    requires BurstFrom(line, start, n, Cost(plan.after), 8 + Cost(plan.perBit)).bytes == bytes
    requires BurstFrom(line, start, n, Cost(plan.after), 8 + Cost(plan.perBit)).finish.Some?
    ensures BurstResult(line, r0, n, plan).bytes == bytes && BurstResult(line, r0, n, plan).finish.Some?
  {
    StartAccount(line, r0, plan, n, te, start);
    assert [] + bytes == bytes;
  }

  /**
   * Consecutive `put` calls with bit period c, then `get_bytes` with padding
   * whose bit period is c and whose offsets are h and h - 6, where h keeps
   * the window: `get_bytes` returns every byte sent, in order, and ends.
   */
  lemma PutsThenGetBytesWith(port: bv8, mask: bv8, pin: nat, data: seq<bv8>, starts: seq<nat>, r0: nat,
                             plan: BurstPlan, c: nat, h: nat)
    requires pin < 8 && BitOf(mask, pin)
    requires 1 <= |data| < 256 && |starts| == |data| && Spaced(starts, c)
    requires r0 + 1 <= starts[0] + 6
    requires 8 + Cost(plan.perBit) == c && Cost(plan.half) == h && Cost(plan.after) == h - 6
    requires c <= h + 3 && h + 11 <= 2 * c && h >= 6
    ensures var o := BurstResult(TxLine(PutsWrites(port, mask, data, starts, c), pin), r0, |data| as uint8, plan);
      o.bytes == data && o.finish.Some?
  {
    var line := TxLine(PutsWrites(port, mask, data, starts, c), pin);
    SeesFirstStartBit(port, mask, pin, data, starts, c, r0 + 1);
    var te := PollUntil(line, r0 + 1, PollPeriod, false).value;
    var n: uint8 := |data|;
    var start := te + 3 + Cost(plan.half);
    PutsRead(port, mask, pin, data, starts, c, h);
    BurstReads(line, data, starts, c, h, Cost(plan.after), 8 + Cost(plan.perBit), n, 0, start);
    assert data[0..] == data;
    BurstResultFrom(line, r0, plan, n, te, start, data);
  }

  /**
   * `put` called once per byte of data, call i starting at starts[i], on a
   * configuration where `one_half_delay` does not wrap; `get_bytes<n>` on
   * the Rx line that is the Tx pin, polling first no later than the first
   * start bit, returns all n bytes in order and ends.
   */
  lemma PutsThenGetBytes(clk: uint32, baud: uint32, port: bv8, mask: bv8, pin: nat,
                         data: seq<bv8>, starts: seq<nat>, r0: nat)
    requires GetBytesAccepted(clk, baud) && 3 * clk - 8 * baud < 511 * baud
    requires pin < 8 && BitOf(mask, pin)
    requires 1 <= |data| < 256 && |starts| == |data|
    requires Spaced(starts, CyclesRequired(clk, baud).value)
    requires r0 + 1 <= starts[0] + 6
    ensures var line := TxLine(PutsWrites(port, mask, data, starts, CyclesRequired(clk, baud).value), pin);
      var o := BurstResult(line, r0, |data| as uint8, BurstPlanFor(clk, baud));
      o.bytes == data && o.finish.Some?
  {
    BurstWindow(clk, baud);
    BurstOffsetsAreExact(clk, baud);
    AfterFstBitIsOneHalfMinusSix(clk, baud);
    PutsThenGetBytesWith(port, mask, pin, data, starts, r0, BurstPlanFor(clk, baud),
                         CyclesRequired(clk, baud).value as nat, OneHalfDelay(clk, baud).value as nat);
  }
}
