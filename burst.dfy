/**
 * `get_bytes<N>` (include/avr/uart/soft.hpp lines 321-700) and the loop it
 * runs, `AVR_UART_GET_SEQ_ASM_TMPL` (include/avr/uart/detail/inline_asm.hpp
 * lines 45-74): N frames back to back into a `buffer_t<N>`.  Each frame
 * samples nine times; the first eight samples are rotated into the byte and
 * `breq 5f` leaves on the ninth.  Every byte but the last is stored by
 * `st X+` only once the next start bit has been seen.
 */
module Burst {
  import opened UartMath
  import opened Avr
  import opened DelayPlan
  import opened BurstPlan
  import opened Receive

  /**
   * `buffer_t<N>`: N bytes, `size == N`, `begin()` and `end()` N places
   * apart, and unchecked indexing.  `data` is `_data`.
   */
  class Buffer {
    const size: uint8
    const data: array<bv8>

    ghost predicate Valid()
      reads this
    {
      data.Length == size
    }

    /** The buffer `get_bytes` declares; its contents are not initialised. */
    constructor (n: uint8)
      ensures size == n && Valid() && fresh(data)
    {
      size := n;
      data := new bv8[n];
    }

    /** `begin()`, as an offset into `_data`. */
    function Begin(): (b: nat)
      ensures b == 0
    {
      0
    }

    /** `end()`, as an offset into `_data`: one past the last element. */
    function End(): (e: nat)
      reads this
      ensures e - Begin() == size
    {
      size as nat
    }

    /** `operator[]`: element i, for i below `size` (the source does not check). */
    function At(i: uint8): (b: bv8)
      reads this, data
      requires Valid() && i < size
      ensures b == data[..][i]
    {
      data[i]
    }
  }

  /** The bytes a burst decoded, in order, and the cycle it ends at (None: it waits forever). */
  datatype BurstOutcome = BurstOutcome(bytes: seq<bv8>, finish: Option<nat>)

  /** `prefix` received before an outcome. */
  function Join(prefix: seq<bv8>, o: BurstOutcome): (r: BurstOutcome)
    ensures r.finish == o.finish && |r.bytes| == |prefix| + |o.bytes|
  {
    BurstOutcome(prefix + o.bytes, o.finish)
  }

  /**
   * The burst from the top of a frame's bit loop (label `2` with `bits` = 9)
   * at cycle i0, with `count` frames left including this one, per-bit loop
   * period `period` and inter-frame padding cost `after`.  The byte is the
   * first eight samples; after the ninth the loop counts the frame down and
   * either ends (`st`) or polls for the next start bit from label `5` + 2.
   */
  function BurstFrom(line: Line, i0: nat, count: nat, after: nat, period: nat): (o: BurstOutcome)
    requires count >= 1
    ensures 1 <= |o.bytes| <= count
    ensures o.finish.Some? ==> |o.bytes| == count
    decreases count
  {
    var byte := Pack(Samples(line, i0 + 1, period, 8));
    var label5 := i0 + 8 * period + 6;
    if count == 1 then BurstOutcome([byte], Some(label5 + 5))
    else
      match PollUntil(line, label5 + 2, PollPeriod, false)
      case None => BurstOutcome([byte], None)
      case Some(te) => Join([byte], BurstFrom(line, te + 8 + after, count - 1, after, period))
  }

  /** The whole burst of `get_bytes<n>` with padding `plan`, started at cycle t0. */
  function BurstResult(line: Line, t0: nat, n: uint8, plan: BurstPlan): (o: BurstOutcome)
    requires n >= 1
    ensures |o.bytes| <= n
    ensures o.finish.Some? ==> |o.bytes| == n
  {
    match PollUntil(line, t0 + 1, PollPeriod, false)
    case None => BurstOutcome([], None)
    case Some(te) => BurstAfterEdge(line, te, n, plan)
  }

  /** The burst once the first start bit is seen at cycle te: it starts after the half-bit padding. */
  function BurstAfterEdge(line: Line, te: nat, n: nat, plan: BurstPlan): (o: BurstOutcome)
    requires n >= 1
  {
    BurstFrom(line, te + 3 + Cost(plan.half), n, Cost(plan.after), 8 + Cost(plan.perBit))
  }

  /**
   * What `get_bytes` has stored: every decoded byte when the burst ends, all
   * but the last when it waits forever for a start bit (that byte is stored
   * only after the next start bit).
   */
  function Stored(o: BurstOutcome): (s: seq<bv8>)
    ensures o.finish.Some? ==> s == o.bytes
    ensures o.finish.None? ==> |s| == if |o.bytes| == 0 then 0 else |o.bytes| - 1
    ensures s == o.bytes[..|s|]
  {
    if o.finish.Some? || |o.bytes| == 0 then o.bytes else o.bytes[..|o.bytes| - 1]
  }

  // ---------------------------------------------------------------------------
  // One frame: the bit loop from label `2` to label `5`

  /** The bit loop at the top of turn k, started at cycle i0 with register value byte0. */
  ghost predicate FrameInvariant(line: Line, i0: nat, period: nat, byte0: bv8, k: nat,
                                 byte: bv8, bits: uint8, now: nat)
  {
    k <= 8 && bits == 9 - k && now == i0 + k * period
    && Bits(byte) == Bits(byte0)[k..] + Samples(line, i0 + 1, period, k)
  }

  /** One more sample at the end of the sample sequence. */
  lemma SamplesSnoc(line: Line, first: nat, period: nat, k: nat)
    ensures Samples(line, first, period, k + 1)
            == Samples(line, first, period, k) + [Level(line, first + k * period)]
  {
  }

  /** Rotating x into a register holding a + b (a not empty) leaves a[1..] + (b + [x]). */
  lemma RotateInto(a: seq<bool>, b: seq<bool>, x: bool)
    requires |a| >= 1
    ensures (a + b)[1..] + [x] == a[1..] + (b + [x])
  {
    assert (a + b)[1..] == a[1..] + b;
  }

  /** Rotating sample k into the register moves the invariant on one turn. */
  lemma FrameStep(line: Line, i0: nat, period: nat, byte0: bv8, k: nat,
                  byte: bv8, bits: uint8, now: nat, byte': bv8, now': nat)
    requires k < 8 && period >= 8
    requires FrameInvariant(line, i0, period, byte0, k, byte, bits, now)
    requires byte' == RotateRight(byte, Level(line, now + 1)).0
    requires now' == now + period
    ensures FrameInvariant(line, i0, period, byte0, k + 1, byte', bits - 1, now')
  {
    var s := Samples(line, i0 + 1, period, k);
    var x := Level(line, i0 + 1 + k * period);
    SamplesSnoc(line, i0 + 1, period, k);
    RotateInto(Bits(byte0)[k..], s, x);
    assert Bits(byte0)[k..][1..] == Bits(byte0)[k + 1..];
    FrameStepTiming(i0, period, k, now, now');
  }

  lemma FrameStepTiming(i0: nat, period: nat, k: nat, now: nat, now': nat)
    requires now == i0 + k * period && now' == now + period
    ensures now' == i0 + (k + 1) * period
  {
    assert (k + 1) * period == k * period + period;
  }

  /** After eight rotations the register holds the eight samples, whatever it held before. */
  lemma FrameDone(line: Line, i0: nat, period: nat, byte0: bv8, byte: bv8, bits: uint8, now: nat)
    requires FrameInvariant(line, i0, period, byte0, 8, byte, bits, now)
    ensures byte == Pack(Samples(line, i0 + 1, period, 8))
    ensures now == i0 + 8 * period
  {
    assert Bits(byte0)[8..] == [];
    assert Bits(byte) == Samples(line, i0 + 1, period, 8);
    PackOfBits(byte);
  }

  /**
   * One turn from label `2`: `clc`, `sbic`/`sec`, `dec bits`, `breq 5f`; when
   * the branch is not taken, `ror`, the per-bit padding and `rjmp 2b`.  The
   * sample is taken one cycle into the turn.
   */
  method FrameTurn(line: Line, perBit: seq<Padding>, byte: bv8, bits: uint8, now: nat)
    returns (byte': bv8, bits': uint8, now': nat, last: bool)
    requires bits >= 1
    ensures bits' == bits - 1 && (last <==> bits' == 0)
    ensures last ==> byte' == byte && now' == now + 6
    ensures !last ==> byte' == RotateRight(byte, Level(line, now + 1)).0
                      && now' == now + 8 + Cost(perBit)
  {
    var t := now + Cycles(Clc);
    var carry;
    carry, t := SampleRx(line, false, t);
    bits' := bits - 1;
    t := t + Cycles(Dec);
    if bits' == 0 {
      last := true;
      byte' := byte;
      now' := t + Cycles(Breq(true));
      return;
    }
    last := false;
    t := t + Cycles(Breq(false));
    var rotated := RotateRight(byte, carry);
    byte' := rotated.0;
    t := t + Cycles(Ror);
    t := Pad(perBit, t);
    now' := t + Cycles(Rjmp);
  }

  /**
   * The bit loop of one frame from label `2` at cycle i0 to label `5`: the
   * byte is the frame's eight data samples whatever the register held on
   * entry, and the loop takes eight periods and six cycles.
   */
  method ReadFrame(line: Line, perBit: seq<Padding>, byte0: bv8, i0: nat)
    returns (byte: bv8, label5: nat)
    ensures byte == Pack(Samples(line, i0 + 1, 8 + Cost(perBit), 8))
    ensures label5 == i0 + 8 * (8 + Cost(perBit)) + 6
  {
    byte := byte0;
    var bits: uint8 := 9;
    var now := i0;
    ghost var k: nat := 0;
    assert Bits(byte0)[0..] + Samples(line, i0 + 1, 8 + Cost(perBit), 0) == Bits(byte0);
    while true
      invariant FrameInvariant(line, i0, 8 + Cost(perBit), byte0, k, byte, bits, now)
      decreases 8 - k
    {
      var byte', bits', now', last := FrameTurn(line, perBit, byte, bits, now);
      if last {
        FrameDone(line, i0, 8 + Cost(perBit), byte0, byte, bits, now);
        return byte', now';
      }
      FrameStep(line, i0, 8 + Cost(perBit), byte0, k, byte, bits, now, byte', now');
      byte, bits, now := byte', bits', now';
      k := k + 1;
    }
  }

  // ---------------------------------------------------------------------------
  // The frame loop

  /** Storing the decoded byte of the next frame keeps the burst's account. */
  lemma StoreNext(whole: BurstOutcome, stored: seq<bv8>, line: Line, i0: nat, count: nat,
                  after: nat, period: nat, te: nat, next: nat)
    requires count >= 2
    requires whole == Join(stored, BurstFrom(line, i0, count, after, period))
    requires PollUntil(line, i0 + 8 * period + 8, PollPeriod, false) == Some(te)
    requires next == te + 8 + after
    ensures Account(whole, stored + [Pack(Samples(line, i0 + 1, period, 8))], line, next,
                    count - 1, after, period)
  {
    BurstFromNext(line, i0, count, after, period, te);
    JoinAppend(stored, Pack(Samples(line, i0 + 1, period, 8)), BurstFrom(line, next, count - 1, after, period));
  }

  /** A frame followed by a start bit is that frame's byte joined to the burst from the next frame. */
  lemma BurstFromNext(line: Line, i0: nat, count: nat, after: nat, period: nat, te: nat)
    requires count >= 2
    requires PollUntil(line, i0 + 8 * period + 8, PollPeriod, false) == Some(te)
    ensures BurstFrom(line, i0, count, after, period)
            == Join([Pack(Samples(line, i0 + 1, period, 8))], BurstFrom(line, te + 8 + after, count - 1, after, period))
  {
  }

  /** Joining a prefix and then one more byte is joining the longer prefix. */
  lemma JoinAppend(stored: seq<bv8>, b: bv8, o: BurstOutcome)
    ensures Join(stored, Join([b], o)) == Join(stored + [b], o)
  {
    assert stored + ([b] + o.bytes) == (stored + [b]) + o.bytes;
  }

  /** When the last frame is stored the burst ends with every byte stored. */
  lemma StoreLast(whole: BurstOutcome, stored: seq<bv8>, line: Line, i0: nat, after: nat, period: nat)
    requires whole == Join(stored, BurstFrom(line, i0, 1, after, period))
    ensures whole.finish == Some(i0 + 8 * period + 11)
    ensures Stored(whole) == stored + [Pack(Samples(line, i0 + 1, period, 8))]
  {
  }

  /** When no start bit follows, the burst waits forever with the bytes stored so far. */
  lemma StallAfter(whole: BurstOutcome, stored: seq<bv8>, line: Line, i0: nat, count: nat,
                   after: nat, period: nat)
    requires count >= 2
    requires whole == Join(stored, BurstFrom(line, i0, count, after, period))
    requires PollUntil(line, i0 + 8 * period + 8, PollPeriod, false).None?
    ensures whole.finish.None? && Stored(whole) == stored
  {
    assert whole.bytes == stored + [Pack(Samples(line, i0 + 1, period, 8))];
  }

  /** The bytes stored so far and the burst still to come make up the whole burst. */
  ghost predicate Account(whole: BurstOutcome, stored: seq<bv8>, line: Line, i0: nat, count: nat,
                          after: nat, period: nat)
  {
    count >= 1 && whole == Join(stored, BurstFrom(line, i0, count, after, period))
  }

  /** What `get_bytes` promises about a buffer once it has stored the bytes `Stored(whole)`. */
  ghost predicate Delivered(whole: BurstOutcome, n: nat, contents: seq<bv8>)
  {
    var stored := Stored(whole);
    |contents| == n && |stored| <= n && contents[..|stored|] == stored
    && (whole.finish.Some? ==> contents == whole.bytes)
  }

  /** A burst that waits forever has delivered the bytes stored before it stalled. */
  lemma DeliveredSoFar(whole: BurstOutcome, n: nat, contents: seq<bv8>, ptr: nat)
    requires whole.finish.None? && |contents| == n && ptr <= n
    requires Stored(whole) == contents[..ptr]
    ensures Delivered(whole, n, contents)
  {
  }

  /** Once a burst has ended, element i of a buffer it was delivered into is the i-th byte received. */
  lemma AtDelivered(buf: Buffer, whole: BurstOutcome)
    requires buf.Valid() && Delivered(whole, buf.size as nat, buf.data[..]) && whole.finish.Some?
    ensures |whole.bytes| == buf.size as nat
    ensures forall i: uint8 :: i < buf.size ==> buf.At(i) == whole.bytes[i]
  {
  }

  /** `st X+, byte` with X at offset ptr of the buffer. */
  method Store(buf: Buffer, ptr: nat, byte: bv8)
    requires buf.Valid() && ptr < buf.size
    modifies buf.data
    ensures buf.data[..ptr + 1] == old(buf.data[..ptr]) + [byte]
    ensures ptr + 1 == buf.size ==> buf.data[..] == old(buf.data[..ptr]) + [byte]
  {
    buf.data[ptr] := byte;
    assert buf.data[..ptr + 1] == buf.data[..ptr] + [byte];
  }

  /** `4: st X+, byte` after the last frame: every byte is stored and the burst ends. */
  method FinishBurst(buf: Buffer, ptr: nat, byte: bv8, now: nat,
                     ghost whole: BurstOutcome, ghost line: Line, ghost i0: nat,
                     ghost after: nat, ghost period: nat)
    returns (finish: Option<nat>)
    requires buf.Valid() && ptr + 1 == buf.size
    requires Account(whole, buf.data[..ptr], line, i0, 1, after, period)
    requires byte == Pack(Samples(line, i0 + 1, period, 8))
    requires now == i0 + 8 * period + 7
    modifies buf.data
    ensures finish == whole.finish && Delivered(whole, buf.size as nat, buf.data[..])
  {
    ghost var stored := buf.data[..ptr];
    var t := now + Cycles(Breq(true));
    Store(buf, ptr, byte);
    t := t + Cycles(St);
    StoreLast(whole, stored, line, i0, after, period);
    finish := Some(t);
  }

  /**
   * `1: sbic / rjmp 1b` for the next start bit, then `st X+`, `clr byte`,
   * `ldi bits, 9`, the inter-frame padding and `rjmp 2b`; or, when no start
   * bit comes, the burst waits forever.
   */
  method NextFrame(line: Line, after: seq<Padding>, buf: Buffer, ptr: nat, byte: bv8, now: nat,
                   ghost whole: BurstOutcome, ghost i0: nat, ghost count: nat, ghost period: nat)
    returns (now': nat, byte': bv8, stalled: bool)
    requires buf.Valid() && ptr + 1 < buf.size && count >= 2
    requires Account(whole, buf.data[..ptr], line, i0, count, Cost(after), period)
    requires byte == Pack(Samples(line, i0 + 1, period, 8))
    requires now == i0 + 8 * period + 8
    modifies buf.data
    ensures stalled ==> whole.finish.None? && Delivered(whole, buf.size as nat, buf.data[..])
    ensures !stalled ==> Account(whole, buf.data[..ptr + 1], line, now', count - 1, Cost(after), period)
  {
    ghost var stored := buf.data[..ptr];
    now', byte' := now, byte;
    var edge := WaitLow(line, now);
    if edge.None? {
      StallAfter(whole, stored, line, i0, count, Cost(after), period);
      DeliveredSoFar(whole, buf.size as nat, buf.data[..], ptr);
      stalled := true;
      return;
    }
    var t := edge.value + Cycles(Sbic(true));
    Store(buf, ptr, byte);
    t := t + Cycles(St);
    byte' := 0;
    t := t + Cycles(Clr);
    t := t + Cycles(Ldi);
    t := Pad(after, t);
    now' := t + Cycles(Rjmp);
    StoreNext(whole, stored, line, i0, count, Cost(after), period, edge.value, now');
    stalled := false;
  }

  /**
   * From label `5` of a frame decoded from cycle i0: `dec cnt / breq 4f`,
   * then either the final `st` or the wait for the next frame.
   */
  method EndFrame(line: Line, plan: BurstPlan, buf: Buffer, ptr: nat, cnt: uint8, byte: bv8,
                  label5: nat, ghost whole: BurstOutcome, ghost i0: nat)
    returns (ptr': nat, cnt': uint8, now': nat, byte': bv8, finish: Option<nat>, done: bool)
    requires buf.Valid() && ptr < buf.size && cnt as int == buf.size - ptr
    requires Account(whole, buf.data[..ptr], line, i0, cnt, Cost(plan.after), 8 + Cost(plan.perBit))
    requires byte == Pack(Samples(line, i0 + 1, 8 + Cost(plan.perBit), 8))
    requires label5 == i0 + 8 * (8 + Cost(plan.perBit)) + 6
    modifies buf.data
    ensures done ==> finish == whole.finish && Delivered(whole, buf.size as nat, buf.data[..])
    ensures !done ==> ptr' == ptr + 1 && ptr' < buf.size && cnt' as int == buf.size - ptr'
    ensures !done ==> Account(whole, buf.data[..ptr'], line, now', cnt', Cost(plan.after), 8 + Cost(plan.perBit))
  {
    ptr', byte' := ptr + 1, byte;
    cnt' := cnt - 1;
    var now := label5 + Cycles(Dec);
    if cnt' == 0 {
      finish := FinishBurst(buf, ptr, byte, now, whole, line, i0, Cost(plan.after), 8 + Cost(plan.perBit));
      now', done := now, true;
      return;
    }
    now := now + Cycles(Breq(false));
    var stalled;
    now', byte', stalled := NextFrame(line, plan.after, buf, ptr, byte, now, whole, i0, cnt as nat,
                                      8 + Cost(plan.perBit));
    finish, done := None, stalled;
  }

  /**
   * `ldi cnt, N`, the wait for the first start bit, the half-bit padding and
   * `ldi bits, 9`: the burst starts at label `2`, or waits forever.
   */
  method StartBurst(line: Line, t0: nat, plan: BurstPlan, n: uint8) returns (now: nat, stalled: bool)
    requires n >= 1
    ensures stalled ==> BurstResult(line, t0, n, plan) == BurstOutcome([], None)
    ensures !stalled ==> Account(BurstResult(line, t0, n, plan), [], line, now, n,
                                 Cost(plan.after), 8 + Cost(plan.perBit))
  {
    now := t0 + Cycles(Ldi);
    var edge := WaitLow(line, now);
    if edge.None? {
      return now, true;
    }
    now := edge.value + Cycles(Sbic(true));
    now := Pad(plan.half, now);
    now := now + Cycles(Ldi);
    stalled := false;
    StartAccount(line, t0, plan, n, edge.value, now);
  }

  /** The first start bit found, the burst is all of it still to come. */
  lemma StartAccount(line: Line, t0: nat, plan: BurstPlan, n: uint8, te: nat, start: nat)
    requires n >= 1
    requires PollUntil(line, t0 + 1, PollPeriod, false) == Some(te)
    requires start == te + 3 + Cost(plan.half)
    ensures Account(BurstResult(line, t0, n, plan), [], line, start, n,
                    Cost(plan.after), 8 + Cost(plan.perBit))
  {
    var o := BurstFrom(line, start, n, Cost(plan.after), 8 + Cost(plan.perBit));
    BurstResultStarts(line, t0, plan, n, te);
    assert BurstAfterEdge(line, te, n, plan) == o;
    JoinEmpty(o);
  }

  /** Once the first start bit is seen at te, `get_bytes` is the burst after that edge. */
  lemma BurstResultStarts(line: Line, t0: nat, plan: BurstPlan, n: uint8, te: nat)
    requires n >= 1
    requires PollUntil(line, t0 + 1, PollPeriod, false) == Some(te)
    ensures BurstResult(line, t0, n, plan) == BurstAfterEdge(line, te, n, plan)
  {
  }

  /** Nothing received before an outcome leaves it as it is. */
  lemma JoinEmpty(o: BurstOutcome)
    ensures Join([], o) == o
  {
    assert [] + o.bytes == o.bytes;
  }

  /**
   * `get_bytes<n>` from cycle t0 with padding `plan`: returns the buffer and
   * the cycle the loop ends at, or None when it waits forever for a start
   * bit.  The buffer holds exactly the bytes the burst stored, in reception
   * order; with `n` frames received, all `n` of them.
   */
  method GetBytes(line: Line, t0: nat, plan: BurstPlan, n: uint8)
    returns (buf: Buffer, finish: Option<nat>)
    requires n >= 1
    ensures fresh(buf) && fresh(buf.data) && buf.size == n && buf.Valid()
    ensures finish == BurstResult(line, t0, n, plan).finish
    ensures Delivered(BurstResult(line, t0, n, plan), n as nat, buf.data[..])
    ensures finish.Some? ==> forall i: uint8 :: i < n ==> buf.At(i) == BurstResult(line, t0, n, plan).bytes[i]
  {
    buf := new Buffer(n);
    ghost var whole := BurstResult(line, t0, n, plan);
    var now, stalled := StartBurst(line, t0, plan, n);
    if stalled {
      return buf, None;
    }
    var cnt: uint8 := n;
    var byte: bv8 := 0;
    var ptr: nat := 0;
    assert buf.data[..0] == [];
    while true
      invariant buf.Valid() && ptr < n && cnt as int == n - ptr
      invariant Account(whole, buf.data[..ptr], line, now, cnt, Cost(plan.after), 8 + Cost(plan.perBit))
      decreases cnt
    {
      ghost var i0 := now;
      var label5, done;
      byte, label5 := ReadFrame(line, plan.perBit, byte, now);
      ptr, cnt, now, byte, finish, done := EndFrame(line, plan, buf, ptr, cnt, byte, label5, whole, i0);
      if done {
        if finish.Some? {
          AtDelivered(buf, whole);
        }
        return;
      }
    }
  }
}
