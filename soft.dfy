/**
 * `soft<TxPin, RxPin, baud_rate, clk_cpu>` (include/avr/uart/soft.hpp): the
 * padding each loop compiles for a configuration, and the device as the
 * pins it drives.  The Tx port register, its direction register and the
 * cycle counter are the state; the Rx pin is the line of level changes it
 * sees.  `put`, `get` and `get_bytes` run the loops of the other modules.
 */
module Soft {
  import opened UartMath
  import opened Timing
  import opened Avr
  import opened DelayPlan
  import opened BurstPlan
  import opened Transmit
  import opened Receive
  import opened Burst

  // ---------------------------------------------------------------------------
  // The padding compiled for a configuration

  /** `put`'s per-bit padding, keyed on `delay = cycles_required - 8`: a bit lasts `cycles_required` cycles. */
  function PutPlanFor(clk: uint32, baud: uint32): (pad: seq<Padding>)
    requires Accepted(clk, baud)
    ensures 8 + Cost(pad) == CyclesRequired(clk, baud).value
  {
    var c := CyclesRequired(clk, baud).value;
    PutPaddingIsExact(c - 8);
    PutPadding(c - 8).value
  }

  /**
   * `get`'s padding, keyed on `delay = cycles_required - 6` and
   * `one_half_delay`: a bit lasts `cycles_required` cycles, and the half-bit
   * countdown runs `one_half_delay / 3` times (256 when that is 0).
   */
  function GetPlanFor(clk: uint32, baud: uint32): (plan: GetPlan)
    requires GetAccepted(clk, baud)
    ensures 6 + Cost(plan.perBit) == CyclesRequired(clk, baud).value
    ensures var h := OneHalfDelay(clk, baud).value;
      Cost(plan.half) == 3 * CountOf(h / 3) + h % 3
  {
    var c := CyclesRequired(clk, baud).value;
    GetPaddingIsExact(c - 6, OneHalfDelay(clk, baud).value);
    GetPadding(c - 6, OneHalfDelay(clk, baud).value).value
  }

  /** Where `one_half_delay` does not wrap, the half-bit padding lasts exactly `one_half_delay` cycles. */
  lemma GetHalfIsExact(clk: uint32, baud: uint32)
    requires GetAccepted(clk, baud) && 3 * clk - 8 * baud < 511 * baud
    ensures Cost(GetPlanFor(clk, baud).half) == OneHalfDelay(clk, baud).value
  {
    OneHalfDelayWindow(clk, baud);
  }

  /**
   * Where `one_half_delay` wraps, it is 0, so the half-bit countdown runs 256
   * times: 768 cycles instead of about 256.
   */
  lemma GetHalfWhenWrapped(clk: uint32, baud: uint32)
    requires GetAccepted(clk, baud) && 3 * clk - 8 * baud >= 511 * baud
    ensures OneHalfDelay(clk, baud) == Some(0)
    ensures Cost(GetPlanFor(clk, baud).half) == 768
  {
    OneHalfDelayWrapsToZero(clk, baud);
  }

  /**
   * `get_bytes`'s padding, keyed on `delay = cycles_required - 8`,
   * `one_half_delay` and `one_half_delay_after_fst_bit`: a bit lasts
   * `cycles_required` cycles and each offset countdown runs its constant / 3
   * times (256 when that is 0).
   */
  function BurstPlanFor(clk: uint32, baud: uint32): (plan: BurstPlan)
    requires GetBytesAccepted(clk, baud)
    ensures 8 + Cost(plan.perBit) == CyclesRequired(clk, baud).value
    ensures var h := OneHalfDelay(clk, baud).value;
      Cost(plan.half) == 3 * CountOf(h / 3) + h % 3
    ensures var a := OneHalfDelayAfterFstBit(clk, baud).value;
      Cost(plan.after) == 3 * CountOf(a / 3) + a % 3
  {
    var c := CyclesRequired(clk, baud).value;
    var h, a := OneHalfDelay(clk, baud).value, OneHalfDelayAfterFstBit(clk, baud).value;
    BurstPaddingIsExact(c - 8, h, a);
    BurstPadding(c - 8, h, a).value
  }

  /** Where `one_half_delay` does not wrap, both offset paddings of `get_bytes` last exactly their constants. */
  lemma BurstOffsetsAreExact(clk: uint32, baud: uint32)
    requires GetBytesAccepted(clk, baud) && 3 * clk - 8 * baud < 511 * baud
    ensures Cost(BurstPlanFor(clk, baud).half) == OneHalfDelay(clk, baud).value
    ensures Cost(BurstPlanFor(clk, baud).after) == OneHalfDelayAfterFstBit(clk, baud).value
  {
    GetBytesOffsetsPositive(clk, baud);
  }

  /**
   * The chain as written compiles `BurstPlanFor`'s padding wherever it has a
   * branch, and has none exactly when `cycles_required - 8`,
   * `one_half_delay` and `one_half_delay_after_fst_bit` leave the residues
   * (1, 2, 2) modulo 3.
   */
  lemma BurstPlanAsWritten(clk: uint32, baud: uint32)
    requires GetBytesAccepted(clk, baud)
    ensures var c := CyclesRequired(clk, baud).value;
      var h, a := OneHalfDelay(clk, baud).value, OneHalfDelayAfterFstBit(clk, baud).value;
      var written := BurstPaddingAsWritten(c - 8, h, a);
      (written.None? <==> (c - 8) % 3 == 1 && h % 3 == 2 && a % 3 == 2)
      && (written.Some? ==> written.value == BurstPlanFor(clk, baud))
  {
    var c := CyclesRequired(clk, baud).value;
    var h, a := OneHalfDelay(clk, baud).value, OneHalfDelayAfterFstBit(clk, baud).value;
    BurstPaddingIsExact(c - 8, h, a);
    BurstRowsAsWrittenMissCase(c - 8, h, a);
    if BurstPaddingAsWritten(c - 8, h, a).Some? {
      BurstPaddingAgrees(c - 8, h, a);
    }
  }

  // ---------------------------------------------------------------------------
  // Pins and peers

  /** The flag `when_byte_comes` is given a pointer to. */
  class Flag {
    var value: bool

    constructor (v: bool)
      ensures value == v
    {
      value := v;
    }
  }

  /**
   * The callback of `when_byte_comes`, as the bytes it has been called with;
   * what it does besides is the application's.
   */
  class Callback {
    var received: seq<bv8>

    constructor ()
      ensures received == []
    {
      received := [];
    }

    method Call(byte: bv8)
      modifies this
      ensures received == old(received) + [byte]
    {
      received := received + [byte];
    }
  }

  /** The cycle at which `clear_to_send` returns, or None when it waits forever. */
  function CtsEnd(rx: Line, t0: nat, turn: nat, step: nat, write: nat): Option<nat>
    requires turn > 0
  {
    match PollUntil(rx, t0, turn, false)
    case None => None
    case Some(low) =>
      match PollUntil(rx, low + step + write, turn, true)
      case None => None
      case Some(high) => Some(high + step + write)
  }

  /**
   * The Tx port `clear_to_send` leaves, started at cycle t0 with the port at
   * `port0` and the writes `writes0`, as its new value `port` and writes
   * `writes`: nothing while Rx stays high; Tx low `step` cycles after the
   * turn that saw Rx low; Tx high `step` cycles after the turn that saw it
   * high again.
   */
  ghost predicate CtsWritten(rx: Line, mask: bv8, t0: nat, turn: nat, step: nat, write: nat,
                             port0: bv8, writes0: seq<PortWrite>, port: bv8, writes: seq<PortWrite>)
    requires turn > 0
  {
    var low := PollUntil(rx, t0, turn, false);
    (low.None? ==> writes == writes0 && port == port0)
    && (low.Some? ==>
          var high := PollUntil(rx, low.value + step + write, turn, true);
          (high.None? ==>
             writes == writes0 + [PortWrite(low.value + step, Drive(port0, mask, false))]
             && port == Drive(port0, mask, false))
          && (high.Some? ==>
             writes == writes0 + [PortWrite(low.value + step, Drive(port0, mask, false)),
                                  PortWrite(high.value + step, Drive(port0, mask, true))]
             && port == Drive(port0, mask, true)))
  }

  /** Driving the Tx bit twice leaves only the second level. */
  lemma DriveTwice(port: bv8, mask: bv8, a: bool, b: bool)
    ensures Drive(Drive(port, mask, a), mask, b) == Drive(port, mask, b)
  {
  }

  /**
   * The virtual device: the configuration, the Tx bit's mask `TxPin::bv()`,
   * the Rx line, the Tx port and direction registers, the cycle counter and
   * every value written to the Tx port with its cycle.
   */
  class SoftUart {
    const clk: uint32
    const baud: uint32
    const txMask: bv8
    const rx: Line
    var ddr: bv8
    var port: bv8
    var now: nat
    var txWrites: seq<PortWrite>

    /** The class compiles only when both assertions on `cycles_required` hold. */
    ghost predicate Valid()
      reads this
    {
      Accepted(clk, baud)
    }

    /** `soft()`: the Tx pin becomes an output and is driven high; nothing else changes. */
    constructor (clk: uint32, baud: uint32, txMask: bv8, rx: Line, ddr0: bv8, port0: bv8, t0: nat)
      requires Accepted(clk, baud)
      ensures Valid()
      ensures this.clk == clk && this.baud == baud && this.txMask == txMask && this.rx == rx
      ensures ddr == SetBits(ddr0, txMask) && port == Drive(port0, txMask, true)
      ensures now == t0 && txWrites == [PortWrite(t0, port)]
    {
      this.clk, this.baud, this.txMask, this.rx := clk, baud, txMask, rx;
      ddr := SetBits(ddr0, txMask);
      port := Drive(port0, txMask, true);
      now := t0;
      txWrites := [PortWrite(t0, port)];
    }

    /** A write of the Tx port at cycle `at` that drives the Tx bit to `level` (`cbi`/`sbi`, `TxPin::low/high`). */
    method WriteTx(level: bool, at: nat)
      modifies this
      ensures port == Drive(old(port), txMask, level)
      ensures txWrites == old(txWrites) + [PortWrite(at, port)]
      ensures now == old(now) && ddr == old(ddr)
    {
      port := Drive(port, txMask, level);
      txWrites := txWrites + [PortWrite(at, port)];
    }

    /**
     * `put(byte)`: the ten writes of the frame, one bit period apart, each
     * changing only the Tx bit of the port as read at entry; the line is left
     * high.
     */
    method Put(data: bv8)
      requires Valid()
      modifies this
      ensures txWrites == old(txWrites) + FrameWrites(old(port), txMask, data, old(now), CyclesRequired(clk, baud).value)
      ensures port == Drive(old(port), txMask, true)
      ensures now == old(now) + 10 * CyclesRequired(clk, baud).value + 2
      ensures ddr == old(ddr)
    {
      var writes, finish := Transmit.Put(port, txMask, data, PutPlanFor(clk, baud), now);
      txWrites := txWrites + writes;
      port := writes[9].value;
      now := finish;
    }

    /**
     * `get()` with the carry flag `cin` left by the code before it: the byte
     * of the eight data samples, or None when no start bit ever comes (the
     * source then waits forever).
     */
    method Get(cin: bool) returns (r: Option<bv8>)
      requires Valid() && GetAccepted(clk, baud)
      modifies this
      ensures var g := GetResult(rx, old(now), GetPlanFor(clk, baud));
        (r.Some? <==> g.Some?) && (g.Some? ==> r.value == g.value.byte && now == g.value.finish)
      ensures port == old(port) && ddr == old(ddr) && txWrites == old(txWrites)
    {
      var g := Receive.Get(rx, now, GetPlanFor(clk, baud), cin);
      if g.None? {
        return None;
      }
      now := g.value.finish;
      return Some(g.value.byte);
    }

    /**
     * `get_bytes<n>()`: a fresh buffer of n bytes holding the bytes of the
     * burst in the order received, all n of them when the burst ends.
     */
    method GetBytes(n: uint8) returns (buf: Buffer, finish: Option<nat>)
      requires Valid() && GetBytesAccepted(clk, baud)
      requires n >= 1
      modifies this
      ensures fresh(buf) && fresh(buf.data) && buf.size == n && buf.Valid()
      ensures var whole := BurstResult(rx, old(now), n, BurstPlanFor(clk, baud));
        finish == whole.finish && Delivered(whole, n as nat, buf.data[..])
        && (finish.Some? ==> forall i: uint8 :: i < n ==> buf.At(i) == whole.bytes[i])
      ensures finish.Some? ==> now == finish.value
      ensures port == old(port) && ddr == old(ddr) && txWrites == old(txWrites)
    {
      buf, finish := Burst.GetBytes(rx, now, BurstPlanFor(clk, baud), n);
      if finish.Some? {
        now := finish.value;
      }
    }

    /**
     * `request_to_send()`: `cbi` drives Tx low, `sbic / rjmp` waits for Rx
     * low, `sbi` drives Tx high, and the pause `round(14e-6 * clk - 1)`
     * follows.  `seen` is the cycle of the `sbic` that saw Rx low (None: the
     * source waits forever, with Tx low).
     */
    method RequestToSend() returns (seen: Option<nat>)
      requires Valid() && RtsAccepted(clk)
      modifies this
      ensures seen == PollUntil(rx, old(now) + 2, PollPeriod, false)
      ensures seen.None? ==>
        txWrites == old(txWrites) + [PortWrite(old(now), Drive(old(port), txMask, false))]
        && port == Drive(old(port), txMask, false)
      ensures seen.Some? ==>
        txWrites == old(txWrites) + [PortWrite(old(now), Drive(old(port), txMask, false)),
                                     PortWrite(seen.value + 2, Drive(old(port), txMask, true))]
        && port == Drive(old(port), txMask, true)
        && now == seen.value + 4 + RtsDelay(clk).value
      ensures ddr == old(ddr)
    {
      ghost var port0 := port;
      var t := now;
      WriteTx(false, t);
      t := t + Cycles(Cbi);
      seen := WaitLow(rx, t);
      if seen.None? {
        return;
      }
      t := seen.value + Cycles(Sbic(true));
      WriteTx(true, t);
      DriveTwice(port0, txMask, false, true);
      t := t + Cycles(Sbi);
      now := t + RtsDelay(clk).value;
    }

    /**
     * `clear_to_send()`: wait while Rx is high, drive Tx low, wait while Rx
     * is low, drive Tx high.  The compiled C code is not part of this model:
     * a waiting turn lasts `turn` cycles, a pin write starts `step` cycles
     * after the test that ended the wait and lasts `write` cycles.  Returns
     * whether it returns at all.
     */
    method ClearToSend(turn: nat, step: nat, write: nat) returns (done: bool)
      requires turn > 0
      modifies this
      ensures CtsWritten(rx, txMask, old(now), turn, step, write, old(port), old(txWrites), port, txWrites)
      ensures done <==> CtsEnd(rx, old(now), turn, step, write).Some?
      ensures done ==> now == CtsEnd(rx, old(now), turn, step, write).value
      ensures ddr == old(ddr)
    {
      ghost var port0 := port;
      var low := WaitUntil(rx, now, turn, false);
      if low.None? {
        return false;
      }
      WriteTx(false, low.value + step);
      var high := WaitUntil(rx, low.value + step + write, turn, true);
      if high.None? {
        return false;
      }
      WriteTx(true, high.value + step);
      DriveTwice(port0, txMask, false, true);
      now := high.value + step + write;
      return true;
    }

    /**
     * `when_byte_comes(flag, cbk)`: when the flag is set, clear it, answer
     * the handshake, receive a byte and hand it to the callback once; when
     * it is clear, do nothing.  The interrupt-free scope adds no cycles here.
     */
    method WhenByteComes(flag: Flag, cbk: Callback, turn: nat, step: nat, write: nat, cin: bool)
      requires Valid() && GetAccepted(clk, baud) && turn > 0
      modifies this, flag, cbk
      ensures !old(flag.value) ==>
        flag.value == old(flag.value) && cbk.received == old(cbk.received)
        && now == old(now) && port == old(port) && txWrites == old(txWrites)
      ensures old(flag.value) ==> !flag.value
      ensures old(flag.value) ==>
        var cts := CtsEnd(rx, old(now), turn, step, write);
        var g := if cts.Some? then GetResult(rx, cts.value, GetPlanFor(clk, baud)) else None;
        (g.None? ==> cbk.received == old(cbk.received))
        && (g.Some? ==> cbk.received == old(cbk.received) + [g.value.byte] && now == g.value.finish)
      ensures old(flag.value) ==>
        CtsWritten(rx, txMask, old(now), turn, step, write, old(port), old(txWrites), port, txWrites)
      ensures ddr == old(ddr)
    {
      if flag.value {
        flag.value := false;
        var done := ClearToSend(turn, step, write);
        if !done {
          return;
        }
        ghost var writes, level := txWrites, port;
        var byte := Get(cin);
        if byte.Some? {
          cbk.Call(byte.value);
        }
        assert txWrites == writes && port == level;
      }
    }
  }
}
