/**
 * `AVR_UART_PUT_ASM_TMPL` (include/avr/uart/detail/inline_asm.hpp lines
 * 3-15), the loop `put` runs: it reads the Tx port once, complements the
 * byte (which also sets the carry) and, ten times, clears the Tx bit, sets it
 * again unless the carry is set, writes the port, shifts the next bit into
 * the carry and pads.
 */
module Transmit {
  import opened UartMath
  import opened Avr
  import opened DelayPlan

  /** A value written to the Tx port register by `out`, with the cycle of the write. */
  datatype PortWrite = PortWrite(at: nat, value: bv8)

  /** The 8-N-1 frame of a byte: start bit low, the data bits least significant first, stop bit high. */
  function Frame(data: bv8): seq<bool>
  {
    [false] + Bits(data) + [true]
  }

  /** The frame is decodable: its eight middle levels pack back into the byte. */
  lemma FrameDecodes(data: bv8)
    ensures |Frame(data)| == 10
    ensures !Frame(data)[0] && Frame(data)[9]
    ensures Pack(Frame(data)[1..9]) == data
  {
    assert Frame(data)[1..9] == Bits(data);
    PackOfBits(data);
  }

  /** The port value read at entry with the bits of `mask` driven to `level`. */
  function Drive(port: bv8, mask: bv8, level: bool): bv8
  {
    if level then port | mask else port & !mask
  }

  /** Driving changes exactly the bits of the mask, to the level; the others keep the value read. */
  lemma DriveBits(port: bv8, mask: bv8, level: bool)
    ensures forall i :: 0 <= i < 8 ==>
      BitOf(Drive(port, mask, level), i) == (if BitOf(mask, i) then level else BitOf(port, i))
  {
  }

  /**
   * The ten writes `put` makes from cycle t0 with bit period `period`: write
   * j, at t0 + 6 + j * period, drives the Tx bit to level j of the frame and
   * writes every other bit as it was read at entry.
   */
  function FrameWrites(port: bv8, mask: bv8, data: bv8, t0: nat, period: nat): (w: seq<PortWrite>)
    ensures |w| == 10
  {
    seq(10, j requires 0 <= j < 10 => PortWrite(t0 + 6 + j * period, Drive(port, mask, Frame(data)[j])))
  }

  /**
   * Consecutive writes are exactly one bit period apart, and each one changes
   * only the Tx bits of the port: whatever the data, every iteration costs
   * the same.
   */
  lemma FrameWritesTiming(port: bv8, mask: bv8, data: bv8, t0: nat, period: nat)
    ensures forall j :: 0 <= j < 9 ==>
      FrameWrites(port, mask, data, t0, period)[j + 1].at == FrameWrites(port, mask, data, t0, period)[j].at + period
    ensures forall j, i :: 0 <= j < 10 && 0 <= i < 8 ==>
      BitOf(FrameWrites(port, mask, data, t0, period)[j].value, i)
      == (if BitOf(mask, i) then Frame(data)[j] else BitOf(port, i))
  {
    var w := FrameWrites(port, mask, data, t0, period);
    DriveBits(port, mask, false);
    DriveBits(port, mask, true);
    forall j | 0 <= j < 9 ensures w[j + 1].at == w[j].at + period {
      assert (j + 1) * period == j * period + period;
    }
  }

  /** The carry chain `lsr` walks through: the complemented byte, then zeros. */
  function Shifted(data: bv8): (e: seq<bool>)
    ensures |e| == 18
  {
    Bits(Complement(data)) + Zeros(10)
  }

  /** The level `put` drives in turn j is the complement of the carry: the frame. */
  lemma LevelFromCarry(data: bv8, j: nat)
    requires j < 10
    ensures Frame(data)[j] == !(if j == 0 then true else Shifted(data)[j - 1])
  {
    if 1 <= j <= 8 {
      assert Shifted(data)[j - 1] == Bits(Complement(data))[j - 1];
    }
  }

  /** `cbr` then, unless the carry is set, `sbr` on the port value drives the Tx bit to the new level. */
  lemma Redrive(port: bv8, mask: bv8, prev: bv8, level: bool)
    requires prev == port || prev == Drive(port, mask, false) || prev == Drive(port, mask, true)
    ensures ClearBits(prev, mask) == Drive(port, mask, false)
    ensures SetBits(Drive(port, mask, false), mask) == Drive(port, mask, true)
  {
  }

  /** `lsr` moves the carry chain one place: the next bit into the carry. */
  lemma ShiftStep(data: bv8, byte: bv8, j: nat)
    requires j < 10 && Bits(byte) == Shifted(data)[j..j + 8]
    ensures Bits(ShiftRight(byte).0) == Shifted(data)[j + 1..j + 9]
    ensures ShiftRight(byte).1 == Shifted(data)[j]
  {
    assert !Shifted(data)[j + 8];
    assert Shifted(data)[j + 1..j + 9] == Shifted(data)[j..j + 8][1..] + [false];
  }

  lemma WritesStep(port: bv8, mask: bv8, data: bv8, t0: nat, period: nat, j: nat)
    requires j < 10
    ensures FrameWrites(port, mask, data, t0, period)[..j]
            + [PortWrite(t0 + 6 + j * period, Drive(port, mask, Frame(data)[j]))]
            == FrameWrites(port, mask, data, t0, period)[..j + 1]
  {
  }

  /**
   * `cbr port_state, mask / brcs 2f / sbr port_state, mask` from cycle `now`:
   * the Tx bit cleared, then set again unless the carry is set; three cycles
   * whichever way `brcs` goes.
   */
  method DriveTx(portState: bv8, mask: bv8, carry: bool, now: nat, ghost port: bv8)
    returns (driven: bv8, t: nat)
    requires portState == port || portState == Drive(port, mask, false) || portState == Drive(port, mask, true)
    ensures driven == Drive(port, mask, !carry)
    ensures t == now + 3
  {
    Redrive(port, mask, portState, !carry);
    driven := ClearBits(portState, mask);
    t := now + Cycles(Cbr);
    if carry {
      t := t + Cycles(Brcs(true));
    } else {
      t := t + Cycles(Brcs(false));
      driven := SetBits(driven, mask);
      t := t + Cycles(Sbr);
    }
  }

  /** What holds at the top of turn j of the `put` loop started at t0. */
  ghost predicate PutInvariant(port: bv8, mask: bv8, data: bv8, t0: nat, period: nat, j: nat,
                               portState: bv8, byte: bv8, carry: bool, bits: uint8, now: nat,
                               writes: seq<PortWrite>)
  {
    j <= 10 && bits == 10 - j
    && now == t0 + 3 + j * period - (if j == 10 then 1 else 0)
    && (j < 10 ==> Bits(byte) == Shifted(data)[j..j + 8])
    && (j < 10 ==> carry == (if j == 0 then true else Shifted(data)[j - 1]))
    && portState == (if j == 0 then port else Drive(port, mask, Frame(data)[j - 1]))
    && writes == FrameWrites(port, mask, data, t0, period)[..j]
  }

  /** The cycle count of one turn: the next turn starts one bit period later, the last ends one cycle early. */
  lemma TurnTiming(t0: nat, period: nat, j: nat, now: nat, now': nat, bits': int)
    requires j < 10 && bits' == 9 - j && period >= 8
    requires now == t0 + 3 + j * period
    requires now' == now + 3 + 1 + 1 + (period - 8) + (if bits' != 0 then 3 else 2)
    ensures now' == t0 + 3 + (j + 1) * period - (if j + 1 == 10 then 1 else 0)
  {
    assert (j + 1) * period == j * period + period;
  }

  /** The register and carry after `lsr` in turn j are those of turn j + 1. */
  lemma TurnShift(data: bv8, j: nat, byte: bv8, byte': bv8, carry': bool)
    requires j < 10 && Bits(byte) == Shifted(data)[j..j + 8]
    requires byte' == ShiftRight(byte).0 && carry' == ShiftRight(byte).1
    ensures j + 1 < 10 ==> Bits(byte') == Shifted(data)[j + 1..j + 9]
    ensures j + 1 < 10 ==> carry' == Shifted(data)[j]
  {
    if j < 9 {
      ShiftStep(data, byte, j);
    }
  }

  /** The write of turn j is the j-th write of the frame. */
  lemma TurnWrite(port: bv8, mask: bv8, data: bv8, t0: nat, period: nat, j: nat,
                  carry: bool, now: nat, writes: seq<PortWrite>)
    requires j < 10 && now == t0 + 3 + j * period
    requires carry == (if j == 0 then true else Shifted(data)[j - 1])
    requires writes == FrameWrites(port, mask, data, t0, period)[..j]
    ensures writes + [PortWrite(now + 3, Drive(port, mask, !carry))]
            == FrameWrites(port, mask, data, t0, period)[..j + 1]
    ensures Drive(port, mask, !carry) == Drive(port, mask, Frame(data)[j])
  {
    LevelFromCarry(data, j);
    WritesStep(port, mask, data, t0, period, j);
  }

  /** One turn of the `put` loop: drive, write, shift, pad, count down. */
  method PutTurn(mask: bv8, pad: seq<Padding>, portState: bv8, byte: bv8, carry: bool,
                 bits: uint8, now: nat, writes: seq<PortWrite>,
                 ghost port: bv8, ghost data: bv8, ghost t0: nat, ghost j: nat)
    returns (portState': bv8, byte': bv8, carry': bool, bits': uint8, now': nat,
             writes': seq<PortWrite>)
    requires j < 10
    requires PutInvariant(port, mask, data, t0, 8 + Cost(pad), j, portState, byte, carry, bits, now, writes)
    ensures PutInvariant(port, mask, data, t0, 8 + Cost(pad), j + 1,
                         portState', byte', carry', bits', now', writes')
  {
    ghost var period := 8 + Cost(pad);
    var t;
    portState', t := DriveTx(portState, mask, carry, now, port);
    writes' := writes + [PortWrite(t, portState')];
    TurnWrite(port, mask, data, t0, period, j, carry, now, writes);
    t := t + Cycles(Out);
    var shifted := ShiftRight(byte);
    byte', carry' := shifted.0, shifted.1;
    TurnShift(data, j, byte, byte', carry');
    t := t + Cycles(Lsr);
    t := Pad(pad, t);
    var more;
    bits', more, now' := DecBrne(bits, t);
    TurnTiming(t0, period, j, now, now', bits');
    NextInvariant(port, mask, data, t0, period, j, portState', byte', carry', bits', now', writes');
  }

  /** The facts the turn lemmas establish are the invariant of the next turn. */
  lemma NextInvariant(port: bv8, mask: bv8, data: bv8, t0: nat, period: nat, j: nat,
                      portState: bv8, byte: bv8, carry: bool, bits: uint8, now: nat,
                      writes: seq<PortWrite>)
    requires j < 10 && bits == 9 - j
    requires now == t0 + 3 + (j + 1) * period - (if j + 1 == 10 then 1 else 0)
    requires j + 1 < 10 ==> Bits(byte) == Shifted(data)[j + 1..j + 9]
    requires j + 1 < 10 ==> carry == Shifted(data)[j]
    requires portState == Drive(port, mask, Frame(data)[j])
    requires writes == FrameWrites(port, mask, data, t0, period)[..j + 1]
    ensures PutInvariant(port, mask, data, t0, period, j + 1, portState, byte, carry, bits, now, writes)
  {
  }

  /**
   * The `put` loop from cycle t0 with port value `port` (as `in` reads it),
   * Tx bit mask `mask` and per-bit padding `pad`: returns the port writes
   * and the cycle at which the loop ends.
   */
  method Put(port: bv8, mask: bv8, data: bv8, pad: seq<Padding>, t0: nat)
    returns (writes: seq<PortWrite>, finish: nat)
    ensures writes == FrameWrites(port, mask, data, t0, 8 + Cost(pad))
    ensures finish == t0 + 10 * (8 + Cost(pad)) + 2
  {
    var now: nat := t0;
    var portState := port;
    now := now + Cycles(In);
    var byte := Complement(data);
    var carry := true;
    now := now + Cycles(Com);
    var bits: uint8 := 10;
    now := now + Cycles(Ldi);
    writes := [];
    ghost var j: nat := 0;
    // The loop test stands for the `brne 1b` at the end of the previous turn.
    while bits != 0
      invariant PutInvariant(port, mask, data, t0, 8 + Cost(pad), j,
                             portState, byte, carry, bits, now, writes)
      decreases bits
    {
      portState, byte, carry, bits, now, writes :=
        PutTurn(mask, pad, portState, byte, carry, bits, now, writes, port, data, t0, j);
      j := j + 1;
    }
    finish := now;
  }
}
