/**
 * The slice of the AVR core that the three assembly templates of
 * include/avr/uart/detail/inline_asm.hpp run on: the instructions they use
 * with their cycle counts (AVRe core, as in Microchip's AVR Instruction Set
 * Manual), the 8-bit register operations with the carry flag, and the Rx
 * line as the sequence of level changes seen on the pin.
 */
module Avr {
  import opened UartMath

  /** The instructions of the templates, with the outcome that decides their cost. */
  datatype Instr =
    | In | Out | Com | Ldi | Cbr | Sbr | Lsr | Ror | Dec | Clr | Sec | Clc | Nop
    | Rjmp
    | St
    | Cbi | Sbi
    | Brcs(taken: bool) | Brne(taken: bool) | Breq(taken: bool)
    | Sbic(skip: bool)

  /**
   * Cycles each instruction takes: a taken branch 2, an untaken one 1; `sbic`
   * 2 when it skips a one-word instruction, 1 otherwise; `rjmp`, `st X+`,
   * `cbi` and `sbi` 2; every other instruction here 1.
   */
  function Cycles(i: Instr): (n: nat)
    ensures 1 <= n <= 2
    ensures n == 2 <==> (i.Rjmp? || i.St? || i.Cbi? || i.Sbi?
                         || (i.Brcs? && i.taken) || (i.Brne? && i.taken)
                         || (i.Breq? && i.taken) || (i.Sbic? && i.skip))
  {
    match i
    case Rjmp => 2
    case St => 2
    case Cbi => 2
    case Sbi => 2
    case Brcs(taken) => if taken then 2 else 1
    case Brne(taken) => if taken then 2 else 1
    case Breq(taken) => if taken then 2 else 1
    case Sbic(skip) => if skip then 2 else 1
    case _ => 1
  }

  /**
   * The two balanced pairs the templates rely on: a taken `brcs` costs what
   * an untaken one followed by `sbr` costs, and a skipping `sbic` costs what
   * a non-skipping one followed by `sec` costs.
   */
  lemma BranchesAreBalanced()
    ensures Cycles(Brcs(true)) == Cycles(Brcs(false)) + Cycles(Sbr)
    ensures Cycles(Sbic(true)) == Cycles(Sbic(false)) + Cycles(Sec)
  {
  }

  /** One turn of a `1: sbic PINx, n / rjmp 1b` busy-wait that sees the pin high. */
  const PollPeriod: nat := Cycles(Sbic(false)) + Cycles(Rjmp)

  // ---------------------------------------------------------------------------
  // Registers

  /** Bit i of an 8-bit register. */
  predicate BitOf(b: bv8, i: nat)
    requires i < 8
  {
    b & Weight(i) != 0
  }

  /** The register with only bit i set. */
  function Weight(i: nat): bv8
    requires i < 8
  {
    match i
    case 0 => 0x01
    case 1 => 0x02
    case 2 => 0x04
    case 3 => 0x08
    case 4 => 0x10
    case 5 => 0x20
    case 6 => 0x40
    case _ => 0x80
  }

  /** The bits of a register, least significant first. */
  function Bits(b: bv8): (s: seq<bool>)
    ensures |s| == 8
    ensures forall i :: 0 <= i < 8 ==> s[i] == BitOf(b, i)
  {
    [BitOf(b, 0), BitOf(b, 1), BitOf(b, 2), BitOf(b, 3),
     BitOf(b, 4), BitOf(b, 5), BitOf(b, 6), BitOf(b, 7)]
  }

  function BitValue(s: seq<bool>, i: nat): bv8
    requires i < |s| && i < 8
  {
    if s[i] then Weight(i) else 0
  }

  /** The register whose bits, least significant first, are s. */
  function Pack(s: seq<bool>): bv8
    requires |s| == 8
  {
    PackFrom(s, 0)
  }

  /** Bits i..7 of the register whose bits are s. */
  function PackFrom(s: seq<bool>, i: nat): bv8
    requires |s| == 8 && i <= 8
    decreases 8 - i
  {
    if i == 8 then 0 else BitValue(s, i) | PackFrom(s, i + 1)
  }

  /** Pack written out. */
  lemma PackUnfolded(s: seq<bool>)
    requires |s| == 8
    ensures Pack(s) == BitValue(s, 0) | BitValue(s, 1) | BitValue(s, 2) | BitValue(s, 3)
                       | BitValue(s, 4) | BitValue(s, 5) | BitValue(s, 6) | BitValue(s, 7)
  {
    assert PackFrom(s, 7) == BitValue(s, 7) | 0;
    assert PackFrom(s, 6) == BitValue(s, 6) | PackFrom(s, 7);
    assert PackFrom(s, 5) == BitValue(s, 5) | PackFrom(s, 6);
    assert PackFrom(s, 4) == BitValue(s, 4) | PackFrom(s, 5);
    assert PackFrom(s, 3) == BitValue(s, 3) | PackFrom(s, 4);
    assert PackFrom(s, 2) == BitValue(s, 2) | PackFrom(s, 3);
    assert PackFrom(s, 1) == BitValue(s, 1) | PackFrom(s, 2);
  }

  lemma BitsOfPack(s: seq<bool>)
    requires |s| == 8
    ensures Bits(Pack(s)) == s
  {
    PackUnfolded(s);
  }

  lemma PackOfBits(b: bv8)
    ensures Pack(Bits(b)) == b
  {
    PackUnfolded(Bits(b));
  }

  /** Registers are equal exactly when their bits are. */
  lemma BitsInjective(a: bv8, b: bv8)
    ensures Bits(a) == Bits(b) <==> a == b
  {
    if Bits(a) == Bits(b) {
      PackOfBits(a);
      PackOfBits(b);
    }
  }

  function Zeros(n: nat): (s: seq<bool>)
    ensures |s| == n && forall i :: 0 <= i < n ==> !s[i]
  {
    seq(n, i => false)
  }

  /** `com Rd`: one's complement; the instruction also sets the carry. */
  function Complement(b: bv8): (r: bv8)
    ensures forall i :: 0 <= i < 8 ==> Bits(r)[i] == !Bits(b)[i]
  {
    !b
  }

  /** `lsr Rd`: shift right, a zero enters bit 7 and bit 0 leaves into the carry. */
  function ShiftRight(b: bv8): (r: (bv8, bool))
    ensures Bits(r.0) == Bits(b)[1..] + [false]
    ensures r.1 == Bits(b)[0]
  {
    (b >> 1, b & 1 == 1)
  }

  /** `ror Rd`: rotate right through the carry: the carry enters bit 7, bit 0 leaves into it. */
  function RotateRight(b: bv8, carry: bool): (r: (bv8, bool))
    ensures Bits(r.0) == Bits(b)[1..] + [carry]
    ensures r.1 == Bits(b)[0]
  {
    (if carry then (b >> 1) | 0x80 else b >> 1, b & 1 == 1)
  }

  /** `cbr Rd, K`: clear the bits of K (an `andi` with the complement; the carry is untouched). */
  function ClearBits(b: bv8, mask: bv8): (r: bv8)
    ensures forall i :: 0 <= i < 8 ==> BitOf(r, i) == (BitOf(b, i) && !BitOf(mask, i))
  {
    b & !mask
  }

  /** `sbr Rd, K`: set the bits of K (an `ori`; the carry is untouched). */
  function SetBits(b: bv8, mask: bv8): (r: bv8)
    ensures forall i :: 0 <= i < 8 ==> BitOf(r, i) == (BitOf(b, i) || BitOf(mask, i))
  {
    b | mask
  }

  /** `dec Rd` on a counter register: subtract one modulo 256 (the carry is untouched). */
  function Decrement(b: uint8): (r: uint8)
    ensures r == (b - 1) % 256
  {
    if b == 0 then 255 else b - 1
  }

  /**
   * `dec bits / brne 1b` on a loop counter that is not 0 from cycle `now`:
   * the counter goes down by one and the loop goes on unless it reached 0.
   */
  method DecBrne(bits: uint8, now: nat) returns (left: uint8, more: bool, t: nat)
    requires bits > 0
    ensures left == bits - 1 && more == (left != 0)
    ensures t == now + (if more then 3 else 2)
  {
    left := Decrement(bits);
    t := now + Cycles(Dec);
    more := left != 0;
    t := t + Cycles(Brne(more));
  }

  // ---------------------------------------------------------------------------
  // The Rx line

  /** A change of level on a line at a cycle. */
  datatype Edge = Edge(at: nat, high: bool)

  /**
   * The level changes of a line in the order they happen; before the first
   * one the line idles high, as an asynchronous serial line does.
   */
  type Line = seq<Edge>

  /** The level at cycle t: that of the last change at or before t, idle high before any. */
  function Level(line: Line, t: nat): bool
  {
    if |line| == 0 then true
    else if line[|line| - 1].at <= t then line[|line| - 1].high
    else Level(line[..|line| - 1], t)
  }

  /** The last cycle at which the line changes (0 for a line that never does). */
  function Horizon(line: Line): (h: nat)
    ensures forall k :: 0 <= k < |line| ==> line[k].at <= h
  {
    if |line| == 0 then 0
    else
      var rest := Horizon(line[..|line| - 1]);
      assert forall k :: 0 <= k < |line| - 1 ==> line[..|line| - 1][k] == line[k];
      if line[|line| - 1].at > rest then line[|line| - 1].at else rest
  }

  /** After its last change a line keeps its level for ever. */
  lemma {:induction false} LevelSettles(line: Line, t: nat, u: nat)
    requires Horizon(line) <= t && Horizon(line) <= u
    ensures Level(line, t) == Level(line, u)
  {
    if |line| > 0 {
      assert line[|line| - 1].at <= Horizon(line);
    }
  }

  /** Appending changes that happen after t leaves the level at t as it was. */
  lemma {:induction false} LevelOfPrefix(line: Line, more: Line, t: nat)
    requires forall k :: 0 <= k < |more| ==> more[k].at > t
    ensures Level(line + more, t) == Level(line, t)
    decreases |more|
  {
    if |more| > 0 {
      var whole := line + more;
      assert whole[|whole| - 1] == more[|more| - 1];
      assert Level(whole, t) == Level(whole[..|whole| - 1], t);
      assert whole[..|whole| - 1] == line + more[..|more| - 1];
      LevelOfPrefix(line, more[..|more| - 1], t);
    } else {
      assert line + more == line;
    }
  }

  /** A change at or before t that is the last one in the list fixes the level at t. */
  lemma LevelOfLast(line: Line, e: Edge, t: nat)
    requires e.at <= t
    ensures Level(line + [e], t) == e.high
  {
  }

  /**
   * The first turn of a busy-wait of the given period, started at t, that
   * sees the line at `level`; None when the line has settled at the other
   * level, so that the wait never ends.
   */
  function PollUntil(line: Line, t: nat, period: nat, level: bool): (r: Option<nat>)
    requires period > 0
    decreases Horizon(line) + period - t
  {
    if Level(line, t) == level then Some(t)
    else if t > Horizon(line) then None
    else PollUntil(line, t + period, period, level)
  }

  /**
   * What the busy-wait promises: when it ends, it ends at a turn where the
   * line is at `level`, and no earlier turn saw that level.
   */
  lemma {:induction false} PollUntilIsFirst(line: Line, t: nat, period: nat, level: bool)
    requires period > 0
    ensures var r := PollUntil(line, t, period, level);
      r.Some? ==> (r.value >= t && Level(line, r.value) == level
                   && forall k: nat :: t + k * period < r.value ==> Level(line, t + k * period) != level)
    decreases Horizon(line) + period - t
  {
    if Level(line, t) != level && t <= Horizon(line) {
      PollUntilIsFirst(line, t + period, period, level);
      forall k: nat | PollUntil(line, t, period, level).Some? && t + k * period < PollUntil(line, t, period, level).value
        ensures Level(line, t + k * period) != level
      {
        if k > 0 {
          assert t + k * period == t + period + (k - 1) * period;
        }
      }
    }
  }

  /** The busy-wait ends a whole number n of turns after it starts. */
  lemma {:induction false} PollUntilOnTurn(line: Line, t: nat, period: nat, level: bool) returns (n: nat)
    requires period > 0
    requires PollUntil(line, t, period, level).Some?
    ensures PollUntil(line, t, period, level).value == t + n * period
    decreases Horizon(line) + period - t
  {
    if Level(line, t) == level {
      n := 0;
    } else {
      var m := PollUntilOnTurn(line, t + period, period, level);
      n := m + 1;
      assert t + n * period == t + period + m * period;
    }
  }

  /** The busy-wait never ends only when every turn misses `level`. */
  lemma {:induction false} PollUntilNever(line: Line, t: nat, period: nat, level: bool)
    requires period > 0
    requires PollUntil(line, t, period, level).None?
    ensures forall k: nat :: Level(line, t + k * period) != level
    decreases Horizon(line) + period - t
  {
    if t > Horizon(line) {
      forall k: nat ensures Level(line, t + k * period) != level {
        LevelSettles(line, t, t + k * period);
      }
    } else {
      PollUntilNever(line, t + period, period, level);
      forall k: nat ensures Level(line, t + k * period) != level {
        if k > 0 {
          assert t + k * period == t + period + (k - 1) * period;
        }
      }
    }
  }

  /**
   * A busy-wait started at cycle t that tests the line once every `period`
   * cycles until it reads `level`: the cycle of the test that sees it, or
   * None when it never does.
   */
  method WaitUntil(line: Line, t: nat, period: nat, level: bool) returns (r: Option<nat>)
    requires period > 0
    ensures r == PollUntil(line, t, period, level)
  {
    var now := t;
    while Level(line, now) != level && now <= Horizon(line)
      invariant now >= t
      invariant PollUntil(line, now, period, level) == PollUntil(line, t, period, level)
      decreases Horizon(line) + period - now
    {
      now := now + period;
    }
    if Level(line, now) != level {
      return None;
    }
    return Some(now);
  }

  /**
   * `1: sbic PINx, n / rjmp 1b` started at cycle t: the cycle of the `sbic`
   * that sees the pin low, or None when it never does.  Each turn that sees
   * the pin high runs `sbic` without a skip and `rjmp`.
   */
  method WaitLow(line: Line, t: nat) returns (r: Option<nat>)
    ensures r == PollUntil(line, t, PollPeriod, false)
  {
    r := WaitUntil(line, t, Cycles(Sbic(false)) + Cycles(Rjmp), false);
  }
}
