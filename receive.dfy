/**
 * `AVR_UART_GET_ASM_TMPL` (include/avr/uart/detail/inline_asm.hpp lines
 * 29-43), the loop `get` runs: it busy-waits for the start bit, waits one
 * and a half bit periods with a countdown and its rest, then nine times
 * rotates the byte right through the carry, sets the carry when Rx reads
 * high, and pads.  The ninth rotation pushes the eighth data bit into place;
 * the sample taken in the ninth turn (the stop bit) is never stored.
 */
module Receive {
  import opened UartMath
  import opened Avr
  import opened DelayPlan

  /** A received byte and the cycle at which the receiving loop ends. */
  datatype Reception = Reception(byte: bv8, finish: nat)

  /** The levels of the line at n cycles `period` apart, from cycle `first`. */
  function Samples(line: Line, first: nat, period: nat, n: nat): (s: seq<bool>)
    ensures |s| == n
  {
    seq(n, i requires 0 <= i < n => Level(line, first + i * period))
  }

  /** Sample k is the level k periods after the first. */
  lemma SampleAt(line: Line, first: nat, period: nat, n: nat, k: nat)
    requires k < n
    ensures Samples(line, first, period, n)[k] == Level(line, first + k * period)
  {
  }

  /**
   * The register after k turns of the loop, given the samples s and the carry
   * cin left over from before the loop: the carries rotated in so far occupy
   * the top k places, the rest are the zeros the byte started as.
   */
  function Window(s: seq<bool>, cin: bool, k: nat): (w: seq<bool>)
    requires |s| == 9 && k <= 9
    ensures |w| == 8
  {
    seq(8, i requires 0 <= i < 8 =>
      if i + k > 8 then s[i + k - 9] else if i + k == 8 then cin else false)
  }

  /**
   * The carry at the top of turn k: the entry carry, then the sample of the
   * previous turn (when Rx reads low, `sbic` skips `sec` and the carry keeps
   * the bit `ror` shifted out, which is the entry carry only in the last turn).
   */
  function CarryAt(s: seq<bool>, cin: bool, k: nat): bool
    requires |s| == 9 && k <= 9
  {
    if k == 0 then cin else if k <= 8 then s[k - 1] else s[8] || cin
  }

  /** One turn of the loop moves the window and the carry on by one sample. */
  lemma WindowStep(s: seq<bool>, cin: bool, k: nat)
    requires |s| == 9 && k < 9
    ensures Window(s, cin, k)[1..] + [CarryAt(s, cin, k)] == Window(s, cin, k + 1)
    ensures CarryAt(s, cin, k + 1) == (s[k] || Window(s, cin, k)[0])
  {
  }

  /** After nine turns the register holds the first eight samples: the entry carry is gone. */
  lemma WindowFull(s: seq<bool>, cin: bool)
    requires |s| == 9
    ensures Window(s, cin, 9) == s[..8]
  {
  }

  /** The `get` loop from cycle t0 with padding `plan` finishes `Reception(Pack(s[..8]), ...)`. */
  function GetResult(line: Line, t0: nat, plan: GetPlan): Option<Reception>
  {
    match PollUntil(line, t0, PollPeriod, false)
    case None => None
    case Some(te) =>
      var first := te + 4 + Cost(plan.half);
      var period := 6 + Cost(plan.perBit);
      Some(Reception(Pack(Samples(line, first, period, 8)), first + 9 * period - 2))
  }

  /** What holds at the top of turn k of the loop that starts at cycle `start`. */
  ghost predicate GetInvariant(line: Line, start: nat, period: nat, cin: bool, k: nat,
                               byte: bv8, carry: bool, bits: uint8, now: nat)
  {
    var s := Samples(line, start + 1, period, 9);
    k <= 9 && bits == 9 - k
    && now == start + k * period - (if k == 9 then 1 else 0)
    && Bits(byte) == Window(s, cin, k)
    && carry == CarryAt(s, cin, k)
  }

  /** The timing of one turn: the next starts one period later, the last ends a cycle early. */
  lemma GetTurnTiming(start: nat, period: nat, k: nat, now: nat, now': nat, bits': int)
    requires k < 9 && bits' == 8 - k && period >= 6
    requires now == start + k * period
    requires now' == now + 1 + 2 + (period - 6) + (if bits' != 0 then 3 else 2)
    ensures now' == start + (k + 1) * period - (if k + 1 == 9 then 1 else 0)
    ensures now + 1 == start + 1 + k * period
  {
    assert (k + 1) * period == k * period + period;
  }

  /** The register and carry after `ror` and `sbic`/`sec` in turn k are those of turn k + 1. */
  lemma GetTurnBits(s: seq<bool>, cin: bool, k: nat, byte: bv8, carry: bool,
                    byte': bv8, carry': bool)
    requires |s| == 9 && k < 9
    requires Bits(byte) == Window(s, cin, k) && carry == CarryAt(s, cin, k)
    requires byte' == RotateRight(byte, carry).0
    requires carry' == (s[k] || RotateRight(byte, carry).1)
    ensures Bits(byte') == Window(s, cin, k + 1) && carry' == CarryAt(s, cin, k + 1)
  {
    WindowStep(s, cin, k);
  }

  /** The facts of the turn lemmas are the invariant of the next turn. */
  lemma NextGetInvariant(line: Line, start: nat, period: nat, cin: bool, k: nat,
                         byte: bv8, carry: bool, bits: uint8, now: nat)
    requires k < 9 && bits == 8 - k
    requires now == start + (k + 1) * period - (if k + 1 == 9 then 1 else 0)
    requires Bits(byte) == Window(Samples(line, start + 1, period, 9), cin, k + 1)
    requires carry == CarryAt(Samples(line, start + 1, period, 9), cin, k + 1)
    ensures GetInvariant(line, start, period, cin, k + 1, byte, carry, bits, now)
  {
  }

  /**
   * `sbic PINx, n / sec` at cycle `now`: the carry is set when Rx reads high
   * and kept otherwise; two cycles whether `sbic` skips or not.
   */
  method SampleRx(line: Line, carry: bool, now: nat) returns (carry': bool, t: nat)
    ensures carry' == (Level(line, now) || carry)
    ensures t == now + 2
  {
    t := now;
    if Level(line, now) {
      t := t + Cycles(Sbic(false));
      carry' := true;
      t := t + Cycles(Sec);
    } else {
      t := t + Cycles(Sbic(true));
      carry' := carry;
    }
  }

  /** The effect of one turn, stated on values, is the step from the invariant of turn k to that of turn k + 1. */
  lemma GetTurnStep(line: Line, start: nat, period: nat, cin: bool, k: nat,
                    byte: bv8, carry: bool, bits: uint8, now: nat,
                    byte': bv8, carry': bool, bits': int, now': nat)
    requires k < 9 && period >= 6
    requires GetInvariant(line, start, period, cin, k, byte, carry, bits, now)
    requires byte' == RotateRight(byte, carry).0
    requires carry' == (Level(line, now + 1) || RotateRight(byte, carry).1)
    requires bits' == bits - 1
    requires now' == now + 1 + 2 + (period - 6) + (if bits' != 0 then 3 else 2)
    ensures 0 <= bits' < 256
    ensures GetInvariant(line, start, period, cin, k + 1, byte', carry', bits', now')
  {
    var s := Samples(line, start + 1, period, 9);
    GetTurnTiming(start, period, k, now, now', bits');
    SampleAt(line, start + 1, period, 9, k);
    GetTurnBits(s, cin, k, byte, carry, byte', carry');
    NextGetInvariant(line, start, period, cin, k, byte', carry', bits', now');
  }

  /** One turn: `ror`, `sbic`/`sec`, the per-bit padding, `dec`/`brne`. */
  method GetTurn(line: Line, perBit: seq<Padding>, byte: bv8, carry: bool, bits: uint8, now: nat,
                 ghost start: nat, ghost cin: bool, ghost k: nat)
    returns (byte': bv8, carry': bool, bits': uint8, now': nat)
    requires k < 9
    requires GetInvariant(line, start, 6 + Cost(perBit), cin, k, byte, carry, bits, now)
    ensures GetInvariant(line, start, 6 + Cost(perBit), cin, k + 1, byte', carry', bits', now')
  {
    var rotated := RotateRight(byte, carry);
    byte', carry' := rotated.0, rotated.1;
    var t := now + Cycles(Ror);
    carry', t := SampleRx(line, carry', t);
    t := Pad(perBit, t);
    var more;
    bits', more, now' := DecBrne(bits, t);
    GetTurnStep(line, start, 6 + Cost(perBit), cin, k, byte, carry, bits, now,
                byte', carry', bits', now');
  }

  /** The loop's entry establishes the invariant of turn 0. */
  lemma GetEntry(line: Line, start: nat, period: nat, cin: bool)
    ensures GetInvariant(line, start, period, cin, 0, 0, cin, 9, start)
  {
    var s := Samples(line, start + 1, period, 9);
    assert Bits(0) == Window(s, cin, 0);
  }

  /** After the ninth turn the register holds the eight data samples: the result of `get`. */
  lemma GetExit(line: Line, t0: nat, plan: GetPlan, te: nat, start: nat, cin: bool,
                byte: bv8, carry: bool, now: nat)
    requires PollUntil(line, t0, PollPeriod, false) == Some(te)
    requires start == te + 3 + Cost(plan.half)
    requires GetInvariant(line, start, 6 + Cost(plan.perBit), cin, 9, byte, carry, 0, now)
    ensures GetResult(line, t0, plan) == Some(Reception(byte, now))
  {
    var period := 6 + Cost(plan.perBit);
    var s := Samples(line, start + 1, period, 9);
    WindowFull(s, cin);
    assert s[..8] == Samples(line, start + 1, period, 8);
    PackOfBits(byte);
  }

  /**
   * `get`'s loop from cycle t0, with padding `plan` and the carry flag `cin`
   * left by the code before it.  The source blocks forever when the start bit
   * never comes; the model returns None then.
   */
  method Get(line: Line, t0: nat, plan: GetPlan, cin: bool) returns (r: Option<Reception>)
    ensures r == GetResult(line, t0, plan)
  {
    var edge := WaitLow(line, t0);
    if edge.None? {
      return None;
    }
    var now: nat := edge.value + Cycles(Sbic(true));
    now := Pad(plan.half, now);
    var byte: bv8 := 0;
    var carry := cin;
    var bits: uint8 := 9;
    now := now + Cycles(Ldi);
    ghost var start := now;
    ghost var k: nat := 0;
    GetEntry(line, start, 6 + Cost(plan.perBit), cin);
    // The loop test stands for the `brne 2b` at the end of the previous turn.
    while bits != 0
      invariant GetInvariant(line, start, 6 + Cost(plan.perBit), cin, k, byte, carry, bits, now)
      decreases bits
    {
      byte, carry, bits, now := GetTurn(line, plan.perBit, byte, carry, bits, now, start, cin, k);
      k := k + 1;
    }
    GetExit(line, t0, plan, edge.value, start, cin, byte, carry, now);
    return Some(Reception(byte, now));
  }

  /**
   * The byte `get` returns is its eight data samples and nothing else: it
   * depends neither on the carry on entry nor on the stop bit's level, and a
   * line that carries the levels of a byte at the sample cycles yields that byte.
   */
  lemma GetDecodes(line: Line, t0: nat, plan: GetPlan, data: bv8, te: nat)
    requires PollUntil(line, t0, PollPeriod, false) == Some(te)
    requires Samples(line, te + 4 + Cost(plan.half), 6 + Cost(plan.perBit), 8) == Bits(data)
    ensures GetResult(line, t0, plan).Some? && GetResult(line, t0, plan).value.byte == data
  {
    PackOfBits(data);
  }
}
