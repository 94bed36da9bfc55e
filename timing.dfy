/**
 * Configuration-time timing constants of `soft<TxPin, RxPin, baud_rate, clk_cpu>`
 * (include/avr/uart/soft.hpp).
 *
 * `bit_length_cycles(clk, baud)` is the ratio clk/baud, kept exact here as the
 * pair (clk, baud).  Each constant is `round` of a rational; a constant whose
 * `round` is undefined makes the instantiation fail to compile, which the model
 * reports as None.
 */
module Timing {
  import opened UartMath

  /** `uint32_t`, the type of the `baud_rate` and `clk_cpu` template arguments. */
  type uint32 = x: int | 0 <= x < 0x1_0000_0000

  /**
   * `cycles_required = round(bit_length_cycles(clk, bitrate))`.
   * A zero baud rate divides by zero; the infinite or NaN quotient cannot be
   * converted to `uint8_t`, so that configuration does not compile either.
   */
  function CyclesRequired(clk: uint32, baud: uint32): (c: Option<uint8>)
    ensures c.Some? <==> baud > 0 && clk < 256 * baud
  {
    if baud == 0 then None else Round(clk, baud)
  }

  /** The two static assertions on `cycles_required` (8 <= cycles_required <= 513). */
  predicate Accepted(clk: uint32, baud: uint32)
  {
    var c := CyclesRequired(clk, baud);
    c.Some? && 8 <= c.value <= 513
  }

  /**
   * The configurations the class accepts are exactly 7.5 <= clk/baud < 255.5:
   * because `round` returns `uint8_t`, the lower assertion is the only one that
   * can ever fail, and the real upper limit is 255.5, not 513.
   */
  lemma {:induction false} AcceptedRange(clk: uint32, baud: uint32)
    ensures Accepted(clk, baud) <==> baud > 0 && 15 * baud <= 2 * clk < 511 * baud
  {
    if baud > 0 && clk < 256 * baud {
      if 2 * clk < 511 * baud {
        RoundIsHalfUp(clk, baud);
        HalfUpAtLeast(clk, baud, 8);
      } else {
        RoundWrapsToZero(clk, baud);
      }
    }
  }

  /** The nearest-integer reading of `cycles_required` for an accepted configuration. */
  lemma CyclesRequiredIsNearest(clk: uint32, baud: uint32)
    requires Accepted(clk, baud)
    ensures baud > 0
    ensures var c := CyclesRequired(clk, baud).value;
      2 * baud * c - baud <= 2 * clk < 2 * baud * c + baud
  {
    AcceptedRange(clk, baud);
    RoundIsHalfUp(clk, baud);
  }

  /** `one_half_delay = round(1.5 * bit_length_cycles - 4)`, i.e. round((3*clk - 8*baud) / (2*baud)). */
  function OneHalfDelay(clk: uint32, baud: uint32): (h: Option<uint8>)
    requires baud > 0
    ensures h.Some? <==> -2 * baud < 3 * clk - 8 * baud < 512 * baud
  {
    Round(3 * clk - 8 * baud, 2 * baud)
  }

  /** `one_half_delay_after_fst_bit = round(1.5 * bit_length_cycles - 10)`. */
  function OneHalfDelayAfterFstBit(clk: uint32, baud: uint32): (a: Option<uint8>)
    requires baud > 0
    ensures a.Some? <==> -2 * baud < 3 * clk - 20 * baud < 512 * baud
  {
    Round(3 * clk - 20 * baud, 2 * baud)
  }

  /**
   * `get()` compiles when the class does and `one_half_delay` is a constant,
   * i.e. when its `round` is defined.
   */
  predicate GetAccepted(clk: uint32, baud: uint32)
  {
    Accepted(clk, baud) && OneHalfDelay(clk, baud).Some?
  }

  /** `get_bytes<N>()` further asserts `cycles_required >= 16` and needs its second offset. */
  predicate GetBytesAccepted(clk: uint32, baud: uint32)
  {
    GetAccepted(clk, baud) && CyclesRequired(clk, baud).value >= 16
    && OneHalfDelayAfterFstBit(clk, baud).Some?
  }

  /**
   * Where `one_half_delay` does not wrap, it places the first sample between
   * one and two bit periods after the edge, with room for the 3-cycle polling
   * jitter: cycles_required <= one_half_delay + 4 and one_half_delay + 7 <= 2 * cycles_required.
   * It is at least 7, so its countdown count one_half_delay / 3 is never 0.
   */
  lemma {:induction false} OneHalfDelayWindow(clk: uint32, baud: uint32)
    requires GetAccepted(clk, baud)
    requires 3 * clk - 8 * baud < 511 * baud
    ensures var c, h := CyclesRequired(clk, baud).value, OneHalfDelay(clk, baud).value;
      c <= h + 4 && h + 7 <= 2 * c && h >= 7 && h / 3 >= 2
  {
    CyclesRequiredIsNearest(clk, baud);
    AcceptedRange(clk, baud);
    var c: int := CyclesRequired(clk, baud).value;
    RoundIsHalfUp(3 * clk - 8 * baud, 2 * baud);
    var h: int := OneHalfDelay(clk, baud).value;
    assert h == HalfUp(3 * clk - 8 * baud, 2 * baud);
    assert 2 * (2 * baud) * h - 2 * baud <= 2 * (3 * clk - 8 * baud);
    assert 2 * (3 * clk - 8 * baud) < 2 * (2 * baud) * h + 2 * baud;
    WindowArithmetic(baud, c, clk, h);

  }

  /**
   * c is the nearest integer to clk/baud and h the nearest integer to
   * 1.5 * clk/baud - 4; then c - 4 <= h <= 2c - 7 once c >= 8.
   */
  lemma WindowArithmetic(baud: int, c: int, clk: int, h: int)
    requires baud > 0 && c >= 8
    requires 2 * baud * c - baud <= 2 * clk < 2 * baud * c + baud
    requires 2 * (2 * baud) * h - 2 * baud <= 2 * (3 * clk - 8 * baud) < 2 * (2 * baud) * h + 2 * baud
    ensures c <= h + 4 && h + 7 <= 2 * c && h >= 7 && h / 3 >= 2
  {
    assert baud * (6 * c - 21) < baud * (4 * h);
    MulCancelLess(baud, 6 * c - 21, 4 * h);
    assert baud * (4 * h) < baud * (6 * c - 11);
    MulCancelLess(baud, 4 * h, 6 * c - 11);
  }

  /** round(x - 6) = round(x) - 6 where neither rounding wraps: the two burst offsets differ by 6. */
  lemma AfterFstBitIsOneHalfMinusSix(clk: uint32, baud: uint32)
    requires GetBytesAccepted(clk, baud)
    requires 3 * clk - 8 * baud < 511 * baud
    ensures OneHalfDelayAfterFstBit(clk, baud).value == OneHalfDelay(clk, baud).value - 6
    ensures OneHalfDelayAfterFstBit(clk, baud).value % 3 == OneHalfDelay(clk, baud).value % 3
  {
    CyclesRequiredIsNearest(clk, baud);
    ShiftArithmetic(baud, CyclesRequired(clk, baud).value, clk);
    OffsetsDifferBySix(clk, baud);
  }

  lemma OffsetsDifferBySix(clk: uint32, baud: uint32)
    requires baud > 0 && 20 * baud <= 3 * clk && 3 * clk - 8 * baud < 511 * baud
    ensures OneHalfDelayAfterFstBit(clk, baud).value == OneHalfDelay(clk, baud).value - 6
    ensures OneHalfDelayAfterFstBit(clk, baud).value % 3 == OneHalfDelay(clk, baud).value % 3
  {
    OneHalfDelayIsHalfUp(clk, baud);
    AfterFstBitIsHalfUp(clk, baud);
    HalfUpShift(3 * clk - 8 * baud, 3 * clk - 20 * baud, 2 * baud, 6);
    ResidueOfShift(OneHalfDelay(clk, baud).value);
  }

  /** Taking six away keeps the residue modulo 3. */
  lemma ResidueOfShift(x: int)
    ensures (x - 6) % 3 == x % 3
  {
    DivUnique(x, 3, (x - 6) / 3 + 2, (x - 6) % 3);
  }

  lemma OneHalfDelayIsHalfUp(clk: uint32, baud: uint32)
    requires baud > 0 && 8 * baud <= 3 * clk && 3 * clk - 8 * baud < 511 * baud
    ensures OneHalfDelay(clk, baud) == Some(HalfUp(3 * clk - 8 * baud, 2 * baud))
  {
    RoundIsHalfUp(3 * clk - 8 * baud, 2 * baud);
  }

  lemma AfterFstBitIsHalfUp(clk: uint32, baud: uint32)
    requires baud > 0 && 20 * baud <= 3 * clk && 3 * clk - 20 * baud < 511 * baud
    ensures OneHalfDelayAfterFstBit(clk, baud) == Some(HalfUp(3 * clk - 20 * baud, 2 * baud))
  {
    RoundIsHalfUp(3 * clk - 20 * baud, 2 * baud);
  }

  /** round-half-up commutes with subtracting an integer: HalfUp(p - k*q, q) = HalfUp(p, q) - k. */
  lemma HalfUpShift(p: int, p': int, q: int, k: int)
    requires q > 0 && k >= 0 && p' == p - k * q && p' >= 0
    ensures HalfUp(p', q) == HalfUp(p, q) - k
  {
    var h := HalfUp(p, q);
    assert 2 * q * (h - k) == 2 * q * h - 2 * (k * q);
    HalfUpAtLeast(p', q, h - k);
    HalfUpAtMost(p', q, h - k);
  }

  lemma ShiftArithmetic(baud: int, c: int, clk: int)
    requires baud > 0 && c >= 16
    requires 2 * baud * c - baud <= 2 * clk
    ensures 3 * clk - 8 * baud - 12 * baud >= 0
  {
    assert 16 * baud <= baud * c;
  }

  /** In `get_bytes` both half-bit offsets are at least 3: their countdown counts are never 0. */
  lemma GetBytesOffsetsPositive(clk: uint32, baud: uint32)
    requires GetBytesAccepted(clk, baud)
    requires 3 * clk - 8 * baud < 511 * baud
    ensures OneHalfDelay(clk, baud).value / 3 >= 1
    ensures OneHalfDelayAfterFstBit(clk, baud).value / 3 >= 1
  {
    OneHalfDelayWindow(clk, baud);
    AfterFstBitIsOneHalfMinusSix(clk, baud);
  }

  /**
   * The settling pause of `request_to_send`:
   * round(14e-6 / (1.0 / clk) - 1) = round((14 * clk - 1000000) / 1000000).
   */
  function RtsDelay(clk: uint32): (d: Option<uint8>)
    ensures d.Some? <==> 14 * clk < 257000000 && clk > 0
  {
    Round(14 * clk - 1000000, 1000000)
  }

  /** `static_assert(delay <= 255)` in `request_to_send`. */
  predicate RtsAccepted(clk: uint32)
  {
    var d := RtsDelay(clk);
    d.Some? && d.value <= 255
  }

  /**
   * The assertion `delay <= 255` cannot fail: `round` already returns
   * `uint8_t`, so `request_to_send` compiles exactly when `round` is defined.
   */
  lemma RtsAssertionNeverDecides(clk: uint32)
    ensures RtsAccepted(clk) <==> 0 < clk && 14 * clk < 257000000
  {
  }

  // ---------------------------------------------------------------------------
  // The constants in a type wide enough for what the assertions say

  /**
   * `cycles_required` as the assertion `cycles_required <= 513` reads it:
   * the nearest integer to clk/baud (halves up), in a type that holds 513.
   */
  function CyclesRequiredWide(clk: uint32, baud: uint32): (c: Option<nat>)
    ensures c.Some? <==> baud > 0
    ensures c.Some? ==> 2 * baud * c.value - baud <= 2 * clk < 2 * baud * c.value + baud
  {
    if baud == 0 then None else Some(HalfUp(clk, baud))
  }

  /** The two static assertions on the wide `cycles_required`. */
  predicate AcceptedWide(clk: uint32, baud: uint32)
  {
    var c := CyclesRequiredWide(clk, baud);
    c.Some? && 8 <= c.value <= 513
  }

  /** With the wide constant the assertions accept exactly 7.5 <= clk/baud < 513.5. */
  lemma AcceptedWideRange(clk: uint32, baud: uint32)
    ensures AcceptedWide(clk, baud) <==> baud > 0 && 15 * baud <= 2 * clk < 1027 * baud
  {
    if baud > 0 {
      HalfUpAtLeast(clk, baud, 8);
      HalfUpAtMost(clk, baud, 513);
    }
  }

  /** Every configuration the written class accepts, the wide one accepts with the same constant. */
  lemma AcceptedWideAgrees(clk: uint32, baud: uint32)
    requires Accepted(clk, baud)
    ensures AcceptedWide(clk, baud)
    ensures CyclesRequiredWide(clk, baud).value == CyclesRequired(clk, baud).value
  {
    AcceptedRange(clk, baud);
    AcceptedWideRange(clk, baud);
    RoundIsHalfUp(clk, baud);
  }

  /**
   * The upper assertion as written never decides: a ratio of 257 (below 513)
   * is rejected because `round` cannot return it, and a ratio of 255.7 rounds
   * to 0 and is reported by the lower assertion.
   */
  lemma UpperBoundUnreachable()
    ensures !Accepted(2570000, 10000) && AcceptedWide(2570000, 10000)
    ensures CyclesRequired(2557000, 10000) == Some(0) && !Accepted(2557000, 10000)
    ensures CyclesRequiredWide(2557000, 10000) == Some(256) && AcceptedWide(2557000, 10000)
  {
    AcceptedWideRange(2570000, 10000);
    AcceptedWideRange(2557000, 10000);
    RoundWrapsToZero(2557000, 10000);
    DivUnique(2 * 2557000 + 10000, 2 * 10000, 256, 4000);
  }

  /**
   * `one_half_delay` in a type that does not wrap: the nearest integer to
   * 1.5 * clk/baud - 4, which is positive for every accepted configuration.
   */
  function OneHalfDelayWide(clk: uint32, baud: uint32): (h: nat)
    requires Accepted(clk, baud)
    ensures baud > 0
    ensures 2 * (2 * baud) * h - 2 * baud <= 2 * (3 * clk - 8 * baud) < 2 * (2 * baud) * h + 2 * baud
  {
    AcceptedRange(clk, baud);
    HalfUp(3 * clk - 8 * baud, 2 * baud)
  }

  /**
   * The wide `one_half_delay` puts the first sample inside the first data bit
   * for every accepted configuration, with a countdown count of at least 2.
   */
  lemma OneHalfDelayWideWindow(clk: uint32, baud: uint32)
    requires Accepted(clk, baud)
    ensures var c, h := CyclesRequired(clk, baud).value, OneHalfDelayWide(clk, baud);
      c <= h + 4 && h + 7 <= 2 * c && h / 3 >= 2
  {
    CyclesRequiredIsNearest(clk, baud);
    AcceptedRange(clk, baud);
    WindowArithmetic(baud, CyclesRequired(clk, baud).value, clk, OneHalfDelayWide(clk, baud));
  }

  /** Where the written `one_half_delay` does not wrap, it is the wide one. */
  lemma OneHalfDelayWideAgrees(clk: uint32, baud: uint32)
    requires Accepted(clk, baud) && 3 * clk - 8 * baud < 511 * baud
    ensures OneHalfDelay(clk, baud) == Some(OneHalfDelayWide(clk, baud))
  {
    AcceptedRange(clk, baud);
    OneHalfDelayIsHalfUp(clk, baud);
  }

  /**
   * Wherever `get` compiles and `one_half_delay` wraps, it wraps to 0: the
   * rounded value can only be 256, since anything above does not compile.
   */
  lemma OneHalfDelayWrapsToZero(clk: uint32, baud: uint32)
    requires GetAccepted(clk, baud) && 3 * clk - 8 * baud >= 511 * baud
    ensures OneHalfDelay(clk, baud) == Some(0)
  {
    RoundWrapsToZero(3 * clk - 8 * baud, 2 * baud);
  }

  /**
   * The written `one_half_delay` fails an accepted configuration: at
   * clk/baud = 173 it is round(255.5), which wraps to 0, so the half-bit
   * countdown runs 256 times and the window is lost; at clk/baud = 200 it
   * is not defined and `get` does not compile.
   */
  lemma OneHalfDelayWraps()
    ensures Accepted(1730000, 10000) && CyclesRequired(1730000, 10000) == Some(173)
    ensures OneHalfDelay(1730000, 10000) == Some(0) && OneHalfDelayWide(1730000, 10000) == 256
    ensures Accepted(2000000, 10000) && OneHalfDelay(2000000, 10000).None?
  {
    AcceptedRange(1730000, 10000);
    AcceptedRange(2000000, 10000);
    RoundOfInteger(173, 10000);
    RoundWrapsToZero(3 * 1730000 - 8 * 10000, 2 * 10000);
    DivUnique(2 * (3 * 1730000 - 8 * 10000) + 2 * 10000, 2 * (2 * 10000), 256, 0);
  }

  /**
   * The pause of `request_to_send` in a wide type: round(14e-6 * clk - 1),
   * 0 below 1/14 MHz where the argument lies in (-1, 0), undefined for clk = 0.
   */
  function RtsDelayWide(clk: uint32): (d: Option<nat>)
    ensures d.Some? <==> clk > 0
    ensures d.Some? && 14 * clk >= 1000000 ==>
      2 * 1000000 * d.value - 1000000 <= 2 * (14 * clk - 1000000) < 2 * 1000000 * d.value + 1000000
  {
    if clk == 0 then None
    else if 14 * clk < 1000000 then Some(0)
    else Some(HalfUp(14 * clk - 1000000, 1000000))
  }

  /** `static_assert(delay <= 255)` on the wide pause. */
  predicate RtsAcceptedWide(clk: uint32)
  {
    var d := RtsDelayWide(clk);
    d.Some? && d.value <= 255
  }

  /** On the wide pause the assertion decides: clocks up to 255.5 + 1 = 256.5 MHz / 14. */
  lemma RtsAcceptedWideRange(clk: uint32)
    ensures RtsAcceptedWide(clk) <==> 0 < clk && 28 * clk < 513000000
  {
    if clk > 0 && 14 * clk >= 1000000 {
      HalfUpAtMost(14 * clk - 1000000, 1000000, 255);
    }
  }

  /** Where the wide assertion holds, the written pause is the wide one. */
  lemma RtsDelayWideAgrees(clk: uint32)
    requires RtsAcceptedWide(clk)
    ensures RtsAccepted(clk) && RtsDelay(clk).value == RtsDelayWide(clk).value
  {
    RtsAcceptedWideRange(clk);
    if 14 * clk >= 1000000 {
      RoundIsHalfUp(14 * clk - 1000000, 1000000);
    } else {
      RoundOfSmallNegative(14 * clk - 1000000, 1000000);
    }
  }

  /**
   * At 18.34 MHz the written pause is round(255.76), which wraps to 0 and
   * passes `delay <= 255`; the wide pause is 256 and fails it.
   */
  lemma RtsDelayWraps()
    ensures RtsAccepted(18340000) && RtsDelay(18340000) == Some(0)
    ensures RtsDelayWide(18340000) == Some(256) && !RtsAcceptedWide(18340000)
  {
    RoundWrapsToZero(14 * 18340000 - 1000000, 1000000);
    DivUnique(2 * (14 * 18340000 - 1000000) + 1000000, 2 * 1000000, 256, 520000);
  }
}
