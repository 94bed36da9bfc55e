/**
 * The padding that `put`, `get` and `get_bytes` place in their loops
 * (include/avr/uart/soft.hpp), chosen at compile time by `if constexpr`
 * chains from the cycle budgets, and the padding primitives of
 * include/avr/uart/detail/inline_asm.hpp with what they cost.
 */
module DelayPlan {
  import opened UartMath
  import opened Avr

  /**
   * A padding primitive: `nop`, `rjmp .` (a jump to the next instruction),
   * or the `ldi cnt, b / 1: dec cnt / brne 1b` countdown.
   */
  datatype Padding = OneNop | SelfJump | Countdown(count: uint8)

  /** How many times the countdown runs `dec`: b, or 256 for b = 0 (the register wraps). */
  function CountOf(b: uint8): (n: nat)
    ensures 1 <= n <= 256
    ensures b > 0 ==> n == b
  {
    if b == 0 then 256 else b
  }

  function PaddingCost(p: Padding): nat
  {
    match p
    case OneNop => Cycles(Nop)
    case SelfJump => Cycles(Rjmp)
    case Countdown(b) =>
      Cycles(Ldi) + CountOf(b) * Cycles(Dec)
      + (CountOf(b) - 1) * Cycles(Brne(true)) + Cycles(Brne(false))
  }

  /** `nop` costs 1, `rjmp .` 2, and the countdown with count b exactly 3*b (768 for b = 0). */
  lemma PaddingCosts(b: uint8)
    ensures PaddingCost(OneNop) == 1
    ensures PaddingCost(SelfJump) == 2
    ensures PaddingCost(Countdown(b)) == 3 * CountOf(b)
    ensures PaddingCost(Countdown(0)) == 768
  {
  }

  function Cost(plan: seq<Padding>): nat
  {
    if |plan| == 0 then 0 else PaddingCost(plan[0]) + Cost(plan[1..])
  }

  lemma {:induction false} CostAppend(a: seq<Padding>, b: seq<Padding>)
    ensures Cost(a + b) == Cost(a) + Cost(b)
    decreases |a|
  {
    if |a| == 0 {
      assert a + b == b;
    } else {
      assert (a + b)[1..] == a[1..] + b;
      CostAppend(a[1..], b);
    }
  }

  /**
   * Runs a padding plan on the core from cycle `now`, the countdown on an
   * 8-bit register; returns the cycle at which the next instruction starts.
   */
  method Pad(plan: seq<Padding>, now: nat) returns (t: nat)
    ensures t == now + Cost(plan)
  {
    t := now;
    var k := 0;
    while k < |plan|
      invariant 0 <= k <= |plan|
      invariant t + Cost(plan[k..]) == now + Cost(plan)
    {
      assert plan[k..][1..] == plan[k + 1..];
      match plan[k] {
        case OneNop =>
          t := t + Cycles(Nop);
        case SelfJump =>
          t := t + Cycles(Rjmp);
        case Countdown(b) =>
          t := RunCountdown(b, t);
      }
      k := k + 1;
    }
  }

  /** `ldi cnt, b / 1: dec cnt / brne 1b` from cycle `now`. */
  method RunCountdown(b: uint8, now: nat) returns (t: nat)
    ensures t == now + PaddingCost(Countdown(b))
  {
    var cnt: uint8 := b;
    t := now + Cycles(Ldi);
    cnt := Decrement(cnt);
    t := t + Cycles(Dec);
    ghost var decs := 1;
    while cnt != 0
      invariant 1 <= decs <= CountOf(b)
      invariant cnt == CountOf(b) - decs
      invariant t == now + 3 * decs - 1
      decreases cnt
    {
      t := t + Cycles(Brne(true));
      cnt := Decrement(cnt);
      t := t + Cycles(Dec);
      decs := decs + 1;
    }
    t := t + Cycles(Brne(false));
    PaddingCosts(b);
  }

  // ---------------------------------------------------------------------------
  // The padding macros that the `if constexpr` branches pass to the templates

  /**
   * A template argument: "" (nothing), `AVR_UART_DELAY_1_CYCLE`,
   * `AVR_UART_DELAY_2_CYCLE`, `AVR_UART_DELAY_3_CYCLE` (countdown with
   * `delay_b`) or `AVR_UART_DELAY_3_CYCLE_GET_SEQ` (countdown with
   * `one_half_delay_after_fst_bit_b`).
   */
  datatype Snippet = Empty | Delay1Cycle | Delay2Cycle | Delay3Cycle | Delay3CycleGetSeq

  function Expand(s: Snippet, delayB: uint8, afterB: uint8): seq<Padding>
  {
    match s
    case Empty => []
    case Delay1Cycle => [OneNop]
    case Delay2Cycle => [SelfJump]
    case Delay3Cycle => [Countdown(delayB)]
    case Delay3CycleGetSeq => [Countdown(afterB)]
  }

  /** The rest macro for a remainder of 0, 1 or 2 cycles. */
  function RestFor(r: nat): Snippet
    requires r < 3
  {
    if r == 0 then Empty else if r == 1 then Delay1Cycle else Delay2Cycle
  }

  /** A rest macro pads exactly its remainder. */
  lemma RestCost(r: nat, delayB: uint8, afterB: uint8)
    requires r < 3
    ensures Cost(Expand(RestFor(r), delayB, afterB)) == r
  {
  }

  /** A countdown with count budget / 3 followed by the rest for budget % 3 pads exactly budget. */
  lemma CountdownAndRest(budget: nat, afterB: uint8)
    requires 3 <= budget < 768
    ensures Cost(Expand(Delay3Cycle, (budget / 3) as uint8, afterB)
                 + Expand(RestFor(budget % 3), (budget / 3) as uint8, afterB)) == budget
  {
    var b := (budget / 3) as uint8;
    CostAppend(Expand(Delay3Cycle, b, afterB), Expand(RestFor(budget % 3), b, afterB));
    PaddingCosts(b);
    RestCost(budget % 3, b, afterB);
  }

  // ---------------------------------------------------------------------------
  // put: soft.hpp lines 155-194, keyed on delay = cycles_required - 8

  /** The two padding arguments of `AVR_UART_PUT_ASM_TMPL(delay, delay_rest)`. */
  datatype PutArgs = PutArgs(delay: Snippet, rest: Snippet)

  /** The branch `put` compiles; None when no branch applies and no loop is emitted. */
  function PutBranch(delay: int): Option<PutArgs>
  {
    if delay == 0 then Some(PutArgs(Empty, Empty))
    else if delay == 1 then Some(PutArgs(Delay1Cycle, Empty))
    else if delay == 2 then Some(PutArgs(Delay2Cycle, Empty))
    else if delay >= 3 then
      if delay % 3 == 0 then Some(PutArgs(Delay3Cycle, Empty))
      else if delay % 3 == 1 then Some(PutArgs(Delay3Cycle, Delay1Cycle))
      else Some(PutArgs(Delay3Cycle, Delay2Cycle))
    else None
  }

  /**
   * The per-bit padding `put` runs: the chosen branch with `delay_b = delay / 3`.
   * None when no branch applies, or when `uint8_t delay_b{delay / 3}` would
   * narrow, which does not compile.
   */
  function PutPadding(delay: int): Option<seq<Padding>>
  {
    match PutBranch(delay)
    case None => None
    case Some(args) =>
      if delay / 3 > 255 then None
      else
        var b := (if delay >= 3 then delay / 3 else 0) as uint8;
        Some(Expand(args.delay, b, 0) + Expand(args.rest, b, 0))
  }

  /**
   * Every non-negative budget has exactly one `put` branch (none below 0), and
   * the padding it selects costs exactly the budget.
   */
  lemma PutPaddingIsExact(delay: int)
    ensures PutBranch(delay).Some? <==> delay >= 0
    ensures PutPadding(delay).Some? <==> 0 <= delay < 768
    ensures PutPadding(delay).Some? ==> Cost(PutPadding(delay).value) == delay
  {
    if 3 <= delay < 768 {
      CountdownAndRest(delay, 0);
    }
  }

  // ---------------------------------------------------------------------------
  // get: soft.hpp lines 222-309, keyed on delay = cycles_required - 6 and one_half_delay % 3

  /** The condition on `delay` of a branch: `delay == n`, or `delay >= 3 && delay % 3 == residue`. */
  datatype DelayGuard = Exactly(n: nat) | AtLeastThree(residue: nat)

  predicate DelayHolds(g: DelayGuard, delay: int)
  {
    match g
    case Exactly(n) => delay == n
    case AtLeastThree(r) => delay >= 3 && delay % 3 == r
  }

  /** A branch of `get`: its condition and the arguments of `AVR_UART_GET_ASM_TMPL`. */
  datatype GetRow = GetRow(guard: DelayGuard, halfResidue: nat,
                           halfRest: Snippet, delay: Snippet, delayRest: Snippet)

  /** The twelve branches of `get`, in source order. */
  const GetRows: seq<GetRow> := [
    GetRow(Exactly(2), 0, Empty, Delay2Cycle, Empty),
    GetRow(Exactly(2), 1, Delay1Cycle, Delay2Cycle, Empty),
    GetRow(Exactly(2), 2, Delay2Cycle, Delay2Cycle, Empty),
    GetRow(AtLeastThree(0), 0, Empty, Delay3Cycle, Empty),
    GetRow(AtLeastThree(0), 1, Delay1Cycle, Delay3Cycle, Empty),
    GetRow(AtLeastThree(0), 2, Delay2Cycle, Delay3Cycle, Empty),
    GetRow(AtLeastThree(1), 0, Empty, Delay3Cycle, Delay1Cycle),
    GetRow(AtLeastThree(1), 1, Delay1Cycle, Delay3Cycle, Delay1Cycle),
    GetRow(AtLeastThree(1), 2, Delay2Cycle, Delay3Cycle, Delay1Cycle),
    GetRow(AtLeastThree(2), 0, Empty, Delay3Cycle, Delay2Cycle),
    GetRow(AtLeastThree(2), 1, Delay1Cycle, Delay3Cycle, Delay2Cycle),
    GetRow(AtLeastThree(2), 2, Delay2Cycle, Delay3Cycle, Delay2Cycle)
  ]

  predicate GetRowHolds(row: GetRow, delay: int, half: uint8)
  {
    DelayHolds(row.guard, delay) && half % 3 == row.halfResidue
  }

  /** The branch an `if constexpr ... else if` chain takes: the first row whose condition holds. */
  function FirstGetRow(delay: int, half: uint8, from: nat): (r: Option<nat>)
    requires from <= |GetRows|
    ensures r.Some? ==> from <= r.value < |GetRows| && GetRowHolds(GetRows[r.value], delay, half)
                        && forall j :: from <= j < r.value ==> !GetRowHolds(GetRows[j], delay, half)
    ensures r.None? ==> forall j :: from <= j < |GetRows| ==> !GetRowHolds(GetRows[j], delay, half)
    decreases |GetRows| - from
  {
    if from == |GetRows| then None
    else if GetRowHolds(GetRows[from], delay, half) then Some(from)
    else FirstGetRow(delay, half, from + 1)
  }

  /**
   * The branches of `get` never overlap, and under the assertion
   * cycles_required >= 8 (delay >= 2) one of them always applies.
   */
  lemma GetRowsPartition(delay: int, half: uint8)
    ensures forall i, j :: 0 <= i < j < |GetRows| ==>
      !(GetRowHolds(GetRows[i], delay, half) && GetRowHolds(GetRows[j], delay, half))
    ensures delay >= 2 <==> exists i :: 0 <= i < |GetRows| && GetRowHolds(GetRows[i], delay, half)
  {
    if delay >= 2 {
      var i := if delay == 2 then half % 3 else 3 + 3 * (delay % 3) + half % 3;
      assert GetRowHolds(GetRows[i as int], delay, half);
    }
  }

  /** The half-bit padding and the per-bit padding `get` runs. */
  datatype GetPlan = GetPlan(half: seq<Padding>, perBit: seq<Padding>)

  /**
   * `get`'s padding: the half-bit countdown with `one_half_delay / 3` and the
   * chosen rest, then the per-bit padding with `delay_b = delay / 3`.
   */
  function GetPadding(delay: int, half: uint8): Option<GetPlan>
  {
    match FirstGetRow(delay, half, 0)
    case None => None
    case Some(i) =>
      if delay / 3 > 255 then None
      else
        Some(GetPlanOf(GetRows[i], (if delay >= 3 then delay / 3 else 0) as uint8, half))
  }

  /** The padding a branch of `get` expands to with `delay_b` = b. */
  function GetPlanOf(row: GetRow, b: uint8, half: uint8): GetPlan
  {
    GetPlan([Countdown(half / 3)] + Expand(row.halfRest, b, 0),
            Expand(row.delay, b, 0) + Expand(row.delayRest, b, 0))
  }

  /**
   * For every budget delay >= 2 that fits `delay_b`, `get`'s padding exists,
   * pads each bit by exactly `delay` cycles and the half bit by exactly
   * `one_half_delay` cycles when its count is not 0.
   */
  lemma GetPaddingIsExact(delay: int, half: uint8)
    ensures GetPadding(delay, half).Some? <==> 2 <= delay < 768
    ensures GetPadding(delay, half).Some? ==>
      var plan := GetPadding(delay, half).value;
      Cost(plan.perBit) == delay
      && Cost(plan.half) == 3 * CountOf(half / 3) + half % 3
  {
    GetRowsPartition(delay, half);
    if 2 <= delay {
      var i := if delay == 2 then half % 3 else 3 + 3 * (delay % 3) + half % 3;
      assert GetRowHolds(GetRows[i], delay, half);
      assert FirstGetRow(delay, half, 0) == Some(i);
      if delay < 768 {
        GetRowCosts(GetRows[i], delay, half);
      }
    }
  }

  /** The branch chosen for a budget pads each piece exactly. */
  lemma GetRowCosts(row: GetRow, delay: int, half: uint8)
    requires 2 <= delay < 768
    requires row.halfRest == RestFor(half % 3)
    requires delay == 2 ==> row.delay == Delay2Cycle && row.delayRest == Empty
    requires delay >= 3 ==> row.delay == Delay3Cycle && row.delayRest == RestFor(delay % 3)
    ensures var plan := GetPlanOf(row, (if delay >= 3 then delay / 3 else 0) as uint8, half);
      Cost(plan.perBit) == delay
      && Cost(plan.half) == 3 * CountOf(half / 3) + half % 3
  {
    var b := (if delay >= 3 then delay / 3 else 0) as uint8;
    CostAppend([Countdown(half / 3)], Expand(row.halfRest, b, 0));
    PaddingCosts(half / 3);
    RestCost(half % 3, b, 0);
    if delay >= 3 {
      CountdownAndRest(delay, 0);
    } else {
      assert Expand(row.delay, b, 0) + Expand(row.delayRest, b, 0) == [SelfJump];
    }
  }
}
