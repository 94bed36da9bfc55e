/**
 * The padding `get_bytes<N>` chooses (include/avr/uart/soft.hpp lines
 * 347-698): an `if constexpr` chain of 27 branches keyed on the residues mod
 * 3 of `delay = cycles_required - 8`, `one_half_delay` and
 * `one_half_delay_after_fst_bit`, each passing five padding arguments to
 * `AVR_UART_GET_SEQ_ASM_TMPL`.
 *
 * The chain as written repeats the condition of its 17th branch (0-based
 * 16, line 555) in the next one (line 568), whose arguments are those meant
 * for the residues (1, 2, 2); that combination has no branch.  The model
 * keeps the chain as written and, next to it, the chain with that condition
 * corrected, which the receiver model uses.
 */
module BurstPlan {
  import opened UartMath
  import opened DelayPlan

  /** A branch: the three residues it is for and its five template arguments. */
  datatype BurstRow = BurstRow(delayResidue: nat, halfResidue: nat, afterResidue: nat,
                               halfRest: Snippet, delay: Snippet, delayRest: Snippet,
                               after: Snippet, afterRest: Snippet)

  /** The 27 branches in source order, as written. */
  const BurstRowsAsWritten: seq<BurstRow> := [
    BurstRow(0, 0, 0, Empty, Delay3Cycle, Empty, Delay3CycleGetSeq, Empty),
    BurstRow(0, 0, 1, Empty, Delay3Cycle, Empty, Delay3CycleGetSeq, Delay1Cycle),
    BurstRow(0, 0, 2, Empty, Delay3Cycle, Empty, Delay3CycleGetSeq, Delay2Cycle),
    BurstRow(0, 1, 0, Delay1Cycle, Delay3Cycle, Empty, Delay3CycleGetSeq, Empty),
    BurstRow(0, 1, 1, Delay1Cycle, Delay3Cycle, Empty, Delay3CycleGetSeq, Delay1Cycle),
    BurstRow(0, 1, 2, Delay1Cycle, Delay3Cycle, Empty, Delay3CycleGetSeq, Delay2Cycle),
    BurstRow(0, 2, 0, Delay2Cycle, Delay3Cycle, Empty, Delay3CycleGetSeq, Empty),
    BurstRow(0, 2, 1, Delay2Cycle, Delay3Cycle, Empty, Delay3CycleGetSeq, Delay1Cycle),
    BurstRow(0, 2, 2, Delay2Cycle, Delay3Cycle, Empty, Delay3CycleGetSeq, Delay2Cycle),
    BurstRow(1, 0, 0, Empty, Delay3Cycle, Delay1Cycle, Delay3CycleGetSeq, Empty),
    BurstRow(1, 0, 1, Empty, Delay3Cycle, Delay1Cycle, Delay3CycleGetSeq, Delay1Cycle),
    BurstRow(1, 0, 2, Empty, Delay3Cycle, Delay1Cycle, Delay3CycleGetSeq, Delay2Cycle),
    BurstRow(1, 1, 0, Delay1Cycle, Delay3Cycle, Delay1Cycle, Delay3CycleGetSeq, Empty),
    BurstRow(1, 1, 1, Delay1Cycle, Delay3Cycle, Delay1Cycle, Delay3CycleGetSeq, Delay1Cycle),
    BurstRow(1, 1, 2, Delay1Cycle, Delay3Cycle, Delay1Cycle, Delay3CycleGetSeq, Delay2Cycle),
    BurstRow(1, 2, 0, Delay2Cycle, Delay3Cycle, Delay1Cycle, Delay3CycleGetSeq, Empty),
    BurstRow(1, 2, 1, Delay2Cycle, Delay3Cycle, Delay1Cycle, Delay3CycleGetSeq, Delay1Cycle),
    BurstRow(1, 2, 1, Delay2Cycle, Delay3Cycle, Delay1Cycle, Delay3CycleGetSeq, Delay2Cycle),
    BurstRow(2, 0, 0, Empty, Delay3Cycle, Delay2Cycle, Delay3CycleGetSeq, Empty),
    BurstRow(2, 0, 1, Empty, Delay3Cycle, Delay2Cycle, Delay3CycleGetSeq, Delay1Cycle),
    BurstRow(2, 0, 2, Empty, Delay3Cycle, Delay2Cycle, Delay3CycleGetSeq, Delay2Cycle),
    BurstRow(2, 1, 0, Delay1Cycle, Delay3Cycle, Delay2Cycle, Delay3CycleGetSeq, Empty),
    BurstRow(2, 1, 1, Delay1Cycle, Delay3Cycle, Delay2Cycle, Delay3CycleGetSeq, Delay1Cycle),
    BurstRow(2, 1, 2, Delay1Cycle, Delay3Cycle, Delay2Cycle, Delay3CycleGetSeq, Delay2Cycle),
    BurstRow(2, 2, 0, Delay2Cycle, Delay3Cycle, Delay2Cycle, Delay3CycleGetSeq, Empty),
    BurstRow(2, 2, 1, Delay2Cycle, Delay3Cycle, Delay2Cycle, Delay3CycleGetSeq, Delay1Cycle),
    BurstRow(2, 2, 2, Delay2Cycle, Delay3Cycle, Delay2Cycle, Delay3CycleGetSeq, Delay2Cycle)
  ]

  /** The chain with the condition of the branch at line 568 corrected to (1, 2, 2). */
  const BurstRows: seq<BurstRow> := BurstRowsAsWritten[17 := BurstRowsAsWritten[17].(afterResidue := 2)]

  predicate BurstRowHolds(row: BurstRow, delay: nat, half: uint8, after: uint8)
  {
    delay % 3 == row.delayResidue && half % 3 == row.halfResidue && after % 3 == row.afterResidue
  }

  /** The branch an `if constexpr ... else if` chain takes: the first row whose condition holds. */
  function FirstBurstRow(rows: seq<BurstRow>, delay: nat, half: uint8, after: uint8, from: nat): (r: Option<nat>)
    requires from <= |rows|
    ensures r.Some? ==> from <= r.value < |rows| && BurstRowHolds(rows[r.value], delay, half, after)
                        && forall j :: from <= j < r.value ==> !BurstRowHolds(rows[j], delay, half, after)
    ensures r.None? ==> forall j :: from <= j < |rows| ==> !BurstRowHolds(rows[j], delay, half, after)
    decreases |rows| - from
  {
    if from == |rows| then None
    else if BurstRowHolds(rows[from], delay, half, after) then Some(from)
    else FirstBurstRow(rows, delay, half, after, from + 1)
  }

  /**
   * The branch for residues (i / 9, i / 3 % 3, i % 3), with the countdowns
   * and the rest macros those residues call for; the chain lists the 27
   * combinations in this order.
   */
  function IntendedBurstRow(i: nat): BurstRow
    requires i < 27
  {
    BurstRow(i / 9, i / 3 % 3, i % 3,
             RestFor(i / 3 % 3), Delay3Cycle, RestFor(i / 9), Delay3CycleGetSeq, RestFor(i % 3))
  }

  /**
   * The chain as written is the intended one except at index 17 (line 568),
   * whose arguments are the intended ones but whose condition repeats that of
   * index 16 (line 555).
   */
  lemma BurstRowsAsWrittenDeviation()
    ensures |BurstRowsAsWritten| == 27
    ensures forall i :: 0 <= i < 27 && i != 17 ==> BurstRowsAsWritten[i] == IntendedBurstRow(i)
    ensures BurstRowsAsWritten[17] == IntendedBurstRow(17).(afterResidue := 1)
    ensures BurstRowsAsWritten[17].delayResidue == BurstRowsAsWritten[16].delayResidue
    ensures BurstRowsAsWritten[17].halfResidue == BurstRowsAsWritten[16].halfResidue
    ensures BurstRowsAsWritten[17].afterResidue == BurstRowsAsWritten[16].afterResidue
  {
  }

  /**
   * As written, the residues (1, 2, 2) select no branch, so `get_bytes`
   * emits no receiving code and returns its buffer unfilled; and the branch
   * at line 568 is never taken.
   */
  lemma BurstRowsAsWrittenMissCase(delay: nat, half: uint8, after: uint8)
    ensures delay % 3 == 1 && half % 3 == 2 && after % 3 == 2
            <==> FirstBurstRow(BurstRowsAsWritten, delay, half, after, 0).None?
    ensures FirstBurstRow(BurstRowsAsWritten, delay, half, after, 0) != Some(17)
  {
    var idx := 9 * (delay % 3) + 3 * (half % 3) + after % 3;
    AsWrittenHolds(delay, half, after);
    if idx != 17 {
      assert BurstRowHolds(BurstRowsAsWritten[idx], delay, half, after);
    }
  }

  /** The intended row i holds exactly for the residues it encodes. */
  lemma IntendedRowHolds(i: nat, delay: nat, half: uint8, after: uint8)
    requires i < 27
    ensures BurstRowHolds(IntendedBurstRow(i), delay, half, after)
            <==> i == 9 * (delay % 3) + 3 * (half % 3) + after % 3
  {
    var idx := 9 * (delay % 3) + 3 * (half % 3) + after % 3;
    assert i == 9 * (i / 9) + 3 * (i / 3 % 3) + i % 3;
    if i == idx {
      DivUnique(i, 9, delay % 3, 3 * (half % 3) + after % 3);
      DivUnique(i, 3, 3 * (delay % 3) + half % 3, after % 3);
      DivUnique(3 * (delay % 3) + half % 3, 3, delay % 3, half % 3);
    }
  }

  /** The corrected chain is the intended one, row for row. */
  lemma BurstRowsAreIntended()
    ensures |BurstRows| == 27
    ensures forall i :: 0 <= i < 27 ==> BurstRows[i] == IntendedBurstRow(i)
  {
    BurstRowsAsWrittenDeviation();
    forall i | 0 <= i < 27 ensures BurstRows[i] == IntendedBurstRow(i) {
      if i != 17 {
        assert BurstRows[i] == BurstRowsAsWritten[i];
      }
    }
  }

  /** Which rows of the written chain hold: the intended one, and row 17 also where row 16 does. */
  lemma AsWrittenHolds(delay: nat, half: uint8, after: uint8)
    ensures |BurstRowsAsWritten| == 27
    ensures forall i :: 0 <= i < 27 ==>
      (BurstRowHolds(BurstRowsAsWritten[i], delay, half, after)
       <==> var idx := 9 * (delay % 3) + 3 * (half % 3) + after % 3;
            (i != 17 && i == idx) || (i == 17 && idx == 16))
  {
    BurstRowsAsWrittenDeviation();
    forall i | 0 <= i < 27
      ensures BurstRowHolds(BurstRowsAsWritten[i], delay, half, after)
              <==> var idx := 9 * (delay % 3) + 3 * (half % 3) + after % 3;
                   (i != 17 && i == idx) || (i == 17 && idx == 16)
    {
      if i == 17 {
        IntendedRowHolds(16, delay, half, after);
      } else {
        IntendedRowHolds(i, delay, half, after);
      }
    }
  }

  /** In the corrected chain exactly one branch applies: the one at 9*(delay%3) + 3*(half%3) + after%3. */
  lemma BurstRowsPartition(delay: nat, half: uint8, after: uint8)
    ensures |BurstRows| == 27
    ensures forall i :: 0 <= i < 27 ==>
      (BurstRowHolds(BurstRows[i], delay, half, after)
       <==> i == 9 * (delay % 3) + 3 * (half % 3) + after % 3)
    ensures FirstBurstRow(BurstRows, delay, half, after, 0)
            == Some(9 * (delay % 3) + 3 * (half % 3) + after % 3)
  {
    BurstRowsAreIntended();
    forall i | 0 <= i < 27
      ensures BurstRowHolds(BurstRows[i], delay, half, after)
              <==> i == 9 * (delay % 3) + 3 * (half % 3) + after % 3
    {
      IntendedRowHolds(i, delay, half, after);
    }
    assert BurstRowHolds(BurstRows[9 * (delay % 3) + 3 * (half % 3) + after % 3], delay, half, after);
  }

  /** The half-bit, per-bit and between-frames padding of `get_bytes`. */
  datatype BurstPlan = BurstPlan(half: seq<Padding>, perBit: seq<Padding>, after: seq<Padding>)

  /**
   * `get_bytes`'s padding from a chain: None when the assertion
   * cycles_required >= 16 (delay >= 8) fails, when `delay_b` would narrow, or
   * when no branch applies.
   */
  function BurstPaddingFrom(rows: seq<BurstRow>, delay: int, half: uint8, after: uint8): Option<BurstPlan>
  {
    if delay < 8 || delay / 3 > 255 then None
    else
      match FirstBurstRow(rows, delay, half, after, 0)
      case None => None
      case Some(i) => Some(PlanOf(rows[i], (delay / 3) as uint8, half, after / 3))
  }

  /**
   * The padding a branch expands to with `delay_b` = b and
   * `one_half_delay_after_fst_bit_b` = a; the half-bit countdown uses
   * `one_half_delay / 3`.
   */
  function PlanOf(row: BurstRow, b: uint8, half: uint8, a: uint8): BurstPlan
  {
    BurstPlan([Countdown(half / 3)] + Expand(row.halfRest, b, a),
              Expand(row.delay, b, a) + Expand(row.delayRest, b, a),
              Expand(row.after, b, a) + Expand(row.afterRest, b, a))
  }

  function BurstPaddingAsWritten(delay: int, half: uint8, after: uint8): Option<BurstPlan>
  {
    BurstPaddingFrom(BurstRowsAsWritten, delay, half, after)
  }

  function BurstPadding(delay: int, half: uint8, after: uint8): Option<BurstPlan>
  {
    BurstPaddingFrom(BurstRows, delay, half, after)
  }

  /**
   * With the corrected chain every accepted budget gets padding, and each
   * piece pads exactly its constant: `delay` per bit, `one_half_delay` before
   * the first sample and `one_half_delay_after_fst_bit` between frames
   * (when their countdown counts are not 0).
   */
  lemma BurstPaddingIsExact(delay: int, half: uint8, after: uint8)
    ensures BurstPadding(delay, half, after).Some? <==> 8 <= delay < 768
    ensures BurstPadding(delay, half, after).Some? ==>
      var plan := BurstPadding(delay, half, after).value;
      Cost(plan.perBit) == delay
      && Cost(plan.half) == 3 * CountOf(half / 3) + half % 3
      && Cost(plan.after) == 3 * CountOf(after / 3) + after % 3
  {
    if 8 <= delay < 768 {
      var idx := 9 * (delay % 3) + 3 * (half % 3) + after % 3;
      BurstRowsPartition(delay, half, after);
      BurstRowsAreIntended();
      IntendedRowHolds(idx, delay, half, after);
      RowCosts(BurstRows[idx], delay, half, after);
    }
  }

  /** A branch whose arguments are the intended ones for the residues pads each piece exactly. */
  lemma RowCosts(row: BurstRow, delay: nat, half: uint8, after: uint8)
    requires 8 <= delay < 768
    requires row.delay == Delay3Cycle && row.delayRest == RestFor(delay % 3)
    requires row.halfRest == RestFor(half % 3)
    requires row.after == Delay3CycleGetSeq && row.afterRest == RestFor(after % 3)
    ensures var plan := PlanOf(row, (delay / 3) as uint8, half, after / 3);
      Cost(plan.perBit) == delay
      && Cost(plan.half) == 3 * CountOf(half / 3) + half % 3
      && Cost(plan.after) == 3 * CountOf(after / 3) + after % 3
  {
    var b, a := (delay / 3) as uint8, after / 3;
    CountdownAndRest(delay, a);
    CountdownThenRest(half / 3, half % 3, b, a);
    CountdownThenRest(a, after % 3, b, a);
  }

  /** A countdown with count `count` followed by the rest macro for r pads 3 * count + r. */
  lemma CountdownThenRest(count: uint8, r: nat, delayB: uint8, afterB: uint8)
    requires r < 3
    ensures Cost([Countdown(count)] + Expand(RestFor(r), delayB, afterB)) == 3 * CountOf(count) + r
  {
    CostAppend([Countdown(count)], Expand(RestFor(r), delayB, afterB));
    PaddingCosts(count);
    RestCost(r, delayB, afterB);
  }

  /** Where the written chain has a branch, it is the corrected chain's. */
  lemma BurstPaddingAgrees(delay: int, half: uint8, after: uint8)
    requires BurstPaddingAsWritten(delay, half, after).Some?
    ensures BurstPadding(delay, half, after) == BurstPaddingAsWritten(delay, half, after)
  {
    var i := FirstBurstRow(BurstRowsAsWritten, delay, half, after, 0).value;
    BurstRowsAsWrittenMissCase(delay, half, after);
    AsWrittenHolds(delay, half, after);
    BurstRowsPartition(delay, half, after);
    assert i == 9 * (delay % 3) + 3 * (half % 3) + after % 3;
    assert BurstRows[i] == BurstRowsAsWritten[i];
  }
}
