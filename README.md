# avrUART soft UART, modelled in Dafny

`avr::uart::soft<TxPin, RxPin, baud_rate, clk_cpu>` is a bit-banged UART for
AVR microcontrollers. It sends and receives 8-N-1 frames: a low start bit,
eight data bits least significant first, and a high stop bit. All timing comes
from counting CPU cycles in hand-written assembly loops. At compile time the
class computes how many cycles one bit lasts (`cycles_required`). It also
computes where inside a bit to sample (`one_half_delay`,
`one_half_delay_after_fst_bit`). An `if constexpr` chain then picks padding
instructions (`nop`, `rjmp .`, an `ldi/dec/brne` countdown) that fill each loop
turn to exactly one bit.

This project models, file by file:

- `uart_math.dfy`: `detail::math::round` and `abs`. Doubles are exact rationals
  p/q. Converting to `uint8_t` is defined only on (−1, 256); outside it the
  constant expression fails to compile, and the model gives `None`.
- `timing.dfy`: `bit_length_cycles`, `cycles_required`, `one_half_delay`,
  `one_half_delay_after_fst_bit`, the `request_to_send` delay and the static
  assertions, together with the corrected constants of the findings below.
- `avr.dfy`: the AVR instructions the templates use, with their cycle costs
  (AVRe: taken branch 2, skipping `sbic` 2, `rjmp`/`st`/`cbi`/`sbi` 2, the rest
  1), registers as `bv8`, and pins as timed level changes. It also holds the
  `sbic/rjmp` busy-wait.
- `delay_plan.dfy`: the padding primitives and the `put` and `get` branch
  chains as tables, each with its cost.
- `burst_plan.dfy`: the 27-branch chain of `get_bytes`, both as written and as
  intended.
- `transmit.dfy`: the `put` loop of `AVR_UART_PUT_ASM_TMPL`, cycle by cycle.
- `receive.dfy`: the `get` loop of `AVR_UART_GET_ASM_TMPL`, cycle by cycle.
- `burst.dfy`: `buffer_t<N>` and the `get_bytes` loop of
  `AVR_UART_GET_SEQ_ASM_TMPL`, storing into an `array`.
- `soft.dfy`: the device as a class. Its state is the Tx port and direction
  registers, the cycle counter and the Tx writes; the Rx line is given. Its
  methods are `put`, `get`, `get_bytes`, `request_to_send`, `clear_to_send`
  and `when_byte_comes`.
- `roundtrip.dfy`: the Tx line `put` produces, fed to `get` on a second device
  with the same configuration.
- `burst_roundtrip.dfy`: the Tx line of consecutive `put` calls, fed to
  `get_bytes<n>` on a second device with the same configuration. Where
  `one_half_delay` does not wrap, consecutive frames are received whatever the
  gaps between the calls, because there `cycles_required` ≥ 16 gives
  2·`cycles_required` ≥ `one_half_delay` + 11. The device runs the corrected
  `get_bytes` chain (see Findings), so this includes the configurations where
  the chain as written selects no branch.

The padding rows are data. `FirstGetRow` and `FirstBurstRow` pick the first row
whose guard holds, as the `if constexpr` chain does. The loops are methods that
advance a cycle counter instruction by instruction. Each loop is proved against
a function of its inputs: `FrameWrites`, `GetResult`, `BurstResult`.

Where the code and its own messages disagree, the model follows the code,
except for the one branch of the `get_bytes` chain described under Findings. The
`<= 513` assertion admits ratios that `round`'s `uint8_t` result can never
reach. The device tests call `get<48>()`, but the header defines
`get_bytes<N>()`, which is what is modelled.

## Model

| member | source | states |
|---|---|---|
| UartMath.Trunc | include/avr/uart/detail/math.hpp:8 | the `uint8_t` conversion truncates toward zero: w·q ≤ p < (w+1)·q for p ≥ 0, and 0 on (−1, 0) |
| UartMath.Round | include/avr/uart/detail/math.hpp:7-10 | `round` is defined exactly when −1 < p/q < 256 |
| UartMath.HalfUp | include/avr/uart/detail/math.hpp:7-10 | reference round-half-up: the unique k with k − ½ ≤ p/q < k + ½ |
| UartMath.RoundIsHalfUp | include/avr/uart/detail/math.hpp:7-10 | below 255.5, `round` is round-half-up |
| UartMath.RoundWrapsToZero | include/avr/uart/detail/math.hpp:9 | on [255.5, 256), `whole + 1` wraps and `round` gives 0 |
| UartMath.RoundOfSmallNegative | include/avr/uart/detail/math.hpp:8-9 | on (−1, 0), `round` gives 0 |
| UartMath.RoundOfInteger | include/avr/uart/detail/math.hpp:8-9 | `round(k) == k` for every integer k in 0..255 |
| UartMath.RoundExamples | include/avr/uart/detail/math.hpp:7-10 | 2.5 → 3, 2.4 → 2, 2.6 → 3 |
| UartMath.RoundAccuracy | include/avr/uart/detail/math.hpp:7-10 | for 0 ≤ n < 255.5, `round(n)` is defined and within ½ of n |
| UartMath.RoundMonotone | include/avr/uart/detail/math.hpp:7-10 | `round` is non-decreasing on [0, 255.5) |
| UartMath.Abs | include/avr/uart/detail/math.hpp:12-14 | `abs(n) >= 0` and it is n or −n |
| UartMath.AbsIsSymmetric | include/avr/uart/detail/math.hpp:12-14 | `abs(−n) == abs(n)` |
| Avr.Cycles | include/avr/uart/detail/inline_asm.hpp:3-74 | each instruction costs 1 or 2 cycles; exactly rjmp, st, cbi, sbi, taken branches and a skipping sbic cost 2 |
| Avr.BranchesAreBalanced | include/avr/uart/detail/inline_asm.hpp:7-10 | `brcs` taken costs the same as `brcs` not taken plus `sbr`; a skipping `sbic` costs the same as not skipping plus `sec` |
| Avr.BitsOfPack | include/avr/uart/detail/inline_asm.hpp:37 | packing eight bits into a register and reading them back gives the same bits |
| Avr.PackOfBits | include/avr/uart/detail/inline_asm.hpp:37 | reading a register's bits and packing them gives the same register |
| Avr.BitsInjective | include/avr/uart/detail/inline_asm.hpp:37 | two registers are equal iff their bits are |
| Avr.Complement | include/avr/uart/detail/inline_asm.hpp:5 | `com` inverts every bit |
| Avr.ShiftRight | include/avr/uart/detail/inline_asm.hpp:11 | `lsr` moves bits 1..7 down, clears bit 7 and puts bit 0 into carry |
| Avr.RotateRight | include/avr/uart/detail/inline_asm.hpp:37 | `ror` moves bits 1..7 down, puts carry into bit 7 and bit 0 into carry |
| Avr.ClearBits | include/avr/uart/detail/inline_asm.hpp:7 | `cbr` clears exactly the masked bits |
| Avr.SetBits | include/avr/uart/detail/inline_asm.hpp:9 | `sbr` sets exactly the masked bits |
| Avr.Decrement | include/avr/uart/detail/inline_asm.hpp:14 | `dec` subtracts one modulo 256 |
| Avr.DecBrne | include/avr/uart/detail/inline_asm.hpp:14-15 | `dec`+`brne` leaves bits − 1, loops iff that is non-zero, and costs 3 cycles looping, 2 falling through |
| Avr.PollUntilIsFirst | include/avr/uart/detail/inline_asm.hpp:30-31 | the busy-wait ends at the first polling turn that sees the level, never earlier |
| Avr.PollUntilOnTurn | include/avr/uart/detail/inline_asm.hpp:30-31 | the busy-wait ends a whole number of polling periods after it starts |
| Avr.PollUntilNever | include/avr/uart/detail/inline_asm.hpp:30-31 | a busy-wait that never ends never sees the level on any polling turn |
| Avr.WaitUntil | include/avr/uart/soft.hpp:744-746 | the polling loop stops exactly where the first-seen function says, or reports waiting forever |
| Avr.WaitLow | include/avr/uart/detail/inline_asm.hpp:30-31 | `sbic/rjmp` polls every 3 cycles and stops at the first low sample |
| DelayPlan.CountOf | include/avr/uart/detail/inline_asm.hpp:101-104 | a countdown loaded with b runs b times, 256 times when b is 0 |
| DelayPlan.PaddingCosts | include/avr/uart/detail/inline_asm.hpp:97-104 | `nop` costs 1, `rjmp .` costs 2, a countdown of b costs 3·b, and one of 0 costs 768 |
| DelayPlan.Pad | include/avr/uart/detail/inline_asm.hpp:97-104 | running a padding plan takes exactly its cost |
| DelayPlan.RunCountdown | include/avr/uart/detail/inline_asm.hpp:101-104 | the `ldi/dec/brne` loop takes 3 cycles per count |
| DelayPlan.RestCost | include/avr/uart/soft.hpp:181-192 | the remainder snippet for r in 0..2 costs r cycles |
| DelayPlan.CountdownAndRest | include/avr/uart/soft.hpp:173-193 | a countdown of budget/3 and the budget%3 remainder cost exactly the budget |
| DelayPlan.PutPaddingIsExact | include/avr/uart/soft.hpp:151-194 | some `put` branch applies iff delay ≥ 0; the padding exists iff 0 ≤ delay < 768 and then costs exactly delay |
| DelayPlan.FirstGetRow | include/avr/uart/soft.hpp:222-309 | the chosen `get` branch is the first whose guard holds |
| DelayPlan.GetRowsPartition | include/avr/uart/soft.hpp:222-309 | the `get` branches are mutually exclusive and one applies iff delay ≥ 2 |
| DelayPlan.GetPaddingIsExact | include/avr/uart/soft.hpp:211-309 | `get` padding exists iff 2 ≤ delay < 768; per bit it costs exactly delay, and the half-bit padding costs 3·count(h/3) + h%3 |
| DelayPlan.GetRowCosts | include/avr/uart/soft.hpp:222-309 | the padding of the selected `get` row costs the delay and the half-bit offset |
| BurstPlan.FirstBurstRow | include/avr/uart/soft.hpp:347-698 | the chosen `get_bytes` branch is the first whose guard holds |
| BurstPlan.BurstRowsAsWrittenDeviation | include/avr/uart/soft.hpp:555-580 | the written chain differs from the intended one only in branch 17, whose guard repeats branch 16's |
| BurstPlan.BurstRowsAsWrittenMissCase | include/avr/uart/soft.hpp:555-580 | the written chain selects nothing exactly for residues (1, 2, 2), and never selects branch 17 |
| BurstPlan.IntendedRowHolds | include/avr/uart/soft.hpp:347-698 | intended branch i applies iff i = 9·(delay%3) + 3·(half%3) + after%3 |
| BurstPlan.BurstRowsAreIntended | include/avr/uart/soft.hpp:347-698 | the corrected chain is the intended one, branch for branch |
| BurstPlan.AsWrittenHolds | include/avr/uart/soft.hpp:347-698 | which written branches apply, for every residue triple |
| BurstPlan.BurstRowsPartition | include/avr/uart/soft.hpp:347-698 | the corrected 27 branches are exhaustive and mutually exclusive |
| BurstPlan.BurstPaddingIsExact | include/avr/uart/soft.hpp:332-698 | `get_bytes` padding exists iff 8 ≤ delay < 768 and costs delay per bit and each offset's countdown plus remainder |
| BurstPlan.RowCosts | include/avr/uart/soft.hpp:347-698 | the padding of the selected `get_bytes` row costs the delay and both offsets |
| BurstPlan.CountdownThenRest | include/avr/uart/detail/inline_asm.hpp:106-109 | the `one_half_delay_cnt` countdown plus remainder r costs 3·count + r |
| BurstPlan.BurstPaddingAgrees | include/avr/uart/soft.hpp:347-698 | wherever the written chain selects a branch, the corrected chain selects the same padding |
| Timing.CyclesRequired | include/avr/uart/soft.hpp:131-132 | `cycles_required` compiles iff baud > 0 and clk/baud < 256 |
| Timing.AcceptedRange | include/avr/uart/soft.hpp:134-140 | the class is accepted iff 7.5 ≤ clk/baud < 255.5 |
| Timing.CyclesRequiredIsNearest | include/avr/uart/soft.hpp:131-132 | an accepted `cycles_required` is within ½ of clk/baud |
| Timing.OneHalfDelay | include/avr/uart/soft.hpp:216-217 | `one_half_delay` compiles iff −1 < 1.5·clk/baud − 4 < 256 |
| Timing.OneHalfDelayAfterFstBit | include/avr/uart/soft.hpp:339-340 | `one_half_delay_after_fst_bit` compiles iff −1 < 1.5·clk/baud − 10 < 256 |
| Timing.OneHalfDelayWindow | include/avr/uart/soft.hpp:214-220 | without wrap, c ≤ h + 4, h + 7 ≤ 2c and the countdown count h/3 ≥ 2 |
| Timing.AfterFstBitIsOneHalfMinusSix | include/avr/uart/soft.hpp:336-340 | for `get_bytes`, the second offset is the first minus 6, with the same residue mod 3 |
| Timing.OffsetsDifferBySix | include/avr/uart/soft.hpp:336-340 | the two rounded offsets differ by exactly 6 and share their residue mod 3 |
| Timing.OneHalfDelayIsHalfUp | include/avr/uart/soft.hpp:216-217 | `one_half_delay` is 1.5·clk/baud − 4 rounded half up |
| Timing.AfterFstBitIsHalfUp | include/avr/uart/soft.hpp:339-340 | `one_half_delay_after_fst_bit` is 1.5·clk/baud − 10 rounded half up |
| Timing.GetBytesOffsetsPositive | include/avr/uart/soft.hpp:323-345 | under `cycles_required >= 16` without wrap, both countdown counts are at least 1 |
| Timing.RtsDelay | include/avr/uart/soft.hpp:727 | the `request_to_send` delay compiles iff clk > 0 and 14·clk/10⁶ < 257 |
| Timing.RtsAssertionNeverDecides | include/avr/uart/soft.hpp:727-728 | `delay <= 255` holds whenever `delay` compiles |
| Timing.CyclesRequiredWide | include/avr/uart/soft.hpp:131-140 | clk/baud rounded half up without the `uint8_t` cap |
| Timing.AcceptedWideRange | include/avr/uart/soft.hpp:134-140 | with a wide result the assertions accept exactly 7.5 ≤ clk/baud < 513.5 |
| Timing.AcceptedWideAgrees | include/avr/uart/soft.hpp:131-140 | every configuration the written code accepts is accepted with the same value |
| Timing.UpperBoundUnreachable | include/avr/uart/soft.hpp:138-140 | a ratio of 257 is rejected though the message allows it; a ratio of 255.7 becomes 0 and is rejected; the wide value 256 is accepted |
| Timing.OneHalfDelayWide | include/avr/uart/soft.hpp:216-217 | 1.5·clk/baud − 4 rounded half up without the cap |
| Timing.OneHalfDelayWideWindow | include/avr/uart/soft.hpp:214-220 | for every accepted configuration, the wide offset keeps the sampling window and a count ≥ 2 |
| Timing.OneHalfDelayWideAgrees | include/avr/uart/soft.hpp:216-217 | wherever the written offset does not wrap, it equals the wide one |
| Timing.OneHalfDelayWrapsToZero | include/avr/uart/soft.hpp:216-217 | wherever `get` compiles and `one_half_delay` wraps, it is 0 |
| Timing.OneHalfDelayWraps | include/avr/uart/soft.hpp:216-217 | at clk/baud = 173 the offset wraps to 0 (wide 256); at 200 it does not compile |
| Timing.RtsDelayWide | include/avr/uart/soft.hpp:727 | 14·clk/10⁶ − 1 rounded half up without the cap |
| Timing.RtsAcceptedWideRange | include/avr/uart/soft.hpp:727-728 | `delay <= 255` on the wide value accepts exactly 0 < clk and 14·clk/10⁶ < 256.5 |
| Timing.RtsDelayWideAgrees | include/avr/uart/soft.hpp:727-728 | wherever the wide assertion holds, the written delay compiles with the same value |
| Timing.RtsDelayWraps | include/avr/uart/soft.hpp:727-728 | at 18.34 MHz the delay wraps to 0 and passes the assertion; the wide assertion rejects it |
| Transmit.FrameDecodes | include/avr/uart/detail/inline_asm.hpp:3-15 | the frame is 10 levels: start low, data bits least significant first, stop high |
| Transmit.DriveBits | include/avr/uart/detail/inline_asm.hpp:7-10 | driving the Tx bit changes exactly the masked bits of the port |
| Transmit.FrameWritesTiming | include/avr/uart/detail/inline_asm.hpp:3-15 | the writes come exactly one period apart; write j puts frame level j on the Tx bit and keeps the other bits as read |
| Transmit.LevelFromCarry | include/avr/uart/detail/inline_asm.hpp:5-8 | the level written on turn j is the inverse of the carry left by `com` and `lsr` |
| Transmit.Redrive | include/avr/uart/detail/inline_asm.hpp:7-9 | `cbr` then `sbr` on the port value gives the low and high port |
| Transmit.ShiftStep | include/avr/uart/detail/inline_asm.hpp:11 | `lsr` moves the complemented frame one place and its carry is the next inverted level |
| Transmit.DriveTx | include/avr/uart/detail/inline_asm.hpp:7-10 | `cbr/brcs/sbr/out` drives Tx to the inverse of carry in 3 cycles on either path |
| Transmit.TurnTiming | include/avr/uart/detail/inline_asm.hpp:7-15 | one turn costs 8 cycles plus padding, whatever the data |
| Transmit.TurnShift | include/avr/uart/detail/inline_asm.hpp:11 | the shift keeps the register on the remaining frame |
| Transmit.TurnWrite | include/avr/uart/detail/inline_asm.hpp:7-10 | the write of turn j is write j of the frame |
| Transmit.PutTurn | include/avr/uart/detail/inline_asm.hpp:7-15 | one loop turn keeps the `put` invariant |
| Transmit.Put | include/avr/uart/detail/inline_asm.hpp:3-15 | `put` makes exactly the 10 frame writes, one period of 8 + padding apart, and ends 10 periods + 2 after entry |
| Receive.WindowStep | include/avr/uart/detail/inline_asm.hpp:37-39 | `ror` then `sbic/sec` moves the register window one sample on |
| Receive.GetTurnTiming | include/avr/uart/detail/inline_asm.hpp:37-43 | one turn costs 6 cycles plus padding, whatever the sample |
| Receive.GetTurnBits | include/avr/uart/detail/inline_asm.hpp:37-39 | after turn k the register holds the window of the samples so far |
| Receive.SampleRx | include/avr/uart/detail/inline_asm.hpp:38-39 | `sbic/sec` ORs the Rx level into carry in 2 cycles either way |
| Receive.GetTurnStep | include/avr/uart/detail/inline_asm.hpp:37-43 | one turn keeps the `get` invariant |
| Receive.GetTurn | include/avr/uart/detail/inline_asm.hpp:37-43 | one loop turn keeps the `get` invariant |
| Receive.GetEntry | include/avr/uart/detail/inline_asm.hpp:36 | `ldi bits, 9` establishes the invariant, whatever carry is |
| Receive.GetExit | include/avr/uart/detail/inline_asm.hpp:29-43 | after 9 turns the register is the first 8 samples, whatever carry was on entry, and the 9th is discarded |
| Receive.Get | include/avr/uart/detail/inline_asm.hpp:29-43 | `get` waits for the start edge and returns the packed samples at te + 4 + half + k·period, ending where the function says |
| Receive.GetDecodes | include/avr/uart/detail/inline_asm.hpp:29-43 | when the eight samples are the bits of a byte, `get` returns that byte |
| Burst.Buffer.constructor | include/avr/uart/soft.hpp:45-49 | a `buffer_t<N>` has `size == N` and N elements |
| Burst.Buffer.End | include/avr/uart/soft.hpp:57 | `end() − begin() == size` |
| Burst.Buffer.At | include/avr/uart/soft.hpp:60 | `operator[](i)` is element i, for i below `size`; Burst.AtDelivered and the `GetBytes` postconditions tie it to the received bytes |
| Burst.AtDelivered | include/avr/uart/soft.hpp:60 | once a burst has ended, `buf[i]` of the buffer it was delivered into is the i-th byte received, for every i below `size` |
| Burst.BurstFrom | include/avr/uart/detail/inline_asm.hpp:55-74 | a burst of count frames decodes at most count bytes, and exactly count when it ends |
| Burst.BurstResult | include/avr/uart/detail/inline_asm.hpp:45-74 | `get_bytes<n>` decodes at most n bytes, and exactly n when it ends |
| Burst.Stored | include/avr/uart/detail/inline_asm.hpp:64-74 | all decoded bytes are stored when the burst ends, all but the last when it waits forever |
| Burst.FrameStep | include/avr/uart/detail/inline_asm.hpp:55-63 | one `clc/sbic/sec/dec/breq/ror` turn keeps the frame invariant |
| Burst.FrameDone | include/avr/uart/detail/inline_asm.hpp:55-59 | on `breq 5f` the register is the first 8 samples and the 9th is not rotated in |
| Burst.FrameTurn | include/avr/uart/detail/inline_asm.hpp:55-63 | a turn costs 8 + padding, or 6 on the 9th sample, which leaves the register unchanged |
| Burst.ReadFrame | include/avr/uart/detail/inline_asm.hpp:54-63 | the bit loop returns the packed first 8 samples and reaches label 5 after 8 periods + 6 |
| Burst.StoreNext | include/avr/uart/detail/inline_asm.hpp:64-73 | storing a byte once the next start edge is seen keeps the account of the burst |
| Burst.BurstFromNext | include/avr/uart/detail/inline_asm.hpp:64-73 | a burst is its first byte followed by the burst from the next start edge |
| Burst.JoinAppend | include/avr/uart/detail/inline_asm.hpp:68 | appending bytes one at a time gives the same outcome |
| Burst.StoreLast | include/avr/uart/detail/inline_asm.hpp:64-74 | the last frame is stored and the burst ends 5 cycles after label 5 (`dec` 1, `breq` taken 2, `st` 2), at i0 + 8·period + 11 |
| Burst.StallAfter | include/avr/uart/detail/inline_asm.hpp:66-67 | if no next start edge comes, the burst waits forever and nothing more is stored |
| Burst.DeliveredSoFar | include/avr/uart/detail/inline_asm.hpp:66-68 | a stalled burst has delivered the bytes stored before it stalled |
| Burst.FinishBurst | include/avr/uart/detail/inline_asm.hpp:74 | the final `st` completes the buffer with the whole burst |
| Burst.NextFrame | include/avr/uart/detail/inline_asm.hpp:64-73 | between frames, a byte is stored only after the next start edge; a stall delivers what was stored |
| Burst.EndFrame | include/avr/uart/detail/inline_asm.hpp:64-74 | `dec cnt/breq` either ends the burst with every byte stored or starts the next frame |
| Burst.StartBurst | include/avr/uart/detail/inline_asm.hpp:47-54 | `ldi cnt, N` then the first start edge and half-bit delay reach the first frame, or wait forever |
| Burst.StartAccount | include/avr/uart/detail/inline_asm.hpp:47-54 | the first frame starts the burst the spec function describes |
| Burst.Store | include/avr/uart/detail/inline_asm.hpp:68 | `st X+` writes element ptr and keeps the elements before it |
| Burst.GetBytes | include/avr/uart/soft.hpp:321-700 | `get_bytes<n>` returns a fresh n-element buffer holding the received bytes in order: all n when the burst ends, with `buf[i]` the i-th byte, and the stored prefix when it waits forever |
| Soft.PutPlanFor | include/avr/uart/soft.hpp:149-194 | `put`'s padding makes each bit last `cycles_required` cycles |
| Soft.GetPlanFor | include/avr/uart/soft.hpp:210-309 | `get`'s padding makes each bit last `cycles_required` cycles, and the half-bit offset runs `one_half_delay/3` counts plus the remainder |
| Soft.GetHalfWhenWrapped | include/avr/uart/soft.hpp:216-220 | where `one_half_delay` wraps, it is 0 and the half-bit padding lasts 768 cycles |
| Soft.GetHalfIsExact | include/avr/uart/soft.hpp:216-220 | without wrap, the half-bit padding lasts exactly `one_half_delay` |
| Soft.BurstPlanFor | include/avr/uart/soft.hpp:331-698 | `get_bytes`'s padding, from the corrected chain: each bit lasts `cycles_required` cycles, and each offset runs its constant/3 counts plus the remainder |
| Soft.BurstPlanAsWritten | include/avr/uart/soft.hpp:347-698 | for the device's own constants, the chain as written selects no branch exactly when the residues are (1, 2, 2), and otherwise compiles `BurstPlanFor`'s padding |
| Soft.BurstOffsetsAreExact | include/avr/uart/soft.hpp:334-345 | without wrap, both offset paddings last exactly their constants |
| Soft.Callback.Call | include/avr/uart/soft.hpp:775 | the callback records the byte it is given |
| Soft.SoftUart.constructor | include/avr/uart/soft.hpp:143-146 | the Tx pin becomes an output and is driven high |
| Soft.SoftUart.WriteTx | include/avr/uart/soft.hpp:745 | driving Tx changes only the Tx bit and records the write |
| Soft.SoftUart.Put | include/avr/uart/soft.hpp:149-195 | `put` appends the frame's writes, one `cycles_required` apart, and leaves Tx high |
| Soft.SoftUart.Get | include/avr/uart/soft.hpp:210-311 | `get` returns the byte the `get` loop decodes, ends at its finish, and drives nothing |
| Soft.SoftUart.GetBytes | include/avr/uart/soft.hpp:321-700 | `get_bytes<n>` delivers the burst into a fresh `buffer_t<n>`, with `buf[i]` the i-th byte once it ends, and drives nothing |
| Soft.SoftUart.RequestToSend | include/avr/uart/soft.hpp:713-730 | on every clock the written assertion accepts, including those where the delay wraps to 0: Tx goes low; only after Rx is seen low does Tx go high, followed by the rounded 14 µs delay |
| Soft.SoftUart.ClearToSend | include/avr/uart/soft.hpp:743-748 | wait for Rx low, drive Tx low, wait for Rx high, drive Tx high, each write `step` cycles after the turn that ended its wait (CtsWritten); it ends iff both waits end |
| Soft.SoftUart.WhenByteComes | include/avr/uart/soft.hpp:769-777 | a clear flag changes nothing; a set flag is cleared, the handshake makes exactly `clear_to_send`'s Tx writes (`get` drives nothing), and the callback gets the received byte exactly once |
| RoundTrip.FrameLevels | include/avr/uart/detail/inline_asm.hpp:3-15 | the Tx line `put` makes carries frame level k from write k to write k + 1 |
| RoundTrip.PollFinds | include/avr/uart/detail/inline_asm.hpp:30-31 | a line high until s and low for a poll period from s is seen low within one period of s |
| RoundTrip.SeesStartBit | include/avr/uart/detail/inline_asm.hpp:30-31 | a receiver waiting from before the start bit sees it within 3 cycles of its edge |
| RoundTrip.SamplesAreData | include/avr/uart/soft.hpp:214-217 | sampling from te + 4 + h every c cycles reads the sent data bits |
| RoundTrip.PutThenGetWith | include/avr/uart/detail/inline_asm.hpp:29-43 | `get` with matching period and offset returns the byte `put` sent |
| RoundTrip.PutThenGet | include/avr/uart/soft.hpp:148-311 | on every configuration where `one_half_delay` does not wrap, `get` returns the byte `put` sent |
| BurstRoundTrip.PutsWritesSnoc | include/avr/uart/soft.hpp:149-195 | one more `put` call appends the ten writes of its frame to the trace of the calls before it |
| BurstRoundTrip.SpacedMonotone | include/avr/uart/soft.hpp:149-195 | when each call starts after the previous one returned, later calls start no earlier |
| BurstRoundTrip.PutsWritesAfter | include/avr/uart/soft.hpp:149-195 | no write of the calls comes before the first start bit |
| BurstRoundTrip.TxLineAppend | include/avr/uart/detail/inline_asm.hpp:3-15 | the Tx line of two write sequences appended is their two lines appended |
| BurstRoundTrip.LevelOfSuffix | include/avr/uart/detail/inline_asm.hpp:45-74 | the level at t is decided by the last part of a line once that part has changed at or before t |
| BurstRoundTrip.PutsLineSplit | include/avr/uart/soft.hpp:149-195 | the line of the calls is the first call's line followed by the line of the rest |
| BurstRoundTrip.PutsLineAfter | include/avr/uart/soft.hpp:149-195 | every change on the line of the calls comes after any cycle before the first start bit |
| BurstRoundTrip.PutsLineFirst | include/avr/uart/soft.hpp:149-195 | the first change on the line of the calls is the first start bit |
| BurstRoundTrip.PutsLineIdle | include/avr/uart/soft.hpp:149-195 | before the first start bit the line idles high |
| BurstRoundTrip.PutsLevelFirst | include/avr/uart/detail/inline_asm.hpp:3-15 | until the second call's start bit, the line carries the first call's frame |
| BurstRoundTrip.PutsLevelLater | include/avr/uart/soft.hpp:149-195 | from the second call's start bit on, the first call no longer decides the level |
| BurstRoundTrip.PutsLevel | include/avr/uart/detail/inline_asm.hpp:3-15 | the line of the calls carries level k of frame i from write k of call i until the next write; the stop bit lasts until the next call's start bit |
| BurstRoundTrip.BurstTiming | include/avr/uart/detail/inline_asm.hpp:45-74 | a bit loop that starts 2 to 5 cycles after edge + h samples inside data bit k, and starts polling for the next start bit after the stop bit began and by 10c + 2 cycles after the edge |
| BurstRoundTrip.FrameSamples | include/avr/uart/detail/inline_asm.hpp:54-63 | the eight samples of a bit loop inside the window read the byte of that frame |
| BurstRoundTrip.NextStartBit | include/avr/uart/detail/inline_asm.hpp:64-66 | the wait after a frame sees the next call's start bit within one polling turn of its edge |
| BurstRoundTrip.PutsRead | include/avr/uart/detail/inline_asm.hpp:54-66 | on the line of the calls every frame is read and every next start bit is found |
| BurstRoundTrip.ReadLast | include/avr/uart/detail/inline_asm.hpp:64-74 | the last frame adds its byte and the burst ends |
| BurstRoundTrip.ReadNext | include/avr/uart/detail/inline_asm.hpp:64-73 | a frame followed by others adds its byte before the bytes of the burst from the next start bit |
| BurstRoundTrip.BurstReads | include/avr/uart/detail/inline_asm.hpp:54-74 | from a bit loop in the window, on a line read frame by frame, the burst returns every remaining byte in order and ends |
| BurstRoundTrip.BurstResultFrom | include/avr/uart/detail/inline_asm.hpp:45-54 | once the first start bit is seen, `get_bytes` returns what the burst from the first bit loop returns |
| BurstRoundTrip.SeesFirstStartBit | include/avr/uart/detail/inline_asm.hpp:47-48 | a receiver that polls from before the first start bit sees it within 3 cycles of its edge |
| BurstRoundTrip.BurstWindow | include/avr/uart/soft.hpp:323-340 | where `one_half_delay` does not wrap and `cycles_required` ≥ 16: `cycles_required` ≤ `one_half_delay` + 3 and `one_half_delay` + 11 ≤ 2·`cycles_required` |
| BurstRoundTrip.BurstWindowArithmetic | include/avr/uart/soft.hpp:323-340 | from the two roundings and c ≥ 16: c − 3 ≤ h ≤ 2c − 11 |
| BurstRoundTrip.PutsThenGetBytesWith | include/avr/uart/detail/inline_asm.hpp:45-74 | with matching period and offsets h and h − 6, `get_bytes` returns every byte the `put` calls sent, in order, and ends |
| BurstRoundTrip.PutsThenGetBytes | include/avr/uart/soft.hpp:321-700 | on every configuration `get_bytes` accepts where `one_half_delay` does not wrap, `get_bytes<n>` returns the n bytes of n consecutive `put` calls, in order, and ends |

## Left out

- Floating point: `clk * 1.0 / baud_rate` and `1.5 * ...` are exact rationals. `round` is applied to the exact value, so double rounding error is not modelled.
- The user-defined literals (`_bps`, `_kHz`, ...) are plain constants.
- Pins: `TxPin::out/high/low` and `RxPin::is_high/is_low` are bits of a port and direction register, and a given line of level changes. I/O addresses and the asm operand constraints are not modelled.
- `__builtin_avr_delay_cycles(d)` takes exactly d cycles.
- `interrupt::atomic` in `when_byte_comes` is not modelled: nothing else runs during the model's methods.
- Soft.SoftUart.ClearToSend: the loops are compiled C++, so the polling period and the cost of a pin write are parameters (`turn`, `step`, `write`), not cycle counts.
- Soft.SoftUart.constructor: the cycles spent setting up the pins are not counted.
- Soft.Callback.Call: the callback only records the byte; whatever a real callback does to the device is not modelled.
- Real-time effects: oscillator drift, interrupt latency and genuinely concurrent peers are out. A peer is a given line of level changes.
- A lock-step composition of `request_to_send` on one device with `clear_to_send` on another is not modelled. Each side is proved against a given line.
- RoundTrip.PutThenGet: the round trip is proved only where `one_half_delay` does not wrap. Where it wraps, `one_half_delay` is 0, so the half-bit countdown runs 256 times (768 cycles), about 512 cycles long, and `get` samples outside the data bits (Soft.GetHalfWhenWrapped; see Findings).
- BurstRoundTrip.PutsThenGetBytes: as for `get`, the round trip is proved only where `one_half_delay` does not wrap. It is proved for the corrected `get_bytes` chain. Where the residues of `cycles_required − 8`, `one_half_delay` and `one_half_delay_after_fst_bit` modulo 3 are (1, 2, 2), the chain as written has no branch and the source receives nothing (see Findings).
- Soft.BurstPlanFor: returns the corrected chain's padding. For residues (1, 2, 2) the chain as written selects no branch, so `get_bytes` emits no loop. Soft.BurstPlanAsWritten states where the two agree.
- Burst.GetBytes: requires n ≥ 1, so `get_bytes<0>` is not modelled. The source does not assert N > 0. With N = 0 the buffer has no elements, `ldi cnt, 0` starts a count that the first `dec cnt` wraps to 255, and the loop receives 256 frames, storing every one past the end of the buffer.
- Soft.SoftUart.GetBytes: requires n ≥ 1, for the same reason as Burst.GetBytes: `get_bytes<0>` would store 256 bytes past its empty buffer.
- Soft.SoftUart.GetBytes: runs the corrected chain. For residues (1, 2, 2) the source returns at once with the buffer unfilled, while the model receives a burst.
- BurstRoundTrip.PutsWrites: every call is given the same port value. The Tx line depends only on the Tx bit, and `put` leaves that bit high, so this loses nothing on the line.
- The host-side tests, demos and `helper/clk-freq_baud-rate.cpp` are not part of this model.

## Findings

| source | as written | input that shows it | evidently intended | confidence | as-written member | corrected member |
|---|---|---|---|---|---|---|
| include/avr/uart/soft.hpp:568 | the guard repeats the one at line 555, (1, 2, 1), so residues (1, 2, 2) select no branch: `get_bytes` then emits no loop and returns an unfilled buffer | clk/baud = 18: delay 10, `one_half_delay` 23, `one_half_delay_after_fst_bit` 17, residues (1, 2, 2) | guard (1, 2, 2), whose body the branch already has | not executed | BurstPlan.BurstRowsAsWrittenMissCase | BurstPlan.BurstPaddingIsExact |
| include/avr/uart/soft.hpp:138 | `cycles_required <= 513` can never fail because `round` returns `uint8_t`; ratios in [255.5, 513] are rejected (or wrap to 0) though the message admits them | clk = 2570000, baud = 10000 (ratio 257) is rejected; ratio 255.7 rounds to 0 | a wide result, so that every ratio up to 513 is accepted | not executed | Timing.UpperBoundUnreachable | Timing.AcceptedWideRange |
| include/avr/uart/soft.hpp:216-217 | `one_half_delay` is `uint8_t`: from 1.5·ratio − 4 ≥ 255.5 it wraps to 0, and beyond 256 it does not compile, so accepted configurations sample in the wrong place or fail | clk = 1730000, baud = 10000: offset 0 instead of 256; clk = 2000000, baud = 10000: does not compile | an offset that keeps the sampling window for every accepted configuration | not executed | Timing.OneHalfDelayWraps | Timing.OneHalfDelayWideWindow |
| include/avr/uart/soft.hpp:727-728 | `static_assert(delay <= 255)` tests a `uint8_t`, so it never fails; a delay rounding to 256 wraps to 0 | clk = 18340000: delay 0 instead of 256 | the assertion rejects delays above 255 | not executed | Timing.RtsDelayWraps | Timing.RtsAcceptedWideRange |

The model keeps the written constants where the device uses them, and
`request_to_send` accepts every clock the written assertion accepts: where the
delay wraps, it pauses 0 cycles, as the source does. The one exception is the
`get_bytes` chain: the device runs the corrected one (BurstPlan.BurstPadding),
and the "Left out" lines for Soft.BurstPlanFor and Soft.SoftUart.GetBytes say
what that changes.
