# gselect branch predictor in Dafny

A model of `GSelectBP`, a speculative two-level branch-direction predictor
written for the gem5 simulator. Each slot of `globalHistoryReg` holds one
global history register (GHR). The pattern history table `lclCounters`
holds `PredictorSize` saturating counters. `NOROperation` combines the
shifted branch address with a history value into a table index.
`lookup` predicts from the top bit of the selected counter. It hands the
pipeline a `BPHistory` token holding the pre-lookup register, and shifts
the prediction into the register speculatively. `squash` restores the
register from a token. `update` either rebuilds the register (on a
squashed path) or trains the counter that the token's snapshot selects
(on commit). `uncondBranch` and `btbUpdate` are two further register
mutators.

Files:

- `bits.dfy` (module `Bits`): 32-bit words as `bv32`. Order is reached
  through bit inclusion (`Within`). Words meet integers only through
  `ToBv32` and `ByteValue`, the integer value of the low byte. Every
  table index fits in that low byte.
- `sat_counter.dfy` (module `SatCounter`): the `SatCounter8` counters and
  `getPrediction`.
- `nor_index.dfy` (module `NorIndex`): `NOROperation`. It is written as a
  function and as the source's bit-by-bit loop, and both are proved equal
  to the closed form `(~(a|b) & 0xFF) & mask`.
- `gselect.dfy` (module `GSelect`): configuration, state, invariant and
  the five predictor calls as pure functions on an immutable `State`.
- `gselect_run.dfy` (module `GSelectRun`): sequences of calls, and the
  properties that relate several calls.
- `gselect_examples.dfy` (module `GSelectExamples`): concrete runs on a
  four-counter table, and the corner cases of the index.

Modelling choices:

- Registers and `NOROperation` operands are C++ `unsigned`, modelled as
  `bv32` with C++ wrap-around. `Addr` is a 64-bit integer. It is shifted
  right by `instShiftAmt` and then cut to 32 bits, because `NOROperation`
  takes `unsigned` operands (gselect.hh:18).
- `new`/`delete` of `BPHistory` are modelled by a heap in the state. The
  heap maps addresses to tokens, and new tokens get a fresh address.
  Handles are `Null` or `Ptr(addr)`, and addresses are never reused.
  This shows which calls consume a token: `squash` and a committed
  `update` do; a squashed `update` returns before its `delete`.
- Undefined behaviour and the failing assertion are `Fault` results:
  - `AssertionFailed`: `update` with a null token (the `assert` at
    gselect.cc:86).
  - `InvalidHandle`: `squash` with a null token, which it never checks,
    or any call that reads through a deleted token.
  - `IndexOutOfRange`: a table read or write past the end of
    `lclCounters`. This happens only for the unmasked 1 of the (0,0) case
    in a one-counter table, or in a table of no counters.
- A thread id must index `globalHistoryReg`. That vector has
  `globalHistoryBits` entries, not one per hardware thread
  (gselect.cc:15). Calls therefore require `tid < |globalHistoryReg|`.
- The one mask `globalHistoryMask = PredictorSize - 1` bounds both the
  registers and the index (gselect.cc:17, 90, 114, 148). It does not
  depend on `globalHistoryBits`. A table size of 0 wraps the mask to all
  ones.

The model keeps these behaviours of the code as written:

- The code does not reject a table size of 0 or a size that is not a power
  of two.
- The (0,0) index 1 is not always inside the table.
- `squash` has no null check.
- A squashed `update` does not delete its token.

## Model

| member | source | states |
|---|---|---|
| `NorIndex.NOROperation` | gselect.cc:133-149 | (0,0) gives 1 unmasked; otherwise the result is `(~(a\|b) & 0xFF) & mask`, so the operand swap never matters and only bits 0..7 count |
| `NorIndex.NOROperationLoop` | gselect.cc:133-149 | the literal loop with the swap gives 1 at (0,0) and `(~(a\|b) & 0xFF) & mask` elsewhere, equal to `NOROperation` |
| `NorIndex.NorLoop` | gselect.cc:141-146 | walking bits 7 down to 0 and shifting each NOR bit in at the bottom yields `~(a\|h) & 0xFF` |
| `NorIndex.NorWindowPrefix` | gselect.cc:141-145 | after k iterations the accumulator holds the top k bits of the 8-bit NOR |
| `NorIndex.NorWindowClosedForm` | gselect.cc:141-146 | after all eight iterations the accumulator is exactly `~(a\|h) & 0xFF` |
| `NorIndex.NorIndexBound` | gselect.cc:136-148 | outside (0,0) the index has no bit outside the mask or the low byte, so it is at most `mask` and at most 255; (0,0) gives 1 |
| `NorIndex.NorSymmetric` | gselect.cc:138-146 | `NOROperation(m,a,b) == NOROperation(m,b,a)` for all operands |
| `NorIndex.NorLowByteOnly` | gselect.cc:136-146 | bits above the low byte do not change the index, unless they decide the full-width (0,0) test |
| `SatCounter.MaxVal` | gselect.cc:20 | a counter of `PHTCtrBits` bits saturates at `2^PHTCtrBits - 1`, which fits a `uint8_t` |
| `SatCounter.Train` | gselect.cc:96-100 | taken moves the counter up by one or holds it at the maximum; not-taken moves it down by one or holds it at 0; range is kept |
| `SatCounter.TrainNSaturates` | gselect.cc:96-100 | n increments give `min(v+n, max)` and n decrements give `max(v-n, 0)`: a counter never leaves its range |
| `SatCounter.TrainRoundTrip` | gselect.cc:96-100 | increment and decrement undo each other away from the bound they saturate at |
| `SatCounter.TrainMonotonePrediction` | gselect.cc:96-100 | training in the predicted direction never flips the prediction |
| `SatCounter.Predict` | gselect.cc:120-124 | `count >> (PHTCtrBits-1)` is true exactly when the counter is at least `2^(PHTCtrBits-1)` |
| `SatCounter.PredictIsTopBit` | gselect.cc:123 | for an in-range counter the shifted value is 0 or 1, i.e. its most significant bit |
| `GSelect.GlobalHistoryMask` | gselect.cc:17 | the mask is `PredictorSize - 1` as an `unsigned` (the word of `(PredictorSize-1) mod 2^32`, as `ToBv32` defines it), read from the table size alone; its low byte is `(PredictorSize-1) % 256`, and 255 (all ones) for a table size of 0 |
| `GSelect.Init` | gselect.cc:12-21 | `globalHistoryBits` registers and `PredictorSize` counters, all 0, no live tokens, invariants hold |
| `GSelect.ShiftIn` | gselect.cc:112-114 | the shifted-in register has no bit outside the mask |
| `GSelect.UpdateGlobalHistReg` | gselect.cc:108-115 | only register `tid` changes, to the masked shift-in of the outcome; counters and tokens are untouched; invariants are kept |
| `GSelect.ShiftedAddressWraps` | gselect.hh:18 | `branchAddr >> instShiftAmt` is cut from 64 to 32 bits: adding `2^(instShiftAmt+32)` to any address does not change the word `NOROperation` receives |
| `GSelect.ShiftedAddressLowByte` | gselect.cc:58 | the low byte of the word `NOROperation` receives has the value `(branchAddr >> instShiftAmt) mod 256`, for every address and shift |
| `GSelect.PhtIndex` | gselect.cc:58 | `unsigned PHTIndex = NOROperation(branchAddr >> instShiftAmt, history)`: the index is exactly the value of that `unsigned` result, and it is below 256 |
| `GSelect.NewToken` | gselect.cc:34-36 | `new BPHistory` holding the snapshot: the handle points to a fresh address, the heap gains exactly that token, and registers and counters are unchanged |
| `GSelect.PhtIndexBelowSize` | gselect.cc:141-148 | outside (0,0) the index is below `PredictorSize` |
| `GSelect.PhtIndexInRange` | gselect.cc:136-148 | the index lies in the table exactly when `PredictorSize >= 2`, or `PredictorSize == 1` and the operands are not both 0 |
| `GSelect.UncondBranch` | gselect.cc:32-39 | a fresh token holds the old register; register `tid` becomes `((reg<<1)\|1) & mask`; other registers and all counters are unchanged; invariants are kept |
| `GSelect.Squash` | gselect.cc:42-48 | register `tid` becomes the token's snapshot and exactly that token is deleted, every other token keeping its snapshot; counters and other registers are unchanged; a null or deleted token faults, and nothing else does |
| `GSelect.Lookup` | gselect.cc:54-69 | the prediction is true exactly when the counter at `NOROperation(addr>>shift, reg)` is at least `2^(bits-1)`; the fresh token holds the old register; the register shifts in the prediction; no counter changes |
| `GSelect.LookupFaultsIff` | gselect.cc:58-59 | from a state that keeps the invariants, `lookup` faults only in an empty table, or in a one-counter table at (0,0) |
| `GSelect.BtbMaskClearsLowBit` | gselect.cc:74 | `reg & (mask & ~1)` is even, has no bit outside the old value or the mask, and is the old value with bit 0 cleared when the old value was masked |
| `GSelect.BtbUpdate` | gselect.cc:72-75 | only register `tid` changes, to an even value whose bits lie in the old value and in the mask (bit 0 cleared when the old value was masked); counters and tokens are untouched; invariants are kept |
| `GSelect.Update` | gselect.cc:81-105 | null faults by assertion and a deleted token faults; a live token succeeds on the squashed path always and on the committed path exactly when its index lies in the table, otherwise it faults with that index. Squashed: the register becomes `((snapshot<<1)\|taken) & mask`, no counter changes, the token stays live. Committed: only the counter at `NOROperation(addr>>shift, snapshot)` is trained, registers are unchanged, exactly that token is deleted |
| `GSelectRun.Step` | gselect.cc:31-105 | every predictor call that succeeds keeps the invariants; the next token address never goes back, and every older token that survives the call is unchanged |
| `GSelectRun.Run` | gselect.cc:31-105 | a sequence of calls that succeeds keeps the invariants, and every token that survives it is unchanged |
| `GSelectRun.ReachableRegistersBounded` | gselect.cc:15-17 | in every state reachable from the constructor, every register is at most the mask word, i.e. `PredictorSize - 1` as `ToBv32` defines it |
| `GSelectRun.SquashAfterRun` | gselect.cc:42-46 | `squash` restores the token's snapshot whatever calls ran since, if none consumed the token |
| `GSelectRun.LookupThenSquashRestores` | gselect.cc:42-69 | a lookup, any later calls, then the squash of the lookup's token leave the register as the lookup found it |
| `GSelectRun.LookupSquashRoundTrip` | gselect.cc:42-69 | lookup then squash is the identity on registers, counters and live tokens |
| `GSelectRun.UncondBranchSquashRoundTrip` | gselect.cc:32-48 | uncondBranch then squash is the identity on registers, counters and live tokens |
| `GSelectRun.CommitTrainsLookedUpCounter` | gselect.cc:58-104 | the committed update of a lookup's token succeeds and trains exactly the counter the lookup read, even after the register has moved on |
| `GSelectRun.CommitConsumesToken` | gselect.cc:94-104 | after a committed update the token is gone: squash or update with it faults |
| `GSelectRun.SquashConsumesToken` | gselect.cc:44-46 | after a squash the token is gone: a second squash faults |
| `GSelectRun.SquashedUpdateKeepsToken` | gselect.cc:87-91 | a squashed update leaves its token live, and a later squash with it still restores the snapshot |
| `GSelectExamples.NorExample` | gselect.cc:141-148 | `NOROperation(3, 5, 0) == 2` (0xFA masked with 3) |
| `GSelectExamples.LookupThenCommitScenario` | gselect.cc:54-104 | with four 2-bit counters, lookup of address 5 reads counter 2 and predicts not-taken; the committed update raises counter 2 to 1 and leaves the register at 0 |
| `GSelectExamples.LookupThenSquashScenario` | gselect.cc:42-69 | lookup of address 7 from register 0, then squash, leaves the register at 0 |
| `GSelectExamples.UncondBranchThenSquashScenario` | gselect.cc:32-48 | on a fresh four-counter predictor, `uncondBranch` moves the register from 0 to 1, and squashing its token puts it back to 0 |
| `GSelectExamples.ZeroZeroOutOfRange` | gselect.cc:136-137 | in a one-counter table the (0,0) index 1 lies past the end, so the lookup faults |
| `GSelectExamples.TruncatedAddressIsZero` | gselect.hh:18 | address 2^32 is cut to 0 before the (0,0) test and faults like address 0 |

## Left out

- `lru_ipv.hh`, the cache replacement policy: it is unrelated to the
  predictor. Only its declarations are available, so no behaviour can be
  stated.
- `DPRINTF` tracing and the constructor's logging: they only produce output.
- The `BPredUnit` base class and the loading of `GSelectBPParams`: the
  parameters are passed as a `Config`.
- The `pc` argument of `uncondBranch`: it is used only by tracing
  (gselect.cc:38).
- The `branchAddr` and `bpHistory` arguments of `btbUpdate`, and the
  `inst` and `corrTarget` arguments of `update`: none of them is used.
- `historyRegisterMask` is never set or read. `BranchMask` is set, and it
  is read only by tracing (gselect.cc:27).
- `SatCounter8` internals (`base/sat_counter.hh`) are not part of this
  model. The counters are assumed to start at 0, to increment up to
  `(1 << bits) - 1`, and to decrement down to 0.
- The program order in which the pipeline must squash and commit: the
  predictor neither checks nor enforces it, and there is no real
  concurrency.
- `GSelect.ValidConfig` excludes a counter width of 0 or above 8 and an
  address shift of 64 or more. For these, the counter library or the
  shifts in the source fail or are undefined.
- `GSelect.Update`: requires a valid thread id even on the committed path.
  That path reads the register only in a trace statement.
- `GSelectRun.Step` drops the handles that `lookup` and `uncondBranch`
  return. A sequence of calls names its tokens by heap address instead.
