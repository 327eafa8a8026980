/** The gselect branch-direction predictor (`GSelectBP`): one global history
    register per slot of `globalHistoryReg`, a pattern history table of
    saturating counters indexed by `NOROperation`, and rollback tokens
    (`BPHistory`) that snapshot a history register before it is changed.

    The predictor is a state machine over an immutable `State`.  The heap of
    live `BPHistory` objects is part of the state, so that `new` and
    `delete` are visible: a handle is either null or the address of an
    object, addresses are never reused, and reading through a null or freed
    handle is a `Fault` (undefined behaviour or a failed assertion in the
    source). */
module GSelect {
  import opened Bits
  import opened SatCounter
  import opened NorIndex

  /** The constructor parameters, plus `instShiftAmt` of the base class. */
  datatype Config = Config(
    globalHistoryBits: nat,  // number of history registers
    predictorSize: nat,      // number of counters
    phtCtrBits: nat,         // width of each counter
    instShiftAmt: nat)       // right shift applied to branch addresses

  /** Parameters the source can run with: the counter width must be usable
      by `SatCounter8` and by the shift in `getPrediction`, the table size
      must fit an `unsigned`, and the address shift must be defined on a
      64-bit address. */
  predicate ValidConfig(c: Config) {
    && c.predictorSize < 0x1_0000_0000
    && ValidWidth(c.phtCtrBits)
    && c.instShiftAmt < 64
  }

  /** `globalHistoryMask = PredictorSize - 1` in `unsigned` arithmetic (a
      table size of 0 wraps to all ones).  The same mask bounds both the
      history registers and the table index; `globalHistoryBits` plays no
      part in it. */
  function GlobalHistoryMask(c: Config): (m: bv32)
    requires ValidConfig(c)
    ensures c.predictorSize >= 1 ==> ByteValue(m) == (c.predictorSize - 1) % 256
    ensures c.predictorSize == 0 ==> ByteValue(m) == 255
  {
    var n := (c.predictorSize - 1) % 0x1_0000_0000;
    ByteValueOfToBv32(n);
    MaskLowByte(c.predictorSize);
    ToBv32(n)
  }

  /** The low byte of `(size - 1) mod 2^32`: all ones for a size of 0. */
  lemma MaskLowByte(size: nat)
    ensures size >= 1 ==> ((size - 1) % 0x1_0000_0000) % 256 == (size - 1) % 256
    ensures size == 0 ==> ((size - 1) % 0x1_0000_0000) % 256 == 255
  {
    if size >= 1 {
      LowByteOfLowWord(size - 1);
    }
  }

  /** The rollback token: exactly one history value, nothing else. */
  datatype BPHistory = BPHistory(globalHistoryReg: bv32)

  /** The `void *bpHistory` the pipeline holds. */
  datatype Handle = Null | Ptr(addr: nat)

  datatype State = State(
    globalHistoryReg: seq<bv32>,
    lclCounters: seq<uint8>,
    heap: map<nat, BPHistory>,  // live BPHistory objects
    nextAddr: nat)              // first address never handed out

  /** Ways a call can go wrong in the source: the `assert(bpHistory)` of
      `update`, a read through a null or already deleted token, and a
      table access beyond the end of `lclCounters`. */
  datatype Fault = AssertionFailed | InvalidHandle | IndexOutOfRange(index: nat)

  datatype Outcome<T> = Ok(value: T) | Failed(fault: Fault)

  /** What `uncondBranch` hands back. */
  datatype Issued = Issued(bpHistory: Handle, state: State)

  /** What `lookup` hands back. */
  datatype Predicted = Predicted(prediction: bool, bpHistory: Handle, state: State)

  /** The invariants every reachable state keeps. */
  predicate Inv(c: Config, s: State)
    requires ValidConfig(c)
  {
    && |s.globalHistoryReg| == c.globalHistoryBits
    && (forall t :: 0 <= t < |s.globalHistoryReg| ==> Within(s.globalHistoryReg[t], GlobalHistoryMask(c)))
    && |s.lclCounters| == c.predictorSize
    && (forall i :: 0 <= i < |s.lclCounters| ==> InRange(c.phtCtrBits, s.lclCounters[i]))
    && (forall a :: a in s.heap ==> a < s.nextAddr && Within(s.heap[a].globalHistoryReg, GlobalHistoryMask(c)))
  }

  /** Only register `tid` may differ between the two states. */
  predicate OtherRegistersUnchanged(s: State, s': State, tid: nat) {
    && |s'.globalHistoryReg| == |s.globalHistoryReg|
    && forall t :: 0 <= t < |s.globalHistoryReg| && t != tid ==> s'.globalHistoryReg[t] == s.globalHistoryReg[t]
  }

  predicate ValidThread(s: State, tid: nat) {
    tid < |s.globalHistoryReg|
  }

  /** The constructor: `globalHistoryBits` registers and `PredictorSize`
      counters, all 0, and no tokens. */
  function Init(c: Config): (s: State)
    requires ValidConfig(c)
    ensures Inv(c, s)
    ensures |s.globalHistoryReg| == c.globalHistoryBits
    ensures forall t :: 0 <= t < |s.globalHistoryReg| ==> s.globalHistoryReg[t] == 0
    ensures forall i :: 0 <= i < |s.lclCounters| ==> s.lclCounters[i] == 0
    ensures s.heap == map[]
  {
    State(seq(c.globalHistoryBits, _ => 0), seq(c.predictorSize, _ => 0), map[], 0)
  }

  /** `Addr`, an unsigned 64-bit address. */
  newtype uint64 = x: int | 0 <= x < 0x1_0000_0000_0000_0000

  /** The branch address as `NOROperation` receives it: shifted right by
      `instShiftAmt`, then truncated from 64 to 32 bits. */
  function ShiftedAddress(c: Config, branchAddr: uint64): (r: bv32)
    requires ValidConfig(c)
  {
    ToBv32((branchAddr as int / Pow2(c.instShiftAmt)) % 0x1_0000_0000)
  }

  /** Of the shifted address, the index sees only the low byte: the value
      of bits 0..7 of the word is the shifted 64-bit address mod 256. */
  lemma ShiftedAddressLowByte(c: Config, branchAddr: uint64)
    requires ValidConfig(c)
    ensures ByteValue(ShiftedAddress(c, branchAddr)) == (branchAddr as int / Pow2(c.instShiftAmt)) % 256
  {
    var n := branchAddr as int / Pow2(c.instShiftAmt);
    ByteValueOfToBv32(n % 0x1_0000_0000);
    LowByteOfLowWord(n);
  }

  lemma LowByteOfLowWord(n: nat)
    ensures (n % 0x1_0000_0000) % 256 == n % 256
  {
    var q := n / 0x1_0000_0000;
    assert n == 0x1_0000_0000 * q + n % 0x1_0000_0000;
    assert 0x1_0000_0000 * q == 256 * (0x100_0000 * q);
  }

  /** The cut to 32 bits: two addresses whose shifted values differ by a
      multiple of 2^32 reach `NOROperation` as the same word. */
  lemma ShiftedAddressWraps(c: Config, branchAddr: uint64)
    requires ValidConfig(c)
    requires branchAddr as int + Pow2(c.instShiftAmt + 32) < 0x1_0000_0000_0000_0000
    ensures ShiftedAddress(c, branchAddr)
            == ShiftedAddress(c, (branchAddr as int + Pow2(c.instShiftAmt + 32)) as uint64)
  {
    ShiftedValueWraps(branchAddr as int, c.instShiftAmt);
  }

  lemma ShiftedValueWraps(a: nat, shift: nat)
    ensures ((a + Pow2(shift + 32)) / Pow2(shift)) % 0x1_0000_0000 == (a / Pow2(shift)) % 0x1_0000_0000
  {
    var p := Pow2(shift);
    Pow2Add(shift, 32);
    Pow2ThirtyTwo();
    assert Pow2(shift + 32) == p * 0x1_0000_0000;
    DivAddMultiple(a, p, 0x1_0000_0000);
    WordWraps(a / p);
  }

  lemma WordWraps(q: int)
    ensures (q + 0x1_0000_0000) % 0x1_0000_0000 == q % 0x1_0000_0000
  {
  }

  /** The table index for a branch address under a history value.
      `NOROperation` never sets a bit above the low byte (see
      `NorIndex.NorIndexBound`), so the value of its low byte is its value. */
  function PhtIndex(c: Config, branchAddr: uint64, history: bv32): (idx: nat)
    requires ValidConfig(c)
    ensures idx < 256
    ensures idx == NOROperation(GlobalHistoryMask(c), ShiftedAddress(c, branchAddr), history) as int
  {
    var r := NOROperation(GlobalHistoryMask(c), ShiftedAddress(c, branchAddr), history);
    IndexByteValue(GlobalHistoryMask(c), ShiftedAddress(c, branchAddr), history);
    ByteValue(r)
  }

  /** Reading the index through its low byte loses nothing. */
  lemma IndexByteValue(mask: bv32, address: bv32, history: bv32)
    ensures ByteValue(NOROperation(mask, address, history)) == NOROperation(mask, address, history) as int
  {
    NorIndexBound(mask, address, history);
    if address == 0 && history == 0 {
      ByteValueOne();
    } else {
      ByteValueIsValue(NOROperation(mask, address, history));
    }
  }

  /** The history shift of `updateGlobalHistReg` and of a squashed `update`:
      the outcome enters at bit 0 and the result is masked. */
  function ShiftIn(mask: bv32, reg: bv32, taken: bool): (r: bv32)
    ensures Within(r, mask)
  {
    ((reg << 1) | BoolBit(taken)) & mask
  }

  /** Outside the (0,0) case the index is at most `PredictorSize - 1`. */
  lemma PhtIndexBelowSize(c: Config, branchAddr: uint64, history: bv32)
    requires ValidConfig(c) && c.predictorSize >= 1
    requires !(ShiftedAddress(c, branchAddr) == 0 && history == 0)
    ensures PhtIndex(c, branchAddr, history) < c.predictorSize
  {
    var mask := GlobalHistoryMask(c);
    var r := NOROperation(mask, ShiftedAddress(c, branchAddr), history);
    NorIndexBound(mask, ShiftedAddress(c, branchAddr), history);
    ByteValueWithin(r, mask);
  }

  /** Every index the source computes lies in the table, except the
      unmasked 1 of the (0,0) case in a table of one counter, and any index
      in a table of none. */
  lemma PhtIndexInRange(c: Config, branchAddr: uint64, history: bv32)
    requires ValidConfig(c)
    ensures PhtIndex(c, branchAddr, history) < c.predictorSize
        <==> c.predictorSize >= 2
             || (c.predictorSize == 1 && !(ShiftedAddress(c, branchAddr) == 0 && history == 0))
  {
    if ShiftedAddress(c, branchAddr) == 0 && history == 0 {
      ByteValueOne();
    } else if c.predictorSize >= 1 {
      PhtIndexBelowSize(c, branchAddr, history);
    }
  }

  /** `updateGlobalHistReg`. */
  function UpdateGlobalHistReg(c: Config, s: State, tid: nat, taken: bool): (r: State)
    requires ValidConfig(c) && ValidThread(s, tid)
    ensures OtherRegistersUnchanged(s, r, tid)
    ensures r.globalHistoryReg[tid] == ShiftIn(GlobalHistoryMask(c), s.globalHistoryReg[tid], taken)
    ensures r.lclCounters == s.lclCounters && r.heap == s.heap && r.nextAddr == s.nextAddr
    ensures Inv(c, s) ==> Inv(c, r)
  {
    s.(globalHistoryReg := s.globalHistoryReg[tid := ShiftIn(GlobalHistoryMask(c), s.globalHistoryReg[tid], taken)])
  }

  /** `new BPHistory` holding a snapshot: a fresh address, never used before. */
  function NewToken(s: State, snapshot: bv32): (r: Issued)
    ensures r.bpHistory == Ptr(s.nextAddr)
    ensures r.state.heap == s.heap[s.nextAddr := BPHistory(snapshot)]
    ensures r.state.nextAddr > s.nextAddr
    ensures r.state.globalHistoryReg == s.globalHistoryReg && r.state.lclCounters == s.lclCounters
  {
    Issued(Ptr(s.nextAddr), s.(heap := s.heap[s.nextAddr := BPHistory(snapshot)], nextAddr := s.nextAddr + 1))
  }

  /** `uncondBranch`: snapshot the register into a new token, then shift in
      a taken outcome.  No counter is read or written. */
  function UncondBranch(c: Config, s: State, tid: nat): (r: Issued)
    requires ValidConfig(c) && ValidThread(s, tid)
    ensures r.bpHistory.Ptr?
    ensures Inv(c, s) ==> r.bpHistory.addr !in s.heap
    ensures r.state.heap == s.heap[r.bpHistory.addr := BPHistory(s.globalHistoryReg[tid])]
    ensures OtherRegistersUnchanged(s, r.state, tid)
    ensures r.state.globalHistoryReg[tid] == ShiftIn(GlobalHistoryMask(c), s.globalHistoryReg[tid], true)
    ensures r.state.lclCounters == s.lclCounters
    ensures Inv(c, s) ==> Inv(c, r.state)
  {
    var issued := NewToken(s, s.globalHistoryReg[tid]);
    Issued(issued.bpHistory, UpdateGlobalHistReg(c, issued.state, tid, true))
  }

  /** `squash`: put the register back to the token's snapshot and delete the
      token.  There is no null check, so a null or already deleted token is
      a fault. */
  function Squash(c: Config, s: State, tid: nat, bpHistory: Handle): (r: Outcome<State>)
    requires ValidConfig(c) && ValidThread(s, tid)
    ensures r.Failed? <==> !(bpHistory.Ptr? && bpHistory.addr in s.heap)
    ensures r.Failed? ==> r.fault == InvalidHandle
    ensures r.Ok? ==> OtherRegistersUnchanged(s, r.value, tid)
    ensures r.Ok? ==> r.value.globalHistoryReg[tid] == s.heap[bpHistory.addr].globalHistoryReg
    ensures r.Ok? ==> r.value.lclCounters == s.lclCounters && r.value.nextAddr == s.nextAddr
    ensures r.Ok? ==> r.value.heap == s.heap - {bpHistory.addr}
    ensures r.Ok? && Inv(c, s) ==> Inv(c, r.value)
  {
    match bpHistory
    case Null => Failed(InvalidHandle)
    case Ptr(a) =>
      if a !in s.heap then Failed(InvalidHandle)
      else
        Ok(s.(globalHistoryReg := s.globalHistoryReg[tid := s.heap[a].globalHistoryReg],
              heap := s.heap - {a}))
  }

  /** `lookup`: read the counter the address and the live register select,
      predict its top bit, snapshot the register into a new token, and shift
      the prediction into the register.  No counter changes. */
  function Lookup(c: Config, s: State, tid: nat, branchAddr: uint64): (r: Outcome<Predicted>)
    requires ValidConfig(c) && ValidThread(s, tid)
    ensures r.Failed? <==> PhtIndex(c, branchAddr, s.globalHistoryReg[tid]) >= |s.lclCounters|
    ensures r.Failed? ==> r.fault == IndexOutOfRange(PhtIndex(c, branchAddr, s.globalHistoryReg[tid]))
    ensures r.Ok? ==>
      var idx := PhtIndex(c, branchAddr, s.globalHistoryReg[tid]);
      && idx < |s.lclCounters|
      && (r.value.prediction <==> s.lclCounters[idx] as int >= Pow2(c.phtCtrBits - 1))
      && r.value.bpHistory.Ptr?
      && (Inv(c, s) ==> r.value.bpHistory.addr !in s.heap)
      && r.value.state.heap == s.heap[r.value.bpHistory.addr := BPHistory(s.globalHistoryReg[tid])]
      && OtherRegistersUnchanged(s, r.value.state, tid)
      && r.value.state.globalHistoryReg[tid]
         == ShiftIn(GlobalHistoryMask(c), s.globalHistoryReg[tid], r.value.prediction)
      && r.value.state.lclCounters == s.lclCounters
      && (Inv(c, s) ==> Inv(c, r.value.state))
  {
    var idx := PhtIndex(c, branchAddr, s.globalHistoryReg[tid]);
    if idx >= |s.lclCounters| then Failed(IndexOutOfRange(idx))
    else
      var prediction := Predict(c.phtCtrBits, s.lclCounters[idx]);
      var issued := NewToken(s, s.globalHistoryReg[tid]);
      Ok(Predicted(prediction, issued.bpHistory, UpdateGlobalHistReg(c, issued.state, tid, prediction)))
  }

  /** The effect of `reg &= mask & ~1` on a register: the result is even,
      has no bit the old value or the mask lacks, and, for a register
      already within the mask, is the old value with bit 0 cleared. */
  predicate ClearsLowBit(mask: bv32, reg: bv32, reg': bv32) {
    && reg' & 1 == 0
    && Within(reg', reg)
    && Within(reg', mask)
    && (Within(reg, mask) ==> reg' == reg & !1)
  }

  lemma BtbMaskEven(mask: bv32, reg: bv32)
    ensures reg & (mask & !1) & 1 == 0
  {
  }

  lemma BtbMaskWithin(mask: bv32, reg: bv32)
    ensures Within(reg & (mask & !1), reg)
    ensures Within(reg & (mask & !1), mask)
  {
  }

  lemma BtbMaskOnMasked(mask: bv32, reg: bv32)
    requires Within(reg, mask)
    ensures reg & (mask & !1) == reg & !1
  {
  }

  lemma BtbMaskClearsLowBit(mask: bv32, reg: bv32)
    ensures ClearsLowBit(mask, reg, reg & (mask & !1))
  {
    BtbMaskEven(mask, reg);
    BtbMaskWithin(mask, reg);
    if Within(reg, mask) {
      BtbMaskOnMasked(mask, reg);
    }
  }

  /** On a state that keeps the invariants, `lookup` fails only in a table
      of no counters, or in a table of one counter when both the shifted
      address and the register are 0. */
  lemma LookupFaultsIff(c: Config, s: State, tid: nat, branchAddr: uint64)
    requires ValidConfig(c) && Inv(c, s) && ValidThread(s, tid)
    ensures Lookup(c, s, tid, branchAddr).Failed?
        <==> c.predictorSize == 0
             || (c.predictorSize == 1 && ShiftedAddress(c, branchAddr) == 0 && s.globalHistoryReg[tid] == 0)
  {
    PhtIndexInRange(c, branchAddr, s.globalHistoryReg[tid]);
  }

  /** `btbUpdate`: clear bit 0 of the register (and mask it).  The token is
      not touched. */
  function BtbUpdate(c: Config, s: State, tid: nat): (r: State)
    requires ValidConfig(c) && ValidThread(s, tid)
    ensures OtherRegistersUnchanged(s, r, tid)
    ensures ClearsLowBit(GlobalHistoryMask(c), s.globalHistoryReg[tid], r.globalHistoryReg[tid])
    ensures r.lclCounters == s.lclCounters && r.heap == s.heap && r.nextAddr == s.nextAddr
    ensures Inv(c, s) ==> Inv(c, r)
  {
    BtbMaskClearsLowBit(GlobalHistoryMask(c), s.globalHistoryReg[tid]);
    s.(globalHistoryReg := s.globalHistoryReg[tid := s.globalHistoryReg[tid] & (GlobalHistoryMask(c) & !1)])
  }

  /** `update`.  A null token fails the assertion.  On a squashed path the
      register is rebuilt from the snapshot and the resolved outcome, no
      counter is trained and the token is NOT deleted.  On a committed path
      the counter selected by the address and the snapshot (not the live
      register) is trained and the token is deleted; `tid` is not used. */
  function Update(c: Config, s: State, tid: nat, branchAddr: uint64, taken: bool,
                  bpHistory: Handle, squashed: bool): (r: Outcome<State>)
    requires ValidConfig(c) && ValidThread(s, tid)
    ensures bpHistory.Null? <==> r == Failed(AssertionFailed)
    ensures bpHistory.Ptr? && bpHistory.addr !in s.heap <==> r == Failed(InvalidHandle)
    ensures r.Ok? <==>
      && bpHistory.Ptr? && bpHistory.addr in s.heap
      && (squashed || PhtIndex(c, branchAddr, s.heap[bpHistory.addr].globalHistoryReg) < |s.lclCounters|)
    ensures bpHistory.Ptr? && bpHistory.addr in s.heap && !squashed
            && PhtIndex(c, branchAddr, s.heap[bpHistory.addr].globalHistoryReg) >= |s.lclCounters|
            ==> r == Failed(IndexOutOfRange(PhtIndex(c, branchAddr, s.heap[bpHistory.addr].globalHistoryReg)))
    ensures r.Ok? && squashed ==>
      && OtherRegistersUnchanged(s, r.value, tid)
      && r.value.globalHistoryReg[tid]
         == ShiftIn(GlobalHistoryMask(c), s.heap[bpHistory.addr].globalHistoryReg, taken)
      && r.value.lclCounters == s.lclCounters
      && r.value.heap == s.heap && r.value.nextAddr == s.nextAddr
    ensures r.Ok? && !squashed ==>
      var idx := PhtIndex(c, branchAddr, s.heap[bpHistory.addr].globalHistoryReg);
      && idx < |s.lclCounters|
      && r.value.globalHistoryReg == s.globalHistoryReg
      && |r.value.lclCounters| == |s.lclCounters|
      && r.value.lclCounters[idx] == Train(c.phtCtrBits, s.lclCounters[idx], taken)
      && (forall i :: 0 <= i < |s.lclCounters| && i != idx ==> r.value.lclCounters[i] == s.lclCounters[i])
      && r.value.heap == s.heap - {bpHistory.addr}
      && r.value.nextAddr == s.nextAddr
    ensures r.Ok? && Inv(c, s) ==> Inv(c, r.value)
  {
    match bpHistory
    case Null => Failed(AssertionFailed)
    case Ptr(a) =>
      if a !in s.heap then Failed(InvalidHandle)
      else
        var snapshot := s.heap[a].globalHistoryReg;
        if squashed then
          Ok(s.(globalHistoryReg := s.globalHistoryReg[tid := ShiftIn(GlobalHistoryMask(c), snapshot, taken)]))
        else
          var idx := PhtIndex(c, branchAddr, snapshot);
          if idx >= |s.lclCounters| then Failed(IndexOutOfRange(idx))
          else
            Ok(s.(lclCounters := s.lclCounters[idx := Train(c.phtCtrBits, s.lclCounters[idx], taken)],
                  heap := s.heap - {a}))
  }
}
