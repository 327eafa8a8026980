/** The index function of the gselect predictor: `NOROperation` combines the
    shifted branch address and a history value into a pattern-history-table
    index by a bitwise NOR over a fixed 8-bit window, assembled most
    significant bit first, and then masks the result with the table mask.
    Operands and result are C++ `unsigned`, modelled as `bv32`. */
module NorIndex {
  import opened Bits

  /** One step of the loop: the NOR of bit `i` of both operands, as 0 or 1.
      The source computes `!(bitAddress | bitHistory)`, a logical negation. */
  function NorBit(address: bv32, history: bv32, i: bv32): (r: bv32)
    requires i < 8
    ensures r == 0 || r == 1
  {
    var bitAddress := (address >> i) & 1;
    var bitHistory := (history >> i) & 1;
    if bitAddress | bitHistory == 0 then 1 else 0
  }

  /** The accumulator after `k` iterations of the loop, which walks bit
      positions 7, 6, ... downwards and shifts each NOR bit in at the bottom. */
  function NorWindow(address: bv32, history: bv32, k: bv32): (r: bv32)
    requires k <= 8
    decreases k
  {
    if k == 0 then 0
    else (NorWindow(address, history, k - 1) << 1) | NorBit(address, history, 8 - k)
  }

  /** One more iteration of the loop, with its bit position spelled out. */
  lemma NorWindowUnfold(address: bv32, history: bv32, k: bv32)
    requires k < 8
    ensures NorWindow(address, history, k + 1)
         == (NorWindow(address, history, k) << 1) | NorBit(address, history, 7 - k)
  {
  }

  /** Shifting one more NOR bit in at the bottom extends the top of the
      8-bit NOR by one position. */
  lemma NorWindowStep(address: bv32, history: bv32, j: bv32, acc: bv32)
    requires j < 8
    requires acc == (!(address | history) & 0xFF) >> (j + 1)
    ensures (acc << 1) | NorBit(address, history, j) == (!(address | history) & 0xFF) >> j
  {
  }

  /** After `k` iterations the accumulator holds the top `k` bits of the
      8-bit NOR of the operands. */
  lemma {:induction false} NorWindowPrefix(address: bv32, history: bv32, k: bv32)
    requires k <= 8
    ensures NorWindow(address, history, k) == (!(address | history) & 0xFF) >> (8 - k)
    decreases k
  {
    if k > 0 {
      NorWindowPrefix(address, history, k - 1);
      NorWindowUnfold(address, history, k - 1);
      NorWindowStep(address, history, 8 - k, NorWindow(address, history, k - 1));
    }
  }

  /** After all eight iterations the accumulator holds exactly the 8-bit
      NOR of the two operands. */
  lemma NorWindowClosedForm(address: bv32, history: bv32)
    ensures NorWindow(address, history, 8) == !(address | history) & 0xFF
  {
    NorWindowPrefix(address, history, 8);
  }

  /** `NOROperation` as written: the (0,0) special case returns an unmasked 1,
      otherwise the larger operand is put first (which cannot change a
      bitwise NOR) and the 8-bit window is NORed and masked.  Only bits 0..7
      of either operand reach the result. */
  function NOROperation(mask: bv32, address: bv32, history: bv32): (r: bv32)
    ensures address == 0 && history == 0 ==> r == 1
    ensures !(address == 0 && history == 0) ==> r == (!(address | history) & 0xFF) & mask
  {
    if address == 0 && history == 0 then 1
    else
      var (a, h) := if address < history then (history, address) else (address, history);
      NorWindowClosedForm(a, h);
      NorWindow(a, h, 8) & mask
  }

  /** The loop of the source: bit positions 7 down to 0 of the ordered
      operands, each NOR bit shifted in at the bottom of the accumulator. */
  method NorLoop(a: bv32, h: bv32) returns (result: bv32)
    ensures result == !(a | h) & 0xFF
  {
    result := 0;
    // `n` counts the bit positions still to visit; the source's `i` is `n - 1`.
    var n: bv32 := 8;
    while n > 0
      invariant n <= 8
      invariant result == NorWindow(a, h, 8 - n)
    {
      var i := n - 1;
      var bitAddress := (a >> i) & 1;
      var bitHistory := (h >> i) & 1;
      var norResult: bv32 := if bitAddress | bitHistory == 0 then 1 else 0;
      NorWindowUnfold(a, h, 8 - n);
      result := (result << 1) | norResult;
      n := n - 1;
    }
    NorWindowClosedForm(a, h);
  }

  /** `NOROperation` written imperatively, statement for statement. */
  method NOROperationLoop(mask: bv32, address: bv32, history: bv32) returns (result: bv32)
    ensures address == 0 && history == 0 ==> result == 1
    ensures !(address == 0 && history == 0) ==> result == (!(address | history) & 0xFF) & mask
    ensures result == NOROperation(mask, address, history)
  {
    if address == 0 && history == 0 {
      return 1;
    }
    var a, h := address, history;
    if a < h {
      a, h := h, a;
    }
    result := NorLoop(a, h);
    result := result & mask;
  }

  /** Outside the (0,0) case the index is at most the mask and at most
      255; the (0,0) case yields 1 whatever the mask. */
  lemma NorIndexBound(mask: bv32, address: bv32, history: bv32)
    ensures !(address == 0 && history == 0) ==>
              Within(NOROperation(mask, address, history), mask) && Within(NOROperation(mask, address, history), 0xFF)
    ensures !(address == 0 && history == 0) ==>
              NOROperation(mask, address, history) <= mask && NOROperation(mask, address, history) <= 0xFF
    ensures address == 0 && history == 0 ==> NOROperation(mask, address, history) == 1
  {
    var r := NOROperation(mask, address, history);
    if !(address == 0 && history == 0) {
      assert Within(r, mask) && Within(r, 0xFF);
      WithinBound(r, mask);
      WithinBound(r, 0xFF);
    }
  }

  /** The combine is symmetric in its operands. */
  lemma NorSymmetric(mask: bv32, a: bv32, b: bv32)
    ensures NOROperation(mask, a, b) == NOROperation(mask, b, a)
  {
  }

  /** Bits above the 8-bit window are ignored, except that the (0,0) test
      looks at the whole 32-bit operands. */
  lemma NorLowByteOnly(mask: bv32, a: bv32, b: bv32)
    requires !(a & 0xFF == 0 && b & 0xFF == 0)
    ensures NOROperation(mask, a, b) == NOROperation(mask, a & 0xFF, b & 0xFF)
  {
  }
}
