/** Unsigned 32-bit words (`bv32`) and the few facts about them the
    predictor needs.  Order on words is reached through bit inclusion
    (`Within`), and words meet integers only through `ToBv32` (an integer
    below 2^32 as a word) and `ByteValue` (the integer value of the low
    byte). */
module Bits {

  function Pow2(n: nat): (r: nat)
    ensures r >= 1
  {
    if n == 0 then 1 else 2 * Pow2(n - 1)
  }

  /** Powers of two multiply by adding exponents. */
  lemma {:induction false} Pow2Add(m: nat, n: nat)
    ensures Pow2(m + n) == Pow2(m) * Pow2(n)
    decreases n
  {
    if n > 0 {
      Pow2Add(m, n - 1);
      assert Pow2(m + n) == 2 * Pow2(m + n - 1);
    }
  }

  lemma Pow2ThirtyTwo()
    ensures Pow2(32) == 0x1_0000_0000
  {
    assert Pow2(8) == 256;
    Pow2Add(8, 8);
    Pow2Add(16, 16);
  }

  lemma MulMono(p: nat, x: int, y: int)
    requires x <= y
    ensures p * x <= p * y
  {
    assert p * y == p * x + p * (y - x);
  }

  /** Division is determined by any quotient and remainder that fit. */
  lemma DivUnique(n: int, p: nat, q: int, r: int)
    requires p >= 1 && 0 <= r < p && n == p * q + r
    ensures n / p == q
  {
    var q' := n / p;
    assert n == p * q' + n % p;
    if q' < q {
      assert p * (q' + 1) == p * q' + p;
      MulMono(p, q' + 1, q);
    } else if q < q' {
      assert p * (q + 1) == p * q + p;
      MulMono(p, q + 1, q');
    }
  }

  /** Adding `k` whole multiples of `p` adds exactly `k` to the quotient. */
  lemma DivAddMultiple(a: nat, p: nat, k: nat)
    requires p >= 1
    ensures (a + p * k) / p == a / p + k
  {
    var q, r := a / p, a % p;
    assert a == p * q + r;
    assert p * (q + k) == p * q + p * k;
    DivUnique(a + p * k, p, q + k, r);
  }

  /** Every bit set in `x` is also set in `m`; for a mask `m` this is the
      statement that masking with `m` leaves `x` alone. */
  predicate Within(x: bv32, m: bv32) {
    x & m == x
  }

  /** A word whose bits lie within `m` is no larger than `m`. */
  lemma WithinBound(x: bv32, m: bv32)
    requires Within(x, m)
    ensures x <= m
  {
  }

  /** A C++ `bool` converted to an unsigned value. */
  function BoolBit(b: bool): (r: bv32)
    ensures Within(r, 1)
    ensures r == 1 <==> b
  {
    if b then 1 else 0
  }

  /** Bit 0 of `n`, as a word. */
  function LowBit(n: nat): (r: bv32) {
    if n % 2 == 1 then 1 else 0
  }

  /** The unsigned 32-bit word whose value is `n` (what `n as bv32` gives),
      built bit by bit: bit 0 of the result is bit 0 of `n`, and the bits
      above it are the word of `n / 2` shifted up by one.  Integers meet
      words only through this function and `ByteValue`, whose link to it is
      `ByteValueOfToBv32`. */
  function ToBv32(n: nat): (r: bv32)
    requires n < 0x1_0000_0000
    decreases n
  {
    if n == 0 then 0 else (ToBv32(n / 2) << 1) | LowBit(n)
  }

  /** `w` if the bit selected by `b` is set in `x`, else 0. */
  function Place(x: bv32, b: bv32, w: nat): (r: nat) {
    if x & b == 0 then 0 else w
  }

  /** The value of the low byte of a word, as an integer: the sum of the
      place values of its eight bits. */
  function ByteValue(x: bv32): (r: nat)
    ensures r < 256
  {
    Place(x, 0x80, 128) + Place(x, 0x40, 64) + Place(x, 0x20, 32) + Place(x, 0x10, 16)
    + Place(x, 0x08, 8) + Place(x, 0x04, 4) + Place(x, 0x02, 2) + Place(x, 0x01, 1)
  }

  /** Shifting left moves bits 3..6 up one place each. */
  lemma ShiftPlacesHigh(m: bv32, n: nat)
    ensures var x := (m << 1) | LowBit(n);
            && Place(x, 0x80, 128) == 2 * Place(m, 0x40, 64)
            && Place(x, 0x40, 64) == 2 * Place(m, 0x20, 32)
            && Place(x, 0x20, 32) == 2 * Place(m, 0x10, 16)
            && Place(x, 0x10, 16) == 2 * Place(m, 0x08, 8)
  {
  }

  /** Shifting left moves bits 0..2 up one place each, and the new bit 0 is
      the parity of `n`. */
  lemma ShiftPlacesLow(m: bv32, n: nat)
    ensures var x := (m << 1) | LowBit(n);
            && Place(x, 0x08, 8) == 2 * Place(m, 0x04, 4)
            && Place(x, 0x04, 4) == 2 * Place(m, 0x02, 2)
            && Place(x, 0x02, 2) == 2 * Place(m, 0x01, 1)
            && Place(x, 0x01, 1) == n % 2
  {
  }

  /** Bits 0..6 of a word, as an integer. */
  function LowSeven(x: bv32): (r: nat)
    ensures r < 128
  {
    Place(x, 0x40, 64) + Place(x, 0x20, 32) + Place(x, 0x10, 16) + Place(x, 0x08, 8)
    + Place(x, 0x04, 4) + Place(x, 0x02, 2) + Place(x, 0x01, 1)
  }

  lemma ByteValueSplit(x: bv32)
    ensures ByteValue(x) == Place(x, 0x80, 128) + LowSeven(x)
    ensures LowSeven(x) == ByteValue(x) % 128
  {
    var h, low := Place(x, 0x80, 128), LowSeven(x);
    assert h == 0 || h == 128;
    DropTopPlace(h, low);
  }

  lemma DropTopPlace(h: nat, low: nat)
    requires h == 0 || h == 128
    requires low < 128
    ensures (h + low) % 128 == low
  {
  }

  /** Shifting left doubles the value of the low seven bits and brings in
      the parity of `n` as bit 0. */
  lemma ByteValueStep(m: bv32, n: nat)
    ensures ByteValue((m << 1) | LowBit(n)) == 2 * (ByteValue(m) % 128) + n % 2
  {
    ShiftPlacesHigh(m, n);
    ShiftPlacesLow(m, n);
    ByteValueSplit(m);
  }

  lemma LowByteOfHalf(n: nat)
    ensures 2 * ((n / 2) % 256 % 128) + n % 2 == n % 256
  {
    var q, r := n / 2, n % 2;
    var b := q % 256;
    var d := b % 128;
    assert n == 2 * q + r;
    assert q == 256 * (q / 256) + b;
    assert b == 128 * (b / 128) + d;
    assert n == 256 * (2 * (q / 256) + b / 128) + (2 * d + r);
    assert 0 <= 2 * d + r < 256;
  }

  /** The low byte of `ToBv32(n)` has the value `n % 256`. */
  lemma {:induction false} ByteValueOfToBv32(n: nat)
    requires n < 0x1_0000_0000
    ensures ByteValue(ToBv32(n)) == n % 256
    decreases n
  {
    if n > 0 {
      ByteValueOfToBv32(n / 2);
      ByteValueStep(ToBv32(n / 2), n);
      LowByteOfHalf(n);
    }
  }

  lemma ByteValueOne()
    ensures ByteValue(1) == 1
  {
  }

  /** A word with no bit above the low byte has the value of its low byte. */
  lemma ByteValueIsValue(x: bv32)
    requires Within(x, 0xFF)
    ensures ByteValue(x) == x as int
  {
  }

  /** Bit inclusion bounds the low byte too. */
  lemma ByteValueWithin(x: bv32, m: bv32)
    requires Within(x, m)
    ensures ByteValue(x) <= ByteValue(m)
  {
    assert Place(x, 0x80, 128) <= Place(m, 0x80, 128);
    assert Place(x, 0x40, 64) <= Place(m, 0x40, 64);
    assert Place(x, 0x20, 32) <= Place(m, 0x20, 32);
    assert Place(x, 0x10, 16) <= Place(m, 0x10, 16);
    assert Place(x, 0x08, 8) <= Place(m, 0x08, 8);
    assert Place(x, 0x04, 4) <= Place(m, 0x04, 4);
    assert Place(x, 0x02, 2) <= Place(m, 0x02, 2);
    assert Place(x, 0x01, 1) <= Place(m, 0x01, 1);
  }
}
