/** The saturating counters of the pattern history table (`SatCounter8`).
    The counter library is not part of this model; its behaviour is assumed
    to be the usual one: an 8-bit storage value that starts at 0, an
    increment that stops at `(1 << bits) - 1` and a decrement that stops at
    0. */
module SatCounter {
  import opened Bits

  /** The storage type of `SatCounter8` and of the `uint8_t` the predictor
      reads a counter into. */
  newtype uint8 = x: int | 0 <= x < 256

  /** A counter width the predictor can use: at least one bit, so that the
      prediction shift `bits - 1` is defined, and at most the eight bits of
      the storage type. */
  predicate ValidWidth(bits: nat) {
    1 <= bits <= 8
  }

  /** The saturation value `(1 << bits) - 1`. */
  function MaxVal(bits: nat): (r: uint8)
    requires ValidWidth(bits)
    ensures r as int + 1 == Pow2(bits)
  {
    Pow2Monotone(bits, 8);
    (Pow2(bits) - 1) as uint8
  }

  lemma {:induction false} Pow2Monotone(m: nat, n: nat)
    requires m <= n
    ensures Pow2(m) <= Pow2(n)
    decreases n
  {
    if m < n {
      Pow2Monotone(m, n - 1);
    }
  }

  predicate InRange(bits: nat, v: uint8)
    requires ValidWidth(bits)
  {
    v <= MaxVal(bits)
  }

  /** `counter++`: one step up, unless already saturated. */
  function Increment(bits: nat, v: uint8): (r: uint8)
    requires ValidWidth(bits)
  {
    if v < MaxVal(bits) then v + 1 else v
  }

  /** `counter--`: one step down, unless already 0. */
  function Decrement(v: uint8): (r: uint8)
  {
    if v > 0 then v - 1 else v
  }

  /** Training towards the resolved direction: taken counts up, not-taken
      counts down. */
  function Train(bits: nat, v: uint8, taken: bool): (r: uint8)
    requires ValidWidth(bits)
    ensures InRange(bits, v) ==> InRange(bits, r)
    ensures taken ==> v <= r && (r as int == v as int + 1 || r == v == MaxVal(bits) || !InRange(bits, v))
    ensures !taken ==> r <= v && (r as int + 1 == v as int || r == v == 0)
  {
    if taken then Increment(bits, v) else Decrement(v)
  }

  /** `getPrediction`: the counter shifted right by `bits - 1`, read as a
      boolean.  For a counter in range this is its most significant bit,
      i.e. the counter is in the upper half of its range. */
  function Predict(bits: nat, v: uint8): (r: bool)
    requires ValidWidth(bits)
    ensures r <==> v as int >= Pow2(bits - 1)
  {
    DivNonZero(v as int, Pow2(bits - 1));
    (v as int) / Pow2(bits - 1) != 0
  }

  lemma DivNonZero(v: nat, d: nat)
    requires d >= 1
    ensures v / d != 0 <==> v >= d
  {
    if v >= d {
      assert v / d >= 1;
    }
  }

  /** The shift in `getPrediction` leaves exactly the top bit of an in-range
      counter: the shifted value is 0 or 1. */
  lemma PredictIsTopBit(bits: nat, v: uint8)
    requires ValidWidth(bits) && InRange(bits, v)
    ensures (v as int) / Pow2(bits - 1) <= 1
  {
    assert Pow2(bits) == 2 * Pow2(bits - 1);
  }

  /** `n` training steps in the same direction. */
  function TrainN(bits: nat, v: uint8, taken: bool, n: nat): (r: uint8)
    requires ValidWidth(bits)
    decreases n
  {
    if n == 0 then v else TrainN(bits, Train(bits, v, taken), taken, n - 1)
  }

  /** Repeated increments of an in-range counter clamp at the maximum and
      repeated decrements clamp at 0: `n` steps land exactly on
      `min(v + n, max)` or `max(v - n, 0)`. */
  lemma {:induction false} TrainNSaturates(bits: nat, v: uint8, taken: bool, n: nat)
    requires ValidWidth(bits) && InRange(bits, v)
    ensures taken ==> TrainN(bits, v, taken, n) as int
                      == if v as int + n <= MaxVal(bits) as int then v as int + n else MaxVal(bits) as int
    ensures !taken ==> TrainN(bits, v, taken, n) as int == if v as int >= n then v as int - n else 0
    decreases n
  {
    if n > 0 {
      TrainNSaturates(bits, Train(bits, v, taken), taken, n - 1);
    }
  }

  /** Increment and decrement undo each other away from the bound they
      saturate at. */
  lemma TrainRoundTrip(bits: nat, v: uint8)
    requires ValidWidth(bits) && InRange(bits, v)
    ensures v < MaxVal(bits) ==> Decrement(Increment(bits, v)) == v
    ensures v > 0 ==> Increment(bits, Decrement(v)) == v
  {
  }

  /** Training never moves the prediction against the trained direction. */
  lemma TrainMonotonePrediction(bits: nat, v: uint8, taken: bool)
    requires ValidWidth(bits) && InRange(bits, v)
    ensures Predict(bits, v) == taken ==> Predict(bits, Train(bits, v, taken)) == taken
  {
  }
}
