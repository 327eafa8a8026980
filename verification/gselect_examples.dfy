/** Concrete runs of the predictor on a table of four 2-bit counters with no
    address shift, and the (0,0) corner of a one-counter table. */
module GSelectExamples {
  import opened Bits
  import opened SatCounter
  import opened NorIndex
  import opened GSelect

  /** One history register, four counters of two bits, no address shift. */
  function SmallConfig(): (c: Config)
    ensures ValidConfig(c)
  {
    Config(1, 4, 2, 0)
  }

  lemma SmallConfigMask()
    ensures GlobalHistoryMask(SmallConfig()) == 3
  {
    assert ToBv32(3) == 3 by {
      assert ToBv32(1) == 1;
    }
  }

  lemma SmallConfigAddress(a: nat)
    requires a < 8
    ensures ShiftedAddress(SmallConfig(), a as uint64) == ToBv32(a)
  {
    assert Pow2(0) == 1;
    assert (a / 1) % 0x1_0000_0000 == a;
  }

  /** The NOR of 5 (00000101) and 0 is 11111010; masked with 3 it is 2. */
  lemma NorExample()
    ensures NOROperation(3, 5, 0) == 2
  {
  }

  /** A lookup of address 5 on a fresh predictor reads counter 2, which is
      0, so it predicts not-taken and shifts a 0 into the register; the
      committed update with outcome taken raises counter 2 to 1, deletes
      the token and leaves the register at 0. */
  lemma LookupThenCommitScenario()
    ensures var c := SmallConfig();
            var p := Lookup(c, Init(c), 0, 5);
            && PhtIndex(c, 5, 0) == 2
            && p.Ok?
            && !p.value.prediction
            && p.value.bpHistory == Ptr(0)
            && p.value.state.globalHistoryReg[0] == 0
            && var u := Update(c, p.value.state, 0, 5, true, Ptr(0), false);
               && u.Ok?
               && u.value.lclCounters[2] == 1
               && u.value.globalHistoryReg[0] == 0
               && u.value.heap == map[]
  {
    var c := SmallConfig();
    SmallConfigMask();
    SmallConfigAddress(5);
    assert ToBv32(5) == 5 by {
      assert ToBv32(2) == 2 by {
        assert ToBv32(1) == 1;
      }
    }
    NorExample();
    assert PhtIndex(c, 5, 0) == ByteValue(2) == 2;
  }

  /** A lookup of address 7 from register 0, squashed before it commits,
      leaves the register at 0 again. */
  lemma LookupThenSquashScenario()
    ensures var c := SmallConfig();
            var p := Lookup(c, Init(c), 0, 7);
            && p.Ok?
            && var q := Squash(c, p.value.state, 0, p.value.bpHistory);
               q.Ok? && q.value.globalHistoryReg[0] == 0
  {
    var c := SmallConfig();
    SmallConfigMask();
    SmallConfigAddress(7);
    assert ToBv32(7) == 7 by {
      assert ToBv32(3) == 3 by {
        assert ToBv32(1) == 1;
      }
    }
    assert NOROperation(3, 7, 0) == 0;
    assert PhtIndex(c, 7, 0) == 0;
  }

  /** `uncondBranch` shifts a 1 into the fresh register, which then reads 1;
      squashing its token puts the register back to 0. */
  lemma UncondBranchThenSquashScenario()
    ensures var c := SmallConfig();
            var u := UncondBranch(c, Init(c), 0);
            && u.state.globalHistoryReg[0] == 1
            && var q := Squash(c, u.state, 0, u.bpHistory);
               q.Ok? && q.value.globalHistoryReg[0] == 0
  {
    SmallConfigMask();
  }

  /** The shifted address is cut to 32 bits before the (0,0) test: address
      2^32 reaches `NOROperation` as 0 and fails like address 0. */
  lemma TruncatedAddressIsZero()
    ensures var c := Config(1, 1, 2, 0);
            && ShiftedAddress(c, 0x1_0000_0000) == 0
            && Lookup(c, Init(c), 0, 0x1_0000_0000) == Failed(IndexOutOfRange(1))
  {
    var c := Config(1, 1, 2, 0);
    assert Pow2(0) == 1;
    assert ShiftedAddress(c, 0x1_0000_0000) == ToBv32(0) == 0;
    assert NOROperation(GlobalHistoryMask(c), 0, 0) == 1;
    ByteValueOne();
  }

  /** With a single counter the mask is 0, yet the (0,0) case returns the
      unmasked index 1, one past the end of the table. */
  lemma ZeroZeroOutOfRange()
    ensures var c := Config(1, 1, 2, 0);
            Lookup(c, Init(c), 0, 0) == Failed(IndexOutOfRange(1))
  {
    var c := Config(1, 1, 2, 0);
    assert ShiftedAddress(c, 0) == 0;
    assert NOROperation(GlobalHistoryMask(c), 0, 0) == 1;
    ByteValueOne();
  }
}
