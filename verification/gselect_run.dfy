/** Sequences of predictor calls, as the pipeline issues them, and the
    properties that relate several calls: a squash restores the snapshot
    whatever ran in between, a commit trains the counter its lookup read,
    tokens are consumed by squash and by a committed update but not by a
    squashed one, and every reachable state keeps the invariants. */
module GSelectRun {
  import opened Bits
  import opened SatCounter
  import opened NorIndex
  import opened GSelect

  /** One call into the predictor. */
  datatype Op =
    | UncondBranchOp(tid: nat)
    | LookupOp(tid: nat, branchAddr: uint64)
    | BtbUpdateOp(tid: nat)
    | SquashOp(tid: nat, bpHistory: Handle)
    | UpdateOp(tid: nat, branchAddr: uint64, taken: bool, bpHistory: Handle, squashed: bool)

  /** Addresses are never reused, and a token still live afterwards holds
      the snapshot it held before. */
  predicate HeapStable(s: State, s': State) {
    && s.nextAddr <= s'.nextAddr
    && forall a :: a in s'.heap && a < s.nextAddr ==> a in s.heap && s'.heap[a] == s.heap[a]
  }

  /** The state after one call (the handles it returns are dropped here;
      the caller of `Run` names tokens by their addresses). */
  function Step(c: Config, s: State, op: Op): (r: Outcome<State>)
    requires ValidConfig(c) && ValidThread(s, op.tid)
    ensures r.Ok? && Inv(c, s) ==> Inv(c, r.value) && HeapStable(s, r.value)
  {
    match op
    case UncondBranchOp(tid) => Ok(UncondBranch(c, s, tid).state)
    case LookupOp(tid, branchAddr) =>
      (match Lookup(c, s, tid, branchAddr)
       case Ok(p) => Ok(p.state)
       case Failed(f) => Failed(f))
    case BtbUpdateOp(tid) => Ok(BtbUpdate(c, s, tid))
    case SquashOp(tid, h) => Squash(c, s, tid, h)
    case UpdateOp(tid, branchAddr, taken, h, squashed) => Update(c, s, tid, branchAddr, taken, h, squashed)
  }

  predicate ValidThreads(c: Config, ops: seq<Op>) {
    forall i :: 0 <= i < |ops| ==> ops[i].tid < c.globalHistoryBits
  }

  /** The calls in order; the first fault stops the run. */
  function Run(c: Config, s: State, ops: seq<Op>): (r: Outcome<State>)
    requires ValidConfig(c) && Inv(c, s) && ValidThreads(c, ops)
    ensures r.Ok? ==> Inv(c, r.value) && HeapStable(s, r.value)
    decreases |ops|
  {
    if |ops| == 0 then Ok(s)
    else
      match Step(c, s, ops[0])
      case Failed(f) => Failed(f)
      case Ok(s1) => Run(c, s1, ops[1..])
  }

  /** In every state reachable from the constructor each history register
      is at most `PredictorSize - 1` (the mask). */
  lemma ReachableRegistersBounded(c: Config, ops: seq<Op>)
    requires ValidConfig(c) && ValidThreads(c, ops)
    ensures Run(c, Init(c), ops).Ok? ==>
              var s := Run(c, Init(c), ops).value;
              && |s.globalHistoryReg| == c.globalHistoryBits
              && forall t :: 0 <= t < |s.globalHistoryReg| ==> s.globalHistoryReg[t] <= GlobalHistoryMask(c)
  {
    if Run(c, Init(c), ops).Ok? {
      var s := Run(c, Init(c), ops).value;
      forall t | 0 <= t < |s.globalHistoryReg|
        ensures s.globalHistoryReg[t] <= GlobalHistoryMask(c)
      {
        WithinBound(s.globalHistoryReg[t], GlobalHistoryMask(c));
      }
    }
  }

  /** `squash` with a token puts the register back to the token's snapshot,
      whatever calls ran since the token was issued, as long as none of
      them consumed it. */
  lemma SquashAfterRun(c: Config, s: State, ops: seq<Op>, tid: nat, h: Handle)
    requires ValidConfig(c) && Inv(c, s) && ValidThreads(c, ops) && ValidThread(s, tid)
    requires h.Ptr? && h.addr in s.heap
    requires Run(c, s, ops).Ok? && h.addr in Run(c, s, ops).value.heap
    ensures Squash(c, Run(c, s, ops).value, tid, h).Ok?
    ensures Squash(c, Run(c, s, ops).value, tid, h).value.globalHistoryReg[tid] == s.heap[h.addr].globalHistoryReg
  {
  }

  /** A lookup followed by any calls and then the squash of the lookup's
      token leaves the register exactly as the lookup found it. */
  lemma LookupThenSquashRestores(c: Config, s: State, tid: nat, branchAddr: uint64, ops: seq<Op>)
    requires ValidConfig(c) && Inv(c, s) && ValidThreads(c, ops) && ValidThread(s, tid)
    requires Lookup(c, s, tid, branchAddr).Ok?
    requires var p := Lookup(c, s, tid, branchAddr).value;
             Run(c, p.state, ops).Ok? && p.bpHistory.addr in Run(c, p.state, ops).value.heap
    ensures var p := Lookup(c, s, tid, branchAddr).value;
            var q := Squash(c, Run(c, p.state, ops).value, tid, p.bpHistory);
            q.Ok? && q.value.globalHistoryReg[tid] == s.globalHistoryReg[tid]
  {
    var p := Lookup(c, s, tid, branchAddr).value;
    SquashAfterRun(c, p.state, ops, tid, p.bpHistory);
  }

  /** Lookup then squash of its token is the identity on registers,
      counters and live tokens; only the address counter has moved on. */
  lemma LookupSquashRoundTrip(c: Config, s: State, tid: nat, branchAddr: uint64)
    requires ValidConfig(c) && Inv(c, s) && ValidThread(s, tid)
    requires Lookup(c, s, tid, branchAddr).Ok?
    ensures var p := Lookup(c, s, tid, branchAddr).value;
            Squash(c, p.state, tid, p.bpHistory) == Ok(s.(nextAddr := p.state.nextAddr))
  {
    var p := Lookup(c, s, tid, branchAddr).value;
    var q := Squash(c, p.state, tid, p.bpHistory).value;
    assert q.globalHistoryReg == s.globalHistoryReg;
    assert q.heap == s.heap;
  }

  /** The same round trip for `uncondBranch`. */
  lemma UncondBranchSquashRoundTrip(c: Config, s: State, tid: nat)
    requires ValidConfig(c) && Inv(c, s) && ValidThread(s, tid)
    ensures var u := UncondBranch(c, s, tid);
            Squash(c, u.state, tid, u.bpHistory) == Ok(s.(nextAddr := u.state.nextAddr))
  {
    var u := UncondBranch(c, s, tid);
    var q := Squash(c, u.state, tid, u.bpHistory).value;
    assert q.globalHistoryReg == s.globalHistoryReg;
    assert q.heap == s.heap;
  }

  /** The committed update of a lookup's token trains exactly the counter
      the lookup read, even if the register moved on in between, and
      leaves every other counter and every register alone. */
  lemma CommitTrainsLookedUpCounter(c: Config, s: State, tid: nat, branchAddr: uint64, ops: seq<Op>,
                                    tid': nat, taken: bool)
    requires ValidConfig(c) && Inv(c, s) && ValidThreads(c, ops) && ValidThread(s, tid) && ValidThread(s, tid')
    requires Lookup(c, s, tid, branchAddr).Ok?
    requires var p := Lookup(c, s, tid, branchAddr).value;
             Run(c, p.state, ops).Ok? && p.bpHistory.addr in Run(c, p.state, ops).value.heap
    ensures var p := Lookup(c, s, tid, branchAddr).value;
            var s2 := Run(c, p.state, ops).value;
            var idx := PhtIndex(c, branchAddr, s.globalHistoryReg[tid]);
            var u := Update(c, s2, tid', branchAddr, taken, p.bpHistory, false);
            && u.Ok?
            && idx < |s2.lclCounters|
            && u.value.lclCounters == s2.lclCounters[idx := Train(c.phtCtrBits, s2.lclCounters[idx], taken)]
            && u.value.globalHistoryReg == s2.globalHistoryReg
  {
    var p := Lookup(c, s, tid, branchAddr).value;
    var s2 := Run(c, p.state, ops).value;
    var idx := PhtIndex(c, branchAddr, s.globalHistoryReg[tid]);
    assert s2.heap[p.bpHistory.addr] == BPHistory(s.globalHistoryReg[tid]);
    var u := Update(c, s2, tid', branchAddr, taken, p.bpHistory, false);
    assert u.Ok?;
    assert u.value.lclCounters == s2.lclCounters[idx := Train(c.phtCtrBits, s2.lclCounters[idx], taken)];
  }

  /** A committed update deletes its token: squashing or updating with it
      again reads freed memory. */
  lemma CommitConsumesToken(c: Config, s: State, tid: nat, branchAddr: uint64, taken: bool, h: Handle,
                            tid': nat, branchAddr': uint64, taken': bool, squashed': bool)
    requires ValidConfig(c) && ValidThread(s, tid) && ValidThread(s, tid')
    requires Update(c, s, tid, branchAddr, taken, h, false).Ok?
    ensures var s' := Update(c, s, tid, branchAddr, taken, h, false).value;
            && Squash(c, s', tid', h) == Failed(InvalidHandle)
            && Update(c, s', tid', branchAddr', taken', h, squashed') == Failed(InvalidHandle)
  {
  }

  /** A squash deletes its token likewise. */
  lemma SquashConsumesToken(c: Config, s: State, tid: nat, h: Handle, tid': nat)
    requires ValidConfig(c) && ValidThread(s, tid) && ValidThread(s, tid')
    requires Squash(c, s, tid, h).Ok?
    ensures Squash(c, Squash(c, s, tid, h).value, tid', h) == Failed(InvalidHandle)
  {
  }

  /** A squashed update returns before the `delete`: its token stays live,
      and a later squash with it still restores the snapshot. */
  lemma SquashedUpdateKeepsToken(c: Config, s: State, tid: nat, branchAddr: uint64, taken: bool, h: Handle)
    requires ValidConfig(c) && ValidThread(s, tid)
    requires Update(c, s, tid, branchAddr, taken, h, true).Ok?
    ensures var s' := Update(c, s, tid, branchAddr, taken, h, true).value;
            && h.Ptr? && h.addr in s'.heap
            && Squash(c, s', tid, h).Ok?
            && Squash(c, s', tid, h).value.globalHistoryReg[tid] == s.heap[h.addr].globalHistoryReg
  {
  }
}
