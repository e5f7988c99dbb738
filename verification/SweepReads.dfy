/** What the first loop of a sweep reads, over a whole run: the highest inclusion is the highest of what was
    read, and an inclusion is read at most once before its transaction leaves the list. */
module SweepReads {
  import opened Lifecycle
  import opened Protocol
  import opened Invariants
  import opened Runs
  import opened Scenarios

  /** Step m of the run is a read of transaction k's inclusion block. */
  predicate Reads(run: seq<State>, m: nat, k: nat) {
    && m + 1 < |run| && k < |run[m].txs|
    && run[m].phase.Reading? && run[m].phase.at < |run[m].inFlight| && run[m].inFlight[run[m].phase.at] == k
    && run[m + 1].phase.Reading? && run[m + 1].phase.at == run[m].phase.at + 1
  }

  /** One sweep is going on from state i to state j. */
  predicate InSweep(run: seq<State>, i: nat, j: nat) {
    i <= j < |run| && forall m | i <= m <= j :: !run[m].phase.Idle?
  }

  predicate Starts(s: State) { s.phase.Reading? && s.phase.at == 0 && s.phase.seen == 0 }

  /** Step m reads some transaction, and reads at least v. */
  ghost predicate ReadsAtLeast(run: seq<State>, m: nat, v: nat) {
    exists k: nat :: Reads(run, m, k) && run[m].txs[k].inclusionBlock >= v
  }

  lemma HighStep(c: Config, run: seq<State>, m: nat, v: nat)
    requires ValidConfig(c) && IsRun(c, run) && m + 1 < |run| && !run[m].phase.Idle? && !run[m + 1].phase.Idle?
    ensures HighSoFar(run[m + 1]) >= v <==> HighSoFar(run[m]) >= v || ReadsAtLeast(run, m, v)
  {
    var e := StepOf(c, run, m);
    var s := run[m];
    if e.ReadInclusion? {
      assert Reads(run, m, s.inFlight[s.phase.at]);
    }
  }

  /** The highest inclusion of a sweep reaches v exactly when some read of its first loop did. */
  lemma {:induction false} HighIsHighestRead(c: Config, run: seq<State>, i: nat, j: nat, v: nat)
    requires ValidConfig(c) && IsRun(c, run) && InSweep(run, i, j) && Starts(run[i]) && v > 0
    ensures HighSoFar(run[j]) >= v <==> exists m :: i <= m < j && ReadsAtLeast(run, m, v)
    decreases j
  {
    if i == j {
    } else {
      HighIsHighestRead(c, run, i, j - 1, v);
      HighStep(c, run, j - 1, v);
    }
  }

  lemma {:induction false} HighKeeps(c: Config, run: seq<State>, i: nat, j: nat)
    requires ValidConfig(c) && IsRun(c, run) && InSweep(run, i, j)
    ensures HighSoFar(run[i]) <= HighSoFar(run[j])
    decreases j
  {
    if i == j {
    } else {
      HighKeeps(c, run, i, j - 1);
      HighStep(c, run, j - 1, HighSoFar(run[i]));
    }
  }

  /** What a committed sweep read as Sequenced and left in flight is not behind any inclusion block that its
      first loop read. */
  lemma HeldAreNotBehindReads(c: Config, run: seq<State>, m: nat, j: nat, u: nat, k: nat)
    requires ValidConfig(c) && IsRun(c, run) && InSweep(run, m, j) && m < j && Reads(run, m, u)
    requires run[j].phase.Swept? && k in run[j].phase.w.held
    ensures k < |run[j].txs| && k in run[j].inFlight
    ensures run[j].txs[k].submissionBlock >= run[j].phase.w.high >= run[m].txs[u].inclusionBlock
  {
    HeldAreNotBehind(c, run, j, k);
    HighStep(c, run, m, run[m].txs[u].inclusionBlock);
    HighKeeps(c, run, m + 1, j);
  }

  // --- an inclusion that is collected but never counted ---

  predicate BlocksPositive(s: State) {
    && s.head > 0
    && (forall i | 0 <= i < |s.chain| :: s.chain[i].block > 0)
    && (forall k | 0 <= k < |s.txs| :: PositiveAt(s.txs[k]))
  }

  predicate PositiveAt(t: Tx) {
    && (t.pc.SecondSelect? && t.pc.got.Receipt? ==> t.pc.got.block > 0)
    && (t.pc.WriteInclusion? ==> t.pc.block > 0)
    && (t.pc == Exited(Landed) ==> t.inclusionBlock > 0)
  }

  lemma StepKeepsPositive(c: Config, s: State, e: Event)
    requires ValidConfig(c) && Enabled(c, s, e) && BlocksPositive(s)
    ensures BlocksPositive(Apply(c, s, e))
  {
    var s' := Apply(c, s, e);
    forall k | 0 <= k < |s'.txs| ensures PositiveAt(s'.txs[k]) {
      if k < |s.txs| {
        assert PositiveAt(s.txs[k]);
      }
    }
  }

  lemma {:induction false} RunPositive(c: Config, run: seq<State>, i: nat)
    requires ValidConfig(c) && IsRun(c, run) && i < |run|
    ensures BlocksPositive(run[i])
  {
    if i == 0 {
    } else {
      RunPositive(c, run, i - 1);
      var e := StepOf(c, run, i - 1);
      StepKeepsPositive(c, run[i - 1], e);
    }
  }

  lemma InclusionNext(c: Config, run: seq<State>, j: nat, k: nat)
    requires ValidConfig(c) && IsRun(c, run) && j + 1 < |run| && k < |run[j].txs| && run[j].txs[k].inclusionBlock != 0
    ensures k < |run[j + 1].txs| && run[j + 1].txs[k].inclusionBlock == run[j].txs[k].inclusionBlock
  {
    RunInv(c, run, j);
    assert WatcherOk(run[j].txs[k]);
    var e := StepOf(c, run, j);
  }

  /** An inclusion block once written stays. */
  lemma {:induction false} InclusionStays(c: Config, run: seq<State>, i: nat, j: nat, k: nat)
    requires ValidConfig(c) && IsRun(c, run) && i <= j < |run| && k < |run[i].txs| && run[i].txs[k].inclusionBlock != 0
    ensures k < |run[j].txs| && run[j].txs[k].inclusionBlock == run[i].txs[k].inclusionBlock
    decreases j
  {
    if i == j {
    } else {
      InclusionStays(c, run, i, j - 1, k);
      InclusionNext(c, run, j - 1, k);
    }
  }

  /** Within one sweep the first loop only moves on. */
  lemma {:induction false} ReadsMoveOn(c: Config, run: seq<State>, m: nat, n: nat, k: nat)
    requires ValidConfig(c) && IsRun(c, run) && m < n && InSweep(run, m, n) && Reads(run, m, k)
    ensures run[n].phase.Reading? ==> run[n].phase.at > run[m].phase.at && run[n].inFlight == run[m].inFlight
    decreases n
  {
    var e := StepOf(c, run, n - 1);
    if m < n - 1 {
      ReadsMoveOn(c, run, m, n - 1, k);
    }
  }

  /** No transaction is read twice by one sweep, nor ever again once a sweep has moved it. */
  lemma ReadOnce(c: Config, run: seq<State>, m: nat, j: nat, n: nat, k: nat)
    requires ValidConfig(c) && IsRun(c, run) && m < j && InSweep(run, m, j) && Reads(run, m, k)
    requires run[j].phase.Swept? && k in run[j].done && Reads(run, n, k)
    ensures n <= m
  {
    assert run[n].inFlight[run[n].phase.at] == k;
    ListsPartition(c, run, n, k);
    assert k !in run[n].done;
    if m < n < j {
      ReadsMoveOn(c, run, m, n, k);
    } else if j <= n {
      DoneOnlyGrows(c, run, j, n);
    }
  }

  /** The inclusion block of a transaction that a sweep has moved to the done list was counted by some sweep
      of the run exactly when its watcher had written it before that last sweep's first loop came by. */
  lemma CountedIff(c: Config, run: seq<State>, m: nat, j: nat, k: nat)
    requires ValidConfig(c) && IsRun(c, run) && m < j && InSweep(run, m, j) && Reads(run, m, k)
    requires run[j].phase.Swept? && k in run[j].done
    ensures (exists n :: 0 <= n < |run| && Reads(run, n, k) && run[n].txs[k].inclusionBlock != 0)
       <==> run[m].txs[k].pc == Exited(Landed)
  {
    RunPositive(c, run, m);
    RunInv(c, run, m);
    assert WatcherOk(run[m].txs[k]) && PositiveAt(run[m].txs[k]);
    if n: nat :| n < |run| && Reads(run, n, k) && run[n].txs[k].inclusionBlock != 0 {
      ReadOnce(c, run, m, j, n, k);
      InclusionStays(c, run, n, m, k);
    }
  }

  const BOTH_SUBMITTED := FIRST_MINED.(txs := [SUBMITTED_0, SUBMITTED_1])

  lemma SubmitBoth() returns (run: seq<State>)
    ensures IsRun(ONE_ACCOUNT, run) && Last(run) == BOTH_SUBMITTED
  {
    var c := ONE_ACCOUNT;
    run := MineFirst();
    run := Step(c, run, Watch(0, Returns(Receipt(true, 2)), 0));
    run := Step(c, run, Watch(0, Select, 0));
    run := Step(c, run, Watch(0, Write, 0));
    assert Last(run).txs == [SUBMITTED_0, FRESH_1];
    run := Step(c, run, Watch(1, Returns(Receipt(true, 2)), 0));
    run := Step(c, run, Watch(1, Select, 0));
    run := Step(c, run, Watch(1, Write, 0));
    assert Last(run).txs == [SUBMITTED_0, SUBMITTED_1];
  }

  /** Both inclusion blocks are read as 0. */
  lemma ReadBoth() returns (run: seq<State>)
    ensures IsRun(ONE_ACCOUNT, run) && Last(run) == BOTH_SUBMITTED.(phase := Reading(3, 2, 0))
  {
    var c := ONE_ACCOUNT;
    run := SubmitBoth();
    run := Step(c, run, BeginSweep(3));
    run := Step(c, run, ReadInclusion);
    run := Step(c, run, ReadInclusion);
  }

  /** Then watcher 0 lands. */
  lemma LandAfterRead() returns (run: seq<State>)
    ensures IsRun(ONE_ACCOUNT, run)
    ensures Last(run) == BOTH_SUBMITTED.(txs := [LANDED_0, SUBMITTED_1], phase := Reading(3, 2, 0))
  {
    var c := ONE_ACCOUNT;
    run := ReadBoth();
    run := Step(c, run, Watch(0, Returns(Receipt(true, 3)), 0));
    run := Step(c, run, Watch(0, Select, 0));
    run := Step(c, run, Watch(0, Write, 0));
    assert Last(run).txs == [LANDED_0, SUBMITTED_1];
  }

  /** A run in which that happens: transaction 0, included in block 3, is in the done list, the sweep's
      highest inclusion is 0, and transaction 1, submitted in block 2, stays in flight. */
  lemma CollectedUncounted() returns (run: seq<State>)
    ensures IsRun(ONE_ACCOUNT, run)
    ensures var s := Last(run);
      && s.phase.Swept? && s.phase.w.high == 0 && s.done == [0] && s.inFlight == [1]
      && s.txs == [LANDED_0, SUBMITTED_1] && LANDED_0.inclusionBlock > SUBMITTED_1.submissionBlock
  {
    var c := ONE_ACCOUNT;
    run := LandAfterRead();
    run := Step(c, run, EndReading);
    run := Step(c, run, ReadStatus);
    assert [] + [0] == [0];
    run := Step(c, run, ReadStatus);
    run := Step(c, run, CompareBlock);
    run := Step(c, run, Commit);
  }
}
