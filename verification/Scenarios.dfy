/** Runs of the machine, step by step, in which something a reader may expect fails: a sweep that cancels what
    is not behind, a report that contradicts the chain, and nonce gaps that no watcher is left to close. */
module Scenarios {
  import opened Lifecycle
  import opened Protocol
  import opened Invariants
  import opened Nonces

  function Last(run: seq<State>): State
    requires |run| > 0
  {
    run[|run| - 1]
  }

  lemma Step(c: Config, run: seq<State>, e: Event) returns (r: seq<State>)
    requires ValidConfig(c) && IsRun(c, run) && Enabled(c, Last(run), e)
    ensures IsRun(c, r) && run <= r && Last(r) == Apply(c, Last(run), e)
  {
    r := run + [Apply(c, Last(run), e)];
    forall i | 0 <= i < |r| - 1 ensures StepAt(c, r, i) {
      if i < |run| - 1 {
        assert StepAt(c, run, i);
      } else {
        assert Enabled(c, r[i], e) && r[i + 1] == Apply(c, r[i], e);
      }
    }
  }

  /** A single account whose nonces start at 0. */
  const ONE_ACCOUNT := Config([0], 0)

  const FRESH_0 := NewTx(0, 0, 0, 1)
  const FRESH_1 := NewTx(0, 1, 1, 2)

  /** Two transactions sent, nothing mined. */
  const TWO_SENT := State([FRESH_0, FRESH_1], [0, 1], [], [2], 2, Idle, [], [], [], 2, false)

  const ONE_SENT := State([FRESH_0], [0], [], [1], 1, Idle, [], [], [], 1, false)

  lemma SendOne() returns (run: seq<State>)
    ensures IsRun(ONE_ACCOUNT, run) && Last(run) == ONE_SENT
  {
    var c := ONE_ACCOUNT;
    run := [Init(c)];
    run := Step(c, run, BeginSweep(1));
    run := Step(c, run, EndReading);
    run := Step(c, run, Commit);
    run := Step(c, run, Send);
  }

  lemma SendTwo() returns (run: seq<State>)
    ensures IsRun(ONE_ACCOUNT, run) && Last(run) == TWO_SENT
  {
    var c := ONE_ACCOUNT;
    run := SendOne();
    run := Step(c, run, NewBlock);
    run := Step(c, run, BeginSweep(2));
    run := Step(c, run, ReadInclusion);
    run := Step(c, run, EndReading);
    run := Step(c, run, ReadStatus);
    run := Step(c, run, Commit);
    run := Step(c, run, Send);
    assert Last(run).txs == [FRESH_0, FRESH_1];
    assert Last(run).inFlight == [0, 1];
  }

  // --- the sweep between two writes ---

  const LANDED_0 := Tx(0, 0, 0, 1, Included, 2, 3, Canceled, Exited(Landed))
  const SPEND_0 := Spend(Inner, 0, 0, 0)
  const SPEND_1 := Spend(Inner, 1, 0, 1)

  /** Watcher 0 has seen its submission in block 2 and its inclusion in block 3. */
  lemma LandFirst(run0: seq<State>, s: State) returns (run: seq<State>)
    requires IsRun(ONE_ACCOUNT, run0) && Last(run0) == s && !s.crashed
    requires |s.txs| == 2 && s.txs[0] == FRESH_0
    requires |s.outer| > 0 && s.outer[0] == OuterReceipt(true, 2)
    requires |s.chain| > 0 && s.chain[0] == Mined(SPEND_0, 3)
    ensures IsRun(ONE_ACCOUNT, run) && Last(run) == s.(txs := s.txs[0 := LANDED_0])
  {
    var c := ONE_ACCOUNT;
    run := Step(c, run0, Watch(0, Returns(Receipt(true, 2)), 0));
    run := Step(c, run, Watch(0, Select, 0));
    run := Step(c, run, Watch(0, Write, 0));
    run := Step(c, run, Watch(0, Returns(Receipt(true, 3)), 0));
    run := Step(c, run, Watch(0, Select, 0));
    run := Step(c, run, Watch(0, Write, 0));
    assert Last(run).txs == s.txs[0 := LANDED_0];
  }

  /** The next sweep reads inclusion block 3 and meets transaction 1 as Sequenced with an older
      submission block on record. */
  lemma SweepCancelsSecond(run0: seq<State>, s: State, t: Tx) returns (run: seq<State>)
    requires IsRun(ONE_ACCOUNT, run0) && Last(run0) == s && !s.crashed
    requires s.txs == [LANDED_0, t] && s.inFlight == [0, 1] && s.done == [] && s.phase == Idle && s.head >= 3
    requires t.status == Sequenced && t.submissionBlock < 3 && t.inclusionBlock == 0 && t.ctx == Live
    ensures IsRun(ONE_ACCOUNT, run)
    ensures Last(run) == s.(txs := [LANDED_0, t.(ctx := Canceled)],
                            phase := Sorting(Work(3, 2, 3, [], [0, 1], map[1 := t.submissionBlock], {})))
  {
    var c := ONE_ACCOUNT;
    run := Step(c, run0, BeginSweep(3));
    run := Step(c, run, ReadInclusion);
    run := Step(c, run, ReadInclusion);
    assert Last(run).phase == Reading(3, 2, 3);
    run := Step(c, run, EndReading);
    run := Step(c, run, ReadStatus);
    run := Step(c, run, ReadStatus);
    assert [] + [0] == [0];
    assert Last(run) == s.(phase := Comparing(Work(3, 1, 3, [], [0], map[], {})));
    run := Step(c, run, CompareBlock);
    assert Last(run).txs == [LANDED_0, t.(ctx := Canceled)];
    assert [0] + [1] == [0, 1];
  }

  const LATE := TWO_SENT.(
    outer := [OuterReceipt(true, 2), OuterReceipt(true, 4)], chain := [Mined(SPEND_0, 3)], head := 4)

  lemma MineLate() returns (run: seq<State>)
    ensures IsRun(ONE_ACCOUNT, run) && Last(run) == LATE
  {
    var c := ONE_ACCOUNT;
    run := SendTwo();
    run := Step(c, run, MineOuter(true));
    run := Step(c, run, NewBlock);
    run := Step(c, run, MineInner(0));
    run := Step(c, run, NewBlock);
    run := Step(c, run, MineOuter(true));
    assert Last(run).outer == LATE.outer && Last(run).chain == LATE.chain;
  }

  /** A run in which a sweep cancels transaction 1, sequenced in block 4, although the highest inclusion
      anywhere is in block 3: the sweep reads between the watcher's two writes. */
  lemma CancelledWithoutWitness() returns (run: seq<State>)
    ensures IsRun(ONE_ACCOUNT, run)
    ensures var s := Last(run);
      && HasWork(s) && 1 in s.phase.w.cancelled
      && |s.txs| == 2 && s.txs[1].pc == WriteSubmission(4)
      && (forall u | 0 <= u < |s.txs| :: s.txs[u].inclusionBlock <= 3)
  {
    var c := ONE_ACCOUNT;
    run := MineLate();
    run := LandFirst(run, LATE);
    run := Step(c, run, Watch(1, Returns(Receipt(true, 4)), 0));
    run := Step(c, run, Watch(1, Select, 0));
    var halfway := FRESH_1.(status := Sequenced, pc := WriteSubmission(4));
    assert Last(run).txs == [LANDED_0, halfway];
    run := SweepCancelsSecond(run, LATE.(txs := [LANDED_0, halfway]), halfway);
  }

  /** The submission block the chain knows, whether or not the watcher has written it yet. */
  function TrueSubmission(t: Tx): nat {
    if t.pc.WriteSubmission? then t.pc.block else t.submissionBlock
  }

  /** The decision taken at the comparison is the one the true submission block calls for, except
      exactly when the watcher has yet to write that block and no inclusion exceeds it. */
  lemma DecisionIsTrueIff(c: Config, run: seq<State>, i: nat)
    requires ValidConfig(c) && IsRun(c, run) && i < |run| && run[i].phase.Comparing?
    ensures var s := run[i]; s.phase.w.i < |s.inFlight| && s.inFlight[s.phase.w.i] < |s.txs|
    ensures var s := run[i]; var t, high := s.txs[s.inFlight[s.phase.w.i]], s.phase.w.high;
      (high > t.submissionBlock <==> high > TrueSubmission(t))
        <==> !(t.pc.WriteSubmission? && 0 < high <= t.pc.block)
  {
    RunInv(c, run, i);
    assert ComparingOk(run[i], run[i].phase.w);
    assert WatcherOk(run[i].txs[run[i].inFlight[run[i].phase.w.i]]);
  }

  // --- reported as not included, yet included ---

  const BOTH_MINED := TWO_SENT.(
    outer := [OuterReceipt(true, 2), OuterReceipt(true, 2)], chain := [Mined(SPEND_0, 3), Mined(SPEND_1, 3)], head := 3)

  const FIRST_MINED := BOTH_MINED.(chain := [Mined(SPEND_0, 3)])

  lemma MineFirst() returns (run: seq<State>)
    ensures IsRun(ONE_ACCOUNT, run) && Last(run) == FIRST_MINED
  {
    var c := ONE_ACCOUNT;
    run := SendTwo();
    run := Step(c, run, MineOuter(true));
    run := Step(c, run, MineOuter(true));
    run := Step(c, run, NewBlock);
    run := Step(c, run, MineInner(0));
    assert Last(run).outer == BOTH_MINED.outer && Last(run).chain == [Mined(SPEND_0, 3)];
  }

  lemma CountOne()
    ensures Count([Mined(SPEND_0, 3)], 0) == 1
  {
    assert [Mined(SPEND_0, 3)][..0] == [];
  }

  lemma MineBoth() returns (run: seq<State>)
    ensures IsRun(ONE_ACCOUNT, run) && Last(run) == BOTH_MINED
  {
    var c := ONE_ACCOUNT;
    run := MineFirst();
    CountOne();
    run := Step(c, run, MineInner(1));
    assert Last(run).chain == BOTH_MINED.chain;
  }

  const RECEIVED := FRESH_1.(status := Sequenced, submissionBlock := 2, pc := SecondSelect(Receipt(true, 3)))

  lemma ReceiveSecond() returns (run: seq<State>)
    ensures IsRun(ONE_ACCOUNT, run) && Last(run) == BOTH_MINED.(txs := [LANDED_0, RECEIVED])
  {
    var c := ONE_ACCOUNT;
    run := MineBoth();
    run := LandFirst(run, BOTH_MINED);
    run := Step(c, run, Watch(1, Returns(Receipt(true, 2)), 0));
    run := Step(c, run, Watch(1, Select, 0));
    run := Step(c, run, Watch(1, Write, 0));
    run := Step(c, run, Watch(1, Returns(Receipt(true, 3)), 1));
    assert Last(run).txs == [LANDED_0, RECEIVED];
  }

  /** A run that ends with transaction 1 mined and reported NotIncluded: the sweep cancels its watcher
      between the receipt and the second select, and the forfeit then finds the nonce used. */
  lemma IncludedButReportedNot() returns (run: seq<State>)
    ensures IsRun(ONE_ACCOUNT, run)
    ensures var s := Last(run);
      |s.txs| == 2 && s.txs[1].status == NotIncluded && Has(s, Inner, 1)
  {
    var c := ONE_ACCOUNT;
    run := ReceiveSecond();
    run := SweepCancelsSecond(run, BOTH_MINED.(txs := [LANDED_0, RECEIVED]), RECEIVED);
    run := Step(c, run, Watch(1, Select, 0));
    run := Step(c, run, Watch(1, Settle(false), 0));
    run := Step(c, run, Watch(1, Close, 0));
    assert Last(run).chain[1].spend == SPEND_1;
  }

  // --- every watcher has exited, and a gap remains ---

  /** All watchers are done, the last one by this exit, and the account's chain nonce is behind. */
  predicate GapAfter(s: State, how: Exit) {
    && s.txs != [] && s.txs[|s.txs| - 1].pc == Exited(how)
    && (forall k | 0 <= k < |s.txs| :: s.txs[k].pc.Exited?)
    && s.nonces != [] && ChainNonce(ONE_ACCOUNT, s.chain, 0) < s.nonces[0]
  }

  /** Each of the exits that can leave a gap does leave one in some run. */
  lemma EachExitLeavesGap(how: Exit) returns (run: seq<State>)
    requires how in GAP_EXITS
    ensures IsRun(ONE_ACCOUNT, run) && GapAfter(Last(run), how)
  {
    match how {
      case ExpiredUnsequenced => run := ExpiresUnsequenced();
      case Panicked => run := Panics();
      case Lost => run := LosesSubscription();
      case Forfeited(Rejected, _) => run := GivesUpOnRejected();
      case Forfeited(Superseded, _) => run := GivesUpOnSuperseded();
      case Forfeited(TimedOut, _) => run := GivesUpOnTimedOut();
    }
  }

  /** The forfeit cannot be sent, and the watcher returns. */
  lemma GiveUp(run0: seq<State>, k: nat) returns (run: seq<State>)
    requires IsRun(ONE_ACCOUNT, run0) && !Last(run0).crashed
    requires k < |Last(run0).txs| && Last(run0).txs[k].pc.Forfeiting?
    ensures IsRun(ONE_ACCOUNT, run)
    ensures var s, t := Last(run0), Last(run);
      && t == s.(txs := t.txs) && |t.txs| == |s.txs|
      && t.txs[k].pc == Exited(Forfeited(s.txs[k].pc.reason, false))
      && forall l | 0 <= l < |s.txs| && l != k :: t.txs[l] == s.txs[l]
  {
    run := Step(ONE_ACCOUNT, run0, Watch(k, Settle(false), 0));
    run := Step(ONE_ACCOUNT, run, Watch(k, Close, 0));
  }

  lemma ExpiresUnsequenced() returns (run: seq<State>)
    ensures IsRun(ONE_ACCOUNT, run) && GapAfter(Last(run), ExpiredUnsequenced)
  {
    run := SendOne();
    run := Step(ONE_ACCOUNT, run, Expire(0));
    run := Step(ONE_ACCOUNT, run, Watch(0, Returns(Failed), 0));
    run := Step(ONE_ACCOUNT, run, Watch(0, Select, 0));
  }

  lemma Panics() returns (run: seq<State>)
    ensures IsRun(ONE_ACCOUNT, run) && GapAfter(Last(run), Panicked)
  {
    run := SendOne();
    run := Step(ONE_ACCOUNT, run, Watch(0, Returns(Failed), 0));
    run := Step(ONE_ACCOUNT, run, Watch(0, Select, 0));
  }

  const SUBMITTED_0 := FRESH_0.(status := Sequenced, submissionBlock := 2, pc := SecondWait)

  lemma SubmitOne() returns (run: seq<State>)
    ensures IsRun(ONE_ACCOUNT, run)
    ensures Last(run) == ONE_SENT.(txs := [SUBMITTED_0], outer := [OuterReceipt(true, 2)], head := 2)
  {
    var c := ONE_ACCOUNT;
    run := SendOne();
    run := Step(c, run, NewBlock);
    run := Step(c, run, MineOuter(true));
    run := Step(c, run, Watch(0, Returns(Receipt(true, 2)), 0));
    run := Step(c, run, Watch(0, Select, 0));
    run := Step(c, run, Watch(0, Write, 0));
    assert Last(run).txs == [SUBMITTED_0] && Last(run).outer == [OuterReceipt(true, 2)];
  }

  lemma LosesSubscription() returns (run: seq<State>)
    ensures IsRun(ONE_ACCOUNT, run) && GapAfter(Last(run), Lost)
  {
    run := SubmitOne();
    run := Step(ONE_ACCOUNT, run, Watch(0, Returns(Failed), 0));
    run := Step(ONE_ACCOUNT, run, Watch(0, Select, 0));
  }

  lemma GivesUpOnTimedOut() returns (run: seq<State>)
    ensures IsRun(ONE_ACCOUNT, run) && GapAfter(Last(run), Forfeited(TimedOut, false))
  {
    run := SubmitOne();
    run := Step(ONE_ACCOUNT, run, Expire(0));
    run := Step(ONE_ACCOUNT, run, Watch(0, Returns(Failed), 0));
    run := Step(ONE_ACCOUNT, run, Watch(0, Select, 0));
    run := GiveUp(run, 0);
  }

  lemma GivesUpOnRejected() returns (run: seq<State>)
    ensures IsRun(ONE_ACCOUNT, run) && GapAfter(Last(run), Forfeited(Rejected, false))
  {
    run := SendOne();
    run := Step(ONE_ACCOUNT, run, MineOuter(false));
    run := Step(ONE_ACCOUNT, run, Watch(0, Returns(Receipt(false, 1)), 0));
    run := Step(ONE_ACCOUNT, run, Watch(0, Select, 0));
    run := GiveUp(run, 0);
  }

  const SUBMITTED_1 := FRESH_1.(status := Sequenced, submissionBlock := 2, pc := SecondWait)

  lemma SubmitSecond() returns (run: seq<State>)
    ensures IsRun(ONE_ACCOUNT, run) && Last(run) == FIRST_MINED.(txs := [LANDED_0, SUBMITTED_1])
  {
    var c := ONE_ACCOUNT;
    run := MineFirst();
    run := LandFirst(run, FIRST_MINED);
    run := Step(c, run, Watch(1, Returns(Receipt(true, 2)), 0));
    run := Step(c, run, Watch(1, Select, 0));
    run := Step(c, run, Watch(1, Write, 0));
    assert Last(run).txs == [LANDED_0, SUBMITTED_1];
  }

  lemma GivesUpOnSuperseded() returns (run: seq<State>)
    ensures IsRun(ONE_ACCOUNT, run) && GapAfter(Last(run), Forfeited(Superseded, false))
  {
    run := SubmitSecond();
    run := SweepCancelsSecond(run, FIRST_MINED.(txs := [LANDED_0, SUBMITTED_1]), SUBMITTED_1);
    run := Step(ONE_ACCOUNT, run, Watch(1, Returns(Failed), 0));
    run := Step(ONE_ACCOUNT, run, Watch(1, Select, 0));
    run := GiveUp(run, 1);
    CountOne();
  }
}
