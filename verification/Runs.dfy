/** What holds along whole runs of the tester: the lists, the statuses, and who cancels whom. */
module Runs {
  import opened Lifecycle
  import opened Protocol
  import opened Invariants

  /** The driver holds no lock: it is between two sweeps. */
  predicate LockFree(s: State) { s.phase.Idle? || s.phase.Swept? }

  // --- round robin ---

  /** Transaction k of any run uses account k mod n, that account's (k div n)-th nonce and the submit
      account's k-th nonce, however the sweeps have moved transactions between the lists. */
  lemma RoundRobin(c: Config, run: seq<State>, i: nat, k: nat)
    requires ValidConfig(c) && IsRun(c, run) && i < |run| && k < |run[i].txs|
    ensures var t, n := run[i].txs[k], |c.init|;
      t.sender == k % n && t.nonce == c.init[k % n] + k / n && t.outerNonce == c.submit0 + k
  {
    RunInv(c, run, i);
  }

  lemma DivModInjective(j: nat, k: nat, n: nat)
    requires n > 0 && j % n == k % n && j / n == k / n
    ensures j == k
  {
    assert j == n * (j / n) + j % n && k == n * (k / n) + k % n;
  }

  /** So account and inner nonce name one transaction of the run, and so does the outer nonce. */
  lemma NoncesAreUnique(c: Config, run: seq<State>, i: nat, j: nat, k: nat)
    requires ValidConfig(c) && IsRun(c, run) && i < |run| && j < |run[i].txs| && k < |run[i].txs|
    requires || (run[i].txs[j].sender == run[i].txs[k].sender && run[i].txs[j].nonce == run[i].txs[k].nonce)
             || run[i].txs[j].outerNonce == run[i].txs[k].outerNonce
    ensures j == k
  {
    RoundRobin(c, run, i, j);
    RoundRobin(c, run, i, k);
    if run[i].txs[j].outerNonce != run[i].txs[k].outerNonce {
      DivModInjective(j, k, |c.init|);
    }
  }

  // --- the two lists ---

  /** Whenever the lock is free each transaction sent is in exactly one list, exactly once, and the
      in-flight list is in sending order. */
  lemma ListsPartition(c: Config, run: seq<State>, i: nat, k: nat)
    requires ValidConfig(c) && IsRun(c, run) && i < |run|
    ensures |run[i].inFlight| + |run[i].done| == |run[i].txs|
    ensures k < |run[i].txs| ==> (k in run[i].inFlight <==> k !in run[i].done)
    ensures k < |run[i].txs| ==> multiset(run[i].inFlight + run[i].done)[k] == 1
    ensures Increasing(run[i].inFlight)
  {
    RunInv(c, run, i);
    var s := run[i];
    assert multiset(s.inFlight + s.done) == multiset(s.inFlight) + multiset(s.done);
    assert multiset(s.inFlight)[k] + multiset(s.done)[k] == if k < |s.txs| then 1 else 0;
    assert k in s.inFlight <==> multiset(s.inFlight)[k] > 0;
    assert k in s.done <==> multiset(s.done)[k] > 0;
  }

  lemma StepGrowsDone(c: Config, s: State, e: Event)
    requires ValidConfig(c) && Enabled(c, s, e) && ListsOk(s)
    ensures s.done <= Apply(c, s, e).done
    ensures |s.txs| <= |Apply(c, s, e).txs|
  {
  }

  lemma DoneGrowsNext(c: Config, run: seq<State>, j: nat)
    requires ValidConfig(c) && IsRun(c, run) && j + 1 < |run|
    ensures run[j].done <= run[j + 1].done
    ensures |run[j].txs| <= |run[j + 1].txs|
  {
    RunInv(c, run, j);
    var e := StepOf(c, run, j);
    StepGrowsDone(c, run[j], e);
  }

  /** The done list only ever grows at its end. */
  lemma {:induction false} DoneOnlyGrows(c: Config, run: seq<State>, i: nat, j: nat)
    requires ValidConfig(c) && IsRun(c, run) && i <= j < |run|
    ensures run[i].done <= run[j].done
    ensures |run[i].txs| <= |run[j].txs|
    decreases j - i
  {
    if i == j {
    } else {
      DoneOnlyGrows(c, run, i, j - 1);
      DoneGrowsNext(c, run, j - 1);
    }
  }

  lemma StatusNext(c: Config, run: seq<State>, j: nat, k: nat)
    requires ValidConfig(c) && IsRun(c, run) && j + 1 < |run| && k < |run[j].txs|
    ensures k < |run[j + 1].txs| && StatusStep(run[j].txs[k].status, run[j + 1].txs[k].status)
  {
    RunInv(c, run, j);
    var e := StepOf(c, run, j);
    if e.Watch? {
      MoveAdvancesStatus(run[j].txs[e.id], e.m);
    }
  }

  /** A status goes from Signed to Sequenced to a terminal one, or from Signed to a terminal one. */
  lemma {:induction false} StatusOnlyAdvances(c: Config, run: seq<State>, i: nat, j: nat, k: nat)
    requires ValidConfig(c) && IsRun(c, run) && i <= j < |run| && k < |run[i].txs|
    ensures k < |run[j].txs| && StatusStep(run[i].txs[k].status, run[j].txs[k].status)
    decreases j - i
  {
    if i == j {
    } else {
      StatusOnlyAdvances(c, run, i, j - 1, k);
      StatusNext(c, run, j - 1, k);
    }
  }

  // --- cancellation ---

  /** Only a sweep cancels a running watcher, and only one that has passed its first select; so the
      first select never sees Canceled and NotSequenced is never reported. */
  lemma CancelOnlyAfterFirstSelect(c: Config, run: seq<State>, i: nat, k: nat)
    requires ValidConfig(c) && IsRun(c, run) && i < |run| && k < |run[i].txs|
    ensures run[i].txs[k].status != NotSequenced
    ensures run[i].txs[k].pc.FirstWait? || run[i].txs[k].pc.FirstSelect? ==> !run[i].txs[k].ctx.Canceled?
    ensures run[i].txs[k].ctx.Canceled? && !run[i].txs[k].pc.Exited? ==>
      PassedFirstSelect(run[i].txs[k].pc) && k in DoneSoFar(run[i])
  {
    RunInv(c, run, i);
    assert WatcherOk(run[i].txs[k]);
  }

  /** Cancelled before the second select. */
  predicate DueToForfeit(t: Tx) {
    t.ctx.Canceled? && (t.pc.WriteSubmission? || t.pc.SecondWait? || t.pc.SecondSelect?)
  }

  /** On the way to the forfeit, in it, or done with it. */
  predicate OnForfeitPath(t: Tx) {
    || DueToForfeit(t)
    || ((t.pc.Forfeiting? || t.pc.AwaitForfeit? || t.pc.Closing?) && t.pc.reason == Superseded)
    || (t.pc.Exited? && t.pc.how.Forfeited? && t.pc.how.reason == Superseded)
  }

  lemma StepKeepsForfeitPath(c: Config, s: State, e: Event, k: nat)
    requires ValidConfig(c) && Enabled(c, s, e) && k < |s.txs| && OnForfeitPath(s.txs[k])
    ensures var s' := Apply(c, s, e);
      && k < |s'.txs| && OnForfeitPath(s'.txs[k])
      && s'.txs[k].sender == s.txs[k].sender && s'.txs[k].nonce == s.txs[k].nonce
  {
  }

  /** A cancellation that takes effect before the second select leads to a forfeit attempt and to no
      other exit, and every forfeit on its way spends exactly that transaction's own nonce. */
  lemma {:induction false} CancelLeadsToForfeit(c: Config, run: seq<State>, i: nat, j: nat, k: nat)
    requires ValidConfig(c) && IsRun(c, run) && i <= j < |run| && k < |run[i].txs|
    requires DueToForfeit(run[i].txs[k])
    ensures k < |run[j].txs| && OnForfeitPath(run[j].txs[k])
    ensures run[j].txs[k].sender == run[i].txs[k].sender && run[j].txs[k].nonce == run[i].txs[k].nonce
    ensures forall a | 0 <= a < |run[j].pending| && run[j].pending[a].id == k ::
              run[j].pending[a] == Spend(Forfeit, k, run[i].txs[k].sender, run[i].txs[k].nonce)
    decreases j - i
  {
    if i == j {
    } else {
      CancelLeadsToForfeit(c, run, i, j - 1, k);
      var e := StepOf(c, run, j - 1);
      StepKeepsForfeitPath(c, run[j - 1], e, k);
    }
    PendingSpendsOwnNonce(c, run, j, k);
  }

  lemma PendingSpendsOwnNonce(c: Config, run: seq<State>, j: nat, k: nat)
    requires ValidConfig(c) && IsRun(c, run) && j < |run| && k < |run[j].txs|
    ensures forall a | 0 <= a < |run[j].pending| && run[j].pending[a].id == k ::
              run[j].pending[a] == Spend(Forfeit, k, run[j].txs[k].sender, run[j].txs[k].nonce)
  {
    RunInv(c, run, j);
    forall a | 0 <= a < |run[j].pending| && run[j].pending[a].id == k
      ensures run[j].pending[a] == Spend(Forfeit, k, run[j].txs[k].sender, run[j].txs[k].nonce)
    {
      assert SpendOk(run[j], run[j].pending[a]);
    }
  }

  // --- no leaks ---

  /** Whenever the lock is free a NotIncluded transaction is done. */
  lemma NotIncludedIsDone(c: Config, run: seq<State>, i: nat, k: nat)
    requires ValidConfig(c) && IsRun(c, run) && i < |run| && k < |run[i].txs|
    requires LockFree(run[i]) && run[i].txs[k].status == NotIncluded
    ensures k in run[i].done && k !in run[i].inFlight
  {
    RunInv(c, run, i);
    assert WatcherOk(run[i].txs[k]);
    ListsPartition(c, run, i, k);
  }

  /** The status a sweep reads is never NotSequenced or NotIncluded, so its default case keeps in
      flight only transactions whose submission is still unknown. */
  lemma DefaultCaseMeetsOnlySigned(c: Config, run: seq<State>, i: nat)
    requires ValidConfig(c) && IsRun(c, run) && i < |run|
    requires run[i].phase.Sorting? && run[i].phase.w.i < |run[i].inFlight|
    ensures var k := run[i].inFlight[run[i].phase.w.i];
      k < |run[i].txs| && run[i].txs[k].status in {Signed, Sequenced, Included, SystemFailure}
  {
    RunInv(c, run, i);
    var s := run[i];
    InFlightKnown(s, s.phase.w.i);
    UnsortedNotMoved(s, s.phase.w);
    assert WatcherOk(s.txs[s.inFlight[s.phase.w.i]]);
  }

  /** A sweep that started after the watcher had exited is going to move it, or has. */
  predicate Collecting(s: State, k: nat) {
    && k < |s.txs| && s.txs[k].pc.Exited?
    && (s.phase.Sorting? || s.phase.Comparing? ==> k !in s.phase.w.kept)
    && (s.phase.Comparing? ==> s.phase.w.i < |s.inFlight| && s.inFlight[s.phase.w.i] != k)
    && (s.phase.Swept? ==> k in s.done)
  }

  /** Reading the status of an exited transaction removes it from the list. */
  lemma ReadStatusCollects(c: Config, s: State, k: nat)
    requires ValidConfig(c) && Enabled(c, s, ReadStatus) && ListsOk(s) && WatchersOk(s) && CancelledAreDone(s)
    requires Collecting(s, k)
    ensures Collecting(Apply(c, s, ReadStatus), k)
  {
    assert WatcherOk(s.txs[k]);
    UnsortedNotMoved(s, s.phase.w);
  }

  lemma CommitCollects(c: Config, s: State, k: nat)
    requires ValidConfig(c) && Enabled(c, s, Commit) && ListsOk(s) && Collecting(s, k)
    ensures Collecting(Apply(c, s, Commit), k)
  {
    CommitLists(s);
    assert multiset(s.phase.w.kept)[k] + multiset(s.phase.w.moved)[k] == 1;
    assert multiset(s.phase.w.kept)[k] == 0;
  }

  lemma StepKeepsCollecting(c: Config, s: State, e: Event, k: nat)
    requires ValidConfig(c) && Enabled(c, s, e) && ListsOk(s) && WatchersOk(s) && CancelledAreDone(s)
    requires Collecting(s, k)
    ensures Collecting(Apply(c, s, e), k)
  {
    match e
    case ReadStatus => ReadStatusCollects(c, s, k);
    case Commit => CommitCollects(c, s, k);
    case CompareBlock =>
    case _ =>
  }

  lemma CollectingNext(c: Config, run: seq<State>, j: nat, k: nat)
    requires ValidConfig(c) && IsRun(c, run) && j + 1 < |run| && Collecting(run[j], k)
    ensures Collecting(run[j + 1], k)
  {
    RunInv(c, run, j);
    var e := StepOf(c, run, j);
    StepKeepsCollecting(c, run[j], e, k);
  }

  lemma {:induction false} CollectingStays(c: Config, run: seq<State>, i: nat, j: nat, k: nat)
    requires ValidConfig(c) && IsRun(c, run) && i <= j < |run| && Collecting(run[i], k)
    ensures Collecting(run[j], k)
    decreases j - i
  {
    if i == j {
    } else {
      CollectingStays(c, run, i, j - 1, k);
      CollectingNext(c, run, j - 1, k);
    }
  }

  /** Any watcher that exited before a sweep began is in the done list, and not in flight, once that
      sweep has committed; so at every later commit as well. */
  lemma ExitedIsCollected(c: Config, run: seq<State>, i: nat, j: nat, k: nat)
    requires ValidConfig(c) && IsRun(c, run) && i <= j < |run| && k < |run[i].txs|
    requires run[i].phase.Idle? && run[i].txs[k].pc.Exited?
    requires run[j].phase.Swept?
    ensures k in run[j].done && k !in run[j].inFlight
  {
    CollectingStays(c, run, i, j, k);
    ListsPartition(c, run, j, k);
  }

  // --- why a sweep cancels ---

  /** For every transaction a sweep has cancelled there is a different one in the same list whose
      inclusion block exceeds the submission block read. What was read is the true submission block
      unless the watcher stood between writing the status and writing the block, when 0 was read. */
  lemma CancelHasWitness(c: Config, run: seq<State>, i: nat, k: nat)
    requires ValidConfig(c) && IsRun(c, run) && i < |run|
    requires HasWork(run[i]) && k in run[i].phase.w.cancelled
    ensures k < |run[i].txs| && k in DoneSoFar(run[i])
    ensures exists u :: 0 <= u < |run[i].txs| && u != k && Listed(run[i], u)
                     && run[i].txs[u].inclusionBlock > run[i].phase.w.cancelled[k]
    ensures run[i].phase.w.cancelled[k] != 0 ==> run[i].phase.w.cancelled[k] == run[i].txs[k].submissionBlock
  {
    RunInv(c, run, i);
    var s := run[i];
    assert CancelOk(s, s.phase.w, k) && WitnessBut(s, k);
    var u: nat :| Witness(s, u) && u != k;
    assert s.txs[u].inclusionBlock > s.phase.w.cancelled[k];
  }

  /** What a committed sweep left in flight after reading it as Sequenced is not behind any inclusion
      the sweep saw, and a late write of the submission block does not change that. */
  lemma HeldAreNotBehind(c: Config, run: seq<State>, i: nat, k: nat)
    requires ValidConfig(c) && IsRun(c, run) && i < |run|
    requires run[i].phase.Swept? && k in run[i].phase.w.held
    ensures k < |run[i].txs| && k in run[i].inFlight
    ensures run[i].txs[k].submissionBlock >= run[i].phase.w.high
  {
    RunInv(c, run, i);
    assert HeldOk(run[i], run[i].phase.w, k);
  }

  // --- progress ---

  predicate DriverEvent(e: Event, block: nat) {
    e in {BeginSweep(block), ReadInclusion, EndReading, ReadStatus, CompareBlock, Commit, Send}
  }

  /** The driver is never stuck: short of a crash it always has a step to take, the sweep for the block
      delivered next if it waits for one. */
  lemma DriverCanStep(c: Config, run: seq<State>, i: nat, block: nat)
    requires ValidConfig(c) && IsRun(c, run) && i < |run| && !run[i].crashed && block <= run[i].head
    ensures exists e :: DriverEvent(e, block) && Enabled(c, run[i], e)
  {
    RunInv(c, run, i);
    var s := run[i];
    match s.phase
    case Idle => assert Enabled(c, s, BeginSweep(block));
    case Reading(_, at, _) =>
      if at < |s.inFlight| {
        InFlightKnown(s, at);
        assert Enabled(c, s, ReadInclusion);
      } else {
        ReadingInRange(c, run, i);
        assert Enabled(c, s, EndReading);
      }
    case Sorting(w) =>
      if w.i < |s.inFlight| {
        InFlightKnown(s, w.i);
        assert Enabled(c, s, ReadStatus);
      } else {
        assert Enabled(c, s, Commit);
      }
    case Comparing(w) => assert Enabled(c, s, CompareBlock);
    case Swept(_) => assert Enabled(c, s, Send);
  }

  lemma {:induction false} ReadingInRange(c: Config, run: seq<State>, i: nat)
    requires ValidConfig(c) && IsRun(c, run) && i < |run|
    ensures run[i].phase.Reading? ==> run[i].phase.at <= |run[i].inFlight|
  {
    if i == 0 {
    } else {
      ReadingInRange(c, run, i - 1);
      var e := StepOf(c, run, i - 1);
    }
  }
}
