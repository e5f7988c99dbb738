/** The block numbers that watchers write are those of the receipts: where the submission and the inner
    transaction were mined. */
module Receipts {
  import opened Lifecycle
  import opened Protocol
  import opened Invariants

  /** The chain has transaction k's own inner transaction in block b. */
  ghost predicate MinedIn(s: State, k: nat, b: nat)
    requires k < |s.txs|
  {
    exists i :: 0 <= i < |s.chain| && s.chain[i] == Mined(SpendOf(Inner, s.txs[k], k), b)
  }

  predicate SubmittedIn(s: State, k: nat, ok: bool, b: nat) {
    k < |s.outer| && s.outer[k] == OuterReceipt(ok, b)
  }

  /** What a watcher holds or has written agrees with the chain. */
  ghost predicate ReceiptOk(s: State, k: nat)
    requires k < |s.txs|
  {
    var t := s.txs[k];
    && (t.pc.FirstSelect? && t.pc.got.Receipt? ==> SubmittedIn(s, k, t.pc.got.ok, t.pc.got.block))
    && (t.pc.WriteSubmission? ==> t.submissionBlock == 0 && SubmittedIn(s, k, true, t.pc.block))
    && (PassedFirstSelect(t.pc) && !t.pc.WriteSubmission? ==> SubmittedIn(s, k, true, t.submissionBlock))
    && (!PassedFirstSelect(t.pc) ==> t.submissionBlock == 0)
    && (t.pc.SecondSelect? && t.pc.got.Receipt? ==> MinedIn(s, k, t.pc.got.block))
    && (t.pc.WriteInclusion? ==> MinedIn(s, k, t.pc.block))
    && (t.pc == Exited(Landed) ==> MinedIn(s, k, t.inclusionBlock))
    && (t.pc != Exited(Landed) ==> t.inclusionBlock == 0)
  }

  ghost predicate ReceiptsOk(s: State) {
    forall k | 0 <= k < |s.txs| :: ReceiptOk(s, k)
  }

  /** Whatever happens to the rest, a watcher that does not move stays in agreement. */
  lemma ReceiptStays(s: State, s': State, k: nat)
    requires k < |s.txs| && k < |s'.txs| && ReceiptOk(s, k)
    requires s.outer <= s'.outer && s.chain <= s'.chain
    requires s'.txs[k] == s.txs[k].(ctx := s'.txs[k].ctx)
    ensures ReceiptOk(s', k)
  {
    forall b | MinedIn(s, k, b) ensures MinedIn(s', k, b) {
      var i :| 0 <= i < |s.chain| && s.chain[i] == Mined(SpendOf(Inner, s.txs[k], k), b);
      assert s'.chain[i] == s.chain[i];
    }
  }

  lemma WatchReceipt(c: Config, s: State, e: Event)
    requires ValidConfig(c) && Enabled(c, s, e) && e.Watch? && ReceiptOk(s, e.id)
    ensures ReceiptOk(Apply(c, s, e), e.id)
  {
    var s', k := Apply(c, s, e), e.id;
    forall b | MinedIn(s, k, b) ensures MinedIn(s', k, b) {
      var i :| 0 <= i < |s.chain| && s.chain[i] == Mined(SpendOf(Inner, s.txs[k], k), b);
      assert s'.chain[i] == Mined(SpendOf(Inner, s'.txs[k], k), b);
    }
    if e.m.Returns? && e.m.got.Receipt? && s.txs[k].pc.SecondWait? {
      assert s.chain[e.at] == Mined(SpendOf(Inner, s.txs[k], k), e.m.got.block);
    }
  }

  lemma StepKeepsReceipts(c: Config, s: State, e: Event)
    requires ValidConfig(c) && Enabled(c, s, e) && ReceiptsOk(s)
    ensures ReceiptsOk(Apply(c, s, e))
  {
    var s' := Apply(c, s, e);
    forall k | 0 <= k < |s'.txs| ensures ReceiptOk(s', k) {
      if e.Watch? && e.id == k {
        WatchReceipt(c, s, e);
      } else if k < |s.txs| {
        ReceiptStays(s, s', k);
      }
    }
  }

  lemma {:induction false} RunReceipts(c: Config, run: seq<State>, i: nat)
    requires ValidConfig(c) && IsRun(c, run) && i < |run|
    ensures ReceiptsOk(run[i])
  {
    if i == 0 {
    } else {
      RunReceipts(c, run, i - 1);
      var e := StepOf(c, run, i - 1);
      StepKeepsReceipts(c, run[i - 1], e);
    }
  }

  /** In every state of every run: a submission block on record is where the outer transaction was mined, with
      status 1; a watcher that landed has on record the block in which the chain has its inner transaction, and
      none that did not land has one. */
  lemma RecordedBlocksAreTrue(c: Config, run: seq<State>, r: nat, k: nat)
    requires ValidConfig(c) && IsRun(c, run) && r < |run| && k < |run[r].txs|
    ensures var s := run[r]; var t := s.txs[k];
      && (t.submissionBlock != 0 ==> k < |s.outer| && s.outer[k] == OuterReceipt(true, t.submissionBlock))
      && (t.pc == Exited(Landed) ==>
            && k < |s.outer| && s.outer[k] == OuterReceipt(true, t.submissionBlock)
            && exists i :: 0 <= i < |s.chain| && s.chain[i] == Mined(SpendOf(Inner, t, k), t.inclusionBlock))
      && (t.inclusionBlock != 0 ==> t.pc == Exited(Landed))
  {
    RunReceipts(c, run, r);
    assert ReceiptOk(run[r], k);
  }
}
