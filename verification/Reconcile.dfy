/** The statistics end to end: the transactions of a run of the tester (Protocol.dfy), the blocks and the
    events they leave behind, the scan of those blocks through the shared cache (BlockCache.dfy), and the
    join of the two (Report.dfy). The trigger travels once in the identity prefix of the outer
    transaction and once as the value of the inner one; nothing else ties the two together. */
module Reconcile {
  import opened Base
  import opened Lifecycle
  import opened Codec
  import opened Sweep
  import opened Protocol
  import opened Invariants
  import Nonces
  import BC = BlockCache
  import opened Report

  /** The run's accounts, what a transaction hashes to, and the chain as the collector's client sees it;
      world.address is the submit account's. */
  datatype Env = Env(c: Config, accounts: seq<int>, hash: Spend -> int, world: BC.World)

  predicate ValidEnv(env: Env) {
    && ValidConfig(env.c)
    && |env.accounts| == |env.c.init|
    && env.world.address !in env.accounts
  }

  // --- what a run leaves on the chain ---

  /** Inner transactions go to the submit account and carry their trigger; a forfeit goes back to its own
      sender and carries 1. */
  function OnChain(env: Env, txs: seq<Tx>, p: Spend): BC.ChainTx
    requires p.id < |txs| && p.sender < |env.accounts|
  {
    match p.kind
    case Inner => BC.ChainTx(Some(env.world.address), txs[p.id].trigger, env.hash(p))
    case Forfeit => BC.ChainTx(Some(env.accounts[p.sender]), 1, env.hash(p))
  }

  predicate Fits(env: Env, txs: seq<Tx>, chain: seq<Mined>) {
    forall i | 0 <= i < |chain| :: chain[i].spend.id < |txs| && chain[i].spend.sender < |env.accounts|
  }

  /** The run's own transactions in block b. */
  function OwnTxs(env: Env, txs: seq<Tx>, chain: seq<Mined>, b: nat): seq<BC.ChainTx>
    requires Fits(env, txs, chain)
  {
    if chain == [] then []
    else
      var last := chain[|chain| - 1];
      OwnTxs(env, txs, chain[..|chain| - 1], b) + if last.block == b then [OnChain(env, txs, last.spend)] else []
  }

  /** The transactions to the submit account, in order. */
  function Addressed(w: BC.World, txs: seq<BC.ChainTx>): seq<BC.ChainTx> {
    if txs == [] then []
    else Addressed(w, txs[..|txs| - 1]) + if BC.Addressed(w, txs[|txs| - 1]) then [txs[|txs| - 1]] else []
  }

  /** The finished blocks hold the run's transactions and any others, but none of the others goes to the
      submit account. */
  predicate Agrees(env: Env, s: State) {
    && Fits(env, s.txs, s.chain)
    && forall b | 0 <= b < s.head ::
         Addressed(env.world, env.world.blocks(b)) == Addressed(env.world, OwnTxs(env, s.txs, s.chain, b))
  }

  /** Outer transaction k was mined, with status 1, in a block of the range: only then is there an event. */
  predicate Emitted(s: State, k: nat, startBlock: nat, endBlock: nat) {
    k < |s.outer| && s.outer[k].ok && startBlock <= s.outer[k].block <= endBlock
  }

  /** The TransactionSubmitted events of the range; the outer transactions are mined in nonce order. */
  function EventsUpTo(s: State, m: nat, startBlock: nat, endBlock: nat): (events: seq<Submitted>)
    requires m <= |s.outer| <= |s.txs| && BlockNumbers(s)
    ensures WellSized(events)
  {
    if m == 0 then []
    else
      EventsUpTo(s, m - 1, startBlock, endBlock)
        + if Emitted(s, m - 1, startBlock, endBlock) then [EventOf(s, m - 1)] else []
  }

  function EventOf(s: State, k: nat): Submitted
    requires k < |s.outer| <= |s.txs| && BlockNumbers(s)
  {
    Submitted(PrefixFromBlockNumber(s.txs[k].trigger), s.outer[k].block)
  }

  function Events(s: State, startBlock: nat, endBlock: nat): (events: seq<Submitted>)
    requires |s.outer| <= |s.txs| && BlockNumbers(s)
    ensures WellSized(events)
  {
    EventsUpTo(s, |s.outer|, startBlock, endBlock)
  }

  predicate BlockNumbers(s: State) {
    forall k | 0 <= k < |s.txs| :: s.txs[k].trigger < 0x8000_0000_0000_0000
  }

  predicate DistinctTriggers(s: State) {
    BlockNumbers(s) && forall j, k | 0 <= j < k < |s.txs| :: s.txs[j].trigger != s.txs[k].trigger
  }

  // --- the prefix side ---

  /** The submission that transaction k's event stands for. */
  function SubmissionFor(s: State, k: nat): Submission
    requires k < |s.outer| <= |s.txs|
  {
    Submission(s.txs[k].trigger, s.outer[k].block)
  }

  predicate Collected(s: State, k: nat, startBlock: nat, endBlock: nat) {
    && Emitted(s, k, startBlock, endBlock)
    && k < |s.txs| && InWindow(s.txs[k].trigger, startBlock, endBlock)
  }

  lemma {:induction false} EventsAre(s: State, m: nat, startBlock: nat, endBlock: nat, e: Submitted)
    requires m <= |s.outer| <= |s.txs| && BlockNumbers(s)
    ensures e in EventsUpTo(s, m, startBlock, endBlock)
       <==> exists k: nat :: k < m && Emitted(s, k, startBlock, endBlock) && e == EventOf(s, k)
  {
    if m == 0 {
    } else {
      EventsAre(s, m - 1, startBlock, endBlock, e);
      assert Emitted(s, m - 1, startBlock, endBlock) && e == EventOf(s, m - 1)
        ==> e in EventsUpTo(s, m, startBlock, endBlock);
    }
  }

  lemma EventStandsFor(s: State, k: nat)
    requires k < |s.outer| <= |s.txs| && BlockNumbers(s)
    ensures SubmissionOf(EventOf(s, k)) == SubmissionFor(s, k)
  {
    PrefixRoundTrip(s.txs[k].trigger);
  }

  /** The submissions collected are those of the run's transactions with an event in range and a trigger
      in the window: what the prefix carried is the trigger it was made from. */
  lemma SubmissionsAreTheRuns(s: State, startBlock: nat, endBlock: nat, x: Submission)
    requires |s.outer| <= |s.txs| && BlockNumbers(s)
    ensures x in Submissions(Events(s, startBlock, endBlock), startBlock, endBlock)
       <==> exists k: nat :: Collected(s, k, startBlock, endBlock) && x == SubmissionFor(s, k)
  {
    var events := Events(s, startBlock, endBlock);
    SubmissionsAre(events, startBlock, endBlock, x);
    if x in Submissions(events, startBlock, endBlock) {
      var e :| e in events && SubmissionOf(e) == x;
      EventsAre(s, |s.outer|, startBlock, endBlock, e);
      var k: nat :| k < |s.outer| && Emitted(s, k, startBlock, endBlock) && e == EventOf(s, k);
      EventStandsFor(s, k);
      assert Collected(s, k, startBlock, endBlock);
    }
    if k: nat :| Collected(s, k, startBlock, endBlock) && x == SubmissionFor(s, k) {
      EventStandsFor(s, k);
      EventsAre(s, |s.outer|, startBlock, endBlock, EventOf(s, k));
    }
  }

  // --- the value side ---

  lemma {:induction false} ScanSeesAddressed(w: BC.World, txs: seq<BC.ChainTx>, b: nat)
    ensures BC.ScanTxs(w, txs, b) == BC.ScanTxs(w, Addressed(w, txs), b)
  {
    if txs == [] {
    } else {
      var n := |txs| - 1;
      ScanSeesAddressed(w, txs[..n], b);
      if BC.Addressed(w, txs[n]) {
        var front := Addressed(w, txs[..n]);
        assert (front + [txs[n]])[..|front|] == front;
      } else {
        assert Addressed(w, txs) == Addressed(w, txs[..n]);
      }
    }
  }

  /** Entry i of the log is what the fact f reports. */
  predicate Reports(env: Env, txs: seq<Tx>, m: Mined, f: BC.Fact) {
    && m.spend.kind.Inner? && m.spend.id < |txs|
    && f == BC.Fact(Int64(txs[m.spend.id].trigger), m.block, env.hash(m.spend))
  }

  lemma {:induction false} OwnScan(env: Env, txs: seq<Tx>, chain: seq<Mined>, b: nat, f: BC.Fact)
    requires ValidEnv(env) && Fits(env, txs, chain)
    ensures f in BC.ScanTxs(env.world, OwnTxs(env, txs, chain, b), b)
       <==> f.included == b && exists i :: 0 <= i < |chain| && Reports(env, txs, chain[i], f)
  {
    if chain == [] {
    } else {
      var n := |chain| - 1;
      OwnScan(env, txs, chain[..n], b, f);
      var before, last := OwnTxs(env, txs, chain[..n], b), chain[n];
      assert (before + [OnChain(env, txs, last.spend)])[..|before|] == before;
      assert before + [] == before;
      assert forall i | 0 <= i < n :: chain[..n][i] == chain[i];
      assert BC.Addressed(env.world, OnChain(env, txs, last.spend)) <==> last.spend.kind.Inner?;
      assert f in BC.ScanTxs(env.world, OwnTxs(env, txs, chain, b), b)
        <==> f in BC.ScanTxs(env.world, before, b) || (last.block == b && Reports(env, txs, last, f));
    }
  }

  lemma {:induction false} RangeScan(w: BC.World, from: nat, to: nat, f: BC.Fact)
    requires forall b: nat | from <= b < to && f in BC.Scan(w, b) :: f.included == b
    ensures f in BC.ScanRange(w, from, to) <==> from <= f.included < to && f in BC.Scan(w, f.included)
  {
    if from >= to {
    } else {
      RangeScan(w, from, to - 1, f);
    }
  }

  /** The facts of finished blocks are the run's included inner transactions, each with its own trigger,
      block and hash; no forfeit is among them. */
  lemma FactsAreTheRuns(env: Env, s: State, from: nat, to: nat, f: BC.Fact)
    requires ValidEnv(env) && Agrees(env, s) && to <= s.head
    ensures f in BC.ScanRange(env.world, from, to)
       <==> from <= f.included < to && exists i :: 0 <= i < |s.chain| && Reports(env, s.txs, s.chain[i], f)
  {
    forall b: nat | b < to
      ensures f in BC.Scan(env.world, b)
         <==> f.included == b && exists i :: 0 <= i < |s.chain| && Reports(env, s.txs, s.chain[i], f)
    {
      ScanSeesAddressed(env.world, env.world.blocks(b), b);
      ScanSeesAddressed(env.world, OwnTxs(env, s.txs, s.chain, b), b);
      OwnScan(env, s.txs, s.chain, b, f);
    }
    RangeScan(env.world, from, to, f);
  }

  // --- the join ---

  /** Transaction k's own inner transaction lies in the scanned blocks. */
  ghost predicate IncludedIn(s: State, k: nat, from: nat, to: nat) {
    exists i :: 0 <= i < |s.chain| && IncludedAt(s, k, from, to, i)
  }

  predicate IncludedAt(s: State, k: nat, from: nat, to: nat, i: nat)
    requires i < |s.chain|
  {
    s.chain[i].spend.kind.Inner? && s.chain[i].spend.id == k && from <= s.chain[i].block < to
  }

  lemma FactsMember(success: seq<BC.Success>, x: BC.Success)
    requires x in success
    ensures BC.FactOf(x) in BC.Facts(success)
  {
    var i :| 0 <= i < |success| && success[i] == x;
    assert BC.Facts(success)[i] == BC.FactOf(x);
  }

  lemma FactsOrigin(success: seq<BC.Success>, f: BC.Fact) returns (x: BC.Success)
    requires f in BC.Facts(success)
    ensures x in success && BC.FactOf(x) == f
  {
    var i :| 0 <= i < |success| && BC.Facts(success)[i] == f;
    x := success[i];
  }

  /** A success with transaction k's trigger is transaction k's own inclusion. */
  lemma SuccessIsOwn(env: Env, s: State, from: nat, to: nat, success: seq<BC.Success>, x: BC.Success, k: nat)
    returns (i: nat)
    requires ValidEnv(env) && Agrees(env, s) && to <= s.head && DistinctTriggers(s)
    requires BC.Facts(success) == BC.ScanRange(env.world, from, to)
    requires x in success && k < |s.txs| && x.trigger == s.txs[k].trigger
    ensures i < |s.chain| && IncludedAt(s, k, from, to, i)
    ensures x.included == s.chain[i].block && x.hash == env.hash(s.chain[i].spend)
  {
    FactsMember(success, x);
    FactsAreTheRuns(env, s, from, to, BC.FactOf(x));
    i :| 0 <= i < |s.chain| && Reports(env, s.txs, s.chain[i], BC.FactOf(x));
    var l := s.chain[i].spend.id;
    assert Int64(s.txs[l].trigger) == s.txs[l].trigger;
    assert l == k;
  }

  lemma InclusionIsSuccess(env: Env, s: State, from: nat, to: nat, success: seq<BC.Success>, k: nat)
    returns (x: BC.Success)
    requires ValidEnv(env) && Agrees(env, s) && to <= s.head && BlockNumbers(s)
    requires BC.Facts(success) == BC.ScanRange(env.world, from, to)
    requires k < |s.txs| && IncludedIn(s, k, from, to)
    ensures x in success && x.trigger == s.txs[k].trigger
  {
    var i :| 0 <= i < |s.chain| && IncludedAt(s, k, from, to, i);
    var f := BC.Fact(Int64(s.txs[k].trigger), s.chain[i].block, env.hash(s.chain[i].spend));
    assert Reports(env, s.txs, s.chain[i], f);
    FactsAreTheRuns(env, s, from, to, f);
    x := FactsOrigin(success, f);
    assert Int64(s.txs[k].trigger) == s.txs[k].trigger;
  }

  /** A scan of the blocks from .. to - 1 of the state's chain, all finished. */
  ghost predicate Scanned(env: Env, s: State, from: nat, to: nat, success: seq<BC.Success>) {
    && Agrees(env, s) && to <= s.head && DistinctTriggers(s) && |s.outer| <= |s.txs|
    && BC.Facts(success) == BC.ScanRange(env.world, from, to)
  }

  function Submits(s: State, startBlock: nat, endBlock: nat): seq<Submission>
    requires |s.outer| <= |s.txs| && BlockNumbers(s)
  {
    Submissions(Events(s, startBlock, endBlock), startBlock, endBlock)
  }

  /** The submissions counted as successful (or as failed, for false). */
  function Counted(submit: seq<Submission>, success: seq<BC.Success>, won: bool): seq<Submission> {
    Pick(submit, Found(submit, ByTrigger(success)), won)
  }

  /** A collected submission is counted successful exactly when its own inner transaction lies in the
      scanned blocks, and failed exactly when it does not. */
  lemma SuccessfulIffIncluded(env: Env, s: State, startBlock: nat, endBlock: nat, to: nat,
                              success: seq<BC.Success>, k: nat)
    requires ValidEnv(env) && Scanned(env, s, startBlock, to, success)
    requires Collected(s, k, startBlock, endBlock)
    ensures var submit, x := Submits(s, startBlock, endBlock), SubmissionFor(s, k);
      && (x in Counted(submit, success, true) <==> IncludedIn(s, k, startBlock, to))
      && (x in Counted(submit, success, false) <==> !IncludedIn(s, k, startBlock, to))
  {
    var submit, x := Submits(s, startBlock, endBlock), SubmissionFor(s, k);
    SubmissionsAreTheRuns(s, startBlock, endBlock, x);
    JoinPartitions(success, submit, x);
    if IncludedIn(s, k, startBlock, to) {
      var y := InclusionIsSuccess(env, s, startBlock, to, success, k);
    }
    if y :| y in success && y.trigger == x.trigger {
      var i := SuccessIsOwn(env, s, startBlock, to, success, y, k);
      assert IncludedIn(s, k, startBlock, to);
    }
  }

  /** What the join matches it with is its own inclusion, so the delay reported is the distance between
      the block of its outer transaction and the block of its inner one. */
  lemma MatchIsOwn(env: Env, s: State, startBlock: nat, endBlock: nat, to: nat, success: seq<BC.Success>, k: nat)
    returns (i: nat)
    requires ValidEnv(env) && Scanned(env, s, startBlock, to, success)
    requires Collected(s, k, startBlock, endBlock) && IncludedIn(s, k, startBlock, to)
    ensures var m, x := ByTrigger(success), SubmissionFor(s, k);
      && i < |s.chain| && IncludedAt(s, k, startBlock, to, i)
      && x.trigger in m && m[x.trigger].hash == env.hash(s.chain[i].spend)
      && m[x.trigger].included - x.sequenced == s.chain[i].block - s.outer[k].block
  {
    var x := SubmissionFor(s, k);
    var y := InclusionIsSuccess(env, s, startBlock, to, success, k);
    var at := ByTriggerIs(success, x.trigger);
    assert x.trigger in ByTrigger(success) by {
      var j :| 0 <= j < |success| && success[j] == y;
      assert success[j].trigger == x.trigger;
    }
    i := SuccessIsOwn(env, s, startBlock, to, success, success[at], k);
  }

  // --- the statistics as code ---

  /** Entry r of the report is transaction k's: its own inclusion, the i-th of the chain, with the distance
      between the block of its outer and the block of its inner transaction as the delay. */
  predicate ReportedAs(env: Env, s: State, o: Outcome, r: nat, k: nat, i: nat)
    requires |o.successful| == |o.delays|
  {
    && r < |o.successful| && k < |s.outer| && i < |s.chain|
    && s.chain[i].spend.kind.Inner? && s.chain[i].spend.id == k
    && o.successful[r].hash == env.hash(s.chain[i].spend) && o.successful[r].included == s.chain[i].block
    && o.delays[r] == s.chain[i].block - s.outer[k].block
  }

  /** The position of a collected submission, and what the join made of it. */
  lemma ReportedSuccess(env: Env, s: State, startBlock: nat, endBlock: nat, to: nat, success: seq<BC.Success>,
                        submit: seq<Submission>, o: Outcome, won: seq<nat>, r: nat) returns (k: nat, i: nat)
    requires ValidEnv(env) && Scanned(env, s, startBlock, to, success) && submit == Submits(s, startBlock, endBlock)
    requires |o.successful| == |o.delays| == |won| && r < |won| && won[r] < |submit|
    requires o.successful[r] in success && o.successful[r].trigger == submit[won[r]].trigger
    requires o.delays[r] == o.successful[r].included - submit[won[r]].sequenced
    ensures Collected(s, k, startBlock, endBlock) && submit[won[r]] == SubmissionFor(s, k)
    ensures ReportedAs(env, s, o, r, k, i) && IncludedAt(s, k, startBlock, to, i)
  {
    SubmissionsAreTheRuns(s, startBlock, endBlock, submit[won[r]]);
    k :| Collected(s, k, startBlock, endBlock) && submit[won[r]] == SubmissionFor(s, k);
    i := SuccessIsOwn(env, s, startBlock, to, success, o.successful[r], k);
  }

  lemma Position(s: State, startBlock: nat, endBlock: nat, k: nat) returns (q: nat)
    requires |s.outer| <= |s.txs| && BlockNumbers(s) && Collected(s, k, startBlock, endBlock)
    ensures q < |Submits(s, startBlock, endBlock)| && Submits(s, startBlock, endBlock)[q] == SubmissionFor(s, k)
  {
    SubmissionsAreTheRuns(s, startBlock, endBlock, SubmissionFor(s, k));
    q :| 0 <= q < |Submits(s, startBlock, endBlock)| && Submits(s, startBlock, endBlock)[q] == SubmissionFor(s, k);
  }

  lemma SameTriggerSameTx(s: State, k: nat, l: nat)
    requires DistinctTriggers(s) && k < |s.txs| && l < |s.txs| && s.txs[k].trigger == s.txs[l].trigger
    ensures k == l
  {
  }

  ghost predicate IsOwnSuccess(env: Env, s: State, startBlock: nat, endBlock: nat, to: nat, o: Outcome, r: nat)
    requires |o.successful| == |o.delays|
  {
    exists k: nat, i: nat ::
      ReportedAs(env, s, o, r, k, i) && Collected(s, k, startBlock, endBlock) && IncludedAt(s, k, startBlock, to, i)
  }

  ghost predicate HasEntry(env: Env, s: State, o: Outcome, k: nat)
    requires |o.successful| == |o.delays|
  {
    exists r: nat, i: nat :: ReportedAs(env, s, o, r, k, i)
  }

  /** What the join promises, for these lists. */
  predicate JoinSays(success: seq<BC.Success>, submit: seq<Submission>, o: Outcome, won: seq<nat>, lost: seq<nat>) {
    && |o.successful| == |o.delays| == |won| && |o.failed| == |lost|
    && (forall q | 0 <= q < |submit| ::
          && (q in won <==> exists j :: 0 <= j < |success| && success[j].trigger == submit[q].trigger)
          && (q in lost <==> q !in won))
    && (forall r | 0 <= r < |won| ::
          && won[r] < |submit| && o.successful[r] in success && o.successful[r].trigger == submit[won[r]].trigger
          && o.delays[r] == o.successful[r].included - submit[won[r]].sequenced)
    && (forall r | 0 <= r < |lost| :: lost[r] < |submit| && o.failed[r] == submit[lost[r]])
  }

  lemma IncludedHasEntry(env: Env, s: State, startBlock: nat, endBlock: nat, to: nat, success: seq<BC.Success>,
                         submit: seq<Submission>, o: Outcome, won: seq<nat>, lost: seq<nat>, k: nat)
    requires ValidEnv(env) && Scanned(env, s, startBlock, to, success) && submit == Submits(s, startBlock, endBlock)
    requires JoinSays(success, submit, o, won, lost)
    requires Collected(s, k, startBlock, endBlock) && IncludedIn(s, k, startBlock, to)
    ensures HasEntry(env, s, o, k)
  {
    var q := Position(s, startBlock, endBlock, k);
    var x := InclusionIsSuccess(env, s, startBlock, to, success, k);
    var j :| 0 <= j < |success| && success[j] == x;
    assert success[j].trigger == submit[q].trigger && q in won;
    var r :| 0 <= r < |won| && won[r] == q;
    var l, i := ReportedSuccess(env, s, startBlock, endBlock, to, success, submit, o, won, r);
    SameTriggerSameTx(s, k, l);
    assert ReportedAs(env, s, o, r, k, i);
  }

  lemma OthersFail(env: Env, s: State, startBlock: nat, endBlock: nat, to: nat, success: seq<BC.Success>,
                   submit: seq<Submission>, o: Outcome, won: seq<nat>, lost: seq<nat>, k: nat)
    requires ValidEnv(env) && Scanned(env, s, startBlock, to, success) && submit == Submits(s, startBlock, endBlock)
    requires JoinSays(success, submit, o, won, lost)
    requires Collected(s, k, startBlock, endBlock) && !IncludedIn(s, k, startBlock, to)
    ensures SubmissionFor(s, k) in o.failed
  {
    var q := Position(s, startBlock, endBlock, k);
    if q in won {
      var r :| 0 <= r < |won| && won[r] == q;
      var l, i := ReportedSuccess(env, s, startBlock, endBlock, to, success, submit, o, won, r);
      SameTriggerSameTx(s, k, l);
    }
    assert q in lost;
    var r :| 0 <= r < |lost| && lost[r] == q;
    assert o.failed[r] == SubmissionFor(s, k);
  }

  /** CollectContinuousTestStats up to the report, on what a run has left behind: each entry reported as
      successful is a transaction's own inclusion with its own delay, every collected transaction that is included
      in the scanned blocks has such an entry, and every other one is among the failed. */
  method Statistics(ghost env: Env, ghost s: State, startBlock: nat, endBlock: nat, ghost to: nat,
                    success: seq<BC.Success>, events: seq<Submitted>) returns (o: Outcome, failCnt: nat)
    requires ValidEnv(env) && Scanned(env, s, startBlock, to, success)
    requires WellSized(events) && events == Events(s, startBlock, endBlock)
    ensures |o.successful| == |o.delays| && failCnt == |o.failed|
    ensures forall r | 0 <= r < |o.successful| :: IsOwnSuccess(env, s, startBlock, endBlock, to, o, r)
    ensures forall k: nat | Collected(s, k, startBlock, endBlock) ::
              if IncludedIn(s, k, startBlock, to) then HasEntry(env, s, o, k) else SubmissionFor(s, k) in o.failed
  {
    var submit, at := CollectSequencerEvents(events, startBlock, endBlock);
    ghost var won, lost;
    o, failCnt, won, lost := Join(success, submit);
    forall r | 0 <= r < |won| ensures IsOwnSuccess(env, s, startBlock, endBlock, to, o, r) {
      var k, i := ReportedSuccess(env, s, startBlock, endBlock, to, success, submit, o, won, r);
      assert ReportedAs(env, s, o, r, k, i);
    }
    forall k: nat | Collected(s, k, startBlock, endBlock)
      ensures if IncludedIn(s, k, startBlock, to) then HasEntry(env, s, o, k) else SubmissionFor(s, k) in o.failed
    {
      if IncludedIn(s, k, startBlock, to) {
        IncludedHasEntry(env, s, startBlock, endBlock, to, success, submit, o, won, lost, k);
      } else {
        OthersFail(env, s, startBlock, endBlock, to, success, submit, o, won, lost, k);
      }
    }
  }

  // --- along a run ---

  lemma OuterStep(c: Config, s: State, e: Event)
    requires ValidConfig(c) && Enabled(c, s, e) && |s.outer| <= |s.txs|
    ensures var s' := Apply(c, s, e);
      && s.outer <= s'.outer && |s'.outer| <= |s'.txs| && |s.txs| <= |s'.txs| && s.head <= s'.head
      && (forall k | 0 <= k < |s.txs| :: s'.txs[k].trigger == s.txs[k].trigger)
  {
  }

  /** Receipts, triggers and blocks stay what they are. */
  lemma {:induction false} PastStays(c: Config, run: seq<State>, i: nat, j: nat)
    requires ValidConfig(c) && IsRun(c, run) && i <= j < |run|
    ensures |run[i].outer| <= |run[i].txs| <= |run[j].txs| && |run[j].outer| <= |run[j].txs|
    ensures run[i].outer <= run[j].outer && run[i].head <= run[j].head
    ensures forall k | 0 <= k < |run[i].txs| :: run[j].txs[k].trigger == run[i].txs[k].trigger
    decreases j
  {
    if i < j {
      PastStays(c, run, i, j - 1);
      var e := StepOf(c, run, j - 1);
      OuterStep(c, run[j - 1], e);
    } else if j > 0 {
      PastStays(c, run, j - 1, j - 1);
      var e := StepOf(c, run, j - 1);
      OuterStep(c, run[j - 1], e);
    }
  }

  /** What is mined after state i is in blocks that were not finished there. */
  lemma {:induction false} MinedLater(c: Config, run: seq<State>, i: nat, j: nat)
    requires ValidConfig(c) && IsRun(c, run) && i <= j < |run|
    ensures forall g | |run[i].chain| <= g < |run[j].chain| :: run[j].chain[g].block >= run[i].head
    decreases j
  {
    if i == j {
    } else {
      MinedLater(c, run, i, j - 1);
      PastStays(c, run, i, j - 1);
      var e := StepOf(c, run, j - 1);
    }
  }

  lemma {:induction false} OwnTxsStay(env: Env, txs: seq<Tx>, chain: seq<Mined>,
                                      txs': seq<Tx>, chain': seq<Mined>, b: nat)
    requires Fits(env, txs, chain) && Fits(env, txs', chain') && chain <= chain'
    requires |txs| <= |txs'| && forall k | 0 <= k < |txs| :: txs'[k].trigger == txs[k].trigger
    requires forall g | |chain| <= g < |chain'| :: chain'[g].block > b
    ensures OwnTxs(env, txs, chain, b) == OwnTxs(env, txs', chain', b)
    decreases |chain'|
  {
    if chain' == [] {
    } else {
      var n := |chain'| - 1;
      if |chain| <= n {
        OwnTxsStay(env, txs, chain, txs', chain'[..n], b);
      } else {
        OwnTxsStay(env, txs, chain[..n], txs', chain'[..n], b);
        assert chain[n] == chain'[n];
      }
    }
  }

  lemma RunFits(env: Env, run: seq<State>, i: nat)
    requires ValidEnv(env) && IsRun(env.c, run) && i < |run|
    ensures Fits(env, run[i].txs, run[i].chain)
  {
    RunInv(env.c, run, i);
    forall g | 0 <= g < |run[i].chain|
      ensures run[i].chain[g].spend.id < |run[i].txs| && run[i].chain[g].spend.sender < |env.accounts|
    {
      assert SpendOk(run[i], run[i].chain[g].spend);
    }
  }

  /** A finished block is final: a chain that agrees with a state of the run agrees with all earlier ones. */
  lemma AgreesBefore(env: Env, run: seq<State>, i: nat, j: nat)
    requires ValidEnv(env) && IsRun(env.c, run) && i <= j < |run| && Agrees(env, run[j])
    ensures Agrees(env, run[i])
  {
    PastStays(env.c, run, i, j);
    Nonces.ChainOnlyGrows(env.c, run, i, j);
    MinedLater(env.c, run, i, j);
    RunFits(env, run, i);
    forall b | 0 <= b < run[i].head
      ensures Addressed(env.world, env.world.blocks(b))
           == Addressed(env.world, OwnTxs(env, run[i].txs, run[i].chain, b))
    {
      OwnTxsStay(env, run[i].txs, run[i].chain, run[j].txs, run[j].chain, b);
    }
  }

  /** A submission whose forfeit was mined is counted as failed by every later collection. */
  lemma ForfeitNeverSucceeds(env: Env, run: seq<State>, i: nat, j: nat, startBlock: nat, endBlock: nat, to: nat,
                             success: seq<BC.Success>, k: nat)
    requires ValidEnv(env) && IsRun(env.c, run) && i <= j < |run| && Has(run[i], Forfeit, k)
    requires Scanned(env, run[j], startBlock, to, success) && Collected(run[j], k, startBlock, endBlock)
    ensures SubmissionFor(run[j], k) in Counted(Submits(run[j], startBlock, endBlock), success, false)
  {
    SuccessfulIffIncluded(env, run[j], startBlock, endBlock, to, success, k);
    Nonces.ForfeitedNeverIncluded(env.c, run, i, j, k);
  }

  /** Scanning further and asking for more blocks later in the run never turns a successful submission
      into a failed one. */
  lemma SuccessStays(env: Env, run: seq<State>, i: nat, j: nat, startBlock: nat, k: nat,
                     end: nat, to: nat, success: seq<BC.Success>,
                     end': nat, to': nat, success': seq<BC.Success>)
    requires ValidEnv(env) && IsRun(env.c, run) && i <= j < |run| && end <= end' && to <= to'
    requires Scanned(env, run[j], startBlock, to', success')
    requires to <= run[i].head && BC.Facts(success) == BC.ScanRange(env.world, startBlock, to)
    requires Collected(run[i], k, startBlock, end)
    requires |run[i].outer| <= |run[i].txs| && BlockNumbers(run[i])
    requires SubmissionFor(run[i], k) in Counted(Submits(run[i], startBlock, end), success, true)
    ensures k < |run[j].outer| && SubmissionFor(run[j], k) == SubmissionFor(run[i], k)
    ensures SubmissionFor(run[j], k) in Counted(Submits(run[j], startBlock, end'), success', true)
  {
    PastStays(env.c, run, i, j);
    Nonces.ChainOnlyGrows(env.c, run, i, j);
    AgreesBefore(env, run, i, j);
    SuccessfulIffIncluded(env, run[i], startBlock, end, to, success, k);
    var g :| 0 <= g < |run[i].chain| && IncludedAt(run[i], k, startBlock, to, g);
    assert run[j].chain[g] == run[i].chain[g];
    assert IncludedAt(run[j], k, startBlock, to', g);
    assert Collected(run[j], k, startBlock, end');
    SuccessfulIffIncluded(env, run[j], startBlock, end', to', success', k);
  }

  /** The whole way: a run of the tester, a run of the two goroutines that share the cache, and a
      collection of everything from the first block. Whatever else the two goroutines did, and whether or
      not a fetch failed on the way, exactly the submissions are successful whose inner transaction lies
      in the blocks the collection got to. */
  lemma CollectedThroughCache(env: Env, run: seq<State>, j: nat, cacheRun: seq<BC.State>, m: nat, endBlock: nat, k: nat)
    requires ValidEnv(env) && IsRun(env.c, run) && j < |run|
    requires Agrees(env, run[j]) && DistinctTriggers(run[j])
    requires BC.IsRun(env.world, cacheRun) && m < |cacheRun| && cacheRun[m].collector.Returned?
    requires cacheRun[m].collector.at <= run[j].head
    requires Collected(run[j], k, env.world.base, endBlock)
    ensures |run[j].outer| <= |run[j].txs|
    ensures
      SubmissionFor(run[j], k)
        in Counted(Submits(run[j], env.world.base, endBlock), cacheRun[m].collector.out, true)
      <==> IncludedIn(run[j], k, env.world.base, cacheRun[m].collector.at)
  {
    PastStays(env.c, run, j, j);
    BC.CollectionIsTransparent(env.world, cacheRun, m);
    var c := cacheRun[m].collector;
    SuccessfulIffIncluded(env, run[j], env.world.base, endBlock, c.at, c.out, k);
  }
}
