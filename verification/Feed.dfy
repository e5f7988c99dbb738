/** A run of the tester driven by a poller: the k-th sweep is for the k-th block delivered, so the k-th
    transaction carries it, and what the pollers promise about blocks holds of the run's transactions. */
module Feed {
  import opened Base
  import opened Codec
  import opened Protocol
  import opened Invariants
  import opened Reconcile
  import Pollers

  /** Step i of the run begins a sweep. */
  predicate BeginsAt(run: seq<State>, i: nat) {
    i + 1 < |run| && run[i].phase.Idle? && run[i + 1].phase.Reading?
  }

  /** How many sweeps begin in the first i steps. */
  function Begun(run: seq<State>, i: nat): nat {
    if i == 0 then 0 else Begun(run, i - 1) + if BeginsAt(run, i - 1) then 1 else 0
  }

  /** The block that the running sweep is for. */
  function BlockOf(p: Phase): nat
    requires !p.Idle?
  {
    match p
    case Reading(block, _, _) => block
    case Sorting(w) => w.block
    case Comparing(w) => w.block
    case Swept(w) => w.block
  }

  predicate FedAt(run: seq<State>, numbers: seq<nat>, i: nat) {
    BeginsAt(run, i) ==> Begun(run, i) < |numbers| && BlockOf(run[i + 1].phase) == numbers[Begun(run, i)]
  }

  /** The driver's loop over the channel: the j-th sweep of the run is for the j-th block delivered. */
  predicate Fed(run: seq<State>, numbers: seq<nat>) {
    forall i | 0 <= i < |run| :: FedAt(run, numbers, i)
  }

  /** Transaction k was sent for the k-th block delivered. */
  predicate SentFor(s: State, numbers: seq<nat>) {
    |s.txs| <= |numbers| && forall k | 0 <= k < |s.txs| :: s.txs[k].trigger == numbers[k]
  }

  /** Between two sends there is one sweep, and it knows its block. */
  predicate FeedOk(run: seq<State>, numbers: seq<nat>, i: nat)
    requires i < |run|
  {
    var s := run[i];
    && SentFor(s, numbers)
    && Begun(run, i) == |s.txs| + (if s.phase.Idle? then 0 else 1)
    && (!s.phase.Idle? ==> |s.txs| < |numbers| && BlockOf(s.phase) == numbers[|s.txs|])
  }

  lemma FeedStep(c: Config, run: seq<State>, numbers: seq<nat>, i: nat)
    requires ValidConfig(c) && IsRun(c, run) && Fed(run, numbers) && i + 1 < |run| && FeedOk(run, numbers, i)
    ensures FeedOk(run, numbers, i + 1)
  {
    var e := StepOf(c, run, i);
    assert FedAt(run, numbers, i);
  }

  lemma {:induction false} RunFeedOk(c: Config, run: seq<State>, numbers: seq<nat>, i: nat)
    requires ValidConfig(c) && IsRun(c, run) && Fed(run, numbers) && i < |run|
    ensures FeedOk(run, numbers, i)
  {
    if i == 0 {
    } else {
      RunFeedOk(c, run, numbers, i - 1);
      FeedStep(c, run, numbers, i - 1);
    }
  }

  /** In every state of a fed run transaction k was sent for the k-th block delivered. */
  lemma FedRunSends(c: Config, run: seq<State>, numbers: seq<nat>, i: nat)
    requires ValidConfig(c) && IsRun(c, run) && Fed(run, numbers) && i < |run|
    ensures SentFor(run[i], numbers)
  {
    RunFeedOk(c, run, numbers, i);
  }

  // --- what the pollers deliver ---

  /** Block numbers are 64-bit words, and each delivered one is higher than those before. */
  predicate Deliverable(numbers: seq<nat>) {
    && (forall i | 0 <= i < |numbers| :: numbers[i] < 0x8000_0000_0000_0000)
    && forall i, j | 0 <= i < j < |numbers| :: numbers[i] < numbers[j]
  }

  /** Everything the polls see are blocks of one chain: a later block has a higher number. They may reach the
      database in any order, and vanish again. */
  predicate OneChain(snapshots: seq<seq<Pollers.Row>>) {
    forall p, q, x, y |
      0 <= p < |snapshots| && 0 <= q < |snapshots| && x in snapshots[p] && y in snapshots[q] && x.ts < y.ts ::
      x.number < y.number
  }

  predicate Words(snapshots: seq<seq<Pollers.Row>>) {
    forall p, x | 0 <= p < |snapshots| && x in snapshots[p] :: x.number < 0x8000_0000_0000_0000
  }

  /** The numbers of the blocks that the standard poller sends. */
  function StandardNumbers(initial: int, snapshots: seq<seq<Pollers.Row>>): seq<nat> {
    var sent := Pollers.Stream(initial, snapshots).0;
    seq(|sent|, i requires 0 <= i < |sent| => sent[i].number)
  }

  lemma {:induction false} NewerAreThere(last: int, db: seq<Pollers.Row>)
    ensures forall x | x in Pollers.Newer(last, db) :: x in db
  {
    if db == [] {
    } else {
      NewerAreThere(last, db[..|db| - 1]);
    }
  }

  predicate SeenIn(x: Pollers.Row, snapshots: seq<seq<Pollers.Row>>) {
    exists p :: 0 <= p < |snapshots| && x in snapshots[p]
  }

  /** Every block sent was seen by some poll. */
  lemma {:induction false} SentWasSeen(last: int, snapshots: seq<seq<Pollers.Row>>, x: Pollers.Row)
    requires x in Pollers.Stream(last, snapshots).0
    ensures SeenIn(x, snapshots)
    decreases |snapshots|
  {
    NewerAreThere(last, snapshots[0]);
    match Pollers.Verdict(Pollers.Newer(last, snapshots[0]))
    case Fatal =>
    case Nothing =>
      SentWasSeen(last, snapshots[1..], x);
      SeenLater(x, snapshots);
    case Found(row) =>
      if x == row {
        assert x in snapshots[0];
      } else {
        SentWasSeen(row.ts, snapshots[1..], x);
        SeenLater(x, snapshots);
      }
  }

  lemma SeenLater(x: Pollers.Row, snapshots: seq<seq<Pollers.Row>>)
    requires snapshots != [] && SeenIn(x, snapshots[1..])
    ensures SeenIn(x, snapshots)
  {
    var p :| 0 <= p < |snapshots[1..]| && x in snapshots[1..][p];
    assert x in snapshots[p + 1];
  }

  lemma StandardDelivers(initial: int, snapshots: seq<seq<Pollers.Row>>)
    requires OneChain(snapshots) && Words(snapshots)
    ensures Deliverable(StandardNumbers(initial, snapshots))
  {
    Pollers.SentTimesIncrease(initial, snapshots);
    var sent := Pollers.Stream(initial, snapshots).0;
    forall i | 0 <= i < |sent| ensures SeenIn(sent[i], snapshots) {
      SentWasSeen(initial, snapshots, sent[i]);
    }
    forall i, j | 0 <= i < j < |sent| ensures sent[i].number < sent[j].number {
      assert SeenIn(sent[i], snapshots) && SeenIn(sent[j], snapshots);
    }
  }

  function GraffitiNumbers(rows: seq<Option<Pollers.GraffitiRow>>, wanted: set<string>): seq<nat> {
    var sent := Pollers.GraffitiStream(0, rows, wanted);
    seq(|sent|, i requires 0 <= i < |sent| => sent[i].number)
  }

  predicate WordRows(rows: seq<Option<Pollers.GraffitiRow>>) {
    forall i | 0 <= i < |rows| && rows[i].Some? :: rows[i].value.number < 0x8000_0000_0000_0000
  }

  lemma {:induction false} GraffitiWords(next: nat, rows: seq<Option<Pollers.GraffitiRow>>, wanted: set<string>)
    requires WordRows(rows)
    ensures forall e | e in Pollers.GraffitiStream(next, rows, wanted) :: e.number < 0x8000_0000_0000_0000
    decreases |rows|
  {
    if rows == [] {
    } else {
      assert forall i | 0 <= i < |rows[1..]| :: rows[1..][i] == rows[i + 1];
      match Pollers.GraffitiPoll(next, rows[0], wanted)
      case None => GraffitiWords(next, rows[1..], wanted);
      case Some(e) => GraffitiWords(e.target, rows[1..], wanted);
    }
  }

  /** What the graffiti poller needs for that: heads of one chain, and no emission that repeats a withdrawn one. */
  predicate NothingRepeats(dbs: seq<Pollers.Db>, rows: seq<Option<Pollers.GraffitiRow>>, wanted: set<string>) {
    && Pollers.Ordered(dbs) && Pollers.AllAnswer(dbs, rows) && WordRows(rows)
    && forall i | 0 <= i < |rows| :: !Pollers.Repeats(dbs, rows, wanted, i)
  }

  lemma GraffitiDelivers(dbs: seq<Pollers.Db>, rows: seq<Option<Pollers.GraffitiRow>>, wanted: set<string>)
    requires NothingRepeats(dbs, rows, wanted)
    ensures Deliverable(GraffitiNumbers(rows, wanted))
  {
    Pollers.IncreaseUpTo(dbs, rows, wanted, |rows|);
    assert rows[..|rows|] == rows;
    var sent := Pollers.GraffitiStream(0, rows, wanted);
    GraffitiWords(0, rows, wanted);
    assert forall i | 0 <= i < |sent| :: sent[i] in sent;
  }

  // --- so, for whole runs ---

  predicate DistinctPrefixes(s: State)
    requires BlockNumbers(s)
  {
    forall j, k | 0 <= j < k < |s.txs| ::
      PrefixFromBlockNumber(s.txs[j].trigger) != PrefixFromBlockNumber(s.txs[k].trigger)
  }

  /** No two transactions of a fed run share a trigger, nor an identity prefix. */
  lemma FedRunIsDistinct(c: Config, run: seq<State>, numbers: seq<nat>, i: nat)
    requires ValidConfig(c) && IsRun(c, run) && Fed(run, numbers) && Deliverable(numbers) && i < |run|
    ensures DistinctTriggers(run[i]) && DistinctPrefixes(run[i])
  {
    FedRunSends(c, run, numbers, i);
    var txs := run[i].txs;
    forall j, k | 0 <= j < k < |txs|
      ensures PrefixFromBlockNumber(txs[j].trigger) != PrefixFromBlockNumber(txs[k].trigger)
    {
      PrefixInjective(txs[j].trigger, txs[k].trigger);
    }
  }

  /** A run fed by the standard poller, in whatever order blocks reach the database. */
  lemma StandardRunIsDistinct(c: Config, run: seq<State>, initial: int, snapshots: seq<seq<Pollers.Row>>, i: nat)
    requires ValidConfig(c) && IsRun(c, run) && i < |run|
    requires OneChain(snapshots) && Words(snapshots) && Fed(run, StandardNumbers(initial, snapshots))
    ensures DistinctTriggers(run[i]) && DistinctPrefixes(run[i])
  {
    StandardDelivers(initial, snapshots);
    FedRunIsDistinct(c, run, StandardNumbers(initial, snapshots), i);
  }

  /** A run fed by the graffiti poller. */
  lemma GraffitiRunIsDistinct(c: Config, run: seq<State>, dbs: seq<Pollers.Db>,
                              rows: seq<Option<Pollers.GraffitiRow>>, wanted: set<string>, i: nat)
    requires ValidConfig(c) && IsRun(c, run) && i < |run|
    requires NothingRepeats(dbs, rows, wanted) && Fed(run, GraffitiNumbers(rows, wanted))
    ensures DistinctTriggers(run[i]) && DistinctPrefixes(run[i])
  {
    GraffitiDelivers(dbs, rows, wanted);
    FedRunIsDistinct(c, run, GraffitiNumbers(rows, wanted), i);
  }

  // --- the collection's window ---

  /** A block delivered exists, so no submission is mined below its trigger. */
  predicate TriggersBelow(s: State) {
    && (!s.phase.Idle? ==> BlockOf(s.phase) <= s.head)
    && |s.outer| <= |s.txs|
    && (forall k | 0 <= k < |s.txs| :: s.txs[k].trigger <= s.head)
    && (forall k | 0 <= k < |s.outer| :: s.txs[k].trigger <= s.outer[k].block)
  }

  lemma StepKeepsBelow(c: Config, s: State, e: Event)
    requires ValidConfig(c) && Enabled(c, s, e) && TriggersBelow(s)
    ensures TriggersBelow(Apply(c, s, e))
  {
    var s' := Apply(c, s, e);
    forall k | 0 <= k < |s'.txs| ensures s'.txs[k].trigger <= s'.head {
      if k < |s.txs| {
        assert s'.txs[k].trigger == s.txs[k].trigger;
      }
    }
    forall k | 0 <= k < |s'.outer| ensures s'.txs[k].trigger <= s'.outer[k].block {
      assert s'.txs[k].trigger == s.txs[k].trigger;
    }
  }

  lemma {:induction false} RunBelow(c: Config, run: seq<State>, i: nat)
    requires ValidConfig(c) && IsRun(c, run) && i < |run|
    ensures TriggersBelow(run[i])
  {
    if i == 0 {
    } else {
      RunBelow(c, run, i - 1);
      var e := StepOf(c, run, i - 1);
      StepKeepsBelow(c, run[i - 1], e);
    }
  }

  /** A collection that starts at the run's first block drops none of the run's submissions in its range: the
      window on triggers is never what excludes one. */
  lemma WindowDropsNothing(c: Config, run: seq<State>, numbers: seq<nat>, j: nat, k: nat, endBlock: nat)
    requires ValidConfig(c) && IsRun(c, run) && Fed(run, numbers) && Deliverable(numbers) && j < |run|
    requires numbers != [] && Emitted(run[j], k, numbers[0], endBlock)
    ensures Collected(run[j], k, numbers[0], endBlock)
  {
    RunBelow(c, run, j);
    FedRunSends(c, run, numbers, j);
  }

  // --- the whole way ---

  /** A collection, through the shared cache and from the run's first block, of a run whose chain the
      collector's client sees. */
  ghost predicate Collection(env: Env, s: State, numbers: seq<nat>, cacheRun: seq<BC.State>, m: nat) {
    && Agrees(env, s)
    && numbers != [] && env.world.base == numbers[0]
    && BC.IsRun(env.world, cacheRun) && m < |cacheRun| && cacheRun[m].collector.Returned?
    && cacheRun[m].collector.at <= s.head
  }

  /** The submission of transaction k is among those counted successful. */
  predicate CountedSuccessful(s: State, k: nat, c: BC.Loop, base: nat, endBlock: nat)
    requires k < |s.outer| <= |s.txs| && BlockNumbers(s) && c.Returned?
  {
    SubmissionFor(s, k) in Counted(Submits(s, base, endBlock), c.out, true)
  }

  lemma DeliveredAndCollected(env: Env, run: seq<State>, numbers: seq<nat>, j: nat,
                              cacheRun: seq<BC.State>, m: nat, endBlock: nat, k: nat)
    requires ValidEnv(env) && IsRun(env.c, run) && Fed(run, numbers) && Deliverable(numbers) && j < |run|
    requires Collection(env, run[j], numbers, cacheRun, m) && Emitted(run[j], k, env.world.base, endBlock)
    ensures k < |run[j].outer| <= |run[j].txs| && BlockNumbers(run[j])
    ensures CountedSuccessful(run[j], k, cacheRun[m].collector, env.world.base, endBlock)
       <==> IncludedIn(run[j], k, env.world.base, cacheRun[m].collector.at)
  {
    FedRunIsDistinct(env.c, run, numbers, j);
    WindowDropsNothing(env.c, run, numbers, j, k, endBlock);
    CollectedThroughCache(env, run, j, cacheRun, m, endBlock, k);
  }

  /** From the standard poller through the tester, the chain, the shared cache and the join: a submission with
      an event in range is counted successful exactly when its own inner transaction lies in the blocks that the
      collection got to. Blocks may reach the database in any order, and a fetch may fail anywhere. */
  lemma StandardRunIsReconciled(env: Env, run: seq<State>, initial: int, snapshots: seq<seq<Pollers.Row>>, j: nat,
                                cacheRun: seq<BC.State>, m: nat, endBlock: nat, k: nat)
    requires ValidEnv(env) && IsRun(env.c, run) && j < |run|
    requires OneChain(snapshots) && Words(snapshots) && Fed(run, StandardNumbers(initial, snapshots))
    requires Collection(env, run[j], StandardNumbers(initial, snapshots), cacheRun, m)
    requires Emitted(run[j], k, env.world.base, endBlock)
    ensures k < |run[j].outer| <= |run[j].txs| && BlockNumbers(run[j])
    ensures CountedSuccessful(run[j], k, cacheRun[m].collector, env.world.base, endBlock)
       <==> IncludedIn(run[j], k, env.world.base, cacheRun[m].collector.at)
  {
    StandardDelivers(initial, snapshots);
    DeliveredAndCollected(env, run, StandardNumbers(initial, snapshots), j, cacheRun, m, endBlock, k);
  }

  /** And from the graffiti poller. */
  lemma GraffitiRunIsReconciled(env: Env, run: seq<State>, dbs: seq<Pollers.Db>,
                                rows: seq<Option<Pollers.GraffitiRow>>, wanted: set<string>, j: nat,
                                cacheRun: seq<BC.State>, m: nat, endBlock: nat, k: nat)
    requires ValidEnv(env) && IsRun(env.c, run) && j < |run|
    requires NothingRepeats(dbs, rows, wanted) && Fed(run, GraffitiNumbers(rows, wanted))
    requires Collection(env, run[j], GraffitiNumbers(rows, wanted), cacheRun, m)
    requires Emitted(run[j], k, env.world.base, endBlock)
    ensures k < |run[j].outer| <= |run[j].txs| && BlockNumbers(run[j])
    ensures CountedSuccessful(run[j], k, cacheRun[m].collector, env.world.base, endBlock)
       <==> IncludedIn(run[j], k, env.world.base, cacheRun[m].collector.at)
  {
    GraffitiDelivers(dbs, rows, wanted);
    DeliveredAndCollected(env, run, GraffitiNumbers(rows, wanted), j, cacheRun, m, endBlock, k);
  }
}
