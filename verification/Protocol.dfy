/** The continuous tester as a step machine: the driver (main.go, sweep then send), one watcher per
    transaction, the contexts' deadlines, and a chain that consumes each sender's nonces in order.

    The driver is the only goroutine that touches the two lists, so "the status lock is free" is
    phase Idle or Swept. Reads and writes of shared fields are single steps, in any interleaving. */
module Protocol {
  import opened Lifecycle

  /** The accounts' nonces and the submit account's nonce when the run starts. */
  datatype Config = Config(init: seq<nat>, submit0: nat)

  predicate ValidConfig(c: Config) { |c.init| > 0 }

  datatype Kind = Inner | Forfeit

  /** A transaction using `sender`'s nonce: transaction `id` itself or the forfeit sent for it. */
  datatype Spend = Spend(kind: Kind, id: nat, sender: nat, nonce: nat)
  datatype Mined = Mined(spend: Spend, block: nat)
  datatype OuterReceipt = OuterReceipt(ok: bool, block: nat)

  /** Local variables of a running sweep. `cancelled` maps each transaction cancelled so far to the
      submission block that was read for it; `held` are those read as Sequenced and left alone. */
  datatype Work = Work(
    block: nat, i: nat, high: nat, kept: seq<nat>, moved: seq<nat>, cancelled: map<nat, nat>, held: set<nat>)

  datatype Phase =
    | Idle
    | Reading(block: nat, at: nat, seen: nat)
    | Sorting(w: Work)
    | Comparing(w: Work)
    | Swept(w: Work)

  datatype State = State(
    txs: seq<Tx>,
    inFlight: seq<nat>,
    done: seq<nat>,
    nonces: seq<nat>,
    submitNonce: nat,
    phase: Phase,
    chain: seq<Mined>,
    outer: seq<OuterReceipt>,
    pending: seq<Spend>,
    head: nat,
    crashed: bool)

  /** A sweep begins with the delivery of a block, which exists by then. */
  datatype Event =
    | BeginSweep(block: nat)
    | ReadInclusion
    | EndReading
    | ReadStatus
    | CompareBlock
    | Commit
    | Send
    | Watch(id: nat, m: Move, at: nat)
    | Expire(id: nat)
    | NewBlock
    | MineOuter(ok: bool)
    | MineInner(id: nat)
    | MineForfeit(at: nat)

  function Init(c: Config): State {
    State([], [], [], c.init, c.submit0, Idle, [], [], [], 1, false)
  }

  function Count(chain: seq<Mined>, a: nat): nat {
    if chain == [] then 0
    else Count(chain[..|chain| - 1], a) + if chain[|chain| - 1].spend.sender == a then 1 else 0
  }

  function ChainNonce(c: Config, chain: seq<Mined>, a: nat): nat
    requires a < |c.init|
  {
    c.init[a] + Count(chain, a)
  }

  /** A watcher learns of a receipt only when the chain has it. */
  predicate Observed(s: State, id: nat, m: Move, at: nat)
    requires id < |s.txs|
  {
    match m
    case Returns(Receipt(ok, block)) =>
      if s.txs[id].pc.FirstWait? then id < |s.outer| && s.outer[id] == OuterReceipt(ok, block)
      else at < |s.chain| && s.chain[at] == Mined(SpendOf(Inner, s.txs[id], id), block)
    case Settle(mined) =>
      mined ==> at < |s.chain| && s.chain[at].spend == SpendOf(Forfeit, s.txs[id], id)
    case _ => true
  }

  function SpendOf(kind: Kind, t: Tx, id: nat): Spend {
    Spend(kind, id, t.sender, t.nonce)
  }

  /** The inner transaction travels encrypted in the outer one: without a successful submission nobody
      else gets to know it. */
  predicate Revealed(s: State, id: nat) { id < |s.outer| && s.outer[id].ok }

  predicate Refused(s: State, id: nat) { id < |s.outer| && !s.outer[id].ok }

  predicate Enabled(c: Config, s: State, e: Event)
    requires ValidConfig(c)
  {
    match e
    case BeginSweep(block) => !s.crashed && s.phase.Idle? && block <= s.head
    case ReadInclusion =>
      !s.crashed && s.phase.Reading? && s.phase.at < |s.inFlight| && s.inFlight[s.phase.at] < |s.txs|
    case EndReading => !s.crashed && s.phase.Reading? && s.phase.at == |s.inFlight|
    case ReadStatus => !s.crashed && s.phase.Sorting? && s.phase.w.i < |s.inFlight| && s.inFlight[s.phase.w.i] < |s.txs|
    case CompareBlock =>
      !s.crashed && s.phase.Comparing? && s.phase.w.i < |s.inFlight| && s.inFlight[s.phase.w.i] < |s.txs|
    case Commit => !s.crashed && s.phase.Sorting? && s.phase.w.i == |s.inFlight|
    case Send => !s.crashed && s.phase.Swept? && |s.nonces| == |c.init|
    case Watch(id, m, at) => !s.crashed && id < |s.txs| && CanMove(s.txs[id], m) && Observed(s, id, m, at)
    case Expire(id) => id < |s.txs| && s.txs[id].ctx.Live?
    case NewBlock => true
    case MineOuter(_) => |s.outer| < |s.txs|
    case MineInner(id) =>
      && id < |s.txs| && Revealed(s, id) && s.txs[id].sender < |c.init|
      && s.txs[id].nonce == ChainNonce(c, s.chain, s.txs[id].sender)
    case MineForfeit(at) =>
      && at < |s.pending| && s.pending[at].sender < |c.init|
      && s.pending[at].nonce == ChainNonce(c, s.chain, s.pending[at].sender)
  }

  function Apply(c: Config, s: State, e: Event): State
    requires ValidConfig(c) && Enabled(c, s, e)
  {
    match e
    case BeginSweep(block) => s.(phase := Reading(block, 0, 0))
    case ReadInclusion =>
      var b := s.txs[s.inFlight[s.phase.at]].inclusionBlock;
      s.(phase := Reading(s.phase.block, s.phase.at + 1, if b > s.phase.seen then b else s.phase.seen))
    case EndReading => s.(phase := Sorting(Work(s.phase.block, 0, s.phase.seen, [], s.done, map[], {})))
    case ReadStatus =>
      var w, id := s.phase.w, s.inFlight[s.phase.w.i];
      (match s.txs[id].status
       case Sequenced => s.(phase := Comparing(w))
       case Included => s.(phase := Sorting(Remove(w, id)))
       case SystemFailure => s.(phase := Sorting(Remove(w, id)))
       case Signed | NotSequenced | NotIncluded => s.(phase := Sorting(Keep(w, id))))
    case CompareBlock =>
      var w, id := s.phase.w, s.inFlight[s.phase.w.i];
      var t := s.txs[id];
      if w.high > t.submissionBlock then
        s.(txs := s.txs[id := t.(ctx := Cancel(t.ctx))],
           phase := Sorting(Remove(w, id).(cancelled := w.cancelled[id := t.submissionBlock])))
      else
        s.(phase := Sorting(Keep(w, id).(held := w.held + {id})))
    case Commit => s.(inFlight := s.phase.w.kept, done := s.phase.w.moved, phase := Swept(s.phase.w))
    case Send =>
      var a := (|s.inFlight| + |s.done|) % |s.nonces|;
      s.(txs := s.txs + [NewTx(a, s.nonces[a], s.submitNonce, s.phase.w.block)],
         inFlight := s.inFlight + [|s.txs|],
         nonces := s.nonces[a := s.nonces[a] + 1],
         submitNonce := s.submitNonce + 1,
         phase := Idle)
    case Watch(id, m, _) =>
      var t := Moved(s.txs[id], m);
      s.(txs := s.txs[id := t],
         pending := if m.Broadcast? then s.pending + [SpendOf(Forfeit, t, id)] else s.pending,
         crashed := t.pc == Exited(Panicked))
    case Expire(id) => s.(txs := s.txs[id := s.txs[id].(ctx := DeadlineExceeded)])
    case NewBlock => s.(head := s.head + 1)
    case MineOuter(ok) => s.(outer := s.outer + [OuterReceipt(ok, s.head)])
    case MineInner(id) => s.(chain := s.chain + [Mined(SpendOf(Inner, s.txs[id], id), s.head)])
    case MineForfeit(at) => s.(chain := s.chain + [Mined(s.pending[at], s.head)])
  }

  function Keep(w: Work, id: nat): Work { w.(i := w.i + 1, kept := w.kept + [id]) }

  function Remove(w: Work, id: nat): Work { w.(i := w.i + 1, moved := w.moved + [id]) }

  ghost predicate Next(c: Config, s: State, s': State)
    requires ValidConfig(c)
  {
    exists e :: Enabled(c, s, e) && s' == Apply(c, s, e)
  }

  ghost predicate IsRun(c: Config, run: seq<State>)
    requires ValidConfig(c)
  {
    && |run| > 0
    && run[0] == Init(c)
    && forall i | 0 <= i < |run| - 1 :: StepAt(c, run, i)
  }

  ghost predicate StepAt(c: Config, run: seq<State>, i: nat)
    requires ValidConfig(c) && i + 1 < |run|
  {
    Next(c, run[i], run[i + 1])
  }

  // --- invariant 1: who sends what ---

  /** How many of the first m transactions fall on account a of n. */
  function Share(m: nat, n: nat, a: nat): nat
    requires a < n
  {
    m / n + if a < m % n then 1 else 0
  }

  /** Transaction k, counted from 0, uses account k mod n with that account's (k div n)-th nonce and
      the submit account's k-th nonce. */
  predicate Dealt(c: Config, s: State)
    requires ValidConfig(c)
  {
    var n := |c.init|;
    && |s.nonces| == n
    && s.submitNonce == c.submit0 + |s.txs|
    && (forall a | 0 <= a < n :: s.nonces[a] == c.init[a] + Share(|s.txs|, n, a))
    && (forall k | 0 <= k < |s.txs| ::
          && s.txs[k].sender == k % n
          && s.txs[k].nonce == c.init[k % n] + k / n
          && s.txs[k].outerNonce == c.submit0 + k)
  }

  // --- invariant 2: the lists ---

  /** Between them the two lists hold 0 .. n - 1, each exactly once. */
  ghost predicate Partition(a: seq<nat>, b: seq<nat>, n: nat) {
    && |a| + |b| == n
    && forall k: nat :: multiset(a)[k] + multiset(b)[k] == if k < n then 1 else 0
  }

  predicate Increasing(a: seq<nat>) {
    forall i, j | 0 <= i < j < |a| :: a[i] < a[j]
  }

  predicate Below(a: seq<nat>, b: seq<nat>) {
    forall i, j | 0 <= i < |a| && 0 <= j < |b| :: a[i] < b[j]
  }

  /** A half-done sweep: what was kept and what was moved make up what was read, in order. */
  ghost predicate WorkOk(s: State, w: Work) {
    && w.i <= |s.inFlight|
    && |w.kept| + |w.moved| == w.i + |s.done|
    && multiset(w.kept) + multiset(w.moved) == multiset(s.inFlight[..w.i]) + multiset(s.done)
    && s.done <= w.moved
    && Increasing(w.kept) && Below(w.kept, s.inFlight[w.i..])
  }

  ghost predicate ListsOk(s: State) {
    && Partition(s.inFlight, s.done, |s.txs|)
    && Increasing(s.inFlight)
    && (s.phase.Sorting? || s.phase.Comparing? ==> WorkOk(s, s.phase.w))
  }

  // --- invariant 3: the watchers, and where cancelled transactions are ---

  predicate WatchersOk(s: State) {
    forall k | 0 <= k < |s.txs| :: WatcherOk(s.txs[k])
  }

  /** The list that the done list is, or is about to become. */
  function DoneSoFar(s: State): seq<nat> {
    if s.phase.Sorting? || s.phase.Comparing? then s.phase.w.moved else s.done
  }

  /** The context of t was cancelled while its watcher was still running. */
  predicate WasCancelled(t: Tx) {
    || (t.ctx.Canceled? && !t.pc.Exited?)
    || (t.pc.Exited? && t.pc.how.Forfeited? && t.pc.how.reason.Superseded?)
  }

  predicate CancelledAreDone(s: State) {
    forall k | 0 <= k < |s.txs| && WasCancelled(s.txs[k]) :: k in DoneSoFar(s)
  }

  // --- invariant 4: why a sweep cancels ---

  predicate HasWork(s: State) {
    s.phase.Sorting? || s.phase.Comparing? || s.phase.Swept?
  }

  function HighSoFar(s: State): nat {
    match s.phase
    case Idle => 0
    case Reading(_, _, seen) => seen
    case Sorting(w) => w.high
    case Comparing(w) => w.high
    case Swept(w) => w.high
  }

  /** The list the running sweep reads, as far as it can be told from the state. */
  predicate Listed(s: State, u: nat) {
    if s.phase.Swept? then u in s.inFlight || u in s.done else u in s.inFlight
  }

  predicate Witness(s: State, u: nat) {
    && u < |s.txs| && Listed(s, u)
    && s.txs[u].inclusionBlock == HighSoFar(s)
  }

  predicate CancelOk(s: State, w: Work, k: nat) {
    && k < |s.txs| && k in DoneSoFar(s)
    && k in w.cancelled && w.high > w.cancelled[k]
    && PassedFirstSelect(s.txs[k].pc)
    && (w.cancelled[k] == s.txs[k].submissionBlock || w.cancelled[k] == 0)
  }

  predicate HeldOk(s: State, w: Work, k: nat) {
    && k < |s.txs|
    && (if s.phase.Swept? then k in s.inFlight else k in w.kept)
    && s.txs[k].submissionBlock >= w.high
  }

  /** The transaction whose submission block is about to be read was read as Sequenced just before;
      its watcher may have moved on since. */
  ghost predicate ComparingOk(s: State, w: Work) {
    && w.i < |s.inFlight| && s.inFlight[w.i] < |s.txs|
    && PassedFirstSelect(s.txs[s.inFlight[w.i]].pc)
    && WitnessBut(s, s.inFlight[w.i])
  }

  /** If the sweep saw an inclusion at all, it saw the highest one on a transaction other than k. */
  ghost predicate WitnessBut(s: State, k: nat) {
    HighSoFar(s) != 0 ==> exists u :: Witness(s, u) && u != k
  }

  ghost predicate SweepOk(s: State) {
    && (HighSoFar(s) != 0 ==> exists u :: Witness(s, u))
    && (s.phase.Comparing? ==> ComparingOk(s, s.phase.w))
    && (HasWork(s) ==>
          && (forall k | k in s.phase.w.cancelled :: CancelOk(s, s.phase.w, k) && WitnessBut(s, k))
          && (forall k | k in s.phase.w.held :: HeldOk(s, s.phase.w, k)))
  }

  // --- invariant 5: the chain ---

  predicate SpendOk(s: State, p: Spend) {
    p.id < |s.txs| && p == SpendOf(p.kind, s.txs[p.id], p.id)
  }

  ghost predicate Has(s: State, kind: Kind, id: nat) {
    exists i | 0 <= i < |s.chain| :: s.chain[i].spend.kind == kind && s.chain[i].spend.id == id
  }

  predicate ClaimsInner(pc: Pc) {
    || (pc.SecondSelect? && pc.got.Receipt?) || pc.WriteInclusion? || pc == Exited(Landed)
  }

  predicate ClaimsForfeit(pc: Pc) {
    || (pc.Closing? && pc.mined)
    || (pc.Exited? && pc.how.Forfeited? && pc.how.mined)
  }

  /** Every forfeit on its way spends the nonce of the transaction it stands in for. */
  predicate PendingOk(s: State) {
    forall i | 0 <= i < |s.pending| :: SpendOk(s, s.pending[i]) && s.pending[i].kind.Forfeit?
  }

  /** The chain's log: own transactions only, each sender's nonces in order, blocks in order. */
  predicate LogOk(c: Config, s: State)
    requires ValidConfig(c)
  {
    && (forall i | 0 <= i < |s.chain| ::
          && SpendOk(s, s.chain[i].spend)
          && s.chain[i].spend.sender < |c.init|
          && s.chain[i].spend.nonce == ChainNonce(c, s.chain[..i], s.chain[i].spend.sender))
    && (forall i | 0 <= i < |s.chain| :: s.chain[i].block <= s.head)
    && (forall i, j | 0 <= i < j < |s.chain| :: s.chain[i].block <= s.chain[j].block)
  }

  /** What a watcher believes to be mined is mined. */
  ghost predicate ClaimsOk(s: State) {
    forall k | 0 <= k < |s.txs| ::
      && (ClaimsInner(s.txs[k].pc) ==> Has(s, Inner, k))
      && (ClaimsForfeit(s.txs[k].pc) ==> Has(s, Forfeit, k))
  }

  ghost predicate ChainOk(c: Config, s: State)
    requires ValidConfig(c)
  {
    PendingOk(s) && LogOk(c, s) && ClaimsOk(s)
  }

  ghost predicate Inv(c: Config, s: State)
    requires ValidConfig(c)
  {
    Dealt(c, s) && ListsOk(s) && WatchersOk(s) && CancelledAreDone(s) && SweepOk(s) && ChainOk(c, s)
  }
}
