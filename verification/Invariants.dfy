/** Every step of the machine keeps the invariant. One lemma per conjunct. */
module Invariants {
  import opened Lifecycle
  import opened Protocol

  lemma ShareNext(m: nat, n: nat)
    requires n > 0
    ensures Share(m, n, m % n) == m / n
    ensures forall a | 0 <= a < n :: Share(m + 1, n, a) == Share(m, n, a) + if a == m % n then 1 else 0
  {
    var q, r := m / n, m % n;
    assert m == n * q + r;
    if r == n - 1 {
      assert m + 1 == n * (q + 1);
      DivModUnique(m + 1, n, q + 1, 0);
    } else {
      DivModUnique(m + 1, n, q, r + 1);
    }
  }

  lemma DivModUnique(m: nat, n: nat, q: nat, r: nat)
    requires n > 0 && r < n && m == n * q + r
    ensures m / n == q && m % n == r
  {
    var d := m / n - q;
    assert n * d == r - m % n by {
      assert m == n * (m / n) + m % n;
      assert n * (m / n) == n * q + n * d;
    }
  }

  lemma SameDealt(c: Config, s: State, s': State)
    requires ValidConfig(c) && Dealt(c, s)
    requires s'.nonces == s.nonces && s'.submitNonce == s.submitNonce && |s'.txs| == |s.txs|
    requires forall k | 0 <= k < |s.txs| ::
               && s'.txs[k].sender == s.txs[k].sender && s'.txs[k].nonce == s.txs[k].nonce
               && s'.txs[k].outerNonce == s.txs[k].outerNonce
    ensures Dealt(c, s')
  {
  }

  lemma SendKeepsDealt(c: Config, s: State)
    requires ValidConfig(c) && Enabled(c, s, Send) && Dealt(c, s) && |s.inFlight| + |s.done| == |s.txs|
    ensures Dealt(c, Apply(c, s, Send))
  {
    ShareNext(|s.txs|, |c.init|);
  }

  lemma StepKeepsDealt(c: Config, s: State, e: Event)
    requires ValidConfig(c) && Enabled(c, s, e)
    requires Dealt(c, s) && ListsOk(s)
    ensures Dealt(c, Apply(c, s, e))
  {
    if e.Send? {
      SendKeepsDealt(c, s);
    } else {
      SameDealt(c, s, Apply(c, s, e));
    }
  }

  lemma StepKeepsWatchers(c: Config, s: State, e: Event)
    requires ValidConfig(c) && Enabled(c, s, e)
    requires WatchersOk(s) && SweepOk(s)
    ensures WatchersOk(Apply(c, s, e))
  {
    match e
    case Watch(id, m, _) => MoveKeepsWatcherOk(s.txs[id], m);
    case CompareBlock => CancelKeepsWatcherOk(s.txs[s.inFlight[s.phase.w.i]]);
    case Expire(id) => DeadlineKeepsWatcherOk(s.txs[id]);
    case _ =>
  }

  lemma InFlightKnown(s: State, i: nat)
    requires Partition(s.inFlight, s.done, |s.txs|) && i < |s.inFlight|
    ensures s.inFlight[i] < |s.txs|
    ensures s.inFlight[i] !in s.done
  {
    var k := s.inFlight[i];
    assert k in multiset(s.inFlight);
    assert multiset(s.done)[k] == 0;
  }

  lemma AddBoth(a: multiset<nat>, b: multiset<nat>, c: multiset<nat>, d: multiset<nat>, x: nat)
    requires a + b == c + d
    ensures a + multiset{x} + b == c + multiset{x} + d
    ensures a + (b + multiset{x}) == c + multiset{x} + d
  {
    assert a + multiset{x} + b == (a + b) + multiset{x};
    assert c + multiset{x} + d == (c + d) + multiset{x};
  }

  lemma OneMore(a: seq<nat>, b: seq<nat>, list: seq<nat>, done: seq<nat>, i: nat)
    requires i < |list| && multiset(a) + multiset(b) == multiset(list[..i]) + multiset(done)
    ensures multiset(a + [list[i]]) + multiset(b) == multiset(list[..i + 1]) + multiset(done)
    ensures multiset(a) + multiset(b + [list[i]]) == multiset(list[..i + 1]) + multiset(done)
  {
    assert list[..i + 1] == list[..i] + [list[i]];
    AddBoth(multiset(a), multiset(b), multiset(list[..i]), multiset(done), list[i]);
  }

  lemma BelowNext(a: seq<nat>, list: seq<nat>, i: nat)
    requires i < |list| && Increasing(list) && Increasing(a) && Below(a, list[i..])
    ensures Below(a, list[i + 1..])
    ensures Increasing(a + [list[i]]) && Below(a + [list[i]], list[i + 1..])
  {
    assert list[i..][0] == list[i];
    var next := list[i + 1..];
    assert forall j | 0 <= j < |next| :: next[j] == list[i..][j + 1];
  }

  lemma KeepWork(s: State, w: Work)
    requires WorkOk(s, w) && Increasing(s.inFlight) && w.i < |s.inFlight|
    ensures WorkOk(s, Keep(w, s.inFlight[w.i]))
    ensures WorkOk(s, Remove(w, s.inFlight[w.i]))
  {
    OneMore(w.kept, w.moved, s.inFlight, s.done, w.i);
    BelowNext(w.kept, s.inFlight, w.i);
  }

  lemma CommitLists(s: State)
    requires s.phase.Sorting? && ListsOk(s) && s.phase.w.i == |s.inFlight|
    ensures Partition(s.phase.w.kept, s.phase.w.moved, |s.txs|)
  {
    assert s.inFlight[..|s.inFlight|] == s.inFlight;
    var w := s.phase.w;
    forall k: nat ensures multiset(w.kept)[k] + multiset(w.moved)[k] == multiset(s.inFlight)[k] + multiset(s.done)[k] {
      assert (multiset(w.kept) + multiset(w.moved))[k] == (multiset(s.inFlight) + multiset(s.done))[k];
    }
  }

  lemma SendLists(s: State)
    requires Partition(s.inFlight, s.done, |s.txs|) && Increasing(s.inFlight)
    ensures Partition(s.inFlight + [|s.txs|], s.done, |s.txs| + 1)
    ensures Increasing(s.inFlight + [|s.txs|])
  {
    forall i | 0 <= i < |s.inFlight| ensures s.inFlight[i] < |s.txs| {
      InFlightKnown(s, i);
    }
  }

  lemma SweepStepKeepsLists(c: Config, s: State, e: Event)
    requires ValidConfig(c) && Enabled(c, s, e)
    requires ListsOk(s) && (e.ReadStatus? || e.CompareBlock?)
    ensures ListsOk(Apply(c, s, e))
  {
    var w, id := s.phase.w, s.inFlight[s.phase.w.i];
    KeepWork(s, w);
    var s' := Apply(c, s, e);
    assert s'.inFlight == s.inFlight && s'.done == s.done && |s'.txs| == |s.txs|;
    var w' := s'.phase.w;
    assert w'.i == w.i || (w'.i == w.i + 1 && w'.kept == Keep(w, id).kept && w'.moved == w.moved)
        || (w'.i == w.i + 1 && w'.kept == w.kept && w'.moved == Remove(w, id).moved);
    SameWork(s, s', if w'.i == w.i then w else if w'.moved == w.moved then Keep(w, id) else Remove(w, id), w');
  }

  lemma SameWork(s: State, s': State, w: Work, w': Work)
    requires WorkOk(s, w)
    requires s'.inFlight == s.inFlight && s'.done == s.done
    requires w'.i == w.i && w'.kept == w.kept && w'.moved == w.moved
    ensures WorkOk(s', w')
  {
  }

  lemma StepKeepsLists(c: Config, s: State, e: Event)
    requires ValidConfig(c) && Enabled(c, s, e)
    requires ListsOk(s)
    ensures ListsOk(Apply(c, s, e))
  {
    if e.ReadStatus? || e.CompareBlock? {
      SweepStepKeepsLists(c, s, e);
    } else if e.EndReading? {
      assert s.inFlight[..0] == [];
    } else if e.Commit? {
      CommitLists(s);
    } else if e.Send? {
      SendLists(s);
    } else {
      var s' := Apply(c, s, e);
      assert s'.inFlight == s.inFlight && s'.done == s.done && |s'.txs| == |s.txs|;
    }
  }

  /** A transaction the sweep has not reached yet was not cancelled before. */
  lemma UnsortedNotMoved(s: State, w: Work)
    requires WorkOk(s, w) && Partition(s.inFlight, s.done, |s.txs|) && w.i < |s.inFlight|
    ensures s.inFlight[w.i] !in w.moved
  {
    var k := s.inFlight[w.i];
    InFlightKnown(s, w.i);
    assert s.inFlight == s.inFlight[..w.i] + [k] + s.inFlight[w.i + 1..];
    assert multiset(s.inFlight)[k] >= multiset(s.inFlight[..w.i])[k] + 1;
    assert (multiset(w.kept) + multiset(w.moved))[k] == 0;
    assert multiset(w.moved)[k] == 0;
  }

  lemma WatchCancelsNobody(t: Tx, m: Move)
    requires WatcherOk(t) && CanMove(t, m) && WasCancelled(Moved(t, m))
    ensures WasCancelled(t)
  {
  }

  lemma StepKeepsCancelledDone(c: Config, s: State, e: Event)
    requires ValidConfig(c) && Enabled(c, s, e)
    requires ListsOk(s) && WatchersOk(s) && CancelledAreDone(s)
    ensures CancelledAreDone(Apply(c, s, e))
  {
    var s' := Apply(c, s, e);
    forall k | 0 <= k < |s'.txs| && WasCancelled(s'.txs[k]) ensures k in DoneSoFar(s') {
      if e.Watch? && e.id == k {
        WatchCancelsNobody(s.txs[k], e.m);
      }
    }
  }

  // --- why a sweep cancels ---

  lemma ReadingWitness(c: Config, s: State)
    requires ValidConfig(c) && Enabled(c, s, ReadInclusion) && SweepOk(s)
    ensures SweepOk(Apply(c, s, ReadInclusion))
  {
    var s' := Apply(c, s, ReadInclusion);
    var id := s.inFlight[s.phase.at];
    if s.txs[id].inclusionBlock > s.phase.seen {
      assert Witness(s', id);
    } else if s.phase.seen != 0 {
      var u: nat :| Witness(s, u);
      assert Witness(s', u);
    }
  }

  /** Witnesses survive a step that changes no inclusion block in sight. */
  lemma WitnessStays(s: State, s': State, k: nat)
    requires WitnessBut(s, k) && HighSoFar(s') == HighSoFar(s)
    requires |s.txs| <= |s'.txs|
    requires forall u | 0 <= u < |s.txs| && s.txs[u].inclusionBlock != 0 ::
               s'.txs[u].inclusionBlock == s.txs[u].inclusionBlock
    requires forall u | Listed(s, u) :: Listed(s', u)
    ensures WitnessBut(s', k)
  {
    if HighSoFar(s') != 0 {
      var u: nat :| Witness(s, u) && u != k;
      assert Witness(s', u);
    }
  }

  /** The highest inclusion was recorded by a watcher that is done, so not by one read as Sequenced. */
  lemma WitnessIsNotSequenced(s: State, id: nat)
    requires WatchersOk(s) && id < |s.txs| && s.txs[id].status == Sequenced
    requires HighSoFar(s) != 0 ==> exists u :: Witness(s, u)
    ensures WitnessBut(s, id)
  {
    if HighSoFar(s) != 0 {
      var u: nat :| Witness(s, u);
      assert s.txs[u].pc == Exited(Landed);
    }
  }

  lemma ReadStatusKeepsSweepOk(c: Config, s: State)
    requires ValidConfig(c) && Enabled(c, s, ReadStatus) && SweepOk(s) && WatchersOk(s)
    ensures SweepOk(Apply(c, s, ReadStatus))
  {
    if s.txs[s.inFlight[s.phase.w.i]].status == Sequenced {
      ReadSequencedKeepsSweepOk(c, s);
    } else {
      ReadOtherKeepsSweepOk(c, s);
    }
  }

  lemma ReadSequencedKeepsSweepOk(c: Config, s: State)
    requires ValidConfig(c) && Enabled(c, s, ReadStatus) && SweepOk(s) && WatchersOk(s)
    requires s.txs[s.inFlight[s.phase.w.i]].status == Sequenced
    ensures SweepOk(Apply(c, s, ReadStatus))
  {
    var s' := Apply(c, s, ReadStatus);
    var id := s.inFlight[s.phase.w.i];
    assert forall u :: Witness(s, u) <==> Witness(s', u);
    WitnessIsNotSequenced(s, id);
    WitnessStays(s, s', id);
    forall k | k in s.phase.w.cancelled ensures WitnessBut(s', k) {
      WitnessStays(s, s', k);
    }
  }

  lemma ReadOtherKeepsSweepOk(c: Config, s: State)
    requires ValidConfig(c) && Enabled(c, s, ReadStatus) && SweepOk(s)
    requires s.txs[s.inFlight[s.phase.w.i]].status != Sequenced
    ensures SweepOk(Apply(c, s, ReadStatus))
  {
    var s' := Apply(c, s, ReadStatus);
    assert forall u :: Witness(s, u) <==> Witness(s', u);
    forall k | k in s.phase.w.cancelled ensures WitnessBut(s', k) {
      WitnessStays(s, s', k);
    }
  }

  lemma CompareKeepsSweepOk(c: Config, s: State)
    requires ValidConfig(c) && Enabled(c, s, CompareBlock) && SweepOk(s)
    ensures SweepOk(Apply(c, s, CompareBlock))
  {
    var s' := Apply(c, s, CompareBlock);
    var id := s.inFlight[s.phase.w.i];
    if HighSoFar(s) != 0 {
      var u: nat :| Witness(s, u);
      assert Witness(s', u);
    }
    WitnessStays(s, s', id);
    forall k | k in s.phase.w.cancelled ensures WitnessBut(s', k) {
      WitnessStays(s, s', k);
    }
  }

  lemma CommitKeepsSweepOk(c: Config, s: State)
    requires ValidConfig(c) && Enabled(c, s, Commit) && SweepOk(s) && ListsOk(s)
    ensures SweepOk(Apply(c, s, Commit))
  {
    var s' := Apply(c, s, Commit);
    CommitLists(s);
    forall u | u in s.inFlight ensures Listed(s', u) {
      assert multiset(s.inFlight)[u] >= 1;
      assert u < |s.txs|;
      assert multiset(s'.inFlight)[u] + multiset(s'.done)[u] == 1;
    }
    if HighSoFar(s) != 0 {
      var u: nat :| Witness(s, u);
      assert Witness(s', u);
    }
    forall k | k in s.phase.w.cancelled ensures WitnessBut(s', k) {
      WitnessStays(s, s', k);
    }
  }

  /** Steps of watchers, deadlines and the chain leave a running sweep's reasons standing. */
  lemma OtherStepKeepsSweepOk(s: State, s': State)
    requires SweepOk(s) && WatchersOk(s)
    requires s'.phase == s.phase && s'.inFlight == s.inFlight && s'.done == s.done && |s'.txs| == |s.txs|
    requires forall k | 0 <= k < |s.txs| :: Later(s.txs[k], s'.txs[k])
    ensures SweepOk(s')
  {
    if HighSoFar(s) != 0 {
      var u: nat :| Witness(s, u);
      assert Witness(s', u);
    }
    if s.phase.Comparing? {
      WitnessStays(s, s', s.inFlight[s.phase.w.i]);
    }
    if HasWork(s) {
      forall k | k in s.phase.w.cancelled ensures CancelOk(s', s.phase.w, k) && WitnessBut(s', k) {
        WitnessStays(s, s', k);
      }
    }
  }

  /** What a running sweep relies on: block numbers are written once, and the first select is passed once. */
  predicate Later(t: Tx, u: Tx) {
    && (PassedFirstSelect(t.pc) ==> PassedFirstSelect(u.pc))
    && (t.submissionBlock != 0 ==> u.submissionBlock == t.submissionBlock)
    && (t.inclusionBlock != 0 ==> u.inclusionBlock == t.inclusionBlock)
  }

  lemma StepKeepsSweepOk(c: Config, s: State, e: Event)
    requires ValidConfig(c) && Enabled(c, s, e)
    requires SweepOk(s) && WatchersOk(s) && ListsOk(s)
    ensures SweepOk(Apply(c, s, e))
  {
    match e
    case BeginSweep(_) =>
    case ReadInclusion => ReadingWitness(c, s);
    case EndReading =>
      if HighSoFar(s) != 0 {
        var u: nat :| Witness(s, u);
        assert Witness(Apply(c, s, e), u);
      }
    case ReadStatus => ReadStatusKeepsSweepOk(c, s);
    case CompareBlock => CompareKeepsSweepOk(c, s);
    case Commit => CommitKeepsSweepOk(c, s);
    case Send =>
    case Watch(id, m, _) =>
      MoveKeepsWatcherOk(s.txs[id], m);
      OtherStepKeepsSweepOk(s, Apply(c, s, e));
    case _ => OtherStepKeepsSweepOk(s, Apply(c, s, e));
  }

  // --- the chain ---

  lemma HasStays(s: State, s': State, kind: Kind, id: nat)
    requires Has(s, kind, id) && s.chain <= s'.chain
    ensures Has(s', kind, id)
  {
    var i :| 0 <= i < |s.chain| && s.chain[i].spend.kind == kind && s.chain[i].spend.id == id;
    assert s'.chain[i] == s.chain[i];
  }

  /** The chain grows by one transaction that carries its sender's next nonce. */
  lemma MiningKeepsLogOk(c: Config, s: State, p: Spend)
    requires ValidConfig(c) && LogOk(c, s) && SpendOk(s, p) && p.sender < |c.init|
    requires p.nonce == ChainNonce(c, s.chain, p.sender)
    ensures LogOk(c, s.(chain := s.chain + [Mined(p, s.head)]))
  {
    var s' := s.(chain := s.chain + [Mined(p, s.head)]);
    forall i | 0 <= i < |s'.chain|
      ensures SpendOk(s', s'.chain[i].spend)
      ensures s'.chain[i].spend.sender < |c.init|
      ensures s'.chain[i].spend.nonce == ChainNonce(c, s'.chain[..i], s'.chain[i].spend.sender)
    {
      if i < |s.chain| {
        assert s'.chain[..i] == s.chain[..i] && s'.chain[i] == s.chain[i];
      } else {
        assert s'.chain[..i] == s.chain;
      }
    }
  }

  lemma StepKeepsLogOk(c: Config, s: State, e: Event)
    requires ValidConfig(c) && Enabled(c, s, e)
    requires LogOk(c, s) && PendingOk(s)
    ensures LogOk(c, Apply(c, s, e)) && PendingOk(Apply(c, s, e))
  {
    if e.MineInner? {
      MineInnerKeepsLogOk(c, s, e.id);
    } else if e.MineForfeit? {
      MineForfeitKeepsLogOk(c, s, e.at);
    } else {
      SpendsStay(c, s, Apply(c, s, e));
    }
  }

  lemma MineInnerKeepsLogOk(c: Config, s: State, id: nat)
    requires ValidConfig(c) && Enabled(c, s, MineInner(id))
    requires LogOk(c, s) && PendingOk(s)
    ensures LogOk(c, Apply(c, s, MineInner(id))) && PendingOk(Apply(c, s, MineInner(id)))
  {
    MiningKeepsLogOk(c, s, SpendOf(Inner, s.txs[id], id));
    MiningKeepsPending(s, Apply(c, s, MineInner(id)));
  }

  lemma MineForfeitKeepsLogOk(c: Config, s: State, at: nat)
    requires ValidConfig(c) && Enabled(c, s, MineForfeit(at))
    requires LogOk(c, s) && PendingOk(s)
    ensures LogOk(c, Apply(c, s, MineForfeit(at))) && PendingOk(Apply(c, s, MineForfeit(at)))
  {
    MiningKeepsLogOk(c, s, s.pending[at]);
    MiningKeepsPending(s, Apply(c, s, MineForfeit(at)));
  }

  lemma MiningKeepsPending(s: State, s': State)
    requires PendingOk(s) && s'.txs == s.txs && s'.pending == s.pending
    ensures PendingOk(s')
  {
  }

  lemma SpendsStay(c: Config, s: State, s': State)
    requires ValidConfig(c) && LogOk(c, s) && PendingOk(s)
    requires s'.chain == s.chain && s'.head >= s.head
    requires |s.txs| <= |s'.txs|
    requires forall k | 0 <= k < |s.txs| :: s'.txs[k].sender == s.txs[k].sender && s'.txs[k].nonce == s.txs[k].nonce
    requires s.pending <= s'.pending
    requires forall i | |s.pending| <= i < |s'.pending| :: SpendOk(s', s'.pending[i]) && s'.pending[i].kind.Forfeit?
    ensures LogOk(c, s') && PendingOk(s')
  {
    forall i | 0 <= i < |s'.pending| ensures SpendOk(s', s'.pending[i]) && s'.pending[i].kind.Forfeit? {
      if i < |s.pending| {
        assert s'.pending[i] == s.pending[i];
      }
    }
    forall i | 0 <= i < |s'.chain| ensures SpendOk(s', s'.chain[i].spend) {
      assert SpendOk(s, s.chain[i].spend);
    }
  }

  lemma StepKeepsClaims(c: Config, s: State, e: Event)
    requires ValidConfig(c) && Enabled(c, s, e)
    requires ClaimsOk(s) && WatchersOk(s)
    ensures ClaimsOk(Apply(c, s, e))
  {
    var s' := Apply(c, s, e);
    forall k | 0 <= k < |s'.txs|
      ensures ClaimsInner(s'.txs[k].pc) ==> Has(s', Inner, k)
      ensures ClaimsForfeit(s'.txs[k].pc) ==> Has(s', Forfeit, k)
    {
      if k < |s.txs| {
        if ClaimsInner(s.txs[k].pc) { HasStays(s, s', Inner, k); }
        if ClaimsForfeit(s.txs[k].pc) { HasStays(s, s', Forfeit, k); }
        if e.Watch? && e.id == k { WatchClaims(c, s, e); }
      }
    }
  }

  lemma WatchClaims(c: Config, s: State, e: Event)
    requires ValidConfig(c) && Enabled(c, s, e) && e.Watch?
    requires ClaimsOk(s) && WatchersOk(s)
    ensures ClaimsInner(Moved(s.txs[e.id], e.m).pc) ==> Has(s, Inner, e.id)
    ensures ClaimsForfeit(Moved(s.txs[e.id], e.m).pc) ==> Has(s, Forfeit, e.id)
  {
  }

  lemma InitInv(c: Config)
    requires ValidConfig(c)
    ensures Inv(c, Init(c))
  {
  }

  lemma StepKeepsInv(c: Config, s: State, e: Event)
    requires ValidConfig(c) && Enabled(c, s, e) && Inv(c, s)
    ensures Inv(c, Apply(c, s, e))
  {
    StepKeepsDealt(c, s, e);
    StepKeepsLists(c, s, e);
    StepKeepsWatchers(c, s, e);
    StepKeepsCancelledDone(c, s, e);
    StepKeepsSweepOk(c, s, e);
    StepKeepsLogOk(c, s, e);
    StepKeepsClaims(c, s, e);
  }

  /** The event behind step i of a run. */
  lemma StepOf(c: Config, run: seq<State>, i: nat) returns (e: Event)
    requires ValidConfig(c) && IsRun(c, run) && i + 1 < |run|
    ensures Enabled(c, run[i], e) && run[i + 1] == Apply(c, run[i], e)
  {
    assert StepAt(c, run, i);
    e :| Enabled(c, run[i], e) && run[i + 1] == Apply(c, run[i], e);
  }

  lemma NextInv(c: Config, run: seq<State>, i: nat)
    requires ValidConfig(c) && IsRun(c, run) && i + 1 < |run| && Inv(c, run[i])
    ensures Inv(c, run[i + 1])
  {
    var e := StepOf(c, run, i);
    StepKeepsInv(c, run[i], e);
  }

  /** The invariant holds in every state of every run. */
  lemma {:induction false} RunInv(c: Config, run: seq<State>, i: nat)
    requires ValidConfig(c) && IsRun(c, run) && i < |run|
    ensures Inv(c, run[i])
  {
    if i == 0 {
      InitInv(c);
    } else {
      RunInv(c, run, i - 1);
      NextInv(c, run, i - 1);
    }
  }
}
