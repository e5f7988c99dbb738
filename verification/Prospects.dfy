/** Which transactions can still be included? The exact condition under which a transaction stays out of the
    chain in every continuation of a run. */
module Prospects {
  import opened Lifecycle
  import opened Protocol
  import opened Invariants
  import opened Runs
  import opened Nonces
  import opened Scenarios

  // --- what the outer transactions and the pending forfeits say about a watcher ---

  ghost predicate Pended(s: State, k: nat) {
    exists a :: 0 <= a < |s.pending| && s.pending[a].id == k
  }

  ghost predicate SourceOk(s: State, k: nat)
    requires k < |s.txs|
  {
    var pc := s.txs[k].pc;
    && (PassedFirstSelect(pc) ==> Revealed(s, k))
    && (pc.FirstSelect? && pc.got.Receipt? ==> k < |s.outer| && s.outer[k] == OuterReceipt(pc.got.ok, pc.got.block))
    && (pc.AwaitForfeit? ==> Pended(s, k))
  }

  /** No watcher is past its first select, and no inner transaction mined, without a successful submission. */
  ghost predicate SourcesOk(s: State) {
    && (forall k | 0 <= k < |s.txs| :: SourceOk(s, k))
    && (forall i | 0 <= i < |s.chain| && s.chain[i].spend.kind.Inner? :: Revealed(s, s.chain[i].spend.id))
  }

  lemma SourceStays(s: State, s': State, k: nat)
    requires k < |s.txs| && SourceOk(s, k) && k < |s'.txs| && s'.txs[k].pc == s.txs[k].pc
    requires s.outer <= s'.outer && s.pending <= s'.pending
    ensures SourceOk(s', k)
  {
    if a :| 0 <= a < |s.pending| && s.pending[a].id == k {
      assert s'.pending[a].id == k;
    }
  }

  lemma WatchSource(c: Config, s: State, e: Event)
    requires ValidConfig(c) && Enabled(c, s, e) && e.Watch? && SourceOk(s, e.id)
    ensures SourceOk(Apply(c, s, e), e.id)
  {
    var s' := Apply(c, s, e);
    if e.m.Broadcast? {
      assert s'.pending[|s.pending|].id == e.id;
    }
  }

  lemma StepKeepsSources(c: Config, s: State, e: Event)
    requires ValidConfig(c) && Enabled(c, s, e) && PendingOk(s) && SourcesOk(s)
    ensures SourcesOk(Apply(c, s, e))
  {
    var s' := Apply(c, s, e);
    assert s.outer <= s'.outer && s.pending <= s'.pending;
    forall i | 0 <= i < |s'.chain| && s'.chain[i].spend.kind.Inner? ensures Revealed(s', s'.chain[i].spend.id) {
      if i < |s.chain| {
        assert s'.chain[i] == s.chain[i];
        assert Revealed(s, s.chain[i].spend.id);
      }
    }
    forall k | 0 <= k < |s'.txs| ensures SourceOk(s', k) {
      if e.Watch? && e.id == k {
        assert SourceOk(s, k);
        WatchSource(c, s, e);
      } else if k < |s.txs| {
        assert SourceOk(s, k);
        SourceStays(s, s', k);
      }
    }
  }

  lemma {:induction false} RunSources(c: Config, run: seq<State>, i: nat)
    requires ValidConfig(c) && IsRun(c, run) && i < |run|
    ensures SourcesOk(run[i])
  {
    if i == 0 {
    } else {
      RunSources(c, run, i - 1);
      RunInv(c, run, i - 1);
      var e := StepOf(c, run, i - 1);
      StepKeepsSources(c, run[i - 1], e);
    }
  }

  // --- a nonce nobody will ever spend ---

  /** The watcher of a refused submission can still get to broadcast its forfeit: it is about to, or it will
      find its context live at the first select and the refusal in its hands. */
  predicate CanForfeit(t: Tx) {
    || t.pc.Forfeiting?
    || (t.ctx.Live? && (t.pc.FirstWait? || (t.pc.FirstSelect? && t.pc.got.Receipt? && !t.pc.got.ok)))
  }

  /** Refused, unspent, and no forfeit on its way nor ever to come. */
  ghost predicate Blocked(s: State, l: nat) {
    && l < |s.txs| && Refused(s, l) && !Spent(s, l) && !Pended(s, l)
    && (s.crashed || !CanForfeit(s.txs[l]))
  }

  lemma StepKeepsUnpended(c: Config, s: State, e: Event, l: nat)
    requires ValidConfig(c) && Enabled(c, s, e) && SourcesOk(s) && Blocked(s, l)
    ensures var s' := Apply(c, s, e);
      !Pended(s', l) && (s'.crashed || !CanForfeit(s'.txs[l]))
  {
    assert SourceOk(s, l);
    var s' := Apply(c, s, e);
    forall a | 0 <= a < |s'.pending| ensures s'.pending[a].id != l {
      if a < |s.pending| {
        assert s'.pending[a] == s.pending[a];
      }
    }
  }

  lemma StepKeepsUnspent(c: Config, s: State, e: Event, l: nat)
    requires ValidConfig(c) && Enabled(c, s, e) && Blocked(s, l)
    ensures !Spent(Apply(c, s, e), l)
  {
    var s' := Apply(c, s, e);
    forall i | 0 <= i < |s'.chain| ensures s'.chain[i].spend.id != l {
      if i < |s.chain| {
        assert s'.chain[i] == s.chain[i];
        assert s.chain[i].spend.kind.Inner? || s.chain[i].spend.kind.Forfeit?;
      }
    }
  }

  lemma {:induction false} BlockedStays(c: Config, run: seq<State>, i: nat, j: nat, l: nat)
    requires ValidConfig(c) && IsRun(c, run) && i <= j < |run| && Blocked(run[i], l)
    ensures Blocked(run[j], l)
    decreases j - i
  {
    if i == j {
    } else {
      BlockedStays(c, run, i, j - 1, l);
      RunSources(c, run, j - 1);
      var e := StepOf(c, run, j - 1);
      StepKeepsUnpended(c, run[j - 1], e, l);
      StepKeepsUnspent(c, run[j - 1], e, l);
    }
  }

  /** What stands before transaction k: its own forfeit, its own refusal, or a blocked earlier transaction of
      the same account. */
  ghost predicate Doomed(s: State, k: nat)
    requires k < |s.txs|
  {
    || Has(s, Forfeit, k)
    || Refused(s, k)
    || exists l :: 0 <= l < k && s.txs[l].sender == s.txs[k].sender && Blocked(s, l)
  }

  lemma BehindBlocked(c: Config, s: State, l: nat, k: nat)
    requires ValidConfig(c) && Inv(c, s) && l < k < |s.txs| && s.txs[l].sender == s.txs[k].sender && Blocked(s, l)
    ensures !Has(s, Inner, k)
  {
    if Has(s, Inner, k) {
      SpentIffBelow(c, s, k);
      LaterTxLaterNonce(c, s, l, k);
      SpentIffBelow(c, s, l);
    }
  }

  lemma DoomedIsNeverIncluded(c: Config, run: seq<State>, i: nat, j: nat, k: nat)
    requires ValidConfig(c) && IsRun(c, run) && i <= j < |run| && k < |run[i].txs| && Doomed(run[i], k)
    ensures !Has(run[j], Inner, k)
  {
    DoneOnlyGrows(c, run, i, j);
    OuterOnlyGrows(c, run, i, j);
    if Has(run[i], Forfeit, k) {
      ForfeitedNeverIncluded(c, run, i, j, k);
    } else if Refused(run[i], k) {
      RunSources(c, run, j);
    } else {
      var l :| 0 <= l < k && run[i].txs[l].sender == run[i].txs[k].sender && Blocked(run[i], l);
      BlockedStays(c, run, i, j, l);
      RunInv(c, run, i);
      RunInv(c, run, j);
      BehindBlocked(c, run[j], l, k);
    }
  }

  lemma {:induction false} OuterOnlyGrows(c: Config, run: seq<State>, i: nat, j: nat)
    requires ValidConfig(c) && IsRun(c, run) && i <= j < |run|
    ensures run[i].outer <= run[j].outer
    decreases j - i
  {
    if i == j {
    } else {
      OuterOnlyGrows(c, run, i, j - 1);
      var e := StepOf(c, run, j - 1);
    }
  }

  // --- the continuation that includes everything else ---

  /** All outer transactions still on their way are mined, with success. */
  lemma {:induction false} RevealRest(c: Config, run: seq<State>) returns (r: seq<State>)
    requires ValidConfig(c) && IsRun(c, run) && |Last(run).outer| <= |Last(run).txs|
    ensures IsRun(c, r) && run <= r
    ensures var s, t := Last(run), Last(r);
      && t == s.(outer := t.outer) && |t.outer| == |t.txs| && s.outer <= t.outer
      && forall l | |s.outer| <= l < |t.outer| :: t.outer[l].ok
    decreases |Last(run).txs| - |Last(run).outer|
  {
    if |Last(run).outer| == |Last(run).txs| {
      r := run;
    } else {
      var longer := Step(c, run, MineOuter(true));
      r := RevealRest(c, longer);
    }
  }

  /** From s to t nothing happened but to transaction o. */
  ghost predicate Only(s: State, t: State, o: nat) {
    && t.outer == s.outer && t.crashed == s.crashed && |t.txs| == |s.txs|
    && (forall l | 0 <= l < |s.txs| :: t.txs[l].sender == s.txs[l].sender && t.txs[l].nonce == s.txs[l].nonce)
    && (forall l | 0 <= l < |s.txs| && l != o :: t.txs[l] == s.txs[l])
    && s.pending <= t.pending && (forall a | |s.pending| <= a < |t.pending| :: t.pending[a].id == o)
    && s.chain <= t.chain && (forall i | |s.chain| <= i < |t.chain| :: t.chain[i].spend.id == o)
  }

  lemma OnlyThen(s: State, t: State, u: State, o: nat)
    requires Only(s, t, o) && Only(t, u, o)
    ensures Only(s, u, o)
  {
  }

  /** A watcher that can forfeit does so. */
  lemma MakePending(c: Config, run: seq<State>, o: nat) returns (r: seq<State>)
    requires ValidConfig(c) && IsRun(c, run) && o < |Last(run).txs| && SourceOk(Last(run), o)
    requires Refused(Last(run), o) && !Last(run).crashed && CanForfeit(Last(run).txs[o])
    ensures IsRun(c, r) && run <= r
    ensures Only(Last(run), Last(r), o) && Last(r).chain == Last(run).chain && Pended(Last(r), o)
  {
    r := run;
    if Last(r).txs[o].pc.FirstWait? {
      r := Step(c, r, Watch(o, Returns(Receipt(false, Last(r).outer[o].block)), 0));
      assert Only(Last(run), Last(r), o);
    }
    r := AwaitToBroadcast(c, run, r, o);
  }

  lemma AwaitToBroadcast(c: Config, start: seq<State>, run: seq<State>, o: nat) returns (r: seq<State>)
    requires ValidConfig(c) && IsRun(c, run) && start <= run && |start| > 0 && o < |Last(run).txs|
    requires Only(Last(start), Last(run), o) && Last(run).chain == Last(start).chain
    requires !Last(run).crashed && CanForfeit(Last(run).txs[o]) && !Last(run).txs[o].pc.FirstWait?
    ensures IsRun(c, r) && start <= r
    ensures Only(Last(start), Last(r), o) && Last(r).chain == Last(start).chain && Pended(Last(r), o)
  {
    r := run;
    if Last(r).txs[o].pc.FirstSelect? {
      r := Step(c, r, Watch(o, Select, 0));
    }
    ghost var s := Last(r);
    assert Only(Last(start), s, o) && s.txs[o].pc.Forfeiting?;
    r := Step(c, r, Watch(o, Broadcast, 0));
    assert Last(r).pending[|s.pending|].id == o;
  }

  predicate IsNext(c: Config, s: State, o: nat)
    requires ValidConfig(c)
  {
    && o < |s.txs| && s.txs[o].sender < |c.init|
    && s.txs[o].nonce == ChainNonce(c, s.chain, s.txs[o].sender)
  }

  lemma SpendInner(c: Config, run: seq<State>, o: nat) returns (r: seq<State>)
    requires ValidConfig(c) && IsRun(c, run) && IsNext(c, Last(run), o) && Revealed(Last(run), o)
    ensures IsRun(c, r) && run <= r && Only(Last(run), Last(r), o)
    ensures Last(r).chain == Last(run).chain + [Mined(SpendOf(Inner, Last(run).txs[o], o), Last(run).head)]
  {
    r := Step(c, run, MineInner(o));
  }

  lemma SpendForfeit(c: Config, run: seq<State>, o: nat) returns (r: seq<State>)
    requires ValidConfig(c) && IsRun(c, run) && IsNext(c, Last(run), o) && Pended(Last(run), o)
    ensures IsRun(c, r) && run <= r && Only(Last(run), Last(r), o)
    ensures Last(r).chain == Last(run).chain + [Mined(SpendOf(Forfeit, Last(run).txs[o], o), Last(run).head)]
  {
    var t := Last(run);
    RunInv(c, run, |run| - 1);
    var a: nat :| a < |t.pending| && t.pending[a].id == o;
    assert SpendOk(t, t.pending[a]);
    r := Step(c, run, MineForfeit(a));
  }

  /** The next nonce of an account is spent, by the transaction that owns it or by its forfeit. */
  lemma SpendNext(c: Config, run: seq<State>, o: nat) returns (r: seq<State>, kind: Kind)
    requires ValidConfig(c) && IsRun(c, run) && IsNext(c, Last(run), o) && o < |Last(run).outer|
    requires !Spent(Last(run), o) && !Blocked(Last(run), o)
    ensures IsRun(c, r) && run <= r && Only(Last(run), Last(r), o)
    ensures |Last(r).chain| == |Last(run).chain| + 1
    ensures Last(r).chain[|Last(run).chain|].spend == SpendOf(kind, Last(run).txs[o], o)
    ensures Revealed(Last(run), o) ==> kind == Inner
  {
    if Revealed(Last(run), o) {
      kind := Inner;
      r := SpendInner(c, run, o);
    } else {
      kind := Forfeit;
      var ready := run;
      if !Pended(Last(run), o) {
        RunSources(c, run, |run| - 1);
        ready := MakePending(c, run, o);
      }
      r := SpendForfeit(c, ready, o);
      OnlyThen(Last(run), Last(ready), Last(r), o);
    }
  }

  /** It is then spent, and the account's next nonce is one higher. */
  lemma SpendCounts(c: Config, s: State, t: State, o: nat, kind: Kind)
    requires ValidConfig(c) && IsNext(c, s, o) && Only(s, t, o) && |t.chain| == |s.chain| + 1 && !Spent(s, o)
    requires t.chain[|s.chain|].spend == SpendOf(kind, s.txs[o], o)
    ensures Has(t, kind, o) && (kind == Inner ==> !Has(t, Forfeit, o))
    ensures ChainNonce(c, t.chain, s.txs[o].sender) == ChainNonce(c, s.chain, s.txs[o].sender) + 1
  {
    assert t.chain[..|t.chain| - 1] == s.chain;
    assert forall i | 0 <= i < |s.chain| :: t.chain[i] == s.chain[i];
  }

  lemma OpenStays(s: State, t: State, o: nat, k: nat)
    requires k < |s.txs| && !Doomed(s, k) && Only(s, t, o) && Spent(t, o)
    requires o == k ==> !Has(t, Forfeit, k)
    ensures !Doomed(t, k)
  {
    assert forall i | 0 <= i < |s.chain| :: t.chain[i] == s.chain[i];
    assert forall a | 0 <= a < |s.pending| :: t.pending[a] == s.pending[a];
    forall l | 0 <= l < k && t.txs[l].sender == t.txs[k].sender ensures !Blocked(t, l) {
      assert !Blocked(s, l);
    }
  }

  /** With all outer transactions mined, spending the account's nonces in order includes transaction k. */
  lemma {:induction false} MineUpTo(c: Config, run: seq<State>, k: nat) returns (r: seq<State>)
    requires ValidConfig(c) && IsRun(c, run) && k < |Last(run).txs| == |Last(run).outer| && !Doomed(Last(run), k)
    ensures IsRun(c, r) && run <= r && Has(Last(r), Inner, k)
    decreases var a := Last(run).txs[k].sender;
      if a < |c.init| then Last(run).txs[k].nonce - ChainNonce(c, Last(run).chain, a) else 0
  {
    RunInv(c, run, |run| - 1);
    var s := Last(run);
    SpentIffBelow(c, s, k);
    if Spent(s, k) {
      r := run;
    } else {
      var o := NextOwner(c, s, k);
      RefusedIsDoomed(s, k);
      var longer, kind := SpendNext(c, run, o);
      SpendCounts(c, s, Last(longer), o, kind);
      if o == k {
        r := longer;
      } else {
        OpenStays(s, Last(longer), o, k);
        r := MineUpTo(c, longer, k);
      }
    }
  }

  lemma RefusedIsDoomed(s: State, k: nat)
    requires k < |s.txs| == |s.outer| && !Doomed(s, k)
    ensures Revealed(s, k) && !Blocked(s, k)
  {
  }

  /** The transaction whose turn it is on the account of an unspent transaction k. */
  lemma NextOwner(c: Config, s: State, k: nat) returns (o: nat)
    requires ValidConfig(c) && Dealt(c, s) && LogOk(c, s) && k < |s.txs| && !Spent(s, k)
    ensures s.txs[k].sender < |c.init| && o <= k && s.txs[o].sender == s.txs[k].sender && !Spent(s, o)
    ensures IsNext(c, s, o) && s.txs[o].nonce <= s.txs[k].nonce
  {
    SpentIffBelow(c, s, k);
    var a := s.txs[k].sender;
    if s.txs[k].nonce == ChainNonce(c, s.chain, a) {
      o := k;
    } else {
      ShareCovers(|s.txs|, |c.init|, k);
      o := Owner(c, a, ChainNonce(c, s.chain, a) - c.init[a]);
      OwnerOwns(c, s, a, ChainNonce(c, s.chain, a));
      SpentIffBelow(c, s, o);
      if k < o {
        LaterTxLaterNonce(c, s, k, o);
      }
    }
  }

  lemma RestKeepsOpen(s: State, t: State, k: nat)
    requires k < |s.txs| && !Doomed(s, k) && t == s.(outer := t.outer) && s.outer <= t.outer
    requires forall l | |s.outer| <= l < |t.outer| :: t.outer[l].ok
    ensures !Doomed(t, k)
  {
    forall l | 0 <= l < k && s.txs[l].sender == s.txs[k].sender ensures !Blocked(t, l) {
      assert !Blocked(s, l);
      assert Spent(t, l) == Spent(s, l) && Pended(t, l) == Pended(s, l);
    }
  }

  lemma {:induction false} OuterWithinSent(c: Config, run: seq<State>, i: nat)
    requires ValidConfig(c) && IsRun(c, run) && i < |run|
    ensures |run[i].outer| <= |run[i].txs|
  {
    if i == 0 {
    } else {
      OuterWithinSent(c, run, i - 1);
      var e := StepOf(c, run, i - 1);
    }
  }

  /** A transaction stays out of the chain in every continuation of a run exactly when its forfeit is mined,
      or its own submission was refused, or an earlier transaction of its account was refused and its nonce
      is neither spent nor ever going to be forfeited. What the watcher has reported settles nothing. */
  lemma NeverIncludedIff(c: Config, run: seq<State>, k: nat)
    requires ValidConfig(c) && IsRun(c, run) && k < |Last(run).txs|
    ensures (forall r | IsRun(c, r) && run <= r :: !Has(Last(r), Inner, k)) <==> Doomed(Last(run), k)
  {
    if Doomed(Last(run), k) {
      forall r | IsRun(c, r) && run <= r ensures !Has(Last(r), Inner, k) {
        assert r[|run| - 1] == Last(run);
        DoomedIsNeverIncluded(c, r, |run| - 1, |r| - 1, k);
      }
    } else {
      OuterWithinSent(c, run, |run| - 1);
      var revealed := RevealRest(c, run);
      RestKeepsOpen(Last(run), Last(revealed), k);
      var r := MineUpTo(c, revealed, k);
      assert IsRun(c, r) && run <= r && Has(Last(r), Inner, k);
    }
  }

  /** Nor does it take an exit: a refused transaction whose context expires before its watcher gets to the
      first select already dooms the one behind it. */
  lemma DoomedBeforeAnyExit() returns (run: seq<State>)
    ensures IsRun(ONE_ACCOUNT, run)
    ensures var s := Last(run);
      && |s.txs| == 2 && !s.crashed && s.txs[0].pc.FirstWait? && s.txs[1].pc.FirstWait?
      && !Refused(s, 1) && !Has(s, Forfeit, 1) && Doomed(s, 1)
  {
    run := SendTwo();
    run := Step(ONE_ACCOUNT, run, MineOuter(false));
    run := Step(ONE_ACCOUNT, run, Expire(0));
    assert Blocked(Last(run), 0);
  }

  // --- gaps that stay ---

  /** Account a lags behind: this transaction owns the nonce the chain waits for. */
  function Awaited(c: Config, s: State, a: nat): nat
    requires a < |c.init|
  {
    Owner(c, a, Count(s.chain, a))
  }

  lemma AwaitedIs(c: Config, s: State, a: nat)
    requires ValidConfig(c) && Inv(c, s) && a < |c.init| && ChainNonce(c, s.chain, a) < s.nonces[a]
    ensures IsNext(c, s, Awaited(c, s, a)) && s.txs[Awaited(c, s, a)].sender == a && !Spent(s, Awaited(c, s, a))
  {
    OwnerOwns(c, s, a, ChainNonce(c, s.chain, a));
    SpentIffBelow(c, s, Awaited(c, s, a));
  }

  /** Nothing of an account is mined past a blocked transaction. */
  lemma BlockedHolds(c: Config, run: seq<State>, i: nat, j: nat, a: nat)
    requires ValidConfig(c) && IsRun(c, run) && i <= j < |run| && a < |c.init|
    requires a < |run[i].nonces| && ChainNonce(c, run[i].chain, a) < run[i].nonces[a]
    requires Blocked(run[i], Awaited(c, run[i], a))
    ensures Count(run[j].chain, a) == Count(run[i].chain, a)
  {
    var k := Awaited(c, run[i], a);
    RunInv(c, run, i);
    RunInv(c, run, j);
    AwaitedIs(c, run[i], a);
    BlockedStays(c, run, i, j, k);
    RoundRobin(c, run, i, k);
    RoundRobin(c, run, j, k);
    SpentIffBelow(c, run[j], k);
    ChainOnlyGrows(c, run, i, j);
    CountOfPrefix(run[i].chain, run[j].chain, a);
  }

  lemma CountOfPrefix(chain: seq<Mined>, longer: seq<Mined>, a: nat)
    requires chain <= longer
    ensures Count(chain, a) <= Count(longer, a)
  {
    CountGrows(longer, |chain|, |longer|, a);
    assert longer[..|chain|] == chain && longer[..|longer|] == longer;
  }

  lemma RestKeepsUnblocked(s: State, t: State, l: nat)
    requires !Blocked(s, l) && t == s.(outer := t.outer) && s.outer <= t.outer
    requires forall o | |s.outer| <= o < |t.outer| :: t.outer[o].ok
    ensures !Blocked(t, l)
  {
    assert Spent(t, l) == Spent(s, l) && Pended(t, l) == Pended(s, l);
  }

  /** If it is not blocked, some continuation spends it. */
  lemma UnblockedMovesOn(c: Config, run: seq<State>, a: nat) returns (r: seq<State>)
    requires ValidConfig(c) && IsRun(c, run) && a < |c.init| && a < |Last(run).nonces|
    requires ChainNonce(c, Last(run).chain, a) < Last(run).nonces[a] && !Blocked(Last(run), Awaited(c, Last(run), a))
    ensures IsRun(c, r) && run <= r && Count(Last(r).chain, a) == Count(Last(run).chain, a) + 1
  {
    var k := Awaited(c, Last(run), a);
    RunInv(c, run, |run| - 1);
    AwaitedIs(c, Last(run), a);
    OuterWithinSent(c, run, |run| - 1);
    var revealed := RevealRest(c, run);
    RestKeepsUnblocked(Last(run), Last(revealed), k);
    var s := Last(revealed);
    var kind;
    r, kind := SpendNext(c, revealed, k);
    SpendCounts(c, s, Last(r), k, kind);
  }

  /** While an account lags behind, its chain nonce stays where it is in every continuation of the run exactly
      when the transaction that owns it is blocked: refused, with no forfeit pending and none to come. In every
      other case some continuation moves it on. */
  lemma GapIsPermanentIff(c: Config, run: seq<State>, a: nat)
    requires ValidConfig(c) && IsRun(c, run) && a < |c.init| && a < |Last(run).nonces|
    requires ChainNonce(c, Last(run).chain, a) < Last(run).nonces[a]
    ensures (forall r | IsRun(c, r) && run <= r :: ChainNonce(c, Last(r).chain, a) == ChainNonce(c, Last(run).chain, a))
       <==> Blocked(Last(run), Awaited(c, Last(run), a))
  {
    if Blocked(Last(run), Awaited(c, Last(run), a)) {
      forall r | IsRun(c, r) && run <= r ensures Count(Last(r).chain, a) == Count(Last(run).chain, a) {
        assert r[|run| - 1] == Last(run);
        BlockedHolds(c, r, |run| - 1, |r| - 1, a);
      }
    } else {
      var r := UnblockedMovesOn(c, run, a);
      assert IsRun(c, r) && run <= r;
    }
  }
}
