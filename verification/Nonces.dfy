/** Nonce gaps. The chain consumes each sender's nonces in order, so one nonce that is never spent
    blocks every later transaction of that account: when can such a gap remain? */
module Nonces {
  import opened Lifecycle
  import opened Protocol
  import opened Invariants
  import opened Runs

  lemma {:induction false} CountGrows(chain: seq<Mined>, i: nat, j: nat, a: nat)
    requires i <= j <= |chain|
    ensures Count(chain[..i], a) <= Count(chain[..j], a)
    ensures i < j && chain[i].spend.sender == a ==> Count(chain[..i], a) < Count(chain[..j], a)
    decreases j - i
  {
    if i == j {
    } else {
      CountGrows(chain, i, j - 1, a);
      assert chain[..j][..j - 1] == chain[..j - 1];
    }
  }

  /** The nonces of one sender appear on the chain in strictly increasing order. */
  lemma LogIsOrdered(c: Config, s: State, i: nat, j: nat)
    requires ValidConfig(c) && LogOk(c, s) && i < j < |s.chain|
    requires s.chain[i].spend.sender == s.chain[j].spend.sender
    ensures s.chain[i].spend.nonce < s.chain[j].spend.nonce
  {
    CountGrows(s.chain, i, j, s.chain[i].spend.sender);
  }

  /** Each nonce below the chain's next one has been spent, by someone. */
  lemma {:induction false} SpentBelow(c: Config, s: State, a: nat, m: nat, v: nat) returns (i: nat)
    requires ValidConfig(c) && LogOk(c, s) && a < |c.init| && m <= |s.chain|
    requires c.init[a] <= v < ChainNonce(c, s.chain[..m], a)
    ensures i < m && s.chain[i].spend.sender == a && s.chain[i].spend.nonce == v
  {
    assert m > 0;
    assert s.chain[..m][..m - 1] == s.chain[..m - 1];
    if v < ChainNonce(c, s.chain[..m - 1], a) {
      i := SpentBelow(c, s, a, m - 1, v);
    } else {
      i := m - 1;
    }
  }

  lemma ShareCovers(m: nat, n: nat, k: nat)
    requires n > 0
    ensures k < m <==> k / n < Share(m, n, k % n)
  {
    assert k == n * (k / n) + k % n && m == n * (m / n) + m % n;
    var d := k / n - m / n;
    assert n * d == n * (k / n) - n * (m / n);
    if d > 0 {
      assert n * d >= n;
    } else if d < 0 {
      assert n * d + n <= 0;
    }
  }

  /** The transaction that owns account a's q-th nonce. */
  function Owner(c: Config, a: nat, q: nat): nat { q * |c.init| + a }

  lemma OwnerOwns(c: Config, s: State, a: nat, v: nat)
    requires ValidConfig(c) && Dealt(c, s) && a < |c.init| && c.init[a] <= v < s.nonces[a]
    ensures var k := Owner(c, a, v - c.init[a]);
      k < |s.txs| && s.txs[k].sender == a && s.txs[k].nonce == v
  {
    var n, q := |c.init|, v - c.init[a];
    var k := Owner(c, a, q);
    DivModUnique(k, n, q, a);
    ShareCovers(|s.txs|, n, k);
  }

  /** A spent nonce names its transaction. */
  lemma SpenderIs(c: Config, s: State, i: nat, k: nat)
    requires ValidConfig(c) && Dealt(c, s) && LogOk(c, s) && i < |s.chain| && k < |s.txs|
    requires s.chain[i].spend.sender == s.txs[k].sender && s.chain[i].spend.nonce == s.txs[k].nonce
    ensures s.chain[i].spend.id == k
  {
    assert SpendOk(s, s.chain[i].spend);
    DivModInjective(s.chain[i].spend.id, k, |c.init|);
  }

  ghost predicate Spent(s: State, k: nat) { Has(s, Inner, k) || Has(s, Forfeit, k) }

  /** The chain is never ahead of the local count. */
  lemma ChainNotAhead(c: Config, s: State, a: nat)
    requires ValidConfig(c) && Dealt(c, s) && LogOk(c, s) && a < |c.init|
    ensures ChainNonce(c, s.chain, a) <= s.nonces[a]
  {
    assert s.chain[..|s.chain|] == s.chain;
    if ChainNonce(c, s.chain, a) > c.init[a] {
      var i := SpentBelow(c, s, a, |s.chain|, ChainNonce(c, s.chain, a) - 1);
      var p := s.chain[i].spend;
      assert SpendOk(s, p);
      ShareCovers(|s.txs|, |c.init|, p.id);
    }
  }

  lemma BelowIsSpent(c: Config, s: State, k: nat)
    requires ValidConfig(c) && Dealt(c, s) && LogOk(c, s) && k < |s.txs| && s.txs[k].sender < |c.init|
    requires c.init[s.txs[k].sender] <= s.txs[k].nonce < ChainNonce(c, s.chain, s.txs[k].sender)
    ensures Spent(s, k)
  {
    assert s.chain[..|s.chain|] == s.chain;
    var i := SpentBelow(c, s, s.txs[k].sender, |s.chain|, s.txs[k].nonce);
    SpenderIs(c, s, i, k);
    assert s.chain[i].spend.kind.Inner? || s.chain[i].spend.kind.Forfeit?;
  }

  lemma SpentIsBelow(c: Config, s: State, k: nat)
    requires ValidConfig(c) && LogOk(c, s) && k < |s.txs| && s.txs[k].sender < |c.init| && Spent(s, k)
    ensures s.txs[k].nonce < ChainNonce(c, s.chain, s.txs[k].sender)
  {
    var i :| 0 <= i < |s.chain| && s.chain[i].spend.id == k;
    assert SpendOk(s, s.chain[i].spend);
    assert s.chain[..|s.chain|] == s.chain;
    CountGrows(s.chain, i, |s.chain|, s.txs[k].sender);
  }

  /** A transaction's nonce is spent exactly when it lies below the chain's next nonce. */
  lemma SpentIffBelow(c: Config, s: State, k: nat)
    requires ValidConfig(c) && Dealt(c, s) && LogOk(c, s) && k < |s.txs|
    ensures s.txs[k].sender < |c.init|
    ensures Spent(s, k) <==> s.txs[k].nonce < ChainNonce(c, s.chain, s.txs[k].sender)
  {
    SenderKnown(c, s, k);
    if s.txs[k].nonce < ChainNonce(c, s.chain, s.txs[k].sender) {
      BelowIsSpent(c, s, k);
    } else if Spent(s, k) {
      SpentIsBelow(c, s, k);
    }
  }

  lemma SenderKnown(c: Config, s: State, k: nat)
    requires ValidConfig(c) && Dealt(c, s) && k < |s.txs|
    ensures s.txs[k].sender < |c.init| && c.init[s.txs[k].sender] <= s.txs[k].nonce
  {
    assert s.txs[k].sender == k % |c.init|;
  }

  /** In every reachable state at most one transaction of the chain was mined for transaction k: its
      inner transaction or its forfeit, not both and neither twice. */
  lemma AtMostOneMined(c: Config, run: seq<State>, r: nat, i: nat, j: nat)
    requires ValidConfig(c) && IsRun(c, run) && r < |run| && i < |run[r].chain| && j < |run[r].chain|
    requires run[r].chain[i].spend.id == run[r].chain[j].spend.id
    ensures i == j
  {
    RunInv(c, run, r);
    var s := run[r];
    assert SpendOk(s, s.chain[i].spend) && SpendOk(s, s.chain[j].spend);
    if i < j { LogIsOrdered(c, s, i, j); }
    if j < i { LogIsOrdered(c, s, j, i); }
  }

  lemma {:induction false} ChainOnlyGrows(c: Config, run: seq<State>, i: nat, j: nat)
    requires ValidConfig(c) && IsRun(c, run) && i <= j < |run|
    ensures run[i].chain <= run[j].chain
    decreases j - i
  {
    if i == j {
    } else {
      ChainOnlyGrows(c, run, i, j - 1);
      ChainGrowsNext(c, run, j - 1);
    }
  }

  lemma ChainGrowsNext(c: Config, run: seq<State>, j: nat)
    requires ValidConfig(c) && IsRun(c, run) && j + 1 < |run|
    ensures run[j].chain <= run[j + 1].chain
  {
    var e := StepOf(c, run, j);
  }

  lemma HasStaysAlong(c: Config, run: seq<State>, i: nat, j: nat, kind: Kind, k: nat)
    requires ValidConfig(c) && IsRun(c, run) && i <= j < |run| && Has(run[i], kind, k)
    ensures Has(run[j], kind, k)
  {
    ChainOnlyGrows(c, run, i, j);
    HasStays(run[i], run[j], kind, k);
  }

  lemma ForfeitExcludesInner(c: Config, run: seq<State>, j: nat, k: nat)
    requires ValidConfig(c) && IsRun(c, run) && j < |run| && Has(run[j], Forfeit, k)
    ensures !Has(run[j], Inner, k)
  {
    var s := run[j];
    var f :| 0 <= f < |s.chain| && s.chain[f].spend.kind == Forfeit && s.chain[f].spend.id == k;
    forall g | 0 <= g < |s.chain| && s.chain[g].spend.id == k ensures s.chain[g].spend.kind == Forfeit {
      AtMostOneMined(c, run, j, f, g);
    }
  }

  lemma NotMinedNotIncluded(c: Config, run: seq<State>, j: nat, k: nat)
    requires ValidConfig(c) && IsRun(c, run) && j < |run| && k < |run[j].txs| && !Has(run[j], Inner, k)
    ensures run[j].txs[k].status != Included
  {
    RunInv(c, run, j);
    assert WatcherOk(run[j].txs[k]);
  }

  /** Once a forfeit is mined its transaction can never be included, nor be reported as Included. */
  lemma ForfeitedNeverIncluded(c: Config, run: seq<State>, i: nat, j: nat, k: nat)
    requires ValidConfig(c) && IsRun(c, run) && i <= j < |run| && k < |run[j].txs|
    requires Has(run[i], Forfeit, k)
    ensures !Has(run[j], Inner, k) && run[j].txs[k].status != Included
  {
    HasStaysAlong(c, run, i, j, Forfeit, k);
    ForfeitExcludesInner(c, run, j, k);
    NotMinedNotIncluded(c, run, j, k);
  }

  /** An account has no gap exactly when every transaction sent from it is spent. */
  lemma NoGapIff(c: Config, run: seq<State>, i: nat, a: nat)
    requires ValidConfig(c) && IsRun(c, run) && i < |run| && a < |c.init|
    ensures a < |run[i].nonces|
    ensures ChainNonce(c, run[i].chain, a) == run[i].nonces[a]
       <==> forall k | 0 <= k < |run[i].txs| && run[i].txs[k].sender == a :: Spent(run[i], k)
  {
    RunInv(c, run, i);
    var s := run[i];
    ChainNotAhead(c, s, a);
    forall k | 0 <= k < |s.txs| && s.txs[k].sender == a
      ensures Spent(s, k) <==> s.txs[k].nonce < ChainNonce(c, s.chain, a)
      ensures s.txs[k].nonce < s.nonces[a]
    {
      SpentIffBelow(c, s, k);
      ShareCovers(|s.txs|, |c.init|, k);
    }
    if ChainNonce(c, s.chain, a) < s.nonces[a] {
      OwnerOwns(c, s, a, ChainNonce(c, s.chain, a));
    }
  }

  /** An exit that guarantees the inner nonce is spent. */
  predicate Settled(how: Exit) {
    how.Landed? || (how.Forfeited? && how.mined)
  }

  /** If every watcher of an account has exited through an inclusion or a mined forfeit, the chain's
      nonce equals the local one. */
  lemma NoGapWhenSettled(c: Config, run: seq<State>, i: nat, a: nat)
    requires ValidConfig(c) && IsRun(c, run) && i < |run| && a < |c.init|
    requires forall k | 0 <= k < |run[i].txs| && run[i].txs[k].sender == a ::
               run[i].txs[k].pc.Exited? && Settled(run[i].txs[k].pc.how)
    ensures a < |run[i].nonces| && ChainNonce(c, run[i].chain, a) == run[i].nonces[a]
  {
    RunInv(c, run, i);
    NoGapIff(c, run, i, a);
  }

  /** Expired before its submission was seen, lost its subscription while waiting for inclusion, crashed the
      process, or gave up on its forfeit, whatever the forfeit was for. */
  const GAP_EXITS: set<Exit> :=
    {ExpiredUnsequenced, Lost, Panicked,
     Forfeited(Rejected, false), Forfeited(Superseded, false), Forfeited(TimedOut, false)}

  /** A gap has a culprit: the transaction that owns the chain's next nonce. If its watcher has exited it did
      so in one of the ways above. No later transaction of that account is on the chain. */
  lemma GapHasCulprit(c: Config, run: seq<State>, i: nat, a: nat)
    requires ValidConfig(c) && IsRun(c, run) && i < |run| && a < |c.init|
    requires a < |run[i].nonces| && ChainNonce(c, run[i].chain, a) != run[i].nonces[a]
    ensures var s := run[i]; var k := Owner(c, a, ChainNonce(c, s.chain, a) - c.init[a]);
      && k < |s.txs| && s.txs[k].sender == a && !Spent(s, k)
      && (s.txs[k].pc.Exited? ==> s.txs[k].pc.how in GAP_EXITS)
      && (forall l | 0 <= l < |s.txs| && s.txs[l].sender == a && l > k :: !Spent(s, l))
  {
    RunInv(c, run, i);
    var s := run[i];
    var v := ChainNonce(c, s.chain, a);
    ChainNotAhead(c, s, a);
    OwnerOwns(c, s, a, v);
    var k := Owner(c, a, v - c.init[a]);
    SpentIffBelow(c, s, k);
    assert WatcherOk(s.txs[k]);
    forall l | 0 <= l < |s.txs| && s.txs[l].sender == a && l > k ensures !Spent(s, l) {
      LaterTxLaterNonce(c, s, k, l);
      SpentIffBelow(c, s, l);
    }
  }

  lemma LaterTxLaterNonce(c: Config, s: State, k: nat, l: nat)
    requires ValidConfig(c) && Dealt(c, s) && k < l < |s.txs| && s.txs[k].sender == s.txs[l].sender
    ensures s.txs[k].nonce < s.txs[l].nonce
  {
    LaterTurn(k, l, |c.init|);
  }

  lemma LaterTurn(k: nat, l: nat, n: nat)
    requires n > 0 && k < l && k % n == l % n
    ensures k / n < l / n
  {
    var p, q := k / n, l / n;
    assert k == n * p + k % n && l == n * q + l % n;
    assert n * (q - p) == n * q - n * p;
  }
}
