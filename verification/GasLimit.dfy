/** The stress scenario that exceeds the encrypted gas limit (stress/stress_test.go): the gas limits it
    issues, the loops that hand out nonces, and the check that not everything landed in one block. */
module GasLimit {
  import opened Base
  import Tester

  const ENCRYPTED_GAS_LIMIT: nat := 1_000_000

  /** Counts for which the closure's int arithmetic stays in the machine's range. */
  predicate InRange(count: nat) { count * 21_000 < 0x8000_0000_0000_0000 }

  /** uint64(n): two's complement. */
  function Uint64(n: int): nat { n % 0x1_0000_0000_0000_0000 }

  /** The closure: the last transaction takes what is left, plus one. */
  function GasLimitOf(i: nat, count: nat): nat
    requires i < count && InRange(count)
  {
    if count - i == 1 then Uint64(1_000_000 - i * 21_000 + 1) else 21_000
  }

  function SumUpTo(n: nat, count: nat): nat
    requires n <= count && InRange(count)
  {
    if n == 0 then 0 else SumUpTo(n - 1, count) + GasLimitOf(n - 1, count)
  }

  lemma {:induction false} SumOfOthers(n: nat, count: nat)
    requires n < count && InRange(count)
    ensures SumUpTo(n, count) == 21_000 * n
  {
    if n == 0 {
    } else {
      SumOfOthers(n - 1, count);
    }
  }

  /** Together they ask for exactly one gas more than the limit, or, once the last one wraps, for 2^64
      more than that. */
  lemma SumIs(count: nat)
    requires 0 < count && InRange(count)
    ensures SumUpTo(count, count) == ENCRYPTED_GAS_LIMIT + 1 + if count <= 48 then 0 else WORD
  {
    SumOfOthers(count - 1, count);
    assert SumUpTo(count, count) == SumUpTo(count - 1, count) + GasLimitOf(count - 1, count);
    WrapIs(1_000_001 - (count - 1) * 21_000);
  }

  lemma WrapIs(n: int)
    requires -WORD <= n < WORD
    ensures Uint64(n) == if n < 0 then n + WORD else n
  {
  }

  // --- the loops ---

  datatype InnerTx = InnerTx(nonce: nat, gas: nat)

  /** First loop of transact: the inner transactions, each with the account's next nonce. */
  method CreateInner(account: Tester.Account, count: nat) returns (innerTxs: seq<InnerTx>)
    requires InRange(count)
    modifies account
    ensures account.nonce == old(account.nonce) + count && |innerTxs| == count
    ensures forall i | 0 <= i < count :: innerTxs[i] == InnerTx(old(account.nonce) + i, GasLimitOf(i, count))
    ensures forall i | 0 <= i < count - 1 :: innerTxs[i].gas == 21_000
    ensures count > 0 ==>
      && 0 <= innerTxs[count - 1].gas < 0x1_0000_0000_0000_0000
      && (innerTxs[count - 1].gas - (1_000_000 - (count - 1) * 21_000 + 1)) % 0x1_0000_0000_0000_0000 == 0
  {
    innerTxs := [];
    for i := 0 to count
      invariant account.nonce == old(account.nonce) + i && |innerTxs| == i
      invariant forall j | 0 <= j < i :: innerTxs[j] == InnerTx(old(account.nonce) + j, GasLimitOf(j, count))
    {
      var gasLimit := GasLimitOf(i, count);
      var innerNonce := account.UseNonce();
      innerTxs := innerTxs + [InnerTx(innerNonce, gasLimit)];
    }
  }

  datatype Submit = Submit(nonce: nat, inner: InnerTx)

  /** How the second loop ends: with all submitted, with one that could not be submitted, or, when every
      submission is waited for, with one that was not confirmed in time. */
  datatype Ending = Complete | Unsubmitted | Unconfirmed

  /** Second loop: one submission for each, with the submitter's next nonce. It gives up at the first one in
      `failing`, whose nonce is then used up for nothing, and at the first one in `late` if it waits. */
  method SubmitInner(submitter: Tester.Account, innerTxs: seq<InnerTx>, waitOnEverySubmit: bool,
                     failing: set<nat>, late: set<nat>)
    returns (submissions: seq<Submit>, ending: Ending)
    modifies submitter
    ensures |submissions| <= |innerTxs|
    ensures forall i | 0 <= i < |submissions| ::
              i !in failing && submissions[i] == Submit(old(submitter.nonce) + i, innerTxs[i])
    ensures waitOnEverySubmit ==>
              forall i | 0 <= i < |submissions| && i in late :: ending.Unconfirmed? && i == |submissions| - 1
    ensures ending.Complete? ==> |submissions| == |innerTxs|
    ensures ending.Unsubmitted? ==> |submissions| < |innerTxs| && |submissions| in failing
    ensures ending.Unconfirmed? ==> waitOnEverySubmit && submissions != [] && |submissions| - 1 in late
    ensures submitter.nonce == old(submitter.nonce) + |submissions| + if ending.Unsubmitted? then 1 else 0
  {
    submissions := [];
    for i := 0 to |innerTxs|
      invariant submitter.nonce == old(submitter.nonce) + i && |submissions| == i
      invariant forall j | 0 <= j < i ::
                  j !in failing && submissions[j] == Submit(old(submitter.nonce) + j, innerTxs[j])
      invariant waitOnEverySubmit ==> forall j | 0 <= j < i :: j !in late
    {
      var submitNonce := submitter.UseNonce();
      if i in failing {
        return submissions, Unsubmitted;
      }
      submissions := submissions + [Submit(submitNonce, innerTxs[i])];
      if waitOnEverySubmit {
        if i in late {
          return submissions, Unconfirmed;
        }
      }
    }
    ending := Complete;
  }

  // --- the check ---

  predicate Sorted(blocks: seq<nat>) {
    forall i, j | 0 <= i < j < |blocks| :: blocks[i] <= blocks[j]
  }

  /** The receipts' blocks after sort.Slice: some order in which they do not decrease. */
  predicate IsSortOf(sorted: seq<nat>, blocks: seq<nat>) {
    Sorted(sorted) && multiset(sorted) == multiset(blocks)
  }

  /** The check passes when the two ends differ. */
  predicate EndsDiffer(sorted: seq<nat>)
    requires sorted != []
  {
    sorted[0] != sorted[|sorted| - 1]
  }

  predicate OneBlock(blocks: seq<nat>) {
    forall i, j | 0 <= i < |blocks| && 0 <= j < |blocks| :: blocks[i] == blocks[j]
  }

  /** Whichever way the sort orders equal blocks, the check fails exactly when all share one block. */
  lemma CheckFailsIff(blocks: seq<nat>, sorted: seq<nat>)
    requires blocks != [] && IsSortOf(sorted, blocks)
    ensures sorted != []
    ensures !EndsDiffer(sorted) <==> OneBlock(blocks)
  {
    assert |sorted| == |multiset(sorted)| == |multiset(blocks)| == |blocks|;
    var first, last := sorted[0], sorted[|sorted| - 1];
    assert first in multiset(blocks) && last in multiset(blocks);
    if first == last {
      forall i | 0 <= i < |blocks| ensures blocks[i] == first {
        assert blocks[i] in multiset(sorted);
        var k :| 0 <= k < |sorted| && sorted[k] == blocks[i];
        assert first <= sorted[k] <= last;
      }
    }
  }

  // --- why it must pass ---

  /** The gas of the first n transactions that are in block b. */
  function GasIn(blocks: seq<nat>, n: nat, b: nat): nat
    requires n <= |blocks| && InRange(|blocks|)
  {
    if n == 0 then 0 else GasIn(blocks, n - 1, b) + if blocks[n - 1] == b then GasLimitOf(n - 1, |blocks|) else 0
  }

  /** No block holds more encrypted gas than the limit. */
  predicate Packed(blocks: seq<nat>)
    requires InRange(|blocks|)
  {
    forall i | 0 <= i < |blocks| :: GasIn(blocks, |blocks|, blocks[i]) <= ENCRYPTED_GAS_LIMIT
  }

  lemma {:induction false} AllInOne(blocks: seq<nat>, n: nat, b: nat)
    requires n <= |blocks| && InRange(|blocks|) && forall i | 0 <= i < |blocks| :: blocks[i] == b
    ensures GasIn(blocks, n, b) == SumUpTo(n, |blocks|)
  {
    if n == 0 {
    } else {
      AllInOne(blocks, n - 1, b);
    }
  }

  /** On a chain that respects the limit the check passes, however many transactions were sent and
      wherever they landed. */
  lemma CheckPassesWhenPacked(blocks: seq<nat>, sorted: seq<nat>)
    requires InRange(|blocks|) && blocks != [] && Packed(blocks) && IsSortOf(sorted, blocks)
    ensures sorted != [] && EndsDiffer(sorted)
  {
    CheckFailsIff(blocks, sorted);
    SumIs(|blocks|);
    assert GasIn(blocks, |blocks|, blocks[0]) <= ENCRYPTED_GAS_LIMIT;
    if OneBlock(blocks) {
      AllInOne(blocks, |blocks|, blocks[0]);
      assert false;
    }
  }

  function Spread(count: nat): seq<nat> { seq(count, i => i) }

  lemma {:induction false} SpreadGas(count: nat, n: nat, b: nat)
    requires InRange(count) && n <= count && b < count
    ensures GasIn(Spread(count), n, b) == if b < n then GasLimitOf(b, count) else 0
  {
    if n == 0 {
    } else {
      SpreadGas(count, n - 1, b);
    }
  }

  lemma {:induction false} GasAtLeast(blocks: seq<nat>, n: nat, i: nat)
    requires i < n <= |blocks| && InRange(|blocks|)
    ensures GasIn(blocks, n, blocks[i]) >= GasLimitOf(i, |blocks|)
  {
    if i < n - 1 {
      GasAtLeast(blocks, n - 1, i);
    }
  }

  /** Such a chain can include them all exactly for 2 to 48 transactions: a single one is too big by
      itself, and from 49 on the last one's limit has wrapped. */
  lemma PackableIff(count: nat)
    requires 0 < count && InRange(count)
    ensures (exists blocks :: |blocks| == count && Packed(blocks)) <==> 2 <= count <= 48
  {
    WrapIs(1_000_001 - (count - 1) * 21_000);
    if 2 <= count <= 48 {
      var blocks := Spread(count);
      forall i | 0 <= i < count ensures GasIn(blocks, count, blocks[i]) <= ENCRYPTED_GAS_LIMIT {
        SpreadGas(count, count, i);
      }
      assert Packed(blocks);
    } else {
      forall blocks: seq<nat> | |blocks| == count ensures !Packed(blocks) {
        GasAtLeast(blocks, count, count - 1);
      }
    }
  }
}
