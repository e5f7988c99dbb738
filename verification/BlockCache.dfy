/** The block cache (continuous/collector.go): one map filled by two goroutines, the primer that follows
    the head of the chain and the statistics collector. Both run the same loop over blocks; each load,
    fetch and store is a step of its own, and a fetch may fail anywhere. */
module BlockCache {
  import opened Base

  /** A transaction of a block; contract creations have no recipient. */
  datatype ChainTx = ChainTx(to: Option<int>, value: nat, hash: int)

  datatype Success = Success(trigger: int, included: nat, validatorIndex: int, graffiti: string, hash: int)

  /** What of a success depends on the chain alone; the validator's data may differ between queries. */
  datatype Fact = Fact(trigger: int, included: nat, hash: int)

  /** The chain's blocks, the tool's address and the first block of the run. */
  datatype World = World(blocks: nat -> seq<ChainTx>, address: int, base: nat)

  predicate Addressed(w: World, tx: ChainTx) { tx.to == Some(w.address) }

  /** The facts in a block: its transactions to the tool's address, in order. */
  function ScanTxs(w: World, txs: seq<ChainTx>, b: nat): seq<Fact> {
    if txs == [] then []
    else
      var tx := txs[|txs| - 1];
      ScanTxs(w, txs[..|txs| - 1], b) + if Addressed(w, tx) then [Fact(Int64(tx.value), b, tx.hash)] else []
  }

  function Scan(w: World, b: nat): seq<Fact> { ScanTxs(w, w.blocks(b), b) }

  /** The facts of blocks from .. to - 1, block by block. */
  function ScanRange(w: World, from: nat, to: nat): seq<Fact> {
    if to <= from then [] else ScanRange(w, from, to - 1) + Scan(w, to - 1)
  }

  /** Where the transactions to the tool's address are. */
  function Hits(w: World, txs: seq<ChainTx>): (at: seq<nat>)
    ensures forall k | 0 <= k < |at| :: at[k] < |txs| && txs[at[k]].to == Some(w.address)
    ensures forall j, k | 0 <= j < k < |at| :: at[j] < at[k]
    ensures forall i | 0 <= i < |txs| && txs[i].to == Some(w.address) :: i in at
  {
    if txs == [] then []
    else Hits(w, txs[..|txs| - 1]) + if txs[|txs| - 1].to == Some(w.address) then [|txs| - 1] else []
  }

  lemma {:induction false} HitsScan(w: World, txs: seq<ChainTx>, b: nat)
    ensures |Hits(w, txs)| == |ScanTxs(w, txs, b)|
    ensures forall k | 0 <= k < |Hits(w, txs)| ::
              ScanTxs(w, txs, b)[k] == Fact(Int64(txs[Hits(w, txs)[k]].value), b, txs[Hits(w, txs)[k]].hash)
  {
    if txs == [] {
    } else {
      HitsScan(w, txs[..|txs| - 1], b);
    }
  }

  /** A block's facts are its transactions to the tool's address, in order and no others: contract creations,
      which have no recipient, and transactions to anybody else are passed over. */
  lemma ScanTxsAre(w: World, txs: seq<ChainTx>, b: nat) returns (at: seq<nat>)
    ensures |at| == |ScanTxs(w, txs, b)|
    ensures forall k | 0 <= k < |at| :: at[k] < |txs| && txs[at[k]].to == Some(w.address)
    ensures forall k | 0 <= k < |at| :: ScanTxs(w, txs, b)[k] == Fact(Int64(txs[at[k]].value), b, txs[at[k]].hash)
    ensures forall j, k | 0 <= j < k < |at| :: at[j] < at[k]
    ensures forall i | 0 <= i < |txs| && txs[i].to == Some(w.address) :: i in at
  {
    at := Hits(w, txs);
    HitsScan(w, txs, b);
  }

  /** In terms of membership. */
  lemma ScanTxsHas(w: World, txs: seq<ChainTx>, b: nat, f: Fact)
    ensures f in ScanTxs(w, txs, b)
       <==> exists i :: 0 <= i < |txs| && txs[i].to == Some(w.address) && f == Fact(Int64(txs[i].value), b, txs[i].hash)
  {
    var at := ScanTxsAre(w, txs, b);
    if i :| 0 <= i < |txs| && txs[i].to == Some(w.address) && f == Fact(Int64(txs[i].value), b, txs[i].hash) {
      var k :| 0 <= k < |at| && at[k] == i;
      assert ScanTxs(w, txs, b)[k] == f;
    }
    if f in ScanTxs(w, txs, b) {
      var k :| 0 <= k < |at| && ScanTxs(w, txs, b)[k] == f;
      assert txs[at[k]].to == Some(w.address);
    }
  }

  function PairUp(b: nat, at: seq<nat>): (r: seq<(nat, nat)>)
    ensures |r| == |at| && forall k | 0 <= k < |at| :: r[k] == (b, at[k])
  {
    seq(|at|, k requires 0 <= k < |at| => (b, at[k]))
  }

  function HitRange(w: World, from: nat, to: nat): (at: seq<(nat, nat)>)
    ensures forall k | 0 <= k < |at| :: from <= at[k].0 < to
  {
    if to <= from then [] else HitRange(w, from, to - 1) + PairUp(to - 1, Hits(w, w.blocks(to - 1)))
  }

  predicate IsHit(w: World, at: (nat, nat), f: Fact) {
    && at.1 < |w.blocks(at.0)| && w.blocks(at.0)[at.1].to == Some(w.address)
    && f == Fact(Int64(w.blocks(at.0)[at.1].value), at.0, w.blocks(at.0)[at.1].hash)
  }

  lemma {:induction false} HitRangeScans(w: World, from: nat, to: nat)
    ensures |HitRange(w, from, to)| == |ScanRange(w, from, to)|
    ensures forall k | 0 <= k < |HitRange(w, from, to)| :: IsHit(w, HitRange(w, from, to)[k], ScanRange(w, from, to)[k])
  {
    if to <= from {
    } else {
      HitRangeScans(w, from, to - 1);
      HitsScan(w, w.blocks(to - 1), to - 1);
    }
  }

  predicate Before(p: (nat, nat), q: (nat, nat)) { p.0 < q.0 || (p.0 == q.0 && p.1 < q.1) }

  predicate Increasing(at: seq<(nat, nat)>) {
    forall j, k | 0 <= j < k < |at| :: Before(at[j], at[k])
  }

  lemma IncreasingAppend(a: seq<(nat, nat)>, b: seq<(nat, nat)>, mid: nat)
    requires Increasing(a) && Increasing(b)
    requires forall k | 0 <= k < |a| :: a[k].0 < mid
    requires forall k | 0 <= k < |b| :: b[k].0 >= mid
    ensures Increasing(a + b)
  {
    var at := a + b;
    forall j, k | 0 <= j < k < |at| ensures Before(at[j], at[k]) {
      if k < |a| {
        assert Before(a[j], a[k]);
      } else if j >= |a| {
        assert Before(b[j - |a|], b[k - |a|]);
      }
    }
  }

  lemma {:induction false} HitRangeIncreases(w: World, from: nat, to: nat)
    ensures Increasing(HitRange(w, from, to))
  {
    if to <= from {
    } else {
      HitRangeIncreases(w, from, to - 1);
      IncreasingAppend(HitRange(w, from, to - 1), PairUp(to - 1, Hits(w, w.blocks(to - 1))), to - 1);
    }
  }

  lemma {:induction false} HitRangeHasAll(w: World, from: nat, to: nat, b: nat, i: nat)
    requires from <= b < to && i < |w.blocks(b)| && w.blocks(b)[i].to == Some(w.address)
    ensures (b, i) in HitRange(w, from, to)
  {
    if b == to - 1 {
      var at := Hits(w, w.blocks(b));
      var k :| 0 <= k < |at| && at[k] == i;
      assert PairUp(b, at)[k] == (b, i);
    } else {
      HitRangeHasAll(w, from, to - 1, b, i);
    }
  }

  /** The facts of a range of blocks are the transactions to the tool's address, all of them and no others, by
      block and then by position in the block. */
  lemma ScanRangeIs(w: World, from: nat, to: nat) returns (at: seq<(nat, nat)>)
    ensures |at| == |ScanRange(w, from, to)|
    ensures forall k | 0 <= k < |at| :: from <= at[k].0 < to && at[k].1 < |w.blocks(at[k].0)|
    ensures forall k | 0 <= k < |at| ::
              var tx := w.blocks(at[k].0)[at[k].1];
              tx.to == Some(w.address) && ScanRange(w, from, to)[k] == Fact(Int64(tx.value), at[k].0, tx.hash)
    ensures forall j, k | 0 <= j < k < |at| :: at[j].0 < at[k].0 || (at[j].0 == at[k].0 && at[j].1 < at[k].1)
    ensures forall b, i | from <= b < to && 0 <= i < |w.blocks(b)| && w.blocks(b)[i].to == Some(w.address) ::
              (b, i) in at
  {
    at := HitRange(w, from, to);
    HitRangeScans(w, from, to);
    HitRangeIncreases(w, from, to);
    forall k | 0 <= k < |at| ensures IsHit(w, at[k], ScanRange(w, from, to)[k]) {}
    forall j, k | 0 <= j < k < |at| ensures Before(at[j], at[k]) {}
    forall b, i | from <= b < to && 0 <= i < |w.blocks(b)| && w.blocks(b)[i].to == Some(w.address)
      ensures (b, i) in at
    {
      HitRangeHasAll(w, from, to, b, i);
    }
  }

  function FactOf(s: Success): Fact { Fact(s.trigger, s.included, s.hash) }

  function Facts(ss: seq<Success>): seq<Fact> {
    seq(|ss|, i requires 0 <= i < |ss| => FactOf(ss[i]))
  }

  lemma FactsAppend(a: seq<Success>, b: seq<Success>)
    ensures Facts(a + b) == Facts(a) + Facts(b)
  {
  }

  type Cache = map<nat, seq<Success>>

  /** Every cached answer is the answer a scan of the block would give. */
  predicate Coherent(w: World, cache: Cache) {
    forall k | k in cache :: Facts(cache[k]) == Scan(w, k)
  }

  predicate CoversTo(cache: Cache, from: nat, to: nat) {
    forall j | from <= j < to :: j in cache
  }

  lemma CoversMore(before: Cache, after: Cache, from: nat, to: nat)
    requires CoversTo(before, from, to) && before.Keys <= after.Keys
    ensures CoversTo(after, from, to)
  {
  }

  lemma CoversNext(cache: Cache, from: nat, to: nat)
    requires CoversTo(cache, from, to) && to in cache
    ensures CoversTo(cache, from, to + 1)
  {
  }

  /** The cached blocks are none, or all blocks from the base to the highest one. */
  predicate Gapless(w: World, cache: Cache) {
    forall k | k in cache :: w.base <= k && CoversTo(cache, w.base, k)
  }

  /** What either goroutine may do to the map: add coherent entries without opening a hole. */
  predicate Grew(w: World, before: Cache, after: Cache) {
    && before.Keys <= after.Keys
    && (forall k | k in before :: Facts(after[k]) == Facts(before[k]))
    && Coherent(w, after) && Gapless(w, after)
  }

  // --- the two goroutines as a step machine ---

  /** Where a goroutine stands in the loop over blocks `from` .. `stop`. */
  datatype Loop =
    | Waiting
    | Loading(from: nat, at: nat, stop: nat, out: seq<Success>)
    | Fetching(from: nat, at: nat, stop: nat, out: seq<Success>)
    | Storing(from: nat, at: nat, stop: nat, out: seq<Success>, found: seq<Success>)
    | Returned(from: nat, at: nat, stop: nat, out: seq<Success>)

  datatype State = State(cache: Cache, primer: Loop, collector: Loop)

  /** The primer sees a new head and asks for the highest key. The range over the map is no snapshot:
      all that is used of its result is that it is 0 or a key. */
  predicate PrimerStarts(s: State, l: Loop, head: nat, max: nat) {
    && (s.primer.Waiting? || s.primer.Returned?)
    && (max == 0 || max in s.cache)
    && l == if 0 < max < head then Loading(max, max, head, []) else Waiting
  }

  /** The collector is asked for the blocks from the base to `end`. */
  predicate CollectorStarts(w: World, s: State, l: Loop, end: nat) {
    && (s.collector.Waiting? || s.collector.Returned?)
    && l == Loading(w.base, w.base, end, [])
  }

  /** One step of the loop. */
  predicate LoopStep(w: World, cache: Cache, l: Loop, cache': Cache, l': Loop) {
    match l
    case Loading(from, at, stop, out) =>
      && cache' == cache
      && l' == (if at > stop then Returned(from, at, stop, out)
                else if at in cache then Loading(from, at + 1, stop, out + cache[at])
                else Fetching(from, at, stop, out))
    case Fetching(from, at, stop, out) =>
      && cache' == cache
      && (|| l' == Returned(from, at, stop, out)
          || (l'.Storing? && Facts(l'.found) == Scan(w, at) && l' == Storing(from, at, stop, out + l'.found, l'.found)))
    case Storing(from, at, stop, out, found) =>
      && cache' == cache[at := found]
      && l' == Loading(from, at + 1, stop, out)
    case Waiting | Returned(_, _, _, _) => false
  }

  ghost predicate Next(w: World, s: State, s': State) {
    || (s'.cache == s.cache && s'.collector == s.collector && exists head, max :: PrimerStarts(s, s'.primer, head, max))
    || (s'.cache == s.cache && s'.primer == s.primer && exists end :: CollectorStarts(w, s, s'.collector, end))
    || (s'.collector == s.collector && LoopStep(w, s.cache, s.primer, s'.cache, s'.primer))
    || (s'.primer == s.primer && LoopStep(w, s.cache, s.collector, s'.cache, s'.collector))
  }

  ghost predicate StepAt(w: World, run: seq<State>, i: nat)
    requires i + 1 < |run|
  {
    Next(w, run[i], run[i + 1])
  }

  ghost predicate IsRun(w: World, run: seq<State>) {
    && |run| > 0
    && run[0] == State(map[], Waiting, Waiting)
    && forall i | 0 <= i < |run| - 1 :: StepAt(w, run, i)
  }

  /** Everything below a running loop's position is cached, and its result so far is the scan. */
  predicate LoopOk(w: World, cache: Cache, l: Loop) {
    && (!l.Waiting? ==> w.base <= l.from <= l.at && CoversTo(cache, w.base, l.at))
    && (!l.Waiting? ==> l.at == l.from || l.at <= l.stop + 1)
    && (l.Loading? || l.Fetching? || l.Returned? ==> Facts(l.out) == ScanRange(w, l.from, l.at))
    && (l.Fetching? || l.Storing? ==> l.at <= l.stop)
    && (l.Storing? ==> Facts(l.out) == ScanRange(w, l.from, l.at + 1) && Facts(l.found) == Scan(w, l.at))
  }

  predicate Inv(w: World, s: State) {
    && Coherent(w, s.cache) && Gapless(w, s.cache)
    && LoopOk(w, s.cache, s.primer) && LoopOk(w, s.cache, s.collector)
    && (!s.collector.Waiting? ==> s.collector.from == w.base)
  }

  lemma StoreOk(w: World, cache: Cache, b: nat, found: seq<Success>)
    requires Coherent(w, cache) && Gapless(w, cache)
    requires w.base <= b && CoversTo(cache, w.base, b) && Facts(found) == Scan(w, b)
    ensures Grew(w, cache, cache[b := found]) && CoversTo(cache[b := found], w.base, b + 1)
  {
  }

  lemma LoopStepOk(w: World, cache: Cache, l: Loop, cache': Cache, l': Loop)
    requires Coherent(w, cache) && Gapless(w, cache) && LoopOk(w, cache, l) && LoopStep(w, cache, l, cache', l')
    ensures Grew(w, cache, cache') && LoopOk(w, cache', l')
    ensures l'.from == l.from
  {
    match l
    case Loading(_, _, _, _) => LoadOk(w, cache, l, l');
    case Fetching(_, _, _, _) => FetchOk(w, cache, l, l');
    case Storing(_, at, _, _, found) => StoreOk(w, cache, at, found);
    case _ =>
  }

  lemma LoadOk(w: World, cache: Cache, l: Loop, l': Loop)
    requires Coherent(w, cache) && Gapless(w, cache) && LoopOk(w, cache, l) && l.Loading?
    requires LoopStep(w, cache, l, cache, l')
    ensures LoopOk(w, cache, l') && l'.from == l.from
  {
    if l'.Loading? {
      FactsAppend(l.out, cache[l.at]);
    }
  }

  lemma FetchOk(w: World, cache: Cache, l: Loop, l': Loop)
    requires LoopOk(w, cache, l) && l.Fetching? && LoopStep(w, cache, l, cache, l')
    ensures LoopOk(w, cache, l') && l'.from == l.from
  {
    if l'.Storing? {
      FactsAppend(l.out, l'.found);
    }
  }

  lemma LoopSurvives(w: World, cache: Cache, cache': Cache, l: Loop)
    requires LoopOk(w, cache, l) && cache.Keys <= cache'.Keys
    ensures LoopOk(w, cache', l)
  {
  }

  lemma StepKeepsInv(w: World, s: State, s': State)
    requires Inv(w, s) && Next(w, s, s')
    ensures Inv(w, s') && Grew(w, s.cache, s'.cache)
  {
    if s'.collector == s.collector && LoopStep(w, s.cache, s.primer, s'.cache, s'.primer) {
      LoopStepOk(w, s.cache, s.primer, s'.cache, s'.primer);
      LoopSurvives(w, s.cache, s'.cache, s.collector);
    } else if s'.primer == s.primer && LoopStep(w, s.cache, s.collector, s'.cache, s'.collector) {
      LoopStepOk(w, s.cache, s.collector, s'.cache, s'.collector);
      LoopSurvives(w, s.cache, s'.cache, s.primer);
    }
  }

  lemma {:induction false} RunInv(w: World, run: seq<State>, i: nat)
    requires IsRun(w, run) && i < |run|
    ensures Inv(w, run[i])
  {
    if i == 0 {
    } else {
      RunInv(w, run, i - 1);
      assert StepAt(w, run, i - 1);
      StepKeepsInv(w, run[i - 1], run[i]);
    }
  }

  /** In every interleaving the cached keys are none or one gap-free interval starting at the run's base,
      so restarting the primer at the highest key skips nothing. */
  lemma CacheHasNoHoles(w: World, run: seq<State>, i: nat, k: nat, j: nat)
    requires IsRun(w, run) && i < |run| && k in run[i].cache
    ensures w.base <= k
    ensures w.base <= j <= k ==> j in run[i].cache
  {
    RunInv(w, run, i);
    assert CoversTo(run[i].cache, w.base, k);
  }

  /** What a collection returns is the scan of its blocks, in block order, as if there were no cache: all
      of base .. stop, or an exact prefix of it if a fetch failed. */
  lemma CollectionIsTransparent(w: World, run: seq<State>, i: nat)
    requires IsRun(w, run) && i < |run| && run[i].collector.Returned?
    ensures var c := run[i].collector;
      && Facts(c.out) == ScanRange(w, w.base, c.at)
      && (c.at > c.stop >= w.base ==> Facts(c.out) == ScanRange(w, w.base, c.stop + 1))
  {
    RunInv(w, run, i);
  }

  /** Entries stay, and stay the same facts, whoever is storing. This is what one goroutine may rely on
      about the other. */
  lemma {:induction false} CacheOnlyGrows(w: World, run: seq<State>, i: nat, j: nat)
    requires IsRun(w, run) && i <= j < |run|
    ensures Grew(w, run[i].cache, run[j].cache)
    decreases j - i
  {
    RunInv(w, run, i);
    if i == j {
    } else {
      CacheOnlyGrows(w, run, i, j - 1);
      RunInv(w, run, j - 1);
      assert StepAt(w, run, j - 1);
      StepKeepsInv(w, run[j - 1], run[j]);
    }
  }
}
