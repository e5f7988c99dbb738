/** The cache as an object and the loop over blocks as code. Between any two of its own accesses the other
    goroutine may store; it keeps what CacheOnlyGrows in BlockCache.dfy promises. */
module Collector {
  import opened Base
  import opened BlockCache

  class SharedCache {
    ghost const world: World
    const blocks: nat -> seq<ChainTx>
    const address: int
    var store: Cache

    ghost predicate Valid()
      reads this
    {
      && world.blocks == blocks && world.address == address
      && Coherent(world, store) && Gapless(world, store)
    }

    constructor (blocks: nat -> seq<ChainTx>, address: int, ghost base: nat)
      ensures Valid() && store == map[]
      ensures world == World(blocks, address, base)
    {
      this.blocks, this.address, this.world := blocks, address, World(blocks, address, base);
      store := map[];
    }

    /** Any number of steps of the other goroutine. */
    method OthersStore()
      requires Valid()
      modifies this
      ensures Valid() && Grew(world, old(store), store)
    {
    }

    /** A block from the client, or an error; `failing` says for which blocks this time. */
    method BlockByNumber(b: nat, failing: set<nat>) returns (r: Option<seq<ChainTx>>)
      ensures r == if b in failing then None else Some(blocks(b))
    {
      r := if b in failing then None else Some(blocks(b));
    }

    /** The validator's index and graffiti as the database has them now, or zero values on an error. */
    method ValidatorInfo(b: nat) returns (validatorIndex: int, graffiti: string)
    {
      validatorIndex, graffiti := 0, "";
    }

    /** 0 for an empty cache, otherwise its highest key. */
    method MaxKey() returns (m: nat)
      ensures m == 0 || m in store
      ensures forall k | k in store :: k <= m
    {
      m := 0;
      var rest := store.Keys;
      while rest != {}
        invariant rest <= store.Keys && (m == 0 || m in store)
        invariant forall k | k in store && k !in rest :: k <= m
        decreases |rest|
      {
        var k :| k in rest;
        rest := rest - {k};
        m := if k > m then k else m;
      }
    }

    /** The successes of one block: `at` tells which of its transactions they are. */
    method ScanBlock(b: nat, txs: seq<ChainTx>) returns (found: seq<Success>, ghost at: seq<nat>)
      requires Valid() && txs == blocks(b)
      ensures Facts(found) == Scan(world, b)
      ensures |at| == |found| && forall j, k | 0 <= j < k < |at| :: at[j] < at[k]
      ensures forall k | 0 <= k < |at| ::
                && at[k] < |txs| && txs[at[k]].to == Some(address)
                && found[k].trigger == Int64(txs[at[k]].value)
                && found[k].included == b && found[k].hash == txs[at[k]].hash
      ensures forall i | 0 <= i < |txs| && txs[i].to == Some(address) :: i in at
    {
      found := [];
      for i := 0 to |txs|
        invariant Facts(found) == ScanTxs(world, txs[..i], b)
      {
        assert txs[..i + 1][..i] == txs[..i];
        var tx := txs[i];
        if tx.to == Some(address) {
          var validatorIndex, graffiti := ValidatorInfo(b);
          var success := Success(Int64(tx.value), b, validatorIndex, graffiti, tx.hash);
          FactsAppend(found, [success]);
          found := found + [success];
        }
      }
      assert txs[..|txs|] == txs;
      at := ScanTxsAre(world, txs, b);
      forall k | 0 <= k < |at|
        ensures found[k].trigger == Int64(txs[at[k]].value)
        ensures found[k].included == b && found[k].hash == txs[at[k]].hash
      {
        assert Facts(found)[k] == FactOf(found[k]);
      }
    }

    /** A cache miss: the block is fetched, scanned and stored, or the fetch fails. */
    method FetchAndStore(b: nat, failing: set<nat>) returns (found: Option<seq<Success>>)
      requires Valid() && world.base <= b && CoversTo(store, world.base, b)
      modifies this
      ensures Valid() && Grew(world, old(store), store)
      ensures found.None? <==> b in failing
      ensures found.Some? ==> Facts(found.value) == Scan(world, b) && b in store
    {
      OthersStore();
      var block := BlockByNumber(b, failing);
      if block.None? {
        return None;
      }
      var successForBlock, at := ScanBlock(b, block.value);
      OthersStore();
      StoreOk(world, store, b, successForBlock);
      store := store[b := successForBlock];
      found := Some(successForBlock);
    }

    /** One round of the loop below: the block's successes from the cache, or fetched and stored. */
    method LoadOrFetch(b: nat, failing: set<nat>) returns (found: Option<seq<Success>>)
      requires Valid() && world.base <= b && CoversTo(store, world.base, b)
      modifies this
      ensures Valid() && Grew(world, old(store), store)
      ensures found.None? ==> b in failing
      ensures found.Some? ==> Facts(found.value) == Scan(world, b) && b in store
    {
      OthersStore();
      if b in store {
        found := Some(store[b]);
      } else {
        found := FetchAndStore(b, failing);
      }
    }

    lemma FactsAreTransactions(result: seq<Success>, startBlock: nat, next: nat) returns (at: seq<(nat, nat)>)
      requires Valid() && Facts(result) == ScanRange(world, startBlock, next)
      ensures |at| == |result|
      ensures forall k | 0 <= k < |at| ::
                && startBlock <= at[k].0 < next && at[k].1 < |blocks(at[k].0)|
                && blocks(at[k].0)[at[k].1].to == Some(address)
                && result[k].trigger == Int64(blocks(at[k].0)[at[k].1].value) && result[k].included == at[k].0
                && result[k].hash == blocks(at[k].0)[at[k].1].hash
      ensures forall j, k | 0 <= j < k < |at| :: at[j].0 < at[k].0 || (at[j].0 == at[k].0 && at[j].1 < at[k].1)
      ensures forall b, i | startBlock <= b < next && 0 <= i < |blocks(b)| && blocks(b)[i].to == Some(address) ::
                (b, i) in at
    {
      at := ScanRangeIs(world, startBlock, next);
      forall k | 0 <= k < |at|
        ensures result[k].trigger == Int64(blocks(at[k].0)[at[k].1].value) && result[k].included == at[k].0
        ensures result[k].hash == blocks(at[k].0)[at[k].1].hash
      {
        assert Facts(result)[k] == FactOf(result[k]);
      }
    }

    /** The loop: block by block from the cache, or from the client and into the cache; it stops at the first
        missing block that cannot be fetched, without reporting an error. `next` is the block it did not get
        past. */
    method CollectBlocks(startBlock: nat, endBlock: nat, failing: set<nat>)
      returns (result: seq<Success>, ghost next: nat)
      requires Valid()
      requires world.base <= startBlock && CoversTo(store, world.base, startBlock)
      modifies this
      ensures Valid() && Grew(world, old(store), store)
      ensures startBlock <= next && Facts(result) == ScanRange(world, startBlock, next)
      ensures next <= endBlock ==> next in failing
      ensures next == endBlock + 1 || next == startBlock || next in failing
      ensures CoversTo(store, world.base, next)
    {
      result := [];
      var blockNum := startBlock;
      while blockNum <= endBlock
        invariant Valid() && Grew(world, old(store), store)
        invariant startBlock <= blockNum && (blockNum <= endBlock + 1 || blockNum == startBlock)
        invariant Facts(result) == ScanRange(world, startBlock, blockNum)
        invariant CoversTo(store, world.base, blockNum)
        decreases endBlock + 1 - blockNum
      {
        ghost var before := store;
        var found := LoadOrFetch(blockNum, failing);
        CoversMore(before, store, world.base, blockNum);
        if found.None? {
          return result, blockNum;
        }
        FactsAppend(result, found.value);
        result := result + found.value;
        CoversNext(store, world.base, blockNum);
        blockNum := blockNum + 1;
      }
      next := blockNum;
    }

    /** collectSubmitIncomingTx: the successes are the transactions to the tool's address in the blocks from the
        first to before `next`, all of them and no others, by block and then by position (`at`), each with its
        own value, block and hash. */
    method CollectSubmitIncomingTx(startBlock: nat, endBlock: nat, failing: set<nat>)
      returns (result: seq<Success>, ghost next: nat, ghost at: seq<(nat, nat)>)
      requires Valid()
      requires world.base <= startBlock && CoversTo(store, world.base, startBlock)
      modifies this
      ensures Valid() && Grew(world, old(store), store)
      ensures startBlock <= next && Facts(result) == ScanRange(world, startBlock, next)
      ensures next <= endBlock ==> next in failing
      ensures next == endBlock + 1 || next == startBlock || next in failing
      ensures CoversTo(store, world.base, next)
      ensures |at| == |result|
      ensures forall k | 0 <= k < |at| ::
                && startBlock <= at[k].0 < next && at[k].1 < |blocks(at[k].0)|
                && blocks(at[k].0)[at[k].1].to == Some(address)
                && result[k].trigger == Int64(blocks(at[k].0)[at[k].1].value) && result[k].included == at[k].0
                && result[k].hash == blocks(at[k].0)[at[k].1].hash
      ensures forall j, k | 0 <= j < k < |at| :: at[j].0 < at[k].0 || (at[j].0 == at[k].0 && at[j].1 < at[k].1)
      ensures forall b, i | startBlock <= b < next && 0 <= i < |blocks(b)| && blocks(b)[i].to == Some(address) ::
                (b, i) in at
    {
      result, next := CollectBlocks(startBlock, endBlock, failing);
      at := FactsAreTransactions(result, startBlock, next);
    }

    /** The primer's reaction to a new head. Once the cache holds a block other than 0, and unless a fetch
        fails, the cache then reaches from the base to the head. */
    method OnNewHead(head: nat, failing: set<nat>)
      requires Valid()
      modifies this
      ensures Valid() && Grew(world, old(store), store)
      ensures failing == {} && (exists k :: k in old(store) && k > 0) ==>
                forall b | world.base <= b <= head :: b in store
    {
      var maxCached := MaxKey();
      OthersStore();
      if 0 < maxCached < head {
        assert CoversTo(store, world.base, maxCached);
        var _, next, at := CollectSubmitIncomingTx(maxCached, head, failing);
      }
    }
  }
}
