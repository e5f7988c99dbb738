/** The tester's own objects: accounts with a local nonce, transactions whose fields a watcher writes,
    and the configuration that holds the two lists (continuous/config.go, continuous/continuous.go,
    continuous/tx.go, utils/utils.go). */
module Tester {
  import opened Base
  import opened Hex
  import opened Codec
  import opened Lifecycle
  import opened Sweep
  import opened GoSlices
  import Protocol
  import Invariants

  class Account {
    const address: Address
    var nonce: nat

    constructor (address: Address, nonce: nat)
      ensures this.address == address && this.nonce == nonce
    {
      this.address := address;
      this.nonce := nonce;
    }

    /** Returns the stored nonce and increases it. */
    method UseNonce() returns (n: nat)
      modifies this
      ensures n == old(nonce) && nonce == old(nonce) + 1
    {
      n := nonce;
      nonce := n + 1;
    }
  }

  /** The transaction that gives up a nonce: from an account to itself. */
  datatype ForfeitTx = ForfeitTx(from: Account, to: Account, nonce: nat, value: nat)

  /** What is inside the outer transaction, and what is on it. */
  datatype InnerTx = InnerTx(to: Address, nonce: nat, value: nat, hash: int)
  datatype OuterTx = OuterTx(nonce: nat, prefix: seq<byte>, identity: seq<byte>)

  class ShutterTx {
    const sender: Account
    const inner: InnerTx
    const outer: OuterTx
    const triggerBlock: nat
    const targetSlot: int
    var submissionBlock: nat
    var inclusionBlock: nat
    var cancelBlock: nat
    var txStatus: Status
    var ctx: Ctx

    constructor (sender: Account, inner: InnerTx, outer: OuterTx, triggerBlock: nat, targetSlot: int)
      ensures this.sender == sender && this.inner == inner && this.outer == outer
      ensures this.triggerBlock == triggerBlock && this.targetSlot == targetSlot
      ensures submissionBlock == 0 && inclusionBlock == 0 && cancelBlock == 0 && txStatus == Signed && ctx == Live
    {
      this.sender, this.inner, this.outer := sender, inner, outer;
      this.triggerBlock, this.targetSlot := triggerBlock, targetSlot;
      submissionBlock, inclusionBlock, cancelBlock, txStatus, ctx := 0, 0, 0, Signed, Live;
    }

    /** The trigger, twice: as the value sent to this address, and in the prefix of the outer transaction. */
    predicate Carries(blockNumber: nat, to: Address) {
      && inner.to == to && inner.value == blockNumber
      && |outer.prefix| == 32 && BlockNumberFromPrefix(outer.prefix) == blockNumber
      && |outer.identity| == 52 && MatchesTrigger(outer.identity, blockNumber, to)
    }

    function Look(): Glance
      reads this`txStatus, this`submissionBlock, this`inclusionBlock
    {
      Glance(txStatus, submissionBlock, inclusionBlock)
    }

    /** The transaction as the step machine sees it, with its watcher at pc; the machine's number for the
        sender is left at 0, here the sender is an object. */
    function Record(pc: Pc): Tx
      reads this
    {
      Tx(0, inner.nonce, outer.nonce, triggerBlock, txStatus, submissionBlock, inclusionBlock, ctx, pc)
    }

    method CancelCtx()
      modifies this`ctx
      ensures ctx == Cancel(old(ctx))
    {
      if ctx.Live? {
        ctx := Canceled;
      }
    }

    /** One round of the sweep's second loop: should this transaction leave the in-flight list? */
    method Judge(highest: nat, blockNumber: nat) returns (done: bool)
      modifies this`ctx, this`cancelBlock
      ensures done == Leaves(Look(), highest)
      ensures if Stale(Look(), highest) then ctx == Cancel(old(ctx)) && cancelBlock == blockNumber
              else ctx == old(ctx) && cancelBlock == old(cancelBlock)
      ensures done <==> || txStatus == Included || txStatus == SystemFailure
                        || (txStatus == Sequenced && highest > submissionBlock)
      ensures if txStatus == Sequenced && highest > submissionBlock
              then cancelBlock == blockNumber && ctx == if old(ctx).Live? then Canceled else old(ctx)
              else cancelBlock == old(cancelBlock) && ctx == old(ctx)
    {
      done := false;
      match txStatus {
        case Sequenced =>
          if highest > submissionBlock {
            CancelCtx();
            cancelBlock := blockNumber;
            done := true;
          }
        case Included => done := true;
        case SystemFailure => done := true;
        case Signed | NotSequenced | NotIncluded =>
      }
    }

    /** WatchTx from start to return, for a given script of what the waits return, what the selects find the
        context to be, and how the calls behind a forfeit end. */
    method WatchTx(o: Script) returns (how: Exit, sent: seq<ForfeitTx>)
      modifies this`txStatus, this`submissionBlock, this`inclusionBlock, this`ctx
      ensures Record(Exited(how)) == Play(old(Record(FirstWait)), o)
      ensures var f := o.forfeit;
        var confirmed := f.chainId && f.gas && f.sign && f.send && f.wait.Receipt? && f.wait.ok;
        how == if o.ctxFirst.Canceled? then NeverSequenced
               else if o.ctxFirst.DeadlineExceeded? then ExpiredUnsequenced
               else if o.first.Failed? then Panicked
               else if !o.first.ok then Forfeited(Rejected, confirmed)
               else if o.ctxSecond.Canceled? then Forfeited(Superseded, confirmed)
               else if o.ctxSecond.DeadlineExceeded? then Forfeited(TimedOut, confirmed)
               else if o.second.Failed? then Lost
               else Landed
      ensures txStatus == if how.NeverSequenced? then NotSequenced
                          else if how.Landed? then Included
                          else if how.Forfeited? && how.reason.Superseded? then NotIncluded
                          else SystemFailure
      ensures submissionBlock == if o.ctxFirst.Live? && o.first.Receipt? && o.first.ok then o.first.block
                                 else old(submissionBlock)
      ensures inclusionBlock == if how.Landed? then o.second.block else old(inclusionBlock)
      ensures !ctx.Live?
      ensures sent == if how.Forfeited? && o.forfeit.chainId && o.forfeit.gas && o.forfeit.sign && o.forfeit.send
                      then [ForfeitTx(sender, sender, inner.nonce, 1)] else []
    {
      PlayOne(Record(FirstWait), o);
      PlayOne(Record(FirstSelect(o.first)), o);
      sent := [];
      ctx := o.ctxFirst;
      if ctx == Canceled {
        txStatus := NotSequenced;
        CancelCtx();
        return NeverSequenced, [];
      }
      if ctx == DeadlineExceeded {
        txStatus := SystemFailure;
        CancelCtx();
        return ExpiredUnsequenced, [];
      }
      if o.first.Failed? {
        txStatus := SystemFailure;
        CancelCtx();
        return Panicked, [];
      }
      if o.first.ok {
        txStatus := Sequenced;
        PlayOne(Record(WriteSubmission(o.first.block)), o);
        submissionBlock := o.first.block;
        how, sent := AwaitInclusion(o);
      } else {
        txStatus := SystemFailure;
        how, sent := RunForfeit(Rejected, o);
        CancelCtx();
      }
    }

    /** The second half of WatchTx, entered once the submission is known to be mined. */
    method AwaitInclusion(o: Script) returns (how: Exit, sent: seq<ForfeitTx>)
      modifies this`txStatus, this`inclusionBlock, this`ctx
      ensures Record(Exited(how)) == Play(old(Record(SecondWait)), o)
      ensures var f := o.forfeit;
        var confirmed := f.chainId && f.gas && f.sign && f.send && f.wait.Receipt? && f.wait.ok;
        how == if o.ctxSecond.Canceled? then Forfeited(Superseded, confirmed)
               else if o.ctxSecond.DeadlineExceeded? then Forfeited(TimedOut, confirmed)
               else if o.second.Failed? then Lost
               else Landed
      ensures txStatus == if how.Landed? then Included
                          else if how.Forfeited? && how.reason.Superseded? then NotIncluded
                          else SystemFailure
      ensures inclusionBlock == if how.Landed? then o.second.block else old(inclusionBlock)
      ensures !ctx.Live?
      ensures sent == if how.Forfeited? && o.forfeit.chainId && o.forfeit.gas && o.forfeit.sign && o.forfeit.send
                      then [ForfeitTx(sender, sender, inner.nonce, 1)] else []
    {
      PlayOne(Record(SecondWait), o);
      PlayOne(Record(SecondSelect(o.second)), o);
      sent := [];
      ctx := o.ctxSecond;
      if ctx == Canceled {
        how, sent := RunForfeit(Superseded, o);
        txStatus := NotIncluded;
        CancelCtx();
        return;
      }
      if ctx == DeadlineExceeded {
        how, sent := RunForfeit(TimedOut, o);
        txStatus := SystemFailure;
        CancelCtx();
        return;
      }
      if o.second.Failed? {
        txStatus := SystemFailure;
        CancelCtx();
        return Lost, [];
      }
      txStatus := Included;
      PlayOne(Record(WriteInclusion(o.second.block)), o);
      inclusionBlock := o.second.block;
      CancelCtx();
      how := Landed;
    }

    /** The watcher's call of forfeitNonce, and what it makes of the error. */
    method RunForfeit(reason: Reason, o: Script) returns (how: Exit, sent: seq<ForfeitTx>)
      ensures var f := o.forfeit;
        && how == Forfeited(reason, f.chainId && f.gas && f.sign && f.send && f.wait.Receipt? && f.wait.ok)
        && sent == if f.chainId && f.gas && f.sign && f.send then [ForfeitTx(sender, sender, inner.nonce, 1)] else []
      ensures Play(Record(Forfeiting(reason)), o)
           == Leave(Record(Closing(reason, how.mined)), ClosingStatus(txStatus, reason), how)
    {
      var err;
      err, sent := ForfeitNonce(inner.nonce, sender, o.forfeit);
      how := Forfeited(reason, !err);
      PlayOne(Record(Forfeiting(reason)), o);
      if o.forfeit.Sends() {
        PlayOne(Record(AwaitForfeit(reason)), o);
      }
      PlayOne(Record(Closing(reason, how.mined)), o);
    }

    /** forfeitNonce: one wei from the account to itself with the nonce to be freed, sent unless a call
        before fails, and an error unless the wait ends with status 1. */
    static method ForfeitNonce(nonce: nat, account: Account, calls: ForfeitCalls)
      returns (err: bool, sent: seq<ForfeitTx>)
      ensures sent == if calls.chainId && calls.gas && calls.sign && calls.send
                      then [ForfeitTx(account, account, nonce, 1)] else []
      ensures !err <==> sent != [] && calls.wait.Receipt? && calls.wait.ok
    {
      sent := [];
      if !calls.chainId {
        return true, sent;
      }
      if !calls.gas {
        return true, sent;
      }
      var tx := ForfeitTx(account, account, nonce, 1);
      if !calls.sign {
        return true, sent;
      }
      if !calls.send {
        return true, sent;
      }
      sent := [tx];
      if calls.wait.Failed? {
        return true, sent;
      }
      if !calls.wait.ok {
        return true, sent;
      }
      err := false;
    }
  }

  datatype Delivery = Delivery(number: BlockNumber, targetSlot: int, innerHash: int)

  /** The nonces of the accounts once i transactions have been dealt round robin. */
  function Shared(nonces0: seq<nat>, i: nat): (now: seq<nat>)
    ensures |now| == |nonces0|
  {
    seq(|nonces0|, a requires 0 <= a < |nonces0| => nonces0[a] + Protocol.Share(i, |nonces0|, a))
  }

  lemma SharedNext(nonces0: seq<nat>, i: nat)
    requires |nonces0| > 0
    ensures var now, turn := Shared(nonces0, i), i % |nonces0|;
      now[turn] == nonces0[turn] + i / |nonces0| && Shared(nonces0, i + 1) == now[turn := now[turn] + 1]
  {
    Invariants.ShareNext(i, |nonces0|);
  }

  const STATS_INTERVAL := 12

  /** The driver's startBlock after i deliveries. */
  function FirstBlock(blocks: seq<Delivery>, i: nat): nat
    requires i <= |blocks|
  {
    if i == 0 then 0
    else if FirstBlock(blocks, i - 1) != 0 then FirstBlock(blocks, i - 1)
    else blocks[i - 1].number
  }

  /** When the statistics were last collected, after i deliveries. */
  function LastStats(clock: seq<int>, i: nat): int
    requires i < |clock|
  {
    if i == 0 then clock[0]
    else if clock[i] - LastStats(clock, i - 1) > STATS_INTERVAL then clock[i]
    else LastStats(clock, i - 1)
  }

  /** The block ranges asked for in the first i rounds. */
  function Asked(blocks: seq<Delivery>, clock: seq<int>, i: nat): seq<(nat, nat)>
    requires i <= |blocks| && |clock| == |blocks| + 1
  {
    if i == 0 then []
    else
      Asked(blocks, clock, i - 1)
        + if clock[i] - LastStats(clock, i - 1) > STATS_INTERVAL
          then [(FirstBlock(blocks, i), blocks[i - 1].number)] else []
  }

  /** It is the first delivered number other than 0, from that delivery on. */
  lemma {:induction false} FirstBlockIs(blocks: seq<Delivery>, i: nat) returns (k: nat)
    requires i <= |blocks|
    ensures FirstBlock(blocks, i) == 0 ==> forall j | 0 <= j < i :: blocks[j].number == 0
    ensures FirstBlock(blocks, i) != 0 ==>
      k < i && blocks[k].number == FirstBlock(blocks, i) && forall j | 0 <= j < k :: blocks[j].number == 0
  {
    k := 0;
    if i == 0 {
    } else {
      k := FirstBlockIs(blocks, i - 1);
      if FirstBlock(blocks, i - 1) == 0 {
        k := i - 1;
      }
    }
  }

  lemma {:induction false} FirstBlockStays(blocks: seq<Delivery>, i: nat, j: nat)
    requires i <= j <= |blocks| && FirstBlock(blocks, i) != 0
    ensures FirstBlock(blocks, j) == FirstBlock(blocks, i)
  {
    if i == j {
    } else {
      FirstBlockStays(blocks, i, j - 1);
    }
  }

  /** All collections of a run start at one and the same block, the first one delivered, as long as
      deliveries have numbers other than 0. This is the base the block cache relies on. */
  lemma {:induction false} CollectionsShareStart(blocks: seq<Delivery>, clock: seq<int>, i: nat, range: (nat, nat))
    requires i <= |blocks| && |clock| == |blocks| + 1 && range in Asked(blocks, clock, i)
    requires forall j | 0 <= j < |blocks| :: blocks[j].number != 0
    ensures range.0 == blocks[0].number > 0
  {
    if range in Asked(blocks, clock, i - 1) {
      CollectionsShareStart(blocks, clock, i - 1, range);
    } else {
      FirstBlockStays(blocks, 1, i);
    }
  }

  /** The time of the last collection: the start at first, then the time after each round that comes more than
      12 seconds later. */
  lemma {:induction false} LastStatsIs(clock: seq<int>, i: nat)
    requires i < |clock|
    ensures i == 0 ==> LastStats(clock, i) == clock[0]
    ensures forall j | 0 <= j < i ::
              LastStats(clock, j + 1)
                == if clock[j + 1] - LastStats(clock, j) > 12 then clock[j + 1] else LastStats(clock, j)
  {
    if i == 0 {
    } else {
      LastStatsIs(clock, i - 1);
    }
  }

  /** The rounds among the first i in which the statistics are collected. */
  function Rounds(clock: seq<int>, i: nat): (r: seq<nat>)
    requires i < |clock|
    ensures forall q | 0 <= q < |r| :: r[q] < i
  {
    if i == 0 then []
    else Rounds(clock, i - 1) + if clock[i] - LastStats(clock, i - 1) > STATS_INTERVAL then [i - 1] else []
  }

  /** They are, in order, those that come more than 12 seconds after the last collection. */
  lemma {:induction false} RoundsAre(clock: seq<int>, i: nat)
    requires i < |clock|
    ensures forall q, r | 0 <= q < r < |Rounds(clock, i)| :: Rounds(clock, i)[q] < Rounds(clock, i)[r]
    ensures forall j | 0 <= j < i :: j in Rounds(clock, i) <==> clock[j + 1] - LastStats(clock, j) > 12
  {
    if i == 0 {
    } else {
      RoundsAre(clock, i - 1);
      var before, rounds := Rounds(clock, i - 1), Rounds(clock, i);
      forall j | 0 <= j < i ensures j in rounds <==> j in before || (j == i - 1 && |rounds| > |before|) {
        if |rounds| > |before| {
          assert rounds == before + [i - 1];
        }
      }
    }
  }

  /** And each collects up to the block just delivered. */
  lemma {:induction false} AskedIs(blocks: seq<Delivery>, clock: seq<int>, i: nat)
    requires i <= |blocks| && |clock| == |blocks| + 1
    ensures |Asked(blocks, clock, i)| == |Rounds(clock, i)|
    ensures forall q | 0 <= q < |Rounds(clock, i)| :: Asked(blocks, clock, i)[q].1 == blocks[Rounds(clock, i)[q]].number
  {
    if i == 0 {
    } else {
      AskedIs(blocks, clock, i - 1);
    }
  }

  /** The last transaction with a hash decides; transactions without a target slot are left out. */
  function TargetSlots(txs: seq<ShutterTx>): map<int, int> {
    if txs == [] then map[]
    else
      var rest, tx := TargetSlots(txs[..|txs| - 1]), txs[|txs| - 1];
      if tx.targetSlot != 0 then rest[tx.inner.hash := tx.targetSlot] else rest
  }

  /** The map holds a hash exactly when a transaction with a target slot has it, and then the last such slot. */
  lemma {:induction false} TargetSlotsAre(txs: seq<ShutterTx>, h: int) returns (i: nat)
    ensures h !in TargetSlots(txs) ==> forall j | 0 <= j < |txs| && txs[j].inner.hash == h :: txs[j].targetSlot == 0
    ensures h in TargetSlots(txs) ==>
      && i < |txs| && txs[i].inner.hash == h && txs[i].targetSlot != 0 && TargetSlots(txs)[h] == txs[i].targetSlot
      && forall j | i < j < |txs| && txs[j].inner.hash == h :: txs[j].targetSlot == 0
  {
    i := 0;
    if txs == [] {
    } else {
      var n := |txs| - 1;
      i := TargetSlotsAre(txs[..n], h);
      assert forall j | 0 <= j < n :: txs[..n][j] == txs[j];
      if txs[n].inner.hash == h && txs[n].targetSlot != 0 {
        i := n;
      }
    }
  }

  /** With distinct hashes the map holds exactly the target slots of the transactions that have one. */
  lemma {:induction false} TargetSlotsAreExact(txs: seq<ShutterTx>)
    requires forall i, j | 0 <= i < j < |txs| :: txs[i].inner.hash != txs[j].inner.hash
    ensures forall h :: h in TargetSlots(txs)
                   <==> exists i :: 0 <= i < |txs| && txs[i].inner.hash == h && txs[i].targetSlot != 0
    ensures forall i | 0 <= i < |txs| && txs[i].targetSlot != 0 ::
              TargetSlots(txs)[txs[i].inner.hash] == txs[i].targetSlot
  {
    if txs == [] {
    } else {
      var n := |txs| - 1;
      TargetSlotsAreExact(txs[..n]);
      assert forall i | 0 <= i < n :: txs[..n][i] == txs[i];
    }
  }

  /** The status of a run and the accounts it draws on. */
  class Configuration {
    const accounts: seq<Account>
    const submitAccount: Account
    var txInFlight: Slice<ShutterTx>
    var txDone: Slice<ShutterTx>

    /** The two lists never share a backing array: growing one cannot write into the other. */
    ghost predicate Valid()
      reads this
    {
      && |accounts| > 0
      && (forall i, j | 0 <= i < j < |accounts| :: accounts[i] != accounts[j])
      && submitAccount !in accounts
      && txInFlight.Fits() && txDone.Fits()
      && txInFlight.arr != txDone.arr
    }

    ghost function InFlight(): seq<ShutterTx>
      reads this, txInFlight.arr
      requires Valid()
    {
      View(txInFlight)
    }

    ghost function Done(): seq<ShutterTx>
      reads this, txDone.arr
      requires Valid()
    {
      View(txDone)
    }

    constructor (accounts: seq<Account>, submitAccount: Account)
      requires |accounts| > 0 && submitAccount !in accounts
      requires forall i, j | 0 <= i < j < |accounts| :: accounts[i] != accounts[j]
      ensures Valid() && InFlight() == [] && Done() == []
      ensures this.accounts == accounts && this.submitAccount == submitAccount
      ensures fresh(txInFlight.arr) && fresh(txDone.arr)
    {
      this.accounts, this.submitAccount := accounts, submitAccount;
      var a := Nil<ShutterTx>();
      var b := Nil<ShutterTx>();
      txInFlight, txDone := a, b;
    }

    function TxCount(): (n: nat)
      reads this, txInFlight.arr, txDone.arr
      requires Valid()
      ensures n == |InFlight()| + |Done()|
    {
      txInFlight.len + txDone.len
    }

    /** Round robin over the accounts by the number of transactions in both lists. */
    function NextAccount(): (a: Account)
      reads this, txInFlight.arr, txDone.arr
      requires Valid()
      ensures a in accounts && a == accounts[(|InFlight()| + |Done()|) % |accounts|]
    {
      accounts[Turn(TxCount())]
    }

    method AddTxInFlight(t: ShutterTx)
      requires Valid()
      modifies this`txInFlight, txInFlight.arr
      ensures Valid() && (txInFlight.arr == old(txInFlight.arr) || fresh(txInFlight.arr))
      ensures InFlight() == old(InFlight()) + [t] && Done() == old(Done())
    {
      txInFlight := Append(txInFlight, [t]);
    }

    /** The next transaction: account by count, one nonce of that account, one of the submit account. The
        trigger travels in the prefix of the outer and as the value of the inner transaction, which goes to
        the submit account. */
    method SendShutterizedTX(blockNumber: BlockNumber, targetSlot: int, innerHash: int) returns (tx: ShutterTx)
      requires Valid()
      modifies this`txInFlight, txInFlight.arr, NextAccount(), submitAccount
      ensures Valid() && (txInFlight.arr == old(txInFlight.arr) || fresh(txInFlight.arr))
      ensures fresh(tx) && InFlight() == old(InFlight()) + [tx] && Done() == old(Done())
      ensures tx.sender == old(NextAccount()) && tx.triggerBlock == blockNumber && tx.targetSlot == targetSlot
      ensures tx.Carries(blockNumber, submitAccount.address) && tx.inner.hash == innerHash
      ensures tx.inner.value == blockNumber && tx.inner.to == submitAccount.address
      ensures |tx.outer.prefix| == 32 && BlockNumberFromPrefix(tx.outer.prefix) == blockNumber
      ensures tx.outer.identity == tx.outer.prefix + submitAccount.address
      ensures tx.inner.nonce == old(NextAccount().nonce) && tx.outer.nonce == old(submitAccount.nonce)
      ensures old(NextAccount()).nonce == old(NextAccount().nonce) + 1
      ensures submitAccount.nonce == old(submitAccount.nonce) + 1
      ensures tx.Record(FirstWait) == NewTx(0, tx.inner.nonce, tx.outer.nonce, blockNumber)
    {
      var account := NextAccount();
      var identityPrefix := PrefixFromBlockNumber(blockNumber);
      var identity := Preimage(identityPrefix, submitAccount.address);
      PrefixRoundTrip(blockNumber);
      PreimageMatchesIff(blockNumber, submitAccount.address, blockNumber, submitAccount.address);
      var innerNonce := account.UseNonce();
      var inner := InnerTx(submitAccount.address, innerNonce, blockNumber, innerHash);
      var outerNonce := submitAccount.UseNonce();
      tx := new ShutterTx(account, inner, OuterTx(outerNonce, identityPrefix, identity), blockNumber, targetSlot);
      AddTxInFlight(tx);
    }

    /** What a sweep will read of each transaction of the list. */
    static ghost function Looks(ts: seq<ShutterTx>): (vs: seq<Glance>)
      reads ts
      ensures |vs| == |ts| && forall i | 0 <= i < |ts| :: vs[i] == ts[i].Look()
    {
      seq(|ts|, i requires 0 <= i < |ts| reads ts => ts[i].Look())
    }

    /** First loop of the sweep. */
    method HighestInclusion() returns (high: nat)
      requires Valid()
      ensures high == Highest(Looks(InFlight()))
      ensures forall t | t in InFlight() :: t.inclusionBlock <= high
      ensures high == 0 || exists t :: t in InFlight() && t.inclusionBlock == high
    {
      ghost var vs := Looks(InFlight());
      high := 0;
      for i := 0 to txInFlight.len
        invariant high == Highest(vs[..i])
      {
        assert vs[..i + 1][..i] == vs[..i];
        var tx := txInFlight.arr[i];
        if tx.inclusionBlock > high {
          high := tx.inclusionBlock;
        }
      }
      assert vs[..|vs|] == vs;
      ghost var list := InFlight();
      HighestIsHighest(vs);
      forall t | t in list ensures t.inclusionBlock <= high {
        var j :| 0 <= j < |list| && list[j] == t;
        assert vs[j].inclusionBlock <= high;
      }
      if high != 0 {
        ghost var j :| 0 <= j < |vs| && vs[j].inclusionBlock == high;
        assert list[j] in list;
      }
    }

    /** What a sweep with this highest inclusion has done once it has judged the objects of `seen`:
        the stale ones among them are cancelled, nothing else has changed since `before`. */
    static ghost predicate Judged(all: set<ShutterTx>, seen: set<ShutterTx>, before: map<ShutterTx, (Ctx, nat)>,
                                  highest: nat, blockNumber: nat)
      reads all
    {
      && all <= before.Keys
      && forall t | t in all ::
        if t in seen && Stale(t.Look(), highest)
        then t.ctx == Cancel(before[t].0) && t.cancelBlock == blockNumber
        else t.ctx == before[t].0 && t.cancelBlock == before[t].1
    }

    /** The contexts and cancel blocks of a set of transactions. */
    static ghost function Marks(all: set<ShutterTx>): map<ShutterTx, (Ctx, nat)>
      reads all
    {
      map t | t in all :: (t.ctx, t.cancelBlock)
    }

    static method JudgeNext(tx: ShutterTx, highest: nat, blockNumber: nat, ghost all: set<ShutterTx>,
                            ghost seen: set<ShutterTx>, ghost before: map<ShutterTx, (Ctx, nat)>)
      returns (leaves: bool)
      requires tx in all && Judged(all, seen, before, highest, blockNumber)
      modifies tx`ctx, tx`cancelBlock
      ensures leaves == Leaves(tx.Look(), highest)
      ensures Judged(all, seen + {tx}, before, highest, blockNumber)
    {
      leaves := tx.Judge(highest, blockNumber);
    }

    static ghost function Objects(list: seq<ShutterTx>): set<ShutterTx> {
      set t | t in list
    }

    /** The slices under construction after i rounds of the second loop. */
    static ghost predicate Built(stay: Slice<ShutterTx>, go: Slice<ShutterTx>, done: seq<ShutterTx>,
                                 list: seq<ShutterTx>, out: seq<bool>, i: nat)
      requires |list| == |out| && i <= |list|
      reads stay.arr, go.arr
    {
      && stay.Fits() && go.Fits() && stay.arr != go.arr
      && GoSlices.View(stay) == Pick(list[..i], out[..i], false)
      && GoSlices.View(go) == done + Pick(list[..i], out[..i], true)
    }

    /** Appends list[i] to the slice its verdict calls for. */
    static method SortNext(stay: Slice<ShutterTx>, go: Slice<ShutterTx>, ghost done: seq<ShutterTx>,
                           ghost list: seq<ShutterTx>, ghost out: seq<bool>, ghost i: nat, tx: ShutterTx, leaves: bool)
      returns (stay': Slice<ShutterTx>, go': Slice<ShutterTx>)
      requires |list| == |out| && i < |list| && tx == list[i] && leaves == out[i]
      requires Built(stay, go, done, list, out, i)
      modifies stay.arr, go.arr
      ensures Built(stay', go', done, list, out, i + 1)
      ensures (stay'.arr == stay.arr || fresh(stay'.arr)) && (go'.arr == go.arr || fresh(go'.arr))
    {
      PickNext(list, out, false, i);
      PickNext(list, out, true, i);
      stay', go' := stay, go;
      if leaves {
        go' := Append(go, [tx]);
      } else {
        stay' := Append(stay, [tx]);
      }
    }

    static predicate VerdictIs(tx: ShutterTx, leaves: bool, highest: nat)
      reads tx`txStatus, tx`submissionBlock, tx`inclusionBlock
    {
      leaves == Leaves(tx.Look(), highest)
    }

    /** One round of the second loop. */
    static method Round(tx: ShutterTx, highest: nat, blockNumber: nat, stay: Slice<ShutterTx>, go: Slice<ShutterTx>,
                        ghost done: seq<ShutterTx>, ghost list: seq<ShutterTx>, ghost out: seq<bool>, ghost i: nat,
                        ghost before: map<ShutterTx, (Ctx, nat)>)
      returns (stay': Slice<ShutterTx>, go': Slice<ShutterTx>)
      requires |list| == |out| && i < |list| && tx == list[i] && VerdictIs(tx, out[i], highest)
      requires Built(stay, go, done, list, out, i)
      requires Judged(Objects(list), Objects(list[..i]), before, highest, blockNumber)
      modifies tx`ctx, tx`cancelBlock, stay.arr, go.arr
      ensures Built(stay', go', done, list, out, i + 1)
      ensures Judged(Objects(list), Objects(list[..i + 1]), before, highest, blockNumber)
      ensures (stay'.arr == stay.arr || fresh(stay'.arr)) && (go'.arr == go.arr || fresh(go'.arr))
    {
      ObjectsNext(list, i);
      var leaves := JudgeNext(tx, highest, blockNumber, Objects(list), Objects(list[..i]), before);
      stay', go' := SortNext(stay, go, done, list, out, i, tx, leaves);
    }

    /** Second loop of the sweep, for given verdicts: the new in-flight list is built in a fresh slice, the
        new done list grows out of the old one, in place where the capacity allows. */
    method SortInFlight(highest: nat, blockNumber: nat, ghost list: seq<ShutterTx>, ghost out: seq<bool>)
      returns (newInflight: Slice<ShutterTx>, newDone: Slice<ShutterTx>)
      requires Valid() && list == InFlight() && |out| == |list|
      requires forall i {:trigger VerdictIs(list[i], out[i], highest)} | 0 <= i < |list| ::
                 VerdictIs(list[i], out[i], highest)
      modifies txDone.arr, Objects(list)`ctx, Objects(list)`cancelBlock
      ensures fresh(newInflight.arr) && (newDone.arr == txDone.arr || fresh(newDone.arr))
      ensures newInflight.Fits() && newDone.Fits() && newInflight.arr != newDone.arr
      ensures GoSlices.View(newInflight) == Pick(list, out, false)
      ensures GoSlices.View(newDone) == old(Done()) + Pick(list, out, true)
      ensures Judged(Objects(list), Objects(list), old(Marks(Objects(list))), highest, blockNumber)
    {
      ghost var before := Marks(Objects(list));
      PickNone(list, out, false);
      PickNone(list, out, true);
      newInflight := Nil<ShutterTx>();
      newDone := txDone;
      for i := 0 to txInFlight.len
        invariant fresh(newInflight.arr) && (newDone.arr == txDone.arr || fresh(newDone.arr))
        invariant Built(newInflight, newDone, old(Done()), list, out, i)
        invariant Judged(Objects(list), Objects(list[..i]), before, highest, blockNumber)
      {
        var tx := txInFlight.arr[i];
        assert tx == old(View(txInFlight)[i]) && old(VerdictIs(list[i], out[i], highest));
        newInflight, newDone :=
          Round(tx, highest, blockNumber, newInflight, newDone, old(Done()), list, out, i, before);
      }
      assert list[..|list|] == list;
    }

    static lemma ObjectsNext(list: seq<ShutterTx>, i: nat)
      requires i < |list|
      ensures list[i] in Objects(list)
      ensures Objects(list[..i + 1]) == Objects(list[..i]) + {list[i]}
    {
      assert list[..i + 1] == list[..i] + [list[i]];
    }

    /** The sweep over given looks. */
    method SweepLists(blockNumber: nat)
      requires Valid()
      modifies this`txInFlight, this`txDone, txDone.arr, Objects(InFlight())`ctx, Objects(InFlight())`cancelBlock
      ensures Valid() && fresh(txInFlight.arr) && (txDone.arr == old(txDone.arr) || fresh(txDone.arr))
      ensures InFlight() == SweptInFlight(old(InFlight()), old(Looks(InFlight())))
      ensures Done() == SweptDone(old(Done()), old(InFlight()), old(Looks(InFlight())))
      ensures Judged(Objects(old(InFlight())), Objects(old(InFlight())), old(Marks(Objects(InFlight()))),
                     old(Highest(Looks(InFlight()))), blockNumber)
    {
      ghost var list, out := InFlight(), Verdicts(Looks(InFlight()));
      var highest := HighestInclusion();
      var newInflight, newDone := SortInFlight(highest, blockNumber, list, out);
      txInFlight := newInflight;
      txDone := newDone;
    }

    /** Sequenced, and behind an inclusion of the list. */
    static ghost predicate Behind(t: ShutterTx, list: seq<ShutterTx>)
      reads t, list
    {
      t.txStatus == Sequenced && exists u :: u in list && u.inclusionBlock > t.submissionBlock
    }

    static lemma LooksDecide(list: seq<ShutterTx>, i: nat)
      requires i < |list|
      ensures Stale(list[i].Look(), Highest(Looks(list))) <==> Behind(list[i], list)
      ensures Verdicts(Looks(list))[i]
         <==> list[i].txStatus == Included || list[i].txStatus == SystemFailure || Behind(list[i], list)
    {
      var vs := Looks(list);
      VerdictsAre(vs, i);
      if u :| u in list && u.inclusionBlock > list[i].submissionBlock {
        var j :| 0 <= j < |list| && list[j] == u;
        assert vs[j].inclusionBlock > vs[i].submissionBlock;
      }
      if j :| 0 <= j < |vs| && vs[j].inclusionBlock > vs[i].submissionBlock {
        assert list[j] in list;
      }
    }

    static lemma AllLooksDecide(list: seq<ShutterTx>)
      ensures forall i | 0 <= i < |list| ::
                && Verdicts(Looks(list))[i]
                == (list[i].txStatus == Included || list[i].txStatus == SystemFailure || Behind(list[i], list))
    {
      forall i | 0 <= i < |list|
        ensures Verdicts(Looks(list))[i]
           <==> list[i].txStatus == Included || list[i].txStatus == SystemFailure || Behind(list[i], list)
      {
        LooksDecide(list, i);
      }
    }

    /** Who is cancelled, and who is left alone. */
    static lemma BehindAreStale(list: seq<ShutterTx>)
      ensures forall t | t in list :: Stale(t.Look(), Highest(Looks(list))) <==> Behind(t, list)
    {
      forall t | t in list ensures Stale(t.Look(), Highest(Looks(list))) <==> Behind(t, list) {
        var i :| 0 <= i < |list| && list[i] == t;
        LooksDecide(list, i);
      }
    }

    method SweepMarked(blockNumber: nat)
      requires Valid()
      modifies this`txInFlight, this`txDone, txDone.arr, Objects(InFlight())`ctx, Objects(InFlight())`cancelBlock
      ensures Valid() && fresh(txInFlight.arr) && (txDone.arr == old(txDone.arr) || fresh(txDone.arr))
      ensures InFlight() == SweptInFlight(old(InFlight()), old(Looks(InFlight())))
      ensures Done() == SweptDone(old(Done()), old(InFlight()), old(Looks(InFlight())))
      ensures forall t | t in old(InFlight()) ::
                if old(Behind(t, InFlight()))
                then t.cancelBlock == blockNumber && t.ctx == if old(t.ctx).Live? then Canceled else old(t.ctx)
                else t.cancelBlock == old(t.cancelBlock) && t.ctx == old(t.ctx)
    {
      ghost var list := InFlight();
      BehindAreStale(list);
      SweepLists(blockNumber);
      forall t | t in list
        ensures if old(Behind(t, list))
                then t.cancelBlock == blockNumber && t.ctx == if old(t.ctx).Live? then Canceled else old(t.ctx)
                else t.cancelBlock == old(t.cancelBlock) && t.ctx == old(t.ctx)
      {
        assert t in Objects(list) && t.Look() == old(t.Look());
      }
    }

    /** The sweep: cancels what is behind an inclusion, moves what is finished to the done list and keeps the
        rest in flight. `goes` and `stays` are the positions of the old list that leave and that stay. */
    method CheckTxInFlight(blockNumber: nat) returns (ghost stays: seq<nat>, ghost goes: seq<nat>)
      requires Valid()
      modifies this`txInFlight, this`txDone, txDone.arr, Objects(InFlight())`ctx, Objects(InFlight())`cancelBlock
      ensures Valid() && fresh(txInFlight.arr) && (txDone.arr == old(txDone.arr) || fresh(txDone.arr))
      ensures InFlight() == SweptInFlight(old(InFlight()), old(Looks(InFlight())))
      ensures Done() == SweptDone(old(Done()), old(InFlight()), old(Looks(InFlight())))
      ensures forall i | 0 <= i < |old(InFlight())| ::
                && (i in goes <==> i !in stays)
                && (i in goes <==>
                      var list := old(InFlight());
                      || old(list[i].txStatus) == Included || old(list[i].txStatus) == SystemFailure
                      || (old(list[i].txStatus) == Sequenced
                          && exists u :: u in list && old(u.inclusionBlock) > old(list[i].submissionBlock)))
      ensures forall i, j | 0 <= i < j < |stays| :: stays[i] < stays[j]
      ensures forall i, j | 0 <= i < j < |goes| :: goes[i] < goes[j]
      ensures |InFlight()| == |stays| && |Done()| == |old(Done())| + |goes| && old(Done()) <= Done()
      ensures forall k | 0 <= k < |stays| :: stays[k] < |old(InFlight())| && InFlight()[k] == old(InFlight())[stays[k]]
      ensures forall k | 0 <= k < |goes| ::
                goes[k] < |old(InFlight())| && Done()[|old(Done())| + k] == old(InFlight())[goes[k]]
      ensures forall t | t in old(InFlight()) ::
                if old(t.txStatus) == Sequenced
                   && exists u :: u in old(InFlight()) && old(u.inclusionBlock) > old(t.submissionBlock)
                then t.cancelBlock == blockNumber && t.ctx == if old(t.ctx).Live? then Canceled else old(t.ctx)
                else t.cancelBlock == old(t.cancelBlock) && t.ctx == old(t.ctx)
    {
      ghost var list, vs := InFlight(), Looks(InFlight());
      AllLooksDecide(list);
      stays, goes := Origins(Verdicts(vs), false), Origins(Verdicts(vs), true);
      PickKeepsOrder(list, Verdicts(vs), false);
      PickKeepsOrder(list, Verdicts(vs), true);
      SweepMarked(blockNumber);
    }

    /** The map from inner hash to target slot that the statistics use. The append behind it may write
        into the in-flight list's spare capacity; neither list shows anything of that. */
    method BuildInnerTxHashToTargetSlotMap() returns (m: map<int, int>)
      requires Valid()
      modifies txInFlight.arr
      ensures Valid() && InFlight() == old(InFlight()) && Done() == old(Done())
      ensures m == TargetSlots(InFlight() + Done())
    {
      var allTxs := Append(txInFlight, txDone.arr[..txDone.len]);
      ghost var list := GoSlices.View(allTxs);
      m := map[];
      for i := 0 to allTxs.len
        invariant m == TargetSlots(list[..i])
      {
        assert list[..i + 1][..i] == list[..i];
        var tx := allTxs.arr[i];
        if tx.targetSlot != 0 {
          m := m[tx.inner.hash := tx.targetSlot];
        }
      }
      assert list[..|list|] == list;
    }

    /** Anything the watchers of these transactions may write meanwhile. */
    static method WatchersWrite(ghost txs: set<ShutterTx>)
      modifies txs
    {
    }

    /** The watchers write, then the sweep runs: the two lists together hold what they held. */
    method SweepAmidWrites(blockNumber: nat)
      requires Valid()
      modifies this`txInFlight, this`txDone, txDone.arr, Objects(InFlight())
      ensures Valid() && fresh(txInFlight.arr) && (txDone.arr == old(txDone.arr) || fresh(txDone.arr))
      ensures TxCount() == old(TxCount())
      ensures multiset(InFlight()) + multiset(Done()) == old(multiset(InFlight()) + multiset(Done()))
    {
      WatchersWrite(Objects(InFlight()));
      SweepConserves(Done(), InFlight(), Looks(InFlight()));
      ghost var stays, goes := CheckTxInFlight(blockNumber);
    }

    /** The accounts' nonces. */
    ghost predicate HasNonces(now: seq<nat>)
      reads accounts
    {
      |now| == |accounts| && forall a | 0 <= a < |accounts| :: accounts[a].nonce == now[a]
    }

    /** Every account has issued its share of i nonces since the start. */
    ghost predicate Issued(nonces0: seq<nat>, i: nat)
      reads accounts
    {
      |nonces0| == |accounts| > 0 && HasNonces(Shared(nonces0, i))
    }

    /** One delivery: sweep, then send. Whatever the watchers write and the sweep moves, exactly one
        transaction is added, with the next nonce of the account whose turn it is. */
    method SweepAndSend(d: Delivery, ghost now: seq<nat>, ghost turn: nat) returns (tx: ShutterTx)
      requires Valid() && HasNonces(now) && turn < |accounts| && accounts[turn] == NextAccount()
      modifies this`txInFlight, this`txDone, txInFlight.arr, txDone.arr
      modifies NextAccount(), submitAccount, Objects(InFlight())
      ensures Valid() && fresh(tx) && fresh(txInFlight.arr) && (txDone.arr == old(txDone.arr) || fresh(txDone.arr))
      ensures TxCount() == old(TxCount()) + 1 && HasNonces(now[turn := now[turn] + 1])
      ensures multiset(InFlight()) + multiset(Done()) == old(multiset(InFlight()) + multiset(Done())) + multiset{tx}
      ensures DealtTo(tx, turn, now[turn], old(submitAccount.nonce), d)
      ensures submitAccount.nonce == old(submitAccount.nonce) + 1
    {
      SweepAmidWrites(d.number);
      tx := SendShutterizedTX(d.number, d.targetSlot, d.innerHash);
    }

    /** So the transaction is dealt by the number of transactions sent before. */
    method Deliver(d: Delivery, ghost nonces0: seq<nat>) returns (tx: ShutterTx)
      requires Valid() && Issued(nonces0, TxCount())
      modifies this`txInFlight, this`txDone, txInFlight.arr, txDone.arr
      modifies NextAccount(), submitAccount, Objects(InFlight())
      ensures Valid() && fresh(tx) && fresh(txInFlight.arr) && (txDone.arr == old(txDone.arr) || fresh(txDone.arr))
      ensures TxCount() == old(TxCount()) + 1 && Issued(nonces0, TxCount())
      ensures multiset(InFlight()) + multiset(Done()) == old(multiset(InFlight()) + multiset(Done())) + multiset{tx}
      ensures Dealt(tx, old(TxCount()), nonces0, old(submitAccount.nonce), d)
      ensures submitAccount.nonce == old(submitAccount.nonce) + 1
    {
      ghost var n, turn := TxCount(), Turn(TxCount());
      ghost var outer, now := submitAccount.nonce, Shared(nonces0, n);
      tx := SweepAndSend(d, now, turn);
      IssuedNext(nonces0, n);
      DealtByCount(tx, nonces0, n, outer, d);
    }

    function Turn(n: nat): (turn: nat)
      requires |accounts| > 0
      ensures turn < |accounts|
    {
      n % |accounts|
    }

    lemma IssuedNext(nonces0: seq<nat>, n: nat)
      requires |nonces0| == |accounts| > 0
      requires var now, turn := Shared(nonces0, n), Turn(n); HasNonces(now[turn := now[turn] + 1])
      ensures Issued(nonces0, n + 1)
    {
      SharedNext(nonces0, n);
    }

    lemma DealtByCount(tx: ShutterTx, nonces0: seq<nat>, n: nat, outerNonce: nat, d: Delivery)
      requires |nonces0| == |accounts| > 0
      requires DealtTo(tx, Turn(n), Shared(nonces0, n)[Turn(n)], outerNonce, d)
      ensures Dealt(tx, n, nonces0, outerNonce, d)
    {
      SharedNext(nonces0, n);
    }

    lemma RunStarts(nonces0: seq<nat>, submit0: nat, blocks: seq<Delivery>)
      requires Valid() && InFlight() == [] && Done() == [] && submitAccount.nonce == submit0
      requires |nonces0| == |accounts| && forall a | 0 <= a < |accounts| :: accounts[a].nonce == nonces0[a]
      ensures RunOk([], nonces0, submit0, blocks)
    {
      assert multiset(InFlight()) + multiset(Done()) == multiset([]);
    }

    /** After the transactions in `sent`: the lists hold exactly them, and each was dealt its delivery. */
    ghost predicate RunOk(sent: seq<ShutterTx>, nonces0: seq<nat>, submit0: nat, blocks: seq<Delivery>)
      reads this, txInFlight.arr, txDone.arr, accounts, submitAccount
    {
      && Valid() && |sent| == TxCount() <= |blocks|
      && multiset(InFlight()) + multiset(Done()) == multiset(sent)
      && Issued(nonces0, |sent|) && submitAccount.nonce == submit0 + |sent|
      && AllDealt(sent, nonces0, submit0, blocks)
    }

    /** Sweep and send of one round. */
    method Take(blocks: seq<Delivery>, ghost sent: seq<ShutterTx>, ghost nonces0: seq<nat>, ghost submit0: nat, i: nat)
      returns (tx: ShutterTx)
      requires RunOk(sent, nonces0, submit0, blocks) && i == |sent| < |blocks|
      modifies this`txInFlight, this`txDone, txInFlight.arr, txDone.arr, accounts, submitAccount, Objects(sent)
      ensures RunOk(sent + [tx], nonces0, submit0, blocks) && fresh(tx)
      ensures fresh(txInFlight.arr) && (txDone.arr == old(txDone.arr) || fresh(txDone.arr))
    {
      OnlySent(InFlight(), Done(), sent);
      tx := Deliver(blocks[i], nonces0);
      DealtNext(sent, tx, nonces0, submit0, blocks);
    }

    /** The driver's local variables after i deliveries. */
    static predicate StatsAre(blocks: seq<Delivery>, clock: seq<int>, i: nat,
                              startBlock: nat, lastStats: int, asked: seq<(nat, nat)>)
    {
      && i <= |blocks| && |clock| == |blocks| + 1
      && startBlock == FirstBlock(blocks, i) && lastStats == LastStats(clock, i) && asked == Asked(blocks, clock, i)
    }

    /** The end of round i: the statistics are collected when the last time was long enough ago. In the
        rounds in `ratios` they get as far as the append over the in-flight list. */
    method CollectWhenDue(blocks: seq<Delivery>, clock: seq<int>, ratios: set<nat>, i: nat,
                          startBlock: nat, lastStats: int, asked: seq<(nat, nat)>)
      returns (lastStats': int, asked': seq<(nat, nat)>)
      requires Valid() && i < |blocks| && |clock| == |blocks| + 1 && startBlock == FirstBlock(blocks, i + 1)
      requires lastStats == LastStats(clock, i) && asked == Asked(blocks, clock, i)
      modifies txInFlight.arr
      ensures Valid() && InFlight() == old(InFlight()) && Done() == old(Done())
      ensures StatsAre(blocks, clock, i + 1, startBlock, lastStats', asked')
    {
      lastStats', asked' := lastStats, asked;
      var now := clock[i + 1];
      if now - lastStats > STATS_INTERVAL {
        lastStats' := now;
        asked' := asked + [(startBlock, blocks[i].number)];
        if i in ratios {
          var innerTxHashToTargetSlot := BuildInnerTxHashToTargetSlotMap();
        }
      }
    }

    /** The statistics keep what the run has. */
    method KeepRun(blocks: seq<Delivery>, clock: seq<int>, ratios: set<nat>, i: nat, startBlock: nat, lastStats: int,
                   asked: seq<(nat, nat)>, ghost sent: seq<ShutterTx>, ghost nonces0: seq<nat>, ghost submit0: nat)
      returns (lastStats': int, asked': seq<(nat, nat)>)
      requires RunOk(sent, nonces0, submit0, blocks)
      requires i < |blocks| && |clock| == |blocks| + 1 && startBlock == FirstBlock(blocks, i + 1)
      requires lastStats == LastStats(clock, i) && asked == Asked(blocks, clock, i)
      modifies txInFlight.arr
      ensures RunOk(sent, nonces0, submit0, blocks)
      ensures StatsAre(blocks, clock, i + 1, startBlock, lastStats', asked')
    {
      lastStats', asked' := CollectWhenDue(blocks, clock, ratios, i, startBlock, lastStats, asked);
    }

    /** What that says of each transaction. */
    lemma RunDeals(sent: seq<ShutterTx>, nonces0: seq<nat>, submit0: nat, blocks: seq<Delivery>, k: nat)
      requires RunOk(sent, nonces0, submit0, blocks) && k < |sent|
      ensures |accounts| == |nonces0| > 0 && |sent| <= |blocks| && |sent[k].outer.prefix| == 32
      ensures sent[k].sender == accounts[k % |accounts|]
      ensures sent[k].inner.nonce == nonces0[k % |accounts|] + k / |accounts| && sent[k].outer.nonce == submit0 + k
      ensures sent[k].triggerBlock == sent[k].inner.value == blocks[k].number
      ensures BlockNumberFromPrefix(sent[k].outer.prefix) == blocks[k].number
      ensures sent[k].inner.to == submitAccount.address && sent[k].targetSlot == blocks[k].targetSlot
    {
      assert DealtAt(sent, nonces0, submit0, blocks, k);
    }

    /** One round of the driver loop. */
    method DriverRound(blocks: seq<Delivery>, clock: seq<int>, ratios: set<nat>, i: nat, startBlock: nat,
                       lastStats: int, asked: seq<(nat, nat)>,
                       ghost sent: seq<ShutterTx>, ghost nonces0: seq<nat>, ghost submit0: nat)
      returns (tx: ShutterTx, startBlock': nat, lastStats': int, asked': seq<(nat, nat)>)
      requires RunOk(sent, nonces0, submit0, blocks) && i == |sent| < |blocks|
      requires StatsAre(blocks, clock, i, startBlock, lastStats, asked)
      modifies this`txInFlight, this`txDone, txInFlight.arr, txDone.arr, accounts, submitAccount, Objects(sent)
      ensures RunOk(sent + [tx], nonces0, submit0, blocks) && fresh(tx)
      ensures fresh(txInFlight.arr) && (txDone.arr == old(txDone.arr) || fresh(txDone.arr))
      ensures StatsAre(blocks, clock, i + 1, startBlock', lastStats', asked')
    {
      startBlock' := startBlock;
      if startBlock' == 0 {
        startBlock' := blocks[i].number;
      }
      tx := Take(blocks, sent, nonces0, submit0, i);
      lastStats', asked' :=
        KeepRun(blocks, clock, ratios, i, startBlock', lastStats, asked, sent + [tx], nonces0, submit0);
    }

    /** The driver loop: for every shutter block delivered, sweep, then send; the watchers write whenever
        they like. `sent` lists the transactions in sending order; `asked` the block ranges for which the
        statistics were collected, given the clock at the start and after each send. */
    method RunContinuous(blocks: seq<Delivery>, clock: seq<int>, ratios: set<nat>, ghost nonces0: seq<nat>)
      returns (sent: seq<ShutterTx>, startBlock: nat, asked: seq<(nat, nat)>)
      requires Valid() && InFlight() == [] && Done() == []
      requires |nonces0| == |accounts| && forall a | 0 <= a < |accounts| :: accounts[a].nonce == nonces0[a]
      requires |clock| == |blocks| + 1
      modifies this`txInFlight, this`txDone, txInFlight.arr, txDone.arr, accounts, submitAccount
      ensures RunOk(sent, nonces0, old(submitAccount.nonce), blocks) && |sent| == |blocks|
      ensures multiset(InFlight()) + multiset(Done()) == multiset(sent)
      ensures forall k | 0 <= k < |sent| ::
                && |accounts| == |nonces0| > 0 && sent[k].sender == accounts[k % |accounts|]
                && sent[k].inner.nonce == nonces0[k % |accounts|] + k / |accounts|
                && sent[k].outer.nonce == old(submitAccount.nonce) + k
                && sent[k].triggerBlock == sent[k].inner.value == blocks[k].number
                && |sent[k].outer.prefix| == 32 && BlockNumberFromPrefix(sent[k].outer.prefix) == blocks[k].number
                && sent[k].inner.to == submitAccount.address && sent[k].targetSlot == blocks[k].targetSlot
      ensures startBlock == FirstBlock(blocks, |blocks|) && asked == Asked(blocks, clock, |blocks|)
    {
      ghost var submit0 := submitAccount.nonce;
      sent, startBlock, asked := [], 0, [];
      var lastStats := clock[0];
      RunStarts(nonces0, submit0, blocks);
      for i := 0 to |blocks|
        invariant RunOk(sent, nonces0, submit0, blocks) && |sent| == i
        invariant txInFlight.arr == old(txInFlight.arr) || fresh(txInFlight.arr)
        invariant txDone.arr == old(txDone.arr) || fresh(txDone.arr)
        invariant fresh(Objects(sent))
        invariant StatsAre(blocks, clock, i, startBlock, lastStats, asked)
      {
        var tx;
        tx, startBlock, lastStats, asked :=
          DriverRound(blocks, clock, ratios, i, startBlock, lastStats, asked, sent, nonces0, submit0);
        ObjectsSnoc(sent, tx);
        sent := sent + [tx];
      }
      AllDeals(sent, nonces0, submit0, blocks);
    }

    lemma AllDeals(sent: seq<ShutterTx>, nonces0: seq<nat>, submit0: nat, blocks: seq<Delivery>)
      requires RunOk(sent, nonces0, submit0, blocks)
      ensures forall k | 0 <= k < |sent| ::
                && |accounts| == |nonces0| > 0 && sent[k].sender == accounts[k % |accounts|]
                && sent[k].inner.nonce == nonces0[k % |accounts|] + k / |accounts|
                && sent[k].outer.nonce == submit0 + k && k < |blocks|
                && sent[k].triggerBlock == sent[k].inner.value == blocks[k].number
                && |sent[k].outer.prefix| == 32 && BlockNumberFromPrefix(sent[k].outer.prefix) == blocks[k].number
                && sent[k].inner.to == submitAccount.address && sent[k].targetSlot == blocks[k].targetSlot
    {
      forall k | 0 <= k < |sent|
        ensures |accounts| == |nonces0| > 0 && sent[k].sender == accounts[k % |accounts|]
        ensures sent[k].inner.nonce == nonces0[k % |accounts|] + k / |accounts|
        ensures sent[k].outer.nonce == submit0 + k && k < |blocks|
        ensures sent[k].triggerBlock == sent[k].inner.value == blocks[k].number
        ensures |sent[k].outer.prefix| == 32 && BlockNumberFromPrefix(sent[k].outer.prefix) == blocks[k].number
        ensures sent[k].inner.to == submitAccount.address && sent[k].targetSlot == blocks[k].targetSlot
      {
        RunDeals(sent, nonces0, submit0, blocks, k);
      }
    }

    static lemma ObjectsSnoc(sent: seq<ShutterTx>, tx: ShutterTx)
      ensures Objects(sent + [tx]) == Objects(sent) + {tx}
    {
    }

    /** The transaction has this account, these nonces, and the delivery's block and slot. */
    predicate DealtTo(tx: ShutterTx, turn: nat, innerNonce: nat, outerNonce: nat, d: Delivery) {
      && turn < |accounts| && tx.sender == accounts[turn]
      && tx.inner.nonce == innerNonce && tx.outer.nonce == outerNonce
      && tx.triggerBlock == d.number && tx.targetSlot == d.targetSlot && tx.inner.hash == d.innerHash
      && tx.Carries(d.number, submitAccount.address)
    }

    /** Transaction k of the run: account k mod n, that account's (k div n)-th nonce, the given outer nonce. */
    predicate Dealt(tx: ShutterTx, k: nat, nonces0: seq<nat>, outerNonce: nat, d: Delivery) {
      var n := |accounts|;
      n == |nonces0| > 0 && DealtTo(tx, k % n, nonces0[k % n] + k / n, outerNonce, d)
    }

    predicate DealtAt(sent: seq<ShutterTx>, nonces0: seq<nat>, submit0: nat, blocks: seq<Delivery>, k: nat) {
      k < |sent| <= |blocks| && Dealt(sent[k], k, nonces0, submit0 + k, blocks[k])
    }

    predicate AllDealt(sent: seq<ShutterTx>, nonces0: seq<nat>, submit0: nat, blocks: seq<Delivery>) {
      forall k | 0 <= k < |sent| :: DealtAt(sent, nonces0, submit0, blocks, k)
    }

    lemma DealtNext(sent: seq<ShutterTx>, tx: ShutterTx, nonces0: seq<nat>, submit0: nat, blocks: seq<Delivery>)
      requires AllDealt(sent, nonces0, submit0, blocks) && |sent| < |blocks|
      requires Dealt(tx, |sent|, nonces0, submit0 + |sent|, blocks[|sent|])
      ensures AllDealt(sent + [tx], nonces0, submit0, blocks)
    {
      forall k | 0 <= k <= |sent| ensures DealtAt(sent + [tx], nonces0, submit0, blocks, k) {
        if k < |sent| {
          assert DealtAt(sent, nonces0, submit0, blocks, k);
        }
      }
    }

    static lemma OnlySent(inFlight: seq<ShutterTx>, done: seq<ShutterTx>, sent: seq<ShutterTx>)
      requires multiset(inFlight) + multiset(done) == multiset(sent)
      ensures Objects(inFlight) <= Objects(sent)
    {
      forall t | t in inFlight ensures t in sent {
        assert t in multiset(inFlight) + multiset(done);
      }
    }
  }
}
