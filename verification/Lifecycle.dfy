/** One shutterized transaction and the goroutine that watches it (continuous/tx.go).

    The watcher is cut into the moves between which other goroutines can act: a blocking wait
    returns, a select looks at the context, one field is written, a forfeit goes out. Writing
    the status and writing the block number are two moves, as they are two statements. */
module Lifecycle {

  datatype Status = Signed | Sequenced | Included | NotSequenced | NotIncluded | SystemFailure

  datatype Ctx = Live | Canceled | DeadlineExceeded

  /** What the wait for a receipt hands back: a receipt or an error, never both or neither. */
  datatype Wait = Receipt(ok: bool, block: nat) | Failed

  datatype Reason = Rejected | Superseded | TimedOut

  /** The return statements of the watcher; Panicked is the nil receipt dereference. */
  datatype Exit =
    | NeverSequenced
    | ExpiredUnsequenced
    | Panicked
    | Lost
    | Landed
    | Forfeited(reason: Reason, mined: bool)

  datatype Pc =
    | FirstWait
    | FirstSelect(got: Wait)
    | WriteSubmission(block: nat)
    | SecondWait
    | SecondSelect(got: Wait)
    | WriteInclusion(block: nat)
    | Forfeiting(reason: Reason)
    | AwaitForfeit(reason: Reason)
    | Closing(reason: Reason, mined: bool)
    | Exited(how: Exit)

  datatype Tx = Tx(
    sender: nat,
    nonce: nat,
    outerNonce: nat,
    trigger: nat,
    status: Status,
    submissionBlock: nat,
    inclusionBlock: nat,
    ctx: Ctx,
    pc: Pc)

  datatype Move = Returns(got: Wait) | Select | Write | Broadcast | Settle(mined: bool) | Close

  function NewTx(sender: nat, nonce: nat, outerNonce: nat, trigger: nat): Tx {
    Tx(sender, nonce, outerNonce, trigger, Signed, 0, 0, Live, FirstWait)
  }

  predicate CanMove(t: Tx, m: Move) {
    match m
    case Returns(_) => t.pc.FirstWait? || t.pc.SecondWait?
    case Select => t.pc.FirstSelect? || t.pc.SecondSelect?
    case Write => t.pc.WriteSubmission? || t.pc.WriteInclusion?
    case Broadcast => t.pc.Forfeiting?
    case Settle(mined) => (t.pc.Forfeiting? && !mined) || t.pc.AwaitForfeit?
    case Close => t.pc.Closing?
  }

  function Cancel(ctx: Ctx): Ctx {
    if ctx.Live? then Canceled else ctx
  }

  /** The watcher returns; its deferred cancel runs. */
  function Leave(t: Tx, status: Status, how: Exit): Tx {
    t.(status := status, ctx := Cancel(t.ctx), pc := Exited(how))
  }

  function Moved(t: Tx, m: Move): Tx
    requires CanMove(t, m)
  {
    match t.pc
    case FirstWait => t.(pc := FirstSelect(m.got))
    case FirstSelect(got) =>
      if t.ctx.Canceled? then Leave(t, NotSequenced, NeverSequenced)
      else if t.ctx.DeadlineExceeded? then Leave(t, SystemFailure, ExpiredUnsequenced)
      else if got.Failed? then Leave(t, SystemFailure, Panicked)
      else if got.ok then t.(status := Sequenced, pc := WriteSubmission(got.block))
      else t.(status := SystemFailure, pc := Forfeiting(Rejected))
    case WriteSubmission(block) => t.(submissionBlock := block, pc := SecondWait)
    case SecondWait => t.(pc := SecondSelect(m.got))
    case SecondSelect(got) =>
      if t.ctx.Canceled? then t.(pc := Forfeiting(Superseded))
      else if t.ctx.DeadlineExceeded? then t.(pc := Forfeiting(TimedOut))
      else if got.Failed? then Leave(t, SystemFailure, Lost)
      else t.(status := Included, pc := WriteInclusion(got.block))
    case WriteInclusion(block) => Leave(t.(inclusionBlock := block), t.status, Landed)
    case Forfeiting(reason) =>
      if m.Broadcast? then t.(pc := AwaitForfeit(reason)) else t.(pc := Closing(reason, false))
    case AwaitForfeit(reason) => t.(pc := Closing(reason, m.mined))
    case Closing(reason, mined) => Leave(t, ClosingStatus(t.status, reason), Forfeited(reason, mined))
  }

  function ClosingStatus(current: Status, reason: Reason): Status {
    match reason
    case Rejected => current
    case Superseded => NotIncluded
    case TimedOut => SystemFailure
  }

  // --- what a watcher can be in ---

  /** Past the first select, so the submission is known to be mined with status 1. */
  predicate PassedFirstSelect(pc: Pc) {
    || pc.WriteSubmission? || pc.SecondWait? || pc.SecondSelect? || pc.WriteInclusion?
    || ((pc.Forfeiting? || pc.AwaitForfeit? || pc.Closing?) && pc.reason != Rejected)
    || (pc.Exited? && (pc.how.Lost? || pc.how.Landed? || (pc.how.Forfeited? && pc.how.reason != Rejected)))
  }

  function StatusAt(pc: Pc): Status {
    match pc
    case FirstWait | FirstSelect(_) => Signed
    case WriteSubmission(_) | SecondWait | SecondSelect(_) => Sequenced
    case WriteInclusion(_) => Included
    case Forfeiting(reason) => if reason == Rejected then SystemFailure else Sequenced
    case AwaitForfeit(reason) => if reason == Rejected then SystemFailure else Sequenced
    case Closing(reason, _) => if reason == Rejected then SystemFailure else Sequenced
    case Exited(how) =>
      match how
      case NeverSequenced => NotSequenced
      case Landed => Included
      case Forfeited(reason, _) => if reason == Superseded then NotIncluded else SystemFailure
      case ExpiredUnsequenced | Panicked | Lost => SystemFailure
  }

  /** The watcher's local invariant. The first conjunct says the status word always tells where
      the watcher stands; the rest tie the context to the branch that was taken. */
  predicate WatcherOk(t: Tx) {
    && t.status == StatusAt(t.pc)
    && (t.ctx.Canceled? && !t.pc.Exited? ==> PassedFirstSelect(t.pc))
    && !(t.pc.Exited? && t.pc.how.NeverSequenced?)
    && (t.inclusionBlock != 0 ==> t.pc == Exited(Landed))
    && (t.submissionBlock != 0 ==> PassedFirstSelect(t.pc) && !t.pc.WriteSubmission?)
    && (t.pc.Exited? ==> !t.ctx.Live?)
    && (t.pc.Forfeiting? || t.pc.AwaitForfeit? || t.pc.Closing? ==>
          && (t.pc.reason == Rejected ==> !t.ctx.Canceled?)
          && (t.pc.reason == Superseded ==> t.ctx.Canceled?)
          && (t.pc.reason == TimedOut ==> t.ctx.DeadlineExceeded?))
  }

  lemma MoveKeepsWatcherOk(t: Tx, m: Move)
    requires WatcherOk(t) && CanMove(t, m)
    ensures WatcherOk(Moved(t, m))
    ensures PassedFirstSelect(t.pc) ==> PassedFirstSelect(Moved(t, m).pc)
    ensures t.submissionBlock != 0 ==> Moved(t, m).submissionBlock == t.submissionBlock
    ensures t.inclusionBlock != 0 ==> Moved(t, m).inclusionBlock == t.inclusionBlock
  {
  }

  lemma CancelKeepsWatcherOk(t: Tx)
    requires WatcherOk(t) && PassedFirstSelect(t.pc)
    ensures WatcherOk(t.(ctx := Cancel(t.ctx)))
  {
  }

  lemma DeadlineKeepsWatcherOk(t: Tx)
    requires WatcherOk(t) && t.ctx.Live?
    ensures WatcherOk(t.(ctx := DeadlineExceeded))
  {
  }

  // --- statuses only move forward ---

  predicate Terminal(s: Status) {
    s.Included? || s.NotSequenced? || s.NotIncluded? || s.SystemFailure?
  }

  predicate StatusStep(a: Status, b: Status) {
    a == b || a.Signed? || (a.Sequenced? && Terminal(b))
  }

  lemma MoveAdvancesStatus(t: Tx, m: Move)
    requires WatcherOk(t) && CanMove(t, m)
    ensures StatusStep(t.status, Moved(t, m).status)
  {
  }

  // --- a watcher takes a bounded number of moves ---

  function Rank(pc: Pc): nat {
    match pc
    case FirstWait => 8
    case FirstSelect(_) => 7
    case WriteSubmission(_) => 6
    case SecondWait => 5
    case SecondSelect(_) => 4
    case WriteInclusion(_) => 3
    case Forfeiting(_) => 3
    case AwaitForfeit(_) => 2
    case Closing(_, _) => 1
    case Exited(_) => 0
  }

  lemma MoveLowersRank(t: Tx, m: Move)
    requires CanMove(t, m)
    ensures Rank(Moved(t, m).pc) < Rank(t.pc)
  {
  }

  // --- a whole watch, given what each wait and each select will observe ---

  /** How the calls of forfeitNonce end: chain id, gas price, signature, sending, and the wait. */
  datatype ForfeitCalls = ForfeitCalls(chainId: bool, gas: bool, sign: bool, send: bool, wait: Wait) {
    predicate Sends() { chainId && gas && sign && send }
    predicate Confirms() { Sends() && wait.Receipt? && wait.ok }
  }

  /** Everything a watcher learns from outside: two waits, the context at the two selects, and the calls
      behind its forfeit. */
  datatype Script = Script(first: Wait, ctxFirst: Ctx, second: Wait, ctxSecond: Ctx, forfeit: ForfeitCalls)

  function NextMove(t: Tx, o: Script): (m: Move)
    requires !t.pc.Exited?
    ensures CanMove(t, m)
  {
    match t.pc
    case FirstWait => Returns(o.first)
    case SecondWait => Returns(o.second)
    case FirstSelect(_) | SecondSelect(_) => Select
    case WriteSubmission(_) | WriteInclusion(_) => Write
    case Forfeiting(_) => if o.forfeit.Sends() then Broadcast else Settle(false)
    case AwaitForfeit(_) => Settle(o.forfeit.Confirms())
    case Closing(_, _) => Close
  }

  /** The context as the coming select will see it. */
  function Seen(t: Tx, o: Script): Tx {
    if t.pc.FirstSelect? then t.(ctx := o.ctxFirst)
    else if t.pc.SecondSelect? then t.(ctx := o.ctxSecond)
    else t
  }

  /** The micro moves run to the end. */
  function Play(t: Tx, o: Script): (r: Tx)
    ensures r.pc.Exited?
    ensures r.sender == t.sender && r.nonce == t.nonce && r.outerNonce == t.outerNonce && r.trigger == t.trigger
    decreases Rank(t.pc)
  {
    if t.pc.Exited? then t
    else
      var u := Seen(t, o);
      var m := NextMove(u, o);
      MoveLowersRank(u, m);
      Play(Moved(u, m), o)
  }

  /** One move of Play; a select uses the context it sees, not the one recorded before. */
  lemma PlayOne(t: Tx, o: Script)
    requires !t.pc.Exited?
    ensures Play(t, o) == Play(Seen(t, o), o) == Play(Moved(Seen(t, o), NextMove(Seen(t, o), o)), o)
  {
  }
}
