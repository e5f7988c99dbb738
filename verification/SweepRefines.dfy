/** A sweep that no other goroutine interrupts computes the sweep functions of Sweep.dfy. */
module SweepRefines {
  import opened Lifecycle
  import opened Sweep
  import opened Protocol
  import opened Invariants

  /** Running the events `es` from s leads to s'. */
  ghost predicate Leads(c: Config, s: State, es: seq<Event>, s': State)
    requires ValidConfig(c)
    decreases |es|
  {
    if es == [] then s' == s
    else Enabled(c, s, es[0]) && Leads(c, Apply(c, s, es[0]), es[1..], s')
  }

  lemma {:induction false} LeadsThen(c: Config, s: State, es: seq<Event>, s': State, fs: seq<Event>, s'': State)
    requires ValidConfig(c) && Leads(c, s, es, s') && Leads(c, s', fs, s'')
    ensures Leads(c, s, es + fs, s'')
    decreases |es|
  {
    if es == [] {
      assert es + fs == fs;
    } else {
      LeadsThen(c, Apply(c, s, es[0]), es[1..], s', fs, s'');
      assert (es + fs)[1..] == es[1..] + fs;
    }
  }

  lemma OneEvent(c: Config, s: State, e: Event)
    requires ValidConfig(c) && Enabled(c, s, e)
    ensures Leads(c, s, [e], Apply(c, s, e))
  {
    assert [e][1..] == [];
    assert Leads(c, Apply(c, s, e), [], Apply(c, s, e));
  }

  /** Events of the driver only: nothing else moves. */
  predicate DriverOnly(es: seq<Event>) {
    forall e | e in es :: !e.Watch? && !e.Expire? && !e.NewBlock? && !e.MineOuter? && !e.MineInner? && !e.MineForfeit?
  }

  function ViewOf(t: Tx): Glance { Glance(t.status, t.submissionBlock, t.inclusionBlock) }

  predicate Known(s: State) { forall i | 0 <= i < |s.inFlight| :: s.inFlight[i] < |s.txs| }

  function Views(s: State): (vs: seq<Glance>)
    requires Known(s)
    ensures |vs| == |s.inFlight|
    ensures forall i | 0 <= i < |vs| :: vs[i] == ViewOf(s.txs[s.inFlight[i]])
  {
    seq(|s.inFlight|, i requires 0 <= i < |s.inFlight| => ViewOf(s.txs[s.inFlight[i]]))
  }

  /** First loop: all inclusion blocks are read. */
  lemma {:induction false} ReadAll(c: Config, s: State, at: nat) returns (es: seq<Event>)
    requires ValidConfig(c) && Known(s) && !s.crashed && s.phase.Reading?
    requires at == s.phase.at <= |s.inFlight| && s.phase.seen == Highest(Views(s)[..at])
    ensures DriverOnly(es)
    ensures Leads(c, s, es, s.(phase := Sorting(Work(s.phase.block, 0, Highest(Views(s)), [], s.done, map[], {}))))
    decreases |s.inFlight| - at
  {
    if at == |s.inFlight| {
      assert Views(s)[..at] == Views(s);
      es := [EndReading];
      OneEvent(c, s, EndReading);
    } else {
      var t := Apply(c, s, ReadInclusion);
      assert Views(t) == Views(s);
      assert Views(s)[..at + 1][..at] == Views(s)[..at];
      var rest := ReadAll(c, t, at + 1);
      OneEvent(c, s, ReadInclusion);
      es := [ReadInclusion] + rest;
      LeadsThen(c, s, [ReadInclusion], t, rest,
               s.(phase := Sorting(Work(s.phase.block, 0, Highest(Views(s)), [], s.done, map[], {}))));
    }
  }

  /** The transactions that are stale among the first i of the list. */
  ghost function StaleIds(s: State, i: nat): set<nat>
    requires Known(s) && i <= |s.inFlight|
  {
    set j | 0 <= j < i && Stale(Views(s)[j], Highest(Views(s))) :: s.inFlight[j]
  }

  /** The contexts of the stale ones are cancelled; nothing else about any transaction differs. */
  ghost predicate OnlyCancels(s: State, t: State, i: nat)
    requires Known(s) && i <= |s.inFlight|
  {
    && |t.txs| == |s.txs|
    && forall k | 0 <= k < |s.txs| ::
         t.txs[k] == if k in StaleIds(s, i) then s.txs[k].(ctx := Cancel(s.txs[k].ctx)) else s.txs[k]
  }

  /** State t is s after i rounds of the second loop. */
  ghost predicate Midway(s: State, t: State, i: nat)
    requires Known(s)
  {
    var vs := Views(s);
    && i <= |vs|
    && t.phase.Sorting? && t.phase.w.i == i && t.phase.w.high == Highest(vs)
    && t.inFlight == s.inFlight && t.done == s.done && t.crashed == s.crashed
    && t.phase.w.kept == Pick(s.inFlight[..i], Verdicts(vs)[..i], false)
    && t.phase.w.moved == s.done + Pick(s.inFlight[..i], Verdicts(vs)[..i], true)
    && OnlyCancels(s, t, i)
  }

  lemma StaleNext(s: State, i: nat)
    requires Known(s) && i < |s.inFlight|
    ensures StaleIds(s, i + 1)
         == StaleIds(s, i) + if Stale(Views(s)[i], Highest(Views(s))) then {s.inFlight[i]} else {}
  {
  }

  /** One round: the status is read and, if it is Sequenced, the submission block. */
  lemma OneRound(c: Config, t: State) returns (es: seq<Event>, u: State)
    requires ValidConfig(c) && !t.crashed && Known(t)
    requires t.phase.Sorting? && t.phase.w.i < |t.inFlight|
    ensures Leads(c, t, es, u) && DriverOnly(es)
    ensures var w, id := t.phase.w, t.inFlight[t.phase.w.i];
      var v := ViewOf(t.txs[id]);
      && u.phase.Sorting? && u.phase.w.i == w.i + 1 && u.phase.w.high == w.high
      && u.inFlight == t.inFlight && u.done == t.done && u.crashed == t.crashed
      && u.phase.w.kept == w.kept + (if Leaves(v, w.high) then [] else [id])
      && u.phase.w.moved == w.moved + (if Leaves(v, w.high) then [id] else [])
      && u.txs == if Stale(v, w.high) then t.txs[id := t.txs[id].(ctx := Cancel(t.txs[id].ctx))] else t.txs
  {
    u := Apply(c, t, ReadStatus);
    es := [ReadStatus];
    OneEvent(c, t, ReadStatus);
    if u.phase.Comparing? {
      var t1 := u;
      u := Apply(c, t1, CompareBlock);
      OneEvent(c, t1, CompareBlock);
      LeadsThen(c, t, es, t1, [CompareBlock], u);
      es := es + [CompareBlock];
    }
  }

  lemma ViewUnchanged(s: State, t: State, i: nat)
    requires Known(s) && i < |s.inFlight| && OnlyCancels(s, t, i)
    ensures Views(s)[i] == ViewOf(t.txs[s.inFlight[i]])
    ensures OnlyCancels(s, t.(txs := if Stale(Views(s)[i], Highest(Views(s)))
              then t.txs[s.inFlight[i] := t.txs[s.inFlight[i]].(ctx := Cancel(t.txs[s.inFlight[i]].ctx))]
              else t.txs), i + 1)
  {
    StaleNext(s, i);
  }

  lemma SortOne(c: Config, s: State, t: State, i: nat) returns (es: seq<Event>, u: State)
    requires ValidConfig(c) && Known(s) && !s.crashed
    requires Midway(s, t, i) && i < |s.inFlight|
    ensures Leads(c, t, es, u) && Midway(s, u, i + 1) && DriverOnly(es)
  {
    PickNext(s.inFlight, Verdicts(Views(s)), false, i);
    PickNext(s.inFlight, Verdicts(Views(s)), true, i);
    ViewUnchanged(s, t, i);
    es, u := OneRound(c, t);
    assert Verdicts(Views(s))[i] == Leaves(Views(s)[i], Highest(Views(s)));
    SameTxs(s, t.(txs := u.txs), u, i + 1);
  }

  lemma SameTxs(s: State, t: State, u: State, i: nat)
    requires Known(s) && i <= |s.inFlight| && OnlyCancels(s, t, i) && u.txs == t.txs
    ensures OnlyCancels(s, u, i)
  {
  }

  lemma {:induction false} SortAll(c: Config, s: State, t: State, i: nat) returns (es: seq<Event>, u: State)
    requires ValidConfig(c) && Known(s) && !s.crashed
    requires Midway(s, t, i)
    ensures Leads(c, t, es, u) && Midway(s, u, |s.inFlight|) && DriverOnly(es)
    decreases |s.inFlight| - i
  {
    if i == |s.inFlight| {
      es, u := [], t;
    } else {
      var es1, t1 := SortOne(c, s, t, i);
      var es2, t2 := SortAll(c, s, t1, i + 1);
      LeadsThen(c, t, es1, t1, es2, t2);
      es, u := es1 + es2, t2;
    }
  }

  lemma MidwayStart(s: State, t: State)
    requires Known(s) && t.phase.Sorting? && t.inFlight == s.inFlight && t.done == s.done && t.txs == s.txs
    requires t.crashed == s.crashed && t.phase.w == Work(t.phase.w.block, 0, Highest(Views(s)), [], s.done, map[], {})
    ensures Midway(s, t, 0)
  {
    assert s.inFlight[..0] == [] && Verdicts(Views(s))[..0] == [];
  }

  lemma MidwayEnd(s: State, t: State)
    requires Known(s) && Midway(s, t, |s.inFlight|)
    ensures t.phase.w.kept == SweptInFlight(s.inFlight, Views(s))
    ensures t.phase.w.moved == SweptDone(s.done, s.inFlight, Views(s))
  {
    assert s.inFlight[..|s.inFlight|] == s.inFlight;
    assert Verdicts(Views(s))[..|s.inFlight|] == Verdicts(Views(s));
  }

  lemma InvKnown(c: Config, s: State)
    requires ValidConfig(c) && Inv(c, s)
    ensures Known(s)
  {
    forall i | 0 <= i < |s.inFlight| ensures s.inFlight[i] < |s.txs| {
      InFlightKnown(s, i);
    }
  }

  lemma WholeSweep(c: Config, s: State, block: nat) returns (es: seq<Event>, t: State)
    requires ValidConfig(c) && Known(s) && s.phase.Idle? && !s.crashed && block <= s.head
    ensures DriverOnly(es) && Leads(c, s, es, t) && Midway(s, t, |s.inFlight|)
  {
    var s0 := Apply(c, s, BeginSweep(block));
    OneEvent(c, s, BeginSweep(block));
    assert Views(s0) == Views(s) && Views(s)[..0] == [];
    var looks := ReadAll(c, s0, 0);
    var s1 := s0.(phase := Sorting(Work(block, 0, Highest(Views(s)), [], s.done, map[], {})));
    MidwayStart(s, s1);
    var sorts, s2 := SortAll(c, s, s1, 0);
    LeadsThen(c, s, [BeginSweep(block)], s0, looks, s1);
    LeadsThen(c, s, [BeginSweep(block)] + looks, s1, sorts, s2);
    es, t := [BeginSweep(block)] + looks + sorts, s2;
  }

  /** From the first read to the commit without interruption, the machine's sweep is the function: the
      same two lists, and the contexts of exactly the stale transactions cancelled. */
  lemma UninterruptedSweep(c: Config, s: State, block: nat) returns (es: seq<Event>, s': State)
    requires ValidConfig(c) && Inv(c, s) && s.phase.Idle? && !s.crashed && block <= s.head
    ensures Known(s) && DriverOnly(es) && Leads(c, s, es, s')
    ensures s'.phase.Swept?
    ensures s'.inFlight == SweptInFlight(s.inFlight, Views(s))
    ensures s'.done == SweptDone(s.done, s.inFlight, Views(s))
    ensures OnlyCancels(s, s', |s.inFlight|)
  {
    InvKnown(c, s);
    var most, t := WholeSweep(c, s, block);
    MidwayEnd(s, t);
    s' := Apply(c, t, Commit);
    OneEvent(c, t, Commit);
    LeadsThen(c, s, most, t, [Commit], s');
    es := most + [Commit];
    SameTxs(s, t, s', |s.inFlight|);
  }
}
