/** The sweep over the in-flight list (CheckTxInFlight in continuous/continuous.go) as functions on
    values, and what a sweep keeps. The method in Tester.dfy and the step machine in Protocol.dfy
    are both proved to compute these functions. */
module Sweep {
  import opened Lifecycle

  /** What one sweep reads of a transaction. */
  datatype Glance = Glance(status: Status, submissionBlock: nat, inclusionBlock: nat)

  function Highest(vs: seq<Glance>): nat {
    if vs == [] then 0
    else
      var rest, last := Highest(vs[..|vs| - 1]), vs[|vs| - 1].inclusionBlock;
      if last > rest then last else rest
  }

  lemma {:induction false} HighestIsHighest(vs: seq<Glance>)
    ensures forall j | 0 <= j < |vs| :: vs[j].inclusionBlock <= Highest(vs)
    ensures Highest(vs) == 0 || exists j :: 0 <= j < |vs| && vs[j].inclusionBlock == Highest(vs)
  {
    if vs == [] {
    } else {
      var n := |vs| - 1;
      HighestIsHighest(vs[..n]);
      if vs[n].inclusionBlock <= Highest(vs[..n]) && Highest(vs[..n]) != 0 {
        var j :| 0 <= j < n && vs[..n][j].inclusionBlock == Highest(vs[..n]);
        assert vs[j].inclusionBlock == Highest(vs);
      }
      assert forall j | 0 <= j < n :: vs[j] == vs[..n][j];
    }
  }

  predicate Stale(v: Glance, high: nat) {
    v.status == Sequenced && high > v.submissionBlock
  }

  predicate Leaves(v: Glance, high: nat) {
    Stale(v, high) || v.status == Included || v.status == SystemFailure
  }

  function Verdicts(vs: seq<Glance>): (out: seq<bool>)
    ensures |out| == |vs|
    ensures forall i | 0 <= i < |vs| :: out[i] == Leaves(vs[i], Highest(vs))
  {
    seq(|vs|, i requires 0 <= i < |vs| => Leaves(vs[i], Highest(vs)))
  }

  /** Who leaves, and who of them is cancelled, in terms of what was read. */
  lemma VerdictsAre(vs: seq<Glance>, i: nat)
    requires i < |vs|
    ensures Stale(vs[i], Highest(vs))
       <==> vs[i].status == Sequenced && exists j :: 0 <= j < |vs| && vs[j].inclusionBlock > vs[i].submissionBlock
    ensures Verdicts(vs)[i]
       <==> || vs[i].status == Included || vs[i].status == SystemFailure
            || (vs[i].status == Sequenced && exists j :: 0 <= j < |vs| && vs[j].inclusionBlock > vs[i].submissionBlock)
  {
    HighestIsHighest(vs);
  }

  /** The elements whose verdict is `want`, in order. */
  function Pick<T>(xs: seq<T>, out: seq<bool>, want: bool): (r: seq<T>)
    requires |xs| == |out|
    ensures forall x | x in r :: x in xs
  {
    if xs == [] then []
    else
      var n := |xs| - 1;
      Pick(xs[..n], out[..n], want) + if out[n] == want then [xs[n]] else []
  }

  lemma PickNone<T>(xs: seq<T>, out: seq<bool>, want: bool)
    requires |xs| == |out|
    ensures Pick(xs[..0], out[..0], want) == []
    ensures Pick(xs[..|xs|], out[..|xs|], want) == Pick(xs, out, want)
  {
    assert xs[..|xs|] == xs && out[..|xs|] == out;
  }

  lemma PickNext<T>(xs: seq<T>, out: seq<bool>, want: bool, i: nat)
    requires |xs| == |out| && i < |xs|
    ensures Pick(xs[..i + 1], out[..i + 1], want)
         == Pick(xs[..i], out[..i], want) + if out[i] == want then [xs[i]] else []
  {
    assert xs[..i + 1][..i] == xs[..i];
    assert out[..i + 1][..i] == out[..i];
  }

  lemma MultisetSnoc<T>(xs: seq<T>)
    requires xs != []
    ensures multiset(xs) == multiset(xs[..|xs| - 1]) + multiset{xs[|xs| - 1]}
  {
    assert xs == xs[..|xs| - 1] + [xs[|xs| - 1]];
  }

  lemma MultisetAppend<T>(xs: seq<T>, x: T)
    ensures multiset(xs + [x]) == multiset(xs) + multiset{x}
  {
  }

  /** Nothing is lost, nothing is duplicated. */
  lemma {:induction false} PickSplits<T>(xs: seq<T>, out: seq<bool>)
    requires |xs| == |out|
    ensures multiset(Pick(xs, out, false)) + multiset(Pick(xs, out, true)) == multiset(xs)
    ensures |Pick(xs, out, false)| + |Pick(xs, out, true)| == |xs|
  {
    if xs == [] {
    } else {
      var n := |xs| - 1;
      PickSplits(xs[..n], out[..n]);
      MultisetSnoc(xs);
      MultisetAppend(Pick(xs[..n], out[..n], false), xs[n]);
      MultisetAppend(Pick(xs[..n], out[..n], true), xs[n]);
      PickLast(xs, out, false);
      PickLast(xs, out, true);
    }
  }

  lemma PickLast<T>(xs: seq<T>, out: seq<bool>, want: bool)
    requires |xs| == |out| && xs != []
    ensures var n := |xs| - 1;
      Pick(xs, out, want)
        == if out[n] == want then Pick(xs[..n], out[..n], want) + [xs[n]] else Pick(xs[..n], out[..n], want)
  {
  }

  /** Relative order is kept: position k of the result comes from a position Origin(k) of the input
      with the wanted verdict, and Origin is strictly increasing. */
  ghost function Origins(out: seq<bool>, want: bool): (r: seq<nat>)
    ensures forall k | 0 <= k < |r| :: r[k] < |out| && out[r[k]] == want
    ensures forall j, k | 0 <= j < k < |r| :: r[j] < r[k]
    ensures forall i | 0 <= i < |out| && out[i] == want :: i in r
  {
    if out == [] then []
    else
      var n := |out| - 1;
      var rest := Origins(out[..n], want);
      if out[n] == want then rest + [n] else rest
  }

  lemma {:induction false} PickKeepsOrder<T>(xs: seq<T>, out: seq<bool>, want: bool)
    requires |xs| == |out|
    ensures |Pick(xs, out, want)| == |Origins(out, want)|
    ensures forall k | 0 <= k < |Origins(out, want)| :: Pick(xs, out, want)[k] == xs[Origins(out, want)[k]]
  {
    if xs == [] {
    } else {
      var n := |xs| - 1;
      PickKeepsOrder(xs[..n], out[..n], want);
    }
  }

  /** The two lists after a sweep. */
  function SweptInFlight<T>(inFlight: seq<T>, vs: seq<Glance>): seq<T>
    requires |inFlight| == |vs|
  {
    Pick(inFlight, Verdicts(vs), false)
  }

  function SweptDone<T>(done: seq<T>, inFlight: seq<T>, vs: seq<Glance>): seq<T>
    requires |inFlight| == |vs|
  {
    done + Pick(inFlight, Verdicts(vs), true)
  }

  /** A sweep loses and duplicates nothing, only appends to the done list, and keeps the order of
      what stays in flight. */
  lemma SweepConserves<T>(done: seq<T>, inFlight: seq<T>, vs: seq<Glance>)
    requires |inFlight| == |vs|
    ensures multiset(SweptInFlight(inFlight, vs)) + multiset(SweptDone(done, inFlight, vs))
         == multiset(inFlight) + multiset(done)
    ensures |SweptInFlight(inFlight, vs)| + |SweptDone(done, inFlight, vs)| == |inFlight| + |done|
    ensures done <= SweptDone(done, inFlight, vs)
    ensures var from := Origins(Verdicts(vs), false);
         && |SweptInFlight(inFlight, vs)| == |from|
         && forall k | 0 <= k < |from| :: SweptInFlight(inFlight, vs)[k] == inFlight[from[k]]
  {
    PickSplits(inFlight, Verdicts(vs));
    PickKeepsOrder(inFlight, Verdicts(vs), false);
  }

  /** A sweep that cancels has a reason: another transaction of the same list was included after the
      cancelled one was sequenced. What it leaves behind as Sequenced is not behind any inclusion. */
  lemma SweepHasWitness(vs: seq<Glance>, i: nat)
    requires i < |vs|
    requires forall v | v in vs :: v.status == Sequenced ==> v.inclusionBlock == 0
    ensures vs[i].status == Sequenced && Verdicts(vs)[i] ==>
      exists j | 0 <= j < |vs| :: j != i && vs[j].inclusionBlock > vs[i].submissionBlock
    ensures vs[i].status == Sequenced && !Verdicts(vs)[i] ==>
      forall j | 0 <= j < |vs| :: vs[j].inclusionBlock <= vs[i].submissionBlock
  {
    HighestIsHighest(vs);
    if vs[i].status == Sequenced && Verdicts(vs)[i] {
      var j :| 0 <= j < |vs| && vs[j].inclusionBlock == Highest(vs);
      assert j != i && vs[j].inclusionBlock > vs[i].submissionBlock;
    }
  }
}
