/** The statistics' bookkeeping (continuous/collector.go, utils/utils.go): sequencer events become
    submissions, submissions are joined to successes by trigger, and triggers without a submission are
    counted. */
module Report {
  import opened Hex
  import opened Codec
  import opened BlockCache
  import opened Sweep

  datatype Submission = Submission(trigger: int, sequenced: int)

  /** A TransactionSubmitted event: who sent it is not looked at. */
  datatype Submitted = Submitted(prefix: seq<byte>, block: nat)

  predicate WellSized(events: seq<Submitted>) { forall e | e in events :: |e.prefix| == 32 }

  function SubmissionOf(e: Submitted): Submission
    requires |e.prefix| == 32
  {
    Submission(BlockNumberFromPrefix(e.prefix), e.block)
  }

  predicate InWindow(trigger: int, startBlock: nat, endBlock: nat) {
    startBlock <= trigger <= endBlock + 1000
  }

  function Submissions(events: seq<Submitted>, startBlock: nat, endBlock: nat): seq<Submission>
    requires WellSized(events)
  {
    if events == [] then []
    else
      var last := SubmissionOf(events[|events| - 1]);
      Submissions(events[..|events| - 1], startBlock, endBlock)
        + if InWindow(last.trigger, startBlock, endBlock) then [last] else []
  }

  /** The events whose trigger is in the window. */
  function Kept(events: seq<Submitted>, startBlock: nat, endBlock: nat): (at: seq<nat>)
    requires WellSized(events)
    ensures forall k | 0 <= k < |at| :: at[k] < |events|
    ensures forall j, k | 0 <= j < k < |at| :: at[j] < at[k]
    ensures forall i | 0 <= i < |events| ::
              i in at <==> startBlock <= BlockNumberFromPrefix(events[i].prefix) <= endBlock + 1000
  {
    if events == [] then []
    else
      var n := |events| - 1;
      var before := Kept(events[..n], startBlock, endBlock);
      if startBlock <= BlockNumberFromPrefix(events[n].prefix) <= endBlock + 1000 then before + [n] else before
  }

  lemma {:induction false} SubmissionsAreKept(events: seq<Submitted>, startBlock: nat, endBlock: nat)
    requires WellSized(events)
    ensures var at, out := Kept(events, startBlock, endBlock), Submissions(events, startBlock, endBlock);
      |out| == |at| && forall k | 0 <= k < |at| ::
        out[k].trigger == BlockNumberFromPrefix(events[at[k]].prefix) && out[k].sequenced == events[at[k]].block
  {
    if events == [] {
    } else {
      SubmissionsAreKept(events[..|events| - 1], startBlock, endBlock);
    }
  }

  /** The submissions stand for the events at the positions `at`: those whose trigger lies between the first
      block and 1000 past the last, in the order of the events. */
  method CollectSequencerEvents(events: seq<Submitted>, startBlock: nat, endBlock: nat)
    returns (submissions: seq<Submission>, ghost at: seq<nat>)
    requires WellSized(events)
    ensures submissions == Submissions(events, startBlock, endBlock)
    ensures |submissions| == |at| && forall j, k | 0 <= j < k < |at| :: at[j] < at[k]
    ensures forall i | 0 <= i < |events| ::
              i in at <==> startBlock <= BlockNumberFromPrefix(events[i].prefix) <= endBlock + 1000
    ensures forall k | 0 <= k < |at| ::
              && at[k] < |events| && submissions[k].trigger == BlockNumberFromPrefix(events[at[k]].prefix)
              && submissions[k].sequenced == events[at[k]].block
  {
    submissions := [];
    for i := 0 to |events|
      invariant submissions == Submissions(events[..i], startBlock, endBlock)
    {
      assert events[..i + 1][..i] == events[..i];
      var submission := Submission(BlockNumberFromPrefix(events[i].prefix), events[i].block);
      if submission.trigger >= startBlock && submission.trigger <= endBlock + 1000 {
        submissions := submissions + [submission];
      }
    }
    assert events[..|events|] == events;
    at := Kept(events, startBlock, endBlock);
    SubmissionsAreKept(events, startBlock, endBlock);
  }

  /** A submission is collected exactly when its trigger lies in the window and some event stands for it. */
  lemma SubmissionsAre(events: seq<Submitted>, startBlock: nat, endBlock: nat, x: Submission)
    requires WellSized(events)
    ensures x in Submissions(events, startBlock, endBlock)
       <==> && startBlock <= x.trigger <= endBlock + 1000
            && exists e :: e in events && BlockNumberFromPrefix(e.prefix) == x.trigger && e.block == x.sequenced
  {
    var at, out := Kept(events, startBlock, endBlock), Submissions(events, startBlock, endBlock);
    SubmissionsAreKept(events, startBlock, endBlock);
    if x in out {
      var k :| 0 <= k < |out| && out[k] == x;
      assert at[k] in at && events[at[k]] in events;
    }
    if e :| e in events && BlockNumberFromPrefix(e.prefix) == x.trigger && e.block == x.sequenced
            && startBlock <= x.trigger <= endBlock + 1000 {
      var i :| 0 <= i < |events| && events[i] == e;
      var k :| 0 <= k < |at| && at[k] == i;
      assert out[k] == x;
    }
  }

  // --- the join ---

  function ByTrigger(ss: seq<Success>): map<int, Success> {
    if ss == [] then map[] else ByTrigger(ss[..|ss| - 1])[ss[|ss| - 1].trigger := ss[|ss| - 1]]
  }

  /** Position i holds the last success with its trigger. */
  predicate IsLast(ss: seq<Success>, i: nat) {
    i < |ss| && forall j | i < j < |ss| :: ss[j].trigger != ss[i].trigger
  }

  /** The map holds a trigger exactly when some success has it, and then the last one, at position i. */
  lemma {:induction false} ByTriggerIs(ss: seq<Success>, trigger: int) returns (i: nat)
    ensures trigger !in ByTrigger(ss) ==> forall j | 0 <= j < |ss| :: ss[j].trigger != trigger
    ensures trigger in ByTrigger(ss) ==>
      IsLast(ss, i) && ss[i].trigger == trigger && ByTrigger(ss)[trigger] == ss[i]
  {
    i := 0;
    if ss == [] {
    } else {
      var n := |ss| - 1;
      i := ByTriggerIs(ss[..n], trigger);
      assert forall j | 0 <= j < n :: ss[..n][j] == ss[j];
      if ss[n].trigger == trigger {
        i := n;
      }
    }
  }

  /** Which submissions find a success. */
  function Found(submit: seq<Submission>, m: map<int, Success>): (out: seq<bool>)
    ensures |out| == |submit|
    ensures forall i | 0 <= i < |submit| :: out[i] == (submit[i].trigger in m)
  {
    seq(|submit|, i requires 0 <= i < |submit| => submit[i].trigger in m)
  }

  datatype Outcome = Outcome(successful: seq<Success>, delays: seq<int>, failed: seq<Submission>)

  predicate Entry(m: map<int, Success>, x: Submission, s: Success, delay: int) {
    x.trigger in m && s == m[x.trigger] && delay == m[x.trigger].included - x.sequenced
  }

  /** The failed submissions are the unmatched ones, in order; the matched ones, in order, have the
      success with their trigger and the distance to it. */
  predicate Joined(m: map<int, Success>, submit: seq<Submission>, o: Outcome) {
    var out := Found(submit, m);
    var matched := Pick(submit, out, true);
    && o.failed == Pick(submit, out, false)
    && |o.successful| == |o.delays| == |matched|
    && forall i | 0 <= i < |matched| :: Entry(m, matched[i], o.successful[i], o.delays[i])
  }

  method JoinByTrigger(success: seq<Success>, submit: seq<Submission>) returns (o: Outcome, failCnt: nat)
    ensures Joined(ByTrigger(success), submit, o)
    ensures failCnt == |o.failed|
  {
    var successByTrigger := map[];
    for i := 0 to |success|
      invariant successByTrigger == ByTrigger(success[..i])
    {
      assert success[..i + 1][..i] == success[..i];
      successByTrigger := successByTrigger[success[i].trigger := success[i]];
    }
    assert success[..|success|] == success;
    o, failCnt := JoinSubmissions(successByTrigger, submit);
  }

  lemma FoundAre(success: seq<Success>, submit: seq<Submission>)
    ensures forall i | 0 <= i < |submit| ::
              && Found(submit, ByTrigger(success))[i]
              == exists j :: 0 <= j < |success| && success[j].trigger == submit[i].trigger
  {
    forall i | 0 <= i < |submit|
      ensures submit[i].trigger in ByTrigger(success)
         <==> exists j :: 0 <= j < |success| && success[j].trigger == submit[i].trigger
    {
      var last := ByTriggerIs(success, submit[i].trigger);
    }
  }

  lemma EntryIs(success: seq<Success>, x: Submission, s: Success, delay: int)
    requires Entry(ByTrigger(success), x, s, delay)
    ensures s.trigger == x.trigger && delay == s.included - x.sequenced
    ensures exists j :: 0 <= j < |success| && success[j] == s
                     && forall i | j < i < |success| :: success[i].trigger != x.trigger
  {
    var j := ByTriggerIs(success, x.trigger);
    assert success[j] == s;
  }

  /** The join. Position i of the submissions is in `won` if some success has its trigger and in `lost` if
      none has. A matched submission gets the last such success, and as its delay the distance from its own
      block to that success's; the others are the failed ones, in order. */
  method Join(success: seq<Success>, submit: seq<Submission>)
    returns (o: Outcome, failCnt: nat, ghost won: seq<nat>, ghost lost: seq<nat>)
    ensures Joined(ByTrigger(success), submit, o)
    ensures failCnt == |o.failed| == |lost| && |o.successful| == |o.delays| == |won|
    ensures forall i, j | 0 <= i < j < |won| :: won[i] < won[j]
    ensures forall i, j | 0 <= i < j < |lost| :: lost[i] < lost[j]
    ensures forall i | 0 <= i < |submit| ::
              && (i in won <==> exists j :: 0 <= j < |success| && success[j].trigger == submit[i].trigger)
              && (i in lost <==> i !in won)
    ensures forall k | 0 <= k < |won| ::
              && won[k] < |submit| && o.successful[k].trigger == submit[won[k]].trigger
              && o.delays[k] == o.successful[k].included - submit[won[k]].sequenced
              && exists j :: 0 <= j < |success| && success[j] == o.successful[k]
                          && forall i | j < i < |success| :: success[i].trigger != submit[won[k]].trigger
    ensures forall k | 0 <= k < |lost| :: lost[k] < |submit| && o.failed[k] == submit[lost[k]]
  {
    o, failCnt := JoinByTrigger(success, submit);
    ghost var m := ByTrigger(success);
    ghost var out := Found(submit, m);
    won, lost := Origins(out, true), Origins(out, false);
    PickKeepsOrder(submit, out, true);
    PickKeepsOrder(submit, out, false);
    FoundAre(success, submit);
    forall k | 0 <= k < |won|
      ensures o.successful[k].trigger == submit[won[k]].trigger
      ensures o.delays[k] == o.successful[k].included - submit[won[k]].sequenced
      ensures exists j :: 0 <= j < |success| && success[j] == o.successful[k]
                       && forall i | j < i < |success| :: success[i].trigger != submit[won[k]].trigger
    {
      assert Entry(m, Pick(submit, out, true)[k], o.successful[k], o.delays[k]);
      EntryIs(success, submit[won[k]], o.successful[k], o.delays[k]);
    }
  }

  method JoinSubmissions(m: map<int, Success>, submit: seq<Submission>) returns (o: Outcome, failCnt: nat)
    ensures Joined(m, submit, o)
    ensures failCnt == |o.failed|
  {
    ghost var out := Found(submit, m);
    PickNone(submit, out, false);
    PickNone(submit, out, true);
    var successful, delays, failed := [], [], [];
    failCnt := 0;
    for i := 0 to |submit|
      invariant failed == Pick(submit[..i], out[..i], false) && failCnt == |failed|
      invariant |successful| == |delays| == |Pick(submit[..i], out[..i], true)|
      invariant forall j | 0 <= j < |successful| ::
                  Entry(m, Pick(submit[..i], out[..i], true)[j], successful[j], delays[j])
    {
      PickNext(submit, out, false, i);
      PickNext(submit, out, true, i);
      var trigger := submit[i].trigger;
      if trigger in m {
        var included := m[trigger];
        delays := delays + [included.included - submit[i].sequenced];
        successful := successful + [included];
      } else {
        failed := failed + [submit[i]];
        failCnt := failCnt + 1;
      }
    }
    assert forall j | 0 <= j < |successful| :: Entry(m, Pick(submit, out, true)[j], successful[j], delays[j]);
    o := Outcome(successful, delays, failed);
  }

  /** Every submission is counted once, as a success or as a failure, and it is a failure exactly when no
      success has its trigger. */
  lemma JoinPartitions(success: seq<Success>, submit: seq<Submission>, x: Submission)
    ensures var out := Found(submit, ByTrigger(success));
      && |Pick(submit, out, false)| + |Pick(submit, out, true)| == |submit|
      && multiset(Pick(submit, out, false)) + multiset(Pick(submit, out, true)) == multiset(submit)
      && (x in Pick(submit, out, false) <==> x in submit && forall s | s in success :: s.trigger != x.trigger)
      && (x in Pick(submit, out, true) <==> x in submit && exists s :: s in success && s.trigger == x.trigger)
  {
    var m := ByTrigger(success);
    var out := Found(submit, m);
    PickSplits(submit, out);
    PickMembers(submit, out, false, x);
    PickMembers(submit, out, true, x);
    var last := ByTriggerIs(success, x.trigger);
    assert (exists s :: s in success && s.trigger == x.trigger) <==> x.trigger in m by {
      if s :| s in success && s.trigger == x.trigger {
        var i :| 0 <= i < |success| && success[i] == s;
        assert success[i].trigger == x.trigger;
      }
    }
  }

  lemma {:induction false} PickMembers<T>(xs: seq<T>, out: seq<bool>, want: bool, x: T)
    requires |xs| == |out|
    ensures x in Pick(xs, out, want) <==> exists i :: 0 <= i < |xs| && xs[i] == x && out[i] == want
  {
    if xs == [] {
    } else {
      var n := |xs| - 1;
      PickMembers(xs[..n], out[..n], want, x);
      if i :| 0 <= i < n && xs[i] == x && out[i] == want {
        assert xs[..n][i] == x && out[..n][i] == want;
      }
      if i :| 0 <= i < n && xs[..n][i] == x && out[..n][i] == want {
        assert xs[i] == x && out[i] == want;
      }
    }
  }

  // --- missed triggers ---

  function Without(a: seq<int>, b: seq<int>): seq<int> {
    if a == [] then []
    else Without(a[..|a| - 1], b) + if a[|a| - 1] in b then [] else [a[|a| - 1]]
  }

  /** The positions of the elements of a that are not in b. */
  function Left(a: seq<int>, b: seq<int>): (at: seq<nat>)
    ensures forall k | 0 <= k < |at| :: at[k] < |a|
    ensures forall j, k | 0 <= j < k < |at| :: at[j] < at[k]
    ensures forall i | 0 <= i < |a| :: i in at <==> a[i] !in b
  {
    if a == [] then []
    else
      var before := Left(a[..|a| - 1], b);
      if a[|a| - 1] in b then before else before + [|a| - 1]
  }

  lemma {:induction false} WithoutIsLeft(a: seq<int>, b: seq<int>)
    ensures |Without(a, b)| == |Left(a, b)| && forall k | 0 <= k < |Left(a, b)| :: Without(a, b)[k] == a[Left(a, b)[k]]
  {
    if a == [] {
    } else {
      WithoutIsLeft(a[..|a| - 1], b);
    }
  }

  /** What is left of a are its elements that are not in b, in order and as often as they occur: those at the
      positions `at`. */
  method Difference(a: seq<int>, b: seq<int>) returns (diff: seq<int>, ghost at: seq<nat>)
    ensures diff == Without(a, b)
    ensures |diff| == |at| && forall j, k | 0 <= j < k < |at| :: at[j] < at[k]
    ensures forall i | 0 <= i < |a| :: i in at <==> a[i] !in b
    ensures forall k | 0 <= k < |at| :: at[k] < |a| && diff[k] == a[at[k]]
  {
    var m: map<int, bool> := map[];
    for i := 0 to |b|
      invariant forall x :: x in m <==> x in b[..i]
    {
      assert b[..i + 1] == b[..i] + [b[i]];
      m := m[b[i] := true];
    }
    assert b[..|b|] == b;
    assert forall x :: x in m <==> x in b;
    diff := [];
    for i := 0 to |a|
      invariant diff == Without(a[..i], b)
    {
      assert a[..i + 1][..i] == a[..i];
      if a[i] !in m {
        diff := diff + [a[i]];
      }
    }
    assert a[..|a|] == a;
    at := Left(a, b);
    WithoutIsLeft(a, b);
  }

  predicate NoDuplicates(a: seq<int>) {
    forall i, j | 0 <= i < j < |a| :: a[i] != a[j]
  }

  function Elements(a: seq<int>): set<int> { set x | x in a }

  lemma {:induction false} CountElements(a: seq<int>)
    requires NoDuplicates(a)
    ensures |Elements(a)| == |a|
  {
    if a == [] {
    } else {
      var n := |a| - 1;
      CountElements(a[..n]);
      assert a == a[..n] + [a[n]];
      assert Elements(a) == Elements(a[..n]) + {a[n]};
    }
  }

  lemma ElementsSnoc(a: seq<int>, x: int)
    ensures Elements(a + [x]) == Elements(a) + {x}
  {
  }

  lemma {:induction false} WithoutElements(a: seq<int>, b: seq<int>)
    ensures Elements(Without(a, b)) == Elements(a) - Elements(b)
    ensures NoDuplicates(a) ==> NoDuplicates(Without(a, b))
  {
    if a == [] {
    } else {
      var n := |a| - 1;
      WithoutElements(a[..n], b);
      assert a == a[..n] + [a[n]];
      ElementsSnoc(a[..n], a[n]);
      var rest := Without(a[..n], b);
      ElementsSnoc(rest, a[n]);
      assert a[n] in b <==> a[n] in Elements(b);
      assert Elements(a) - Elements(b) == Elements(rest) + (if a[n] in b then {} else {a[n]});
      if NoDuplicates(a) && a[n] !in b {
        assert a[n] !in Elements(a[..n]);
        assert forall i | 0 <= i < |rest| :: rest[i] in Elements(rest);
      }
    }
  }

  lemma CountMissing(t: set<int>, s: set<int>)
    ensures |t| - |s| == |t - s| <==> s <= t
  {
    assert t == (t - s) + (t * s);
    assert s == (s - t) + (t * s);
    assert s - t == {} <==> s <= t;
  }

  /** The printed count of missed triggers is the length of the printed list exactly when every submitted
      trigger is one of the triggers, both lists being free of duplicates. */
  lemma MissedCountIff(triggers: seq<int>, submitted: seq<int>)
    requires NoDuplicates(triggers) && NoDuplicates(submitted)
    ensures |triggers| - |submitted| == |Without(triggers, submitted)| <==> forall x | x in submitted :: x in triggers
  {
    CountElements(triggers);
    CountElements(submitted);
    WithoutElements(triggers, submitted);
    CountElements(Without(triggers, submitted));
    CountMissing(Elements(triggers), Elements(submitted));
    ElementsWithin(triggers, submitted);
  }

  lemma ElementsWithin(a: seq<int>, b: seq<int>)
    ensures Elements(b) <= Elements(a) <==> forall x | x in b :: x in a
  {
    forall x ensures x in b <==> x in Elements(b) {}
    forall x ensures x in a <==> x in Elements(a) {}
    if forall x | x in b :: x in a {
      forall x | x in Elements(b) ensures x in Elements(a) {}
    } else {
      var x :| x in b && x !in a;
      assert x in Elements(b) && x !in Elements(a);
    }
  }

  /** One block that triggered nothing and one submission for another: the count says 0, the list has one. */
  lemma MissedCountDiffers()
    ensures |[1]| - |[2]| == 0 && Without([1], [2]) == [1]
  {
    assert [1][..0] == [] && [] + [1] == [1];
  }
}
