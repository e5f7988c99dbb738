/** The two pollers that turn the observer database into a stream of trigger blocks
    (continuous/continuous.go). */
module Pollers {
  import opened Base
  import opened Codec

  /** A shutter block as the query returns it. */
  datatype Row = Row(number: nat, ts: nat)

  /** The zero time as a Unix timestamp: before every block. */
  const ZERO_TIME: int := -62135596800

  datatype Poll = Fatal | Nothing | Found(row: Row)

  /** The rows newer than `last`; the query states no order. */
  function Newer(last: int, db: seq<Row>): seq<Row> {
    if db == [] then []
    else Newer(last, db[..|db| - 1]) + if db[|db| - 1].ts > last then [db[|db| - 1]] else []
  }

  // --- standard mode ---

  /** What one poll makes of the rows: a second row after one with a block number ends the process. */
  function Verdict(rows: seq<Row>): Poll {
    if rows == [] then Nothing
    else if exists i | 0 <= i < |rows| - 1 :: rows[i].number != 0 then Fatal
    else Found(rows[|rows| - 1])
  }

  /** The positions of the rows newer than `last`. */
  function NewerAt(last: int, db: seq<Row>): (at: seq<nat>)
    ensures forall k | 0 <= k < |at| :: at[k] < |db|
    ensures forall j, k | 0 <= j < k < |at| :: at[j] < at[k]
    ensures forall i | 0 <= i < |db| :: i in at <==> db[i].ts > last
  {
    if db == [] then []
    else
      var before := NewerAt(last, db[..|db| - 1]);
      if db[|db| - 1].ts > last then before + [|db| - 1] else before
  }

  lemma {:induction false} NewerIsAt(last: int, db: seq<Row>)
    ensures |Newer(last, db)| == |NewerAt(last, db)|
    ensures forall k | 0 <= k < |NewerAt(last, db)| :: Newer(last, db)[k] == db[NewerAt(last, db)[k]]
  {
    if db == [] {
    } else {
      NewerIsAt(last, db[..|db| - 1]);
    }
  }

  /** One poll looks at the rows newer than `last`, at the positions `at`: nothing if there is none, the end of
      the process if one with a number is followed by another, and the last of them otherwise. */
  method QueryNewestShutterBlock(last: int, db: seq<Row>) returns (p: Poll, ghost at: seq<nat>)
    ensures p == Verdict(Newer(last, db))
    ensures forall j, k | 0 <= j < k < |at| :: at[j] < at[k]
    ensures forall i | 0 <= i < |db| :: i in at <==> db[i].ts > last
    ensures forall k | 0 <= k < |at| :: at[k] < |db|
    ensures p.Nothing? <==> at == []
    ensures p.Fatal? <==> exists k :: 0 <= k < |at| - 1 && db[at[k]].number != 0
    ensures p.Found? ==> p.row == db[at[|at| - 1]]
  {
    p := NewestOf(Newer(last, db));
    at := NewerAt(last, db);
    VerdictAt(last, db);
  }

  /** The loop over the rows that the query returns. */
  method NewestOf(rows: seq<Row>) returns (p: Poll)
    ensures p == Verdict(rows)
  {
    var block := 0;
    p := Nothing;
    for i := 0 to |rows|
      invariant block == if i == 0 then 0 else rows[i - 1].number
      invariant p == if i == 0 then Nothing else Found(rows[i - 1])
      invariant forall j | 0 <= j < i - 1 :: rows[j].number == 0
    {
      if block != 0 {
        assert rows[i - 1].number != 0;
        return Fatal;
      }
      block := rows[i].number;
      p := Found(rows[i]);
    }
  }

  lemma VerdictAt(last: int, db: seq<Row>)
    ensures var p, at := Verdict(Newer(last, db)), NewerAt(last, db);
      && (p.Nothing? <==> at == [])
      && (p.Fatal? <==> exists k :: 0 <= k < |at| - 1 && db[at[k]].number != 0)
      && (p.Found? ==> p.row == db[at[|at| - 1]])
  {
    var rows, at := Newer(last, db), NewerAt(last, db);
    NewerIsAt(last, db);
    if k :| 0 <= k < |at| - 1 && db[at[k]].number != 0 {
      assert rows[k].number != 0;
    }
    if k :| 0 <= k < |rows| - 1 && rows[k].number != 0 {
      assert db[at[k]].number != 0;
    }
  }

  /** A whole run: the snapshots of the database that the polls see, the blocks sent to the channel, and
      whether the process ended itself. */
  function Stream(last: int, snapshots: seq<seq<Row>>): (seq<Row>, bool)
    decreases |snapshots|
  {
    if snapshots == [] then ([], false)
    else
      match Verdict(Newer(last, snapshots[0]))
      case Fatal => ([], true)
      case Nothing => Stream(last, snapshots[1..])
      case Found(row) =>
        var rest := Stream(row.ts, snapshots[1..]);
        ([row] + rest.0, rest.1)
  }

  method QueryAllShutterBlocks(initial: int, snapshots: seq<seq<Row>>) returns (sent: seq<Row>, fatal: bool)
    ensures (sent, fatal) == Stream(initial, snapshots)
  {
    sent, fatal := [], false;
    var lastShutterTS := initial;
    assert snapshots[0..] == snapshots && [] + Stream(initial, snapshots).0 == Stream(initial, snapshots).0;
    for i := 0 to |snapshots|
      invariant !fatal
      invariant Stream(initial, snapshots)
             == (sent + Stream(lastShutterTS, snapshots[i..]).0, Stream(lastShutterTS, snapshots[i..]).1)
    {
      assert snapshots[i..] != [] && snapshots[i..][0] == snapshots[i] && snapshots[i..][1..] == snapshots[i + 1..];
      var p, at := QueryNewestShutterBlock(lastShutterTS, snapshots[i]);
      match p {
        case Fatal =>
          assert sent + [] == sent;
          return sent, true;
        case Nothing =>
        case Found(row) =>
          assert sent + ([row] + Stream(row.ts, snapshots[i + 1..]).0)
              == sent + [row] + Stream(row.ts, snapshots[i + 1..]).0;
          lastShutterTS := row.ts;
          sent := sent + [row];
      }
    }
    assert snapshots[|snapshots|..] == [] && sent + [] == sent;
  }

  /** Shutter blocks reach the database in order. */
  predicate InOrder(history: seq<Row>) {
    && (forall i | 0 <= i < |history| :: history[i].number > 0)
    && (forall i, j | 0 <= i < j < |history| :: history[i].ts < history[j].ts && history[i].number < history[j].number)
  }

  /** How many rows are there when each poll happens, never fewer than before. */
  predicate Visible(history: seq<Row>, start: nat, seen: seq<nat>) {
    && start <= |history|
    && (forall i | 0 <= i < |seen| :: start <= seen[i] <= |history|)
    && (forall i, j | 0 <= i < j < |seen| :: seen[i] <= seen[j])
  }

  function Snapshots(history: seq<Row>, seen: seq<nat>): seq<seq<Row>>
    requires forall i | 0 <= i < |seen| :: seen[i] <= |history|
  {
    seq(|seen|, i requires 0 <= i < |seen| => history[..seen[i]])
  }

  function LastTs(history: seq<Row>, start: nat): int
    requires start <= |history|
  {
    if start == 0 then ZERO_TIME else history[start - 1].ts
  }

  /** Two blocks became visible between two polls. */
  predicate Jump(start: nat, seen: seq<nat>, i: nat)
    requires i < |seen|
  {
    seen[i] >= (if i == 0 then start else seen[i - 1]) + 2
  }

  /** The rows that were there before are no newer than `last`. */
  predicate Old(history: seq<Row>, start: nat, last: int)
    requires start <= |history|
  {
    forall i | 0 <= i < start :: history[i].ts <= last
  }

  /** The rows start .. end - 1 arrive in strictly increasing order of time, all newer than `last`. */
  predicate Rising(history: seq<Row>, start: nat, end: nat, last: int)
    requires end <= |history|
  {
    && (forall i | start <= i < end :: history[i].ts > last)
    && (forall i, j | start <= i < j < end :: history[i].ts < history[j].ts)
  }

  predicate Numbered(history: seq<Row>) {
    forall i | 0 <= i < |history| :: history[i].number > 0
  }

  function LastSeen(start: nat, seen: seq<nat>): nat { if seen == [] then start else seen[|seen| - 1] }

  lemma {:induction false} NewerIsTail(history: seq<Row>, start: nat, n: nat, last: int)
    requires n <= |history| && start <= |history| && Old(history, start, last)
    requires forall i | start <= i < n :: history[i].ts > last
    ensures Newer(last, history[..n]) == if start <= n then history[start..n] else []
  {
    if n == 0 {
    } else {
      assert history[..n][..n - 1] == history[..n - 1];
      NewerIsTail(history, start, n - 1, last);
      if start < n {
        assert history[start..n] == history[start..n - 1] + [history[n - 1]];
      }
    }
  }

  /** What a poll sees when n rows are visible and `start` were before. */
  lemma FirstPoll(history: seq<Row>, start: nat, n: nat, last: int)
    requires start <= n <= |history| && Numbered(history)
    requires Old(history, start, last) && Rising(history, start, n, last)
    ensures var v := Verdict(Newer(last, history[..n]));
      && (n == start ==> v == Nothing)
      && (n == start + 1 ==> v == Found(history[start]))
      && (n >= start + 2 ==> v == Fatal)
  {
    NewerIsTail(history, start, n, last);
    var rows := history[start..n];
    if n >= start + 2 {
      assert rows[0] == history[start] && rows[0].number != 0;
    }
  }

  predicate HasJump(start: nat, seen: seq<nat>) {
    exists i :: 0 <= i < |seen| && Jump(start, seen, i)
  }

  lemma JumpsShift(start: nat, seen: seq<nat>)
    requires seen != [] && !Jump(start, seen, 0)
    ensures HasJump(start, seen) <==> HasJump(seen[0], seen[1..])
  {
    if i :| 0 <= i < |seen| && Jump(start, seen, i) {
      assert Jump(seen[0], seen[1..], i - 1);
    }
    if i :| 0 <= i < |seen[1..]| && Jump(seen[0], seen[1..], i) {
      assert Jump(start, seen, i + 1);
    }
  }

  /** What is sent while blocks arrive in increasing order of time, and when the process ends itself. */
  predicate SendsAll(history: seq<Row>, start: nat, seen: seq<nat>, last: int)
    requires Visible(history, start, seen)
  {
    var (sent, fatal) := Stream(last, Snapshots(history, seen));
    && (fatal <==> HasJump(start, seen))
    && (!fatal ==> sent == history[start..LastSeen(start, seen)])
    && start + |sent| <= |history| && sent == history[start..start + |sent|]
  }

  lemma VisibleNext(history: seq<Row>, start: nat, seen: seq<nat>)
    requires Visible(history, start, seen) && seen != []
    ensures start <= seen[0] <= LastSeen(start, seen) == LastSeen(seen[0], seen[1..]) <= |history|
    ensures Visible(history, seen[0], seen[1..])
    ensures Snapshots(history, seen) == [history[..seen[0]]] + Snapshots(history, seen[1..])
  {
  }

  /** The first poll finds nothing new. */
  lemma SendsAllIdle(history: seq<Row>, start: nat, seen: seq<nat>, last: int)
    requires Visible(history, start, seen) && seen != [] && seen[0] == start
    requires Visible(history, start, seen[1..]) && SendsAll(history, start, seen[1..], last)
    requires Verdict(Newer(last, history[..start])) == Nothing
    ensures SendsAll(history, start, seen, last)
  {
    VisibleNext(history, start, seen);
    JumpsShift(start, seen);
  }

  /** The first poll finds exactly one new block. */
  lemma SendsAllOne(history: seq<Row>, start: nat, seen: seq<nat>, last: int)
    requires Visible(history, start, seen) && seen != [] && seen[0] == start + 1
    requires Visible(history, start + 1, seen[1..]) && SendsAll(history, start + 1, seen[1..], history[start].ts)
    requires Verdict(Newer(last, history[..start + 1])) == Found(history[start])
    ensures SendsAll(history, start, seen, last)
  {
    VisibleNext(history, start, seen);
    JumpsShift(start, seen);
    SliceCons(history, start);
  }

  lemma SliceCons(history: seq<Row>, start: nat)
    requires start < |history|
    ensures forall m | start + 1 <= m <= |history| :: [history[start]] + history[start + 1..m] == history[start..m]
  {
  }

  lemma {:induction false} RisingIsSent(history: seq<Row>, start: nat, seen: seq<nat>, last: int)
    requires Visible(history, start, seen) && Numbered(history) && Old(history, start, last)
    requires LastSeen(start, seen) <= |history| && Rising(history, start, LastSeen(start, seen), last)
    ensures SendsAll(history, start, seen, last)
    decreases |seen|
  {
    if seen == [] {
      assert history[start..start] == [];
    } else {
      var n := seen[0];
      VisibleNext(history, start, seen);
      FirstPoll(history, start, n, last);
      if n >= start + 2 {
        assert Jump(start, seen, 0);
        assert history[start..start] == [];
      } else if n == start {
        RisingIsSent(history, start, seen[1..], last);
        SendsAllIdle(history, start, seen, last);
      } else {
        RisingIsSent(history, n, seen[1..], history[start].ts);
        SendsAllOne(history, start, seen, last);
      }
    }
  }

  /** If shutter blocks reach the database in order, then what is sent is exactly the blocks after the
      initial one up to the last poll, each once and in order; and the process ends itself exactly when
      two of them become visible between two polls, having sent the ones before. */
  lemma ExactlyOnce(history: seq<Row>, start: nat, seen: seq<nat>)
    requires InOrder(history) && Visible(history, start, seen)
    ensures SendsAll(history, start, seen, LastTs(history, start))
  {
    RisingIsSent(history, start, seen, LastTs(history, start));
  }

  // --- blocks in any order ---

  lemma {:induction false} NewerAreNewer(last: int, db: seq<Row>)
    ensures forall i | 0 <= i < |Newer(last, db)| :: Newer(last, db)[i].ts > last
  {
    if db == [] {
    } else {
      NewerAreNewer(last, db[..|db| - 1]);
    }
  }

  predicate TimesIncrease(sent: seq<Row>, last: int) {
    && (forall i | 0 <= i < |sent| :: sent[i].ts > last)
    && (forall i, j | 0 <= i < j < |sent| :: sent[i].ts < sent[j].ts)
  }

  /** Whatever the polls see, in whatever order, what is sent is strictly increasing in time and newer than
      the initial timestamp. */
  lemma {:induction false} SentTimesIncrease(last: int, snapshots: seq<seq<Row>>)
    ensures TimesIncrease(Stream(last, snapshots).0, last)
    decreases |snapshots|
  {
    if snapshots == [] {
    } else {
      NewerAreNewer(last, snapshots[0]);
      match Verdict(Newer(last, snapshots[0]))
      case Fatal =>
      case Nothing => SentTimesIncrease(last, snapshots[1..]);
      case Found(row) =>
        SentTimesIncrease(row.ts, snapshots[1..]);
        var rest := Stream(row.ts, snapshots[1..]).0;
        assert forall i | 1 <= i < |[row] + rest| :: ([row] + rest)[i] == rest[i - 1];
    }
  }

  lemma {:induction false} StreamPrefix(last: int, snapshots: seq<seq<Row>>, n: nat)
    requires n <= |snapshots|
    ensures Stream(last, snapshots[..n]).0 <= Stream(last, snapshots).0
    decreases |snapshots|
  {
    if n == 0 {
    } else {
      assert snapshots[..n][0] == snapshots[0] && snapshots[..n][1..] == snapshots[1..][..n - 1];
      match Verdict(Newer(last, snapshots[0]))
      case Fatal =>
      case Nothing => StreamPrefix(last, snapshots[1..], n - 1);
      case Found(row) => StreamPrefix(row.ts, snapshots[1..], n - 1);
    }
  }

  /** A block that has not been sent when one at least as young has, is never sent. */
  lemma LateIsNeverSent(last: int, snapshots: seq<seq<Row>>, n: nat, younger: Row, late: Row)
    requires n <= |snapshots| && younger in Stream(last, snapshots[..n]).0 && late !in Stream(last, snapshots[..n]).0
    requires late.ts <= younger.ts
    ensures late !in Stream(last, snapshots).0
  {
    StreamPrefix(last, snapshots, n);
    SentTimesIncrease(last, snapshots);
    var sent, all := Stream(last, snapshots[..n]).0, Stream(last, snapshots).0;
    var y :| 0 <= y < |sent| && sent[y] == younger;
    forall i | 0 <= i < |all| ensures all[i] != late {
      if i < |sent| {
        assert all[i] == sent[i];
      } else {
        assert all[y] == younger;
      }
    }
  }

  /** For blocks that arrive in any order: everything that arrives after the start is sent, once and in order
      of arrival, and the process lives on, if and only if the blocks arrive in strictly increasing order of
      time and no two become visible between two polls. */
  lemma ExactlyOnceIff(history: seq<Row>, start: nat, seen: seq<nat>, initial: int)
    requires Visible(history, start, seen) && Numbered(history) && Old(history, start, initial)
    ensures start <= LastSeen(start, seen) <= |history|
    ensures Stream(initial, Snapshots(history, seen)) == (history[start..LastSeen(start, seen)], false)
       <==> Rising(history, start, LastSeen(start, seen), initial) && !HasJump(start, seen)
  {
    var end := LastSeen(start, seen);
    if Rising(history, start, end, initial) {
      RisingIsSent(history, start, seen, initial);
    } else {
      SentTimesIncrease(initial, Snapshots(history, seen));
      assert forall i | start <= i < end :: history[start..end][i - start] == history[i];
      assert !TimesIncrease(history[start..end], initial);
    }
  }

  lemma StreamFinds(last: int, snapshots: seq<seq<Row>>, row: Row)
    requires snapshots != [] && Newer(last, snapshots[0]) == [row]
    ensures Stream(last, snapshots) == ([row] + Stream(row.ts, snapshots[1..]).0, Stream(row.ts, snapshots[1..]).1)
  {
    assert Verdict([row]) == Found(row);
  }

  /** A run of the poller in which that happens. */
  lemma LateBlockIsLost()
    ensures var a, b, late := Row(1, 10), Row(2, 30), Row(3, 20);
      Stream(ZERO_TIME, [[a], [a, b], [a, b, late]]) == ([a, b], false)
  {
    var a, b, late := Row(1, 10), Row(2, 30), Row(3, 20);
    assert Newer(ZERO_TIME, [a]) == [a] by {
      assert [a][..0] == [];
    }
    assert Newer(10, [a, b]) == [b] by {
      assert [a, b][..1] == [a] && [a][..0] == [];
      assert Newer(10, [a]) == [];
    }
    assert Newer(30, [a, b, late]) == [] by {
      assert [a, b, late][..2] == [a, b] && [a, b][..1] == [a] && [a][..0] == [];
      assert Newer(30, [a]) == [];
      assert Newer(30, [a, b]) == [];
    }
    var three, two, one := [[a], [a, b], [a, b, late]], [[a, b], [a, b, late]], [[a, b, late]];
    assert three[1..] == two && two[1..] == one && one[1..] == [];
    assert Stream(30, one) == ([], false);
    StreamFinds(10, two, b);
    StreamFinds(ZERO_TIME, three, a);
    assert [b] + [] == [b] && [a] + [b] == [a, b];
  }

  // --- graffiti mode ---

  datatype Block = Block(slot: nat, number: nat)

  /** What the graffiti query looks at: the newest block, the slots at which active validators propose,
      and the validators' graffiti. */
  datatype Db = Db(head: Block, duties: map<nat, int>, graffiti: map<int, string>)

  datatype GraffitiRow = GraffitiRow(nextSlot: nat, graffiti: string, number: nat)

  datatype Emission = Emission(number: nat, target: nat)

  /** The least duty slot after the newest block. */
  predicate IsNextSlot(db: Db, n: nat) {
    n in db.duties && n > db.head.slot && forall m | m in db.duties && m > db.head.slot :: n <= m
  }

  /** The row is what the query yields: the next duty slot, joined with its validator's graffiti and the
      newest block's number. There may also be no row: no such slot, no graffiti, or an error. */
  predicate Answers(db: Db, row: Option<GraffitiRow>) {
    row.Some? ==>
      && IsNextSlot(db, row.value.nextSlot)
      && db.duties[row.value.nextSlot] in db.graffiti
      && row.value.graffiti == db.graffiti[db.duties[row.value.nextSlot]]
      && row.value.number == db.head.number
  }

  /** One poll: too close to the last target, or not a wanted graffiti, and nothing is sent. */
  function GraffitiPoll(next: nat, row: Option<GraffitiRow>, wanted: set<string>): Option<Emission> {
    if row.None? || row.value.nextSlot <= next + 1 then None
    else if row.value.graffiti != "" && row.value.graffiti in wanted
    then Some(Emission(row.value.number, row.value.nextSlot))
    else None
  }

  function GraffitiStream(next: nat, rows: seq<Option<GraffitiRow>>, wanted: set<string>): seq<Emission>
    decreases |rows|
  {
    if rows == [] then []
    else
      match GraffitiPoll(next, rows[0], wanted)
      case None => GraffitiStream(next, rows[1..], wanted)
      case Some(e) => [e] + GraffitiStream(e.target, rows[1..], wanted)
  }

  predicate SpacedFrom(out: seq<Emission>, next: nat) {
    && (forall i | 0 <= i < |out| :: out[i].target >= next + 2)
    && (forall i, j | 0 <= i < j < |out| :: out[j].target >= out[i].target + 2)
  }

  lemma SpacedCons(e: Emission, rest: seq<Emission>, next: nat)
    requires e.target >= next + 2 && SpacedFrom(rest, e.target)
    ensures SpacedFrom([e] + rest, next)
  {
    var out := [e] + rest;
    assert forall i | 1 <= i < |out| :: out[i] == rest[i - 1];
  }

  /** Targets are at least two slots apart. */
  lemma {:induction false} TargetsGrow(next: nat, rows: seq<Option<GraffitiRow>>, wanted: set<string>)
    ensures SpacedFrom(GraffitiStream(next, rows, wanted), next)
    decreases |rows|
  {
    if rows == [] {
    } else {
      var p := GraffitiPoll(next, rows[0], wanted);
      if p.Some? {
        TargetsGrow(p.value.target, rows[1..], wanted);
        SpacedCons(p.value, GraffitiStream(p.value.target, rows[1..], wanted), next);
      } else {
        TargetsGrow(next, rows[1..], wanted);
      }
    }
  }

  /** Heads of one chain: a later slot means a higher block number. */
  predicate Ordered(dbs: seq<Db>) {
    forall i, j | 0 <= i < |dbs| && 0 <= j < |dbs| && dbs[i].head.slot < dbs[j].head.slot ::
      dbs[i].head.number < dbs[j].head.number
  }

  /** And the same slot the same block. */
  predicate OneChain(dbs: seq<Db>) {
    && Ordered(dbs)
    && forall i, j | 0 <= i < |dbs| && 0 <= j < |dbs| && dbs[i].head.slot == dbs[j].head.slot ::
         dbs[i].head == dbs[j].head
  }

  predicate AllAnswer(dbs: seq<Db>, rows: seq<Option<GraffitiRow>>) {
    |dbs| == |rows| && forall i | 0 <= i < |dbs| :: Answers(dbs[i], rows[i])
  }

  /** What the poller remembers after i polls: the last target, 0 at first. */
  function TargetAfter(rows: seq<Option<GraffitiRow>>, wanted: set<string>, i: nat): nat
    requires i <= |rows|
  {
    if i == 0 then 0
    else
      var next := TargetAfter(rows, wanted, i - 1);
      match GraffitiPoll(next, rows[i - 1], wanted)
      case Some(e) => e.target
      case None => next
  }

  predicate Emits(rows: seq<Option<GraffitiRow>>, wanted: set<string>, i: nat) {
    i < |rows| && GraffitiPoll(TargetAfter(rows, wanted, i), rows[i], wanted).Some?
  }

  /** The poll behind the last emission before poll i. */
  function LastEmission(rows: seq<Option<GraffitiRow>>, wanted: set<string>, i: nat): (r: Option<nat>)
    requires i <= |rows|
    ensures r.Some? ==> r.value < i && Emits(rows, wanted, r.value)
    ensures r.Some? ==> rows[r.value].Some? && TargetAfter(rows, wanted, i) == rows[r.value].value.nextSlot
    ensures r.None? ==> TargetAfter(rows, wanted, i) == 0
  {
    if i == 0 then None
    else if Emits(rows, wanted, i - 1) then Some(i - 1)
    else LastEmission(rows, wanted, i - 1)
  }

  /** Poll i emits although the head has not moved past the block of the emission before; the target of
      that emission is no longer a duty. */
  predicate Repeats(dbs: seq<Db>, rows: seq<Option<GraffitiRow>>, wanted: set<string>, i: nat)
    requires |dbs| == |rows|
  {
    && Emits(rows, wanted, i)
    && var p := LastEmission(rows, wanted, i);
    && p.Some?
    && dbs[i].head.slot <= dbs[p.value].head.slot
    && TargetAfter(rows, wanted, i) !in dbs[i].duties
  }

  lemma {:induction false} GraffitiSnoc(next: nat, rows: seq<Option<GraffitiRow>>, row: Option<GraffitiRow>,
                                        wanted: set<string>, after: nat)
    requires after == NextAfter(next, rows, wanted)
    ensures GraffitiStream(next, rows + [row], wanted)
         == GraffitiStream(next, rows, wanted)
            + match GraffitiPoll(after, row, wanted) { case Some(e) => [e] case None => [] }
    decreases |rows|
  {
    if rows == [] {
      assert [row][1..] == [];
      assert rows + [row] == [row];
    } else {
      var all := rows + [row];
      assert all[0] == rows[0] && all[1..] == rows[1..] + [row];
      match GraffitiPoll(next, rows[0], wanted)
      case None => GraffitiSnoc(next, rows[1..], row, wanted, after);
      case Some(e) =>
        GraffitiSnoc(e.target, rows[1..], row, wanted, after);
        var tail := match GraffitiPoll(after, row, wanted) { case Some(f) => [f] case None => [] };
        assert [e] + (GraffitiStream(e.target, rows[1..], wanted) + tail)
            == [e] + GraffitiStream(e.target, rows[1..], wanted) + tail;
    }
  }

  /** The remembered target, computed the way the stream goes. */
  function NextAfter(next: nat, rows: seq<Option<GraffitiRow>>, wanted: set<string>): nat
    decreases |rows|
  {
    if rows == [] then next
    else
      match GraffitiPoll(next, rows[0], wanted)
      case None => NextAfter(next, rows[1..], wanted)
      case Some(e) => NextAfter(e.target, rows[1..], wanted)
  }

  lemma {:induction false} NextAfterSnoc(next: nat, rows: seq<Option<GraffitiRow>>, row: Option<GraffitiRow>,
                                         wanted: set<string>)
    ensures var after := NextAfter(next, rows, wanted);
      NextAfter(next, rows + [row], wanted)
        == match GraffitiPoll(after, row, wanted) { case Some(e) => e.target case None => after }
    decreases |rows|
  {
    if rows == [] {
      assert rows + [row] == [row] && [row][1..] == [];
    } else {
      assert (rows + [row])[0] == rows[0] && (rows + [row])[1..] == rows[1..] + [row];
      match GraffitiPoll(next, rows[0], wanted)
      case None => NextAfterSnoc(next, rows[1..], row, wanted);
      case Some(e) => NextAfterSnoc(e.target, rows[1..], row, wanted);
    }
  }

  lemma {:induction false} TargetIsNext(rows: seq<Option<GraffitiRow>>, wanted: set<string>, i: nat)
    requires i <= |rows|
    ensures TargetAfter(rows, wanted, i) == NextAfter(0, rows[..i], wanted)
  {
    if i == 0 {
    } else {
      TargetIsNext(rows, wanted, i - 1);
      assert rows[..i] == rows[..i - 1] + [rows[i - 1]];
      NextAfterSnoc(0, rows[..i - 1], rows[i - 1], wanted);
    }
  }

  /** What the first i polls emit. */
  function Emitted(rows: seq<Option<GraffitiRow>>, wanted: set<string>, i: nat): seq<Emission>
    requires i <= |rows|
  {
    GraffitiStream(0, rows[..i], wanted)
  }

  lemma EmittedNext(rows: seq<Option<GraffitiRow>>, wanted: set<string>, i: nat)
    requires i < |rows|
    ensures Emitted(rows, wanted, i + 1)
         == Emitted(rows, wanted, i)
            + if Emits(rows, wanted, i) then [Emission(rows[i].value.number, rows[i].value.nextSlot)] else []
  {
    assert rows[..i + 1] == rows[..i] + [rows[i]];
    TargetIsNext(rows, wanted, i);
    GraffitiSnoc(0, rows[..i], rows[i], wanted, TargetAfter(rows, wanted, i));
  }

  /** The polls among the first i that emit. */
  function EmittingPolls(rows: seq<Option<GraffitiRow>>, wanted: set<string>, i: nat): (at: seq<nat>)
    requires i <= |rows|
    ensures forall k | 0 <= k < |at| :: at[k] < i && rows[at[k]].Some?
    ensures forall j, k | 0 <= j < k < |at| :: at[j] < at[k]
    ensures forall j | 0 <= j < i :: j in at <==> Emits(rows, wanted, j)
  {
    if i == 0 then []
    else
      var before := EmittingPolls(rows, wanted, i - 1);
      if Emits(rows, wanted, i - 1) then before + [i - 1] else before
  }

  lemma {:induction false} EmittedAt(rows: seq<Option<GraffitiRow>>, wanted: set<string>, i: nat)
    requires i <= |rows|
    ensures var out, at := Emitted(rows, wanted, i), EmittingPolls(rows, wanted, i);
      |out| == |at| && forall k | 0 <= k < |at| ::
        out[k] == Emission(rows[at[k]].value.number, rows[at[k]].value.nextSlot)
  {
    if i == 0 {
    } else {
      EmittedAt(rows, wanted, i - 1);
      EmittedNext(rows, wanted, i - 1);
      var out, at := Emitted(rows, wanted, i), EmittingPolls(rows, wanted, i);
      var before := Emitted(rows, wanted, i - 1);
      forall k | 0 <= k < |at|
        ensures |out| == |at| && out[k] == Emission(rows[at[k]].value.number, rows[at[k]].value.nextSlot)
      {
        if k < |before| {
          assert out[k] == before[k];
        }
      }
    }
  }

  /** The remembered target before each poll, and at the end. */
  function Targets(rows: seq<Option<GraffitiRow>>, wanted: set<string>): (last: seq<nat>)
    ensures |last| == |rows| + 1 && forall i | 0 <= i <= |rows| :: last[i] == TargetAfter(rows, wanted, i)
  {
    seq(|rows| + 1, i requires 0 <= i <= |rows| => TargetAfter(rows, wanted, i))
  }

  /** Poll i sends exactly when its row has a wanted graffiti and a next slot at least two past the last target
      sent, 0 at first (`last`); what it sends is that row's block number and slot. */
  method QueryAllGraffitiBlocks(rows: seq<Option<GraffitiRow>>, wanted: set<string>)
    returns (sent: seq<Emission>, ghost at: seq<nat>, ghost last: seq<nat>)
    ensures sent == GraffitiStream(0, rows, wanted)
    ensures |sent| == |at| && forall j, k | 0 <= j < k < |at| :: at[j] < at[k]
    ensures forall k | 0 <= k < |at| ::
              && at[k] < |rows| && rows[at[k]].Some?
              && sent[k] == Emission(rows[at[k]].value.number, rows[at[k]].value.nextSlot)
    ensures |last| == |rows| + 1 && last[0] == 0
    ensures forall i | 0 <= i < |rows| ::
              && (i in at <==> && rows[i].Some? && rows[i].value.graffiti != "" && rows[i].value.graffiti in wanted
                               && rows[i].value.nextSlot >= last[i] + 2)
              && last[i + 1] == if i in at then rows[i].value.nextSlot else last[i]
  {
    sent := [];
    var nextShutterSlot := 0;
    for i := 0 to |rows|
      invariant GraffitiStream(0, rows, wanted) == sent + GraffitiStream(nextShutterSlot, rows[i..], wanted)
    {
      assert rows[i..][0] == rows[i] && rows[i..][1..] == rows[i + 1..];
      var p := GraffitiPoll(nextShutterSlot, rows[i], wanted);
      if p.Some? {
        assert sent + ([p.value] + GraffitiStream(p.value.target, rows[i + 1..], wanted))
            == sent + [p.value] + GraffitiStream(p.value.target, rows[i + 1..], wanted);
        nextShutterSlot := p.value.target;
        sent := sent + [p.value];
      }
    }
    assert rows[|rows|..] == [] && sent + [] == sent;
    at, last := EmittingPolls(rows, wanted, |rows|), Targets(rows, wanted);
    EmittedAt(rows, wanted, |rows|);
    assert rows[..|rows|] == rows;
  }

  /** The last of them is the last emission. */
  lemma {:induction false} EmittedLast(rows: seq<Option<GraffitiRow>>, wanted: set<string>, i: nat)
    requires i <= |rows|
    ensures var out, p := Emitted(rows, wanted, i), LastEmission(rows, wanted, i);
      && (p.None? <==> out == [])
      && (p.Some? ==> out[|out| - 1].number == rows[p.value].value.number)
  {
    if i == 0 {
    } else {
      EmittedNext(rows, wanted, i - 1);
      EmittedLast(rows, wanted, i - 1);
    }
  }

  predicate Increases(out: seq<Emission>) {
    forall i, j | 0 <= i < j < |out| :: out[i].number < out[j].number
  }

  lemma IncreasesSnoc(out: seq<Emission>, e: Emission)
    ensures Increases(out + [e]) <==> Increases(out) && (out != [] ==> out[|out| - 1].number < e.number)
  {
    var all := out + [e];
    assert forall i | 0 <= i < |out| :: all[i] == out[i];
    if Increases(all) && out != [] {
      assert all[|out| - 1].number < all[|out|].number;
    }
  }

  /** An emission that is no repeat comes after the head has moved: the target emitted before would
      otherwise still be the next slot. */
  lemma NoRepeatMovesOn(dbs: seq<Db>, rows: seq<Option<GraffitiRow>>, wanted: set<string>, i: nat)
    requires Ordered(dbs) && AllAnswer(dbs, rows) && Emits(rows, wanted, i) && !Repeats(dbs, rows, wanted, i)
    ensures var p := LastEmission(rows, wanted, i);
      p.Some? ==> rows[p.value].value.number < rows[i].value.number
  {
    var p := LastEmission(rows, wanted, i);
    if p.Some? {
      assert Answers(dbs[p.value], rows[p.value]) && Answers(dbs[i], rows[i]);
      assert dbs[i].head.slot > dbs[p.value].head.slot;
    }
  }

  lemma IncreaseStep(dbs: seq<Db>, rows: seq<Option<GraffitiRow>>, wanted: set<string>, i: nat)
    requires Ordered(dbs) && AllAnswer(dbs, rows) && i < |rows| && !Repeats(dbs, rows, wanted, i)
    requires Increases(Emitted(rows, wanted, i))
    ensures Increases(Emitted(rows, wanted, i + 1))
  {
    EmittedNext(rows, wanted, i);
    if Emits(rows, wanted, i) {
      NoRepeatMovesOn(dbs, rows, wanted, i);
      EmittedLast(rows, wanted, i);
      IncreasesSnoc(Emitted(rows, wanted, i), Emission(rows[i].value.number, rows[i].value.nextSlot));
    }
  }

  lemma {:induction false} IncreaseUpTo(dbs: seq<Db>, rows: seq<Option<GraffitiRow>>, wanted: set<string>, i: nat)
    requires Ordered(dbs) && AllAnswer(dbs, rows) && i <= |rows|
    requires forall k | 0 <= k < i :: !Repeats(dbs, rows, wanted, k)
    ensures Increases(Emitted(rows, wanted, i))
  {
    if i == 0 {
    } else {
      IncreaseUpTo(dbs, rows, wanted, i - 1);
      IncreaseStep(dbs, rows, wanted, i - 1);
    }
  }

  lemma {:induction false} IncreasesPrefix(rows: seq<Option<GraffitiRow>>, wanted: set<string>, i: nat, j: nat)
    requires i <= j <= |rows| && Increases(Emitted(rows, wanted, j))
    ensures Increases(Emitted(rows, wanted, i))
    decreases j
  {
    if i == j {
    } else {
      EmittedNext(rows, wanted, j - 1);
      var before, all := Emitted(rows, wanted, j - 1), Emitted(rows, wanted, j);
      assert forall k | 0 <= k < |before| :: all[k] == before[k];
      IncreasesPrefix(rows, wanted, i, j - 1);
    }
  }

  lemma RepeatDoesNotIncrease(dbs: seq<Db>, rows: seq<Option<GraffitiRow>>, wanted: set<string>, i: nat)
    requires OneChain(dbs) && AllAnswer(dbs, rows) && i < |rows| && Repeats(dbs, rows, wanted, i)
    ensures rows[i].Some? && LastEmission(rows, wanted, i).Some?
    ensures rows[LastEmission(rows, wanted, i).value].value.number >= rows[i].value.number
  {
    var p := LastEmission(rows, wanted, i).value;
    assert Answers(dbs[p], rows[p]) && Answers(dbs[i], rows[i]);
  }

  /** Trigger blocks strictly increase if and only if no poll emits while the head is still the block of the
      emission before and that emission's target has been withdrawn from the duties. */
  lemma TriggersIncreaseIff(dbs: seq<Db>, rows: seq<Option<GraffitiRow>>, wanted: set<string>)
    requires OneChain(dbs) && AllAnswer(dbs, rows)
    ensures Increases(GraffitiStream(0, rows, wanted)) <==> forall i | 0 <= i < |rows| :: !Repeats(dbs, rows, wanted, i)
  {
    assert rows[..|rows|] == rows;
    if i: nat :| i < |rows| && Repeats(dbs, rows, wanted, i) {
      RepeatDoesNotIncrease(dbs, rows, wanted, i);
      EmittedNext(rows, wanted, i);
      EmittedLast(rows, wanted, i);
      IncreasesSnoc(Emitted(rows, wanted, i), Emission(rows[i].value.number, rows[i].value.nextSlot));
      if Increases(GraffitiStream(0, rows, wanted)) {
        IncreasesPrefix(rows, wanted, i + 1, |rows|);
      }
    } else {
      IncreaseUpTo(dbs, rows, wanted, |rows|);
    }
  }

  /** Duties are only ever added, and later heads are heads of the same chain. */
  predicate Evolves(dbs: seq<Db>) {
    && (forall i, j | 0 <= i < j < |dbs| :: dbs[i].duties.Keys <= dbs[j].duties.Keys)
    && Ordered(dbs)
  }

  /** So they do when no duty is ever withdrawn. */
  lemma GraffitiTriggersIncrease(dbs: seq<Db>, rows: seq<Option<GraffitiRow>>, wanted: set<string>)
    requires Evolves(dbs) && AllAnswer(dbs, rows)
    ensures Increases(GraffitiStream(0, rows, wanted))
  {
    forall i | 0 <= i < |rows| ensures !Repeats(dbs, rows, wanted, i) {
      var p := LastEmission(rows, wanted, i);
      if p.Some? {
        assert Answers(dbs[p.value], rows[p.value]);
        assert TargetAfter(rows, wanted, i) in dbs[p.value].duties.Keys;
      }
    }
    IncreaseUpTo(dbs, rows, wanted, |rows|);
    assert rows[..|rows|] == rows;
  }

  /** When a validator stops being active its duty is withdrawn, and the same block can trigger twice. */
  lemma WithdrawnDutyRepeatsTrigger()
    ensures var wanted, head := {"g"}, Block(10, 5);
      var dbs := [Db(head, map[20 := 1, 30 := 2], map[1 := "g", 2 := "g"]),
                  Db(head, map[30 := 2], map[1 := "g", 2 := "g"])];
      var rows := [Some(GraffitiRow(20, "g", 5)), Some(GraffitiRow(30, "g", 5))];
      && OneChain(dbs) && AllAnswer(dbs, rows)
      && GraffitiStream(0, rows, wanted) == [Emission(5, 20), Emission(5, 30)]
  {
    var rows := [Some(GraffitiRow(20, "g", 5)), Some(GraffitiRow(30, "g", 5))];
    var second := [Some(GraffitiRow(30, "g", 5))];
    assert rows[1..] == second && second[1..] == [];
    assert GraffitiStream(20, second, {"g"}) == [Emission(5, 30)];
  }

  // --- what the triggers are for ---

  predicate StrictlyIncreasing(triggers: seq<int64>) {
    forall i, j | 0 <= i < j < |triggers| :: triggers[i] < triggers[j]
  }

  /** Strictly increasing triggers that are block numbers give pairwise different identity prefixes. */
  lemma PrefixesDiffer(triggers: seq<int64>, i: nat, j: nat)
    requires StrictlyIncreasing(triggers) && i < j < |triggers| && triggers[i] >= 0
    ensures PrefixFromBlockNumber(triggers[i]) != PrefixFromBlockNumber(triggers[j])
  {
    PrefixInjective(triggers[i], triggers[j]);
  }
}
