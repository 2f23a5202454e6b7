/**
 * The reader: from whatever rows survived rotation it rebuilds which requests
 * were being served at a probe, from process start or from the last usable
 * checkpoint, and says whether the rebuilt set is complete.
 */
module OccupancyReader {
  import opened Basics
  import opened TransportEvidence
  import opened OccupancyHistory
  import opened EvidenceRuns

  /** The last of the first n rows at or before the probe, or -1. */
  function LastAtOrBefore(rows: seq<Row>, probe: int, n: nat): (x: int)
    requires n <= |rows|
    ensures -1 <= x < n
    ensures x >= 0 ==> rows[x].time <= probe
    ensures forall y :: x < y < n ==> rows[y].time > probe
  {
    if n == 0 then -1 else if rows[n - 1].time <= probe then n - 1 else LastAtOrBefore(rows, probe, n - 1)
  }

  predicate Usable(row: Row) {
    row.event.Checkpoint? && |row.event.requests| <= CHECKPOINT_LIMIT && row.event.truncated == 0
  }

  /** The last usable checkpoint among the first n rows, or -1. */
  function LastUsable(rows: seq<Row>, n: nat): (x: int)
    requires n <= |rows|
    ensures -1 <= x < n
    ensures x >= 0 ==> Usable(rows[x])
    ensures forall y :: x < y < n ==> !Usable(rows[y])
  {
    if n == 0 then -1 else if Usable(rows[n - 1]) then n - 1 else LastUsable(rows, n - 1)
  }

  /** No sequence number is missing between these rows. */
  predicate Contiguous(rows: seq<Row>, from: nat, to: nat)
    requires to < |rows|
  {
    forall x :: from < x <= to ==> rows[x].sequence == rows[x - 1].sequence + 1
  }

  /** The rows from one index up to another applied in order. */
  function Replay(active: Active, rows: seq<Row>, from: nat, to: nat): Active
    requires from <= to <= |rows|
  {
    if from == to then active else Apply(Replay(active, rows, from, to - 1), rows[to - 1].event)
  }

  datatype View = View(complete: bool, usedCheckpoint: bool, active: Active)

  predicate FromStart(rows: seq<Row>, to: nat)
    requires to < |rows|
  {
    rows[0].event.ProcessStart? && rows[0].sequence == 1 && Contiguous(rows, 0, to)
  }

  /** What the reader makes of one process's rows, sorted by sequence number. */
  function ViewOf(rows: seq<Row>, probe: int): View {
    var last := LastAtOrBefore(rows, probe, |rows|);
    if last < 0 then View(false, false, map[])
    else
      // The first row after the probe takes part in the continuity test.
      var end := if last + 1 < |rows| then last + 1 else last;
      var checkpoint := LastUsable(rows, last + 1);
      if FromStart(rows, end) then View(true, false, Replay(map[], rows, 0, last + 1))
      else if checkpoint >= 0 && Contiguous(rows, checkpoint, end) then
        View(true, true, Replay(FromList(rows[checkpoint].event.requests), rows, checkpoint + 1, last + 1))
      else View(false, false, Replay(map[], rows, 0, last + 1))
  }

  // ----- Correctness against the history -----

  /** These rows are written numbers of the history. */
  ghost predicate Faithful(rows: seq<Row>, history: seq<Tick>) {
    forall x :: 0 <= x < |rows| ==>
      && 1 <= rows[x].sequence <= |history|
      && history[rows[x].sequence - 1].written
      && history[rows[x].sequence - 1].event == rows[x].event
  }

  /** Replaying contiguous rows from the map before them gives the map after them. */
  lemma {:induction false} ReplayIsLive(rows: seq<Row>, history: seq<Tick>, active: Active, from: nat, to: nat)
    requires HistoryOk(history) && Faithful(rows, history) && from < to <= |rows|
    requires Contiguous(rows, from, to - 1)
    requires active == Before(history, rows[from].sequence - 1)
    ensures Replay(active, rows, from, to) == history[rows[to - 1].sequence - 1].liveAfter
  {
    assert TickOk(history, rows[to - 1].sequence - 1);
    if from + 1 < to {
      ReplayIsLive(rows, history, active, from, to - 1);
    } else {
      assert Replay(active, rows, from, from) == active;
    }
  }

  lemma CheckpointReplay(rows: seq<Row>, history: seq<Tick>, checkpoint: nat, last: nat)
    requires HistoryOk(history) && Faithful(rows, history) && checkpoint <= last < |rows|
    requires Usable(rows[checkpoint]) && Contiguous(rows, checkpoint, last)
    ensures Replay(FromList(rows[checkpoint].event.requests), rows, checkpoint + 1, last + 1)
            == history[rows[last].sequence - 1].liveAfter
  {
    var active := FromList(rows[checkpoint].event.requests);
    assert TickOk(history, rows[checkpoint].sequence - 1);
    if checkpoint < last {
      ReplayIsLive(rows, history, active, checkpoint + 1, last + 1);
    }
  }

  /** If the reader deems a process complete, it has the live map just after the last row at or before the probe. */
  lemma ViewIsLive(rows: seq<Row>, history: seq<Tick>, probe: int)
    requires HistoryOk(history) && Faithful(rows, history) && ViewOf(rows, probe).complete
    ensures var last := LastAtOrBefore(rows, probe, |rows|);
            last >= 0 && ViewOf(rows, probe).active == history[rows[last].sequence - 1].liveAfter
  {
    hide HistoryOk, Replay;
    var last := LastAtOrBefore(rows, probe, |rows|);
    var end := if last + 1 < |rows| then last + 1 else last;
    if FromStart(rows, end) {
      ReplayIsLive(rows, history, map[], 0, last + 1);
    } else {
      CheckpointReplay(rows, history, LastUsable(rows, last + 1), last);
    }
  }

  lemma SameHead(a: seq<Row>, b: seq<Row>)
    requires a != [] && b != [] && multiset(a) == multiset(b)
    requires forall x, y :: 0 <= x < y < |a| ==> a[x].sequence <= a[y].sequence
    requires forall x, y :: 0 <= x < y < |b| ==> b[x].sequence < b[y].sequence
    ensures a[0] == b[0]
  {
    assert a[0] in multiset(b) && b[0] in multiset(a);
    var y :| 0 <= y < |b| && b[y] == a[0];
    var x :| 0 <= x < |a| && a[x] == b[0];
  }

  lemma DropHead(a: seq<Row>)
    requires a != []
    ensures multiset(a[1..]) == multiset(a) - multiset{a[0]}
  {
    assert a == [a[0]] + a[1..];
  }

  /** Sorting distinct sequence numbers has one outcome. */
  lemma {:induction false} SortedRowsUnique(a: seq<Row>, b: seq<Row>)
    requires multiset(a) == multiset(b)
    requires forall x, y :: 0 <= x < y < |a| ==> a[x].sequence <= a[y].sequence
    requires forall x, y :: 0 <= x < y < |b| ==> b[x].sequence < b[y].sequence
    ensures a == b
  {
    assert |a| == |multiset(a)| && |b| == |multiset(b)|;
    if a != [] {
      SameHead(a, b);
      DropHead(a);
      DropHead(b);
      SortedRowsUnique(a[1..], b[1..]);
      assert a == [a[0]] + a[1..] && b == [b[0]] + b[1..];
    }
  }

  /**
   * For every run of any number of processes, with any over-long lines, rotations
   * and I/O errors, every process and every probe: reading the retained rows,
   * sorted by sequence number, either is not deemed complete or yields exactly the
   * live map the process noted just after its last row at or before the probe.
   */
  lemma OccupancyIsExact(run: seq<Happening>, n: nat, i: nat, probe: int, rows: seq<Row>)
    requires n <= |run| && i in ObservedAt(run, n).instances
    requires multiset(rows) == multiset(RetainedRows(ObservedAt(run, n).files, i))
    requires forall x, y :: 0 <= x < y < |rows| ==> rows[x].sequence <= rows[y].sequence
    ensures var history := ObservedAt(run, n).instances[i].history;
            var last := LastAtOrBefore(rows, probe, |rows|);
            ViewOf(rows, probe).complete ==>
              && last >= 0 && 1 <= rows[last].sequence <= |history|
              && ViewOf(rows, probe).active == history[rows[last].sequence - 1].liveAfter
  {
    hide Observe, TickRows, RowsOf, ViewOf, HistoryOk;
    RunKeeps(run, n);
    var s := ObservedAt(run, n);
    var history := s.instances[i].history;
    RetainedNumbers(run, n, i, 0);
    SortedRowsUnique(rows, RetainedRows(s.files, i));
    var lost := RetainedIsSuffix(s, i);
    TickRowsSound(i, history);
    assert forall x :: 0 <= x < |rows| ==> rows[x] == TickRows(i, history)[lost + x];
    assert Faithful(rows, history);
    if ViewOf(rows, probe).complete {
      ViewIsLive(rows, history, probe);
    }
  }

  /** Neither retained segment ever outgrows the limit. */
  lemma SegmentsStayWithinLimit(run: seq<Happening>, n: nat)
    requires n <= |run|
    ensures Bytes(ObservedAt(run, n).files.older) <= SEGMENT_BYTES
    ensures Bytes(ObservedAt(run, n).files.newer) <= SEGMENT_BYTES
  {
    hide Observe;
    RunKeeps(run, n);
  }

  // ----- The reader's loops -----

  /** Requests of all processes together, keyed by process and request id. */
  type Merged = map<(nat, nat), Option<nat>>

  function Project(active: Merged, i: nat): Active {
    map key | key in active && key.0 == i :: key.1 := active[key]
  }

  function ApplyMerged(active: Merged, i: nat, event: RowEvent): Merged {
    match event
    case RequestBegin(id, on) => active[(i, id) := on]
    case RequestFinish(id) => active - {(i, id)}
    case RequestFailed(id) => active - {(i, id)}
    case RequestTeardown(id) => active - {(i, id)}
    case ConnectionClose(connection) =>
      map key | key in active && !(key.0 == i && active[key] == Some(connection)) :: active[key]
    case ProcessExit => map key | key in active && key.0 != i :: active[key]
    case _ => active
  }

  /** A row of one process leaves all others alone. */
  lemma MergedApply(active: Merged, i: nat, j: nat, event: RowEvent)
    ensures Project(ApplyMerged(active, i, event), j)
            == if j == i then Apply(Project(active, i), event) else Project(active, j)
  {
    var next := ApplyMerged(active, i, event);
    forall id: nat
      ensures (j, id) in next <==>
              id in (if j == i then Apply(Project(active, i), event) else Project(active, j))
    {
      assert (j, id) in active <==> id in Project(active, j);
    }
    ProjectAt(next, j);
    ProjectAt(active, j);
  }

  lemma ProjectAt(active: Merged, j: nat)
    ensures forall id: nat :: id in Project(active, j) <==> (j, id) in active
    ensures forall id: nat :: id in Project(active, j) ==> Project(active, j)[id] == active[(j, id)]
  {
    forall id: nat ensures id in Project(active, j) <==> (j, id) in active {
      if (j, id) in active {
        assert (j, id).0 == j && (j, id).1 == id;
      }
    }
  }

  ghost predicate SameElsewhere(a: Merged, b: Merged, i: nat) {
    forall j: nat :: j != i ==> Project(a, j) == Project(b, j)
  }

  method FindLast(rows: seq<Row>, probe: int) returns (last: int)
    ensures last == LastAtOrBefore(rows, probe, |rows|)
  {
    last := |rows| - 1;
    while last >= 0 && rows[last].time > probe
      invariant -1 <= last < |rows|
      invariant LastAtOrBefore(rows, probe, |rows|) == LastAtOrBefore(rows, probe, last + 1)
    {
      last := last - 1;
    }
  }

  method FindUsable(rows: seq<Row>, n: nat) returns (checkpoint: int)
    requires n <= |rows|
    ensures checkpoint == LastUsable(rows, n)
  {
    checkpoint := n - 1;
    while checkpoint >= 0 && !Usable(rows[checkpoint])
      invariant -1 <= checkpoint < n
      invariant LastUsable(rows, n) == LastUsable(rows, checkpoint + 1)
    {
      checkpoint := checkpoint - 1;
    }
  }

  method SetAll(before: Merged, i: nat, requests: seq<Request>) returns (active: Merged)
    requires Project(before, i) == map[]
    ensures Project(active, i) == FromList(requests) && SameElsewhere(before, active, i)
  {
    hide Project, FromList, SameElsewhere;
    active := before;
    NothingListed();
    SameAsItself(before, i);
    for x := 0 to |requests|
      invariant Project(active, i) == FromList(requests[..x]) && SameElsewhere(before, active, i)
    {
      ghost var event := RequestBegin(requests[x].id, requests[x].connection);
      MergedApply(active, i, i, event);
      AppliedElsewhere(active, i, event);
      StillSame(before, active, ApplyMerged(active, i, event), i);
      ListGrows(requests, x);
      active := active[(i, requests[x].id) := requests[x].connection];
    }
    assert requests[..|requests|] == requests;
  }

  lemma NothingListed()
    ensures FromList([]) == map[]
  {
  }

  lemma ListGrows(requests: seq<Request>, x: nat)
    requires x < |requests|
    ensures FromList(requests[..x + 1]) == FromList(requests[..x])[requests[x].id := requests[x].connection]
  {
    assert requests[..x + 1][..x] == requests[..x];
  }

  lemma AppliedElsewhere(active: Merged, i: nat, event: RowEvent)
    ensures SameElsewhere(active, ApplyMerged(active, i, event), i)
  {
    hide Project, ApplyMerged;
    forall j: nat | j != i ensures Project(active, j) == Project(ApplyMerged(active, i, event), j) {
      MergedApply(active, i, j, event);
    }
  }

  method ReplayRows(before: Merged, i: nat, rows: seq<Row>, from: nat, to: nat) returns (active: Merged)
    requires from <= to <= |rows|
    ensures Project(active, i) == Replay(Project(before, i), rows, from, to) && SameElsewhere(before, active, i)
  {
    hide Project, Apply, ApplyMerged, SameElsewhere;
    active := before;
    SameAsItself(before, i);
    for x := from to to
      invariant Project(active, i) == Replay(Project(before, i), rows, from, x) && SameElsewhere(before, active, i)
    {
      MergedApply(active, i, i, rows[x].event);
      AppliedElsewhere(active, i, rows[x].event);
      StillSame(before, active, ApplyMerged(active, i, rows[x].event), i);
      active := ApplyMerged(active, i, rows[x].event);
    }
  }

  /** One process's part of the reconstruction for one probe. */
  method ReadInstance(before: Merged, i: nat, rows: seq<Row>, probe: int)
    returns (active: Merged, complete: bool, usedCheckpoint: bool)
    requires Project(before, i) == map[]
    ensures View(complete, usedCheckpoint, Project(active, i)) == ViewOf(rows, probe)
    ensures SameElsewhere(before, active, i)
  {
    hide Project, SameElsewhere, FromStart, Contiguous, Replay, FromList, LastAtOrBefore;
    SameAsItself(before, i);
    active, complete, usedCheckpoint := before, true, false;
    var last := FindLast(rows, probe);
    if last < 0 {
      complete := false;
      return;
    }
    var end := if last + 1 < |rows| then last + 1 else last;
    var start := 0;
    if !FromStart(rows, end) {
      var checkpoint := FindUsable(rows, last + 1);
      if checkpoint >= 0 && Contiguous(rows, checkpoint, end) {
        active := SetAll(active, i, rows[checkpoint].event.requests);
        start, usedCheckpoint := checkpoint + 1, true;
      } else {
        complete := false;
      }
    }
    ghost var seeded := active;
    active := ReplayRows(active, i, rows, start, last + 1);
    StillSame(before, seeded, active, i);
  }

  lemma SameAsItself(a: Merged, i: nat)
    ensures SameElsewhere(a, a, i)
  {
  }

  lemma StillSame(a: Merged, b: Merged, c: Merged, i: nat)
    requires SameElsewhere(a, b, i) && SameElsewhere(b, c, i)
    ensures SameElsewhere(a, c, i)
  {
    hide Project;
    forall j: nat | j != i ensures Project(a, j) == Project(c, j) {
      assert Project(a, j) == Project(b, j);
    }
  }

  /**
   * The reconstruction for one probe over all processes: complete exactly when
   * there are processes and every one is complete, and for each process exactly
   * the requests its own rows show.
   */
  method Reconstruct(rowsByInstance: map<nat, seq<Row>>, probe: int)
    returns (active: Merged, complete: bool, usedCheckpoint: bool)
    ensures complete <==> rowsByInstance != map[] && AllComplete(rowsByInstance, rowsByInstance.Keys, probe)
    ensures usedCheckpoint <==> SomeCheckpoint(rowsByInstance, rowsByInstance.Keys, probe)
    ensures forall i: nat :: Project(active, i)
                             == if i in rowsByInstance then ViewOf(rowsByInstance[i], probe).active else map[]
  {
    hide ViewOf, Project, AllComplete, SomeCheckpoint, SameElsewhere;
    NoneDone(rowsByInstance, probe);
    assert rowsByInstance.Keys - rowsByInstance.Keys == {};
    active, complete, usedCheckpoint := map[], rowsByInstance != map[], false;
    var todo := rowsByInstance.Keys;
    EmptyProject();
    while todo != {}
      invariant todo <= rowsByInstance.Keys
      invariant complete <==> rowsByInstance != map[] && AllComplete(rowsByInstance, rowsByInstance.Keys - todo, probe)
      invariant usedCheckpoint <==> SomeCheckpoint(rowsByInstance, rowsByInstance.Keys - todo, probe)
      invariant forall i: nat :: Project(active, i)
                  == if i in rowsByInstance && i !in todo then ViewOf(rowsByInstance[i], probe).active else map[]
      decreases |todo|
    {
      var i :| i in todo;
      var next, whole, used := ReadInstance(active, i, rowsByInstance[i], probe);
      assert rowsByInstance.Keys - (todo - {i}) == rowsByInstance.Keys - todo + {i};
      OneMoreDone(rowsByInstance, rowsByInstance.Keys - todo, i, probe);
      OthersStay(active, next, i);
      active, complete, usedCheckpoint := next, complete && whole, usedCheckpoint || used;
      todo := todo - {i};
    }
    assert rowsByInstance.Keys - todo == rowsByInstance.Keys;
  }

  lemma NoneDone(rowsByInstance: map<nat, seq<Row>>, probe: int)
    ensures AllComplete(rowsByInstance, {}, probe) && !SomeCheckpoint(rowsByInstance, {}, probe)
  {
  }

  lemma OneMoreDone(rowsByInstance: map<nat, seq<Row>>, done: set<nat>, i: nat, probe: int)
    requires done <= rowsByInstance.Keys && i in rowsByInstance
    ensures AllComplete(rowsByInstance, done + {i}, probe)
       <==> AllComplete(rowsByInstance, done, probe) && ViewOf(rowsByInstance[i], probe).complete
    ensures SomeCheckpoint(rowsByInstance, done + {i}, probe)
       <==> SomeCheckpoint(rowsByInstance, done, probe) || ViewOf(rowsByInstance[i], probe).usedCheckpoint
  {
    hide ViewOf;
    if SomeCheckpoint(rowsByInstance, done, probe) {
      var j :| j in done && ViewOf(rowsByInstance[j], probe).usedCheckpoint;
      assert j in done + {i};
    }
    if ViewOf(rowsByInstance[i], probe).usedCheckpoint {
      assert i in done + {i};
    }
  }

  lemma OthersStay(a: Merged, b: Merged, i: nat)
    requires SameElsewhere(a, b, i)
    ensures forall j: nat :: j != i ==> Project(a, j) == Project(b, j)
  {
  }

  lemma EmptyProject()
    ensures forall i: nat :: Project(map[], i) == map[]
  {
  }

  predicate AllComplete(rowsByInstance: map<nat, seq<Row>>, done: set<nat>, probe: int)
    requires done <= rowsByInstance.Keys
  {
    forall i :: i in done ==> ViewOf(rowsByInstance[i], probe).complete
  }

  predicate SomeCheckpoint(rowsByInstance: map<nat, seq<Row>>, done: set<nat>, probe: int)
    requires done <= rowsByInstance.Keys
  {
    exists i :: i in done && ViewOf(rowsByInstance[i], probe).usedCheckpoint
  }
}
