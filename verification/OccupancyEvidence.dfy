/**
 * Reading the two segments from end to end: rows are grouped by process and sorted by
 * number, and the sets rebuilt from them are the live maps of the processes that still
 * have rows in the log.
 */
module OccupancyEvidence {
  import opened TransportEvidence
  import opened OccupancyHistory
  import opened EvidenceRuns
  import opened OccupancyReader
  import opened EvidenceLimits
  import opened OccupancyMeaning

  // ----- Sorting -----

  ghost predicate InSequence(rows: seq<Row>) {
    forall x, y :: 0 <= x < y < |rows| ==> rows[x].sequence <= rows[y].sequence
  }

  /** Rows compare by number, then by time. */
  predicate NotAfter(a: Row, b: Row) {
    a.sequence < b.sequence || (a.sequence == b.sequence && a.time <= b.time)
  }

  function Inserted(rows: seq<Row>, row: Row): seq<Row> {
    if rows == [] || NotAfter(rows[|rows| - 1], row) then rows + [row]
    else Inserted(rows[..|rows| - 1], row) + [rows[|rows| - 1]]
  }

  function Sorted(rows: seq<Row>): seq<Row> {
    if rows == [] then [] else Inserted(Sorted(rows[..|rows| - 1]), rows[|rows| - 1])
  }

  lemma {:induction false} InsertedKeeps(rows: seq<Row>, row: Row)
    ensures multiset(Inserted(rows, row)) == multiset(rows) + multiset{row}
  {
    if rows != [] && !NotAfter(rows[|rows| - 1], row) {
      InsertedKeeps(rows[..|rows| - 1], row);
      assert rows == rows[..|rows| - 1] + [rows[|rows| - 1]];
    }
  }

  lemma {:induction false} InsertedInSequence(rows: seq<Row>, row: Row)
    requires InSequence(rows)
    ensures InSequence(Inserted(rows, row))
  {
    if rows != [] && !NotAfter(rows[|rows| - 1], row) {
      var front, last := rows[..|rows| - 1], rows[|rows| - 1];
      InsertedInSequence(front, row);
      var r := Inserted(front, row);
      InsertedKeeps(front, row);
      forall x | 0 <= x < |r| ensures r[x].sequence <= last.sequence {
        assert r[x] in multiset(r);
      }
    }
  }

  lemma {:induction false} SortedIs(rows: seq<Row>)
    ensures multiset(Sorted(rows)) == multiset(rows) && InSequence(Sorted(rows))
  {
    if rows != [] {
      hide InSequence;
      var front, last := rows[..|rows| - 1], rows[|rows| - 1];
      assert rows == front + [last];
      SortedIs(front);
      InsertedKeeps(Sorted(front), last);
      InsertedInSequence(Sorted(front), last);
    } else {
      assert InSequence([]);
    }
  }

  // ----- Grouping -----

  ghost predicate Grouped(groups: map<nat, seq<Row>>, lines: seq<Line>) {
    && (forall i :: i in groups <==> RowsOf(lines, i) != [])
    && (forall i :: i in groups ==> groups[i] == RowsOf(lines, i))
  }

  /** The rows of each process, in file order. */
  method GroupRows(lines: seq<Line>) returns (groups: map<nat, seq<Row>>)
    ensures Grouped(groups, lines)
  {
    hide RowsOf;
    groups := map[];
    NoRows();
    for k := 0 to |lines|
      invariant Grouped(groups, lines[..k])
    {
      var row := lines[k].row;
      assert lines[..k + 1] == lines[..k] + [lines[k]];
      forall i ensures RowsOf(lines[..k + 1], i) == RowsOf(lines[..k], i) + if row.instance == i then [row] else [] {
        RowsOfAppend(lines[..k], lines[k], i);
      }
      var rows := if row.instance in groups then groups[row.instance] else [];
      groups := groups[row.instance := rows + [row]];
    }
    assert lines[..|lines|] == lines;
  }

  // ----- The whole reader -----

  /** A process the log still has rows of. */
  predicate Covered(files: Files, i: nat) {
    RetainedRows(files, i) != []
  }

  /** The retained rows of the process reach back from the probe to its start, without a gap up to the row after the probe. */
  ghost predicate FromStartAt(files: Files, i: nat, probe: int) {
    var rows := RetainedRows(files, i);
    var last := LastAtOrBefore(rows, probe, |rows|);
    last >= 0 && FromTheStart(rows, last)
  }

  /** They do not, but they reach back to a full checkpoint. */
  ghost predicate FromCheckpointAt(files: Files, i: nat, probe: int) {
    var rows := RetainedRows(files, i);
    var last := LastAtOrBefore(rows, probe, |rows|);
    last >= 0 && exists c: nat :: FromCheckpoint(rows, last, c)
  }

  /** The live map the process had just after its last retained row at or before the probe. */
  ghost predicate LiveAtProbe(s: Observed, i: nat, probe: int, active: Active) {
    var rows := RetainedRows(s.files, i);
    var last := LastAtOrBefore(rows, probe, |rows|);
    && i in s.instances && last >= 0 && 1 <= rows[last].sequence <= |s.instances[i].history|
    && active == s.instances[i].history[rows[last].sequence - 1].liveAfter
  }

  lemma CoveredIsObserved(s: Observed, i: nat)
    requires ObservedInv(s) && Covered(s.files, i)
    ensures i in s.instances
  {
    hide RowsOf, InstInv, Matches, SegmentsFit;
    var w := s.files.written;
    var d := |w| - |s.files.older| - |s.files.newer|;
    assert w == w[..d] + w[d..];
    RowsOfConcat(w[..d], w[d..], i);
  }

  lemma CoveredIsExact(run: seq<Happening>, n: nat, i: nat, probe: int)
    requires n <= |run| && Covered(ObservedAt(run, n).files, i)
    ensures var s := ObservedAt(run, n);
            var rows := RetainedRows(s.files, i);
            && i in s.instances && Sorted(rows) == rows
            && (ViewOf(rows, probe).complete ==> LiveAtProbe(s, i, probe, ViewOf(rows, probe).active))
  {
    hide ObservedAt, ObservedInv, ViewOf, RetainedRows, LastAtOrBefore, Sorted;
    var s := ObservedAt(run, n);
    RunKeeps(run, n);
    CoveredIsObserved(s, i);
    var rows := RetainedRows(s.files, i);
    RetainedSorted(run, n, i);
    OccupancyIsExact(run, n, i, probe, rows);
  }

  /** Sorting finds the rows of a process in order already. */
  lemma RetainedSorted(run: seq<Happening>, n: nat, i: nat)
    requires n <= |run| && i in ObservedAt(run, n).instances
    ensures var rows := RetainedRows(ObservedAt(run, n).files, i);
            Sorted(rows) == rows && InSequence(rows)
  {
    hide ObservedAt, RetainedRows, Sorted;
    RetainedNumbers(run, n, i, 0);
    SortedIsSequence(RetainedRows(ObservedAt(run, n).files, i));
  }

  lemma SortedIsSequence(rows: seq<Row>)
    requires forall x, y :: 0 <= x < y < |rows| ==> rows[x].sequence < rows[y].sequence
    ensures Sorted(rows) == rows
  {
    SortedIs(rows);
    SortedRowsUnique(Sorted(rows), rows);
  }

  // ----- When the answer is complete -----

  /** The rows begin with the process start, or a checkpoint that left nothing out stands at or before the last row. */
  predicate HasBase(rows: seq<Row>, last: nat)
    requires last < |rows|
  {
    || (rows[0].event.ProcessStart? && rows[0].sequence == 1)
    || exists c :: 0 <= c <= last && Usable(rows[c])
  }

  ghost predicate NoGap(rows: seq<Row>) {
    forall x :: 0 < x < |rows| ==> rows[x].sequence == rows[x - 1].sequence + 1
  }

  lemma CompleteWithoutGaps(rows: seq<Row>, probe: int)
    requires NoGap(rows)
    ensures var last := LastAtOrBefore(rows, probe, |rows|);
            ViewOf(rows, probe).complete <==> last >= 0 && HasBase(rows, last)
  {
    hide Replay, FromList, Apply, LastAtOrBefore, LastUsable;
    var last := LastAtOrBefore(rows, probe, |rows|);
    if last >= 0 {
      var c := LastUsable(rows, last + 1);
      assert c >= 0 <==> exists c :: 0 <= c <= last && Usable(rows[c]);
    }
  }

  /**
   * For every run without I/O errors whose rows fit, a process that still has rows is
   * complete at a probe if and only if some row is at or before the probe and its rows
   * begin with the process start or hold a checkpoint that left nothing out by then.
   */
  lemma CompleteIff(run: seq<Happening>, n: nat, i: nat, probe: int)
    requires n <= |run| && RowsFit(run) && Healthy(run) && Covered(ObservedAt(run, n).files, i)
    ensures var rows := RetainedRows(ObservedAt(run, n).files, i);
            var last := LastAtOrBefore(rows, probe, |rows|);
            ViewOf(rows, probe).complete <==> last >= 0 && HasBase(rows, last)
  {
    hide ObservedAt, ObservedInv, RowsFit, Healthy, RetainedRows, ViewOf, LastAtOrBefore, HasBase;
    RunKeeps(run, n);
    CoveredIsObserved(ObservedAt(run, n), i);
    RetainedContiguous(run, n, i);
    CompleteWithoutGaps(RetainedRows(ObservedAt(run, n).files, i), probe);
  }

  /**
   * From the two segments that any run has left behind, for any probe. The answer covers
   * exactly the processes that still have a row in them: of any other process it lists
   * nothing and says nothing. It is complete exactly when there is a covered process and
   * the rows of each reach back to its start or to a full checkpoint; it is said to rest on
   * a checkpoint exactly when some covered process needs one. Complete or not, the requests
   * listed are those its rows show; if complete, they are exactly the live map the process
   * had just after its last row at or before the probe.
   */
  method ReadOccupancy(ghost run: seq<Happening>, ghost n: nat, older: seq<Line>, newer: seq<Line>, probe: int)
    returns (active: Merged, complete: bool, usedCheckpoint: bool)
    requires n <= |run| && older == ObservedAt(run, n).files.older && newer == ObservedAt(run, n).files.newer
    ensures var s := ObservedAt(run, n);
            && (forall i: nat :: !Covered(s.files, i) ==> Project(active, i) == map[])
            && (complete <==>
                  && (exists i :: Covered(s.files, i))
                  && forall i: nat :: Covered(s.files, i) ==> FromStartAt(s.files, i, probe) || FromCheckpointAt(s.files, i, probe))
            && (usedCheckpoint <==> exists i: nat :: Covered(s.files, i) && FromCheckpointAt(s.files, i, probe))
            && (complete ==> forall i: nat :: Covered(s.files, i) ==> LiveAtProbe(s, i, probe, Project(active, i)))
            && (forall i: nat, id: nat, on :: Covered(s.files, i) ==>
                  (Serves(Project(active, i), id, on) <==> Shown(RetainedRows(s.files, i), probe, id, on)))
  {
    hide ObservedAt, RowsOf, ViewOf, Project, LiveAtProbe, Sorted, Shown, Serves, FromTheStart, FromCheckpoint, LastAtOrBefore;
    var groups := GroupRows(older + newer);
    var rows := map i | i in groups :: Sorted(groups[i]);
    active, complete, usedCheckpoint := Reconstruct(rows, probe);
    ghost var s := ObservedAt(run, n);
    assert forall i :: i in rows <==> Covered(s.files, i);
    forall i: nat | Covered(s.files, i)
      ensures i in rows && rows[i] == RetainedRows(s.files, i)
      ensures ViewOf(rows[i], probe).complete ==> LiveAtProbe(s, i, probe, ViewOf(rows[i], probe).active)
      ensures ViewOf(rows[i], probe).complete <==> FromStartAt(s.files, i, probe) || FromCheckpointAt(s.files, i, probe)
      ensures ViewOf(rows[i], probe).usedCheckpoint <==> FromCheckpointAt(s.files, i, probe)
      ensures forall id: nat, on ::
                Serves(ViewOf(rows[i], probe).active, id, on) <==> Shown(RetainedRows(s.files, i), probe, id, on)
    {
      CoveredIsExact(run, n, i, probe);
      ViewMeans(rows[i], probe);
    }
    assert rows != map[] <==> exists i :: i in rows;
    if usedCheckpoint {
      ghost var i :| i in rows && ViewOf(rows[i], probe).usedCheckpoint;
      assert Covered(s.files, i) && FromCheckpointAt(s.files, i, probe);
    }
  }
}
