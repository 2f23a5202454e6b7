/**
 * Runs of any number of observed processes sharing one slot: the file holds
 * exactly the written sequence numbers of each, the retained segments are a
 * suffix of all lines ever written, and neither outgrows its byte limit.
 */
module EvidenceRuns {
  import opened Basics
  import opened TransportEvidence
  import opened OccupancyHistory

  /** The rows of one process among these lines, in file order. */
  function RowsOf(lines: seq<Line>, i: nat): seq<Row> {
    if lines == [] then []
    else
      var last := lines[|lines| - 1].row;
      RowsOf(lines[..|lines| - 1], i) + (if last.instance == i then [last] else [])
  }

  lemma RowsOfAppend(lines: seq<Line>, line: Line, i: nat)
    ensures RowsOf(lines + [line], i) == RowsOf(lines, i) + (if line.row.instance == i then [line.row] else [])
  {
    assert (lines + [line])[..|lines|] == lines;
  }

  lemma {:induction false} RowsOfConcat(a: seq<Line>, b: seq<Line>, i: nat)
    ensures RowsOf(a + b, i) == RowsOf(a, i) + RowsOf(b, i)
  {
    if b == [] {
      assert a + b == a;
    } else {
      var init := b[..|b| - 1];
      RowsOfConcat(a, init, i);
      assert (a + b)[..|a + b| - 1] == a + init;
    }
  }

  /** The rows that the written numbers of a history stand for. */
  function TickRows(i: nat, history: seq<Tick>): seq<Row> {
    if history == [] then []
    else
      var tick := history[|history| - 1];
      TickRows(i, history[..|history| - 1])
      + (if tick.written then [Row(i, |history|, tick.time, tick.event)] else [])
  }

  lemma TickRowsAppend(i: nat, history: seq<Tick>, tick: Tick)
    ensures TickRows(i, history + [tick])
            == TickRows(i, history) + (if tick.written then [Row(i, |history| + 1, tick.time, tick.event)] else [])
  {
    assert (history + [tick])[..|history|] == history;
  }

  /** Settling the live map does not touch the rows. */
  lemma SettleKeepsRows(i: nat, inst: Instance, live: Active)
    ensures TickRows(i, Settle(inst, live).history) == TickRows(i, inst.history)
    ensures Settle(inst, live).sequence == inst.sequence && |Settle(inst, live).history| == |inst.history|
  {
    if !inst.disabled && inst.history != [] {
      var last := |inst.history| - 1;
      var settled := Settle(inst, live).history;
      assert settled[..last] == inst.history[..last];
    }
  }

  ghost predicate Matches(i: nat, files: Files, inst: Instance) {
    |inst.history| == inst.sequence && RowsOf(files.written, i) == TickRows(i, inst.history)
  }

  /** The two segments together are the end of everything written. */
  ghost predicate Retained(files: Files) {
    && |files.older| + |files.newer| <= |files.written|
    && files.written[|files.written| - |files.older| - |files.newer|..] == files.older + files.newer
  }

  ghost predicate SegmentsFit(files: Files) {
    Bytes(files.older) <= SEGMENT_BYTES && Bytes(files.newer) <= SEGMENT_BYTES
  }

  /** The rows of every other process are the same among both lists of lines. */
  ghost predicate OthersSame(i: nat, before: seq<Line>, after: seq<Line>) {
    forall j :: j != i ==> RowsOf(after, j) == RowsOf(before, j)
  }

  /** What one call of writer i keeps about the files, for itself and for every other writer. */
  ghost predicate FilesKept(i: nat, files: Files, out: Emitted) {
    && Matches(i, out.files, out.instance)
    && OthersSame(i, files.written, out.files.written)
    && Retained(out.files)
    && SegmentsFit(out.files)
    && files.written <= out.files.written
  }

  lemma AppendRetains(files: Files, line: Line)
    requires Retained(files)
    ensures Retained(Append(files, line))
  {
    var f := Append(files, line);
    assert f.older + f.newer == (files.older + files.newer) + [line];
  }

  /** Giving up the older segment, or moving the newer one into its place, keeps the end of what was written. */
  lemma RotateRetains(files: Files)
    requires Retained(files)
    ensures Retained(files.(older := [])) && Retained(files.(older := files.newer, newer := []))
  {
    EndOfEnd(files.written, files.older, files.newer);
    EndRetained(files.(older := []));
    EndRetained(files.(older := files.newer, newer := []));
  }

  /** One segment alone that is the end of everything written. */
  lemma EndRetained(files: Files)
    requires files.older == [] || files.newer == []
    requires var b := if files.older == [] then files.newer else files.older;
             |b| <= |files.written| && files.written[|files.written| - |b|..] == b
    ensures Retained(files)
  {
    NothingAdded(if files.older == [] then files.newer else files.older);
  }

  lemma NothingAdded(b: seq<Line>)
    ensures [] + b == b && b + [] == b
  {
  }

  lemma EndOfEnd(w: seq<Line>, a: seq<Line>, b: seq<Line>)
    requires |a| + |b| <= |w| && w[|w| - |a| - |b|..] == a + b
    ensures w[|w| - |b|..] == b
  {
    var d := |w| - |a| - |b|;
    forall k | 0 <= k < |b| ensures w[|w| - |b| + k] == b[k] {
      assert w[d..][|a| + k] == (a + b)[|a| + k];
    }
  }

  lemma BytesAppend(lines: seq<Line>, line: Line)
    ensures Bytes(lines + [line]) == Bytes(lines) + line.bytes
  {
    assert (lines + [line])[..|lines|] == lines;
  }

  lemma NoBytes()
    ensures Bytes([]) == 0
  {
  }

  lemma SameForOthers(i: nat, lines: seq<Line>)
    ensures OthersSame(i, lines, lines)
  {
  }

  lemma AppendForOthers(i: nat, lines: seq<Line>, line: Line)
    requires line.row.instance == i
    ensures OthersSame(i, lines, lines + [line])
  {
    hide RowsOf;
    forall j | j != i ensures RowsOf(lines + [line], j) == RowsOf(lines, j) {
      RowsOfAppend(lines, line, j);
      assert RowsOf(lines, j) + [] == RowsOf(lines, j);
    }
  }

  lemma OthersTransitive(i: nat, a: seq<Line>, b: seq<Line>, c: seq<Line>)
    requires OthersSame(i, a, b) && OthersSame(i, b, c)
    ensures OthersSame(i, a, c)
  {
    hide RowsOf;
    forall j | j != i ensures RowsOf(c, j) == RowsOf(a, j) {
      assert RowsOf(b, j) == RowsOf(a, j);
    }
  }

  /** A number under which nothing is written. */
  lemma DropKeeps(i: nat, files: Files, inst: Instance, event: RowEvent, e: Emission, tested: nat)
    requires Matches(i, files, inst)
    ensures Matches(i, files, Record(inst, event, e, tested, false))
  {
    hide RowsOf, TickRows;
    TickRowsAppend(i, inst.history, Tick(event, e.time, tested, false, inst.live));
    assert TickRows(i, inst.history) + [] == TickRows(i, inst.history);
  }

  /** A number whose line is appended. */
  lemma AppendMatches(i: nat, files: Files, inst: Instance, event: RowEvent, e: Emission, tested: nat, bytes: nat)
    requires Matches(i, files, inst)
    ensures var line := Line(Row(i, inst.sequence + 1, e.time, event), bytes);
            Matches(i, Append(files, line), Record(inst, event, e, tested, true))
  {
    hide RowsOf, TickRows;
    TickRowsAppend(i, inst.history, Tick(event, e.time, tested, true, inst.live));
    RowsOfAppend(files.written, Line(Row(i, inst.sequence + 1, e.time, event), bytes), i);
  }

  lemma AppendKeeps(i: nat, files: Files, inst: Instance, event: RowEvent, e: Emission, tested: nat, bytes: nat, ok: bool)
    requires Matches(i, files, inst) && Retained(files) && SegmentsFit(files)
    requires Bytes(files.newer) + bytes <= SEGMENT_BYTES
    ensures var line := Line(Row(i, inst.sequence + 1, e.time, event), bytes);
            FilesKept(i, files, Emitted(Append(files, line), Record(inst, event, e, tested, true), ok))
  {
    hide Matches, OthersSame, Retained, Bytes;
    var line := Line(Row(i, inst.sequence + 1, e.time, event), bytes);
    AppendMatches(i, files, inst, event, e, tested, bytes);
    AppendForOthers(i, files.written, line);
    AppendRetains(files, line);
    BytesAppend(files.newer, line);
  }

  /** Files without a new line. */
  lemma NothingWritten(i: nat, files: Files, out: Emitted)
    requires Matches(i, out.files, out.instance) && Retained(out.files) && SegmentsFit(out.files)
    requires out.files.written == files.written
    ensures FilesKept(i, files, out)
  {
    hide Matches, OthersSame, Retained, SegmentsFit;
    SameForOthers(i, files.written);
  }

  lemma WriteLineFiles(i: nat, files: Files, inst: Instance, event: RowEvent, e: Emission, tested: nat)
    requires Matches(i, files, inst) && Retained(files) && SegmentsFit(files)
    requires Bytes(files.newer) + Encoded(e.payload, inst.sequence + 1) <= SEGMENT_BYTES
    ensures FilesKept(i, files, WriteLine(i, files, inst, event, e, tested))
  {
    hide RowsOf, TickRows, OthersSame, Retained, SegmentsFit, Bytes, Encoded;
    if e.fault.AtAppend? {
      DropKeeps(i, files, inst, event, e, tested);
      NothingWritten(i, files, WriteLine(i, files, inst, event, e, tested));
    } else {
      AppendKeeps(i, files, inst, event, e, tested, Encoded(e.payload, inst.sequence + 1), true);
    }
  }

  lemma {:induction false} DigitsGrowSlowly(n: nat)
    ensures |Digits(n)| <= |Digits(n + 1)| <= |Digits(n)| + 1
  {
    if n >= 10 {
      if n % 10 == 9 {
        DigitsGrowSlowly(n / 10);
        assert (n + 1) / 10 == n / 10 + 1;
      } else {
        assert (n + 1) / 10 == n / 10;
      }
    }
  }

  /** A line of exactly the limit whose next number has one more digit. */
  predicate Brimful(payload: nat, sequence: nat) {
    Encoded(payload, sequence + 1) == LINE_BYTES && |Digits(sequence + 2)| > |Digits(sequence + 1)|
  }

  /**
   * After rotation the line takes the next number, so it may be one byte longer than
   * when its length was tested: over the limit exactly if it was brimful, and then by one.
   */
  lemma RotatedLineFits(payload: nat, sequence: nat)
    requires Encoded(payload, sequence + 1) <= LINE_BYTES
    ensures Encoded(payload, sequence + 2) > LINE_BYTES <==> Brimful(payload, sequence)
    ensures Brimful(payload, sequence) ==> Encoded(payload, sequence + 2) == LINE_BYTES + 1
  {
    DigitsGrowSlowly(sequence + 1);
  }

  lemma FilesKeptTransitive(i: nat, files: Files, mid: Emitted, out: Emitted)
    requires FilesKept(i, files, mid) && FilesKept(i, mid.files, out)
    ensures FilesKept(i, files, out)
  {
    hide Matches, OthersSame, Retained, SegmentsFit;
    OthersTransitive(i, files.written, mid.files.written, out.files.written);
  }

  lemma CheckpointThenLine(i: nat, files: Files, inst: Instance, event: RowEvent, e: Emission, tested: nat, bytes: nat)
    requires Matches(i, files, inst) && Retained(files) && SegmentsFit(files) && files.newer == []
    requires Encoded(e.payload, inst.sequence + 2) <= LINE_BYTES + 1 && bytes <= LINE_BYTES
    ensures var line := Line(Row(i, inst.sequence + 1, e.time, CheckpointOf(inst.live)), bytes);
            FilesKept(i, files, WriteLine(i, Append(files, line), Record(inst, CheckpointOf(inst.live), e, bytes, true),
                                          event, e, tested))
  {
    hide CheckpointOf, Encoded, Matches, OthersSame, Retained, WriteLine, Bytes;
    var checkpoint := CheckpointOf(inst.live);
    var line := Line(Row(i, inst.sequence + 1, e.time, checkpoint), bytes);
    var mid := Emitted(Append(files, line), Record(inst, checkpoint, e, bytes, true), true);
    NoBytes();
    BytesAppend([], line);
    assert mid.files.newer == [] + [line];
    AppendKeeps(i, files, inst, checkpoint, e, bytes, bytes, true);
    WriteLineFiles(i, mid.files, mid.instance, event, e, tested);
    FilesKeptTransitive(i, files, mid, WriteLine(i, mid.files, mid.instance, event, e, tested));
  }

  lemma RotationFiles(i: nat, files: Files, inst: Instance, event: RowEvent, e: Emission, tested: nat)
    requires Matches(i, files, inst) && Retained(files) && SegmentsFit(files) && files.newer == []
    requires tested == Encoded(e.payload, inst.sequence + 1) <= LINE_BYTES
    ensures FilesKept(i, files, WriteAfterRotation(i, files, inst, event, e, tested))
  {
    hide CheckpointOf, Encoded, WriteLine, RowsOf, TickRows, OthersSame, Retained, Bytes, SegmentsFit;
    RotatedLineFits(e.payload, inst.sequence);
    NoBytes();
    var checkpoint, bytes := CheckpointOf(inst.live), Encoded(e.checkpointPayload, inst.sequence + 1);
    DropKeeps(i, files, inst, checkpoint, e, bytes);
    if bytes > LINE_BYTES {
      WriteLineFiles(i, files, Record(inst, checkpoint, e, bytes, false), event, e, tested);
    } else if e.fault.AtCheckpoint? {
      NothingWritten(i, files, WriteAfterRotation(i, files, inst, event, e, tested));
    } else {
      CheckpointThenLine(i, files, inst, event, e, tested, bytes);
    }
  }

  /** The calls that end before a line is written or the segments are rotated. */
  lemma StoppedFiles(i: nat, files: Files, inst: Instance, event: RowEvent, e: Emission)
    requires Matches(i, files, inst) && Retained(files) && SegmentsFit(files)
    requires inst.disabled || Encoded(e.payload, inst.sequence + 1) > LINE_BYTES || e.fault.AtStat?
    ensures FilesKept(i, files, Emit(i, files, inst, event, e))
  {
    hide Encoded, RowsOf, TickRows, OthersSame, Retained, Bytes, SegmentsFit, WriteLine, WriteAfterRotation;
    DropKeeps(i, files, inst, event, e, Encoded(e.payload, inst.sequence + 1));
    NothingWritten(i, files, Emit(i, files, inst, event, e));
  }

  /** The calls that find the segment full. */
  lemma FullFiles(i: nat, files: Files, inst: Instance, event: RowEvent, e: Emission)
    requires Matches(i, files, inst) && Retained(files) && SegmentsFit(files)
    requires !inst.disabled && Encoded(e.payload, inst.sequence + 1) <= LINE_BYTES && !e.fault.AtStat?
    requires Bytes(files.newer) + Encoded(e.payload, inst.sequence + 1) > SEGMENT_BYTES
    ensures FilesKept(i, files, Emit(i, files, inst, event, e))
  {
    hide Encoded, RowsOf, TickRows, OthersSame, Retained, Bytes, WriteLine, WriteAfterRotation;
    var out := Emit(i, files, inst, event, e);
    RotateRetains(files);
    NoBytes();
    if e.fault.AtRemove? || e.fault.AtRename? {
      NothingWritten(i, files, out);
    } else {
      var tested := Encoded(e.payload, inst.sequence + 1);
      RotationFiles(i, files.(older := files.newer, newer := []), inst, event, e, tested);
    }
  }

  lemma EmitFiles(i: nat, files: Files, inst: Instance, event: RowEvent, e: Emission)
    requires Matches(i, files, inst) && Retained(files) && SegmentsFit(files)
    ensures FilesKept(i, files, Emit(i, files, inst, event, e))
  {
    hide Encoded, Matches, FilesKept, Retained, SegmentsFit, Bytes, WriteLine, WriteAfterRotation;
    var tested := Encoded(e.payload, inst.sequence + 1);
    if inst.disabled || tested > LINE_BYTES || e.fault.AtStat? {
      StoppedFiles(i, files, inst, event, e);
    } else if Bytes(files.newer) + tested <= SEGMENT_BYTES {
      WriteLineFiles(i, files, inst, event, e, tested);
    } else {
      FullFiles(i, files, inst, event, e);
    }
  }

  /** The live map and the request bookkeeping do not concern the files. */
  lemma SettledFiles(i: nat, files: Files, out: Emitted, inst: Instance, live: Active)
    requires FilesKept(i, files, out)
    requires inst.history == Settle(out.instance, live).history && inst.sequence == out.instance.sequence
    ensures FilesKept(i, files, out.(instance := inst))
  {
    hide RowsOf, TickRows, OthersSame, Retained, SegmentsFit, Settle;
    SettleKeepsRows(i, out.instance, live);
  }

  lemma FailFiles(i: nat, files: Files, inst: Instance, id: nat, e: Emission)
    requires Matches(i, files, inst) && Retained(files) && SegmentsFit(files)
    ensures FilesKept(i, files, Fail(i, files, inst, id, e))
  {
    hide Emit, TickRows, RowsOf, OthersSame, Retained, SegmentsFit;
    SameForOthers(i, files.written);
    if id !in inst.failed {
      var out := Emit(i, files, inst, RequestFailed(id), e);
      EmitFiles(i, files, inst, RequestFailed(id), e);
      SettleKeepsRows(i, out.instance, inst.live - {id});
      SettledFiles(i, files, out, Fail(i, files, inst, id, e).instance, inst.live - {id});
    }
  }

  lemma EmitSettledFiles(i: nat, files: Files, inst: Instance, event: RowEvent, e: Emission, live: Active)
    requires Matches(i, files, inst) && Retained(files) && SegmentsFit(files)
    ensures var out := Emit(i, files, inst, event, e);
            FilesKept(i, files, out.(instance := Settle(out.instance, live)))
  {
    hide Emit, TickRows, RowsOf, OthersSame, Retained, SegmentsFit;
    var out := Emit(i, files, inst, event, e);
    EmitFiles(i, files, inst, event, e);
    SettleKeepsRows(i, out.instance, live);
    SettledFiles(i, files, out, Settle(out.instance, live), live);
  }

  lemma HandleFiles(i: nat, files: Files, inst: Instance, event: NodeEvent, e: Emission, f: Emission)
    requires Matches(i, files, inst) && Retained(files) && SegmentsFit(files)
    ensures FilesKept(i, files, Handle(i, files, inst, event, e, f))
  {
    hide Emit, TickRows, RowsOf, OthersSame, Retained, SegmentsFit, Settle, Fail;
    SameForOthers(i, files.written);
    match event
    case ProcessStarted => EmitSettledFiles(i, files, inst, ProcessStart, e, inst.live);
    case ProcessExits => EmitSettledFiles(i, files, inst, ProcessExit, e, map[]);
    case ConnectionOpened(c) => EmitSettledFiles(i, files, inst, ConnectionOpen(c), e, inst.live);
    case ConnectionClosed(c) =>
      EmitSettledFiles(i, files, inst, ConnectionClose(c), e, WithoutConnection(inst.live, c));
    case RequestArrived(on) =>
      var id := inst.requests + 1;
      var live := if Emit(i, files, inst, RequestBegin(id, on), e).ok then inst.live[id := on] else inst.live;
      EmitSettledFiles(i, files, inst, RequestBegin(id, on), e, live);
    case RequestErrored(id) => FailFiles(i, files, inst, id, e);
    case ResponseFinished(id) => EmitSettledFiles(i, files, inst, RequestFinish(id), e, inst.live - {id});
    case ResponseClosed(id, writableFinished) =>
      var failed := if writableFinished then Emitted(files, inst, false) else Fail(i, files, inst, id, e);
      if !writableFinished {
        FailFiles(i, files, inst, id, e);
      }
      EmitSettledFiles(i, failed.files, failed.instance, RequestTeardown(id), f, failed.instance.live);
      FilesKeptTransitive(i, files, failed, Handle(i, files, inst, event, e, f));
  }

  // ----- Runs -----

  datatype Observed = Observed(files: Files, instances: map<nat, Instance>)

  /** One event of one process; the emissions stand for clock, sizes and I/O errors. */
  datatype Happening = Happening(instance: nat, event: NodeEvent, first: Emission, second: Emission)

  const NOTHING_YET: Observed := Observed(Files([], [], []), map[])

  /** A process is observed from its start on, and then only what Node can deliver. */
  predicate Enabled(s: Observed, h: Happening) {
    if h.event.ProcessStarted? then h.instance !in s.instances
    else h.instance in s.instances && Legal(s.instances[h.instance], h.event)
  }

  function Observe(s: Observed, h: Happening): Observed {
    if !Enabled(s, h) then s
    else
      var inst := if h.event.ProcessStarted? then NEW_INSTANCE else s.instances[h.instance];
      var out := Handle(h.instance, s.files, inst, h.event, h.first, h.second);
      Observed(out.files, s.instances[h.instance := out.instance])
  }

  function ObservedAt(run: seq<Happening>, n: nat): Observed
    requires n <= |run|
  {
    if n == 0 then NOTHING_YET else Observe(ObservedAt(run, n - 1), run[n - 1])
  }

  ghost predicate ObservedInv(s: Observed) {
    && Retained(s.files) && SegmentsFit(s.files)
    && (forall i :: i in s.instances ==> InstInv(s.instances[i]) && Matches(i, s.files, s.instances[i]))
    && (forall i {:trigger RowsOf(s.files.written, i)} :: i !in s.instances ==> RowsOf(s.files.written, i) == [])
  }

  lemma ObserveKeeps(s: Observed, h: Happening)
    requires ObservedInv(s)
    ensures ObservedInv(Observe(s, h))
  {
    hide InstInv, TickRows, RowsOf, Handle, Retained, SegmentsFit;
    if Enabled(s, h) {
      var i := h.instance;
      var inst := if h.event.ProcessStarted? then NEW_INSTANCE else s.instances[i];
      NewInstanceOk(i);
      HandleKeeps(i, s.files, inst, h.event, h.first, h.second);
      HandleFiles(i, s.files, inst, h.event, h.first, h.second);
    }
  }

  lemma NewInstanceOk(i: nat)
    ensures InstInv(NEW_INSTANCE) && TickRows(i, NEW_INSTANCE.history) == []
  {
  }

  lemma NoRows()
    ensures forall i :: RowsOf([], i) == []
  {
  }

  lemma NothingYetOk()
    ensures ObservedInv(NOTHING_YET)
  {
    hide InstInv, Matches, RowsOf, Bytes;
    NoBytes();
    NoRows();
  }

  lemma {:induction false} RunKeeps(run: seq<Happening>, n: nat)
    requires n <= |run|
    ensures ObservedInv(ObservedAt(run, n))
  {
    hide Observe, ObservedInv;
    if n == 0 {
      NothingYetOk();
    } else {
      RunKeeps(run, n - 1);
      ObserveKeeps(ObservedAt(run, n - 1), run[n - 1]);
    }
  }

  // ----- Sequence numbers -----

  /** The rows of a history: one per written number, in order, each carrying what was written under it. */
  lemma {:induction false} TickRowsSound(i: nat, history: seq<Tick>)
    ensures forall x :: 0 <= x < |TickRows(i, history)| ==>
              var row := TickRows(i, history)[x];
              && row.instance == i && 1 <= row.sequence <= |history|
              && history[row.sequence - 1].written
              && history[row.sequence - 1].event == row.event && history[row.sequence - 1].time == row.time
    ensures forall x, y :: 0 <= x < y < |TickRows(i, history)| ==>
              TickRows(i, history)[x].sequence < TickRows(i, history)[y].sequence
  {
    if history != [] {
      TickRowsSound(i, history[..|history| - 1]);
    }
  }

  /** Every written number has its row. */
  lemma {:induction false} TickRowsComplete(i: nat, history: seq<Tick>, k: nat) returns (x: nat)
    requires k < |history| && history[k].written
    ensures x < |TickRows(i, history)| && TickRows(i, history)[x].sequence == k + 1
  {
    if k == |history| - 1 {
      x := |TickRows(i, history)| - 1;
    } else {
      x := TickRowsComplete(i, history[..|history| - 1], k);
    }
  }

  function RetainedRows(files: Files, i: nat): seq<Row> {
    RowsOf(files.older + files.newer, i)
  }

  /** The retained rows of a process are the end of the rows of its history. */
  lemma RetainedIsSuffix(s: Observed, i: nat) returns (lost: nat)
    requires ObservedInv(s) && i in s.instances
    ensures lost <= |TickRows(i, s.instances[i].history)|
    ensures RetainedRows(s.files, i) == TickRows(i, s.instances[i].history)[lost..]
  {
    hide InstInv;
    var w := s.files.written;
    var d := |w| - |s.files.older| - |s.files.newer|;
    RowsOfConcat(w[..d], w[d..], i);
    assert w == w[..d] + w[d..];
    lost := |RowsOf(w[..d], i)|;
  }

  /**
   * For every run: retained rows have strictly increasing numbers in file order, and
   * inside their range a number is missing exactly when nothing was written under
   * it, so the numbers lost to rotation are all below the first one retained.
   */
  lemma RetainedNumbers(run: seq<Happening>, n: nat, i: nat, k: nat)
    requires n <= |run| && i in ObservedAt(run, n).instances
    ensures var s := ObservedAt(run, n);
            var rows := RetainedRows(s.files, i);
            var history := s.instances[i].history;
            && (forall x, y :: 0 <= x < y < |rows| ==> rows[x].sequence < rows[y].sequence)
            && (|rows| > 0 && rows[0].sequence <= k + 1 <= rows[|rows| - 1].sequence ==>
                  k < |history| && (history[k].written <==> exists x :: 0 <= x < |rows| && rows[x].sequence == k + 1))
  {
    hide Observe, InstInv, TickRows, RowsOf;
    RunKeeps(run, n);
    var s := ObservedAt(run, n);
    var history := s.instances[i].history;
    var all := TickRows(i, history);
    TickRowsSound(i, history);
    var lost := RetainedIsSuffix(s, i);
    var rows := RetainedRows(s.files, i);
    assert forall x :: 0 <= x < |rows| ==> rows[x] == all[lost + x];
    if |rows| > 0 && rows[0].sequence <= k + 1 <= rows[|rows| - 1].sequence {
      if history[k].written {
        var x := TickRowsComplete(i, history, k);
        assert x >= lost;
        assert rows[x - lost].sequence == k + 1;
      }
    }
  }

  /** Absent I/O errors, a number stays unwritten exactly when its line was over-long. */
  ghost predicate DropsAreLong(history: seq<Tick>) {
    forall k :: 0 <= k < |history| ==> (history[k].written <==> history[k].tested <= LINE_BYTES)
  }

  lemma EmitDrops(i: nat, files: Files, inst: Instance, event: RowEvent, e: Emission)
    requires DropsAreLong(inst.history) && !inst.disabled && e.fault.NoFault?
    ensures var out := Emit(i, files, inst, event, e).instance;
            DropsAreLong(out.history) && !out.disabled
  {
    hide Encoded, WriteLine, WriteAfterRotation, Bytes;
    var tested := Encoded(e.payload, inst.sequence + 1);
    if tested <= LINE_BYTES {
      WriteLineDrops(i, files, inst, event, e, tested);
      RotationDrops(i, files.(older := files.newer, newer := []), inst, event, e, tested);
    }
  }

  lemma WriteLineDrops(i: nat, files: Files, inst: Instance, event: RowEvent, e: Emission, tested: nat)
    requires DropsAreLong(inst.history) && !inst.disabled && e.fault.NoFault? && tested <= LINE_BYTES
    ensures var out := WriteLine(i, files, inst, event, e, tested).instance;
            DropsAreLong(out.history) && !out.disabled
  {
    hide Encoded;
  }

  lemma RotationDrops(i: nat, files: Files, inst: Instance, event: RowEvent, e: Emission, tested: nat)
    requires DropsAreLong(inst.history) && !inst.disabled && e.fault.NoFault? && tested <= LINE_BYTES
    ensures var out := WriteAfterRotation(i, files, inst, event, e, tested).instance;
            DropsAreLong(out.history) && !out.disabled
  {
    hide Encoded, CheckpointOf, WriteLine, Append;
    var checkpoint, bytes := CheckpointOf(inst.live), Encoded(e.checkpointPayload, inst.sequence + 1);
    var line := Line(Row(i, inst.sequence + 1, e.time, checkpoint), bytes);
    if bytes > LINE_BYTES {
      WriteLineDrops(i, files, Record(inst, checkpoint, e, bytes, false), event, e, tested);
    } else {
      WriteLineDrops(i, Append(files, line), Record(inst, checkpoint, e, bytes, true), event, e, tested);
    }
  }

  lemma SettleDrops(inst: Instance, live: Active)
    requires DropsAreLong(inst.history)
    ensures DropsAreLong(Settle(inst, live).history) && Settle(inst, live).disabled == inst.disabled
  {
  }

  lemma EmitSettleDrops(i: nat, files: Files, inst: Instance, event: RowEvent, e: Emission, live: Active)
    requires DropsAreLong(inst.history) && !inst.disabled && e.fault.NoFault?
    ensures var next := Settle(Emit(i, files, inst, event, e).instance, live);
            DropsAreLong(next.history) && !next.disabled
  {
    hide Emit, DropsAreLong;
    EmitDrops(i, files, inst, event, e);
    SettleDrops(Emit(i, files, inst, event, e).instance, live);
  }

  lemma HandleDrops(i: nat, files: Files, inst: Instance, event: NodeEvent, e: Emission, f: Emission)
    requires DropsAreLong(inst.history) && !inst.disabled && e.fault.NoFault? && f.fault.NoFault?
    ensures var next := Handle(i, files, inst, event, e, f).instance;
            DropsAreLong(next.history) && !next.disabled
  {
    hide Emit, DropsAreLong, Settle;
    match event
    case ProcessStarted => EmitSettleDrops(i, files, inst, ProcessStart, e, inst.live);
    case ProcessExits => EmitSettleDrops(i, files, inst, ProcessExit, e, map[]);
    case ConnectionOpened(c) => EmitSettleDrops(i, files, inst, ConnectionOpen(c), e, inst.live);
    case ConnectionClosed(c) =>
      EmitSettleDrops(i, files, inst, ConnectionClose(c), e, WithoutConnection(inst.live, c));
    case RequestArrived(on) =>
      var id := inst.requests + 1;
      var live := if Emit(i, files, inst, RequestBegin(id, on), e).ok then inst.live[id := on] else inst.live;
      EmitSettleDrops(i, files, inst, RequestBegin(id, on), e, live);
    case RequestErrored(id) => EmitSettleDrops(i, files, inst, RequestFailed(id), e, inst.live - {id});
    case ResponseFinished(id) => EmitSettleDrops(i, files, inst, RequestFinish(id), e, inst.live - {id});
    case ResponseClosed(id, writableFinished) =>
      EmitSettleDrops(i, files, inst, RequestFailed(id), e, inst.live - {id});
      var failed := if writableFinished then Emitted(files, inst, false) else Fail(i, files, inst, id, e);
      EmitSettleDrops(i, failed.files, failed.instance, RequestTeardown(id), f, failed.instance.live);
  }

  predicate Healthy(run: seq<Happening>) {
    forall n :: 0 <= n < |run| ==> run[n].first.fault.NoFault? && run[n].second.fault.NoFault?
  }

  lemma {:induction false} HealthyDrops(run: seq<Happening>, n: nat, i: nat)
    requires n <= |run| && Healthy(run) && i in ObservedAt(run, n).instances
    ensures DropsAreLong(ObservedAt(run, n).instances[i].history)
    ensures !ObservedAt(run, n).instances[i].disabled
  {
    hide Handle, DropsAreLong;
    var s, h := ObservedAt(run, n - 1), run[n - 1];
    if i in s.instances {
      HealthyDrops(run, n - 1, i);
    } else {
      assert DropsAreLong(NEW_INSTANCE.history) by { NoDropsYet(); }
    }
    if Enabled(s, h) && h.instance == i {
      var inst := if h.event.ProcessStarted? then NEW_INSTANCE else s.instances[i];
      HandleDrops(i, s.files, inst, h.event, h.first, h.second);
    }
  }

  lemma NoDropsYet()
    ensures DropsAreLong(NEW_INSTANCE.history)
  {
  }

  // ----- The live map over time -----

  ghost predicate LeavesHistory(inst: Instance, next: Instance) {
    inst.history <= next.history && (next.disabled || |inst.history| < |next.history|)
  }

  lemma EmitLeavesHistory(i: nat, files: Files, inst: Instance, event: RowEvent, e: Emission)
    ensures LeavesHistory(inst, Emit(i, files, inst, event, e).instance)
  {
    hide CheckpointOf, Encoded, Bytes;
  }

  lemma SettleLeavesHistory(inst: Instance, next: Instance, live: Active)
    requires LeavesHistory(inst, next)
    ensures inst.history <= Settle(next, live).history
  {
  }

  lemma EmitExtends(i: nat, files: Files, inst: Instance, event: RowEvent, e: Emission, live: Active)
    ensures inst.history <= Settle(Emit(i, files, inst, event, e).instance, live).history
  {
    hide Emit, Settle;
    EmitLeavesHistory(i, files, inst, event, e);
    SettleLeavesHistory(inst, Emit(i, files, inst, event, e).instance, live);
  }

  /** A handler leaves the numbers used before it as they were. */
  lemma HandleExtends(i: nat, files: Files, inst: Instance, event: NodeEvent, e: Emission, f: Emission)
    ensures inst.history <= Handle(i, files, inst, event, e, f).instance.history
  {
    hide Emit, Settle;
    match event
    case ProcessStarted => EmitExtends(i, files, inst, ProcessStart, e, inst.live);
    case ProcessExits => EmitExtends(i, files, inst, ProcessExit, e, map[]);
    case ConnectionOpened(c) => EmitExtends(i, files, inst, ConnectionOpen(c), e, inst.live);
    case ConnectionClosed(c) =>
      EmitExtends(i, files, inst, ConnectionClose(c), e, WithoutConnection(inst.live, c));
    case RequestArrived(on) =>
      var id := inst.requests + 1;
      var live := if Emit(i, files, inst, RequestBegin(id, on), e).ok then inst.live[id := on] else inst.live;
      EmitExtends(i, files, inst, RequestBegin(id, on), e, live);
    case RequestErrored(id) => EmitExtends(i, files, inst, RequestFailed(id), e, inst.live - {id});
    case ResponseFinished(id) => EmitExtends(i, files, inst, RequestFinish(id), e, inst.live - {id});
    case ResponseClosed(id, writableFinished) =>
      EmitExtends(i, files, inst, RequestFailed(id), e, inst.live - {id});
      var failed := if writableFinished then Emitted(files, inst, false) else Fail(i, files, inst, id, e);
      EmitExtends(i, failed.files, failed.instance, RequestTeardown(id), f, failed.instance.live);
  }

  lemma {:induction false} HistoryExtends(run: seq<Happening>, m: nat, n: nat, i: nat)
    requires m <= n <= |run| && i in ObservedAt(run, m).instances
    ensures i in ObservedAt(run, n).instances
    ensures ObservedAt(run, m).instances[i].history <= ObservedAt(run, n).instances[i].history
  {
    hide Handle;
    if m < n {
      HistoryExtends(run, m, n - 1, i);
      var s, h := ObservedAt(run, n - 1), run[n - 1];
      if Enabled(s, h) && h.instance == i {
        HandleExtends(i, s.files, s.instances[i], h.event, h.first, h.second);
      }
    }
  }

  /**
   * The map a history notes for a number is the live map the process had at the
   * moment the handler that used the number was done, and it is never revised.
   */
  lemma NotedMapWasLive(run: seq<Happening>, m: nat, n: nat, i: nat)
    requires m <= n <= |run| && i in ObservedAt(run, m).instances
    ensures var once := ObservedAt(run, m).instances[i];
            i in ObservedAt(run, n).instances
            && (!once.disabled && once.history != [] ==>
                  |once.history| <= |ObservedAt(run, n).instances[i].history|
                  && ObservedAt(run, n).instances[i].history[|once.history| - 1].liveAfter == once.live)
  {
    hide Observe;
    RunKeeps(run, m);
    HistoryExtends(run, m, n, i);
  }
}
