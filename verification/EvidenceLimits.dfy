/**
 * The length limit of a line. The writer holds it against the first encoding, so a line
 * that makes the segments rotate, and is encoded again under a later number, could come
 * out one byte over: exactly when is stated for one call with arbitrary fields. The
 * observer's own rows are too short for that, so its runs keep the limit and drop nothing.
 */
module EvidenceLimits {
  import opened Basics
  import opened TransportEvidence
  import opened EvidenceRuns
  import opened EvidenceRows

  // ----- What one call appends -----

  function LineFor(i: nat, number: nat, event: RowEvent, e: Emission): Line {
    Line(Row(i, number, e.time, event), Encoded(e.payload, number))
  }

  /** The checkpoint is too long to be written. */
  predicate CheckpointDropped(inst: Instance, e: Emission) {
    Encoded(e.checkpointPayload, inst.sequence + 1) > LINE_BYTES
  }

  function CheckpointLine(i: nat, inst: Instance, e: Emission): Line {
    Line(Row(i, inst.sequence + 1, e.time, CheckpointOf(inst.live)), Encoded(e.checkpointPayload, inst.sequence + 1))
  }

  /** The lines a call appends after rotating: the checkpoint if it fits, then the line under the next number. */
  function AddedAfterRotation(i: nat, inst: Instance, event: RowEvent, e: Emission): seq<Line> {
    var line := if e.fault.AtAppend? then [] else [LineFor(i, inst.sequence + 2, event, e)];
    if CheckpointDropped(inst, e) then line
    else if e.fault.AtCheckpoint? then []
    else [CheckpointLine(i, inst, e)] + line
  }

  /** The call gets as far as rotating the segments. */
  predicate Rotates(files: Files, inst: Instance, e: Emission) {
    var tested := Encoded(e.payload, inst.sequence + 1);
    && !inst.disabled && tested <= LINE_BYTES && Bytes(files.newer) + tested > SEGMENT_BYTES
    && !e.fault.AtStat? && !e.fault.AtRemove? && !e.fault.AtRename?
  }

  /** The call appends its line without rotating. */
  predicate Appends(files: Files, inst: Instance, e: Emission) {
    var tested := Encoded(e.payload, inst.sequence + 1);
    && !inst.disabled && tested <= LINE_BYTES && Bytes(files.newer) + tested <= SEGMENT_BYTES
    && !e.fault.AtStat? && !e.fault.AtAppend?
  }

  function Added(i: nat, files: Files, inst: Instance, event: RowEvent, e: Emission): seq<Line> {
    if Rotates(files, inst, e) then AddedAfterRotation(i, inst, event, e)
    else if Appends(files, inst, e) then [LineFor(i, inst.sequence + 1, event, e)]
    else []
  }

  lemma RotationAdds(i: nat, files: Files, inst: Instance, event: RowEvent, e: Emission, tested: nat)
    requires files.newer == []
    ensures var out := WriteAfterRotation(i, files, inst, event, e, tested);
            && out.files.written == files.written + AddedAfterRotation(i, inst, event, e)
            && out.files.newer == AddedAfterRotation(i, inst, event, e) && out.files.older == files.older
  {
    hide Encoded, CheckpointOf;
    var c, l := CheckpointLine(i, inst, e), LineFor(i, inst.sequence + 2, event, e);
    assert files.written + [c] + [l] == files.written + ([c] + [l]);
  }

  lemma EmitAdds(i: nat, files: Files, inst: Instance, event: RowEvent, e: Emission)
    ensures var out := Emit(i, files, inst, event, e);
            && out.files.written == files.written + Added(i, files, inst, event, e)
            && (Rotates(files, inst, e) ==>
                  out.files.older == files.newer && out.files.newer == Added(i, files, inst, event, e))
            && (Appends(files, inst, e) ==>
                  out.files.older == files.older && out.files.newer == files.newer + Added(i, files, inst, event, e))
  {
    hide Encoded, Bytes, WriteAfterRotation, AddedAfterRotation;
    assert files.written + [] == files.written;
    var tested := Encoded(e.payload, inst.sequence + 1);
    RotationAdds(i, files.(older := files.newer, newer := []), inst, event, e, tested);
  }

  // ----- Lines over the limit -----

  ghost predicate SomeOverlong(lines: seq<Line>) {
    exists k :: 0 <= k < |lines| && lines[k].bytes > LINE_BYTES
  }

  /** The call rotates with a brimful line, and no error keeps the line from being written. */
  predicate WritesOverlong(files: Files, inst: Instance, e: Emission) {
    && Rotates(files, inst, e) && Brimful(e.payload, inst.sequence)
    && (e.fault.NoFault? || (e.fault.AtCheckpoint? && CheckpointDropped(inst, e)))
  }

  /**
   * A call appends a line over the limit if and only if, before the call, the segment
   * was full for a line of exactly the limit whose next number has one more digit. The
   * line is then one byte over, and it is the last one of the new segment.
   */
  lemma OverlongIff(i: nat, files: Files, inst: Instance, event: RowEvent, e: Emission)
    ensures var out := Emit(i, files, inst, event, e);
            && files.written <= out.files.written
            && (SomeOverlong(out.files.written[|files.written|..]) <==> WritesOverlong(files, inst, e))
    ensures WritesOverlong(files, inst, e) ==>
              var newer := Emit(i, files, inst, event, e).files.newer;
              && newer != [] && newer[|newer| - 1] == Line(Row(i, inst.sequence + 2, e.time, event), LINE_BYTES + 1)
  {
    hide Encoded, Bytes, Emit, Brimful, Added;
    EmitAdds(i, files, inst, event, e);
    var added := Added(i, files, inst, event, e);
    assert (files.written + added)[|files.written|..] == added;
    AddedOverlong(i, files, inst, event, e);
  }

  lemma AddedOverlong(i: nat, files: Files, inst: Instance, event: RowEvent, e: Emission)
    ensures SomeOverlong(Added(i, files, inst, event, e)) <==> WritesOverlong(files, inst, e)
    ensures WritesOverlong(files, inst, e) ==>
              var added := Added(i, files, inst, event, e);
              && added != [] && added[|added| - 1] == Line(Row(i, inst.sequence + 2, e.time, event), LINE_BYTES + 1)
  {
    hide Encoded, Bytes, Brimful, CheckpointOf;
    var added := Added(i, files, inst, event, e);
    if Rotates(files, inst, e) {
      RotatedLineFits(e.payload, inst.sequence);
      if WritesOverlong(files, inst, e) {
        assert added[|added| - 1].bytes == LINE_BYTES + 1;
      }
    }
  }

  /** Number 9 brims, number 10 runs over. */
  lemma NineIsBrimful()
    ensures Encoded(LINE_BYTES - 1, 9) == LINE_BYTES && Encoded(LINE_BYTES - 1, 10) == LINE_BYTES + 1
    ensures Brimful(LINE_BYTES - 1, 8)
  {
  }

  /** On any full segment there is such a call: the ninth number, and fields that make the line exactly as long as allowed. */
  lemma OverlongCall(i: nat, files: Files, event: RowEvent)
    requires Bytes(files.newer) + LINE_BYTES > SEGMENT_BYTES
    ensures var inst := NEW_INSTANCE.(sequence := 8);
            var newer := Emit(i, files, inst, event, Emission(0, LINE_BYTES - 1, 0, NoFault)).files.newer;
            newer != [] && newer[|newer| - 1].bytes == LINE_BYTES + 1
  {
    hide Bytes, Encoded, Emit;
    NineIsBrimful();
    OverlongIff(i, files, NEW_INSTANCE.(sequence := 8), event, Emission(0, LINE_BYTES - 1, 0, NoFault));
  }

  // ----- Runs of the observer -----

  lemma {:induction false} DigitsMonotone(m: nat, n: nat)
    requires m <= n
    ensures |Digits(m)| <= |Digits(n)|
  {
    if m < n {
      DigitsMonotone(m, n - 1);
      DigitsGrowSlowly(n - 1);
    }
  }

  /** Row and checkpoint fit even under this number. */
  predicate Roomy(e: Emission, number: nat) {
    Encoded(e.payload, number) <= LINE_BYTES && Encoded(e.checkpointPayload, number) <= LINE_BYTES
  }

  lemma RoomyBelow(e: Emission, m: nat, n: nat)
    requires m <= n && Roomy(e, n)
    ensures Roomy(e, m)
  {
    hide Digits;
    DigitsMonotone(m, n);
  }

  ghost predicate ShortLines(lines: seq<Line>) {
    forall k :: 0 <= k < |lines| ==> lines[k].bytes <= LINE_BYTES
  }

  ghost predicate ShortTicks(history: seq<Tick>) {
    forall k :: 0 <= k < |history| ==> history[k].tested <= LINE_BYTES
  }

  /** Every line written and every line tested is within the limit. */
  ghost predicate AllShort(files: Files, inst: Instance) {
    ShortLines(files.written) && ShortTicks(inst.history)
  }

  lemma RecordShort(inst: Instance, event: RowEvent, e: Emission, tested: nat, written: bool)
    requires ShortTicks(inst.history) && tested <= LINE_BYTES
    ensures ShortTicks(Record(inst, event, e, tested, written).history)
  {
  }

  lemma RotationShort(i: nat, files: Files, inst: Instance, event: RowEvent, e: Emission, tested: nat)
    requires ShortTicks(inst.history) && tested <= LINE_BYTES
    requires Encoded(e.checkpointPayload, inst.sequence + 1) <= LINE_BYTES
    ensures var next := WriteAfterRotation(i, files, inst, event, e, tested).instance;
            ShortTicks(next.history) && inst.sequence <= next.sequence <= inst.sequence + 2
  {
    hide Encoded, CheckpointOf, ShortTicks, Append;
    var checkpoint, bytes := CheckpointOf(inst.live), Encoded(e.checkpointPayload, inst.sequence + 1);
    RecordShort(inst, checkpoint, e, bytes, false);
    RecordShort(inst, checkpoint, e, bytes, true);
    RecordShort(Record(inst, checkpoint, e, bytes, true), event, e, tested, true);
    RecordShort(Record(inst, checkpoint, e, bytes, true), event, e, tested, false);
  }

  lemma EmitShortTicks(i: nat, files: Files, inst: Instance, event: RowEvent, e: Emission)
    requires ShortTicks(inst.history) && Roomy(e, inst.sequence + 1)
    ensures var next := Emit(i, files, inst, event, e).instance;
            ShortTicks(next.history) && inst.sequence <= next.sequence <= inst.sequence + 2
  {
    hide Encoded, Bytes, WriteAfterRotation, ShortTicks, Append;
    var tested := Encoded(e.payload, inst.sequence + 1);
    RecordShort(inst, event, e, tested, true);
    RecordShort(inst, event, e, tested, false);
    RotationShort(i, files.(older := files.newer, newer := []), inst, event, e, tested);
  }

  /** A call whose row and checkpoint fit under the numbers it can use keeps everything within the limit. */
  lemma EmitShort(i: nat, files: Files, inst: Instance, event: RowEvent, e: Emission)
    requires AllShort(files, inst) && Roomy(e, inst.sequence + 2)
    ensures var out := Emit(i, files, inst, event, e);
            AllShort(out.files, out.instance) && inst.sequence <= out.instance.sequence <= inst.sequence + 2
  {
    hide Emit, Bytes, Encoded, ShortTicks, Brimful;
    RoomyBelow(e, inst.sequence + 1, inst.sequence + 2);
    EmitShortTicks(i, files, inst, event, e);
    OverlongIff(i, files, inst, event, e);
    RotatedLineFits(e.payload, inst.sequence);
    var w, out := files.written, Emit(i, files, inst, event, e).files.written;
    forall k | 0 <= k < |out| ensures out[k].bytes <= LINE_BYTES {
      if k >= |w| {
        assert out[|w|..][k - |w|] == out[k];
      }
    }
  }

  lemma SettleShort(inst: Instance, live: Active)
    requires ShortTicks(inst.history)
    ensures ShortTicks(Settle(inst, live).history) && Settle(inst, live).sequence == inst.sequence
  {
  }

  /** The result of a handler: within the limit, and at most this many numbers further. */
  ghost predicate KeptShort(inst: Instance, out: Emitted, numbers: nat) {
    AllShort(out.files, out.instance) && inst.sequence <= out.instance.sequence <= inst.sequence + numbers
  }

  lemma EmitSettleShort(i: nat, files: Files, inst: Instance, event: RowEvent, e: Emission, live: Active)
    requires AllShort(files, inst) && Roomy(e, inst.sequence + 2)
    ensures var out := Emit(i, files, inst, event, e);
            KeptShort(inst, out.(instance := Settle(out.instance, live)), 2)
  {
    hide Emit, ShortTicks, ShortLines, Settle, Roomy;
    EmitShort(i, files, inst, event, e);
    SettleShort(Emit(i, files, inst, event, e).instance, live);
  }

  lemma FailShort(i: nat, files: Files, inst: Instance, id: nat, e: Emission)
    requires AllShort(files, inst) && Roomy(e, inst.sequence + 2)
    ensures KeptShort(inst, Fail(i, files, inst, id, e), 2)
  {
    hide Emit, ShortTicks, ShortLines, Settle, Roomy;
    EmitSettleShort(i, files, inst, RequestFailed(id), e, inst.live - {id});
  }

  lemma HandleShort(i: nat, files: Files, inst: Instance, event: NodeEvent, e: Emission, f: Emission)
    requires AllShort(files, inst) && Roomy(e, inst.sequence + 4) && Roomy(f, inst.sequence + 4)
    ensures KeptShort(inst, Handle(i, files, inst, event, e, f), 4)
  {
    hide Emit, ShortTicks, ShortLines, Settle, Fail, Roomy;
    RoomyBelow(e, inst.sequence + 2, inst.sequence + 4);
    match event
    case ProcessStarted => EmitSettleShort(i, files, inst, ProcessStart, e, inst.live);
    case ProcessExits => EmitSettleShort(i, files, inst, ProcessExit, e, map[]);
    case ConnectionOpened(c) => EmitSettleShort(i, files, inst, ConnectionOpen(c), e, inst.live);
    case ConnectionClosed(c) =>
      EmitSettleShort(i, files, inst, ConnectionClose(c), e, WithoutConnection(inst.live, c));
    case RequestArrived(on) =>
      var id := inst.requests + 1;
      var live := if Emit(i, files, inst, RequestBegin(id, on), e).ok then inst.live[id := on] else inst.live;
      EmitSettleShort(i, files, inst, RequestBegin(id, on), e, live);
    case RequestErrored(id) => FailShort(i, files, inst, id, e);
    case ResponseFinished(id) => EmitSettleShort(i, files, inst, RequestFinish(id), e, inst.live - {id});
    case ResponseClosed(id, writableFinished) =>
      FailShort(i, files, inst, id, e);
      var failed := if writableFinished then Emitted(files, inst, false) else Fail(i, files, inst, id, e);
      RoomyBelow(f, failed.instance.sequence + 2, inst.sequence + 4);
      EmitSettleShort(i, failed.files, failed.instance, RequestTeardown(id), f, failed.instance.live);
  }

  /** The number a process has reached. */
  function Reached(s: Observed, i: nat): nat {
    if i in s.instances then s.instances[i].sequence else 0
  }

  /** The rows and checkpoints of the run fit under the numbers their handlers can use. */
  ghost predicate RowsFit(run: seq<Happening>) {
    forall k :: 0 <= k < |run| ==> FitsAt(ObservedAt(run, k), run[k])
  }

  predicate FitsAt(s: Observed, h: Happening) {
    Roomy(h.first, Reached(s, h.instance) + 4) && Roomy(h.second, Reached(s, h.instance) + 4)
  }

  ghost predicate ShortState(s: Observed) {
    ShortLines(s.files.written) && forall i :: i in s.instances ==> ShortTicks(s.instances[i].history)
  }

  lemma ObserveShort(s: Observed, h: Happening)
    requires ShortState(s) && FitsAt(s, h)
    ensures ShortState(Observe(s, h))
    ensures forall i :: Reached(Observe(s, h), i) <= Reached(s, i) + 4
  {
    hide Handle, ShortTicks, ShortLines, Roomy;
    if Enabled(s, h) {
      var inst := if h.event.ProcessStarted? then NEW_INSTANCE else s.instances[h.instance];
      assert ShortTicks(NEW_INSTANCE.history) by { NoTicks(); }
      HandleShort(h.instance, s.files, inst, h.event, h.first, h.second);
    }
  }

  lemma NoTicks()
    ensures ShortTicks(NEW_INSTANCE.history) && ShortLines(NOTHING_YET.files.written)
  {
  }

  lemma {:induction false} RunShort(run: seq<Happening>, n: nat)
    requires n <= |run| && RowsFit(run)
    ensures ShortState(ObservedAt(run, n))
  {
    hide Observe, FitsAt, ShortTicks, ShortLines;
    if n == 0 {
      NoTicks();
    } else {
      RunShort(run, n - 1);
      ObserveShort(ObservedAt(run, n - 1), run[n - 1]);
    }
  }

  /** No line of such a run is over the limit, with any I/O errors: not in either segment, and none ever written. */
  lemma LinesWithinLimit(run: seq<Happening>, n: nat)
    requires n <= |run| && RowsFit(run)
    ensures var files := ObservedAt(run, n).files;
            ShortLines(files.written) && ShortLines(files.older) && ShortLines(files.newer)
  {
    hide ObservedAt, RowsFit;
    RunShort(run, n);
    RunKeeps(run, n);
    PartsShort(ObservedAt(run, n).files);
  }

  lemma PartsShort(files: Files)
    requires Retained(files) && ShortLines(files.written)
    ensures ShortLines(files.older) && ShortLines(files.newer)
  {
    var w: seq<Line>, a: seq<Line>, b: seq<Line> := files.written, files.older, files.newer;
    var d := |w| - |a| - |b|;
    forall k | 0 <= k < |a| + |b| ensures (a + b)[k].bytes <= LINE_BYTES {
      assert (w[d..])[k] == w[d + k];
    }
    forall k | 0 <= k < |a| ensures a[k].bytes <= LINE_BYTES {
      assert (a + b)[k] == a[k];
    }
    forall k | 0 <= k < |b| ensures b[k].bytes <= LINE_BYTES {
      assert (a + b)[|a| + k] == b[k];
    }
  }

  ghost predicate AllWritten(history: seq<Tick>) {
    forall k :: 0 <= k < |history| ==> history[k].written
  }

  /** Without I/O errors such a run drops nothing: something was written under every number. */
  lemma NothingDropped(run: seq<Happening>, n: nat, i: nat)
    requires n <= |run| && RowsFit(run) && Healthy(run) && i in ObservedAt(run, n).instances
    ensures AllWritten(ObservedAt(run, n).instances[i].history)
  {
    hide ObservedAt, RowsFit, Healthy, ShortLines;
    RunShort(run, n);
    HealthyDrops(run, n, i);
  }

  lemma {:induction false} WrittenRows(i: nat, history: seq<Tick>, x: nat)
    requires AllWritten(history) && x < |history|
    ensures |TickRows(i, history)| == |history| && TickRows(i, history)[x].sequence == x + 1
  {
    var init := history[..|history| - 1];
    if init == [] {
      assert TickRows(i, init) == [];
    } else {
      WrittenRows(i, init, if x < |init| then x else 0);
    }
  }

  /** So the retained numbers of a process have no gap and go up to the last one it used. */
  lemma RetainedContiguous(run: seq<Happening>, n: nat, i: nat)
    requires n <= |run| && RowsFit(run) && Healthy(run) && i in ObservedAt(run, n).instances
    ensures var s := ObservedAt(run, n);
            var rows := RetainedRows(s.files, i);
            forall x :: 0 <= x < |rows| ==> rows[x].sequence == |s.instances[i].history| - |rows| + x + 1
  {
    hide ObservedAt, ObservedInv, RowsFit, Healthy, AllWritten, TickRows, RetainedRows;
    var s := ObservedAt(run, n);
    var history, rows := s.instances[i].history, RetainedRows(s.files, i);
    RunKeeps(run, n);
    NothingDropped(run, n, i);
    var lost := RetainedIsSuffix(s, i);
    forall x | 0 <= x < |rows| ensures rows[x].sequence == |history| - |rows| + x + 1 {
      NonEmptyHistory(i, history);
      WrittenRows(i, history, 0);
      WrittenRows(i, history, lost + x);
    }
  }

  lemma NonEmptyHistory(i: nat, history: seq<Tick>)
    ensures history == [] ==> TickRows(i, history) == []
  {
  }

  // ----- The rows the observer really writes -----

  /** The lengths are those of a row and of a checkpoint that the observer can encode. */
  ghost predicate RealLengths(e: Emission) {
    && (exists event: RowEvent, d: Details :: !event.Checkpoint? && Encodable(event, d) && e.payload == RowPayload(event, d))
    && (exists event: RowEvent, d: Details :: event.Checkpoint? && Encodable(event, d) && e.checkpointPayload == RowPayload(event, d))
  }

  /** Every row is one the observer can encode, and no number of the run leaves the safe integers. */
  ghost predicate RealRun(run: seq<Happening>) {
    && Exact(4 * |run|)
    && forall k :: 0 <= k < |run| ==> RealLengths(run[k].first) && RealLengths(run[k].second)
  }

  lemma RealIsRoomy(e: Emission, number: nat)
    requires RealLengths(e) && Exact(number)
    ensures Roomy(e, number)
  {
    hide Encodable, RowPayload, Encoded, Exact;
    var event: RowEvent, d: Details :| !event.Checkpoint? && Encodable(event, d) && e.payload == RowPayload(event, d);
    RowsAreShort(event, d, number);
    var checkpoint: RowEvent, c: Details :|
      checkpoint.Checkpoint? && Encodable(checkpoint, c) && e.checkpointPayload == RowPayload(checkpoint, c);
    RowsAreShort(checkpoint, c, number);
  }

  lemma {:induction false} ReachedAtMost(run: seq<Happening>, n: nat, i: nat)
    requires n <= |run| && RealRun(run)
    ensures Reached(ObservedAt(run, n), i) <= 4 * n && ShortState(ObservedAt(run, n))
  {
    hide Observe, RealLengths, ShortState, Roomy, PowerOfTen;
    if n == 0 {
      assert ShortState(NOTHING_YET) by { NothingIsShort(); }
    } else {
      var s, h := ObservedAt(run, n - 1), run[n - 1];
      ReachedAtMost(run, n - 1, i);
      ReachedAtMost(run, n - 1, h.instance);
      RealIsRoomy(h.first, Reached(s, h.instance) + 4);
      RealIsRoomy(h.second, Reached(s, h.instance) + 4);
      ObserveShort(s, h);
    }
  }

  lemma NothingIsShort()
    ensures ShortState(NOTHING_YET)
  {
  }

  /** The observer's own runs meet the condition of the results above. */
  lemma RealRunsFit(run: seq<Happening>)
    requires RealRun(run)
    ensures RowsFit(run)
  {
    hide ObservedAt, RealLengths, Roomy, PowerOfTen, ShortState;
    forall k | 0 <= k < |run| ensures FitsAt(ObservedAt(run, k), run[k]) {
      ReachedAtMost(run, k, run[k].instance);
      RealIsRoomy(run[k].first, Reached(ObservedAt(run, k), run[k].instance) + 4);
      RealIsRoomy(run[k].second, Reached(ObservedAt(run, k), run[k].instance) + 4);
    }
  }
}
