/**
 * What the observer does on each event, told from outside: which rows it sets out to
 * write, which requests it serves afterwards, and that no request fails twice.
 */
module EvidenceEvents {
  import opened Basics
  import opened TransportEvidence
  import opened EvidenceRuns

  /** The rows a history was meant to hold, checkpoints left aside. */
  function Ordinary(history: seq<Tick>): seq<RowEvent> {
    if history == [] then []
    else
      var last := history[|history| - 1].event;
      Ordinary(history[..|history| - 1]) + (if last.Checkpoint? then [] else [last])
  }

  lemma OrdinaryAppend(history: seq<Tick>, tick: Tick)
    ensures Ordinary(history + [tick]) == Ordinary(history) + if tick.event.Checkpoint? then [] else [tick.event]
  {
    assert (history + [tick])[..|history|] == history;
  }

  lemma RecordOrdinary(inst: Instance, event: RowEvent, e: Emission, tested: nat, written: bool)
    ensures Ordinary(Record(inst, event, e, tested, written).history)
         == Ordinary(inst.history) + if event.Checkpoint? then [] else [event]
  {
    hide Ordinary;
    OrdinaryAppend(inst.history, Tick(event, e.time, tested, written, inst.live));
  }

  lemma SettleOrdinary(inst: Instance, live: Active)
    ensures Ordinary(Settle(inst, live).history) == Ordinary(inst.history)
  {
    if !inst.disabled && inst.history != [] {
      var last := |inst.history| - 1;
      assert Settle(inst, live).history[..last] == inst.history[..last];
    }
  }

  /** A call notes its row once, or not at all if an error comes first; without error it does, unless the writer is disabled. */
  ghost predicate Notes(inst: Instance, event: RowEvent, e: Emission, next: Instance) {
    && (Ordinary(next.history) == Ordinary(inst.history) || Ordinary(next.history) == Ordinary(inst.history) + [event])
    && (!inst.disabled && e.fault.NoFault? ==>
          !next.disabled && Ordinary(next.history) == Ordinary(inst.history) + [event])
  }

  lemma WriteLineNotes(i: nat, files: Files, inst: Instance, event: RowEvent, e: Emission, tested: nat)
    requires !event.Checkpoint?
    ensures Notes(inst, event, e, WriteLine(i, files, inst, event, e, tested).instance)
  {
    hide Ordinary, Encoded, Append;
    RecordOrdinary(inst, event, e, tested, true);
    RecordOrdinary(inst, event, e, tested, false);
  }

  lemma RotationNotes(i: nat, files: Files, inst: Instance, event: RowEvent, e: Emission, tested: nat)
    requires !event.Checkpoint?
    ensures Notes(inst, event, e, WriteAfterRotation(i, files, inst, event, e, tested).instance)
  {
    hide Ordinary, Encoded, Append, WriteLine;
    var checkpoint, bytes := CheckpointOf(inst.live), Encoded(e.checkpointPayload, inst.sequence + 1);
    var line := Line(Row(i, inst.sequence + 1, e.time, checkpoint), bytes);
    RecordOrdinary(inst, checkpoint, e, bytes, true);
    RecordOrdinary(inst, checkpoint, e, bytes, false);
    assert Ordinary(inst.history) + [] == Ordinary(inst.history);
    if bytes > LINE_BYTES {
      WriteLineNotes(i, files, Record(inst, checkpoint, e, bytes, false), event, e, tested);
    } else {
      WriteLineNotes(i, Append(files, line), Record(inst, checkpoint, e, bytes, true), event, e, tested);
    }
  }

  lemma EmitNotes(i: nat, files: Files, inst: Instance, event: RowEvent, e: Emission)
    requires !event.Checkpoint?
    ensures Notes(inst, event, e, Emit(i, files, inst, event, e).instance)
  {
    hide Ordinary, Encoded, Bytes, WriteLine, WriteAfterRotation;
    var tested := Encoded(e.payload, inst.sequence + 1);
    RecordOrdinary(inst, event, e, tested, false);
    WriteLineNotes(i, files, inst, event, e, tested);
    RotationNotes(i, files.(older := files.newer, newer := []), inst, event, e, tested);
  }

  // ----- The rows of an event -----

  /** The rows an event gives rise to. A second failure of a request gives none. */
  function RowsFor(inst: Instance, event: NodeEvent): seq<RowEvent> {
    match event
    case ProcessStarted => [ProcessStart]
    case ProcessExits => [ProcessExit]
    case ConnectionOpened(c) => [ConnectionOpen(c)]
    case ConnectionClosed(c) => [ConnectionClose(c)]
    case RequestArrived(on) => [RequestBegin(inst.requests + 1, on)]
    case RequestErrored(id) => if id in inst.failed then [] else [RequestFailed(id)]
    case ResponseFinished(id) => [RequestFinish(id)]
    case ResponseClosed(id, finished) =>
      (if finished || id in inst.failed then [] else [RequestFailed(id)]) + [RequestTeardown(id)]
  }

  lemma FailNotes(i: nat, files: Files, inst: Instance, id: nat, e: Emission)
    requires !inst.disabled && e.fault.NoFault?
    ensures var next := Fail(i, files, inst, id, e).instance;
            !next.disabled && Ordinary(next.history) == Ordinary(inst.history) + if id in inst.failed then [] else [RequestFailed(id)]
  {
    hide Ordinary, Emit, Settle;
    assert Ordinary(inst.history) + [] == Ordinary(inst.history);
    if id !in inst.failed {
      var out := Emit(i, files, inst, RequestFailed(id), e).instance;
      EmitNotes(i, files, inst, RequestFailed(id), e);
      SettleOrdinary(out, inst.live - {id});
      SettleKeepsDisabled(out, inst.live - {id});
    }
  }

  lemma SettleKeepsDisabled(inst: Instance, live: Active)
    ensures Settle(inst, live).disabled == inst.disabled
  {
  }

  /** Without errors every event notes exactly its rows, in order. */
  lemma HandleNotesRows(i: nat, files: Files, inst: Instance, event: NodeEvent, e: Emission, f: Emission)
    requires !inst.disabled && e.fault.NoFault? && f.fault.NoFault?
    ensures var next := Handle(i, files, inst, event, e, f).instance;
            !next.disabled && Ordinary(next.history) == Ordinary(inst.history) + RowsFor(inst, event)
  {
    hide Ordinary, Emit, Settle, Fail;
    if event.RequestErrored? {
      FailNotes(i, files, inst, event.id, e);
    } else if event.ResponseClosed? {
      var failed := if event.writableFinished then Emitted(files, inst, false) else Fail(i, files, inst, event.id, e);
      FailNotes(i, files, inst, event.id, e);
      EmitNotes(i, failed.files, failed.instance, RequestTeardown(event.id), f);
      var out := Emit(i, failed.files, failed.instance, RequestTeardown(event.id), f).instance;
      SettleOrdinary(out, failed.instance.live);
      SettleKeepsDisabled(out, failed.instance.live);
      assert Ordinary(inst.history) + [] == Ordinary(inst.history);
      assert [] + [RequestTeardown(event.id)] == [RequestTeardown(event.id)];
      assert Ordinary(inst.history) + [RequestFailed(event.id)] + [RequestTeardown(event.id)]
          == Ordinary(inst.history) + ([RequestFailed(event.id)] + [RequestTeardown(event.id)]);
    } else {
      SimpleNotes(i, files, inst, event, e, f);
    }
  }

  predicate Simple(event: NodeEvent) {
    !event.RequestErrored? && !event.ResponseClosed?
  }

  lemma SimpleNotes(i: nat, files: Files, inst: Instance, event: NodeEvent, e: Emission, f: Emission)
    requires !inst.disabled && e.fault.NoFault? && Simple(event)
    ensures var next := Handle(i, files, inst, event, e, f).instance;
            !next.disabled && Ordinary(next.history) == Ordinary(inst.history) + RowsFor(inst, event)
  {
    hide Ordinary, Emit, Settle;
    var row := RowsFor(inst, event)[0];
    var out := Emit(i, files, inst, row, e).instance;
    EmitNotes(i, files, inst, row, e);
    forall live: Active ensures Ordinary(Settle(out, live).history) == Ordinary(out.history) && Settle(out, live).disabled == out.disabled {
      SettleOrdinary(out, live);
      SettleKeepsDisabled(out, live);
    }
  }

  // ----- The requests served -----

  /** The event ends the service of this request. */
  predicate Releases(inst: Instance, event: NodeEvent, id: nat, on: Option<nat>) {
    match event
    case ProcessExits => true
    case ConnectionClosed(c) => on == Some(c)
    case RequestErrored(failed) => failed == id && id !in inst.failed
    case ResponseFinished(finished) => finished == id
    case ResponseClosed(closed, finished) => closed == id && !finished && id !in inst.failed
    case _ => false
  }

  ghost predicate Serving(inst: Instance, id: nat, on: Option<nat>) {
    id in inst.live && inst.live[id] == on
  }

  lemma SettleLive(inst: Instance, live: Active)
    ensures Settle(inst, live).live == live
  {
  }

  /**
   * After an event exactly these requests are served: the one that just arrived, if its row
   * was written, and those served before that the event does not release. In particular a
   * closed connection leaves exactly the requests of other connections.
   */
  lemma HandleServes(i: nat, files: Files, inst: Instance, event: NodeEvent, e: Emission, f: Emission, id: nat, on: Option<nat>)
    ensures Serving(Handle(i, files, inst, event, e, f).instance, id, on)
       <==> if event.RequestArrived? && id == inst.requests + 1 && Emit(i, files, inst, RequestBegin(id, event.on), e).ok
            then event.on == on
            else Serving(inst, id, on) && !Releases(inst, event, id, on)
  {
    hide Emit;
  }

  // ----- No request fails twice -----

  /** The requests reported failed are flagged, and each is reported once. */
  ghost predicate FailsOnce(inst: Instance) {
    && (forall k :: 0 <= k < |inst.history| && inst.history[k].event.RequestFailed? ==> inst.history[k].event.id in inst.failed)
    && (forall j, k :: 0 <= j < k < |inst.history| && inst.history[j].event.RequestFailed? ==>
          inst.history[j].event != inst.history[k].event)
  }

  /** A history goes on with at most this row, once, besides checkpoints. */
  ghost predicate GoesOn(before: seq<Tick>, after: seq<Tick>, event: RowEvent) {
    && |before| <= |after|
    && (forall k :: 0 <= k < |before| ==> after[k].event == before[k].event)
    && (forall k :: |before| <= k < |after| ==> after[k].event.Checkpoint? || after[k].event == event)
    && (forall j, k :: |before| <= j < k < |after| ==> after[j].event != event || after[k].event != event)
  }

  lemma WriteLineGoesOn(i: nat, files: Files, inst: Instance, event: RowEvent, e: Emission, tested: nat)
    ensures GoesOn(inst.history, WriteLine(i, files, inst, event, e, tested).instance.history, event)
  {
    hide Encoded, Append;
  }

  lemma RotationGoesOn(i: nat, files: Files, inst: Instance, event: RowEvent, e: Emission, tested: nat)
    requires !event.Checkpoint?
    ensures GoesOn(inst.history, WriteAfterRotation(i, files, inst, event, e, tested).instance.history, event)
  {
    hide Encoded, Append, WriteLine, GoesOn;
    var checkpoint, bytes := CheckpointOf(inst.live), Encoded(e.checkpointPayload, inst.sequence + 1);
    assert checkpoint.Checkpoint?;
    hide CheckpointOf;
    var line := Line(Row(i, inst.sequence + 1, e.time, checkpoint), bytes);
    var dropped := Record(inst, checkpoint, e, bytes, false);
    var kept := Record(inst, checkpoint, e, bytes, true);
    if bytes > LINE_BYTES {
      WriteLineGoesOn(i, files, dropped, event, e, tested);
      AfterCheckpoint(inst.history, dropped.history, WriteLine(i, files, dropped, event, e, tested).instance.history, event);
    } else if e.fault.AtCheckpoint? {
      ThenNothing(dropped.history, event);
      AfterCheckpoint(inst.history, dropped.history, dropped.history, event);
    } else {
      WriteLineGoesOn(i, Append(files, line), kept, event, e, tested);
      AfterCheckpoint(inst.history, kept.history, WriteLine(i, Append(files, line), kept, event, e, tested).instance.history, event);
    }
  }

  lemma ThenNothing(history: seq<Tick>, event: RowEvent)
    ensures GoesOn(history, history, event)
  {
  }

  lemma AfterCheckpoint(before: seq<Tick>, mid: seq<Tick>, after: seq<Tick>, event: RowEvent)
    requires |mid| == |before| + 1 && mid[..|before|] == before && mid[|before|].event.Checkpoint? && !event.Checkpoint?
    requires GoesOn(mid, after, event)
    ensures GoesOn(before, after, event)
  {
    assert forall k :: 0 <= k < |before| ==> mid[k] == mid[..|before|][k];
  }

  lemma EmitGoesOn(i: nat, files: Files, inst: Instance, event: RowEvent, e: Emission)
    requires !event.Checkpoint?
    ensures GoesOn(inst.history, Emit(i, files, inst, event, e).instance.history, event)
  {
    hide Encoded, Bytes, WriteLine, WriteAfterRotation, Append;
    var tested := Encoded(e.payload, inst.sequence + 1);
    WriteLineGoesOn(i, files, inst, event, e, tested);
    RotationGoesOn(i, files.(older := files.newer, newer := []), inst, event, e, tested);
  }

  lemma EmitKeepsFailed(i: nat, files: Files, inst: Instance, event: RowEvent, e: Emission)
    ensures Emit(i, files, inst, event, e).instance.failed == inst.failed
  {
    hide Encoded, Bytes, CheckpointOf, Append;
  }

  /** An emitted and settled row keeps failures unique, if it reports none or a new one that is then flagged. */
  lemma SettledFailsOnce(i: nat, files: Files, inst: Instance, event: RowEvent, e: Emission, live: Active, failed: set<nat>)
    requires FailsOnce(inst) && !event.Checkpoint? && inst.failed <= failed
    requires event.RequestFailed? ==> event.id !in inst.failed && event.id in failed
    ensures FailsOnce(Settle(Emit(i, files, inst, event, e).instance, live).(failed := failed))
  {
    hide Emit;
    var out := Emit(i, files, inst, event, e).instance;
    EmitGoesOn(i, files, inst, event, e);
    var settled := Settle(out, live).history;
    assert |settled| == |out.history| && forall k :: 0 <= k < |settled| ==> settled[k].event == out.history[k].event;
    var n := |inst.history|;
    forall j, k | 0 <= j < k < |settled| && settled[j].event.RequestFailed? ensures settled[j].event != settled[k].event {
      if k >= n && j < n {
        assert inst.history[j].event == settled[j].event && settled[j].event.id in inst.failed;
      }
    }
  }

  lemma HandleFailsOnce(i: nat, files: Files, inst: Instance, event: NodeEvent, e: Emission, f: Emission)
    requires FailsOnce(inst)
    ensures FailsOnce(Handle(i, files, inst, event, e, f).instance)
  {
    hide Emit, FailsOnce;
    var next := Handle(i, files, inst, event, e, f).instance;
    match event
    case RequestErrored(id) => FailOnce(i, files, inst, id, e);
    case ResponseClosed(id, finished) =>
      var failed := if finished then Emitted(files, inst, false) else Fail(i, files, inst, id, e);
      FailOnce(i, files, inst, id, e);
      var out := Emit(i, failed.files, failed.instance, RequestTeardown(id), f).instance;
      EmitKeepsFailed(i, failed.files, failed.instance, RequestTeardown(id), f);
      SettledFailsOnce(i, failed.files, failed.instance, RequestTeardown(id), f, failed.instance.live, failed.instance.failed);
      FailsOnceIs(Settle(out, failed.instance.live).(failed := failed.instance.failed), next);
    case _ =>
      var row := RowsFor(inst, event)[0];
      EmitKeepsFailed(i, files, inst, row, e);
      SettledFailsOnce(i, files, inst, row, e, next.live, inst.failed);
      FailsOnceIs(Settle(Emit(i, files, inst, row, e).instance, next.live).(failed := inst.failed), next);
  }

  /** Only the events and the flags count. */
  lemma FailsOnceIs(a: Instance, b: Instance)
    requires FailsOnce(a) && a.failed == b.failed && |a.history| == |b.history|
    requires forall k :: 0 <= k < |a.history| ==> a.history[k].event == b.history[k].event
    ensures FailsOnce(b)
  {
  }

  lemma FailOnce(i: nat, files: Files, inst: Instance, id: nat, e: Emission)
    requires FailsOnce(inst)
    ensures FailsOnce(Fail(i, files, inst, id, e).instance)
  {
    hide Emit, FailsOnce;
    if id !in inst.failed {
      SettledFailsOnce(i, files, inst, RequestFailed(id), e, inst.live - {id}, inst.failed + {id});
    }
  }

  /** Over any run, with any errors, no process writes two failure rows for one request. */
  lemma {:induction false} RunFailsOnce(run: seq<Happening>, n: nat, i: nat)
    requires n <= |run| && i in ObservedAt(run, n).instances
    ensures FailsOnce(ObservedAt(run, n).instances[i])
  {
    hide Handle, FailsOnce;
    var s, h := ObservedAt(run, n - 1), run[n - 1];
    if i in s.instances {
      RunFailsOnce(run, n - 1, i);
    } else {
      assert FailsOnce(NEW_INSTANCE) by { NoFailures(); }
    }
    if Enabled(s, h) && h.instance == i {
      var inst := if h.event.ProcessStarted? then NEW_INSTANCE else s.instances[i];
      HandleFailsOnce(i, s.files, inst, h.event, h.first, h.second);
    }
  }

  lemma NoFailures()
    ensures FailsOnce(NEW_INSTANCE)
  {
  }

  /** So among the rows that are left of it there is at most one failure row for a request. */
  lemma OneFailureRow(run: seq<Happening>, n: nat, i: nat, x: nat, y: nat)
    requires n <= |run| && i in ObservedAt(run, n).instances
    requires var rows := RetainedRows(ObservedAt(run, n).files, i);
             x < |rows| && y < |rows| && rows[x].event.RequestFailed? && rows[x].event == rows[y].event
    ensures x == y
  {
    hide ObservedAt, ObservedInv, TickRows, RetainedRows;
    var s := ObservedAt(run, n);
    var history, rows := s.instances[i].history, RetainedRows(s.files, i);
    RunKeeps(run, n);
    RunFailsOnce(run, n, i);
    var lost := RetainedIsSuffix(s, i);
    TickRowsSound(i, history);
    var a, b := TickRows(i, history)[lost + x], TickRows(i, history)[lost + y];
    assert rows[x] == a && rows[y] == b;
    assert history[a.sequence - 1].event == history[b.sequence - 1].event;
    assert a.sequence == b.sequence;
  }
}
