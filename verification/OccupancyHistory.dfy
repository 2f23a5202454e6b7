/**
 * What every event of an observed process keeps: the history of its sequence numbers
 * explains its live map, and a full checkpoint holds the map at its moment.
 */
module OccupancyHistory {
  import opened TransportEvidence

  /** How a row changes the set of requests being served, as a reader understands it. */
  function Apply(active: Active, event: RowEvent): Active {
    match event
    case RequestBegin(id, on) => active[id := on]
    case RequestFinish(id) => active - {id}
    case RequestFailed(id) => active - {id}
    case RequestTeardown(id) => active - {id}
    case ConnectionClose(connection) => WithoutConnection(active, connection)
    case ProcessExit => map[]
    case _ => active
  }

  /** The live map before number k + 1 was used. */
  function Before(history: seq<Tick>, k: nat): Active
    requires k <= |history|
  {
    if k == 0 then map[] else history[k - 1].liveAfter
  }

  /** A written number explains the change of the live map; a complete checkpoint holds the map. */
  ghost predicate TickOk(history: seq<Tick>, k: nat)
    requires k < |history|
  {
    && (history[k].written ==> history[k].liveAfter == Apply(Before(history, k), history[k].event))
    && (history[k].event.Checkpoint? && history[k].event.truncated == 0 ==>
          FromList(history[k].event.requests) == Before(history, k))
  }

  ghost predicate HistoryOk(history: seq<Tick>) {
    forall k {:trigger TickOk(history, k)} :: 0 <= k < |history| ==> TickOk(history, k)
  }

  ghost predicate InstInv(inst: Instance) {
    && |inst.history| == inst.sequence
    && HistoryOk(inst.history)
    && (!inst.disabled ==> inst.live == Before(inst.history, |inst.history|))
    && (forall id :: id in inst.live ==> 1 <= id <= inst.requests && id !in inst.failed && id !in inst.finished)
    && (forall id :: id in inst.failed || id in inst.finished ==> 1 <= id <= inst.requests)
  }

  /** Adding one number to a history. */
  lemma HistoryGrows(history: seq<Tick>, tick: Tick)
    requires HistoryOk(history)
    requires tick.written ==> tick.liveAfter == Apply(Before(history, |history|), tick.event)
    requires tick.event.Checkpoint? && tick.event.truncated == 0 ==>
               FromList(tick.event.requests) == Before(history, |history|)
    ensures HistoryOk(history + [tick])
  {
    var more := history + [tick];
    forall k: nat | k < |more| ensures TickOk(more, k) {
      assert Before(more, k) == Before(history, k);
      if k < |history| {
        assert TickOk(history, k);
      }
    }
  }

  /** The history one call leaves behind, before the handler settles the live map. */
  ghost predicate Advanced(inst: Instance, out: Emitted, event: RowEvent) {
    var h := out.instance.history;
    && out.instance.live == inst.live && out.instance.requests == inst.requests
    && out.instance.failed == inst.failed && out.instance.finished == inst.finished
    && |h| == out.instance.sequence
    && (out.ok ==> !out.instance.disabled)
    && (!out.instance.disabled ==>
          && |h| > 0 && h[|h| - 1].event == event && h[|h| - 1].written == out.ok
          && HistoryOk(h[..|h| - 1]) && Before(h, |h| - 1) == inst.live)
    && (out.instance.disabled ==> HistoryOk(h))
  }

  lemma WriteLineAdvances(i: nat, files: Files, inst: Instance, event: RowEvent, e: Emission, tested: nat)
    requires |inst.history| == inst.sequence && HistoryOk(inst.history) && !inst.disabled && !event.Checkpoint?
    requires Before(inst.history, |inst.history|) == inst.live
    ensures Advanced(inst, WriteLine(i, files, inst, event, e, tested), event)
  {
    var h := inst.history + [Tick(event, e.time, tested, !e.fault.AtAppend?, inst.live)];
    assert h[..|h| - 1] == inst.history;
    if e.fault.AtAppend? {
      HistoryGrows(inst.history, h[|h| - 1]);
    }
  }

  lemma CheckpointAdvances(inst: Instance, e: Emission, bytes: nat, written: bool)
    requires |inst.history| == inst.sequence && HistoryOk(inst.history)
    requires Before(inst.history, |inst.history|) == inst.live
    ensures var next := Record(inst, CheckpointOf(inst.live), e, bytes, written);
            && |next.history| == next.sequence && HistoryOk(next.history)
            && Before(next.history, |next.history|) == next.live
  {
    CheckpointIsLive(inst.live);
    HistoryGrows(inst.history, Tick(CheckpointOf(inst.live), e.time, bytes, written, inst.live));
  }

  lemma EmitAdvances(i: nat, files: Files, inst: Instance, event: RowEvent, e: Emission)
    requires InstInv(inst) && !event.Checkpoint?
    ensures Advanced(inst, Emit(i, files, inst, event, e), event)
  {
    var tested := Encoded(e.payload, inst.sequence + 1);
    if inst.disabled {
    } else if tested > LINE_BYTES {
      var h := Record(inst, event, e, tested, false).history;
      assert h[..|h| - 1] == inst.history;
    } else if e.fault.AtStat? {
    } else if Bytes(files.newer) + tested <= SEGMENT_BYTES {
      WriteLineAdvances(i, files, inst, event, e, tested);
    } else if !e.fault.AtRemove? && !e.fault.AtRename? {
      var rotated := files.(older := files.newer, newer := []);
      var bytes := Encoded(e.checkpointPayload, inst.sequence + 1);
      var written := bytes <= LINE_BYTES && !e.fault.AtCheckpoint?;
      CheckpointAdvances(inst, e, bytes, written);
      var next := Record(inst, CheckpointOf(inst.live), e, bytes, written);
      var line := Line(Row(i, inst.sequence + 1, e.time, CheckpointOf(inst.live)), bytes);
      if bytes > LINE_BYTES {
        WriteLineAdvances(i, rotated, next, event, e, tested);
      } else if !e.fault.AtCheckpoint? {
        WriteLineAdvances(i, Append(rotated, line), next, event, e, tested);
      }
    }
  }

  /** The handler's own update settles the last number used. */
  lemma SettleKeeps(inst: Instance, out: Emitted, event: RowEvent, live: Active)
    requires InstInv(inst) && Advanced(inst, out, event) && !event.Checkpoint?
    requires out.ok ==> live == Apply(inst.live, event)
    ensures var next := Settle(out.instance, live);
            && |next.history| == next.sequence && HistoryOk(next.history) && next.live == live
            && next.disabled == out.instance.disabled
            && (!next.disabled ==> next.live == Before(next.history, |next.history|))
            && next.requests == inst.requests && next.failed == inst.failed && next.finished == inst.finished
  {
    var h := out.instance.history;
    if !out.instance.disabled {
      var last := |h| - 1;
      var tick := h[last].(liveAfter := live);
      assert h[last := tick] == h[..last] + [tick];
      assert Before(h[..last], last) == inst.live;
      HistoryGrows(h[..last], tick);
    }
  }

  /** Shorthand: emit an ordinary row and settle. */
  lemma EmitAndSettle(i: nat, files: Files, inst: Instance, event: RowEvent, e: Emission, live: Active)
    requires InstInv(inst) && !event.Checkpoint?
    requires Emit(i, files, inst, event, e).ok ==> live == Apply(inst.live, event)
    ensures var next := Settle(Emit(i, files, inst, event, e).instance, live);
            && |next.history| == next.sequence && HistoryOk(next.history) && next.live == live
            && (!next.disabled ==> next.live == Before(next.history, |next.history|))
            && next.requests == inst.requests && next.failed == inst.failed && next.finished == inst.finished
  {
    hide Emit;
    EmitAdvances(i, files, inst, event, e);
    SettleKeeps(inst, Emit(i, files, inst, event, e), event, live);
  }

  lemma FailKeeps(i: nat, files: Files, inst: Instance, id: nat, e: Emission)
    requires InstInv(inst) && 1 <= id <= inst.requests
    ensures InstInv(Fail(i, files, inst, id, e).instance)
    ensures id !in Fail(i, files, inst, id, e).instance.live
    ensures Fail(i, files, inst, id, e).instance.requests == inst.requests
  {
    hide Emit, HistoryOk;
    if id !in inst.failed {
      EmitAndSettle(i, files, inst, RequestFailed(id), e, inst.live - {id});
    }
  }

  /** Every event a process can observe keeps its history explained. */
  lemma HandleKeeps(i: nat, files: Files, inst: Instance, event: NodeEvent, e: Emission, f: Emission)
    requires InstInv(inst) && Legal(inst, event)
    ensures InstInv(Handle(i, files, inst, event, e, f).instance)
  {
    hide Emit, HistoryOk, Fail, Settle;
    match event
    case ProcessStarted => EmitAndSettle(i, files, inst, ProcessStart, e, inst.live);
    case ProcessExits => EmitAndSettle(i, files, inst, ProcessExit, e, map[]);
    case ConnectionOpened(c) => EmitAndSettle(i, files, inst, ConnectionOpen(c), e, inst.live);
    case ConnectionClosed(c) =>
      EmitAndSettle(i, files, inst, ConnectionClose(c), e, WithoutConnection(inst.live, c));
    case RequestArrived(on) =>
      var id := inst.requests + 1;
      var live := if Emit(i, files, inst, RequestBegin(id, on), e).ok then inst.live[id := on] else inst.live;
      EmitAndSettle(i, files, inst, RequestBegin(id, on), e, live);
    case RequestErrored(id) => FailKeeps(i, files, inst, id, e);
    case ResponseFinished(id) => EmitAndSettle(i, files, inst, RequestFinish(id), e, inst.live - {id});
    case ResponseClosed(id, writableFinished) =>
      var failed := if writableFinished then Emitted(files, inst, false) else Fail(i, files, inst, id, e);
      if !writableFinished {
        FailKeeps(i, files, inst, id, e);
      }
      assert id !in failed.instance.live;
      assert failed.instance.live - {id} == failed.instance.live;
      EmitAndSettle(i, failed.files, failed.instance, RequestTeardown(id), f, failed.instance.live);
  }
}
