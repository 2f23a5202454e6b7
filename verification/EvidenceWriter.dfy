/**
 * The writer and the observer as objects: a slot whose two segments are rotated
 * and appended to, and an observer whose counters, flags and live map change with
 * every event. Each method is proved to do what the value model does.
 */
module EvidenceWriter {
  import opened Basics
  import opened TransportEvidence

  class Slot {
    var older: seq<Line>
    var newer: seq<Line>
    ghost var written: seq<Line>

    constructor ()
      ensures Contents() == Files([], [], [])
    {
      older, newer, written := [], [], [];
    }

    ghost function Contents(): Files
      reads this
    {
      Files(older, newer, written)
    }

    method AppendLine(line: Line)
      modifies this
      ensures Contents() == Append(old(Contents()), line)
    {
      newer := newer + [line];
      written := written + [line];
    }

    method Size() returns (bytes: nat)
      ensures bytes == Bytes(newer)
    {
      bytes := 0;
      for x := 0 to |newer|
        invariant bytes == Bytes(newer[..x])
      {
        assert newer[..x + 1][..x] == newer[..x];
        bytes := bytes + newer[x].bytes;
      }
      assert newer[..|newer|] == newer;
    }
  }

  class ApiObserver {
    const id: nat
    const slot: Slot
    var sequence: nat
    var disabled: bool
    var active: Active
    var nextRequestId: nat
    var failed: set<nat>
    ghost var finished: set<nat>
    ghost var history: seq<Tick>

    constructor (id: nat, slot: Slot)
      ensures this.id == id && this.slot == slot && State() == NEW_INSTANCE
    {
      this.id, this.slot := id, slot;
      sequence, disabled, active, nextRequestId, failed := 0, false, map[], 0, {};
      finished, history := {}, [];
    }

    ghost function State(): Instance
      reads this
    {
      Instance(sequence, disabled, active, nextRequestId, failed, finished, history)
    }

    /** The files and this process after a step. */
    ghost predicate Now(out: Emitted)
      reads this, slot
    {
      slot.Contents() == out.files && State() == out.instance
    }

    method Number(event: RowEvent, e: Emission, tested: nat, reaches: bool)
      modifies this
      ensures State() == Record(old(State()), event, e, tested, reaches)
    {
      sequence := sequence + 1;
      history := history + [Tick(event, e.time, tested, reaches, active)];
    }

    /** Write the checkpoint into a fresh segment; false means an I/O error. */
    method WriteCheckpoint(e: Emission) returns (ok: bool)
      modifies this, slot
      ensures var inst := old(State());
              var bytes := Encoded(e.checkpointPayload, inst.sequence + 1);
              var written := bytes <= LINE_BYTES && !e.fault.AtCheckpoint?;
              var line := Line(Row(id, inst.sequence + 1, e.time, CheckpointOf(inst.live)), bytes);
              var next := Record(inst, CheckpointOf(inst.live), e, bytes, written);
              && ok == (bytes > LINE_BYTES || written)
              && State() == (if ok then next else next.(disabled := true))
              && slot.Contents() == if written then Append(old(slot.Contents()), line) else old(slot.Contents())
    {
      var bytes := Encoded(e.checkpointPayload, sequence + 1);
      var line := Line(Row(id, sequence + 1, e.time, CheckpointOf(active)), bytes);
      Number(line.row.event, e, bytes, bytes <= LINE_BYTES && !e.fault.AtCheckpoint?);
      ok := true;
      if bytes <= LINE_BYTES {
        if e.fault.AtCheckpoint? {
          disabled := true;
          ok := false;
        } else {
          slot.AppendLine(line);
        }
      }
    }

    method FinishLine(event: RowEvent, e: Emission, tested: nat) returns (ok: bool)
      modifies this, slot
      ensures var out := WriteLine(id, old(slot.Contents()), old(State()), event, e, tested);
              Now(out) && ok == out.ok
    {
      var line := Line(Row(id, sequence + 1, e.time, event), Encoded(e.payload, sequence + 1));
      Number(event, e, tested, !e.fault.AtAppend?);
      if e.fault.AtAppend? {
        disabled := true;
        ok := false;
      } else {
        slot.AppendLine(line);
        ok := true;
      }
    }

    /** Both segments have moved: the checkpoint first, then the line. */
    method FinishRotation(event: RowEvent, e: Emission, tested: nat) returns (ok: bool)
      modifies this, slot
      ensures var out := WriteAfterRotation(id, old(slot.Contents()), old(State()), event, e, tested);
              Now(out) && ok == out.ok
    {
      hide WriteLine, CheckpointOf;
      ok := WriteCheckpoint(e);
      if ok {
        ok := FinishLine(event, e, tested);
      }
    }

    method EmitRow(event: RowEvent, e: Emission) returns (ok: bool)
      modifies this, slot
      ensures var out := Emit(id, old(slot.Contents()), old(State()), event, e);
              Now(out) && ok == out.ok
      ensures active == old(active) && nextRequestId == old(nextRequestId)
      ensures failed == old(failed) && finished == old(finished)
    {
      hide WriteLine, WriteAfterRotation, Bytes, Encoded;
      EmitKeepsRest(id, slot.Contents(), State(), event, e);
      if disabled {
        return false;
      }
      var tested := Encoded(e.payload, sequence + 1);
      if tested > LINE_BYTES {
        Number(event, e, tested, false);
        return false;
      }
      if e.fault.AtStat? {
        disabled := true;
        return false;
      }
      var size := slot.Size();
      if size + tested > SEGMENT_BYTES {
        if e.fault.AtRemove? {
          disabled := true;
          return false;
        }
        slot.older := [];
        if e.fault.AtRename? {
          disabled := true;
          return false;
        }
        slot.older, slot.newer := slot.newer, [];
        ok := FinishRotation(event, e, tested);
      } else {
        ok := FinishLine(event, e, tested);
      }
    }

    /** The handler's update of the live map. */
    method SetActive(live: Active)
      modifies this
      ensures State() == Settle(old(State()), live)
    {
      active := live;
      if !disabled && history != [] {
        var last := |history| - 1;
        history := history[last := history[last].(liveAfter := live)];
      }
    }

    method OnRequest(on: Option<nat>, e: Emission)
      modifies this, slot
      ensures Now(Handle(id, old(slot.Contents()), old(State()), RequestArrived(on), e, e))
    {
      hide Emit;
      var request := nextRequestId + 1;
      var ok := EmitRow(RequestBegin(request, on), e);
      SetActive(if ok then active[request := on] else active);
      nextRequestId := request;
    }

    method OnFailure(request: nat, e: Emission)
      modifies this, slot
      ensures var out := Fail(id, old(slot.Contents()), old(State()), request, e);
              slot.Contents() == out.files && State() == out.instance
    {
      hide Emit;
      if request in failed {
        return;
      }
      failed := failed + {request};
      EmitIgnoresFailed(id, slot.Contents(), State(), old(State()), RequestFailed(request), e);
      var ok := EmitRow(RequestFailed(request), e);
      SetActive(active - {request});
    }

    method OnFinish(request: nat, e: Emission)
      modifies this, slot
      ensures Now(Handle(id, old(slot.Contents()), old(State()), ResponseFinished(request), e, e))
    {
      hide Emit;
      var ok := EmitRow(RequestFinish(request), e);
      SetActive(active - {request});
      finished := finished + {request};
    }

    method OnClose(request: nat, writableFinished: bool, e: Emission, f: Emission)
      modifies this, slot
      ensures Now(Handle(id, old(slot.Contents()), old(State()), ResponseClosed(request, writableFinished), e, f))
    {
      hide Emit, Fail;
      if !writableFinished {
        OnFailure(request, e);
      }
      var ok := EmitRow(RequestTeardown(request), f);
      SetActive(active);
    }

    method OnConnectionClose(connection: nat, e: Emission)
      modifies this, slot
      ensures Now(Handle(id, old(slot.Contents()), old(State()), ConnectionClosed(connection), e, e))
    {
      hide Emit;
      var ok := EmitRow(ConnectionClose(connection), e);
      SetActive(WithoutConnection(active, connection));
    }

    method OnExit(e: Emission)
      modifies this, slot
      ensures Now(Handle(id, old(slot.Contents()), old(State()), ProcessExits, e, e))
    {
      hide Emit;
      var ok := EmitRow(ProcessExit, e);
      SetActive(map[]);
    }
  }

  predicate SameObserver(a: Instance, b: Instance) {
    a.live == b.live && a.requests == b.requests && a.failed == b.failed && a.finished == b.finished
  }

  lemma WriteLineKeepsRest(i: nat, files: Files, inst: Instance, event: RowEvent, e: Emission, tested: nat)
    ensures SameObserver(WriteLine(i, files, inst, event, e, tested).instance, inst)
  {
  }

  lemma RotationKeepsRest(i: nat, files: Files, inst: Instance, event: RowEvent, e: Emission, tested: nat)
    ensures SameObserver(WriteAfterRotation(i, files, inst, event, e, tested).instance, inst)
  {
    hide Encoded, CheckpointOf, WriteLine, Append;
    var checkpoint, bytes := CheckpointOf(inst.live), Encoded(e.checkpointPayload, inst.sequence + 1);
    var line := Line(Row(i, inst.sequence + 1, e.time, checkpoint), bytes);
    if bytes > LINE_BYTES {
      WriteLineKeepsRest(i, files, Record(inst, checkpoint, e, bytes, false), event, e, tested);
    } else {
      WriteLineKeepsRest(i, Append(files, line), Record(inst, checkpoint, e, bytes, true), event, e, tested);
    }
  }

  /** The writer touches neither the live map nor the observer's flags and counter. */
  lemma EmitKeepsRest(i: nat, files: Files, inst: Instance, event: RowEvent, e: Emission)
    ensures SameObserver(Emit(i, files, inst, event, e).instance, inst)
  {
    hide Encoded, WriteAfterRotation, WriteLine, Bytes;
    var tested := Encoded(e.payload, inst.sequence + 1);
    WriteLineKeepsRest(i, files, inst, event, e, tested);
    RotationKeepsRest(i, files.(older := files.newer, newer := []), inst, event, e, tested);
  }

  /** The result of a call with other failure flags in the instance. */
  function Refailed(out: Emitted, failed: set<nat>): Emitted {
    out.(instance := out.instance.(failed := failed))
  }

  lemma WriteLineIgnoresFailed(i: nat, files: Files, b: Instance, failed: set<nat>, event: RowEvent, e: Emission, tested: nat)
    ensures WriteLine(i, files, b.(failed := failed), event, e, tested)
            == Refailed(WriteLine(i, files, b, event, e, tested), failed)
  {
    hide Encoded;
  }

  lemma RotationIgnoresFailed(i: nat, files: Files, b: Instance, failed: set<nat>, event: RowEvent, e: Emission, tested: nat)
    ensures WriteAfterRotation(i, files, b.(failed := failed), event, e, tested)
            == Refailed(WriteAfterRotation(i, files, b, event, e, tested), failed)
  {
    hide Encoded, CheckpointOf, WriteLine;
    var checkpoint, bytes := CheckpointOf(b.live), Encoded(e.checkpointPayload, b.sequence + 1);
    var line := Line(Row(i, b.sequence + 1, e.time, checkpoint), bytes);
    if bytes > LINE_BYTES {
      WriteLineIgnoresFailed(i, files, Record(b, checkpoint, e, bytes, false), failed, event, e, tested);
    } else {
      WriteLineIgnoresFailed(i, Append(files, line), Record(b, checkpoint, e, bytes, true), failed, event, e, tested);
    }
  }

  /** The writer does not look at the failure flags. */
  lemma EmitIgnoresFailed(i: nat, files: Files, a: Instance, b: Instance, event: RowEvent, e: Emission)
    requires a == b.(failed := a.failed)
    ensures Emit(i, files, a, event, e) == Refailed(Emit(i, files, b, event, e), a.failed)
  {
    hide Encoded, WriteAfterRotation, WriteLine, Bytes;
    var tested := Encoded(e.payload, b.sequence + 1);
    WriteLineIgnoresFailed(i, files, b, a.failed, event, e, tested);
    RotationIgnoresFailed(i, files.(older := files.newer, newer := []), b, a.failed, event, e, tested);
  }
}
