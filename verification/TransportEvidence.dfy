/**
 * The server-side evidence log: every observed process writes numbered rows into
 * one rotating two-segment file and keeps a live map of the API requests it is
 * serving. Rotation writes a checkpoint of that map into the new segment.
 */
module TransportEvidence {
  import opened Basics

  const SEGMENT_BYTES: nat := 256 * 1024
  const LINE_BYTES: nat := 2048
  const CHECKPOINT_LIMIT: nat := 16

  /** Requests being served, by id, each with the connection it came in on. */
  type Active = map<nat, Option<nat>>

  datatype Request = Request(id: nat, connection: Option<nat>)

  datatype RowEvent =
    | ProcessStart
    | ProcessExit
    | ConnectionOpen(connection: nat)
    | ConnectionClose(connection: nat)
    | RequestBegin(id: nat, on: Option<nat>)
    | RequestFinish(id: nat)
    | RequestFailed(id: nat)
    | RequestTeardown(id: nat)
    | Checkpoint(requests: seq<Request>, truncated: nat)

  datatype Row = Row(instance: nat, sequence: nat, time: int, event: RowEvent)

  datatype Line = Line(row: Row, bytes: nat)

  /** older is the rotated segment, newer the one being written; written is every line ever appended. */
  datatype Files = Files(older: seq<Line>, newer: seq<Line>, written: seq<Line>)

  /**
   * One sequence number: what was to be written under it, how long the line was
   * when its length was tested, whether it reached the file, and the live map once
   * the handler that used the number was done.
   */
  datatype Tick = Tick(event: RowEvent, time: int, tested: nat, written: bool, liveAfter: Active)

  /** One observed process. failed and finished are the requests whose handlers ran. */
  datatype Instance = Instance(
    sequence: nat,
    disabled: bool,
    live: Active,
    requests: nat,
    failed: set<nat>,
    finished: set<nat>,
    history: seq<Tick>)

  /** Where an I/O error strikes, if it does. */
  datatype Fault = NoFault | AtStat | AtRemove | AtRename | AtCheckpoint | AtAppend

  /** What one call of the writer depends on besides the event: clock, sizes, errors. */
  datatype Emission = Emission(time: int, payload: nat, checkpointPayload: nat, fault: Fault)

  const NEW_INSTANCE: Instance := Instance(0, false, map[], 0, {}, {}, [])

  /** A line is its payload plus the digits of its sequence number. */
  function Encoded(payload: nat, sequence: nat): nat {
    payload + |Digits(sequence)|
  }

  function Bytes(lines: seq<Line>): nat {
    if lines == [] then 0 else Bytes(lines[..|lines| - 1]) + lines[|lines| - 1].bytes
  }

  // ----- Checkpoints -----

  /** The least member, found by counting up to one that is known. */
  function LeastFrom(s: set<nat>, k: nat, ghost member: nat): (m: nat)
    requires member in s && k <= member
    ensures m in s && k <= m && forall x :: x in s && k <= x ==> m <= x
    decreases member - k
  {
    if k in s then k else LeastFrom(s, k + 1, member)
  }

  function Least(s: set<nat>): (m: nat)
    requires s != {}
    ensures m in s && forall x :: x in s ==> m <= x
  {
    ghost var member :| member in s;
    LeastFrom(s, 0, member)
  }

  /** The active requests sorted by id. */
  function Sorted(active: Active): (requests: seq<Request>)
    ensures |requests| == |active|
    ensures forall i :: 0 <= i < |requests| ==>
              requests[i].id in active && active[requests[i].id] == requests[i].connection
    ensures forall i, j :: 0 <= i < j < |requests| ==> requests[i].id < requests[j].id
    decreases |active|
  {
    if active == map[] then []
    else
      var id := Least(active.Keys);
      var rest := active - {id};
      assert rest.Keys == active.Keys - {id};
      assert |rest| == |active| - 1;
      [Request(id, active[id])] + Sorted(rest)
  }

  function CheckpointOf(active: Active): RowEvent {
    var requests := Sorted(active);
    if |requests| <= CHECKPOINT_LIMIT then Checkpoint(requests, 0)
    else Checkpoint(requests[..CHECKPOINT_LIMIT], |requests| - CHECKPOINT_LIMIT)
  }

  /** The map a reader builds from a checkpoint's list. */
  function FromList(requests: seq<Request>): Active {
    if requests == [] then map[]
    else FromList(requests[..|requests| - 1])[requests[|requests| - 1].id := requests[|requests| - 1].connection]
  }

  function Ids(requests: seq<Request>): set<nat> {
    if requests == [] then {} else Ids(requests[..|requests| - 1]) + {requests[|requests| - 1].id}
  }

  lemma {:induction false} IdsAre(requests: seq<Request>, id: nat)
    ensures id in Ids(requests) <==> exists i :: 0 <= i < |requests| && requests[i].id == id
  {
    if requests != [] {
      var n := |requests| - 1;
      IdsAre(requests[..n], id);
      if id in Ids(requests[..n]) {
        var i :| 0 <= i < n && requests[..n][i].id == id;
        assert requests[i].id == id;
      }
      if i :| 0 <= i < |requests| && requests[i].id == id {
        assert i < n ==> requests[..n][i].id == id;
      }
    }
  }

  lemma {:induction false} FromListKeys(requests: seq<Request>, active: Active)
    requires forall i :: 0 <= i < |requests| ==>
               requests[i].id in active && active[requests[i].id] == requests[i].connection
    ensures FromList(requests).Keys == Ids(requests)
    ensures forall id :: id in FromList(requests) ==> id in active && FromList(requests)[id] == active[id]
  {
    if requests != [] {
      FromListKeys(requests[..|requests| - 1], active);
    }
  }

  lemma {:induction false} DistinctIds(requests: seq<Request>)
    requires forall i, j :: 0 <= i < j < |requests| ==> requests[i].id < requests[j].id
    ensures |Ids(requests)| == |requests|
  {
    if requests != [] {
      var n := |requests| - 1;
      DistinctIds(requests[..n]);
      IdsAre(requests[..n], requests[n].id);
    }
  }

  lemma SubsetOfSameSize(a: set<nat>, b: set<nat>)
    requires a <= b && |a| == |b|
    ensures a == b
  {
    assert |b - a| == |b| - |a|;
  }

  lemma SortedIsLive(active: Active)
    ensures FromList(Sorted(active)) == active
  {
    hide Sorted;
    var requests := Sorted(active);
    FromListKeys(requests, active);
    DistinctIds(requests);
    SubsetOfSameSize(FromList(requests).Keys, active.Keys);
  }

  /** A checkpoint that left nothing out holds exactly the live map. */
  lemma CheckpointIsLive(active: Active)
    ensures |CheckpointOf(active).requests| <= CHECKPOINT_LIMIT
    ensures CheckpointOf(active).truncated == 0 ==> FromList(CheckpointOf(active).requests) == active
  {
    SortedIsLive(active);
  }

  /** The entries are live requests in the order of their ids, the lowest ones, and the rest is counted. */
  lemma CheckpointHolds(active: Active)
    ensures var c := CheckpointOf(active);
            && c.Checkpoint? && |c.requests| + c.truncated == |active|
            && (c.truncated == 0 <==> |active| <= 16)
            && (forall i :: 0 <= i < |c.requests| ==>
                  c.requests[i].id in active && active[c.requests[i].id] == c.requests[i].connection)
            && (forall i, j :: 0 <= i < j < |c.requests| ==> c.requests[i].id < c.requests[j].id)
            && (forall id :: id in active ==>
                  || (exists i :: 0 <= i < |c.requests| && c.requests[i].id == id)
                  || (forall i :: 0 <= i < |c.requests| ==> c.requests[i].id < id))
  {
    hide Sorted;
    var all := Sorted(active);
    forall id | id in active ensures exists i :: 0 <= i < |all| && all[i].id == id {
      FromListKeys(all, active);
      SortedIsLive(active);
      IdsAre(all, id);
    }
  }

  // ----- The writer -----

  function Record(inst: Instance, event: RowEvent, e: Emission, tested: nat, written: bool): Instance {
    inst.(sequence := inst.sequence + 1,
          history := inst.history + [Tick(event, e.time, tested, written, inst.live)])
  }

  function Append(files: Files, line: Line): Files {
    files.(newer := files.newer + [line], written := files.written + [line])
  }

  datatype Emitted = Emitted(files: Files, instance: Instance, ok: bool)

  /** The last part of a call: number the line, append it. */
  function WriteLine(i: nat, files: Files, inst: Instance, event: RowEvent, e: Emission, tested: nat): Emitted {
    if e.fault.AtAppend? then Emitted(files, Record(inst, event, e, tested, false).(disabled := true), false)
    else
      var row := Row(i, inst.sequence + 1, e.time, event);
      Emitted(Append(files, Line(row, Encoded(e.payload, inst.sequence + 1))),
              Record(inst, event, e, tested, true), true)
  }

  /** Rotation has happened: write the checkpoint, if it fits, then the line under the next number. */
  function WriteAfterRotation(i: nat, files: Files, inst: Instance, event: RowEvent, e: Emission, tested: nat): Emitted {
    var checkpoint := CheckpointOf(inst.live);
    var bytes := Encoded(e.checkpointPayload, inst.sequence + 1);
    if bytes > LINE_BYTES then WriteLine(i, files, Record(inst, checkpoint, e, bytes, false), event, e, tested)
    else if e.fault.AtCheckpoint? then
      Emitted(files, Record(inst, checkpoint, e, bytes, false).(disabled := true), false)
    else
      WriteLine(i, Append(files, Line(Row(i, inst.sequence + 1, e.time, checkpoint), bytes)),
                Record(inst, checkpoint, e, bytes, true), event, e, tested)
  }

  /** One call of the evidence writer. */
  function Emit(i: nat, files: Files, inst: Instance, event: RowEvent, e: Emission): Emitted {
    var tested := Encoded(e.payload, inst.sequence + 1);
    if inst.disabled then Emitted(files, inst, false)
    else if tested > LINE_BYTES then Emitted(files, Record(inst, event, e, tested, false), false)
    else if e.fault.AtStat? then Emitted(files, inst.(disabled := true), false)
    else if Bytes(files.newer) + tested <= SEGMENT_BYTES then WriteLine(i, files, inst, event, e, tested)
    else if e.fault.AtRemove? then Emitted(files, inst.(disabled := true), false)
    else if e.fault.AtRename? then Emitted(files.(older := []), inst.(disabled := true), false)
    else WriteAfterRotation(i, files.(older := files.newer, newer := []), inst, event, e, tested)
  }

  // ----- The observer -----

  datatype NodeEvent =
    | ProcessStarted
    | ProcessExits
    | ConnectionOpened(connection: nat)
    | ConnectionClosed(connection: nat)
    | RequestArrived(on: Option<nat>)
    | RequestErrored(id: nat)
    | ResponseFinished(id: nat)
    | ResponseClosed(id: nat, writableFinished: bool)

  function WithoutConnection(active: Active, connection: nat): Active {
    map id | id in active && active[id] != Some(connection) :: active[id]
  }

  /** The live map after the handler; the number the handler used is done with this map. */
  function Settle(inst: Instance, live: Active): Instance {
    if inst.disabled || inst.history == [] then inst.(live := live)
    else
      var last := |inst.history| - 1;
      inst.(live := live, history := inst.history[last := inst.history[last].(liveAfter := live)])
  }

  function Fail(i: nat, files: Files, inst: Instance, id: nat, e: Emission): Emitted {
    if id in inst.failed then Emitted(files, inst, false)
    else
      var out := Emit(i, files, inst, RequestFailed(id), e);
      out.(instance := Settle(out.instance, inst.live - {id}).(failed := inst.failed + {id}))
  }

  /** What the observer does on one event; f is for the second row of a premature close. */
  function Handle(i: nat, files: Files, inst: Instance, event: NodeEvent, e: Emission, f: Emission): Emitted {
    match event
    case ProcessStarted =>
      var out := Emit(i, files, inst, ProcessStart, e);
      out.(instance := Settle(out.instance, inst.live))
    case ProcessExits =>
      var out := Emit(i, files, inst, ProcessExit, e);
      out.(instance := Settle(out.instance, map[]))
    case ConnectionOpened(connection) =>
      var out := Emit(i, files, inst, ConnectionOpen(connection), e);
      out.(instance := Settle(out.instance, inst.live))
    case ConnectionClosed(connection) =>
      var out := Emit(i, files, inst, ConnectionClose(connection), e);
      out.(instance := Settle(out.instance, WithoutConnection(inst.live, connection)))
    case RequestArrived(on) =>
      var id := inst.requests + 1;
      var out := Emit(i, files, inst, RequestBegin(id, on), e);
      out.(instance := Settle(out.instance, if out.ok then inst.live[id := on] else inst.live).(requests := id))
    case RequestErrored(id) => Fail(i, files, inst, id, e)
    case ResponseFinished(id) =>
      var out := Emit(i, files, inst, RequestFinish(id), e);
      out.(instance := Settle(out.instance, inst.live - {id}).(finished := inst.finished + {id}))
    case ResponseClosed(id, writableFinished) =>
      var failed := if writableFinished then Emitted(files, inst, false) else Fail(i, files, inst, id, e);
      var out := Emit(i, failed.files, failed.instance, RequestTeardown(id), f);
      out.(instance := Settle(out.instance, failed.instance.live))
  }

  /** Node's order: handlers run for requests that arrived, and a finished close follows the finish. */
  predicate Legal(inst: Instance, event: NodeEvent) {
    match event
    case RequestErrored(id) => 1 <= id <= inst.requests
    case ResponseFinished(id) => 1 <= id <= inst.requests
    case ResponseClosed(id, writableFinished) => 1 <= id <= inst.requests && (writableFinished ==> id in inst.finished)
    case _ => true
  }
}
