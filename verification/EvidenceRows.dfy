/**
 * How long the observer's rows are. Every row is one JSON object with a fixed frame and
 * a few fields, so as long as its numbers are safe integers no row and no checkpoint
 * comes near the limit of a line.
 */
module EvidenceRows {
  import opened Basics
  import opened TransportEvidence

  const UUID_BYTES: nat := 36
  const TIME_BYTES: nat := 24
  const TRACE_BYTES: nat := 32

  /** No safe integer has more digits. */
  const NUMBER_DIGITS: nat := 16

  /** The frame of every row, without run id, instance id, process id, number, time and event name. */
  const FRAME: string := "{\"version\":1,\"runId\":\"\",\"instanceId\":\"\",\"pid\":,\"sequence\":,\"time\":\"\",\"event\":\"\"}\n"

  /** What a row holds besides its event and its number. began gives the time at which a request began. */
  datatype Details = Details(
    pid: nat, connection: Option<nat>, traced: bool, code: Option<string>, status: nat, exitCode: nat,
    flag: bool, began: nat -> nat)

  /** A comma, or an opening brace, the key and a number. */
  function NumberField(key: string, n: nat): nat {
    |key| + 4 + |Digits(n)|
  }

  function OptionalField(key: string, n: Option<nat>): nat {
    if n.Some? then NumberField(key, n.value) else 0
  }

  function TextField(key: string, length: nat): nat {
    |key| + 6 + length
  }

  function FlagField(key: string, flag: bool): nat {
    |key| + 4 + if flag then 4 else 5
  }

  function RequestFields(id: nat, d: Details): nat {
    NumberField("apiRequestId", id) + OptionalField("connectionId", d.connection)
    + if d.traced then TextField("traceId", TRACE_BYTES) else 0
  }

  function EntryBytes(r: Request, d: Details): nat {
    NumberField("apiRequestId", r.id) + OptionalField("connectionId", r.connection)
    + NumberField("beganAtEpochMs", d.began(r.id)) + 1
  }

  /** The entries of a checkpoint with commas between them. */
  function Entries(requests: seq<Request>, d: Details): nat {
    if requests == [] then 0
    else
      var init := requests[..|requests| - 1];
      Entries(init, d) + EntryBytes(requests[|requests| - 1], d) + if init == [] then 0 else 1
  }

  function EventName(event: RowEvent): string {
    match event
    case ProcessStart => "process_start"
    case ProcessExit => "process_exit"
    case ConnectionOpen(_) => "connection_open"
    case ConnectionClose(_) => "connection_close"
    case RequestBegin(_, _) => "api_request_begin"
    case RequestFinish(_) => "api_request_finish"
    case RequestFailed(_) => "api_request_failed"
    case RequestTeardown(_) => "api_request_teardown"
    case Checkpoint(_, _) => "api_occupancy_checkpoint"
  }

  function Fields(event: RowEvent, d: Details): nat {
    match event
    case ProcessStart => 0
    case ProcessExit => NumberField("exitCode", d.exitCode)
    case ConnectionOpen(c) => NumberField("connectionId", c)
    case ConnectionClose(c) => NumberField("connectionId", c) + FlagField("hadError", d.flag)
    case RequestBegin(id, _) => RequestFields(id, d)
    case RequestFinish(id) => RequestFields(id, d) + NumberField("status", d.status)
    case RequestFailed(id) => RequestFields(id, d) + if d.code.Some? then TextField("code", |d.code.value|) else 0
    case RequestTeardown(id) => RequestFields(id, d) + FlagField("finished", d.flag)
    case Checkpoint(requests, truncated) =>
      |"activeRequests"| + 6 + Entries(requests, d) + NumberField("activeTruncated", truncated)
  }

  /** The bytes of a row without the digits of its number. */
  function RowPayload(event: RowEvent, d: Details): nat {
    |FRAME| + 2 * UUID_BYTES + TIME_BYTES + |Digits(d.pid)| + |EventName(event)| + Fields(event, d)
  }

  // ----- Bounds -----

  function PowerOfTen(k: nat): nat {
    if k == 0 then 1 else 10 * PowerOfTen(k - 1)
  }

  lemma {:induction false} DigitsAtMost(n: nat, k: nat)
    requires k > 0 && n < PowerOfTen(k)
    ensures |Digits(n)| <= k
  {
    if n >= 10 {
      DigitsAtMost(n / 10, k - 1);
    }
  }

  predicate Exact(n: nat) {
    n < PowerOfTen(NUMBER_DIGITS)
  }

  lemma ExactDigits(n: nat)
    requires Exact(n)
    ensures |Digits(n)| <= NUMBER_DIGITS
  {
    hide PowerOfTen;
    DigitsAtMost(n, NUMBER_DIGITS);
  }

  predicate ExactRequest(r: Request, d: Details) {
    Exact(r.id) && (r.connection.Some? ==> Exact(r.connection.value)) && Exact(d.began(r.id))
  }

  predicate ExactEvent(event: RowEvent, d: Details) {
    match event
    case ProcessStart => true
    case ProcessExit => true
    case ConnectionOpen(c) => Exact(c)
    case ConnectionClose(c) => Exact(c)
    case RequestBegin(id, _) => Exact(id)
    case RequestFinish(id) => Exact(id)
    case RequestFailed(id) => Exact(id)
    case RequestTeardown(id) => Exact(id)
    case Checkpoint(requests, truncated) =>
      && |requests| <= CHECKPOINT_LIMIT && Exact(truncated)
      && forall k :: 0 <= k < |requests| ==> ExactRequest(requests[k], d)
  }

  /** A row the observer can encode: safe integers, allow-listed error codes. */
  predicate Encodable(event: RowEvent, d: Details) {
    && ExactEvent(event, d)
    && Exact(d.pid) && Exact(d.status) && Exact(d.exitCode) && (d.connection.Some? ==> Exact(d.connection.value))
    && (d.code.Some? ==>
          d.code.value in {"ECONNRESET", "EPIPE", "ETIMEDOUT", "ECONNREFUSED", "EADDRINUSE", "unknown"})
  }

  lemma EntryBound(r: Request, d: Details)
    requires ExactRequest(r, d)
    ensures EntryBytes(r, d) <= 99
  {
    hide Exact, Digits;
    ExactDigits(r.id);
    ExactDigits(d.began(r.id));
    if r.connection.Some? {
      ExactDigits(r.connection.value);
    }
  }

  lemma {:induction false} EntriesBound(requests: seq<Request>, d: Details)
    requires forall k :: 0 <= k < |requests| ==> ExactRequest(requests[k], d)
    ensures Entries(requests, d) <= 100 * |requests|
  {
    hide EntryBytes, ExactRequest;
    if requests != [] {
      EntriesBound(requests[..|requests| - 1], d);
      EntryBound(requests[|requests| - 1], d);
    }
  }

  lemma RequestFieldsBound(id: nat, d: Details)
    requires Exact(id) && (d.connection.Some? ==> Exact(d.connection.value))
    ensures RequestFields(id, d) <= 109
  {
    hide Exact, Digits;
    ExactDigits(id);
    if d.connection.Some? {
      ExactDigits(d.connection.value);
    }
  }

  lemma FieldsBound(event: RowEvent, d: Details)
    requires Encodable(event, d)
    ensures Fields(event, d) <= if event.Checkpoint? then 1656 else 140
  {
    hide Exact, Digits, Entries, RequestFields;
    ExactDigits(d.status);
    ExactDigits(d.exitCode);
    match event
    case ProcessStart =>
    case ProcessExit =>
    case ConnectionOpen(c) => ExactDigits(c);
    case ConnectionClose(c) => ExactDigits(c);
    case RequestBegin(id, _) => RequestFieldsBound(id, d);
    case RequestFinish(id) => RequestFieldsBound(id, d);
    case RequestFailed(id) => RequestFieldsBound(id, d);
    case RequestTeardown(id) => RequestFieldsBound(id, d);
    case Checkpoint(requests, truncated) =>
      EntriesBound(requests, d);
      ExactDigits(truncated);
  }

  /** With any safe number a row is far below the limit of a line, and so is a full checkpoint. */
  lemma RowsAreShort(event: RowEvent, d: Details, number: nat)
    requires Encodable(event, d) && Exact(number)
    ensures Encoded(RowPayload(event, d), number) <= if event.Checkpoint? then 1900 else 400
  {
    hide Exact, Digits, Fields, ExactEvent;
    FieldsBound(event, d);
    ExactDigits(d.pid);
    ExactDigits(number);
    assert |FRAME| <= 90;
    assert |EventName(event)| <= 24;
  }
}
