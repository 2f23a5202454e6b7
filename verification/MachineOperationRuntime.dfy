/**
 * The store as an object over a durable cell, and the retry loop as it is
 * written. What other workers do to the cell between two steps of the loop is an
 * argument of the method, and everything they can do is of that form.
 */
module MachineOperationRuntime {
  import opened Basics
  import opened MachineConvergence
  import opened ConvergenceInvariants
  import opened ConvergenceRuns
  import opened ConvergenceProgress
  import opened MachineOperationStore

  datatype SwapOutcome = SwapApplied(record: Record) | SwapStale(record: Record) | SwapMissing

  class OperationStore {
    var cell: Option<Record>

    constructor ()
      ensures cell == None
    {
      cell := None;
    }

    method ReadCell() returns (record: Option<Record>)
      ensures record == cell
    {
      record := cell;
    }

    method CreateIfAbsent(record: Record) returns (created: bool, stored: Record)
      modifies this
      ensures created <==> old(cell).None?
      ensures cell == Some(stored)
      ensures stored == if created then record else old(cell).value
    {
      if cell.Some? {
        created, stored := false, cell.value;
      } else {
        cell := Some(record);
        created, stored := true, record;
      }
    }

    /** Writes only over the version it was computed from. */
    method CompareAndSwap(expectedPhaseVersion: int, next: Record) returns (outcome: SwapOutcome)
      modifies this
      ensures old(cell).None? ==> outcome == SwapMissing && cell == None
      ensures old(cell).Some? && old(cell).value.phaseVersion != expectedPhaseVersion ==>
                outcome == SwapStale(old(cell).value) && cell == old(cell)
      ensures old(cell).Some? && old(cell).value.phaseVersion == expectedPhaseVersion ==>
                outcome == SwapApplied(next) && cell == Some(next)
    {
      if cell.None? {
        outcome := SwapMissing;
      } else if cell.value.phaseVersion != expectedPhaseVersion {
        outcome := SwapStale(cell.value);
      } else {
        cell := Some(next);
        outcome := SwapApplied(next);
      }
    }
  }

  /** Accepting is idempotent: the first record stays, a replay returns it, another identity is refused. */
  method AcceptDurable(store: OperationStore, identity: Identity, acceptance: Acceptance, origin: Process)
    returns (result: Result)
    modifies store
    ensures old(store.cell).Some? ==> store.cell == old(store.cell)
    ensures old(store.cell).None? ==> store.cell == Some(CreateRecord(identity, acceptance, origin))
    ensures result.record == store.cell.value
    ensures result.IdentityConflict? <==> store.cell.value.identity != identity
    ensures !result.Rejected?
  {
    var incoming := CreateRecord(identity, acceptance, origin);
    var created, stored := store.CreateIfAbsent(incoming);
    result := AcceptOperation(if created then None else Some(stored), incoming);
  }

  /** The record moved on by other workers: reachable, and unchanged only if the version is. */
  ghost predicate MovedOn(r: Record, q: Record) {
    && Inv(q) && Reaches(r, q)
    && r.phaseVersion <= q.phaseVersion
    && (q.phaseVersion == r.phaseVersion ==> q == r)
  }

  lemma MovedOnStep(r: Record, q: Record, event: Event)
    requires Inv(r) && MovedOn(r, q)
    ensures MovedOn(r, Next(q, event))
    ensures Reduce(q, q.phaseVersion, event).Applied? ==> Next(q, event).phaseVersion == q.phaseVersion + 1
  {
    hide Reduce, Reaches, Inv;
    var n := Go(q, event);
    ReachesTransitive(r, q, n);
    ReduceStep(q, q.phaseVersion, event);
  }

  lemma MovedOnTransitive(p: Record, q: Record, r: Record)
    requires MovedOn(p, q) && MovedOn(q, r)
    ensures MovedOn(p, r)
  {
    hide Reaches, Inv;
    ReachesTransitive(p, q, r);
  }

  // ----- What others can do to the cell -----

  /** A change of the cell by another worker: accepting an operation, or a reduction that is swapped in. */
  datatype Act = Accepts(identity: Identity, acceptance: Acceptance, origin: Process) | Reduces(event: Event)

  function ActOn(cell: Option<Record>, act: Act): Option<Record> {
    match act
    case Accepts(identity, acceptance, origin) =>
      if cell.Some? then cell else Some(CreateRecord(identity, acceptance, origin))
    case Reduces(event) => if cell.None? then None else Some(Next(cell.value, event))
  }

  function ActsOn(cell: Option<Record>, acts: seq<Act>): Option<Record> {
    if acts == [] then cell else ActOn(ActsOn(cell, acts[..|acts| - 1]), acts[|acts| - 1])
  }

  /** The cell went on from one content to another along one sequential history. */
  ghost predicate CellMoved(a: Option<Record>, b: Option<Record>) {
    && (b.Some? ==> Inv(b.value))
    && (a.Some? ==> b.Some? && MovedOn(a.value, b.value))
    && (a.None? && b.Some? ==> MovedOnFromFresh(b.value))
  }

  ghost predicate MovedOnFromFresh(q: Record) {
    exists r :: Fresh(r) && MovedOn(r, q)
  }

  lemma CellStays(a: Option<Record>)
    requires a.Some? ==> Inv(a.value)
    ensures CellMoved(a, a)
  {
    hide Reaches, Inv;
    if a.Some? {
      ReachesItself(a.value);
    }
  }

  lemma CellMovedTransitive(a: Option<Record>, b: Option<Record>, c: Option<Record>)
    requires CellMoved(a, b) && CellMoved(b, c)
    ensures CellMoved(a, c)
  {
    hide MovedOn, Inv, Fresh;
    if a.Some? {
      MovedOnTransitive(a.value, b.value, c.value);
    } else if b.Some? {
      var r :| Fresh(r) && MovedOn(r, b.value);
      MovedOnTransitive(r, b.value, c.value);
    }
  }

  lemma ActMoves(cell: Option<Record>, act: Act)
    requires cell.Some? ==> Inv(cell.value)
    ensures CellMoved(cell, ActOn(cell, act))
  {
    hide Reduce, Reaches;
    CellStays(cell);
    match act
    case Accepts(identity, acceptance, origin) =>
      if cell.None? {
        var r := CreateRecord(identity, acceptance, origin);
        CreatedInv(identity, acceptance, origin);
        ReachesItself(r);
        assert Fresh(r) && MovedOn(r, r);
      }
    case Reduces(event) =>
      if cell.Some? {
        ReachesItself(cell.value);
        MovedOnStep(cell.value, cell.value, event);
      }
  }

  /** Every step of the system of workers is such an act, or leaves the cell alone. */
  lemma StepIsAct(s: System, a: Action) returns (acts: seq<Act>)
    requires SysInv(s)
    ensures ActsOn(s.cell, acts) == Step(s, a).cell
  {
    acts := [];
    if a.Accept? {
      acts := [Accepts(a.identity, a.acceptance, a.origin)];
    } else if a.Swap? && a.worker in s.workers && s.workers[a.worker].Swapping? {
      var call := s.workers[a.worker];
      if Step(s, a).cell != s.cell {
        SwapSeesCell(s, a.worker);
        acts := [Reduces(call.event)];
      }
    }
    OneAct(s.cell, acts);
  }

  lemma OneAct(cell: Option<Record>, acts: seq<Act>)
    ensures ActsOn(cell, []) == cell && (|acts| == 1 ==> ActsOn(cell, acts) == ActOn(cell, acts[0]))
  {
    hide ActOn;
    assert |acts| == 1 ==> acts[..0] == [];
  }

  /** A swap that goes through finds the very record it was computed from. */
  lemma SwapSeesCell(s: System, w: nat)
    requires SysInv(s) && w in s.workers && s.workers[w].Swapping? && s.cell.Some?
    ensures s.cell.value.phaseVersion == s.workers[w].seen.phaseVersion ==> s.cell.value == s.workers[w].seen
  {
    hide Reduce, Inv;
    assert WorkerInv(s, w, s.workers[w]);
    assert GoodRecord(s, |s.log|);
  }

  /** So between any two moments of any interleaving the cell changes by a sequence of acts. */
  lemma {:induction false} StepsAreActs(run: seq<Action>, m: nat, n: nat) returns (acts: seq<Act>)
    requires m <= n <= |run|
    ensures ActsOn(SystemAt(run, m).cell, acts) == SystemAt(run, n).cell
  {
    hide Step, ActOn;
    if m == n {
      acts := [];
    } else {
      var before := StepsAreActs(run, m, n - 1);
      SystemKeeps(run, n - 1);
      var last := StepIsAct(SystemAt(run, n - 1), run[n - 1]);
      acts := before + last;
      ActsConcat(SystemAt(run, m).cell, before, last);
    }
  }

  lemma {:induction false} ActsConcat(cell: Option<Record>, a: seq<Act>, b: seq<Act>)
    ensures ActsOn(cell, a + b) == ActsOn(ActsOn(cell, a), b)
  {
    hide ActOn;
    if b == [] {
      assert a + b == a;
    } else {
      ActsConcat(cell, a, b[..|b| - 1]);
      assert (a + b)[..|a + b| - 1] == a + b[..|b| - 1];
    }
  }

  /** Other workers do these things to the cell. */
  method OthersAct(store: OperationStore, acts: seq<Act>)
    requires store.cell.Some? ==> Inv(store.cell.value)
    modifies store
    ensures store.cell == ActsOn(old(store.cell), acts) && CellMoved(old(store.cell), store.cell)
  {
    hide ActOn, Inv, MovedOn, MovedOnFromFresh;
    CellStays(store.cell);
    for i := 0 to |acts|
      invariant store.cell == ActsOn(old(store.cell), acts[..i]) && CellMoved(old(store.cell), store.cell)
    {
      assert acts[..i + 1][..i] == acts[..i];
      ghost var before := store.cell;
      ActMoves(before, acts[i]);
      store.cell := ActOn(store.cell, acts[i]);
      CellMovedTransitive(old(store.cell), before, store.cell);
    }
    assert acts[..|acts|] == acts;
  }

  // ----- The retry loop -----

  /** What others do in the first k attempts. */
  function ActsUpTo(before: seq<seq<Act>>, between: seq<seq<Act>>, k: nat): seq<Act>
    requires k <= |before| && k <= |between|
  {
    if k == 0 then [] else ActsUpTo(before, between, k - 1) + before[k - 1] + between[k - 1]
  }

  /** The cell as attempt k loads it, if none before it was swapped in. */
  function Loaded(cell: Option<Record>, before: seq<seq<Act>>, between: seq<seq<Act>>, k: nat): Option<Record>
    requires k < |before| && k < |between|
  {
    ActsOn(cell, ActsUpTo(before, between, k) + before[k])
  }

  /** The cell as attempt k finds it when it swaps. */
  function AtSwap(cell: Option<Record>, before: seq<seq<Act>>, between: seq<seq<Act>>, k: nat): Option<Record>
    requires k < |before| && k < |between|
  {
    ActsOn(cell, ActsUpTo(before, between, k + 1))
  }

  /** Attempt k has a transition to swap in, and another worker's transition came first. */
  ghost predicate Overtaken(cell: Option<Record>, event: Event, before: seq<seq<Act>>, between: seq<seq<Act>>, k: nat)
    requires k < |before| && k < |between|
  {
    var seen, now := Loaded(cell, before, between, k), AtSwap(cell, before, between, k);
    && seen.Some? && now.Some?
    && Reduce(seen.value, seen.value.phaseVersion, event).Applied?
    && now.value.phaseVersion > seen.value.phaseVersion
  }

  /** Attempt k returns this and leaves the cell like this. */
  ghost predicate Returns(cell: Option<Record>, event: Event, before: seq<seq<Act>>, between: seq<seq<Act>>, k: nat,
                          outcome: Outcome, final: Option<Record>)
    requires k < |before| && k < |between|
  {
    var seen := Loaded(cell, before, between, k);
    if seen.None? then outcome == RecordMissing && final == None
    else
      var result := Reduce(seen.value, seen.value.phaseVersion, event);
      if !result.Applied? then outcome == Reported(result) && final == seen
      else
        && AtSwap(cell, before, between, k) == seen
        && outcome == Swapped(result.record, result.effects)
        && final == ActsOn(cell, ActsUpTo(before, between, k + 1) + [Reduces(event)]) == Some(result.record)
  }

  function Version(cell: Option<Record>): int {
    if cell.Some? then cell.value.phaseVersion else 0
  }

  lemma VersionsGrow(a: Option<Record>, b: Option<Record>)
    requires CellMoved(a, b)
    ensures Version(a) <= Version(b)
  {
    hide Reaches, Inv;
  }

  lemma VersionGrows(a: Option<Record>, b: Option<Record>)
    requires CellMoved(a, b) && a.Some?
    ensures b.Some? && a.value.phaseVersion <= b.value.phaseVersion
    ensures a.value.phaseVersion == b.value.phaseVersion ==> a == b
  {
    hide Reaches, Inv;
  }

  /** The transition of the call as one more act. */
  lemma OwnAct(cell: Option<Record>, acts: seq<Act>, seen: Record, event: Event)
    requires ActsOn(cell, acts) == Some(seen)
    ensures ActsOn(cell, acts + [Reduces(event)]) == Some(Reduce(seen, seen.phaseVersion, event).record)
  {
    hide Reduce;
    assert (acts + [Reduces(event)])[..|acts|] == acts;
  }

  /**
   * The retry loop, under whatever other workers do to the cell before each load and
   * between each load and swap. The first attempt that is not overtaken returns: it
   * reports a missing record or the reducer's answer on the record it loaded, or swaps its
   * transition in over exactly that record, so that the cell ends as all acts so far make
   * it, in order, and no update is lost. Only when all twenty attempts are overtaken does
   * the call give up, with nothing of its own in the cell.
   */
  method ReduceDurable(store: OperationStore, event: Event, before: seq<seq<Act>>, between: seq<seq<Act>>)
    returns (outcome: Outcome)
    requires store.cell.Some? ==> Inv(store.cell.value)
    requires |before| == MAX_ATTEMPTS && |between| == MAX_ATTEMPTS
    modifies store
    ensures !outcome.CasExhausted? ==>
              exists k :: 0 <= k < MAX_ATTEMPTS && Returns(old(store.cell), event, before, between, k, outcome, store.cell)
                          && forall j :: 0 <= j < k ==> Overtaken(old(store.cell), event, before, between, j)
    ensures outcome.CasExhausted? ==>
              && (forall j :: 0 <= j < MAX_ATTEMPTS ==> Overtaken(old(store.cell), event, before, between, j))
              && store.cell == ActsOn(old(store.cell), ActsUpTo(before, between, MAX_ATTEMPTS))
              && Version(store.cell) >= Version(old(store.cell)) + MAX_ATTEMPTS
    ensures CellMoved(old(store.cell), store.cell)
  {
    hide Reduce, Reaches, Inv, ActOn, ActsOn, MovedOn, MovedOnFromFresh;
    ghost var start := store.cell;
    CellStays(start);
    NoActs(start);
    for attempt := 0 to MAX_ATTEMPTS
      invariant CellMoved(start, store.cell)
      invariant store.cell == ActsOn(start, ActsUpTo(before, between, attempt))
      invariant forall j :: 0 <= j < attempt ==> Overtaken(start, event, before, between, j)
      invariant Version(store.cell) >= Version(start) + attempt
    {
      ghost var top := store.cell;
      OthersAct(store, before[attempt]);
      ActsConcat(start, ActsUpTo(before, between, attempt), before[attempt]);
      CellMovedTransitive(start, top, store.cell);
      VersionsGrow(top, store.cell);
      var current := store.ReadCell();
      if current.None? {
        outcome := RecordMissing;
        assert Returns(start, event, before, between, attempt, outcome, store.cell);
        return;
      }
      var seen := current.value;
      var result := Reduce(seen, seen.phaseVersion, event);
      if !result.Applied? {
        outcome := Reported(result);
        assert Returns(start, event, before, between, attempt, outcome, store.cell);
        return;
      }
      OthersAct(store, between[attempt]);
      ActsConcat(start, ActsUpTo(before, between, attempt) + before[attempt], between[attempt]);
      CellMovedTransitive(start, current, store.cell);
      VersionGrows(current, store.cell);
      var swapped := store.CompareAndSwap(seen.phaseVersion, result.record);
      if swapped.SwapApplied? {
        OwnAct(start, ActsUpTo(before, between, attempt + 1), seen, event);
        OwnMoves(current, event);
        CellMovedTransitive(start, current, store.cell);
        outcome := Swapped(swapped.record, result.effects);
        assert Returns(start, event, before, between, attempt, outcome, store.cell);
        return;
      }
      if swapped.SwapMissing? {
        return RecordMissing;
      }
      assert Overtaken(start, event, before, between, attempt);
    }
    return CasExhausted;
  }

  lemma NoActs(cell: Option<Record>)
    ensures ActsOn(cell, []) == cell
  {
  }

  lemma OwnMoves(cell: Option<Record>, event: Event)
    requires cell.Some? && Inv(cell.value)
    ensures CellMoved(cell, Some(Reduce(cell.value, cell.value.phaseVersion, event).record))
  {
    hide Reduce, Inv, MovedOn;
    ActMoves(cell, Reduces(event));
  }
}
