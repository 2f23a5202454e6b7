/**
 * The durable cell that holds the record, the optimistic load / reduce /
 * compare-and-swap loop every worker runs against it, and the system of any
 * number of workers interleaving those steps. The lock makes creation and swap
 * atomic; the load of a retry is a step of its own.
 */
module MachineOperationStore {
  import opened Basics
  import opened MachineConvergence
  import opened ConvergenceInvariants
  import opened ConvergenceRuns

  const MAX_ATTEMPTS: nat := 20

  /** A swap that went through: who did it, for which event, what it wrote and handed out. */
  datatype Entry = Entry(worker: nat, event: Event, after: Record, effects: seq<Effect>)

  datatype Outcome =
    | Swapped(record: Record, effects: seq<Effect>)
    | Reported(result: Result)
    | RecordMissing
    | CasExhausted

  /** since and until count the swaps gone through when a call began and returned. */
  datatype Worker =
    | Loading(event: Event, attempt: nat, since: nat)
    | Swapping(event: Event, attempt: nat, since: nat, seen: Record)
    | Returned(outcome: Outcome, since: nat, until: nat)

  datatype System = System(created: Option<Record>, cell: Option<Record>, log: seq<Entry>, workers: map<nat, Worker>)

  datatype Action =
    | Accept(identity: Identity, acceptance: Acceptance, origin: Process)
    | Call(worker: nat, event: Event)
    | Load(worker: nat)
    | Swap(worker: nat)

  const EMPTY: System := System(None, None, [], map[])

  function Put(s: System, w: nat, worker: Worker): System {
    s.(workers := s.workers[w := worker])
  }

  function LoadStep(s: System, w: nat, call: Worker): System
    requires call.Loading?
  {
    if s.cell.None? then Put(s, w, Returned(RecordMissing, call.since, |s.log|))
    else
      var seen := s.cell.value;
      var result := Reduce(seen, seen.phaseVersion, call.event);
      if result.Applied? then Put(s, w, Swapping(call.event, call.attempt, call.since, seen))
      else Put(s, w, Returned(Reported(result), call.since, |s.log|))
  }

  function SwapStep(s: System, w: nat, call: Worker): System
    requires call.Swapping?
  {
    var result := Reduce(call.seen, call.seen.phaseVersion, call.event);
    if s.cell.None? || !result.Applied? then Put(s, w, Returned(RecordMissing, call.since, |s.log|))
    else if s.cell.value.phaseVersion != call.seen.phaseVersion then
      if call.attempt + 1 < MAX_ATTEMPTS then Put(s, w, Loading(call.event, call.attempt + 1, call.since))
      else Put(s, w, Returned(CasExhausted, call.since, |s.log|))
    else
      Put(s.(cell := Some(result.record), log := s.log + [Entry(w, call.event, result.record, result.effects)]),
          w, Returned(Swapped(result.record, result.effects), call.since, |s.log| + 1))
  }

  /** One step of the system; a step that is not enabled changes nothing. */
  function Step(s: System, a: Action): System {
    match a
    case Accept(identity, acceptance, origin) =>
      if s.cell.Some? then s
      else
        var record := CreateRecord(identity, acceptance, origin);
        s.(created := Some(record), cell := Some(record))
    case Call(w, event) =>
      if w in s.workers && !s.workers[w].Returned? then s else Put(s, w, Loading(event, 0, |s.log|))
    case Load(w) => if w in s.workers && s.workers[w].Loading? then LoadStep(s, w, s.workers[w]) else s
    case Swap(w) => if w in s.workers && s.workers[w].Swapping? then SwapStep(s, w, s.workers[w]) else s
  }

  function SystemAt(run: seq<Action>, n: nat): System
    requires n <= |run|
  {
    if n == 0 then EMPTY else Step(SystemAt(run, n - 1), run[n - 1])
  }

  // ----- Invariant -----

  /** The durable record after k swaps. */
  function History(s: System, k: nat): Record
    requires s.created.Some? && k <= |s.log|
  {
    if k == 0 then s.created.value else s.log[k - 1].after
  }

  ghost predicate Fresh(r: Record) {
    Inv(r) && r.phase == Accepted && r.phaseVersion == 0 && r.effectIntents == [] && r.observedTargetGeneration == None
  }

  ghost predicate GoodRecord(s: System, k: nat)
    requires s.created.Some? && k <= |s.log|
  {
    Inv(History(s, k)) && History(s, k).phaseVersion == k
  }

  ghost predicate GoodEntry(s: System, k: nat)
    requires s.created.Some? && k < |s.log|
  {
    Reduce(History(s, k), k, s.log[k].event) == Applied(s.log[k].after, s.log[k].effects)
  }

  /** The log is one sequential run of the reducer from the created record, and the cell shows its end. */
  ghost predicate LogInv(s: System) {
    && (s.created.None? ==> s.cell.None? && s.log == [])
    && (s.created.Some? ==>
          && Fresh(s.created.value)
          && s.cell == Some(History(s, |s.log|))
          && (forall k {:trigger GoodRecord(s, k)} :: 0 <= k <= |s.log| ==> GoodRecord(s, k))
          && (forall k {:trigger GoodEntry(s, k)} :: 0 <= k < |s.log| ==> GoodEntry(s, k)))
  }

  /** No swap of worker w went through between the two counts. */
  ghost predicate OnlyOthers(log: seq<Entry>, w: nat, since: nat, until: nat) {
    since <= until <= |log| && forall i :: since <= i < until ==> log[i].worker != w
  }

  ghost predicate WorkerInv(s: System, w: nat, worker: Worker) {
    match worker
    case Loading(event, attempt, since) =>
      attempt < MAX_ATTEMPTS && since + attempt <= |s.log| && OnlyOthers(s.log, w, since, |s.log|)
    case Swapping(event, attempt, since, seen) =>
      && attempt < MAX_ATTEMPTS && OnlyOthers(s.log, w, since, |s.log|)
      && s.created.Some? && 0 <= seen.phaseVersion <= |s.log| && seen == History(s, seen.phaseVersion)
      && since + attempt <= seen.phaseVersion
      && Reduce(seen, seen.phaseVersion, event).Applied?
    case Returned(outcome, since, until) =>
      && since <= until <= |s.log|
      && (outcome.CasExhausted? ==> since + MAX_ATTEMPTS <= until && OnlyOthers(s.log, w, since, until))
      && (outcome.Swapped? ==> since < until && s.log[until - 1].worker == w
                               && s.log[until - 1].after == outcome.record
                               && s.log[until - 1].effects == outcome.effects)
      && (outcome.Reported? ==> s.created.Some? && !outcome.result.Applied? && outcome.result.record == History(s, until))
      && (outcome.RecordMissing? ==> until == 0)
  }

  ghost predicate SysInv(s: System) {
    LogInv(s) && forall w :: w in s.workers ==> WorkerInv(s, w, s.workers[w])
  }

  /** What may change while other workers move on: the log grows. */
  ghost predicate Extends(s: System, t: System) {
    && s.log <= t.log
    && (s.created.Some? ==> t.created == s.created)
    && (s.log != t.log ==> |t.log| == |s.log| + 1)
  }

  /** A worker that is not the one swapping keeps its invariant. */
  lemma WorkerFrame(s: System, t: System, w: nat, worker: Worker)
    requires WorkerInv(s, w, worker) && Extends(s, t)
    requires s.log != t.log ==> t.log[|s.log|].worker != w || worker.Returned?
    ensures WorkerInv(t, w, worker)
  {
    hide Reduce;
  }

  lemma LogFrame(s: System, t: System)
    requires LogInv(s) && t.created == s.created && t.cell == s.cell && t.log == s.log
    ensures LogInv(t)
  {
    hide Reduce, Inv;
    if s.created.Some? {
      forall k: nat | k <= |t.log| ensures GoodRecord(t, k) {
        assert GoodRecord(s, k);
      }
      forall k: nat | k < |t.log| ensures GoodEntry(t, k) {
        assert GoodEntry(s, k);
      }
    }
  }

  /** Put together: the log is fine, the moving worker is fine, all others only saw the log grow. */
  lemma SystemFrame(s: System, t: System, w: nat)
    requires SysInv(s) && LogInv(t) && Extends(s, t)
    requires t.workers.Keys == s.workers.Keys + {w}
    requires forall v :: v in s.workers && v != w ==> t.workers[v] == s.workers[v]
    requires WorkerInv(t, w, t.workers[w])
    requires s.log != t.log ==> t.log[|s.log|].worker == w
    ensures SysInv(t)
  {
    hide WorkerInv, LogInv;
    forall v | v in t.workers ensures WorkerInv(t, v, t.workers[v]) {
      if v != w {
        WorkerFrame(s, t, v, s.workers[v]);
      }
    }
  }

  lemma SwapExtendsLog(s: System, w: nat, call: Worker)
    requires LogInv(s) && call.Swapping? && WorkerInv(s, w, call)
    requires s.cell.Some? && s.cell.value.phaseVersion == call.seen.phaseVersion
    ensures call.seen == s.cell.value
    ensures LogInv(SwapStep(s, w, call))
  {
    hide Reduce, Inv;
    var t := SwapStep(s, w, call);
    assert GoodRecord(s, |s.log|);
    assert call.seen.phaseVersion == |s.log|;
    assert call.seen == s.cell.value;
    var result := Reduce(call.seen, call.seen.phaseVersion, call.event);
    assert Inv(result.record) && result.record.phaseVersion == |s.log| + 1 by {
      ReduceStep(call.seen, call.seen.phaseVersion, call.event);
      SoundParts(call.seen, result);
    }
    forall k: nat | k <= |t.log| ensures GoodRecord(t, k) {
      if k <= |s.log| {
        assert GoodRecord(s, k) && History(t, k) == History(s, k);
      }
    }
    forall k: nat | k < |t.log| ensures GoodEntry(t, k) {
      assert History(t, k) == History(s, k);
      if k < |s.log| {
        assert GoodEntry(s, k);
      }
    }
  }

  lemma SoundParts(r: Record, result: Result)
    requires Sound(r, result)
    ensures Inv(result.record) && result.record.phaseVersion == r.phaseVersion + 1
  {
  }

  lemma LoadKeeps(s: System, w: nat)
    requires SysInv(s) && w in s.workers && s.workers[w].Loading?
    ensures SysInv(LoadStep(s, w, s.workers[w])) && Extends(s, LoadStep(s, w, s.workers[w]))
  {
    hide Reduce, Inv;
    var t := LoadStep(s, w, s.workers[w]);
    LogFrame(s, t);
    if s.cell.Some? {
      UnappliedKeeps(s.cell.value, s.cell.value.phaseVersion, s.workers[w].event);
      assert GoodRecord(s, |s.log|);
    }
    SystemFrame(s, t, w);
  }

  lemma SwapKeeps(s: System, w: nat)
    requires SysInv(s) && w in s.workers && s.workers[w].Swapping?
    ensures SysInv(SwapStep(s, w, s.workers[w])) && Extends(s, SwapStep(s, w, s.workers[w]))
  {
    hide Reduce, Inv;
    var call := s.workers[w];
    var t := SwapStep(s, w, call);
    if s.cell.value.phaseVersion == call.seen.phaseVersion {
      SwapExtendsLog(s, w, call);
    } else {
      LogFrame(s, t);
      assert GoodRecord(s, |s.log|);
    }
    SystemFrame(s, t, w);
  }

  lemma AcceptKeeps(s: System, a: Action)
    requires SysInv(s) && a.Accept?
    ensures SysInv(Step(s, a)) && Extends(s, Step(s, a))
  {
    hide Reduce;
    CreatedInv(a.identity, a.acceptance, a.origin);
    var t := Step(s, a);
    forall w | w in t.workers ensures WorkerInv(t, w, t.workers[w]) {
      WorkerFrame(s, t, w, s.workers[w]);
    }
  }

  lemma CallKeeps(s: System, a: Action)
    requires SysInv(s) && a.Call?
    ensures SysInv(Step(s, a)) && Extends(s, Step(s, a))
  {
    hide Reduce, Inv;
    var t := Step(s, a);
    if t != s {
      LogFrame(s, t);
      SystemFrame(s, t, a.worker);
    }
  }

  lemma StepKeeps(s: System, a: Action)
    requires SysInv(s)
    ensures SysInv(Step(s, a)) && Extends(s, Step(s, a))
  {
    hide Reduce, Inv, LogInv, WorkerInv, LoadStep, SwapStep;
    match a
    case Accept(_, _, _) => AcceptKeeps(s, a);
    case Call(_, _) => CallKeeps(s, a);
    case Load(w) =>
      if w in s.workers && s.workers[w].Loading? {
        LoadKeeps(s, w);
      }
    case Swap(w) =>
      if w in s.workers && s.workers[w].Swapping? {
        SwapKeeps(s, w);
      }
  }

  lemma {:induction false} SystemKeeps(run: seq<Action>, n: nat)
    requires n <= |run|
    ensures SysInv(SystemAt(run, n))
  {
    hide Step, SysInv;
    if n == 0 {
      EmptyInv();
    } else {
      SystemKeeps(run, n - 1);
      StepKeeps(SystemAt(run, n - 1), run[n - 1]);
    }
  }

  lemma EmptyInv()
    ensures SysInv(EMPTY)
  {
  }

  // ----- Main results -----

  /** Over a whole interleaving the log only grows and the created record stays. */
  lemma {:induction false} LogOnlyGrows(run: seq<Action>, m: nat, n: nat)
    requires m <= n <= |run|
    ensures SystemAt(run, m).log <= SystemAt(run, n).log
    ensures SystemAt(run, m).created.Some? ==> SystemAt(run, n).created == SystemAt(run, m).created
  {
    hide Step, SysInv;
    if m < n {
      LogOnlyGrows(run, m, n - 1);
      SystemKeeps(run, n - 1);
      StepKeeps(SystemAt(run, n - 1), run[n - 1]);
    }
  }

  /** The inputs of the sequential run that the log stands for. */
  function Inputs(log: seq<Entry>): (inputs: seq<Input>)
    ensures |inputs| == |log|
    ensures forall k :: 0 <= k < |log| ==> inputs[k] == Input(k, log[k].event)
  {
    seq(|log|, k requires 0 <= k < |log| => Input(k, log[k].event))
  }

  lemma {:induction false} LogIsRun(s: System, k: nat)
    requires LogInv(s) && s.created.Some? && k <= |s.log|
    ensures StateAt(s.created.value, Inputs(s.log), k) == History(s, k)
  {
    hide Reduce, Inv;
    assert GoodRecord(s, k);
    if k > 0 {
      LogIsRun(s, k - 1);
      assert GoodEntry(s, k - 1);
    }
  }

  /**
   * No lost update: for any number of workers and any interleaving, the durable
   * record is what one sequential run of the reducer makes of the created record,
   * with every swapped event applied, in the order of the swaps, to the version
   * it was computed from.
   */
  lemma DurableRecordIsSequentialRun(run: seq<Action>, n: nat)
    requires n <= |run| && SystemAt(run, n).cell.Some?
    ensures var s := SystemAt(run, n);
            && s.created.Some? && Fresh(s.created.value)
            && s.cell == Some(StateAt(s.created.value, Inputs(s.log), |s.log|))
            && (forall k :: 0 <= k < |s.log| ==> AppliedAt(s.created.value, Inputs(s.log), k))
  {
    hide Step, Reduce, Inv;
    SystemKeeps(run, n);
    var s := SystemAt(run, n);
    LogIsRun(s, |s.log|);
    forall k | 0 <= k < |s.log| ensures AppliedAt(s.created.value, Inputs(s.log), k) {
      LogIsRun(s, k);
      assert GoodEntry(s, k);
    }
  }

  /** At any two moments, cells with equal phase versions hold equal records. */
  lemma SameVersionSameRecord(run: seq<Action>, m: nat, n: nat)
    requires m <= n <= |run| && SystemAt(run, m).cell.Some? && SystemAt(run, n).cell.Some?
    requires SystemAt(run, m).cell.value.phaseVersion == SystemAt(run, n).cell.value.phaseVersion
    ensures SystemAt(run, m).cell == SystemAt(run, n).cell
  {
    hide Step, Reduce, Inv;
    SystemKeeps(run, m);
    SystemKeeps(run, n);
    LogOnlyGrows(run, m, n);
    assert GoodRecord(SystemAt(run, m), |SystemAt(run, m).log|);
    assert GoodRecord(SystemAt(run, n), |SystemAt(run, n).log|);
  }

  /** All effects returned with successful swaps, in the order of the swaps. */
  function SwappedEffects(log: seq<Entry>): seq<Effect> {
    if log == [] then [] else SwappedEffects(log[..|log| - 1]) + log[|log| - 1].effects
  }

  lemma {:induction false} LogEffects(s: System, k: nat)
    requires LogInv(s) && s.created.Some? && k <= |s.log|
    ensures History(s, k).effectIntents == SwappedEffects(s.log[..k])
  {
    hide Reduce, Inv;
    if k > 0 {
      LogEffects(s, k - 1);
      assert s.log[..k][..k - 1] == s.log[..k - 1];
      assert GoodRecord(s, k - 1) && GoodEntry(s, k - 1);
      ReduceStep(History(s, k - 1), k - 1, s.log[k - 1].event);
    }
  }

  /**
   * Across all workers, the effects returned with successful swaps are exactly the
   * intents on the durable record, and no effect key is ever handed out twice.
   */
  lemma EffectsHandedOutOnce(run: seq<Action>, n: nat)
    requires n <= |run| && SystemAt(run, n).cell.Some?
    ensures var s := SystemAt(run, n);
            && s.cell.value.effectIntents == SwappedEffects(s.log)
            && DistinctKeys(SwappedEffects(s.log))
  {
    hide Step, Reduce, StopIntentInv;
    SystemKeeps(run, n);
    var s := SystemAt(run, n);
    LogEffects(s, |s.log|);
    assert GoodRecord(s, |s.log|);
    assert s.log[..|s.log|] == s.log;
  }

  /** Across all workers no claim epoch is granted twice: of two granted claims the later swap has the higher epoch. */
  lemma EpochsGrantedOnceToAll(run: seq<Action>, n: nat, a: nat, b: nat)
    requires n <= |run| && a < b < |SystemAt(run, n).log|
    requires SystemAt(run, n).log[a].event.Claim? && SystemAt(run, n).log[b].event.Claim?
    ensures SystemAt(run, n).log[a].event.claimEpoch < SystemAt(run, n).log[b].event.claimEpoch
  {
    hide SystemAt, StateAt, Reduce, Inv, AppliedAt;
    var s := SystemAt(run, n);
    SwapsNeedRecord(run, n);
    DurableRecordIsSequentialRun(run, n);
    EpochsGrantedOnce(s.created.value, Inputs(s.log), a, b);
  }

  lemma SwapsNeedRecord(run: seq<Action>, n: nat)
    requires n <= |run| && SystemAt(run, n).log != []
    ensures SystemAt(run, n).cell.Some?
  {
    hide SystemAt, Step, Inv, Reduce;
    SystemKeeps(run, n);
  }

  /** This swap hands out a stop of the old service. */
  ghost predicate HandsOutStop(entry: Entry) {
    exists k :: 0 <= k < |entry.effects| && entry.effects[k].kind == StopOldService
  }

  /** Only a stop request hands out a stop. */
  lemma StopsComeFromRequests(r: Record, expected: int, event: Event, k: nat)
    requires Reduce(r, expected, event).Applied? && k < |Reduce(r, expected, event).effects|
    requires Reduce(r, expected, event).effects[k].kind == StopOldService
    ensures event.RequestOldServiceStop?
  {
  }

  lemma EntryOf(run: seq<Action>, n: nat, a: nat)
    requires n <= |run| && a < |SystemAt(run, n).log|
    ensures var s := SystemAt(run, n);
            && s.created.Some? && Inv(s.created.value) && s.cell.Some?
            && ResultAt(s.created.value, Inputs(s.log), a) == Applied(s.log[a].after, s.log[a].effects)
  {
    hide SystemAt, Step, Inv, Reduce;
    SystemKeeps(run, n);
    var s := SystemAt(run, n);
    LogIsRun(s, a);
    assert GoodEntry(s, a);
  }

  /**
   * Across all workers the stop of the old service is handed out by at most one swap, so
   * to one worker, with both legs present and for the service captured at acceptance.
   */
  lemma StopHandedToOneWorker(run: seq<Action>, n: nat, a: nat, b: nat)
    requires n <= |run| && a < |SystemAt(run, n).log| && b < |SystemAt(run, n).log|
    requires HandsOutStop(SystemAt(run, n).log[a]) && HandsOutStop(SystemAt(run, n).log[b])
    ensures var s := SystemAt(run, n);
            && a == b && s.log[a].event.RequestOldServiceStop? && s.created.Some?
            && var r := StateAt(s.created.value, Inputs(s.log), a);
               && r.coordinator.Some? && r.standby.Some? && CapturedService(r) == Some(s.log[a].event.source)
               && s.log[a].effects == [StopEffect(r, s.log[a].event.source)]
  {
    hide SystemAt, StateAt, Reduce, Inv;
    var s := SystemAt(run, n);
    StopEntry(run, n, a);
    StopEntry(run, n, b);
    StopAppliedOnce(s.created.value, Inputs(s.log), a, b);
  }

  lemma StopEntry(run: seq<Action>, n: nat, a: nat)
    requires n <= |run| && a < |SystemAt(run, n).log| && HandsOutStop(SystemAt(run, n).log[a])
    ensures var s := SystemAt(run, n);
            && s.created.Some? && Inv(s.created.value) && StopsAt(s.created.value, Inputs(s.log), a)
            && ResultAt(s.created.value, Inputs(s.log), a).effects == s.log[a].effects
  {
    hide SystemAt, StateAt, Reduce, Inv;
    EntryOf(run, n, a);
    var s := SystemAt(run, n);
    var k :| 0 <= k < |s.log[a].effects| && s.log[a].effects[k].kind == StopOldService;
    StopsComeFromRequests(StateAt(s.created.value, Inputs(s.log), a), a, s.log[a].event, k);
  }

  /**
   * A call gives up only if at least twenty swaps of other workers went through
   * while it ran, and none of its own.
   */
  lemma ExhaustionNeedsInterference(run: seq<Action>, n: nat, w: nat)
    requires n <= |run| && w in SystemAt(run, n).workers
    requires SystemAt(run, n).workers[w].Returned? && SystemAt(run, n).workers[w].outcome == CasExhausted
    ensures var s := SystemAt(run, n);
            var call := s.workers[w];
            && call.since + 20 <= call.until <= |s.log|
            && forall i :: call.since <= i < call.until ==> s.log[i].worker != w
  {
    hide Step, LogInv;
    SystemKeeps(run, n);
  }

  // ----- Calls come to an end -----

  predicate Begins(s: System, a: Action, w: nat) {
    a.Call? && a.worker == w && (w in s.workers ==> s.workers[w].Returned?)
  }

  predicate TriesSwap(s: System, a: Action, w: nat) {
    a.Swap? && a.worker == w && w in s.workers && s.workers[w].Swapping?
  }

  /** The swaps worker w has tried in its latest call. */
  function SwapsTried(run: seq<Action>, n: nat, w: nat): nat
    requires n <= |run|
  {
    if n == 0 then 0
    else
      var s, a := SystemAt(run, n - 1), run[n - 1];
      if Begins(s, a, w) then 0 else SwapsTried(run, n - 1, w) + if TriesSwap(s, a, w) then 1 else 0
  }

  /** A call that goes on has tried fewer than twenty swaps; it gives up after exactly twenty. */
  lemma {:induction false} CallsEnd(run: seq<Action>, n: nat, w: nat)
    requires n <= |run| && w in SystemAt(run, n).workers
    ensures var call, tried := SystemAt(run, n).workers[w], SwapsTried(run, n, w);
            && (!call.Returned? ==> tried == call.attempt < 20)
            && (call.Returned? && call.outcome.CasExhausted? ==> tried == 20)
            && (call.Returned? && call.outcome.Swapped? ==> 1 <= tried <= 20)
  {
    hide Step, Begins, TriesSwap;
    var s, a := SystemAt(run, n - 1), run[n - 1];
    if w in s.workers {
      CallsEnd(run, n - 1, w);
    }
    WorkerStep(s, a, w);
  }

  /** What a step does to the attempts of worker w. */
  lemma WorkerStep(s: System, a: Action, w: nat)
    requires w in Step(s, a).workers
    ensures var next := Step(s, a).workers[w];
            && (Begins(s, a, w) ==> next.Loading? && next.attempt == 0)
            && (!Begins(s, a, w) ==> w in s.workers)
            && (TriesSwap(s, a, w) ==> s.workers[w].Swapping?)
            && (TriesSwap(s, a, w) ==>
                  var was := s.workers[w].attempt;
                  && !Begins(s, a, w)
                  && (!next.Returned? ==> next.attempt == was + 1 < 20)
                  && (next.Returned? && next.outcome.CasExhausted? ==> was + 1 >= 20))
            && (!Begins(s, a, w) && !TriesSwap(s, a, w) ==>
                  || next == s.workers[w]
                  || (s.workers[w].Loading? && !next.Returned? && next.attempt == s.workers[w].attempt)
                  || (next.Returned? && !next.outcome.CasExhausted? && !next.outcome.Swapped?))
  {
    hide Reduce;
  }

  /** A swap goes through exactly when the cell still holds the record the call loaded, and then returns its effects. */
  lemma SwapGoesThroughIff(run: seq<Action>, n: nat, w: nat)
    requires n < |run| && run[n] == Swap(w) && TriesSwap(SystemAt(run, n), run[n], w)
    ensures var s, t := SystemAt(run, n), SystemAt(run, n + 1);
            var call := s.workers[w];
            var result := Reduce(call.seen, call.seen.phaseVersion, call.event);
            && result.Applied?
            && (s.cell == Some(call.seen) ==>
                  t.cell == Some(result.record) && t.workers[w].Returned?
                  && t.workers[w].outcome == Swapped(result.record, result.effects))
            && (s.cell != Some(call.seen) ==> t.cell == s.cell && t.log == s.log)
  {
    hide Reduce, Inv;
    SystemKeeps(run, n);
    var s := SystemAt(run, n);
    assert WorkerInv(s, w, s.workers[w]);
    if s.created.Some? {
      assert GoodRecord(s, |s.log|);
    }
  }
}
