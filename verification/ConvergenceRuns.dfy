/**
 * Whole runs of the reducer: what must have happened before a record can show a
 * phase, which claims and stops were granted, and which effects were handed out.
 */
module ConvergenceRuns {
  import opened Basics
  import opened MachineConvergence
  import opened ConvergenceInvariants

  datatype Input = Input(expectedPhaseVersion: int, event: Event)

  /** The record after n inputs. */
  function StateAt(r0: Record, run: seq<Input>, n: nat): Record
    requires n <= |run|
  {
    if n == 0 then r0
    else Reduce(StateAt(r0, run, n - 1), run[n - 1].expectedPhaseVersion, run[n - 1].event).record
  }

  function ResultAt(r0: Record, run: seq<Input>, n: nat): Result
    requires n < |run|
  {
    Reduce(StateAt(r0, run, n), run[n].expectedPhaseVersion, run[n].event)
  }

  predicate AppliedAt(r0: Record, run: seq<Input>, i: int) {
    0 <= i < |run| && ResultAt(r0, run, i).Applied?
  }

  lemma {:induction false} RunInv(r0: Record, run: seq<Input>, n: nat)
    requires Inv(r0) && n <= |run|
    ensures Inv(StateAt(r0, run, n))
  {
    hide Reduce;
    if n > 0 {
      RunInv(r0, run, n - 1);
      ReduceStep(StateAt(r0, run, n - 1), run[n - 1].expectedPhaseVersion, run[n - 1].event);
    }
  }

  /** One position of a run: the floors are kept and a finalized record stays as it is. */
  lemma StepAt(r0: Record, run: seq<Input>, n: nat)
    requires Inv(r0) && n < |run|
    ensures Inv(StateAt(r0, run, n)) && Inv(StateAt(r0, run, n + 1))
    ensures KeepsFloors(StateAt(r0, run, n), StateAt(r0, run, n + 1))
    ensures StateAt(r0, run, n).phase == Finalized ==> StateAt(r0, run, n + 1) == StateAt(r0, run, n)
    ensures StateAt(r0, run, n + 1).phaseVersion
            == StateAt(r0, run, n).phaseVersion + (if AppliedAt(r0, run, n) then 1 else 0)
  {
    hide Reduce;
    RunInv(r0, run, n);
    RunInv(r0, run, n + 1);
    StepFloors(StateAt(r0, run, n), run[n].expectedPhaseVersion, run[n].event);
  }

  lemma FloorsReflexive(r: Record)
    ensures KeepsFloors(r, r)
  {
  }

  lemma {:induction false} RunKeepsFloors(r0: Record, run: seq<Input>, m: nat, n: nat)
    requires Inv(r0) && m <= n <= |run|
    ensures KeepsFloors(StateAt(r0, run, m), StateAt(r0, run, n))
    ensures StateAt(r0, run, m).phase == Finalized ==> StateAt(r0, run, n) == StateAt(r0, run, m)
  {
    hide Reduce, Inv, KeepsFloors;
    FloorsReflexive(StateAt(r0, run, m));
    if m < n {
      RunKeepsFloors(r0, run, m, n - 1);
      assert KeepsFloors(StateAt(r0, run, n - 1), StateAt(r0, run, n)) by { StepAt(r0, run, n - 1); }
      FloorsTransitive(StateAt(r0, run, m), StateAt(r0, run, n - 1), StateAt(r0, run, n));
      assert StateAt(r0, run, n - 1).phase == Finalized ==> StateAt(r0, run, n) == StateAt(r0, run, n - 1) by {
        StepAt(r0, run, n - 1);
      }
    }
  }

  // ----- Fencing -----

  /** A transition that grants a claim. */
  predicate GrantsAt(r0: Record, run: seq<Input>, i: int) {
    AppliedAt(r0, run, i) && run[i].event.Claim?
  }

  /** No epoch is granted twice: later grants are strictly higher. */
  lemma EpochsGrantedOnce(r0: Record, run: seq<Input>, i: nat, j: nat)
    requires Inv(r0) && i < j && GrantsAt(r0, run, i) && GrantsAt(r0, run, j)
    ensures run[i].event.claimEpoch < run[j].event.claimEpoch
  {
    RunInv(r0, run, i);
    RunInv(r0, run, j);
    ClaimRaisesEpoch(StateAt(r0, run, i), run[i].expectedPhaseVersion, run[i].event);
    RunKeepsFloors(r0, run, i + 1, j);
    ClaimRaisesEpoch(StateAt(r0, run, j), run[j].expectedPhaseVersion, run[j].event);
  }

  predicate StopsAt(r0: Record, run: seq<Input>, i: int) {
    AppliedAt(r0, run, i) && run[i].event.RequestOldServiceStop?
  }

  /** What an applied stop request finds and does. */
  lemma AppliedStop(r: Record, expected: int, event: Event)
    requires Inv(r) && event.RequestOldServiceStop? && Reduce(r, expected, event).Applied?
    ensures r.phase == HandoffArmed && r.coordinator.Some? && r.standby.Some?
    ensures CapturedService(r) == Some(event.source)
    ensures Reduce(r, expected, event).effects == [StopEffect(r, event.source)]
    ensures Reduce(r, expected, event).record.phase == OldServiceStopClaimed
  {
    StopIsHandedOut(r, event.source);
  }

  /** Past an applied stop the phase never drops below the stop claim, so no second stop applies. */
  lemma NoLaterStop(r0: Record, run: seq<Input>, i: nat, n: nat)
    requires Inv(r0) && StopsAt(r0, run, i) && i < n <= |run|
    ensures AtLeast(StateAt(r0, run, n), OldServiceStopClaimed) && !StopsAt(r0, run, n)
  {
    hide Reduce, Inv;
    RunInv(r0, run, i);
    AppliedStop(StateAt(r0, run, i), run[i].expectedPhaseVersion, run[i].event);
    RunKeepsFloors(r0, run, i + 1, n);
    RunInv(r0, run, n);
    if StopsAt(r0, run, n) {
      AppliedStop(StateAt(r0, run, n), run[n].expectedPhaseVersion, run[n].event);
    }
  }

  /**
   * The point of no return: the stop of the old service is applied only with both
   * legs present and only for the captured service, hands out its intent, and no
   * other stop is applied before or after it; from then on the phase stays at or
   * past the stop claim.
   */
  lemma StopAppliedOnce(r0: Record, run: seq<Input>, i: nat, n: nat)
    requires Inv(r0) && StopsAt(r0, run, i) && n <= |run|
    ensures var r := StateAt(r0, run, i);
            && r.coordinator.Some? && r.standby.Some? && CapturedService(r) == Some(run[i].event.source)
            && ResultAt(r0, run, i).effects == [StopEffect(r, run[i].event.source)]
    ensures i < n ==> AtLeast(StateAt(r0, run, n), OldServiceStopClaimed)
    ensures StopsAt(r0, run, n) ==> n == i
  {
    hide Reduce, Inv;
    RunInv(r0, run, i);
    AppliedStop(StateAt(r0, run, i), run[i].expectedPhaseVersion, run[i].event);
    if i < n {
      NoLaterStop(r0, run, i, n);
    } else if n < i && StopsAt(r0, run, n) {
      NoLaterStop(r0, run, n, i);
    }
  }

  // ----- Effects -----

  /** All effects returned by the first n results, in order. */
  function EffectsHandedOut(r0: Record, run: seq<Input>, n: nat): seq<Effect>
    requires n <= |run|
  {
    if n == 0 then []
    else
      var result := ResultAt(r0, run, n - 1);
      EffectsHandedOut(r0, run, n - 1) + (if result.Applied? then result.effects else [])
  }

  lemma IntentsDiffer(r: Record)
    requires Inv(r)
    ensures DistinctKeys(r.effectIntents)
  {
  }

  /** The record remembers exactly the effects handed out since it was created, and no key twice. */
  lemma {:induction false} EffectsAreRecorded(r0: Record, run: seq<Input>, n: nat)
    requires Inv(r0) && n <= |run|
    ensures StateAt(r0, run, n).effectIntents == r0.effectIntents + EffectsHandedOut(r0, run, n)
    ensures DistinctKeys(r0.effectIntents + EffectsHandedOut(r0, run, n))
  {
    hide Reduce, Inv, DistinctKeys, KeepsFloors;
    RunInv(r0, run, n);
    IntentsDiffer(StateAt(r0, run, n));
    if n > 0 {
      EffectsAreRecorded(r0, run, n - 1);
      RunInv(r0, run, n - 1);
      var before, result := EffectsHandedOut(r0, run, n - 1), ResultAt(r0, run, n - 1);
      var more := if result.Applied? then result.effects else [];
      assert r0.effectIntents + (before + more) == r0.effectIntents + before + more;
      ReduceStep(StateAt(r0, run, n - 1), run[n - 1].expectedPhaseVersion, run[n - 1].event);
    }
  }

  // ----- Causality -----

  predicate TargetCrashAt(r0: Record, run: seq<Input>, i: int) {
    AppliedAt(r0, run, i) && run[i].event.LegCrashed? && run[i].event.crashed == CrashedTarget
  }

  /** Positions of the transitions a phase rests on; -1 when there is none. */
  datatype Milestones = Milestones(stop: int, dead: int, live: int, managed: int, outbox: int, receipt: int)

  /** After a target crash only the stop and the death of the old service still count. */
  function Update(m: Milestones, event: Event, i: nat): Milestones {
    match event
    case RequestOldServiceStop(_) => m.(stop := i)
    case ReportOldServiceDead(_) => m.(dead := i)
    case ReportTargetLive(_, _) => if m.live < 0 then m.(live := i) else m
    case ObserveManagedSet(_, _) => if m.managed < 0 then m.(managed := i) else m
    case WriteTerminalOutbox(_) => m.(outbox := i)
    case ObserveReceipt(_) => m.(receipt := i)
    case LegCrashed(crashed, _) =>
      if crashed == CrashedTarget then m.(live := -1, managed := -1, outbox := -1, receipt := -1) else m
    case _ => m
  }

  function Track(r0: Record, run: seq<Input>, n: nat): Milestones
    requires n <= |run|
  {
    if n == 0 then Milestones(-1, -1, -1, -1, -1, -1)
    else
      var m := Track(r0, run, n - 1);
      if AppliedAt(r0, run, n - 1) then Update(m, run[n - 1].event, n - 1) else m
  }

  /** Each recorded milestone is a transition of its kind. */
  ghost predicate Genuine(r0: Record, run: seq<Input>, m: Milestones) {
    && (m.stop >= 0 ==> StopsAt(r0, run, m.stop))
    && (m.dead >= 0 ==> AppliedAt(r0, run, m.dead) && run[m.dead].event.ReportOldServiceDead?)
    && (m.live >= 0 ==> AppliedAt(r0, run, m.live) && run[m.live].event.ReportTargetLive?)
    && (m.managed >= 0 ==> AppliedAt(r0, run, m.managed) && run[m.managed].event.ObserveManagedSet?)
    && (m.outbox >= 0 ==> AppliedAt(r0, run, m.outbox) && run[m.outbox].event.WriteTerminalOutbox?)
    && (m.receipt >= 0 ==> AppliedAt(r0, run, m.receipt) && run[m.receipt].event.ObserveReceipt?)
  }

  /** What the record shows rests on milestones in this order, all before n. */
  ghost predicate Ordered(r: Record, m: Milestones, n: nat) {
    && -1 <= m.stop < n && -1 <= m.dead < n && -1 <= m.live < n
    && -1 <= m.managed < n && -1 <= m.outbox < n && -1 <= m.receipt < n
    && (AtLeast(r, OldServiceStopClaimed) ==> 0 <= m.stop)
    && (AtLeast(r, OldServiceDead) ==> 0 <= m.stop < m.dead)
    && (r.targetSupervisor.Some? <==> 0 <= m.live)
    && (0 <= m.live ==> m.dead < m.live)
    && (0 <= m.managed ==> 0 <= m.live < m.managed)
    && (AtLeast(r, ManagedSetConverged) ==> 0 <= m.managed)
    && (r.terminalOutbox.Some? ==> 0 <= m.managed < m.outbox)
    && (r.receipt.Some? ==> 0 <= m.outbox < m.receipt)
  }

  /** Nothing the order speaks of changes, except a phase below the stop claim. */
  ghost predicate Quiet(r: Record, q: Record) {
    && q.targetSupervisor == r.targetSupervisor
    && q.terminalOutbox == r.terminalOutbox
    && q.receipt == r.receipt
    && (q.phase == r.phase || !AtLeast(q, OldServiceStopClaimed) || AtLeast(r, ReceiptObserved))
  }

  predicate Bystander(event: Event) {
    event.Claim? || event.ObserveFirstHop? || event.Progress? || event.ArmLeg? || event.ExplicitStart?
    || event.AllocateTargetGeneration?
  }

  lemma BystandersAreQuiet(r: Record, event: Event)
    requires Inv(r) && r.phase != Finalized && Bystander(event) && Dispatch(r, event).Applied?
    ensures Quiet(r, Dispatch(r, event).record)
  {
    hide StopIntentInv, DistinctKeys, Distinct, OutcomeInv, AdvanceWith, AppendProcess;
  }

  lemma QuietKeepsOrder(r: Record, q: Record, m: Milestones, i: nat)
    requires Inv(r) && Ordered(r, m, i) && Quiet(r, q)
    ensures Ordered(q, m, i + 1)
  {
  }

  lemma StopKeepsOrder(r: Record, source: Process, m: Milestones, i: nat)
    requires Inv(r) && Ordered(r, m, i) && ReduceStop(r, source).Applied?
    ensures Ordered(ReduceStop(r, source).record, Update(m, RequestOldServiceStop(source), i), i + 1)
  {
  }

  lemma DeadKeepsOrder(r: Record, source: Process, m: Milestones, i: nat)
    requires Inv(r) && Ordered(r, m, i) && ReduceDead(r, source).Applied?
    ensures Ordered(ReduceDead(r, source).record, Update(m, ReportOldServiceDead(source), i), i + 1)
  {
  }

  lemma LiveKeepsOrder(r: Record, generation: string, process: Process, m: Milestones, i: nat)
    requires Inv(r) && Ordered(r, m, i) && ReduceLive(r, generation, process).Applied?
    ensures Ordered(ReduceLive(r, generation, process).record, Update(m, ReportTargetLive(generation, process), i), i + 1)
  {
  }

  lemma ManagedSetKeepsOrder(r: Record, revision: int, runners: seq<Process>, m: Milestones, i: nat)
    requires Inv(r) && Ordered(r, m, i) && ReduceManagedSet(r, revision, runners).Applied?
    ensures Ordered(ReduceManagedSet(r, revision, runners).record, Update(m, ObserveManagedSet(revision, runners), i), i + 1)
  {
  }

  lemma OutboxKeepsOrder(r: Record, at: string, m: Milestones, i: nat)
    requires Inv(r) && Ordered(r, m, i) && ReduceOutbox(r, at).Applied?
    ensures Ordered(ReduceOutbox(r, at).record, Update(m, WriteTerminalOutbox(at), i), i + 1)
  {
  }

  lemma ReceiptKeepsOrder(r: Record, at: string, m: Milestones, i: nat)
    requires Inv(r) && Ordered(r, m, i) && ReduceReceipt(r, at).Applied?
    ensures Ordered(ReduceReceipt(r, at).record, Update(m, ObserveReceipt(at), i), i + 1)
  {
  }

  lemma CrashShape(r: Record, crashed: CrashRole, process: Process)
    requires ReduceCrash(r, crashed, process).Applied?
    ensures var q := ReduceCrash(r, crashed, process).record;
            if crashed == CrashedTarget then
              q.phase == OldServiceDead && q.targetSupervisor.None? && q.terminalOutbox.None? && q.receipt.None?
              && r.targetSupervisor.Some?
            else Quiet(r, q)
  {
  }

  lemma CrashKeepsOrder(r: Record, crashed: CrashRole, process: Process, m: Milestones, i: nat)
    requires Inv(r) && Ordered(r, m, i) && ReduceCrash(r, crashed, process).Applied?
    ensures Ordered(ReduceCrash(r, crashed, process).record, Update(m, LegCrashed(crashed, process), i), i + 1)
  {
    hide ReduceCrash;
    CrashShape(r, crashed, process);
    if crashed != CrashedTarget {
      QuietKeepsOrder(r, ReduceCrash(r, crashed, process).record, m, i);
    }
  }

  /** A transition keeps the order: what it newly shows rests on what was shown before. */
  lemma MilestoneStep(r: Record, event: Event, m: Milestones, i: nat)
    requires Inv(r) && r.phase != Finalized && Dispatch(r, event).Applied?
    requires Ordered(r, m, i)
    ensures Ordered(Dispatch(r, event).record, Update(m, event, i), i + 1)
  {
    hide Inv, Ordered;
    match event
    case RequestOldServiceStop(source) => StopKeepsOrder(r, source, m, i);
    case ReportOldServiceDead(source) => DeadKeepsOrder(r, source, m, i);
    case ReportTargetLive(generation, process) => LiveKeepsOrder(r, generation, process, m, i);
    case ObserveManagedSet(revision, runners) => ManagedSetKeepsOrder(r, revision, runners, m, i);
    case WriteTerminalOutbox(at) => OutboxKeepsOrder(r, at, m, i);
    case ObserveReceipt(at) => ReceiptKeepsOrder(r, at, m, i);
    case LegCrashed(crashed, process) => CrashKeepsOrder(r, crashed, process, m, i);
    case Reconcile => QuietKeepsOrder(r, ReduceReconcile(r).record, m, i);
    case _ =>
      BystandersAreQuiet(r, event);
      QuietKeepsOrder(r, Dispatch(r, event).record, m, i);
  }

  lemma InitiallyOrdered(r0: Record, run: seq<Input>)
    requires Inv(r0) && r0.phase == Accepted
    ensures Ordered(r0, Track(r0, run, 0), 0)
  {
  }

  /** At every point of a run, what the record shows rests on milestones in their order. */
  lemma {:induction false} Causality(r0: Record, run: seq<Input>, n: nat)
    requires Inv(r0) && r0.phase == Accepted && n <= |run|
    ensures Ordered(StateAt(r0, run, n), Track(r0, run, n), n)
  {
    hide Reduce, Dispatch, Inv, Ordered, Update;
    if n == 0 {
      InitiallyOrdered(r0, run);
    } else {
      Causality(r0, run, n - 1);
      var r, input := StateAt(r0, run, n - 1), run[n - 1];
      RunInv(r0, run, n - 1);
      UnappliedKeeps(r, input.expectedPhaseVersion, input.event);
      if AppliedAt(r0, run, n - 1) {
        MilestoneStep(r, input.event, Track(r0, run, n - 1), n - 1);
      } else {
        LaterIsOrdered(r, Track(r0, run, n - 1), n - 1);
      }
    }
  }

  lemma LaterIsOrdered(r: Record, m: Milestones, n: nat)
    requires Ordered(r, m, n)
    ensures Ordered(r, m, n + 1)
  {
  }

  /** The tracked milestones are transitions of their kinds, and no target crash follows the tracked live report. */
  lemma {:induction false} MilestonesAreGenuine(r0: Record, run: seq<Input>, n: nat)
    requires n <= |run|
    ensures Genuine(r0, run, Track(r0, run, n))
    ensures 0 <= Track(r0, run, n).live ==>
              forall k :: Track(r0, run, n).live <= k < n ==> !TargetCrashAt(r0, run, k)
  {
    hide Reduce;
    if n > 0 {
      MilestonesAreGenuine(r0, run, n - 1);
    }
  }

  /**
   * Any run that finalizes contains, in this order, an applied stop request with
   * both legs armed, the death of the captured service, and then, after the last
   * target crash, a live target, a converged managed set, the terminal outbox and
   * its receipt.
   */
  lemma FinalizedHistory(r0: Record, run: seq<Input>, n: nat) returns (m: Milestones)
    requires Inv(r0) && r0.phase == Accepted && n <= |run|
    requires StateAt(r0, run, n).phase == Finalized
    ensures 0 <= m.stop < m.dead < m.live < m.managed < m.outbox < m.receipt < n
    ensures Genuine(r0, run, m)
    ensures StateAt(r0, run, m.stop).coordinator.Some? && StateAt(r0, run, m.stop).standby.Some?
    ensures run[m.stop].event.source == run[m.dead].event.source
    ensures FirstService(r0.acceptance.capturedOldProcessIdentities) == Some(run[m.dead].event.source)
    ensures forall k :: 0 <= k < n && TargetCrashAt(r0, run, k) ==> k < m.live
  {
    hide Reduce, StopIntentInv, LegsInv, DistinctKeys, Genuine;
    m := Track(r0, run, n);
    assert 0 <= m.stop < m.dead < m.live < m.managed < m.outbox < m.receipt < n by {
      Causality(r0, run, n);
      RunInv(r0, run, n);
    }
    MilestonesAreGenuine(r0, run, n);
    GenuineSources(r0, run, m);
  }

  lemma GenuineSources(r0: Record, run: seq<Input>, m: Milestones)
    requires Inv(r0) && Genuine(r0, run, m) && 0 <= m.stop && 0 <= m.dead
    ensures StopsAt(r0, run, m.stop) && m.dead < |run| && run[m.dead].event.ReportOldServiceDead?
    ensures StateAt(r0, run, m.stop).coordinator.Some? && StateAt(r0, run, m.stop).standby.Some?
    ensures run[m.stop].event.source == run[m.dead].event.source
    ensures FirstService(r0.acceptance.capturedOldProcessIdentities) == Some(run[m.dead].event.source)
  {
    hide Reduce, Inv;
    StopSource(r0, run, m.stop);
    DeadSource(r0, run, m.dead);
  }

  lemma StopSource(r0: Record, run: seq<Input>, i: nat)
    requires Inv(r0) && StopsAt(r0, run, i)
    ensures StateAt(r0, run, i).coordinator.Some? && StateAt(r0, run, i).standby.Some?
    ensures FirstService(r0.acceptance.capturedOldProcessIdentities) == Some(run[i].event.source)
  {
    RunKeepsFloors(r0, run, 0, i);
  }

  lemma DeadSource(r0: Record, run: seq<Input>, i: nat)
    requires Inv(r0) && AppliedAt(r0, run, i) && run[i].event.ReportOldServiceDead?
    ensures FirstService(r0.acceptance.capturedOldProcessIdentities) == Some(run[i].event.source)
  {
    RunKeepsFloors(r0, run, 0, i);
  }

  // ----- Evidence under the current generation -----

  predicate GenerationsNamed(run: seq<Input>) {
    forall i :: 0 <= i < |run| && run[i].event.AllocateTargetGeneration? ==> run[i].event.generation != ""
  }

  lemma LiveHasGeneration(r: Record, m: Milestones, n: nat)
    requires Inv(r) && Ordered(r, m, n)
    ensures m.live < n && (0 <= m.live ==> r.observedTargetGeneration.Some?)
  {
  }

  /** With named generations, nothing changes the generation while a target is live. */
  lemma {:induction false} GenerationHolds(r0: Record, run: seq<Input>, n: nat, k: nat)
    requires Inv(r0) && r0.phase == Accepted && r0.observedTargetGeneration == None
    requires GenerationsNamed(run) && n <= |run|
    ensures StateAt(r0, run, n).observedTargetGeneration != Some("")
    ensures 0 <= Track(r0, run, n).live <= k <= n ==>
              StateAt(r0, run, k).observedTargetGeneration == StateAt(r0, run, n).observedTargetGeneration
  {
    hide Reduce, Dispatch, Inv, Ordered;
    if n > 0 {
      var r, input := StateAt(r0, run, n - 1), run[n - 1];
      GenerationHolds(r0, run, n - 1, if k < n then k else 0);
      RunInv(r0, run, n - 1);
      UnappliedKeeps(r, input.expectedPhaseVersion, input.event);
      Causality(r0, run, n - 1);
      LiveHasGeneration(r, Track(r0, run, n - 1), n - 1);
      if AppliedAt(r0, run, n - 1) {
        GenerationMoves(r, input.event);
      }
    }
  }

  /**
   * Whenever the terminal outbox is set, the managed set it rests on was seen to
   * converge under the generation that is still current.
   */
  lemma OutboxEvidence(r0: Record, run: seq<Input>, n: nat) returns (managed: nat)
    requires Inv(r0) && r0.phase == Accepted && r0.observedTargetGeneration == None
    requires GenerationsNamed(run) && n <= |run|
    requires StateAt(r0, run, n).terminalOutbox.Some?
    ensures managed < n && AppliedAt(r0, run, managed) && run[managed].event.ObserveManagedSet?
    ensures var r := StateAt(r0, run, managed);
            && ManagedSetMatches(r, run[managed].event.revision, run[managed].event.liveRunners)
            && r.observedTargetGeneration == StateAt(r0, run, n).observedTargetGeneration
    ensures forall j :: managed <= j < n ==> !TargetCrashAt(r0, run, j)
  {
    var m := Track(r0, run, n);
    assert 0 <= m.live < m.managed < n by {
      hide Reduce;
      Causality(r0, run, n);
    }
    managed := m.managed;
    assert AppliedAt(r0, run, managed) && run[managed].event.ObserveManagedSet?
           && forall j :: managed <= j < n ==> !TargetCrashAt(r0, run, j) by {
      hide Reduce;
      MilestonesAreGenuine(r0, run, n);
    }
    GenerationHolds(r0, run, n, managed);
    AppliedManagedSet(StateAt(r0, run, managed), run[managed].expectedPhaseVersion, run[managed].event);
  }

  lemma AppliedManagedSet(r: Record, expected: int, event: Event)
    requires event.ObserveManagedSet? && Reduce(r, expected, event).Applied?
    ensures ManagedSetMatches(r, event.revision, event.liveRunners)
  {
  }
}
