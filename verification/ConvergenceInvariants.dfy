/**
 * What every record of a machine operation satisfies, and what one applied
 * transition may change.
 */
module ConvergenceInvariants {
  import opened Basics
  import opened MachineConvergence

  ghost predicate DistinctKeys(effects: seq<Effect>) {
    forall i, j :: 0 <= i < j < |effects| ==> effects[i].key != effects[j].key
  }

  ghost predicate PrefixIsKind(effects: seq<Effect>) {
    forall i :: 0 <= i < |effects| ==> effects[i].key.prefix == effects[i].kind
  }

  /** The index of a stop intent for the captured service. */
  ghost predicate StopIntentAt(r: Record, i: int) {
    0 <= i < |r.effectIntents| && r.effectIntents[i].kind == StopOldService
    && r.effectIntents[i].process == CapturedService(r)
  }

  /** The stop of the old service is on record exactly once from the point of no return on, and never before. */
  ghost predicate StopIntentInv(r: Record) {
    && PrefixIsKind(r.effectIntents)
    && (!AtLeast(r, OldServiceStopClaimed) ==>
          forall i :: 0 <= i < |r.effectIntents| ==> r.effectIntents[i].kind != StopOldService)
    && (AtLeast(r, OldServiceStopClaimed) ==>
          exists i :: StopIntentAt(r, i)
                      && forall j :: 0 <= j < |r.effectIntents| && j != i ==> r.effectIntents[j].kind != StopOldService)
  }

  ghost predicate LegsInv(r: Record) {
    && (r.coordinator.Some? && r.standby.Some? && !AtLeast(r, OldServiceStopClaimed) ==> r.phase == HandoffArmed)
    && (!AtLeast(r, HandoffArming) ==> r.coordinator.None? && r.standby.None?)
    && (AtLeast(r, OldServiceStopClaimed) ==> CapturedService(r).Some?)
  }

  ghost predicate TargetInv(r: Record) {
    && (r.targetSupervisor.Some? <==> AtLeast(r, TargetSupervisorLive))
    && (r.targetSupervisor.Some? ==>
          && r.observedTargetGeneration.Some?
          && r.targetSupervisor.value.role == Service
          && r.targetSupervisor.value.version == Some(r.identity.targetVersion))
    && r.currentManagedSetRevision >= r.acceptance.acceptedManagedSetRevision
  }

  ghost predicate OutcomeInv(r: Record) {
    && (r.terminalOutbox.Some? ==> r.targetSupervisor.Some?)
    && (r.receipt.Some? ==> r.terminalOutbox.Some?)
    && (r.phase == TerminalOutbox ==> r.terminalOutbox.Some? && r.receipt.None?)
    && (AtLeast(r, ReceiptObserved) ==> r.receipt.Some?)
    && (r.terminalOutbox.Some? ==> r.terminalOutbox.value.dispatchOperationId == r.identity.dispatchOperationId)
    && (r.receipt.Some? ==> r.receipt.value.dispatchOperationId == r.identity.dispatchOperationId)
  }

  ghost predicate Inv(r: Record) {
    && LegsInv(r)
    && TargetInv(r)
    && OutcomeInv(r)
    && DistinctKeys(r.effectIntents)
    && StopIntentInv(r)
    && Distinct(r.observedOldProcesses)
  }

  lemma CreatedInv(identity: Identity, acceptance: Acceptance, origin: Process)
    ensures Inv(CreateRecord(identity, acceptance, origin))
  {
  }

  /** The floors an applied transition may not go below. */
  ghost predicate KeepsFloors(r: Record, q: Record) {
    && (AtLeast(r, OldServiceStopClaimed) ==> AtLeast(q, OldServiceStopClaimed))
    && (AtLeast(r, OldServiceDead) ==> AtLeast(q, OldServiceDead))
    && r.claimEpoch <= q.claimEpoch
    && r.observedOldProcesses <= q.observedOldProcesses
    && r.effectIntents <= q.effectIntents
    && q.identity == r.identity
    && q.acceptance == r.acceptance
  }

  /** An applied result: version up by one, floors kept, and exactly the returned effects recorded. */
  ghost predicate Recorded(r: Record, result: Result) {
    && result.Applied?
    && result.record.phaseVersion == r.phaseVersion + 1
    && result.record.effectIntents == r.effectIntents + result.effects
    && KeepsFloors(r, result.record)
  }

  /** A transition that keeps the invariant and is properly recorded. */
  ghost predicate Sound(r: Record, result: Result) {
    Recorded(r, result) && Inv(result.record)
  }

  /** What recording an effect does to the intents. */
  lemma AdvanceWithKeeps(r: Record, effect: Effect)
    requires DistinctKeys(r.effectIntents)
    ensures AdvanceWith(r, effect).Applied?
    ensures var q := AdvanceWith(r, effect).record;
            q == r.(phaseVersion := r.phaseVersion + 1, effectIntents := q.effectIntents)
    ensures AdvanceWith(r, effect).record.effectIntents == r.effectIntents + AdvanceWith(r, effect).effects
    ensures DistinctKeys(AdvanceWith(r, effect).record.effectIntents)
  {
  }

  /** An intent that is not a stop leaves the stop bookkeeping as it was. */
  lemma OrdinaryEffectKeepsStop(r: Record, effect: Effect)
    requires StopIntentInv(r) && effect.kind != StopOldService && effect.key.prefix == effect.kind
    ensures StopIntentInv(AdvanceWith(r, effect).record)
  {
    var q := AdvanceWith(r, effect).record;
    if AtLeast(r, OldServiceStopClaimed) {
      var i :| StopIntentAt(r, i)
        && forall j :: 0 <= j < |r.effectIntents| && j != i ==> r.effectIntents[j].kind != StopOldService;
      assert StopIntentAt(q, i);
    }
  }

  /** Changing anything but intents and acceptance keeps the stop bookkeeping, if the point of no return is not crossed. */
  lemma StopInvFrame(r: Record, q: Record)
    requires StopIntentInv(r)
    requires q.effectIntents == r.effectIntents && q.acceptance == r.acceptance
    requires AtLeast(r, OldServiceStopClaimed) <==> AtLeast(q, OldServiceStopClaimed)
    ensures StopIntentInv(q)
  {
    if AtLeast(r, OldServiceStopClaimed) {
      var i :| StopIntentAt(r, i)
        && forall j :: 0 <= j < |r.effectIntents| && j != i ==> r.effectIntents[j].kind != StopOldService;
      assert StopIntentAt(q, i);
    }
  }

  lemma AppendKeepsDistinct(values: seq<Process>, process: Process)
    requires Distinct(values)
    ensures Distinct(AppendProcess(values, process)) && values <= AppendProcess(values, process)
  {
  }

  lemma CrashKeepsInv(r: Record, crashed: CrashRole, process: Process)
    requires Inv(r) && ReduceCrash(r, crashed, process).Applied?
    ensures Sound(r, ReduceCrash(r, crashed, process))
  {
    hide StopIntentInv, DistinctKeys, AdvanceWith, AppendProcess;
    var next := WithoutLeg(r, crashed).(observedOldProcesses := AppendProcess(r.observedOldProcesses, process));
    AppendKeepsDistinct(r.observedOldProcesses, process);
    StopInvFrame(r, next);
    if crashed.CrashedOrigin? {
      StopInvFrame(next, Advance(next, []).record);
    } else {
      var effect := if crashed.CrashedCoordinator? then CoordinatorEffect(r)
                    else if crashed.CrashedStandby? then StandbyEffect(r) else CrashPromotionEffect(r);
      AdvanceWithKeeps(next, effect);
      OrdinaryEffectKeepsStop(next, effect);
    }
  }

  /** At the point of no return the stop intent is new, so it is recorded and handed out. */
  lemma StopIsHandedOut(r: Record, source: Process)
    requires Inv(r) && ReduceStop(r, source).Applied?
    ensures ReduceStop(r, source).effects == [StopEffect(r, source)]
    ensures CapturedService(r) == Some(source) && r.coordinator.Some? && r.standby.Some?
    ensures Sound(r, ReduceStop(r, source))
  {
    var q := ReduceStop(r, source).record;
    AdvanceWithKeeps(r.(phase := OldServiceStopClaimed), StopEffect(r, source));
    assert StopIntentAt(q, |r.effectIntents|);
  }

  lemma ReconcileKeepsInv(r: Record)
    requires Inv(r) && ReduceReconcile(r).Applied?
    ensures Sound(r, ReduceReconcile(r))
  {
    hide StopIntentInv, DistinctKeys, AdvanceWith;
    if r.phase == ReceiptObserved {
      StopInvFrame(r, ReduceReconcile(r).record);
    } else {
      var effect := ReconcileEffect(r).value;
      AdvanceWithKeeps(r, effect);
      OrdinaryEffectKeepsStop(r, effect);
    }
  }

  lemma OutboxKeepsInv(r: Record, at: string)
    requires Inv(r) && ReduceOutbox(r, at).Applied?
    ensures Sound(r, ReduceOutbox(r, at))
  {
    hide StopIntentInv, DistinctKeys, AdvanceWith;
    var next := r.(phase := TerminalOutbox, terminalOutbox := Some(Stamp(r.identity.dispatchOperationId, at)));
    StopInvFrame(r, next);
    AdvanceWithKeeps(next, OutboxEffect(r));
    OrdinaryEffectKeepsStop(next, OutboxEffect(r));
  }

  lemma ClaimKeepsInv(r: Record, epoch: int, holder: string, until: string)
    requires Inv(r) && ReduceClaim(r, epoch, holder, until).Applied?
    ensures Sound(r, ReduceClaim(r, epoch, holder, until))
  {
    StopInvFrame(r, ReduceClaim(r, epoch, holder, until).record);
  }

  lemma ProgressKeepsInv(r: Record, ordinal: int)
    requires Inv(r) && ReduceProgress(r, ordinal).Applied?
    ensures Sound(r, ReduceProgress(r, ordinal))
  {
    StopInvFrame(r, ReduceProgress(r, ordinal).record);
  }

  lemma ArmKeepsInv(r: Record, leg: Leg, process: Process)
    requires Inv(r) && ReduceArm(r, leg, process).Applied?
    ensures Sound(r, ReduceArm(r, leg, process))
  {
    StopInvFrame(r, ReduceArm(r, leg, process).record);
  }

  lemma StartKeepsInv(r: Record, process: Process)
    requires Inv(r) && ReduceStart(r, process).Applied?
    ensures Sound(r, ReduceStart(r, process))
  {
    StopInvFrame(r, ReduceStart(r, process).record);
  }

  lemma DeadKeepsInv(r: Record, source: Process)
    requires Inv(r) && ReduceDead(r, source).Applied?
    ensures Sound(r, ReduceDead(r, source))
  {
    StopInvFrame(r, ReduceDead(r, source).record);
  }

  lemma AllocateKeepsInv(r: Record, generation: string)
    requires Inv(r) && ReduceAllocate(r, generation).Applied?
    ensures Sound(r, ReduceAllocate(r, generation))
  {
    StopInvFrame(r, ReduceAllocate(r, generation).record);
  }

  lemma LiveKeepsInv(r: Record, generation: string, process: Process)
    requires Inv(r) && ReduceLive(r, generation, process).Applied?
    ensures Sound(r, ReduceLive(r, generation, process))
  {
    StopInvFrame(r, ReduceLive(r, generation, process).record);
  }

  lemma ManagedSetKeepsInv(r: Record, revision: int, runners: seq<Process>)
    requires Inv(r) && ReduceManagedSet(r, revision, runners).Applied?
    ensures Sound(r, ReduceManagedSet(r, revision, runners))
  {
    StopInvFrame(r, ReduceManagedSet(r, revision, runners).record);
  }

  lemma ReceiptKeepsInv(r: Record, at: string)
    requires Inv(r) && ReduceReceipt(r, at).Applied?
    ensures Sound(r, ReduceReceipt(r, at))
  {
    StopInvFrame(r, ReduceReceipt(r, at).record);
  }

  lemma DispatchStep(r: Record, event: Event)
    requires Inv(r) && r.phase != Finalized && Dispatch(r, event).Applied?
    ensures Sound(r, Dispatch(r, event))
  {
    match event
    case Claim(epoch, holder, until) => ClaimKeepsInv(r, epoch, holder, until);
    case ObserveFirstHop(ordinal) => ProgressKeepsInv(r, ordinal);
    case ArmLeg(leg, process) => ArmKeepsInv(r, leg, process);
    case LegCrashed(crashed, process) => CrashKeepsInv(r, crashed, process);
    case RequestOldServiceStop(source) => StopIsHandedOut(r, source);
    case ReportOldServiceDead(source) => DeadKeepsInv(r, source);
    case AllocateTargetGeneration(generation) => AllocateKeepsInv(r, generation);
    case ReportTargetLive(generation, process) => LiveKeepsInv(r, generation, process);
    case ObserveManagedSet(revision, runners) => ManagedSetKeepsInv(r, revision, runners);
    case WriteTerminalOutbox(at) => OutboxKeepsInv(r, at);
    case ObserveReceipt(at) => ReceiptKeepsInv(r, at);
    case Progress(ordinal) => ProgressKeepsInv(r, ordinal);
    case ExplicitStart(process) => StartKeepsInv(r, process);
    case Reconcile => ReconcileKeepsInv(r);
  }

  /** Only an applied result changes the record, and only for the version it expected. */
  lemma UnappliedKeeps(r: Record, expected: int, event: Event)
    ensures var result := Reduce(r, expected, event);
            if result.Applied? then expected == r.phaseVersion && r.phase != Finalized && result == Dispatch(r, event)
            else result.record == r
  {
    hide AdvanceWith, AppendProcess;
    forall q: Record, effect: Effect ensures AdvanceWith(q, effect).Applied? {
      AdvanceIsApplied(q, effect);
    }
  }

  lemma AdvanceIsApplied(r: Record, effect: Effect)
    ensures AdvanceWith(r, effect).Applied?
  {
  }

  /**
   * One reduction keeps the invariant, whatever version it expects. A transition
   * advances the version by exactly one and records exactly the effects it
   * returns; every other result leaves the record alone.
   */
  lemma ReduceStep(r: Record, expected: int, event: Event)
    requires Inv(r)
    ensures var result := Reduce(r, expected, event);
            if result.Applied? then expected == r.phaseVersion && r.phase != Finalized && Sound(r, result)
            else result.record == r
  {
    UnappliedKeeps(r, expected, event);
    if Reduce(r, expected, event).Applied? {
      DispatchStep(r, event);
    }
  }

  lemma StepFloors(r: Record, expected: int, event: Event)
    requires Inv(r)
    ensures var q := Reduce(r, expected, event).record;
            && KeepsFloors(r, q)
            && q.phaseVersion == r.phaseVersion + (if Reduce(r, expected, event).Applied? then 1 else 0)
            && (r.phase == Finalized ==> q == r)
  {
    hide Dispatch;
    ReduceStep(r, expected, event);
  }

  lemma FloorsTransitive(p: Record, q: Record, r: Record)
    requires KeepsFloors(p, q) && KeepsFloors(q, r)
    ensures KeepsFloors(p, r)
  {
  }

  /** A claim is granted only above every epoch granted before. */
  lemma ClaimRaisesEpoch(r: Record, expected: int, event: Event)
    requires Inv(r) && Reduce(r, expected, event).Applied?
    ensures var q := Reduce(r, expected, event).record;
            if event.Claim? then r.claimEpoch < q.claimEpoch == event.claimEpoch else q.claimEpoch == r.claimEpoch
  {
    hide StopIntentInv, DistinctKeys, LegsInv, TargetInv, OutcomeInv, Distinct;
    UnappliedKeeps(r, expected, event);
  }

  /** The only transitions that change the observed generation. */
  lemma GenerationMoves(r: Record, event: Event)
    requires r.phase != Finalized && Dispatch(r, event).Applied?
    ensures var q := Dispatch(r, event).record;
            || q.observedTargetGeneration == r.observedTargetGeneration
            || (event.AllocateTargetGeneration? && !Truthy(r.observedTargetGeneration)
                && q.observedTargetGeneration == Some(event.generation) && q.targetSupervisor == r.targetSupervisor)
            || (event.LegCrashed? && event.crashed == CrashedTarget
                && q.observedTargetGeneration == None && q.targetSupervisor == None)
  {
  }

  /**
   * The generation under a live target changes exactly when an allocation meets
   * an empty generation string, because the code tests the string for truth.
   */
  lemma LiveGenerationChanges(r: Record, expected: int, event: Event)
    requires Inv(r) && r.targetSupervisor.Some?
    ensures var q := Reduce(r, expected, event).record;
            q.targetSupervisor.Some? && q.observedTargetGeneration != r.observedTargetGeneration <==>
            && expected == r.phaseVersion && r.phase != Finalized
            && event.AllocateTargetGeneration? && event.generation != ""
            && r.observedTargetGeneration == Some("")
  {
    UnappliedKeeps(r, expected, event);
    if Reduce(r, expected, event).Applied? {
      GenerationMoves(r, event);
    }
  }
}
