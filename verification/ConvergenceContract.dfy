/**
 * What the reducer answers, written field by field and effect by effect instead of event
 * by event: when a transition applies, which refusal is given otherwise, what each field
 * of the record is afterwards, and exactly which effects are handed out.
 */
module ConvergenceContract {
  import opened Basics
  import opened MachineConvergence
  import opened ConvergenceInvariants

  predicate BeforeStopClaimed(p: Phase) {
    p in {Accepted, MutationClaimed, FirstHopObserved, HandoffArming, HandoffArmed}
  }

  predicate BeforeServiceDead(p: Phase) {
    BeforeStopClaimed(p) || p == OldServiceStopClaimed
  }

  predicate BeforeTargetLive(p: Phase) {
    BeforeServiceDead(p) || p == OldServiceDead
  }

  /** This is the first captured process in the service role. */
  ghost predicate IsCapturedService(r: Record, source: Process) {
    var captured := r.acceptance.capturedOldProcessIdentities;
    exists i :: 0 <= i < |captured| && captured[i] == source && source.role == Service
                && forall j :: 0 <= j < i ==> captured[j].role != Service
  }

  lemma {:induction false} FirstServiceIsFirst(captured: seq<Process>, source: Process)
    ensures FirstService(captured) == Some(source)
       <==> exists i :: 0 <= i < |captured| && captured[i] == source && source.role == Service
                        && forall j :: 0 <= j < i ==> captured[j].role != Service
  {
    if captured != [] {
      var rest := captured[1..];
      FirstServiceIsFirst(rest, source);
      if captured[0].role == Service {
        assert source == captured[0] ==> captured[0] == source && source.role == Service;
      } else {
        if FirstService(rest) == Some(source) {
          var i :| 0 <= i < |rest| && rest[i] == source && source.role == Service
                   && forall j :: 0 <= j < i ==> rest[j].role != Service;
          assert captured[i + 1] == source && forall j :: 0 <= j < i + 1 ==> captured[j].role != Service;
        }
        if i :| 0 <= i < |captured| && captured[i] == source && source.role == Service
                && forall j :: 0 <= j < i ==> captured[j].role != Service {
          assert rest[i - 1] == source && forall j :: 0 <= j < i - 1 ==> rest[j] == captured[j + 1];
        }
      }
    }
  }

  lemma CapturedIsFirst(r: Record, source: Process)
    ensures CapturedService(r) == Some(source) <==> IsCapturedService(r, source)
  {
    FirstServiceIsFirst(r.acceptance.capturedOldProcessIdentities, source);
  }

  // ----- When a transition applies -----

  function ThisLeg(r: Record, leg: Leg): Option<Process> {
    match leg case CoordinatorLeg => r.coordinator case StandbyLeg => r.standby
  }

  function OtherLeg(r: Record, leg: Leg): Option<Process> {
    match leg case CoordinatorLeg => r.standby case StandbyLeg => r.coordinator
  }

  /** Something is left for reconcile to do. */
  predicate Unreconciled(r: Record) {
    || r.phase == ReceiptObserved
    || (r.coordinator.None? && BeforeTargetLive(r.phase))
    || (r.coordinator.Some? && r.standby.None? && BeforeStopClaimed(r.phase))
    || (r.coordinator.Some? && r.phase == OldServiceDead && r.observedTargetGeneration.Some?
        && r.observedTargetGeneration.value != "")
    || (r.phase == ManagedSetConverged && r.terminalOutbox.None?)
  }

  ghost predicate Serves(runners: seq<Process>, id: string) {
    exists i :: 0 <= i < |runners| && runners[i].serverId == Some(id)
  }

  /** The report is current, covers every accepted server, and shows only managed runners at the target version. */
  ghost predicate Converged(r: Record, revision: int, runners: seq<Process>) {
    && r.acceptance.acceptedManagedSetRevision <= revision
    && (forall id :: id in r.acceptance.acceptedManagedServerIds ==> Serves(runners, id))
    && (forall i :: 0 <= i < |runners| ==> runners[i].role == ManagedRunner)
    && (forall i :: 0 <= i < |runners| ==> runners[i].version == Some(r.identity.targetVersion))
  }

  lemma ConvergedIsMatch(r: Record, revision: int, runners: seq<Process>)
    ensures Converged(r, revision, runners) <==> ManagedSetMatches(r, revision, runners)
  {
  }

  ghost predicate GoesThrough(r: Record, event: Event) {
    match event
    case Claim(epoch, _, _) => epoch > r.claimEpoch
    case ObserveFirstHop(ordinal) => ordinal > r.firstHopProgressOrdinal
    case Progress(ordinal) => ordinal > r.firstHopProgressOrdinal
    case ArmLeg(leg, _) => BeforeStopClaimed(r.phase) && ThisLeg(r, leg).None?
    case LegCrashed(crashed, process) =>
      r.receipt.None? && Some(process) == (match crashed
                                           case CrashedOrigin => r.originRunner
                                           case CrashedCoordinator => r.coordinator
                                           case CrashedStandby => r.standby
                                           case CrashedTarget => r.targetSupervisor)
    case RequestOldServiceStop(source) =>
      r.phase == HandoffArmed && r.coordinator.Some? && r.standby.Some? && IsCapturedService(r, source)
    case ReportOldServiceDead(source) => r.phase == OldServiceStopClaimed && IsCapturedService(r, source)
    case AllocateTargetGeneration(generation) =>
      r.observedTargetGeneration.None? || (r.observedTargetGeneration == Some("") && generation != "")
    case ReportTargetLive(generation, process) =>
      && !BeforeServiceDead(r.phase) && r.observedTargetGeneration == Some(generation)
      && process.role == Service && process.version == Some(r.identity.targetVersion)
    case ObserveManagedSet(revision, runners) =>
      r.phase == TargetSupervisorLive && Converged(r, revision, runners)
    case WriteTerminalOutbox(_) => r.phase == ManagedSetConverged && r.terminalOutbox.None?
    case ObserveReceipt(_) => r.terminalOutbox.Some? && r.receipt.None?
    case ExplicitStart(process) => r.originRunner != Some(process)
    case Reconcile => Unreconciled(r)
  }

  /** The event meets a record of its version and is refused for this reason. */
  ghost predicate RefusedFor(r: Record, event: Event, code: Rejection) {
    match event
    case Claim(epoch, holder, _) =>
      || (code == StaleClaimEpoch && epoch < r.claimEpoch)
      || (code == ClaimEpochConflict && epoch == r.claimEpoch && r.leaseHolder != Some(holder))
    case ArmLeg(leg, process) =>
      || (code == HandoffAlreadyCommitted && !BeforeStopClaimed(r.phase))
      || (code == HandoffLegIdentityConflict && BeforeStopClaimed(r.phase)
          && ThisLeg(r, leg).Some? && ThisLeg(r, leg) != Some(process))
    case RequestOldServiceStop(source) =>
      var armed := r.phase == HandoffArmed && r.coordinator.Some? && r.standby.Some?;
      (code == HandoffNotArmed && !armed) || (code == SourceServiceIdentityMismatch && armed && !IsCapturedService(r, source))
    case ReportOldServiceDead(source) =>
      || (code == OldServiceStopNotClaimed && r.phase != OldServiceStopClaimed)
      || (code == SourceServiceIdentityMismatch && r.phase == OldServiceStopClaimed && !IsCapturedService(r, source))
    case AllocateTargetGeneration(generation) =>
      code == TargetGenerationConflict && r.observedTargetGeneration.Some? && r.observedTargetGeneration.value != ""
      && r.observedTargetGeneration.value != generation
    case ReportTargetLive(generation, process) =>
      var dead, known := !BeforeServiceDead(r.phase), r.observedTargetGeneration == Some(generation);
      || (code == OldServiceStillLive && !dead)
      || (code == TargetGenerationMismatch && dead && !known)
      || (code == TargetSupervisorAttestationInvalid && dead && known
          && !(process.role == Service && process.version == Some(r.identity.targetVersion)))
    case ObserveManagedSet(revision, runners) =>
      || (code == TargetSupervisorNotLive && r.phase != TargetSupervisorLive)
      || (code == ManagedSetNotConverged && r.phase == TargetSupervisorLive && !Converged(r, revision, runners))
    case WriteTerminalOutbox(_) => code == MachineConvergenceIncomplete && r.phase != ManagedSetConverged
    case ObserveReceipt(_) => code == TerminalOutboxMissing && r.terminalOutbox.None?
    case _ => false
  }

  /** Events that never hand out an effect. */
  predicate Plain(event: Event) {
    !event.LegCrashed? && !event.Reconcile? && !event.RequestOldServiceStop? && !event.WriteTerminalOutbox?
  }

  predicate Handoff(event: Event) {
    event.Claim? || event.ObserveFirstHop? || event.Progress? || event.ArmLeg? || event.ExplicitStart?
  }

  ghost predicate Answers(r: Record, event: Event, result: Result) {
    && (result.Applied? <==> GoesThrough(r, event))
    && (forall code :: result == Rejected(code, r) <==> RefusedFor(r, event, code))
    && (!result.Applied? ==> result.record == r && !result.IdentityConflict?)
  }

  lemma EffectAnswers(r: Record, event: Event)
    requires r.phase != Finalized && !Plain(event)
    ensures Answers(r, event, Dispatch(r, event))
  {
    hide IsCapturedService, CapturedService, AdvanceWith, AppendProcess, WithoutLeg, Decimal;
    forall q: Record, effect: Effect ensures AdvanceWith(q, effect).Applied? {
      AdvanceIsApplied(q, effect);
    }
    if event.RequestOldServiceStop? {
      CapturedIsFirst(r, event.source);
    }
  }

  lemma HandoffAnswers(r: Record, event: Event)
    requires r.phase != Finalized && Plain(event) && Handoff(event)
    ensures Answers(r, event, Dispatch(r, event))
  {
  }

  lemma TargetAnswers(r: Record, event: Event)
    requires r.phase != Finalized && Plain(event) && !Handoff(event)
    ensures Answers(r, event, Dispatch(r, event))
  {
    hide ManagedSetMatches, Converged, IsCapturedService, CapturedService, AppendProcess;
    if event.ReportOldServiceDead? {
      CapturedIsFirst(r, event.source);
    }
    if event.ObserveManagedSet? {
      ConvergedIsMatch(r, event.revision, event.liveRunners);
    }
  }

  lemma DispatchAnswers(r: Record, event: Event)
    requires r.phase != Finalized
    ensures Answers(r, event, Dispatch(r, event))
  {
    hide Dispatch, Answers;
    if !Plain(event) {
      EffectAnswers(r, event);
    } else if Handoff(event) {
      HandoffAnswers(r, event);
    } else {
      TargetAnswers(r, event);
    }
  }

  /**
   * When the reducer applies an event, refuses it and for which reason, or replays: for
   * every record, expected version and event.
   */
  lemma AnswersExactly(r: Record, expected: int, event: Event)
    ensures var result := Reduce(r, expected, event);
            && (result.Applied? <==> expected == r.phaseVersion && r.phase != Finalized && GoesThrough(r, event))
            && (forall code :: result == Rejected(code, r)
                  <==> if expected != r.phaseVersion then code == StalePhaseVersion
                       else r.phase != Finalized && RefusedFor(r, event, code))
            && (!result.Applied? && !result.Rejected? ==> result == Replay(r))
  {
    hide Dispatch, GoesThrough, RefusedFor;
    if r.phase == Finalized {
      FinalizedReplays(r);
    } else {
      DispatchAnswers(r, event);
    }
  }

  lemma FinalizedReplays(r: Record)
    requires r.phase == Finalized
    ensures Dispatch(r, Reconcile) == Replay(r)
  {
  }

  // ----- The record afterwards -----

  function PhaseAfter(r: Record, event: Event): Phase {
    match event
    case Claim(_, _, _) => if r.phase == Accepted then MutationClaimed else r.phase
    case ObserveFirstHop(_) => if r.phase in {Accepted, MutationClaimed} then FirstHopObserved else r.phase
    case Progress(_) => if r.phase in {Accepted, MutationClaimed} then FirstHopObserved else r.phase
    case ArmLeg(leg, _) => if OtherLeg(r, leg).Some? then HandoffArmed else HandoffArming
    case LegCrashed(crashed, _) => if crashed.CrashedTarget? then OldServiceDead else r.phase
    case RequestOldServiceStop(_) => OldServiceStopClaimed
    case ReportOldServiceDead(_) => OldServiceDead
    case ReportTargetLive(_, _) => TargetSupervisorLive
    case ObserveManagedSet(_, _) => ManagedSetConverged
    case WriteTerminalOutbox(_) => TerminalOutbox
    case ObserveReceipt(_) => ReceiptObserved
    case Reconcile => if r.phase == ReceiptObserved then Finalized else r.phase
    case _ => r.phase
  }

  predicate Crashed(event: Event, role: CrashRole) {
    event.LegCrashed? && event.crashed == role
  }

  /** The process an event reports gone, if it does. */
  function Gone(event: Event): Option<Process> {
    if event.LegCrashed? then Some(event.process)
    else if event.ReportOldServiceDead? then Some(event.source)
    else None
  }

  ghost predicate SameHandoff(r: Record, event: Event, q: Record) {
    && q.originRunner == (if Crashed(event, CrashedOrigin) then None
                          else if event.ExplicitStart? then Some(event.process) else r.originRunner)
    && q.coordinator == (if Crashed(event, CrashedCoordinator) then None
                         else if event.ArmLeg? && event.leg == CoordinatorLeg then Some(event.process) else r.coordinator)
    && q.standby == (if Crashed(event, CrashedStandby) then None
                     else if event.ArmLeg? && event.leg == StandbyLeg then Some(event.process) else r.standby)
    && q.observedOldProcesses == r.observedOldProcesses
         + (if Gone(event).Some? && Gone(event).value !in r.observedOldProcesses then [Gone(event).value] else [])
  }

  ghost predicate SameTarget(r: Record, event: Event, q: Record) {
    var lost := Crashed(event, CrashedTarget);
    && q.observedTargetGeneration == (if lost then None
                                      else if event.AllocateTargetGeneration? then Some(event.generation)
                                      else r.observedTargetGeneration)
    && q.targetSupervisor == (if lost then None
                              else if event.ReportTargetLive? then Some(event.process) else r.targetSupervisor)
    && q.currentManagedSetRevision == (if lost then r.acceptance.acceptedManagedSetRevision
                                       else if event.ObserveManagedSet? then event.revision
                                       else r.currentManagedSetRevision)
    && q.terminalOutbox == (if lost then None
                            else if event.WriteTerminalOutbox? then Some(Stamp(r.identity.dispatchOperationId, event.at))
                            else r.terminalOutbox)
    && q.receipt == (if lost then None
                     else if event.ObserveReceipt? then Some(Stamp(r.identity.dispatchOperationId, event.at))
                     else r.receipt)
  }

  ghost predicate SameClaim(r: Record, event: Event, q: Record) {
    var released := event.ExplicitStart? || q.phase == Finalized;
    && q.claimEpoch == (if event.Claim? then event.claimEpoch else r.claimEpoch)
    && q.leaseHolder == (if event.Claim? then Some(event.holder) else if released then None else r.leaseHolder)
    && q.leaseUntil == (if event.Claim? then Some(event.leaseUntil) else if released then None else r.leaseUntil)
    && q.firstHopProgressOrdinal == (if event.ObserveFirstHop? || event.Progress? then event.progressOrdinal
                                     else r.firstHopProgressOrdinal)
  }

  lemma AdvanceShape(r: Record, effect: Effect)
    ensures var result := AdvanceWith(r, effect);
            && result.Applied?
            && result.record == r.(phaseVersion := r.phaseVersion + 1, effectIntents := r.effectIntents + result.effects)
            && result.effects == if IsNew(r, effect) then [effect] else []
  {
    assert r.effectIntents + [] == r.effectIntents;
  }

  ghost predicate After(r: Record, event: Event, q: Record) {
    && q.identity == r.identity && q.acceptance == r.acceptance && q.phaseVersion == r.phaseVersion + 1
    && q.phase == PhaseAfter(r, event)
    && SameClaim(r, event, q) && SameHandoff(r, event, q) && SameTarget(r, event, q)
  }

  lemma CrashAfter(r: Record, event: Event)
    requires event.LegCrashed? && r.phase != Finalized && Dispatch(r, event).Applied?
    ensures After(r, event, Dispatch(r, event).record)
  {
    hide AdvanceWith, IsNew;
    var next := WithoutLeg(r, event.crashed).(observedOldProcesses := AppendProcess(r.observedOldProcesses, event.process));
    AdvanceShape(next, CoordinatorEffect(r));
    AdvanceShape(next, StandbyEffect(r));
    AdvanceShape(next, CrashPromotionEffect(r));
    assert r.observedOldProcesses + [] == r.observedOldProcesses;
  }

  lemma ReconcileAfter(r: Record)
    requires r.phase != Finalized && Dispatch(r, Reconcile).Applied?
    ensures After(r, Reconcile, Dispatch(r, Reconcile).record)
  {
    hide AdvanceWith, IsNew, ReconcileEffect;
    assert r.observedOldProcesses + [] == r.observedOldProcesses;
    if r.phase != ReceiptObserved && ReconcileEffect(r).Some? {
      AdvanceShape(r, ReconcileEffect(r).value);
    }
  }

  lemma StopAfter(r: Record, event: Event)
    requires event.RequestOldServiceStop? || event.WriteTerminalOutbox?
    requires r.phase != Finalized && Dispatch(r, event).Applied?
    ensures After(r, event, Dispatch(r, event).record)
  {
    hide AdvanceWith, IsNew, CapturedService, StopEffect;
    assert r.observedOldProcesses + [] == r.observedOldProcesses;
    if event.RequestOldServiceStop? {
      AdvanceShape(r.(phase := OldServiceStopClaimed), StopEffect(r, event.source));
    } else {
      AdvanceShape(r.(phase := TerminalOutbox, terminalOutbox := Some(Stamp(r.identity.dispatchOperationId, event.at))),
                   OutboxEffect(r));
    }
  }

  lemma HandoffAfter(r: Record, event: Event)
    requires Plain(event) && Handoff(event) && r.phase != Finalized && Dispatch(r, event).Applied?
    ensures After(r, event, Dispatch(r, event).record)
  {
    assert r.observedOldProcesses + [] == r.observedOldProcesses;
  }

  lemma TargetAfter(r: Record, event: Event)
    requires Plain(event) && !Handoff(event) && r.phase != Finalized && Dispatch(r, event).Applied?
    ensures After(r, event, Dispatch(r, event).record)
  {
    hide ManagedSetMatches, CapturedService;
    assert r.observedOldProcesses + [] == r.observedOldProcesses;
  }

  /** After a transition, field by field. */
  lemma RecordAfter(r: Record, expected: int, event: Event)
    requires Reduce(r, expected, event).Applied?
    ensures After(r, event, Reduce(r, expected, event).record)
  {
    hide Dispatch, After, GoesThrough, RefusedFor;
    AnswersExactly(r, expected, event);
    if event.LegCrashed? {
      CrashAfter(r, event);
    } else if event.Reconcile? {
      ReconcileAfter(r);
    } else if event.RequestOldServiceStop? || event.WriteTerminalOutbox? {
      StopAfter(r, event);
    } else if Handoff(event) {
      HandoffAfter(r, event);
    } else {
      TargetAfter(r, event);
    }
  }

  // ----- The effects -----

  predicate IsFor(e: Effect, r: Record, kind: EffectKind, suffix: string, process: Option<Process>, generation: Option<string>) {
    e == Effect(Key(kind, r.identity.dispatchOperationId, suffix), kind, process, generation)
  }

  /** The event asks for this effect. */
  predicate Wants(r: Record, event: Event, e: Effect) {
    var epoch := Decimal(r.claimEpoch + 1);
    match e.kind
    case SpawnCoordinator =>
      && IsFor(e, r, SpawnCoordinator, epoch, None, None)
      && (Crashed(event, CrashedCoordinator) || (event.Reconcile? && r.coordinator.None? && BeforeTargetLive(r.phase)))
    case SpawnStandby =>
      && IsFor(e, r, SpawnStandby, epoch, None, None)
      && (Crashed(event, CrashedStandby)
          || (event.Reconcile? && r.coordinator.Some? && r.standby.None? && BeforeStopClaimed(r.phase)))
    case StopOldService =>
      && event.RequestOldServiceStop?
      && IsFor(e, r, StopOldService, Decimal(event.source.pid) + ":" + event.source.startIdentity, Some(event.source), None)
    case PromoteStandby =>
      || (Crashed(event, CrashedTarget) && IsFor(e, r, PromoteStandby, epoch, None, None))
      || (event.Reconcile? && r.coordinator.Some? && r.phase == OldServiceDead && r.observedTargetGeneration.Some?
          && r.observedTargetGeneration.value != ""
          && IsFor(e, r, PromoteStandby, r.observedTargetGeneration.value, None, r.observedTargetGeneration))
    case WriteOutbox =>
      && IsFor(e, r, WriteOutbox, "", None, None)
      && (event.WriteTerminalOutbox?
          || (event.Reconcile? && r.phase == ManagedSetConverged && r.terminalOutbox.None?))
  }

  ghost predicate IsNew(r: Record, e: Effect) {
    forall i :: 0 <= i < |r.effectIntents| ==> r.effectIntents[i].key != e.key
  }

  ghost predicate HandsOut(r: Record, event: Event, result: Result) {
    && result.Applied? && |result.effects| <= 1
    && (forall e :: e in result.effects <==> Wants(r, event, e) && IsNew(r, e))
    && result.record.effectIntents == r.effectIntents + result.effects
  }

  /** A transition that asks for one effect. */
  lemma HandsOutOne(r: Record, q: Record, event: Event, effect: Effect)
    requires q.effectIntents == r.effectIntents && forall e :: Wants(r, event, e) <==> e == effect
    ensures HandsOut(r, event, AdvanceWith(q, effect))
  {
    hide AdvanceWith, Wants;
    AdvanceShape(q, effect);
  }

  lemma HandsOutNone(r: Record, q: Record, event: Event)
    requires q.effectIntents == r.effectIntents && forall e :: !Wants(r, event, e)
    ensures HandsOut(r, event, Advance(q, []))
  {
    hide Wants;
    assert r.effectIntents + [] == r.effectIntents;
  }

  lemma CrashHandsOut(r: Record, event: Event)
    requires event.LegCrashed? && Dispatch(r, event).Applied?
    ensures HandsOut(r, event, Dispatch(r, event))
  {
    hide AdvanceWith, HandsOut, Decimal;
    var next := WithoutLeg(r, event.crashed).(observedOldProcesses := AppendProcess(r.observedOldProcesses, event.process));
    match event.crashed
    case CrashedOrigin => HandsOutNone(r, next, event);
    case CrashedCoordinator => HandsOutOne(r, next, event, CoordinatorEffect(r));
    case CrashedStandby => HandsOutOne(r, next, event, StandbyEffect(r));
    case CrashedTarget => HandsOutOne(r, next, event, CrashPromotionEffect(r));
  }

  lemma ReconcileHandsOut(r: Record)
    requires r.phase != Finalized && Dispatch(r, Reconcile).Applied?
    ensures HandsOut(r, Reconcile, Dispatch(r, Reconcile))
  {
    hide AdvanceWith, HandsOut, Decimal;
    if r.phase == ReceiptObserved {
      HandsOutNone(r, r.(phase := Finalized, leaseHolder := None, leaseUntil := None), Reconcile);
    } else {
      HandsOutOne(r, r, Reconcile, ReconcileEffect(r).value);
    }
  }

  lemma StopHandsOut(r: Record, event: Event)
    requires event.RequestOldServiceStop? || event.WriteTerminalOutbox?
    requires Dispatch(r, event).Applied?
    ensures HandsOut(r, event, Dispatch(r, event))
  {
    hide AdvanceWith, HandsOut, CapturedService, Decimal;
    if event.RequestOldServiceStop? {
      HandsOutOne(r, r.(phase := OldServiceStopClaimed), event, StopEffect(r, event.source));
    } else {
      HandsOutOne(r, r.(phase := TerminalOutbox, terminalOutbox := Some(Stamp(r.identity.dispatchOperationId, event.at))),
                  event, OutboxEffect(r));
    }
  }

  lemma PlainHandsOut(r: Record, event: Event)
    requires Plain(event) && Dispatch(r, event).Applied?
    ensures HandsOut(r, event, Dispatch(r, event))
  {
    hide ManagedSetMatches, CapturedService, Decimal;
    assert r.effectIntents + [] == r.effectIntents;
  }

  /**
   * The effects of a transition: at most one, and it is the one the event asks for,
   * handed out exactly when no intent with its key is on record; the intents on record
   * grow by just that.
   */
  lemma EffectsExactly(r: Record, expected: int, event: Event)
    requires Reduce(r, expected, event).Applied?
    ensures HandsOut(r, event, Reduce(r, expected, event))
  {
    hide Dispatch, HandsOut, GoesThrough, RefusedFor;
    AnswersExactly(r, expected, event);
    if event.LegCrashed? {
      CrashHandsOut(r, event);
    } else if event.Reconcile? {
      ReconcileHandsOut(r);
    } else if event.RequestOldServiceStop? || event.WriteTerminalOutbox? {
      StopHandsOut(r, event);
    } else {
      PlainHandsOut(r, event);
    }
  }

  /** A new record: accepted, version zero, the origin running, nothing armed, observed or handed out. */
  lemma CreatedFields(identity: Identity, acceptance: Acceptance, origin: Process)
    ensures var r := CreateRecord(identity, acceptance, origin);
            && r.identity == identity && r.acceptance == acceptance && r.originRunner == Some(origin)
            && r.phase == Accepted && r.phaseVersion == 0 && r.claimEpoch == 0 && r.firstHopProgressOrdinal == 0
            && r.leaseHolder.None? && r.leaseUntil.None? && r.observedTargetGeneration.None?
            && r.currentManagedSetRevision == acceptance.acceptedManagedSetRevision
            && r.coordinator.None? && r.standby.None? && r.targetSupervisor.None?
            && r.terminalOutbox.None? && r.receipt.None? && r.observedOldProcesses == [] && r.effectIntents == []
  {
  }
}
