/**
 * The durable record of one machine operation and the pure reducer that moves
 * it: claims, two handoff legs, the stop of the old service, the target
 * generation, the managed set, the terminal outbox and its receipt.
 */
module MachineConvergence {
  import opened Basics

  datatype Role = OriginRunner | Coordinator | Standby | Service | ManagedRunner

  datatype Process = Process(
    pid: int,
    startIdentity: string,
    role: Role,
    serverId: Option<string>,
    version: Option<string>)

  datatype DispatchAction = Restart | Upgrade

  datatype Identity = Identity(
    dispatchOperationId: string,
    parentUserOperationId: Option<string>,
    dispatchAction: DispatchAction,
    targetVersion: string,
    adapter: string,
    originServerId: string,
    machineId: string)

  datatype Acceptance = Acceptance(
    sourceServiceGeneration: string,
    acceptedManagedSetRevision: int,
    acceptedManagedServerIds: seq<string>,
    capturedOldProcessIdentities: seq<Process>)

  datatype Phase =
    | Accepted
    | MutationClaimed
    | FirstHopObserved
    | HandoffArming
    | HandoffArmed
    | OldServiceStopClaimed
    | OldServiceDead
    | TargetSupervisorLive
    | ManagedSetConverged
    | TerminalOutbox
    | ReceiptObserved
    | Finalized

  function Rank(p: Phase): nat {
    match p
    case Accepted => 0
    case MutationClaimed => 1
    case FirstHopObserved => 2
    case HandoffArming => 3
    case HandoffArmed => 4
    case OldServiceStopClaimed => 5
    case OldServiceDead => 6
    case TargetSupervisorLive => 7
    case ManagedSetConverged => 8
    case TerminalOutbox => 9
    case ReceiptObserved => 10
    case Finalized => 11
  }

  datatype EffectKind = SpawnCoordinator | SpawnStandby | StopOldService | PromoteStandby | WriteOutbox

  /** An effect key: its prefix is fixed by the kind, then the operation id, then a suffix (see KeyText). */
  datatype Key = Key(prefix: EffectKind, operationId: string, suffix: string)

  datatype Effect = Effect(
    key: Key,
    kind: EffectKind,
    process: Option<Process>,
    targetGeneration: Option<string>)

  datatype Stamp = Stamp(dispatchOperationId: string, at: string)

  datatype Record = Record(
    identity: Identity,
    acceptance: Acceptance,
    phase: Phase,
    phaseVersion: int,
    claimEpoch: int,
    leaseHolder: Option<string>,
    leaseUntil: Option<string>,
    firstHopProgressOrdinal: int,
    currentManagedSetRevision: int,
    observedTargetGeneration: Option<string>,
    originRunner: Option<Process>,
    coordinator: Option<Process>,
    standby: Option<Process>,
    targetSupervisor: Option<Process>,
    observedOldProcesses: seq<Process>,
    effectIntents: seq<Effect>,
    terminalOutbox: Option<Stamp>,
    receipt: Option<Stamp>)

  datatype Leg = CoordinatorLeg | StandbyLeg

  datatype CrashRole = CrashedOrigin | CrashedCoordinator | CrashedStandby | CrashedTarget

  datatype Event =
    | Claim(claimEpoch: int, holder: string, leaseUntil: string)
    | ObserveFirstHop(progressOrdinal: int)
    | ArmLeg(leg: Leg, process: Process)
    | LegCrashed(crashed: CrashRole, process: Process)
    | RequestOldServiceStop(source: Process)
    | ReportOldServiceDead(source: Process)
    | AllocateTargetGeneration(generation: string)
    | ReportTargetLive(generation: string, process: Process)
    | ObserveManagedSet(revision: int, liveRunners: seq<Process>)
    | WriteTerminalOutbox(at: string)
    | ObserveReceipt(at: string)
    | Progress(progressOrdinal: int)
    | ExplicitStart(process: Process)
    | Reconcile

  datatype Rejection =
    | StalePhaseVersion
    | StaleClaimEpoch
    | ClaimEpochConflict
    | HandoffAlreadyCommitted
    | HandoffLegIdentityConflict
    | HandoffNotArmed
    | SourceServiceIdentityMismatch
    | OldServiceStopNotClaimed
    | TargetGenerationConflict
    | OldServiceStillLive
    | TargetGenerationMismatch
    | TargetSupervisorAttestationInvalid
    | TargetSupervisorNotLive
    | ManagedSetNotConverged
    | MachineConvergenceIncomplete
    | TerminalOutboxMissing

  datatype Result =
    | Applied(record: Record, effects: seq<Effect>)
    | Replay(record: Record)
    | IdentityConflict(record: Record)
    | Rejected(code: Rejection, record: Record)

  predicate AtLeast(r: Record, p: Phase) {
    Rank(r.phase) >= Rank(p)
  }

  /** Process identity is equality of all five fields; an absent process matches nothing. */
  predicate SameProcess(left: Option<Process>, right: Process) {
    left == Some(right)
  }

  /** JavaScript truthiness of a nullable string. */
  predicate Truthy(s: Option<string>) {
    s.Some? && s.value != ""
  }

  function AppendProcess(values: seq<Process>, process: Process): seq<Process> {
    if process in values then values else values + [process]
  }

  /** The first captured process in the service role. */
  function FirstService(captured: seq<Process>): (p: Option<Process>)
    ensures p.Some? ==> p.value in captured && p.value.role == Service
    ensures p.None? ==> forall q :: q in captured ==> q.role != Service
  {
    if captured == [] then None
    else if captured[0].role == Service then Some(captured[0])
    else FirstService(captured[1..])
  }

  function CapturedService(r: Record): Option<Process> {
    FirstService(r.acceptance.capturedOldProcessIdentities)
  }

  function CreateRecord(identity: Identity, acceptance: Acceptance, originRunner: Process): Record {
    Record(
      identity, acceptance, Accepted, 0, 0, None, None, 0,
      acceptance.acceptedManagedSetRevision, None, Some(originRunner),
      None, None, None, [], [], None, None)
  }

  function AcceptOperation(existing: Option<Record>, incoming: Record): Result {
    if existing.None? then Applied(incoming, [])
    else if existing.value.identity != incoming.identity then IdentityConflict(existing.value)
    else Replay(existing.value)
  }

  function CoordinatorEffect(r: Record): Effect {
    Effect(Key(SpawnCoordinator, r.identity.dispatchOperationId, Decimal(r.claimEpoch + 1)), SpawnCoordinator, None, None)
  }

  function StandbyEffect(r: Record): Effect {
    Effect(Key(SpawnStandby, r.identity.dispatchOperationId, Decimal(r.claimEpoch + 1)), SpawnStandby, None, None)
  }

  function CrashPromotionEffect(r: Record): Effect {
    Effect(Key(PromoteStandby, r.identity.dispatchOperationId, Decimal(r.claimEpoch + 1)), PromoteStandby, None, None)
  }

  function GenerationPromotionEffect(r: Record, generation: string): Effect {
    Effect(Key(PromoteStandby, r.identity.dispatchOperationId, generation), PromoteStandby, None, Some(generation))
  }

  function StopEffect(r: Record, source: Process): Effect {
    Effect(Key(StopOldService, r.identity.dispatchOperationId, ProcessTag(source)), StopOldService, Some(source), None)
  }

  function ProcessTag(p: Process): string {
    Decimal(p.pid) + [':'] + p.startIdentity
  }

  function OutboxEffect(r: Record): Effect {
    Effect(Key(WriteOutbox, r.identity.dispatchOperationId, []), WriteOutbox, None, None)
  }

  predicate HasKey(effects: seq<Effect>, key: Key) {
    exists i :: 0 <= i < |effects| && effects[i].key == key
  }

  /** Every applied transition advances the phase version by one. */
  function Advance(r: Record, effects: seq<Effect>): Result {
    Applied(r.(phaseVersion := r.phaseVersion + 1), effects)
  }

  /** An effect is recorded and returned only if its key was never recorded before. */
  function AdvanceWith(r: Record, effect: Effect): Result {
    if HasKey(r.effectIntents, effect.key) then Advance(r, [])
    else Advance(r.(effectIntents := r.effectIntents + [effect]), [effect])
  }

  function RaiseTo(r: Record, p: Phase): Phase {
    if AtLeast(r, p) then r.phase else p
  }

  function ReduceClaim(r: Record, epoch: int, holder: string, leaseUntil: string): Result {
    if epoch < r.claimEpoch then Rejected(StaleClaimEpoch, r)
    else if epoch == r.claimEpoch && r.leaseHolder == Some(holder) then Replay(r)
    else if epoch == r.claimEpoch then Rejected(ClaimEpochConflict, r)
    else Advance(r.(phase := RaiseTo(r, MutationClaimed), claimEpoch := epoch,
                    leaseHolder := Some(holder), leaseUntil := Some(leaseUntil)), [])
  }

  function ReduceProgress(r: Record, ordinal: int): Result {
    if ordinal <= r.firstHopProgressOrdinal then Replay(r)
    else Advance(r.(phase := RaiseTo(r, FirstHopObserved), firstHopProgressOrdinal := ordinal), [])
  }

  function ReduceArm(r: Record, leg: Leg, process: Process): Result {
    var existing := if leg.CoordinatorLeg? then r.coordinator else r.standby;
    var other := if leg.CoordinatorLeg? then r.standby else r.coordinator;
    if AtLeast(r, OldServiceStopClaimed) then Rejected(HandoffAlreadyCommitted, r)
    else if existing.Some? && !SameProcess(existing, process) then Rejected(HandoffLegIdentityConflict, r)
    else if existing.Some? then Replay(r)
    else
      var armed := r.(phase := if other.Some? then HandoffArmed else HandoffArming);
      Advance(if leg.CoordinatorLeg? then armed.(coordinator := Some(process))
              else armed.(standby := Some(process)), [])
  }

  function LegOf(r: Record, crashed: CrashRole): Option<Process> {
    match crashed
    case CrashedOrigin => r.originRunner
    case CrashedCoordinator => r.coordinator
    case CrashedStandby => r.standby
    case CrashedTarget => r.targetSupervisor
  }

  /** A crashed target invalidates everything observed under its generation. */
  function WithoutLeg(r: Record, crashed: CrashRole): Record {
    match crashed
    case CrashedOrigin => r.(originRunner := None)
    case CrashedCoordinator => r.(coordinator := None)
    case CrashedStandby => r.(standby := None)
    case CrashedTarget =>
      r.(phase := OldServiceDead, observedTargetGeneration := None, targetSupervisor := None,
         currentManagedSetRevision := r.acceptance.acceptedManagedSetRevision,
         terminalOutbox := None, receipt := None)
  }

  function ReduceCrash(r: Record, crashed: CrashRole, process: Process): Result {
    if r.receipt.Some? || !SameProcess(LegOf(r, crashed), process) then Replay(r)
    else
      var next := WithoutLeg(r, crashed).(observedOldProcesses := AppendProcess(r.observedOldProcesses, process));
      match crashed
      case CrashedOrigin => Advance(next, [])
      case CrashedCoordinator => AdvanceWith(next, CoordinatorEffect(r))
      case CrashedStandby => AdvanceWith(next, StandbyEffect(r))
      case CrashedTarget => AdvanceWith(next, CrashPromotionEffect(r))
  }

  function ReduceStop(r: Record, source: Process): Result {
    if r.coordinator.None? || r.standby.None? || r.phase != HandoffArmed then Rejected(HandoffNotArmed, r)
    else if CapturedService(r) != Some(source) then Rejected(SourceServiceIdentityMismatch, r)
    else AdvanceWith(r.(phase := OldServiceStopClaimed), StopEffect(r, source))
  }

  function ReduceDead(r: Record, source: Process): Result {
    if r.phase != OldServiceStopClaimed then Rejected(OldServiceStopNotClaimed, r)
    else if CapturedService(r) != Some(source) then Rejected(SourceServiceIdentityMismatch, r)
    else Advance(r.(phase := OldServiceDead,
                    observedOldProcesses := AppendProcess(r.observedOldProcesses, source)), [])
  }

  function ReduceAllocate(r: Record, generation: string): Result {
    if r.observedTargetGeneration == Some(generation) then Replay(r)
    else if Truthy(r.observedTargetGeneration) then Rejected(TargetGenerationConflict, r)
    else Advance(r.(observedTargetGeneration := Some(generation)), [])
  }

  function ReduceLive(r: Record, generation: string, process: Process): Result {
    if !AtLeast(r, OldServiceDead) then Rejected(OldServiceStillLive, r)
    else if r.observedTargetGeneration != Some(generation) then Rejected(TargetGenerationMismatch, r)
    else if process.role != Service || process.version != Some(r.identity.targetVersion) then
      Rejected(TargetSupervisorAttestationInvalid, r)
    else Advance(r.(phase := TargetSupervisorLive, targetSupervisor := Some(process)), [])
  }

  /** Every accepted server has a live runner, and all runners are managed runners at the target version. */
  predicate ManagedSetMatches(r: Record, revision: int, liveRunners: seq<Process>) {
    && revision >= r.acceptance.acceptedManagedSetRevision
    && (forall id :: id in r.acceptance.acceptedManagedServerIds ==>
          exists i :: 0 <= i < |liveRunners| && liveRunners[i].serverId == Some(id))
    && (forall i :: 0 <= i < |liveRunners| ==>
          liveRunners[i].role == ManagedRunner && liveRunners[i].version == Some(r.identity.targetVersion))
  }

  function ReduceManagedSet(r: Record, revision: int, liveRunners: seq<Process>): Result {
    if r.phase != TargetSupervisorLive then Rejected(TargetSupervisorNotLive, r)
    else if !ManagedSetMatches(r, revision, liveRunners) then Rejected(ManagedSetNotConverged, r)
    else Advance(r.(phase := ManagedSetConverged, currentManagedSetRevision := revision), [])
  }

  function ReduceOutbox(r: Record, at: string): Result {
    if r.phase != ManagedSetConverged then Rejected(MachineConvergenceIncomplete, r)
    else if r.terminalOutbox.Some? then Replay(r)
    else AdvanceWith(r.(phase := TerminalOutbox,
                        terminalOutbox := Some(Stamp(r.identity.dispatchOperationId, at))), OutboxEffect(r))
  }

  function ReduceReceipt(r: Record, at: string): Result {
    if r.terminalOutbox.None? then Rejected(TerminalOutboxMissing, r)
    else if r.receipt.Some? then Replay(r)
    else Advance(r.(phase := ReceiptObserved,
                    receipt := Some(Stamp(r.identity.dispatchOperationId, at))), [])
  }

  function ReduceStart(r: Record, process: Process): Result {
    if SameProcess(r.originRunner, process) then Replay(r)
    else Advance(r.(originRunner := Some(process), leaseHolder := None, leaseUntil := None), [])
  }

  function ReconcileEffect(r: Record): Option<Effect> {
    if r.coordinator.None? && !AtLeast(r, TargetSupervisorLive) then Some(CoordinatorEffect(r))
    else if r.coordinator.Some? && r.standby.None? && !AtLeast(r, OldServiceStopClaimed) then Some(StandbyEffect(r))
    else if r.phase == OldServiceDead && Truthy(r.observedTargetGeneration) then
      Some(GenerationPromotionEffect(r, r.observedTargetGeneration.value))
    else if r.phase == ManagedSetConverged && r.terminalOutbox.None? then Some(OutboxEffect(r))
    else None
  }

  function ReduceReconcile(r: Record): Result {
    if r.phase == ReceiptObserved then Advance(r.(phase := Finalized, leaseHolder := None, leaseUntil := None), [])
    else
      var effect := ReconcileEffect(r);
      if effect.None? then Replay(r) else AdvanceWith(r, effect.value)
  }

  function Dispatch(r: Record, event: Event): Result {
    match event
    case Claim(epoch, holder, until) => ReduceClaim(r, epoch, holder, until)
    case ObserveFirstHop(ordinal) => ReduceProgress(r, ordinal)
    case ArmLeg(leg, process) => ReduceArm(r, leg, process)
    case LegCrashed(crashed, process) => ReduceCrash(r, crashed, process)
    case RequestOldServiceStop(source) => ReduceStop(r, source)
    case ReportOldServiceDead(source) => ReduceDead(r, source)
    case AllocateTargetGeneration(generation) => ReduceAllocate(r, generation)
    case ReportTargetLive(generation, process) => ReduceLive(r, generation, process)
    case ObserveManagedSet(revision, runners) => ReduceManagedSet(r, revision, runners)
    case WriteTerminalOutbox(at) => ReduceOutbox(r, at)
    case ObserveReceipt(at) => ReduceReceipt(r, at)
    case Progress(ordinal) => ReduceProgress(r, ordinal)
    case ExplicitStart(process) => ReduceStart(r, process)
    case Reconcile => ReduceReconcile(r)
  }

  /** One event against the record it expects to find. */
  function Reduce(r: Record, expectedPhaseVersion: int, event: Event): Result {
    if expectedPhaseVersion != r.phaseVersion then Rejected(StalePhaseVersion, r)
    else if r.phase == Finalized && event != Reconcile then Replay(r)
    else Dispatch(r, event)
  }

  // ----- Effect keys as text -----

  function PrefixText(kind: EffectKind): string {
    match kind
    case SpawnCoordinator => "coordinator:"
    case SpawnStandby => "standby:"
    case StopOldService => "stop:"
    case PromoteStandby => "promote:"
    case WriteOutbox => "outbox:"
  }

  /** The key string of the source. The outbox key ends with the operation id. */
  function KeyText(k: Key): string {
    PrefixText(k.prefix) + k.operationId + (if k.prefix == WriteOutbox then [] else [':'] + k.suffix)
  }

  lemma CommonPrefix(p: string, a: string, b: string)
    requires p + a == p + b
    ensures a == b
  {
    assert a == (p + a)[|p|..] && b == (p + b)[|p|..];
  }

  /** The first and third letter tell the prefixes apart. */
  lemma ThirdLetter(k: Key)
    ensures |KeyText(k)| >= 3
    ensures KeyText(k)[2] == match k.prefix
                             case SpawnCoordinator => 'o' case SpawnStandby => 'a' case StopOldService => 'o'
                             case PromoteStandby => 'o' case WriteOutbox => 't'
    ensures KeyText(k)[0] == match k.prefix
                             case SpawnCoordinator => 'c' case SpawnStandby => 's' case StopOldService => 's'
                             case PromoteStandby => 'p' case WriteOutbox => 'o'
  {
    var p := PrefixText(k.prefix);
    assert KeyText(k)[..|p|] == p;
    assert KeyText(k)[0] == p[0] && KeyText(k)[2] == p[2];
  }

  /** Within one operation, comparing key strings is comparing keys. */
  lemma KeyTextIsKey(a: Key, b: Key)
    requires a.operationId == b.operationId
    requires (a.prefix == WriteOutbox ==> a.suffix == []) && (b.prefix == WriteOutbox ==> b.suffix == [])
    ensures KeyText(a) == KeyText(b) <==> a == b
  {
    ThirdLetter(a);
    ThirdLetter(b);
    if KeyText(a) == KeyText(b) && a.prefix != WriteOutbox {
      var p := PrefixText(a.prefix) + a.operationId;
      CommonPrefix(p, [':'] + a.suffix, [':'] + b.suffix);
      CommonPrefix([':'], a.suffix, b.suffix);
    }
  }

  /** The key strings as the source spells them. */
  lemma KeyTexts(operationId: string, suffix: string)
    ensures KeyText(Key(SpawnCoordinator, operationId, suffix)) == "coordinator:" + operationId + ":" + suffix
    ensures KeyText(Key(SpawnStandby, operationId, suffix)) == "standby:" + operationId + ":" + suffix
    ensures KeyText(Key(StopOldService, operationId, suffix)) == "stop:" + operationId + ":" + suffix
    ensures KeyText(Key(PromoteStandby, operationId, suffix)) == "promote:" + operationId + ":" + suffix
    ensures KeyText(Key(WriteOutbox, operationId, suffix)) == "outbox:" + operationId
  {
    forall kind: EffectKind ensures PrefixText(kind) + operationId + ([':'] + suffix) == PrefixText(kind) + operationId + ":" + suffix {
    }
    assert PrefixText(WriteOutbox) + operationId + [] == PrefixText(WriteOutbox) + operationId;
  }
}
