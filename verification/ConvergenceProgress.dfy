/**
 * From which records an operation can still be finalized. A repeated report of a
 * live target after the receipt pulls the phase back while the receipt stays;
 * from there no event reaches finalization.
 */
module ConvergenceProgress {
  import opened Basics
  import opened MachineConvergence
  import opened ConvergenceInvariants
  import opened ConvergenceRuns

  /** Some run leads from r to q. */
  ghost predicate Reaches(r: Record, q: Record) {
    exists run: seq<Input> :: StateAt(r, run, |run|) == q
  }

  function Next(r: Record, event: Event): Record {
    Reduce(r, r.phaseVersion, event).record
  }

  lemma {:induction false} PrefixState(r: Record, run: seq<Input>, more: seq<Input>, n: nat)
    requires n <= |run|
    ensures StateAt(r, run + more, n) == StateAt(r, run, n)
  {
    hide Reduce;
    if n > 0 {
      PrefixState(r, run, more, n - 1);
    }
  }

  lemma {:induction false} SuffixState(r: Record, run: seq<Input>, more: seq<Input>, n: nat)
    requires n <= |more|
    ensures StateAt(r, run + more, |run| + n) == StateAt(StateAt(r, run, |run|), more, n)
  {
    hide Reduce;
    if n == 0 {
      PrefixState(r, run, more, |run|);
    } else {
      SuffixState(r, run, more, n - 1);
    }
  }

  lemma ReachesTransitive(p: Record, q: Record, r: Record)
    requires Reaches(p, q) && Reaches(q, r)
    ensures Reaches(p, r)
  {
    hide Reduce;
    var a: seq<Input> :| StateAt(p, a, |a|) == q;
    var b: seq<Input> :| StateAt(q, b, |b|) == r;
    SuffixState(p, a, b, |b|);
    assert StateAt(p, a + b, |a + b|) == r;
  }

  lemma ReachesNext(r: Record, event: Event)
    ensures Reaches(r, Next(r, event))
  {
    hide Reduce;
    var run := [Input(r.phaseVersion, event)];
    assert StateAt(r, run, 0) == r;
    assert StateAt(r, run, |run|) == Next(r, event);
  }

  lemma ReachesItself(r: Record)
    ensures Reaches(r, r)
  {
    var run: seq<Input> := [];
    assert StateAt(r, run, |run|) == r;
  }

  /** One step on the way: reachable, sound, and for the same operation. */
  lemma Go(r: Record, event: Event) returns (q: Record)
    requires Inv(r)
    ensures q == Next(r, event) && Inv(q) && Reaches(r, q)
    ensures q.acceptance == r.acceptance && q.identity == r.identity
  {
    hide Reduce;
    q := Next(r, event);
    ReachesNext(r, event);
    ReduceStep(r, r.phaseVersion, event);
  }

  lemma ArmCoordinator(r: Record, process: Process) returns (q: Record)
    requires Inv(r) && !AtLeast(r, OldServiceStopClaimed)
    ensures Inv(q) && Reaches(r, q) && q.observedTargetGeneration == r.observedTargetGeneration
    ensures q.acceptance == r.acceptance
    ensures !AtLeast(q, OldServiceStopClaimed) && q.coordinator.Some?
  {
    hide Reaches;
    q := Go(r, ArmLeg(CoordinatorLeg, if r.coordinator.Some? then r.coordinator.value else process));
  }

  lemma ArmStandby(r: Record, process: Process) returns (q: Record)
    requires Inv(r) && !AtLeast(r, OldServiceStopClaimed) && r.coordinator.Some?
    ensures Inv(q) && Reaches(r, q) && q.observedTargetGeneration == r.observedTargetGeneration
    ensures q.acceptance == r.acceptance
    ensures q.phase == HandoffArmed && q.coordinator.Some? && q.standby.Some?
  {
    hide Reaches;
    q := Go(r, ArmLeg(StandbyLeg, if r.standby.Some? then r.standby.value else process));
  }

  lemma StopService(r: Record) returns (q: Record)
    requires Inv(r) && r.phase == HandoffArmed && r.coordinator.Some? && r.standby.Some?
    requires CapturedService(r).Some?
    ensures Inv(q) && Reaches(r, q) && q.observedTargetGeneration == r.observedTargetGeneration
    ensures q.acceptance == r.acceptance && q.phase == OldServiceStopClaimed
  {
    hide Reaches;
    q := Go(r, RequestOldServiceStop(CapturedService(r).value));
  }

  lemma SeeServiceDead(r: Record) returns (q: Record)
    requires Inv(r) && r.phase == OldServiceStopClaimed
    ensures Inv(q) && Reaches(r, q) && q.observedTargetGeneration == r.observedTargetGeneration
    ensures q.acceptance == r.acceptance && q.phase == OldServiceDead
  {
    hide Reaches;
    q := Go(r, ReportOldServiceDead(CapturedService(r).value));
  }

  /** Some generation is on record; a fresh one if there was none. */
  lemma NameGeneration(r: Record, generation: string) returns (q: Record)
    requires Inv(r) && r.phase == OldServiceDead
    ensures Inv(q) && Reaches(r, q) && q.phase == OldServiceDead && q.observedTargetGeneration.Some?
    ensures r.observedTargetGeneration.None? ==> q.observedTargetGeneration == Some(generation)
  {
    hide Reaches;
    if r.observedTargetGeneration.None? {
      q := Go(r, AllocateTargetGeneration(generation));
    } else {
      q := r;
      ReachesItself(r);
    }
  }

  lemma SeeTargetLive(r: Record) returns (q: Record)
    requires Inv(r) && r.phase == OldServiceDead && r.observedTargetGeneration.Some?
    ensures Inv(q) && Reaches(r, q) && q.phase == TargetSupervisorLive
    ensures q.receipt.None? && q.terminalOutbox.None? && q.observedTargetGeneration == r.observedTargetGeneration
  {
    hide Reaches;
    q := Go(r, ReportTargetLive(r.observedTargetGeneration.value,
                                Process(0, "", Service, None, Some(r.identity.targetVersion))));
  }

  /** One managed runner per accepted server, at the target version. */
  function Runners(ids: seq<string>, version: string): (runners: seq<Process>)
    ensures |runners| == |ids|
    ensures forall i :: 0 <= i < |ids| ==>
              runners[i] == Process(0, "", ManagedRunner, Some(ids[i]), Some(version))
  {
    seq(|ids|, i requires 0 <= i < |ids| => Process(0, "", ManagedRunner, Some(ids[i]), Some(version)))
  }

  lemma RunnersMatch(r: Record)
    ensures ManagedSetMatches(r, r.acceptance.acceptedManagedSetRevision,
                              Runners(r.acceptance.acceptedManagedServerIds, r.identity.targetVersion))
  {
    var ids := r.acceptance.acceptedManagedServerIds;
    var runners := Runners(ids, r.identity.targetVersion);
    forall id | id in ids ensures exists i :: 0 <= i < |runners| && runners[i].serverId == Some(id) {
      var i :| 0 <= i < |ids| && ids[i] == id;
      assert runners[i].serverId == Some(id);
    }
  }

  lemma SeeManagedSet(r: Record) returns (q: Record)
    requires Inv(r) && r.phase == TargetSupervisorLive
    ensures Inv(q) && Reaches(r, q) && q.phase == ManagedSetConverged
    ensures q.receipt == r.receipt && q.terminalOutbox == r.terminalOutbox
    ensures q.observedTargetGeneration == r.observedTargetGeneration
  {
    hide Reaches, ManagedSetMatches;
    RunnersMatch(r);
    q := Go(r, ObserveManagedSet(r.acceptance.acceptedManagedSetRevision,
                                 Runners(r.acceptance.acceptedManagedServerIds, r.identity.targetVersion)));
  }

  lemma WriteOutboxEntry(r: Record) returns (q: Record)
    requires Inv(r) && r.phase == ManagedSetConverged && r.terminalOutbox.None? && r.receipt.None?
    ensures Inv(q) && Reaches(r, q) && q.terminalOutbox.Some? && q.receipt.None?
    ensures q.observedTargetGeneration == r.observedTargetGeneration
  {
    hide Reaches;
    q := Go(r, WriteTerminalOutbox(""));
  }

  lemma SeeReceipt(r: Record) returns (q: Record)
    requires Inv(r) && r.terminalOutbox.Some? && r.receipt.None?
    ensures Inv(q) && Reaches(r, q) && q.phase == ReceiptObserved
  {
    hide Reaches, StopIntentInv, LegsInv, DistinctKeys, Distinct, AdvanceWith;
    q := Go(r, ObserveReceipt(""));
  }

  lemma Finalize(r: Record) returns (q: Record)
    requires Inv(r) && r.phase == ReceiptObserved
    ensures Reaches(r, q) && q.phase == Finalized
  {
    hide Reaches;
    q := Go(r, Reconcile);
  }

  /** What a caller can read off the record: a receipt that the phase shows, or none yet and a service to stop. */
  predicate CanFinalize(r: Record) {
    AtLeast(r, ReceiptObserved) || (r.receipt.None? && CapturedService(r).Some?)
  }

  lemma ReachDead(r: Record) returns (q: Record)
    requires Inv(r) && !AtLeast(r, TargetSupervisorLive) && CapturedService(r).Some?
    ensures Inv(q) && Reaches(r, q) && q.phase == OldServiceDead
    ensures q.observedTargetGeneration == r.observedTargetGeneration
  {
    hide Reaches, Inv;
    if r.phase == OldServiceDead {
      q := r;
      ReachesItself(r);
    } else if r.phase == OldServiceStopClaimed {
      q := SeeServiceDead(r);
    } else {
      var leg := Process(0, "", Coordinator, None, None);
      var a := ArmCoordinator(r, leg);
      var b := ArmStandby(a, leg);
      var c := StopService(b);
      q := SeeServiceDead(c);
      ReachesTransitive(r, a, b);
      ReachesTransitive(r, b, c);
      ReachesTransitive(r, c, q);
    }
  }

  /** From anywhere before a live target, an outbox entry can be reached under a generation of one's choice. */
  lemma ReachLive(r: Record, generation: string) returns (q: Record)
    requires Inv(r) && !AtLeast(r, TargetSupervisorLive) && CapturedService(r).Some?
    ensures Inv(q) && Reaches(r, q) && q.phase == TargetSupervisorLive && q.terminalOutbox.None? && q.receipt.None?
    ensures r.observedTargetGeneration.None? ==> q.observedTargetGeneration == Some(generation)
  {
    hide Reaches, Inv;
    var a := ReachDead(r);
    var b := NameGeneration(a, generation);
    q := SeeTargetLive(b);
    ReachesTransitive(r, a, b);
    ReachesTransitive(r, b, q);
  }

  lemma LiveToOutbox(r: Record) returns (q: Record)
    requires Inv(r) && r.phase == TargetSupervisorLive && r.terminalOutbox.None? && r.receipt.None?
    ensures Inv(q) && Reaches(r, q) && q.terminalOutbox.Some? && q.receipt.None?
    ensures q.observedTargetGeneration == r.observedTargetGeneration
  {
    hide Reaches, Inv;
    var a := SeeManagedSet(r);
    q := WriteOutboxEntry(a);
    ReachesTransitive(r, a, q);
  }

  lemma ReachOutbox(r: Record) returns (q: Record)
    requires Inv(r) && r.receipt.None? && CapturedService(r).Some?
    ensures Inv(q) && Reaches(r, q) && q.terminalOutbox.Some? && q.receipt.None?
  {
    hide Reaches;
    if r.terminalOutbox.Some? {
      q := r;
      ReachesItself(r);
    } else if r.phase == ManagedSetConverged {
      q := WriteOutboxEntry(r);
    } else if r.phase == TargetSupervisorLive {
      q := LiveToOutbox(r);
    } else {
      var a := ReachLive(r, "");
      q := LiveToOutbox(a);
      ReachesTransitive(r, a, q);
    }
  }

  lemma CanReachFinalized(r: Record) returns (q: Record)
    requires Inv(r) && CanFinalize(r)
    ensures Reaches(r, q) && q.phase == Finalized
  {
    hide Reaches, Inv;
    if r.phase == Finalized {
      q := r;
      ReachesItself(r);
    } else if r.phase == ReceiptObserved {
      q := Finalize(r);
    } else {
      var a := ReachOutbox(r);
      var b := SeeReceipt(a);
      q := Finalize(b);
      ReachesTransitive(r, a, b);
      ReachesTransitive(r, b, q);
    }
  }

  /** A record that cannot be finalized stays that way under every event. */
  lemma StuckStep(r: Record, expected: int, event: Event)
    requires Inv(r) && !CanFinalize(r)
    ensures !CanFinalize(Reduce(r, expected, event).record)
  {
    UnappliedKeeps(r, expected, event);
    if Reduce(r, expected, event).Applied? {
      StuckDispatch(r, event);
    }
  }

  /** Without a service to stop, the phase stays below the stop claim. */
  lemma NothingToStop(r: Record, event: Event)
    requires Inv(r) && CapturedService(r).None? && Dispatch(r, event).Applied?
    ensures !AtLeast(Dispatch(r, event).record, OldServiceStopClaimed)
  {
    hide Inv, AdvanceWith, ReconcileEffect, AppendProcess;
    NothingStopped(r);
    forall q: Record, effect: Effect ensures AdvanceWith(q, effect).Applied? && AdvanceWith(q, effect).record.phase == q.phase {
      AdvanceKeepsPhase(q, effect);
    }
  }

  lemma NothingStopped(r: Record)
    requires Inv(r) && CapturedService(r).None?
    ensures !AtLeast(r, OldServiceStopClaimed) && r.targetSupervisor.None? && r.terminalOutbox.None?
  {
  }

  lemma AdvanceKeepsPhase(r: Record, effect: Effect)
    ensures AdvanceWith(r, effect).Applied?
    ensures AdvanceWith(r, effect).record.phase == r.phase && AdvanceWith(r, effect).record.receipt == r.receipt
  {
  }

  /** With a receipt that the phase no longer shows, neither changes back. */
  lemma ReceiptStays(r: Record, event: Event)
    requires Inv(r) && r.receipt.Some? && !AtLeast(r, ReceiptObserved) && Dispatch(r, event).Applied?
    ensures Dispatch(r, event).record.receipt == r.receipt
    ensures !AtLeast(Dispatch(r, event).record, ReceiptObserved)
  {
    hide Inv, AdvanceWith, ReconcileEffect, AppendProcess;
    ReceiptMeans(r);
    forall q: Record, effect: Effect
      ensures var next := AdvanceWith(q, effect);
              next.Applied? && next.record.phase == q.phase && next.record.receipt == q.receipt
    {
      AdvanceKeepsPhase(q, effect);
    }
  }

  lemma ReceiptMeans(r: Record)
    requires Inv(r) && r.receipt.Some?
    ensures r.terminalOutbox.Some? && r.targetSupervisor.Some?
  {
  }

  lemma StuckDispatch(r: Record, event: Event)
    requires Inv(r) && !CanFinalize(r) && r.phase != Finalized && Dispatch(r, event).Applied?
    ensures !CanFinalize(Dispatch(r, event).record)
  {
    hide Dispatch;
    DispatchStep(r, event);
    if CapturedService(r).None? {
      NothingToStop(r, event);
    } else {
      ReceiptStays(r, event);
    }
  }

  lemma {:induction false} StuckForever(r: Record, run: seq<Input>, n: nat)
    requires Inv(r) && !CanFinalize(r) && n <= |run|
    ensures !CanFinalize(StateAt(r, run, n))
  {
    hide Reduce;
    if n > 0 {
      StuckForever(r, run, n - 1);
      RunInv(r, run, n - 1);
      StuckStep(StateAt(r, run, n - 1), run[n - 1].expectedPhaseVersion, run[n - 1].event);
    }
  }

  /** An operation can still be finalized if and only if its record passes the check above. */
  lemma FinalizableIff(r: Record)
    requires Inv(r)
    ensures CanFinalize(r) <==> exists q :: Reaches(r, q) && q.phase == Finalized
  {
    hide Reduce, Inv;
    if CanFinalize(r) {
      var q := CanReachFinalized(r);
    } else {
      forall q | Reaches(r, q) ensures q.phase != Finalized {
        var run: seq<Input> :| StateAt(r, run, |run|) == q;
        StuckForever(r, run, |run|);
      }
    }
  }

  /**
   * The check does fail: once the receipt is observed, one more report of the same
   * live target leaves an operation that no event can finalize.
   */
  lemma LateLiveReportStrands(r: Record, process: Process)
    requires Inv(r) && r.phase == ReceiptObserved && r.targetSupervisor == Some(process)
    ensures var event := ReportTargetLive(r.observedTargetGeneration.value, process);
            && Reduce(r, r.phaseVersion, event).Applied?
            && !exists q :: Reaches(Next(r, event), q) && q.phase == Finalized
  {
    hide Reaches;
    var q := Go(r, ReportTargetLive(r.observedTargetGeneration.value, process));
    assert !CanFinalize(q);
    FinalizableIff(q);
  }

  lemma ObservedReceipt(r: Record)
    requires Inv(r) && r.phase == ReceiptObserved
    ensures r.targetSupervisor.Some? && r.observedTargetGeneration.Some?
  {
  }

  /**
   * Every fresh operation with a service to stop can get there: a run reaches a receipt,
   * one more report of the live target is applied, and nothing finalizes it any more.
   */
  lemma FreshOperationStrands(r0: Record) returns (r: Record, event: Event)
    requires Inv(r0) && r0.phase == Accepted && r0.receipt.None? && CapturedService(r0).Some?
    ensures Reaches(r0, r) && r.phase == ReceiptObserved && event.ReportTargetLive?
    ensures Reduce(r, r.phaseVersion, event).Applied?
    ensures !exists q :: Reaches(Next(r, event), q) && q.phase == Finalized
  {
    hide Reaches, Reduce;
    var outbox := ReachOutbox(r0);
    r := SeeReceipt(outbox);
    ReachesTransitive(r0, outbox, r);
    ObservedReceipt(r);
    event := ReportTargetLive(r.observedTargetGeneration.value, r.targetSupervisor.value);
    LateLiveReportStrands(r, r.targetSupervisor.value);
  }

  /**
   * The generation evidence does fail for an empty generation string: every fresh
   * operation with a service to stop can write its outbox under the generation ""
   * and then have that generation replaced while the outbox stays.
   */
  lemma EmptyGenerationReplaced(r0: Record, generation: string) returns (q: Record)
    requires Inv(r0) && r0.phase == Accepted && r0.observedTargetGeneration.None? && CapturedService(r0).Some?
    requires generation != ""
    ensures Reaches(r0, q) && q.terminalOutbox.Some? && q.observedTargetGeneration == Some("")
    ensures var n := Next(q, AllocateTargetGeneration(generation));
            n.terminalOutbox == q.terminalOutbox && n.observedTargetGeneration == Some(generation)
  {
    hide Reaches, StopIntentInv, LegsInv;
    var live := ReachLive(r0, "");
    q := LiveToOutbox(live);
    ReachesTransitive(r0, live, q);
  }
}
