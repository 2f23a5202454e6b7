/**
 * The health record of one server: recent crashes, pruned on every append, a marker for
 * fatal configuration errors and a marker for a machine the server has unlinked.
 */
module CrashHealth {
  import opened Basics

  const CRASH_WINDOW_MS := 60_000
  const DEGRADED_THRESHOLD := 3

  datatype Crash = Crash(at: int, exitCode: Option<int>, signal: Option<string>)

  datatype Unlinked = Unlinked(at: int, reason: string, machine: Option<string>, statusCode: Option<int>)

  datatype Health = Health(crashes: seq<Crash>, fatalConfig: Option<Crash>, unlinked: Option<Unlinked>)

  const EMPTY := Health([], None, None)

  /** The crashes inside the window that ends now. */
  function Recent(crashes: seq<Crash>, now: int): seq<Crash> {
    if crashes == [] then []
    else
      var last := crashes[|crashes| - 1];
      Recent(crashes[..|crashes| - 1], now) + (if last.at >= now - CRASH_WINDOW_MS then [last] else [])
  }

  predicate Degraded(h: Health, now: int) {
    h.fatalConfig.Some? || |Recent(h.crashes, now)| >= DEGRADED_THRESHOLD
  }

  /** A read for this machine finds a marker left for another one. */
  predicate Clears(current: Option<string>, u: Unlinked) {
    && u.machine.Some? && u.machine.value != "" && current.Some? && current.value != ""
    && u.machine != current
  }

  datatype Event =
    | RecordCrash(crash: Crash)
    | MarkFatalConfig(mark: Crash)
    | MarkUnlinked(unlinked: Unlinked)
    | ReadUnlinked(current: Option<string>)
    | Reset

  function Step(h: Health, e: Event): Health {
    match e
    case RecordCrash(c) => h.(crashes := Recent(h.crashes, c.at) + [c])
    case MarkFatalConfig(mark) => h.(fatalConfig := Some(mark))
    case MarkUnlinked(u) => h.(unlinked := Some(u))
    case ReadUnlinked(current) =>
      if h.unlinked.Some? && Clears(current, h.unlinked.value) then h.(unlinked := None) else h
    case Reset => EMPTY.(unlinked := h.unlinked)
  }

  function HealthAt(events: seq<Event>, n: nat): Health
    requires n <= |events|
  {
    if n == 0 then EMPTY else Step(HealthAt(events, n - 1), events[n - 1])
  }

  // ----- The history without pruning -----

  /** Every crash since the last reset. */
  function CrashesSince(events: seq<Event>, n: nat): seq<Crash>
    requires n <= |events|
  {
    if n == 0 || events[n - 1].Reset? then []
    else CrashesSince(events, n - 1) + if events[n - 1].RecordCrash? then [events[n - 1].crash] else []
  }

  ghost predicate FatalSince(events: seq<Event>, n: nat)
    requires n <= |events|
  {
    exists i :: 0 <= i < n && events[i].MarkFatalConfig? && forall j :: i < j < n ==> !events[j].Reset?
  }

  /** The verdict an unpruned record would give. */
  ghost predicate DegradedByHistory(events: seq<Event>, n: nat, now: int)
    requires n <= |events|
  {
    FatalSince(events, n) || |Recent(CrashesSince(events, n), now)| >= DEGRADED_THRESHOLD
  }

  /** What appending with pruning leaves of a history. */
  function Kept(history: seq<Crash>): seq<Crash> {
    if history == [] then []
    else
      var last := history[|history| - 1];
      Recent(Kept(history[..|history| - 1]), last.at) + [last]
  }

  // ----- When pruning is visible -----

  /** No crash still in the window had already left the window of a later crash. */
  ghost predicate NothingMissed(history: seq<Crash>, now: int) {
    forall i, j :: 0 <= i < j < |history| && history[i].at >= now - CRASH_WINDOW_MS
                   ==> history[i].at >= history[j].at - CRASH_WINDOW_MS
  }

  lemma {:induction false} RecentTwice(crashes: seq<Crash>, t: int, now: int)
    ensures Recent(Recent(crashes, t), now) == Recent(crashes, if t < now then now else t)
  {
    if crashes != [] {
      var front, last := crashes[..|crashes| - 1], crashes[|crashes| - 1];
      RecentTwice(front, t, now);
      var r := Recent(front, t);
      assert (r + [last])[..|r|] == r;
      assert r + [] == r;
    }
  }

  lemma {:induction false} LaterWindowHoldsLess(crashes: seq<Crash>, t: int, now: int)
    requires now <= t
    ensures |Recent(crashes, t)| <= |Recent(crashes, now)|
    ensures |Recent(crashes, t)| == |Recent(crashes, now)|
       <==> forall i :: 0 <= i < |crashes| && crashes[i].at >= now - CRASH_WINDOW_MS ==> crashes[i].at >= t - CRASH_WINDOW_MS
  {
    if crashes != [] {
      var front, last := crashes[..|crashes| - 1], crashes[|crashes| - 1];
      assert crashes == front + [last];
      LaterWindowHoldsLess(front, t, now);
    }
  }

  lemma RecentSnoc(crashes: seq<Crash>, c: Crash, now: int)
    ensures |Recent(crashes + [c], now)| == |Recent(crashes, now)| + if c.at >= now - CRASH_WINDOW_MS then 1 else 0
  {
    assert (crashes + [c])[..|crashes|] == crashes;
  }

  function Later(t: int, now: int): int {
    if t < now then now else t
  }

  /** Pruning loses nothing from a window exactly when the clock had not run ahead of it. */
  lemma {:induction false} PruningVisibleIff(history: seq<Crash>, now: int)
    ensures |Recent(Kept(history), now)| <= |Recent(history, now)|
    ensures |Recent(Kept(history), now)| == |Recent(history, now)| <==> NothingMissed(history, now)
  {
    if history != [] {
      var front, last := history[..|history| - 1], history[|history| - 1];
      assert history == front + [last];
      var later := Later(last.at, now);
      PruningVisibleIff(front, later);
      RecentTwice(Kept(front), last.at, now);
      LaterWindowHoldsLess(front, later, now);
      RecentSnoc(Recent(Kept(front), last.at), last, now);
      RecentSnoc(front, last, now);
      MissedSnoc(front, last, now);
    }
  }

  lemma MissedSnoc(front: seq<Crash>, last: Crash, now: int)
    ensures NothingMissed(front + [last], now)
       <==> && NothingMissed(front, Later(last.at, now))
            && forall i :: 0 <= i < |front| && front[i].at >= now - CRASH_WINDOW_MS
                           ==> front[i].at >= Later(last.at, now) - CRASH_WINDOW_MS
  {
    var all := front + [last];
    assert forall i :: 0 <= i < |front| ==> all[i] == front[i];
    assert all[|front|] == last;
  }

  // ----- The counts behind the verdict -----

  /** The crashes of a history inside the window, by position. */
  ghost function InWindow(history: seq<Crash>, now: int): set<nat> {
    set i | 0 <= i < |history| && history[i].at >= now - CRASH_WINDOW_MS
  }

  /** No later crash pruned this one. */
  ghost predicate Spared(history: seq<Crash>, i: nat)
    requires i < |history|
  {
    forall j :: i < j < |history| ==> history[i].at >= history[j].at - CRASH_WINDOW_MS
  }

  /** Those of them that no later crash pruned. */
  ghost function Remaining(history: seq<Crash>, now: int): set<nat> {
    set i | i in InWindow(history, now) && Spared(history, i)
  }

  lemma {:induction false} RecentCounts(history: seq<Crash>, now: int)
    ensures |Recent(history, now)| == |InWindow(history, now)|
  {
    if history == [] {
      assert InWindow(history, now) == {};
    } else {
      var front, last := history[..|history| - 1], history[|history| - 1];
      RecentCounts(front, now);
      var n := |front|;
      assert InWindow(history, now)
          == InWindow(front, now) + if last.at >= now - CRASH_WINDOW_MS then {n} else {};
    }
  }

  lemma RemainingSnoc(front: seq<Crash>, last: Crash, now: int)
    ensures Remaining(front + [last], now)
         == Remaining(front, Later(last.at, now)) + if last.at >= now - CRASH_WINDOW_MS then {|front|} else {}
  {
    var all, n := front + [last], |front|;
    assert all[n] == last && Spared(all, n);
    forall i: nat | i < n
      ensures i in Remaining(all, now) <==> i in Remaining(front, Later(last.at, now))
    {
      assert all[i] == front[i];
      SparedSnoc(front, last, i);
    }
  }

  lemma SparedSnoc(front: seq<Crash>, last: Crash, i: nat)
    requires i < |front|
    ensures Spared(front + [last], i) <==> Spared(front, i) && front[i].at >= last.at - CRASH_WINDOW_MS
  {
    var all := front + [last];
    assert all[|front|] == last;
    assert forall j :: 0 <= j < |front| ==> all[j] == front[j];
  }

  /** What a pruned record still holds of a window. */
  lemma {:induction false} KeptCounts(history: seq<Crash>, now: int)
    ensures |Recent(Kept(history), now)| == |Remaining(history, now)|
  {
    if history == [] {
      assert Remaining(history, now) == {};
    } else {
      hide Remaining, Recent;
      var front, last := history[..|history| - 1], history[|history| - 1];
      assert history == front + [last];
      var later := Later(last.at, now);
      KeptCounts(front, later);
      RecentTwice(Kept(front), last.at, now);
      RecentSnoc(Recent(Kept(front), last.at), last, now);
      RemainingSnoc(front, last, now);
      assert |front| !in Remaining(front, later) by { RemainingBound(front, later); }
    }
  }

  lemma RemainingBound(history: seq<Crash>, now: int)
    ensures |history| !in Remaining(history, now)
    ensures Remaining(history, now) <= InWindow(history, now)
  {
  }

  // ----- Runs -----

  lemma {:induction false} RunKeepsHistory(events: seq<Event>, n: nat)
    requires n <= |events|
    ensures HealthAt(events, n).crashes == Kept(CrashesSince(events, n))
    ensures HealthAt(events, n).fatalConfig.Some? <==> FatalSince(events, n)
  {
    hide FatalSince, Recent, Kept;
    NothingKept();
    if n > 0 {
      RunKeepsHistory(events, n - 1);
      FatalStep(events, n);
      var before, e := CrashesSince(events, n - 1), events[n - 1];
      assert before + [] == before;
      if e.RecordCrash? {
        KeptSnoc(before, e.crash);
      }
    } else {
      assert !FatalSince(events, 0) by { NoFatal(events); }
    }
  }

  lemma NothingKept()
    ensures Kept([]) == []
  {
  }

  lemma NoFatal(events: seq<Event>)
    ensures !FatalSince(events, 0)
  {
  }

  lemma KeptSnoc(history: seq<Crash>, c: Crash)
    ensures Kept(history + [c]) == Recent(Kept(history), c.at) + [c]
  {
    hide Recent;
    assert (history + [c])[..|history|] == history;
  }

  lemma FatalStep(events: seq<Event>, n: nat)
    requires 0 < n <= |events|
    ensures FatalSince(events, n)
       <==> events[n - 1].MarkFatalConfig? || (FatalSince(events, n - 1) && !events[n - 1].Reset?)
  {
    if FatalSince(events, n) {
      var i :| 0 <= i < n && events[i].MarkFatalConfig? && forall j :: i < j < n ==> !events[j].Reset?;
      assert i == n - 1 || (events[i].MarkFatalConfig? && !events[n - 1].Reset?);
    }
    if FatalSince(events, n - 1) && !events[n - 1].Reset? {
      var i :| 0 <= i < n - 1 && events[i].MarkFatalConfig? && forall j :: i < j < n - 1 ==> !events[j].Reset?;
      assert events[i].MarkFatalConfig?;
    }
    if events[n - 1].MarkFatalConfig? {
      assert 0 <= n - 1 < n;
    }
  }

  /**
   * For every run and every query time: the pruned file gives the verdict of the full
   * history if and only if the configuration marker decides, or fewer than three crashes
   * since the reset lie in the window, or three of those in it were pruned by no later crash.
   */
  lemma VerdictExactIff(events: seq<Event>, n: nat, now: int)
    requires n <= |events|
    ensures Degraded(HealthAt(events, n), now) == DegradedByHistory(events, n, now)
       <==> || FatalSince(events, n)
            || |InWindow(CrashesSince(events, n), now)| < DEGRADED_THRESHOLD
            || |Remaining(CrashesSince(events, n), now)| >= DEGRADED_THRESHOLD
  {
    hide Recent, CrashesSince, FatalSince, Kept, HealthAt, InWindow, Remaining;
    var history := CrashesSince(events, n);
    RunKeepsHistory(events, n);
    RecentCounts(history, now);
    KeptCounts(history, now);
    assert |Remaining(history, now)| <= |InWindow(history, now)| by {
      RemainingBound(history, now);
      SmallerSet(Remaining(history, now), InWindow(history, now));
    }
  }

  lemma SmallerSet(a: set<nat>, b: set<nat>)
    requires a <= b
    ensures |a| <= |b|
  {
    assert b == a + (b - a);
  }

  /** Asked no earlier than any crash on record, the pruned file answers as the full history would. */
  lemma PruningInvisible(events: seq<Event>, n: nat, now: int)
    requires n <= |events|
    requires forall c :: c in CrashesSince(events, n) ==> c.at <= now
    ensures Degraded(HealthAt(events, n), now) == DegradedByHistory(events, n, now)
  {
    hide Recent, CrashesSince, FatalSince, Kept, HealthAt;
    RunKeepsHistory(events, n);
    PruningVisibleIff(CrashesSince(events, n), now);
  }

  /** A query whose clock is behind a recorded crash can miss the threshold. */
  lemma ClockBehindMisses()
    ensures var a, b := RecordCrash(Crash(0, None, None)), RecordCrash(Crash(CRASH_WINDOW_MS + 1, None, None));
            !Degraded(HealthAt([a, a, b], 3), 0) && DegradedByHistory([a, a, b], 3, 0)
  {
    hide Recent, Kept, HealthAt, FatalSince, CrashesSince;
    var a, b := Crash(0, None, None), Crash(CRASH_WINDOW_MS + 1, None, None);
    var events := [RecordCrash(a), RecordCrash(a), RecordCrash(b)];
    ThreeCrashes(a, a, b);
    assert HealthAt(events, 3).fatalConfig.None? by {
      RunKeepsHistory(events, 3);
      OnlyCrashes(events, 3);
    }
    RunKeepsHistory(events, 3);
    assert |Recent([a, a, b], 0)| == 3 by {
      RecentOf([], a, 0);
      RecentOf([a], a, 0);
      RecentOf([a, a], b, 0);
      assert [a, a] + [b] == [a, a, b];
    }
    assert Kept([a, a, b]) == [b] by {
      KeptSnoc([a, a], b);
      KeptOf(a);
      RecentOf([], a, b.at);
      RecentOf([a], a, b.at);
      assert [a, a] + [b] == [a, a, b];
    }
    RecentOf([], b, 0);
  }

  lemma RecentOf(crashes: seq<Crash>, c: Crash, now: int)
    ensures Recent([], now) == []
    ensures Recent(crashes + [c], now) == Recent(crashes, now) + if c.at >= now - CRASH_WINDOW_MS then [c] else []
    ensures [] + [c] == [c] && [c] + [c] == [c, c]
  {
    assert (crashes + [c])[..|crashes|] == crashes;
  }

  lemma KeptOf(c: Crash)
    ensures Kept([c, c]) == [c, c]
  {
    hide Recent;
    NothingKept();
    KeptSnoc([], c);
    KeptSnoc([c], c);
    RecentOf([], c, c.at);
  }

  lemma ThreeCrashes(a: Crash, b: Crash, c: Crash)
    ensures CrashesSince([RecordCrash(a), RecordCrash(b), RecordCrash(c)], 3) == [a, b, c]
  {
    var events := [RecordCrash(a), RecordCrash(b), RecordCrash(c)];
    assert CrashesSince(events, 1) == [a];
    assert CrashesSince(events, 2) == [a, b];
  }

  lemma OnlyCrashes(events: seq<Event>, n: nat)
    requires n <= |events| && forall i :: 0 <= i < n ==> events[i].RecordCrash?
    ensures !FatalSince(events, n)
  {
  }

  /** Both machines are named and they differ. */
  predicate ForAnother(current: Option<string>, u: Unlinked) {
    match (current, u.machine)
    case (Some(now), Some(marked)) => now != "" && marked != "" && now != marked
    case _ => false
  }

  /** The marker was left by event i, and no later mark or read for another machine replaced it. */
  ghost predicate MarkedAndKept(events: seq<Event>, i: nat, n: nat, u: Unlinked)
    requires n <= |events|
  {
    && i < n && events[i] == MarkUnlinked(u)
    && forall j :: i < j < n ==> !events[j].MarkUnlinked? && !(events[j].ReadUnlinked? && ForAnother(events[j].current, u))
  }

  lemma ClearsMeans(current: Option<string>, u: Unlinked)
    ensures Clears(current, u) <==> ForAnother(current, u)
  {
  }

  /** Crashes, configuration marks and resets never touch the marker of an unlinked machine. */
  lemma {:induction false} MarkerIsHistory(events: seq<Event>, n: nat, u: Unlinked)
    requires n <= |events|
    ensures HealthAt(events, n).unlinked == Some(u) <==> exists i: nat :: MarkedAndKept(events, i, n, u)
  {
    hide Recent, Clears, ForAnother;
    if n > 0 {
      forall current ensures Clears(current, u) <==> ForAnother(current, u) { ClearsMeans(current, u); }
      MarkerIsHistory(events, n - 1, u);
      var e := events[n - 1];
      assert MarkedAndKept(events, n - 1, n, u) <==> e == MarkUnlinked(u);
      forall i: nat | i != n - 1
        ensures MarkedAndKept(events, i, n, u)
           <==> MarkedAndKept(events, i, n - 1, u) && !e.MarkUnlinked? && !(e.ReadUnlinked? && ForAnother(e.current, u))
      {
      }
      if HealthAt(events, n - 1).unlinked == Some(u) {
        var i: nat :| MarkedAndKept(events, i, n - 1, u);
        assert MarkedAndKept(events, i, n, u) || e.MarkUnlinked? || (e.ReadUnlinked? && ForAnother(e.current, u));
      }
    }
  }

  // ----- The file -----

  /** at lists the positions of the crashes inside the window, and all but the last crash now on record are those. */
  ghost predicate StayAt(was: seq<Crash>, kept: seq<Crash>, now: int, at: seq<nat>) {
    && |kept| == |at| + 1
    && (forall k :: 0 <= k < |at| ==> at[k] < |was| && kept[k] == was[at[k]])
    && (forall k, l :: 0 <= k < l < |at| ==> at[k] < at[l])
    && (forall i :: i in at <==> i in InWindow(was, now))
  }

  ghost predicate StaysInOrder(was: seq<Crash>, kept: seq<Crash>, now: int) {
    exists at: seq<nat> :: StayAt(was, kept, now, at)
  }

  ghost function RecentPositions(crashes: seq<Crash>, now: int): (at: seq<nat>)
    ensures |Recent(crashes, now)| == |at|
    ensures forall k :: 0 <= k < |at| ==> at[k] < |crashes| && Recent(crashes, now)[k] == crashes[at[k]]
    ensures forall k, l :: 0 <= k < l < |at| ==> at[k] < at[l]
    ensures forall i :: i in at <==> i in InWindow(crashes, now)
  {
    if crashes == [] then []
    else
      var n := |crashes| - 1;
      var at := RecentPositions(crashes[..n], now);
      assert InWindow(crashes, now)
          == InWindow(crashes[..n], now) + if crashes[n].at >= now - CRASH_WINDOW_MS then {n} else {};
      if crashes[n].at >= now - CRASH_WINDOW_MS then at + [n] else at
  }

  class HealthFile {
    var disk: Option<Health>

    /** What a reader sees: a missing file reads as an empty record. */
    function Contents(): Health
      reads this
    {
      if disk.Some? then disk.value else EMPTY
    }

    constructor ()
      ensures Contents() == EMPTY
    {
      disk := None;
    }

    /** Crashes inside the new crash's window stay, in order and with it last; both markers stay. */
    method AppendCrash(exitCode: Option<int>, signal: Option<string>, now: int)
      modifies this
      ensures Contents() == Step(old(Contents()), RecordCrash(Crash(now, exitCode, signal)))
      ensures var was, next := old(Contents()), Contents();
              && next.fatalConfig == was.fatalConfig && next.unlinked == was.unlinked
              && StaysInOrder(was.crashes, next.crashes, now) && next.crashes[|next.crashes| - 1] == Crash(now, exitCode, signal)
    {
      var file := Contents();
      file := file.(crashes := Recent(file.crashes, now));
      ghost var at := RecentPositions(old(Contents()).crashes, now);
      file := file.(crashes := file.crashes + [Crash(now, exitCode, signal)]);
      assert StayAt(old(Contents()).crashes, file.crashes, now, at);
      disk := Some(file);
    }

    /** From now on the server is degraded at every time; crashes and the other marker are untouched. */
    method SetFatalConfig(exitCode: Option<int>, signal: Option<string>, now: int)
      modifies this
      ensures Contents() == Step(old(Contents()), MarkFatalConfig(Crash(now, exitCode, signal)))
      ensures Contents().crashes == old(Contents()).crashes && Contents().unlinked == old(Contents()).unlinked
      ensures forall t :: Degraded(Contents(), t)
    {
      disk := Some(Contents().(fatalConfig := Some(Crash(now, exitCode, signal))));
    }

    /** The marker holds for this machine and clears for any other; no verdict changes. */
    method SetUnlinked(machine: string, statusCode: Option<int>, reason: string, now: int)
      modifies this
      ensures Contents() == Step(old(Contents()), MarkUnlinked(Unlinked(now, reason, Some(machine), statusCode)))
      ensures forall t :: Degraded(Contents(), t) == Degraded(old(Contents()), t)
      ensures forall current :: Step(Contents(), ReadUnlinked(current)).unlinked.None?
                           <==> machine != "" && current.Some? && current.value != "" && current.value != machine
    {
      disk := Some(Contents().(unlinked := Some(Unlinked(now, reason, Some(machine), statusCode))));
    }

    /** A marker left for another machine is cleared, and the file removed when nothing else is in it. */
    method ReadTerminalUnlinked(current: Option<string>) returns (marker: Option<Unlinked>)
      modifies this
      ensures Contents() == Step(old(Contents()), ReadUnlinked(current))
      ensures marker == Contents().unlinked
    {
      var file := Contents();
      marker := file.unlinked;
      if marker.Some? && Clears(current, marker.value) {
        file := file.(unlinked := None);
        disk := if file.crashes == [] && file.fatalConfig.None? then None else Some(file);
        marker := None;
      }
    }

    method ResetHealth()
      modifies this
      ensures Contents() == Step(old(Contents()), Reset)
    {
      var existing := Contents();
      disk := if existing.unlinked.Some? then Some(Health([], None, existing.unlinked)) else None;
    }

    /** The marker is set, or at least three crashes on record lie in the window that ends now. */
    method IsDegraded(now: int) returns (degraded: bool)
      ensures degraded == Degraded(Contents(), now)
      ensures degraded <==> Contents().fatalConfig.Some? || |InWindow(Contents().crashes, now)| >= 3
    {
      var file := Contents();
      RecentCounts(file.crashes, now);
      if file.fatalConfig.Some? {
        return true;
      }
      degraded := |Recent(file.crashes, now)| >= DEGRADED_THRESHOLD;
    }
  }
}
