/**
 * The file of lifecycle operations still waiting for acknowledgements. Readers see a
 * set of (operation, phase) pairs; enqueueing adds pairs, receipts, discards and the
 * upgrade log take them away.
 */
module LifecycleQueue {
  import opened Basics

  datatype Action = StartAction | StopAction | RestartAction | UpgradeAction

  datatype Phase = Shutdown | Ready

  datatype Trigger = Cli | Web | Tray

  datatype Operation = Operation(
    id: string, parent: Option<string>, action: Action, target: Option<string>,
    trigger: Option<Trigger>, phases: seq<Phase>, createdAt: string)

  predicate SameIdentity(a: Operation, b: Operation) {
    a.action == b.action && a.target == b.target && a.trigger == b.trigger
  }

  /** The values of a list in order of first occurrence: new Set, spread. */
  function Deduped(phases: seq<Phase>): (r: seq<Phase>)
    ensures Distinct(r)
    ensures forall p :: p in r <==> p in phases
  {
    if phases == [] then []
    else
      var r, last := Deduped(phases[..|phases| - 1]), phases[|phases| - 1];
      assert phases == phases[..|phases| - 1] + [last];
      if last in r then r else r + [last]
  }

  function Without(phases: seq<Phase>, phase: Phase): (r: seq<Phase>)
    ensures Distinct(phases) ==> Distinct(r) && |r| == |phases| - (if phase in phases then 1 else 0)
    ensures forall p :: p in r <==> p in phases && p != phase
    ensures |r| <= |phases| && (|r| == |phases| <==> phase !in phases)
  {
    if phases == [] then []
    else
      var r, last := Without(phases[..|phases| - 1], phase), phases[|phases| - 1];
      assert phases == phases[..|phases| - 1] + [last];
      assert Distinct(phases) ==> last !in phases[..|phases| - 1];
      if last == phase then r else r + [last]
  }

  /** Operations without pending phases are skipped when the file is read. */
  function Visible(file: seq<Operation>): seq<Operation> {
    if file == [] then []
    else
      var last := file[|file| - 1];
      Visible(file[..|file| - 1]) + (if last.phases == [] then [] else [last])
  }

  function Find(ops: seq<Operation>, id: string): (r: Option<Operation>)
    ensures r.Some? ==> r.value in ops && r.value.id == id
    ensures r.None? ==> forall o :: o in ops ==> o.id != id
  {
    if ops == [] then None else if ops[0].id == id then Some(ops[0]) else Find(ops[1..], id)
  }

  /** Every operation with this id gets the merged phases. */
  function Merged(ops: seq<Operation>, id: string, merged: seq<Phase>): seq<Operation> {
    seq(|ops|, i requires 0 <= i < |ops| => if ops[i].id == id then ops[i].(phases := merged) else ops[i])
  }

  /** The phases of the operation found under an id together with those of a new request for it. */
  function MergedPhases(found: Operation, op: Operation): seq<Phase> {
    Deduped(found.phases + op.phases)
  }

  function Left(o: Operation, hit: Operation -> bool, phase: Phase): Operation {
    if hit(o) then o.(phases := Without(o.phases, phase)) else o
  }

  /** Taking one phase from the operations that are hit, and dropping those left without any. */
  function Struck(ops: seq<Operation>, hit: Operation -> bool, phase: Phase): seq<Operation> {
    if ops == [] then []
    else
      var left := Left(ops[|ops| - 1], hit, phase);
      Struck(ops[..|ops| - 1], hit, phase) + (if left.phases == [] then [] else [left])
  }

  function Dropped(ops: seq<Operation>, id: string): seq<Operation> {
    if ops == [] then []
    else
      var last := ops[|ops| - 1];
      Dropped(ops[..|ops| - 1], id) + (if last.id == id then [] else [last])
  }

  /** The operations whose shutdown phase the upgrade log settles. */
  predicate Settled(completed: set<string>, o: Operation) {
    o.action == UpgradeAction && o.id in completed
  }

  function SettledCount(ops: seq<Operation>, completed: set<string>): nat {
    if ops == [] then 0
    else
      var last := ops[|ops| - 1];
      SettledCount(ops[..|ops| - 1], completed) + if Settled(completed, last) && Shutdown in last.phases then 1 else 0
  }

  // ----- The operations on the file -----

  datatype Event =
    | Enqueue(op: Operation)
    | EnqueueExact(op: Operation)
    | Acknowledge(id: string, phase: Phase)
    | Discard(id: string)
    | Retire(completed: set<string>)

  datatype Outcome = Accepted | Refused | IdentityConflict

  /** What an enqueue answers. The exact form also refuses a second operation for an action. */
  function Answer(file: seq<Operation>, op: Operation, exact: bool): Outcome {
    var found := Find(Visible(file), op.id);
    if found.Some? then
      if SameIdentity(found.value, op) then Accepted else IdentityConflict
    else if exact && exists o :: o in Visible(file) && o.action == op.action then Refused
    else Accepted
  }

  function Put(file: seq<Operation>, op: Operation, exact: bool): seq<Operation> {
    var ops := Visible(file);
    if !Answer(file, op, exact).Accepted? then file
    else if Find(ops, op.id).Some? then Merged(ops, op.id, MergedPhases(Find(ops, op.id).value, op))
    else ops + [op.(phases := Deduped(op.phases))]
  }

  function Step(file: seq<Operation>, e: Event): seq<Operation> {
    match e
    case Enqueue(op) => Put(file, op, false)
    case EnqueueExact(op) => Put(file, op, true)
    case Acknowledge(id, phase) => Struck(Visible(file), (o: Operation) => o.id == id, phase)
    case Discard(id) => Dropped(Visible(file), id)
    case Retire(completed) =>
      if SettledCount(Visible(file), completed) == 0 then file
      else Struck(Visible(file), (o: Operation) => Settled(completed, o), Shutdown)
  }

  // ----- What every operation keeps -----

  ghost predicate DistinctIds(ops: seq<Operation>) {
    forall i, j :: 0 <= i < j < |ops| ==> ops[i].id != ops[j].id
  }

  ghost predicate DistinctPhases(ops: seq<Operation>) {
    forall o :: o in ops ==> Distinct(o.phases)
  }

  ghost predicate Valid(ops: seq<Operation>) {
    DistinctIds(ops) && DistinctPhases(ops)
  }

  /** A pair is pending. */
  ghost predicate Holds(ops: seq<Operation>, id: string, phase: Phase) {
    exists o :: o in ops && o.id == id && phase in o.phases
  }

  /** b is a with other phases. */
  predicate SameBesidesPhases(a: Operation, b: Operation) {
    a.(phases := []) == b.(phases := [])
  }

  lemma {:induction false} VisibleIs(file: seq<Operation>)
    ensures forall o :: o in Visible(file) <==> o in file && o.phases != []
    ensures Valid(file) ==> Valid(Visible(file))
  {
    if file != [] {
      var front, last := file[..|file| - 1], file[|file| - 1];
      assert file == front + [last];
      VisibleIs(front);
    }
  }

  lemma UniqueId(ops: seq<Operation>, a: Operation, b: Operation)
    requires DistinctIds(ops) && a in ops && b in ops && a.id == b.id
    ensures a == b
  {
  }

  lemma {:induction false} DroppedIs(ops: seq<Operation>, id: string)
    ensures forall o :: o in Dropped(ops, id) <==> o in ops && o.id != id
    ensures Valid(ops) ==> Valid(Dropped(ops, id))
  {
    if ops != [] {
      var front, last := ops[..|ops| - 1], ops[|ops| - 1];
      assert ops == front + [last];
      DroppedIs(front, id);
    }
  }

  lemma {:induction false} StruckIs(ops: seq<Operation>, hit: Operation -> bool, phase: Phase)
    ensures forall r :: r in Struck(ops, hit, phase) ==> r.phases != []
    ensures forall r :: r in Struck(ops, hit, phase) ==> exists o :: o in ops && r == Left(o, hit, phase)
    ensures forall o :: o in ops && Left(o, hit, phase).phases != [] ==> Left(o, hit, phase) in Struck(ops, hit, phase)
  {
    hide Left;
    if ops != [] {
      var front, last := ops[..|ops| - 1], ops[|ops| - 1];
      assert ops == front + [last];
      StruckIs(front, hit, phase);
    }
  }

  lemma {:induction false} StruckValid(ops: seq<Operation>, hit: Operation -> bool, phase: Phase)
    requires Valid(ops)
    ensures Valid(Struck(ops, hit, phase))
  {
    if ops != [] {
      var front, last := ops[..|ops| - 1], ops[|ops| - 1];
      assert ops == front + [last];
      StruckValid(front, hit, phase);
      StruckIs(front, hit, phase);
      var before := Struck(front, hit, phase);
      forall i | 0 <= i < |before| ensures before[i].id != last.id {
        assert before[i] in before;
        var o :| o in front && before[i] == Left(o, hit, phase);
      }
    }
  }

  lemma PutKeepsValid(file: seq<Operation>, op: Operation, exact: bool)
    requires Valid(file)
    ensures Valid(Put(file, op, exact))
  {
    VisibleIs(file);
  }

  /** Ids stay distinct and phase lists free of duplicates. */
  lemma StepKeepsValid(file: seq<Operation>, e: Event)
    requires Valid(file)
    ensures Valid(Step(file, e))
  {
    VisibleIs(file);
    match e
    case Enqueue(op) => PutKeepsValid(file, op, false);
    case EnqueueExact(op) => PutKeepsValid(file, op, true);
    case Acknowledge(id, phase) => StruckValid(Visible(file), (o: Operation) => o.id == id, phase);
    case Discard(id) => DroppedIs(Visible(file), id);
    case Retire(completed) => StruckValid(Visible(file), (o: Operation) => Settled(completed, o), Shutdown);
  }

  ghost predicate NoneEmpty(ops: seq<Operation>) {
    forall o :: o in ops ==> o.phases != []
  }

  /** An enqueue that names at least one phase, or any other event. */
  predicate NamesPhases(e: Event) {
    e.Enqueue? || e.EnqueueExact? ==> e.op.phases != []
  }

  lemma PutKeepsNonEmpty(file: seq<Operation>, op: Operation, exact: bool)
    requires NoneEmpty(file) && op.phases != []
    ensures NoneEmpty(Put(file, op, exact))
  {
    hide Visible, Merged, Deduped, Answer;
    VisibleIs(file);
    NotEmpty(op.phases);
    var found := Find(Visible(file), op.id);
    if found.Some? {
      NotEmpty(found.value.phases + op.phases);
      MergedIs(Visible(file), op.id, MergedPhases(found.value, op));
    }
  }

  lemma NotEmpty(phases: seq<Phase>)
    requires phases != []
    ensures Deduped(phases) != []
  {
    assert phases[0] in Deduped(phases);
  }

  /** Phase lists stay non-empty when every enqueue names a phase: nothing in the file is ever skipped by a read. */
  lemma StepKeepsNonEmpty(file: seq<Operation>, e: Event)
    requires NoneEmpty(file) && NamesPhases(e)
    ensures NoneEmpty(Step(file, e))
  {
    hide Visible, Put, Struck, Dropped, SettledCount;
    VisibleIs(file);
    var ops := Visible(file);
    match e
    case Enqueue(op) => PutKeepsNonEmpty(file, op, false);
    case EnqueueExact(op) => PutKeepsNonEmpty(file, op, true);
    case Acknowledge(id, phase) => StruckIs(ops, (o: Operation) => o.id == id, phase);
    case Discard(id) => DroppedIs(ops, id);
    case Retire(completed) => StruckIs(ops, (o: Operation) => Settled(completed, o), Shutdown);
  }

  // ----- The set of pending pairs -----

  /** The event puts this pair into the file. */
  ghost predicate Adds(file: seq<Operation>, e: Event, id: string, phase: Phase) {
    && (e.Enqueue? || e.EnqueueExact?)
    && Answer(file, e.op, e.EnqueueExact?).Accepted? && e.op.id == id && phase in e.op.phases
  }

  /** The event takes this pair out of the file if it is there. */
  ghost predicate Removes(file: seq<Operation>, e: Event, id: string, phase: Phase) {
    match e
    case Acknowledge(i, p) => i == id && p == phase
    case Discard(i) => i == id
    case Retire(completed) =>
      phase == Shutdown && id in completed && exists o :: o in file && o.id == id && o.action == UpgradeAction
    case _ => false
  }

  lemma MergedIs(ops: seq<Operation>, id: string, merged: seq<Phase>)
    ensures forall o :: o in ops && o.id != id ==> o in Merged(ops, id, merged)
    ensures forall o :: o in ops && o.id == id ==> o.(phases := merged) in Merged(ops, id, merged)
    ensures forall r :: r in Merged(ops, id, merged) ==>
              exists o :: o in ops && r == if o.id == id then o.(phases := merged) else o
  {
    var m := Merged(ops, id, merged);
    forall o | o in ops ensures (if o.id == id then o.(phases := merged) else o) in m {
      var i :| 0 <= i < |ops| && ops[i] == o;
      assert m[i] in m;
    }
    forall r | r in m ensures exists o :: o in ops && r == if o.id == id then o.(phases := merged) else o {
      var i :| 0 <= i < |m| && m[i] == r;
      assert ops[i] in ops;
    }
  }

  lemma PutHolds(file: seq<Operation>, op: Operation, exact: bool, id: string, phase: Phase)
    requires Valid(file)
    ensures Holds(Put(file, op, exact), id, phase)
       <==> Holds(file, id, phase) || (Answer(file, op, exact).Accepted? && op.id == id && phase in op.phases)
  {
    hide Deduped, DistinctPhases;
    VisibleIs(file);
    var ops := Visible(file);
    assert Holds(ops, id, phase) == Holds(file, id, phase);
    if Answer(file, op, exact).Accepted? {
      var found := Find(ops, op.id);
      if found.Some? {
        MergedHolds(ops, found.value, op, id, phase);
      } else {
        var added := op.(phases := Deduped(op.phases));
        assert Put(file, op, exact) == ops + [added];
        assert Holds(ops + [added], id, phase) <==> Holds(ops, id, phase) || (added.id == id && phase in added.phases);
      }
    }
  }

  lemma MergedHolds(ops: seq<Operation>, found: Operation, op: Operation, id: string, phase: Phase)
    requires DistinctIds(ops) && found in ops && found.id == op.id
    ensures Holds(Merged(ops, op.id, MergedPhases(found, op)), id, phase)
       <==> Holds(ops, id, phase) || (op.id == id && phase in op.phases)
  {
    hide Deduped, Merged, DistinctIds;
    var merged := MergedPhases(found, op);
    MergedIs(ops, op.id, merged);
    forall o | o in ops && o.id == op.id ensures o == found { UniqueId(ops, o, found); }
    assert found.(phases := merged) in Merged(ops, op.id, merged);
    if Holds(ops, id, phase) {
      var o :| o in ops && o.id == id && phase in o.phases;
      var r := if o.id == op.id then o.(phases := merged) else o;
      assert r in Merged(ops, op.id, merged) && phase in r.phases;
    }
  }

  lemma StruckHolds(ops: seq<Operation>, hit: Operation -> bool, struck: Phase, id: string, phase: Phase)
    requires DistinctIds(ops)
    ensures Holds(Struck(ops, hit, struck), id, phase)
       <==> Holds(ops, id, phase) && !(phase == struck && exists o :: o in ops && o.id == id && hit(o))
  {
    hide Struck, Without, DistinctIds;
    StruckIs(ops, hit, struck);
    if Holds(ops, id, phase) {
      var o :| o in ops && o.id == id && phase in o.phases;
      forall p | p in ops && p.id == id ensures p == o { UniqueId(ops, p, o); }
      var left := Left(o, hit, struck);
      if !(phase == struck && hit(o)) {
        assert phase in left.phases && left in Struck(ops, hit, struck);
      } else {
        assert phase !in left.phases;
      }
    }
  }

  /** One step of the file is one step of the set of pairs. */
  lemma StepHolds(file: seq<Operation>, e: Event, id: string, phase: Phase)
    requires Valid(file)
    ensures Holds(Step(file, e), id, phase)
       <==> Adds(file, e, id, phase) || (Holds(file, id, phase) && !Removes(file, e, id, phase))
  {
    hide Visible, Struck, Dropped, Put, Answer, SettledCount;
    VisibleIs(file);
    var ops := Visible(file);
    assert Holds(ops, id, phase) == Holds(file, id, phase);
    match e
    case Enqueue(op) => PutHolds(file, op, false, id, phase);
    case EnqueueExact(op) => PutHolds(file, op, true, id, phase);
    case Acknowledge(i, p) => StruckHolds(ops, (o: Operation) => o.id == i, p, id, phase);
    case Discard(i) => DroppedIs(ops, i);
    case Retire(completed) => RetireHolds(file, completed, id, phase);
  }

  lemma RetireHolds(file: seq<Operation>, completed: set<string>, id: string, phase: Phase)
    requires Valid(file)
    ensures Holds(Step(file, Retire(completed)), id, phase)
       <==> Holds(file, id, phase) && !Removes(file, Retire(completed), id, phase)
  {
    hide Visible, Struck, SettledCount;
    VisibleIs(file);
    var ops := Visible(file);
    var hit := (o: Operation) => Settled(completed, o);
    StruckHolds(ops, hit, Shutdown, id, phase);
    NoneSettled(ops, completed);
    if Holds(file, id, phase) {
      var o :| o in file && o.id == id && phase in o.phases;
      forall p | p in file && p.id == id ensures p == o { UniqueId(file, p, o); }
      assert o in ops;
    }
  }

  lemma {:induction false} NoneSettled(ops: seq<Operation>, completed: set<string>)
    ensures SettledCount(ops, completed) == 0
       <==> forall o :: o in ops ==> !(Settled(completed, o) && Shutdown in o.phases)
  {
    if ops != [] {
      assert ops == ops[..|ops| - 1] + [ops[|ops| - 1]];
      NoneSettled(ops[..|ops| - 1], completed);
    }
  }

  // ----- Runs -----

  /** The file after n events, from no file. */
  function FileAt(events: seq<Event>, n: nat): seq<Operation>
    requires n <= |events|
  {
    if n == 0 then [] else Step(FileAt(events, n - 1), events[n - 1])
  }

  lemma NothingIsValid()
    ensures Valid([])
  {
  }

  lemma {:induction false} RunKeepsValid(events: seq<Event>, n: nat)
    requires n <= |events|
    ensures Valid(FileAt(events, n))
  {
    hide Step, Valid;
    if n == 0 {
      assert Valid([]) by { NothingIsValid(); }
    } else {
      RunKeepsValid(events, n - 1);
      StepKeepsValid(FileAt(events, n - 1), events[n - 1]);
    }
  }

  lemma {:induction false} RunKeepsNonEmpty(events: seq<Event>, n: nat)
    requires n <= |events| && forall k :: 0 <= k < n ==> NamesPhases(events[k])
    ensures NoneEmpty(FileAt(events, n)) && Visible(FileAt(events, n)) == FileAt(events, n)
  {
    hide Step, Visible, NamesPhases;
    if n > 0 {
      RunKeepsNonEmpty(events, n - 1);
      StepKeepsNonEmpty(FileAt(events, n - 1), events[n - 1]);
    }
    AllVisible(FileAt(events, n));
  }

  /** Event i put the pair in and nothing up to n took it out. */
  ghost predicate AddedAndKept(events: seq<Event>, i: nat, n: nat, id: string, phase: Phase)
    requires n <= |events|
  {
    && i < n && Adds(FileAt(events, i), events[i], id, phase)
    && forall j :: i < j < n ==> !Removes(FileAt(events, j), events[j], id, phase)
  }

  /**
   * The file is exactly its history: a pair is pending if and only if some accepted
   * enqueue named it and no receipt, discard or retirement of it followed.
   */
  lemma {:induction false} PendingIsHistory(events: seq<Event>, n: nat, id: string, phase: Phase)
    requires n <= |events|
    ensures Holds(FileAt(events, n), id, phase) <==> exists i: nat :: AddedAndKept(events, i, n, id, phase)
  {
    hide Step, Holds, Adds, Removes, Valid;
    if n == 0 {
      assert !Holds([], id, phase) by { NothingHeld(id, phase); }
    } else {
      var file, e := FileAt(events, n - 1), events[n - 1];
      PendingIsHistory(events, n - 1, id, phase);
      RunKeepsValid(events, n - 1);
      StepHolds(file, e, id, phase);
      assert AddedAndKept(events, n - 1, n, id, phase) <==> Adds(file, e, id, phase);
      forall i: nat | i != n - 1
        ensures AddedAndKept(events, i, n, id, phase)
           <==> AddedAndKept(events, i, n - 1, id, phase) && !Removes(file, e, id, phase)
      {
      }
      if Holds(FileAt(events, n - 1), id, phase) && !Removes(file, e, id, phase) {
        var i: nat :| AddedAndKept(events, i, n - 1, id, phase);
        assert AddedAndKept(events, i, n, id, phase);
      }
    }
  }

  lemma NothingHeld(id: string, phase: Phase)
    ensures !Holds([], id, phase)
  {
  }

  // ----- Identity -----

  /** While an id stays in the file, only its phases change. */
  lemma StepKeepsIdentity(file: seq<Operation>, e: Event, a: Operation, b: Operation)
    requires Valid(file) && a in Visible(file) && b in Step(file, e) && a.id == b.id
    ensures SameBesidesPhases(a, b)
  {
    hide Visible, Struck, Dropped, SettledCount, DistinctIds;
    VisibleIs(file);
    var ops := Visible(file);
    assert forall o :: o in file && o.id == a.id ==> o == a by {
      forall o | o in file && o.id == a.id ensures o == a { UniqueId(file, o, a); }
    }
    match e
    case Enqueue(op) => PutKeepsIdentity(file, op, false, a, b);
    case EnqueueExact(op) => PutKeepsIdentity(file, op, true, a, b);
    case Acknowledge(i, p) => StruckIs(ops, (o: Operation) => o.id == i, p);
    case Discard(i) => DroppedIs(ops, i);
    case Retire(completed) => StruckIs(ops, (o: Operation) => Settled(completed, o), Shutdown);
  }

  lemma PutKeepsIdentity(file: seq<Operation>, op: Operation, exact: bool, a: Operation, b: Operation)
    requires a in Visible(file) && b in Put(file, op, exact) && a.id == b.id
    requires forall o :: o in file && o.id == a.id ==> o == a
    ensures SameBesidesPhases(a, b)
  {
    hide Visible, Merged, Deduped;
    VisibleIs(file);
    var found := Find(Visible(file), op.id);
    if found.Some? {
      MergedIs(Visible(file), op.id, MergedPhases(found.value, op));
    }
  }

  ghost predicate Present(events: seq<Event>, n: nat, id: string)
    requires n <= |events|
  {
    exists o :: o in Visible(FileAt(events, n)) && o.id == id
  }

  /** An id's action, target, trigger, parent and creation time never change while it is present. */
  lemma {:induction false} IdentityHolds(events: seq<Event>, m: nat, n: nat, a: Operation, b: Operation)
    requires m <= n <= |events| && a.id == b.id
    requires forall k :: m <= k <= n ==> Present(events, k, a.id)
    requires a in Visible(FileAt(events, m)) && b in Visible(FileAt(events, n))
    ensures SameBesidesPhases(a, b)
  {
    hide Step, Visible;
    RunKeepsValid(events, n);
    VisibleIs(FileAt(events, n));
    if m == n {
      UniqueId(FileAt(events, n), a, b);
    } else {
      assert Present(events, n - 1, a.id);
      var c :| c in Visible(FileAt(events, n - 1)) && c.id == a.id;
      IdentityHolds(events, m, n - 1, a, c);
      RunKeepsValid(events, n - 1);
      StepKeepsIdentity(FileAt(events, n - 1), events[n - 1], c, b);
    }
  }

  // ----- One operation per action -----

  ghost predicate AtMostOne(ops: seq<Operation>, action: Action) {
    forall a, b :: a in ops && b in ops && a.action == action && b.action == action ==> a.id == b.id
  }

  /** The event appends an operation with this action without looking for another. */
  ghost predicate InsertsFreely(file: seq<Operation>, e: Event, action: Action) {
    e.Enqueue? && e.op.action == action && Find(Visible(file), e.op.id).None?
  }

  predicate Appends(file: seq<Operation>, e: Event) {
    && (e.Enqueue? || e.EnqueueExact?)
    && Answer(file, e.op, e.EnqueueExact?).Accepted? && Find(Visible(file), e.op.id).None?
  }

  /** Unless the event appends, every operation in the new file continues an old one. */
  lemma StepOrigins(file: seq<Operation>, e: Event, b: Operation)
    requires b in Step(file, e) && !Appends(file, e)
    ensures exists a :: a in file && SameBesidesPhases(a, b)
  {
    hide Visible, Struck, Dropped, SettledCount, Merged, Deduped, Answer;
    VisibleIs(file);
    var ops := Visible(file);
    match e
    case Enqueue(op) => PutOrigins(file, op, false, b);
    case EnqueueExact(op) => PutOrigins(file, op, true, b);
    case Acknowledge(i, p) => StruckIs(ops, (o: Operation) => o.id == i, p);
    case Discard(i) => DroppedIs(ops, i);
    case Retire(completed) => StruckIs(ops, (o: Operation) => Settled(completed, o), Shutdown);
  }

  lemma PutOrigins(file: seq<Operation>, op: Operation, exact: bool, b: Operation)
    requires b in Put(file, op, exact)
    requires !(Answer(file, op, exact).Accepted? && Find(Visible(file), op.id).None?)
    ensures exists a :: a in file && SameBesidesPhases(a, b)
  {
    hide Visible, Merged, Deduped;
    VisibleIs(file);
    var found := Find(Visible(file), op.id);
    if Answer(file, op, exact).Accepted? && found.Some? {
      MergedIs(Visible(file), op.id, MergedPhases(found.value, op));
    }
  }

  lemma StepKeepsAtMostOne(file: seq<Operation>, e: Event, action: Action)
    requires AtMostOne(file, action) && !InsertsFreely(file, e, action)
    ensures AtMostOne(Step(file, e), action)
  {
    hide Visible, Deduped;
    if Appends(file, e) {
      VisibleIs(file);
    } else {
      hide Step;
      forall a, b | a in Step(file, e) && b in Step(file, e) && a.action == action && b.action == action
        ensures a.id == b.id
      {
        StepOrigins(file, e, a);
        StepOrigins(file, e, b);
      }
    }
  }

  /** An action inserted only through the exact form is held by one operation at a time. */
  lemma {:induction false} ExactIsExclusive(events: seq<Event>, n: nat, action: Action)
    requires n <= |events|
    requires forall i :: 0 <= i < n ==> !InsertsFreely(FileAt(events, i), events[i], action)
    ensures AtMostOne(FileAt(events, n), action)
  {
    hide Step, InsertsFreely;
    if n > 0 {
      ExactIsExclusive(events, n - 1, action);
      StepKeepsAtMostOne(FileAt(events, n - 1), events[n - 1], action);
    }
  }

  // ----- Reading -----

  datatype Acknowledgement = Acknowledgement(id: string, action: Action, phase: Phase, loadedVersion: Option<string>)

  /** The acknowledgement for a pair. Only the ready phase reports a version, and only a non-empty one. */
  function AcknowledgementFor(o: Operation, phase: Phase, loaded: string): Acknowledgement {
    Acknowledgement(o.id, o.action, phase, if phase == Ready && loaded != "" then Some(loaded) else None)
  }

  predicate Asked(filter: Option<Phase>, phase: Phase) {
    filter.None? || filter.value == phase
  }

  /** The acknowledgements of one operation's phases, in order. */
  function PhaseAcks(o: Operation, phases: seq<Phase>, filter: Option<Phase>, loaded: string): seq<Acknowledgement> {
    if phases == [] then []
    else
      var last := phases[|phases| - 1];
      PhaseAcks(o, phases[..|phases| - 1], filter, loaded)
      + (if Asked(filter, last) then [AcknowledgementFor(o, last, loaded)] else [])
  }

  function Pending(ops: seq<Operation>, filter: Option<Phase>, loaded: string): seq<Acknowledgement> {
    if ops == [] then []
    else
      var last := ops[|ops| - 1];
      Pending(ops[..|ops| - 1], filter, loaded) + PhaseAcks(last, last.phases, filter, loaded)
  }

  /** No two entries are for the same pair. */
  ghost predicate EachOnce(acks: seq<Acknowledgement>) {
    forall i, j :: 0 <= i < j < |acks| ==> acks[i].id != acks[j].id || acks[i].phase != acks[j].phase
  }

  lemma {:induction false} PhaseAcksExact(o: Operation, phases: seq<Phase>, filter: Option<Phase>, loaded: string)
    ensures forall a :: a in PhaseAcks(o, phases, filter, loaded)
                   <==> Asked(filter, a.phase) && a.phase in phases && a == AcknowledgementFor(o, a.phase, loaded)
    ensures Distinct(phases) ==> EachOnce(PhaseAcks(o, phases, filter, loaded))
  {
    if phases != [] {
      var front, last := phases[..|phases| - 1], phases[|phases| - 1];
      assert phases == front + [last];
      PhaseAcksExact(o, front, filter, loaded);
    }
  }

  /** An entry is the one for a pending pair that was asked for. */
  ghost predicate Answers(ops: seq<Operation>, filter: Option<Phase>, loaded: string, a: Acknowledgement) {
    && Asked(filter, a.phase)
    && exists o :: o in ops && a.phase in o.phases && a == AcknowledgementFor(o, a.phase, loaded)
  }

  /** The read lists each pending pair that was asked for exactly once, and nothing else. */
  lemma {:induction false} PendingExact(ops: seq<Operation>, filter: Option<Phase>, loaded: string)
    requires Valid(ops)
    ensures forall a :: a in Pending(ops, filter, loaded) <==> Answers(ops, filter, loaded, a)
    ensures EachOnce(Pending(ops, filter, loaded))
  {
    hide PhaseAcks, AcknowledgementFor, Asked;
    if ops != [] {
      var front, last := ops[..|ops| - 1], ops[|ops| - 1];
      assert ops == front + [last];
      PendingExact(front, filter, loaded);
      PhaseAcksExact(last, last.phases, filter, loaded);
      var before, more := Pending(front, filter, loaded), PhaseAcks(last, last.phases, filter, loaded);
      forall i, j | 0 <= i < |before| && 0 <= j < |more| ensures before[i].id != more[j].id {
        assert before[i] in before && more[j] in more;
        assert AcknowledgementFor(last, more[j].phase, loaded).id == last.id by { AckId(last, more[j].phase, loaded); }
        var o :| o in front && before[i] == AcknowledgementFor(o, before[i].phase, loaded);
        AckId(o, before[i].phase, loaded);
      }
    }
  }

  lemma AckId(o: Operation, phase: Phase, loaded: string)
    ensures AcknowledgementFor(o, phase, loaded).id == o.id
  {
  }

  /** The entry stands for a pending pair that was asked for, and carries what belongs to it. */
  ghost predicate Reports(file: seq<Operation>, filter: Option<Phase>, loaded: string, a: Acknowledgement) {
    && (filter.Some? ==> a.phase == filter.value)
    && (a.loadedVersion == if a.phase.Ready? && loaded != "" then Some(loaded) else None)
    && exists o :: o in file && o.id == a.id && o.action == a.action && a.phase in o.phases
  }

  lemma PendingReports(file: seq<Operation>, filter: Option<Phase>, loaded: string)
    requires Valid(file)
    ensures var acks := Pending(Visible(file), filter, loaded);
            EachOnce(acks) && forall a :: a in acks <==> Reports(file, filter, loaded, a)
  {
    hide Visible, Pending, EachOnce;
    VisibleIs(file);
    PendingExact(Visible(file), filter, loaded);
  }

  function PhasesCount(ops: seq<Operation>): nat {
    if ops == [] then 0 else PhasesCount(ops[..|ops| - 1]) + |ops[|ops| - 1].phases|
  }

  /** A retirement's count is the number of pairs it took out. */
  lemma {:induction false} RetireCounts(ops: seq<Operation>, completed: set<string>)
    requires DistinctPhases(ops)
    ensures PhasesCount(Struck(ops, (o: Operation) => Settled(completed, o), Shutdown)) + SettledCount(ops, completed)
         == PhasesCount(ops)
  {
    if ops != [] {
      var hit := (o: Operation) => Settled(completed, o);
      var front, last := ops[..|ops| - 1], ops[|ops| - 1];
      assert ops == front + [last];
      RetireCounts(front, completed);
      var before, left := Struck(front, hit, Shutdown), Left(last, hit, Shutdown);
      assert |left.phases| == |last.phases| - if Settled(completed, last) && Shutdown in last.phases then 1 else 0;
      hide Left, Settled;
      CountOneMore(before, left);
      assert before + [] == before;
    }
  }

  lemma CountOneMore(ops: seq<Operation>, o: Operation)
    ensures PhasesCount(ops + [o]) == PhasesCount(ops) + |o.phases|
  {
    assert (ops + [o])[..|ops|] == ops;
  }

  // ----- What a caller gets -----

  /** The set of pending pairs changed by exactly this much. */
  ghost predicate PairsBecome(before: seq<Operation>, after: seq<Operation>, added: set<(string, Phase)>, removed: set<(string, Phase)>) {
    forall i, p :: Holds(after, i, p) <==> (i, p) in added || (Holds(before, i, p) && (i, p) !in removed)
  }

  ghost function PairsOf(id: string, phases: seq<Phase>): set<(string, Phase)> {
    set p | p in phases :: (id, p)
  }

  lemma PutPairs(file: seq<Operation>, op: Operation, exact: bool)
    requires Valid(file)
    ensures PairsBecome(file, Put(file, op, exact),
                        if Answer(file, op, exact).Accepted? then PairsOf(op.id, op.phases) else {}, {})
  {
    hide Put, Answer, Holds, Valid;
    forall i, p
      ensures Holds(Put(file, op, exact), i, p)
         <==> Holds(file, i, p) || (Answer(file, op, exact).Accepted? && op.id == i && p in op.phases)
    {
      PutHolds(file, op, exact, i, p);
    }
  }

  lemma AcknowledgePairs(file: seq<Operation>, id: string, phase: Phase)
    requires Valid(file)
    ensures PairsBecome(file, Step(file, Acknowledge(id, phase)), {}, {(id, phase)})
  {
    hide Step, Holds, Valid;
    forall i, p
      ensures Holds(Step(file, Acknowledge(id, phase)), i, p) <==> Holds(file, i, p) && !(i == id && p == phase)
    {
      StepHolds(file, Acknowledge(id, phase), i, p);
    }
  }

  lemma DiscardPairs(file: seq<Operation>, id: string)
    requires Valid(file)
    ensures PairsBecome(file, Step(file, Discard(id)), {}, {(id, Shutdown), (id, Ready)})
  {
    hide Step, Holds, Valid;
    forall i, p: Phase
      ensures Holds(Step(file, Discard(id)), i, p) <==> Holds(file, i, p) && (i, p) !in {(id, Shutdown), (id, Ready)}
    {
      StepHolds(file, Discard(id), i, p);
      assert p == Shutdown || p == Ready;
    }
  }

  ghost predicate IsUpgrade(file: seq<Operation>, id: string) {
    exists o :: o in file && o.id == id && o.action == UpgradeAction
  }

  lemma RetirePairs(file: seq<Operation>, completed: set<string>)
    requires Valid(file)
    ensures forall i, p :: Holds(Step(file, Retire(completed)), i, p)
              <==> Holds(file, i, p) && !(p == Shutdown && i in completed && IsUpgrade(file, i))
  {
    hide Step, Holds, Valid;
    forall i, p
      ensures Holds(Step(file, Retire(completed)), i, p)
         <==> Holds(file, i, p) && !(p == Shutdown && i in completed && IsUpgrade(file, i))
    {
      StepHolds(file, Retire(completed), i, p);
    }
  }

  /** Two operations for different things. */
  predicate Differs(a: Operation, b: Operation) {
    a.action != b.action || a.target != b.target || a.trigger != b.trigger
  }

  /** An enqueue is refused for these reasons and no others. */
  lemma AnswerMeans(file: seq<Operation>, op: Operation, exact: bool)
    requires Valid(file)
    ensures Answer(file, op, exact).IdentityConflict?
       <==> exists o :: o in Visible(file) && o.id == op.id && Differs(o, op)
    ensures Answer(file, op, exact).Refused?
       <==> exact && (forall o :: o in Visible(file) ==> o.id != op.id) && exists o :: o in Visible(file) && o.action == op.action
  {
    hide Visible, DistinctPhases;
    VisibleIs(file);
    var found := Find(Visible(file), op.id);
    if found.Some? {
      forall o | o in Visible(file) && o.id == op.id ensures o == found.value {
        UniqueId(Visible(file), o, found.value);
      }
    }
  }

  /** The file of one server. Each method runs under the file's lock. */
  class OperationsFile {
    var operations: seq<Operation>

    constructor ()
      ensures operations == []
    {
      operations := [];
    }

    /** Adds the named pairs, unless an operation of another identity has the id; then nothing changes. */
    method EnqueueLifecycleOperation(op: Operation) returns (outcome: Outcome)
      modifies this
      ensures operations == Step(old(operations), Enqueue(op)) && outcome == Answer(old(operations), op, false)
      ensures !outcome.Accepted? ==> operations == old(operations)
      ensures Valid(old(operations)) ==>
                && Valid(operations) && !outcome.Refused?
                && PairsBecome(old(operations), operations,
                               if outcome.Accepted? then PairsOf(op.id, op.phases) else {}, {})
                && (outcome.IdentityConflict?
                    <==> exists o :: o in Visible(old(operations)) && o.id == op.id && Differs(o, op))
    {
      hide Visible, Valid, PairsBecome, PairsOf, Deduped, Merged, MergedPhases, SameIdentity, Differs;
      if Valid(operations) {
        PutPairs(operations, op, false);
        AnswerMeans(operations, op, false);
        StepKeepsValid(operations, Enqueue(op));
      }
      var existing := Visible(operations);
      var duplicate := Find(existing, op.id);
      if duplicate.Some? {
        if !SameIdentity(duplicate.value, op) {
          return IdentityConflict;
        }
        operations := Merged(existing, op.id, MergedPhases(duplicate.value, op));
      } else {
        operations := existing + [op.(phases := Deduped(op.phases))];
      }
      outcome := Accepted;
    }

    /** The same, but a new operation for an action that is held is refused as well. */
    method EnqueueExactIfNoActionConflict(op: Operation) returns (outcome: Outcome)
      modifies this
      ensures operations == Step(old(operations), EnqueueExact(op)) && outcome == Answer(old(operations), op, true)
      ensures !outcome.Accepted? ==> operations == old(operations)
      ensures Valid(old(operations)) ==>
                && Valid(operations)
                && PairsBecome(old(operations), operations,
                               if outcome.Accepted? then PairsOf(op.id, op.phases) else {}, {})
                && (outcome.IdentityConflict?
                    <==> exists o :: o in Visible(old(operations)) && o.id == op.id && Differs(o, op))
                && (outcome.Refused?
                    <==> && (forall o :: o in Visible(old(operations)) ==> o.id != op.id)
                         && exists o :: o in Visible(old(operations)) && o.action == op.action)
    {
      hide Visible, Valid, PairsBecome, PairsOf, Deduped, Merged, MergedPhases, SameIdentity, Differs;
      if Valid(operations) {
        PutPairs(operations, op, true);
        AnswerMeans(operations, op, true);
        StepKeepsValid(operations, EnqueueExact(op));
      }
      var existing := Visible(operations);
      var duplicate := Find(existing, op.id);
      if duplicate.Some? {
        if !SameIdentity(duplicate.value, op) {
          return IdentityConflict;
        }
        operations := Merged(existing, op.id, MergedPhases(duplicate.value, op));
        return Accepted;
      }
      if exists o :: o in existing && o.action == op.action {
        return Refused;
      }
      operations := existing + [op.(phases := Deduped(op.phases))];
      outcome := Accepted;
    }

    /** Takes exactly this pair out of the pending ones. */
    method AcknowledgeLifecycleReceipt(id: string, phase: Phase)
      modifies this
      ensures operations == Step(old(operations), Acknowledge(id, phase))
      ensures Valid(old(operations)) ==>
                Valid(operations) && PairsBecome(old(operations), operations, {}, {(id, phase)})
    {
      hide Visible, Valid, PairsBecome, Struck;
      if Valid(operations) {
        AcknowledgePairs(operations, id, phase);
        StepKeepsValid(operations, Acknowledge(id, phase));
      }
      operations := Struck(Visible(operations), (o: Operation) => o.id == id, phase);
    }

    /** Takes out every pair of the operation and no other. */
    method DiscardLifecycleOperation(id: string)
      modifies this
      ensures operations == Step(old(operations), Discard(id))
      ensures Valid(old(operations)) ==>
                Valid(operations) && PairsBecome(old(operations), operations, {}, {(id, Shutdown), (id, Ready)})
    {
      hide Visible, Valid, PairsBecome, Dropped;
      if Valid(operations) {
        DiscardPairs(operations, id);
        StepKeepsValid(operations, Discard(id));
      }
      operations := Dropped(Visible(operations), id);
    }

    /** Counts while it rebuilds the list, and writes only when something was removed. */
    method RetireCompletedUpgradeShutdowns(completed: set<string>) returns (removed: nat)
      modifies this
      ensures operations == Step(old(operations), Retire(completed))
      ensures Valid(old(operations)) ==>
                PhasesCount(Visible(operations)) + removed == PhasesCount(Visible(old(operations)))
      ensures completed == {} ==> removed == 0 && operations == old(operations)
      ensures Valid(old(operations)) ==>
                && Valid(operations)
                && forall i, p :: Holds(operations, i, p)
                     <==> Holds(old(operations), i, p)
                          && !(p == Shutdown && i in completed && IsUpgrade(old(operations), i))
    {
      hide Visible, Left, PhasesCount, Valid, Holds, IsUpgrade;
      if Valid(operations) {
        RetirePairs(operations, completed);
        StepKeepsValid(operations, Retire(completed));
      }
      var existing := Visible(operations);
      var hit := (o: Operation) => Settled(completed, o);
      VisibleIs(operations);
      removed := 0;
      var next := [];
      for i := 0 to |existing|
        invariant next == Struck(existing[..i], hit, Shutdown)
        invariant removed == SettledCount(existing[..i], completed)
        invariant completed == {} ==> removed == 0
      {
        var o := existing[i];
        assert existing[..i + 1][..i] == existing[..i];
        var left := Left(o, hit, Shutdown);
        assert |left.phases| != |o.phases| <==> Settled(completed, o) && Shutdown in o.phases by { LeftShorter(o, hit); }
        if |left.phases| != |o.phases| {
          removed := removed + 1;
        }
        next := next + if left.phases == [] then [] else [left];
      }
      assert existing[..|existing|] == existing;
      if Valid(operations) {
        RetireCounts(existing, completed);
      }
      if removed > 0 {
        operations := next;
        StruckAreVisible(existing, hit);
      }
    }

    /**
     * The nested loop that collects the acknowledgements to send: one for every pending
     * pair that was asked for, with its operation's action, and with the loaded version
     * exactly on ready phases when one was given.
     */
    method ReadPendingAcknowledgements(filter: Option<Phase>, loaded: string) returns (acks: seq<Acknowledgement>)
      ensures acks == Pending(Visible(operations), filter, loaded)
      ensures Valid(operations) ==> EachOnce(acks)
      ensures Valid(operations) ==> forall a :: a in acks <==> Reports(operations, filter, loaded, a)
    {
      hide Visible, AcknowledgementFor, Valid, EachOnce, Reports;
      if Valid(operations) {
        PendingReports(operations, filter, loaded);
      }
      var existing := Visible(operations);
      acks := [];
      for i := 0 to |existing|
        invariant acks == Pending(existing[..i], filter, loaded)
      {
        var o, before := existing[i], acks;
        for k := 0 to |o.phases|
          invariant acks == before + PhaseAcks(o, o.phases[..k], filter, loaded)
        {
          assert o.phases[..k + 1][..k] == o.phases[..k];
          if Asked(filter, o.phases[k]) {
            acks := acks + [AcknowledgementFor(o, o.phases[k], loaded)];
          }
        }
        assert o.phases[..|o.phases|] == o.phases;
        assert existing[..i + 1][..i] == existing[..i];
      }
      assert existing[..|existing|] == existing;
    }
  }

  lemma LeftShorter(o: Operation, hit: Operation -> bool)
    ensures |Left(o, hit, Shutdown).phases| != |o.phases| <==> hit(o) && Shutdown in o.phases
  {
  }

  lemma StruckAreVisible(ops: seq<Operation>, hit: Operation -> bool)
    ensures Visible(Struck(ops, hit, Shutdown)) == Struck(ops, hit, Shutdown)
  {
    StruckIs(ops, hit, Shutdown);
    AllVisible(Struck(ops, hit, Shutdown));
  }

  lemma {:induction false} AllVisible(ops: seq<Operation>)
    requires forall o :: o in ops ==> o.phases != []
    ensures Visible(ops) == ops
  {
    if ops != [] {
      assert ops == ops[..|ops| - 1] + [ops[|ops| - 1]];
      AllVisible(ops[..|ops| - 1]);
    }
  }
}
