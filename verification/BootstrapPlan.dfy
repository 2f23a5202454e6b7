/**
 * Choosing and ordering the statements of the managed bootstrap. What the scans learn
 * about a statement (its created name, index target, relations read, CDC sources) is
 * given; the selection, the counting and the order checks are modelled.
 */
module BootstrapPlan {
  import opened Basics

  const LOCAL_SOURCE: string := "slockdev_pg_cdc"
  const PRODUCTION_SOURCE: string := "slock_neon_cdc"

  /** A statement as its scans see it; names are in lower case and uses leaves out the statement's own name. */
  datatype Statement = Statement(
    name: Option<string>, relation: bool, target: Option<string>, uses: seq<string>, sources: seq<string>)

  /** A piece of an artifact. A supported one is known before and after the source name is rewritten. */
  datatype Piece =
    | Skipped
    | Unsupported
    | Supported(original: Statement, final: Statement)

  datatype Artifact = Artifact(file: string, relations: seq<string>)

  datatype Manifest = Manifest(tables: seq<Statement>, artifacts: seq<Artifact>, serverReads: seq<string>)

  /** Rewriting one word leaves the kind of a statement and every other name alone. */
  predicate Scanned(p: Piece) {
    p.Supported? ==>
      && p.original.name.Some? && p.final.relation == p.original.relation
      && (p.original.name.value != PRODUCTION_SOURCE ==> p.final.name == p.original.name)
  }

  /** The manifest's own tables are relations, and no relation carries the source's name. */
  predicate Listed(m: Manifest) {
    && (forall i :: 0 <= i < |m.tables| ==> m.tables[i].relation && m.tables[i].name.Some?)
    && (forall k :: 0 <= k < |m.artifacts| ==> PRODUCTION_SOURCE !in m.artifacts[k].relations)
  }

  predicate AllScanned(pieces: seq<Piece>) {
    forall i :: 0 <= i < |pieces| ==> Scanned(pieces[i])
  }

  function SetOf(names: seq<string>): set<string> {
    set n | n in names
  }

  // ----- What a list of statements does -----

  /** The relations created, without indexes. */
  function Created(stmts: seq<Statement>): set<string> {
    if stmts == [] then {}
    else
      var last := stmts[|stmts| - 1];
      Created(stmts[..|stmts| - 1]) + (if last.relation && last.name.Some? then {last.name.value} else {})
  }

  /** Everything read, and every index's base. */
  function Referenced(stmts: seq<Statement>): set<string> {
    if stmts == [] then {}
    else
      var last := stmts[|stmts| - 1];
      Referenced(stmts[..|stmts| - 1]) + SetOf(last.uses) + (if last.target.Some? then {last.target.value} else {})
  }

  /** A statement may come after these: what it reads is there, what it creates is not. */
  predicate Fits(created: set<string>, s: Statement) {
    && (forall i :: 0 <= i < |s.uses| ==> s.target == Some(s.uses[i]) || s.uses[i] in created)
    && (s.relation && s.name.Some? ==> s.name.value !in created)
  }

  predicate InOrder(stmts: seq<Statement>) {
    forall k :: 0 <= k < |stmts| ==> Fits(Created(stmts[..k]), stmts[k])
  }

  // ----- The plan -----

  /** The statements taken from an artifact: the wanted relations and the indexes of built relations. */
  predicate Chosen(p: Piece, wanted: set<string>, created: set<string>) {
    && p.Supported? && p.original.name.Some?
    && if p.original.relation then p.original.name.value in wanted
       else p.original.target.Some? && (p.original.target.value in wanted || p.original.target.value in created)
  }

  function Select(pieces: seq<Piece>, wanted: set<string>, created: set<string>): seq<Statement> {
    if pieces == [] then []
    else
      var last := pieces[|pieces| - 1];
      Select(pieces[..|pieces| - 1], wanted, created) + (if Chosen(last, wanted, created) then [last.final] else [])
  }

  predicate Makes(p: Piece, name: string) {
    p.Supported? && p.original.relation && p.original.name == Some(name)
  }

  /** How often an artifact creates a relation. */
  function Times(pieces: seq<Piece>, name: string): nat {
    if pieces == [] then 0
    else Times(pieces[..|pieces| - 1], name) + (if Makes(pieces[|pieces| - 1], name) then 1 else 0)
  }

  /** The relations due before an artifact. */
  function Due(m: Manifest, k: nat): set<string>
    requires k <= |m.artifacts|
  {
    if k == 0 then Created(m.tables) else Due(m, k - 1) + SetOf(m.artifacts[k - 1].relations)
  }

  function Pieces(m: Manifest, texts: map<string, seq<Piece>>, k: nat): seq<Piece>
    requires k < |m.artifacts|
  {
    if m.artifacts[k].file in texts then texts[m.artifacts[k].file] else []
  }

  function Taken(m: Manifest, texts: map<string, seq<Piece>>, k: nat): seq<Statement>
    requires k < |m.artifacts|
  {
    Select(Pieces(m, texts, k), SetOf(m.artifacts[k].relations), Due(m, k))
  }

  /** The whole list, read off the manifest: the tables, then each artifact's statements. */
  function Plan(m: Manifest, texts: map<string, seq<Piece>>, k: nat): seq<Statement>
    requires k <= |m.artifacts|
  {
    if k == 0 then m.tables else Plan(m, texts, k - 1) + Taken(m, texts, k - 1)
  }

  ghost predicate LocalOnly(stmts: seq<Statement>) {
    forall i :: 0 <= i < |stmts| ==> Local(stmts[i])
  }

  ghost predicate NothingUnsupported(pieces: seq<Piece>) {
    forall i :: 0 <= i < |pieces| ==> !pieces[i].Unsupported?
  }

  ghost predicate EachOnce(pieces: seq<Piece>, wanted: seq<string>) {
    forall w :: w in wanted ==> Times(pieces, w) == 1
  }

  /** The artifact is there, holds only supported statements, makes each wanted relation once and reads the local source. */
  ghost predicate ArtifactFit(m: Manifest, texts: map<string, seq<Piece>>, k: nat)
    requires k < |m.artifacts|
  {
    && m.artifacts[k].file in texts
    && NothingUnsupported(Pieces(m, texts, k))
    && EachOnce(Pieces(m, texts, k), m.artifacts[k].relations)
    && LocalOnly(Taken(m, texts, k))
  }

  ghost predicate Serves(m: Manifest, stmts: seq<Statement>) {
    && (forall i :: 0 <= i < |m.serverReads| ==> m.serverReads[i] in Created(stmts))
    && (forall i :: 0 <= i < |m.tables| && m.tables[i].name.Some? ==>
          m.tables[i].name.value in Referenced(stmts) || m.tables[i].name.value in m.serverReads)
  }

  /** The manifest and the artifacts can be bootstrapped. */
  ghost predicate Acceptable(m: Manifest, texts: map<string, seq<Piece>>) {
    var n := |m.artifacts|;
    && (forall k :: 0 <= k < n ==> ArtifactFit(m, texts, k))
    && InOrder(Plan(m, texts, n))
    && Serves(m, Plan(m, texts, n))
  }

  // ----- Facts about lists of statements -----

  lemma {:induction false} CreatedIs(stmts: seq<Statement>, name: string)
    ensures name in Created(stmts) <==> exists i :: 0 <= i < |stmts| && stmts[i].relation && stmts[i].name == Some(name)
  {
    if stmts != [] {
      var front, last := stmts[..|stmts| - 1], stmts[|stmts| - 1];
      CreatedIs(front, name);
      if name in Created(front) {
        var i :| 0 <= i < |front| && front[i].relation && front[i].name == Some(name);
        assert stmts[i] == front[i];
      }
      if exists i :: 0 <= i < |stmts| && stmts[i].relation && stmts[i].name == Some(name) {
        var i :| 0 <= i < |stmts| && stmts[i].relation && stmts[i].name == Some(name);
        assert i < |front| ==> front[i] == stmts[i];
      }
    }
  }

  lemma {:induction false} CreatedSplits(a: seq<Statement>, b: seq<Statement>)
    ensures Created(a + b) == Created(a) + Created(b)
  {
    if b == [] {
      assert a + b == a;
    } else {
      assert (a + b)[..|a + b| - 1] == a + b[..|b| - 1];
      CreatedSplits(a, b[..|b| - 1]);
    }
  }

  lemma InOrderPrefix(a: seq<Statement>, b: seq<Statement>)
    requires InOrder(a + b)
    ensures InOrder(a)
  {
    hide Created;
    forall k | 0 <= k < |a| ensures Fits(Created(a[..k]), a[k]) {
      assert (a + b)[..k] == a[..k] && (a + b)[k] == a[k];
    }
  }

  lemma InOrderSnoc(a: seq<Statement>, s: Statement)
    ensures InOrder(a + [s]) <==> InOrder(a) && Fits(Created(a), s)
  {
    hide Created;
    var all := a + [s];
    assert all[..|a|] == a;
    assert forall k :: 0 <= k < |a| ==> all[..k] == a[..k];
    if InOrder(all) {
      InOrderPrefix(a, [s]);
      assert Fits(Created(all[..|a|]), all[|a|]);
    } else if InOrder(a) {
      var k :| 0 <= k < |all| && !Fits(Created(all[..k]), all[k]);
      assert k == |a|;
    }
  }

  lemma {:induction false} PlanPrefix(m: Manifest, texts: map<string, seq<Piece>>, k: nat, n: nat)
    requires k <= n <= |m.artifacts|
    ensures exists rest :: Plan(m, texts, n) == Plan(m, texts, k) + rest
  {
    if k == n {
      assert Plan(m, texts, n) == Plan(m, texts, k) + [];
    } else {
      PlanPrefix(m, texts, k, n - 1);
      var rest :| Plan(m, texts, n - 1) == Plan(m, texts, k) + rest;
      assert Plan(m, texts, n) == Plan(m, texts, k) + (rest + Taken(m, texts, n - 1));
    }
  }

  // ----- What the selection creates -----

  lemma {:induction false} TimesIs(pieces: seq<Piece>, name: string)
    ensures Times(pieces, name) > 0 <==> exists i :: 0 <= i < |pieces| && Makes(pieces[i], name)
  {
    if pieces != [] {
      var front := pieces[..|pieces| - 1];
      TimesIs(front, name);
      if Times(front, name) > 0 {
        var i :| 0 <= i < |front| && Makes(front[i], name);
        assert Makes(pieces[i], name);
      }
      if exists i :: 0 <= i < |pieces| && Makes(pieces[i], name) {
        var i :| 0 <= i < |pieces| && Makes(pieces[i], name);
        assert i < |front| ==> Makes(front[i], name);
      }
    }
  }

  /** The selected statements create exactly the wanted relations the artifact makes. */
  lemma {:induction false} SelectCreates(pieces: seq<Piece>, wanted: set<string>, created: set<string>, name: string)
    requires AllScanned(pieces) && PRODUCTION_SOURCE !in wanted
    ensures name in Created(Select(pieces, wanted, created)) <==> name in wanted && Times(pieces, name) > 0
  {
    if pieces != [] {
      var front, last := pieces[..|pieces| - 1], pieces[|pieces| - 1];
      SelectCreates(front, wanted, created, name);
      assert Scanned(last);
      var before := Select(front, wanted, created);
      if Chosen(last, wanted, created) {
        assert (before + [last.final])[..|before|] == before;
      } else {
        assert before + [] == before;
      }
    }
  }

  lemma {:induction false} PlanCreates(m: Manifest, texts: map<string, seq<Piece>>, k: nat)
    requires Listed(m) && k <= |m.artifacts|
    requires forall f :: f in texts ==> AllScanned(texts[f])
    requires forall j :: 0 <= j < k ==> ArtifactFit(m, texts, j)
    ensures Created(Plan(m, texts, k)) == Due(m, k)
  {
    hide Created, Select, LocalOnly;
    if k > 0 {
      PlanCreates(m, texts, k - 1);
      CreatedSplits(Plan(m, texts, k - 1), Taken(m, texts, k - 1));
      assert ArtifactFit(m, texts, k - 1);
      var wanted := SetOf(m.artifacts[k - 1].relations);
      forall name ensures name in Created(Taken(m, texts, k - 1)) <==> name in wanted {
        SelectCreates(Pieces(m, texts, k - 1), wanted, Due(m, k - 1), name);
      }
    }
  }

  /** Relations appear once: no two statements create the same one. */
  ghost predicate NoneTwice(stmts: seq<Statement>) {
    forall i, j :: 0 <= i < j < |stmts| && stmts[i].relation && stmts[j].relation && stmts[i].name.Some?
                   ==> stmts[i].name != stmts[j].name
  }

  /** Every relation a statement reads, apart from an index's own base, is created by an earlier one. */
  ghost predicate ReadsEarlier(stmts: seq<Statement>) {
    forall k, d :: 0 <= k < |stmts| && d in stmts[k].uses && stmts[k].target != Some(d) ==> MadeBefore(stmts, k, d)
  }

  ghost predicate MadeBefore(stmts: seq<Statement>, k: nat, name: string)
    requires k <= |stmts|
  {
    exists j :: 0 <= j < k && stmts[j].relation && stmts[j].name == Some(name)
  }

  /** The order check by sets says this about positions. */
  lemma OrderMeans(stmts: seq<Statement>)
    requires InOrder(stmts)
    ensures NoneTwice(stmts) && ReadsEarlier(stmts)
  {
    hide Created;
    forall k, d | 0 <= k < |stmts| && d in stmts[k].uses && stmts[k].target != Some(d)
      ensures MadeBefore(stmts, k, d)
    {
      assert Fits(Created(stmts[..k]), stmts[k]);
      CreatedIs(stmts[..k], d);
      var j :| 0 <= j < k && stmts[..k][j].relation && stmts[..k][j].name == Some(d);
      assert stmts[j].relation;
    }
    forall i, j | 0 <= i < j < |stmts| && stmts[i].relation && stmts[j].relation && stmts[i].name.Some?
      ensures stmts[i].name != stmts[j].name
    {
      assert Fits(Created(stmts[..j]), stmts[j]);
      CreatedIs(stmts[..j], stmts[i].name.value);
      assert stmts[..j][i].relation;
    }
  }

  /**
   * What an accepted bootstrap gives: dependencies come first, no relation is created
   * twice, and exactly the required relations are created, among them all the server reads.
   */
  lemma AcceptedIsSound(m: Manifest, texts: map<string, seq<Piece>>)
    requires Listed(m) && Acceptable(m, texts)
    requires forall f :: f in texts ==> AllScanned(texts[f])
    ensures var plan := Plan(m, texts, |m.artifacts|);
            && ReadsEarlier(plan) && NoneTwice(plan)
            && Created(plan) == Due(m, |m.artifacts|)
            && forall i :: 0 <= i < |m.serverReads| ==> m.serverReads[i] in Due(m, |m.artifacts|)
  {
    hide ArtifactFit;
    OrderMeans(Plan(m, texts, |m.artifacts|));
    PlanCreates(m, texts, |m.artifacts|);
  }

  // ----- The builder -----

  class Builder {
    var created: set<string>
    var referenced: set<string>
    var statements: seq<Statement>

    ghost predicate Valid()
      reads this
    {
      created == Created(statements) && referenced == Referenced(statements) && InOrder(statements)
    }

    constructor ()
      ensures Valid() && statements == []
    {
      created, referenced, statements := {}, {}, [];
    }

    /** Accepts a statement exactly when the list stays in order with it. */
    method Add(s: Statement) returns (ok: bool)
      requires Valid()
      modifies this
      ensures ok <==> InOrder(old(statements) + [s])
      ensures ok ==> Valid() && statements == old(statements) + [s]
    {
      hide Created, Referenced, InOrder, SetOf;
      InOrderSnoc(statements, s);
      AddEffects(statements, s);
      ghost var were, seen := statements, referenced;
      assert SetOf(s.uses[..0]) == {} by { SetOfNone(s.uses); }
      for i := 0 to |s.uses|
        invariant created == old(created) && statements == were
        invariant forall j :: 0 <= j < i ==> s.target == Some(s.uses[j]) || s.uses[j] in created
        invariant referenced + OwnBase(s) == seen + SetOf(s.uses[..i]) + OwnBase(s)
      {
        var dep := s.uses[i];
        SetOfMore(s.uses, i);
        if s.target != Some(dep) {
          if dep !in created {
            return false;
          }
          referenced := referenced + {dep};
        }
      }
      assert s.uses[..|s.uses|] == s.uses;
      referenced := referenced + OwnBase(s);
      if s.relation && s.name.Some? {
        if s.name.value in created {
          return false;
        }
        created := created + {s.name.value};
      }
      statements := statements + [s];
      ok := true;
    }
  }

  lemma SetOfNone(names: seq<string>)
    ensures SetOf(names[..0]) == {}
  {
  }

  lemma SetOfMore(names: seq<string>, i: nat)
    requires i < |names|
    ensures SetOf(names[..i + 1]) == SetOf(names[..i]) + {names[i]}
  {
    assert names[..i + 1] == names[..i] + [names[i]];
  }

  function OwnBase(s: Statement): set<string> {
    if s.target.Some? then {s.target.value} else {}
  }

  lemma AddEffects(stmts: seq<Statement>, s: Statement)
    ensures Created(stmts + [s]) == Created(stmts) + (if s.relation && s.name.Some? then {s.name.value} else {})
    ensures Referenced(stmts + [s]) == Referenced(stmts) + SetOf(s.uses) + OwnBase(s)
  {
    assert (stmts + [s])[..|stmts|] == stmts;
  }

  ghost predicate Local(s: Statement) {
    forall j :: 0 <= j < |s.sources| ==> s.sources[j] == LOCAL_SOURCE
  }

  method CheckSources(s: Statement) returns (ok: bool)
    ensures ok <==> Local(s)
  {
    for j := 0 to |s.sources|
      invariant forall l :: 0 <= l < j ==> s.sources[l] == LOCAL_SOURCE
    {
      if s.sources[j] != LOCAL_SOURCE {
        return false;
      }
    }
    ok := true;
  }

  /** Adding statements one after another; those from artifacts have their sources checked first. */
  method AddAll(b: Builder, stmts: seq<Statement>, checked: bool) returns (ok: bool)
    requires b.Valid()
    modifies b
    ensures ok <==> (checked ==> LocalOnly(stmts)) && InOrder(old(b.statements) + stmts)
    ensures ok ==> b.Valid() && b.statements == old(b.statements) + stmts
  {
    hide Created, Referenced;
    assert old(b.statements) + [] == old(b.statements);
    for i := 0 to |stmts|
      invariant b.Valid() && b.statements == old(b.statements) + stmts[..i]
      invariant checked ==> forall k :: 0 <= k < i ==> Local(stmts[k])
    {
      if checked {
        var local := CheckSources(stmts[i]);
        if !local {
          return false;
        }
      }
      ghost var before := b.statements;
      var added := b.Add(stmts[i]);
      assert before + [stmts[i]] == old(b.statements) + stmts[..i + 1];
      if !added {
        assert old(b.statements) + stmts == (before + [stmts[i]]) + stmts[i + 1..];
        if InOrder(old(b.statements) + stmts) {
          InOrderPrefix(before + [stmts[i]], stmts[i + 1..]);
        }
        return false;
      }
    }
    assert stmts[..|stmts|] == stmts;
    ok := true;
  }

  /** The pass over one artifact: unsupported statements fail, wanted relations are counted, the rest is chosen. */
  method ScanArtifact(pieces: seq<Piece>, wanted: seq<string>, created: set<string>)
    returns (selected: Option<seq<Statement>>)
    ensures selected.Some? <==> NothingUnsupported(pieces) && EachOnce(pieces, wanted)
    ensures selected.Some? ==> selected.value == Select(pieces, SetOf(wanted), created)
  {
    var chosen: seq<Statement> := [];
    var found: map<string, nat> := map[];
    for i := 0 to |pieces|
      invariant NothingUnsupported(pieces[..i])
      invariant chosen == Select(pieces[..i], SetOf(wanted), created)
      invariant forall w :: w in wanted ==> Times(pieces[..i], w) == if w in found then found[w] else 0
    {
      var p := pieces[i];
      assert pieces[..i + 1][..i] == pieces[..i];
      if p.Unsupported? {
        return None;
      }
      if p.Supported? {
        if p.original.relation && p.original.name.Some? {
          var name := p.original.name.value;
          found := found[name := (if name in found then found[name] else 0) + 1];
        }
        if Chosen(p, SetOf(wanted), created) {
          chosen := chosen + [p.final];
        }
      }
    }
    assert pieces[..|pieces|] == pieces;
    for i := 0 to |wanted|
      invariant forall j :: 0 <= j < i ==> Times(pieces, wanted[j]) == 1
    {
      if (if wanted[i] in found then found[wanted[i]] else 0) != 1 {
        return None;
      }
    }
    selected := Some(chosen);
  }

  /**
   * The bootstrap statements, or nothing when a guard fails. It returns the plan read
   * off the manifest exactly when the manifest and the artifacts are acceptable.
   */
  method BuildBootstrapStatements(m: Manifest, texts: map<string, seq<Piece>>) returns (r: Option<seq<Statement>>)
    requires Listed(m) && forall f :: f in texts ==> AllScanned(texts[f])
    ensures r.Some? <==> Acceptable(m, texts)
    ensures r.Some? ==> r.value == Plan(m, texts, |m.artifacts|)
  {
    hide Created, Referenced, InOrder, ArtifactFit, Taken, Pieces, Due, Serves;
    var n := |m.artifacts|;
    var b := new Builder();
    assert [] + m.tables == Plan(m, texts, 0);
    var ok := AddAll(b, m.tables, false);
    if !ok {
      PlanOutOfOrder(m, texts, 0);
      return None;
    }
    for k := 0 to n
      invariant b.Valid() && b.statements == Plan(m, texts, k)
      invariant forall j :: 0 <= j < k ==> ArtifactFit(m, texts, j)
    {
      ok := BuildArtifact(m, texts, k, b);
      if !ok {
        if ArtifactFit(m, texts, k) {
          PlanOutOfOrder(m, texts, k + 1);
        }
        return None;
      }
    }
    ok := CheckServed(m, b);
    r := if ok then Some(b.statements) else None;
  }

  /** One artifact: found, scanned against what is created so far, and its choice added. */
  method BuildArtifact(m: Manifest, texts: map<string, seq<Piece>>, k: nat, b: Builder) returns (ok: bool)
    requires Listed(m) && forall f :: f in texts ==> AllScanned(texts[f])
    requires k < |m.artifacts| && b.Valid() && b.statements == Plan(m, texts, k)
    requires forall j :: 0 <= j < k ==> ArtifactFit(m, texts, j)
    modifies b
    ensures ok <==> ArtifactFit(m, texts, k) && InOrder(Plan(m, texts, k + 1))
    ensures ok ==> b.Valid() && b.statements == Plan(m, texts, k + 1)
  {
    hide Created, Referenced, InOrder, NothingUnsupported, EachOnce, LocalOnly, Select, Due;
    PlanCreates(m, texts, k);
    var artifact := m.artifacts[k];
    if artifact.file !in texts {
      return false;
    }
    var selected := ScanArtifact(texts[artifact.file], artifact.relations, b.created);
    if selected.None? {
      return false;
    }
    ok := AddAll(b, selected.value, true);
  }

  lemma PlanOutOfOrder(m: Manifest, texts: map<string, seq<Piece>>, k: nat)
    requires k <= |m.artifacts| && !InOrder(Plan(m, texts, k))
    ensures !InOrder(Plan(m, texts, |m.artifacts|))
  {
    hide Plan, InOrder;
    PlanPrefix(m, texts, k, |m.artifacts|);
    var rest :| Plan(m, texts, |m.artifacts|) == Plan(m, texts, k) + rest;
    if InOrder(Plan(m, texts, |m.artifacts|)) {
      InOrderPrefix(Plan(m, texts, k), rest);
    }
  }

  /** The closing checks: every server read is created, and every table feeds something. */
  method CheckServed(m: Manifest, b: Builder) returns (ok: bool)
    requires b.Valid() && Listed(m)
    ensures ok <==> Serves(m, b.statements)
  {
    for i := 0 to |m.serverReads|
      invariant forall j :: 0 <= j < i ==> m.serverReads[j] in b.created
    {
      if m.serverReads[i] !in b.created {
        return false;
      }
    }
    for i := 0 to |m.tables|
      invariant forall j :: 0 <= j < i ==> m.tables[j].name.value in b.referenced || m.tables[j].name.value in m.serverReads
    {
      var name := m.tables[i].name.value;
      if name !in b.referenced && name !in m.serverReads {
        return false;
      }
    }
    ok := true;
  }
}
