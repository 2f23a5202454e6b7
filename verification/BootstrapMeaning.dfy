/**
 * What the bootstrap plan holds and when it is accepted, told by positions: which pieces
 * of which artifact are in it, in which order, and which guards stand in its way.
 */
module BootstrapMeaning {
  import opened Basics
  import opened BootstrapPlan

  // ----- Which statements are taken -----

  /** A relation the bootstrap has created before artifact k: a table, or a relation of an earlier artifact. */
  ghost predicate ListedBefore(m: Manifest, k: nat, name: string)
    requires k <= |m.artifacts|
  {
    || (exists i :: 0 <= i < |m.tables| && m.tables[i].relation && m.tables[i].name == Some(name))
    || (exists j :: 0 <= j < k && name in m.artifacts[j].relations)
  }

  /** A piece is built: a relation if the artifact lists it, an index if its base is listed here or before. */
  ghost predicate Built(m: Manifest, k: nat, p: Piece)
    requires k < |m.artifacts|
  {
    && p.Supported? && p.original.name.Some?
    && if p.original.relation then p.original.name.value in m.artifacts[k].relations
       else p.original.target.Some?
            && (p.original.target.value in m.artifacts[k].relations || ListedBefore(m, k, p.original.target.value))
  }

  /** The stretch holds, in file order and in rewritten form, exactly the pieces at these positions. */
  ghost predicate TakenAt(m: Manifest, k: nat, pieces: seq<Piece>, stretch: seq<Statement>, at: seq<nat>)
    requires k < |m.artifacts|
  {
    && |at| == |stretch|
    && (forall x :: 0 <= x < |at| ==> at[x] < |pieces| && pieces[at[x]].Supported? && stretch[x] == pieces[at[x]].final)
    && (forall x, y :: 0 <= x < y < |at| ==> at[x] < at[y])
    && (forall p: nat :: p < |pieces| ==> (p in at <==> Built(m, k, pieces[p])))
  }

  ghost predicate StretchOf(m: Manifest, k: nat, pieces: seq<Piece>, stretch: seq<Statement>)
    requires k < |m.artifacts|
  {
    exists at: seq<nat> :: TakenAt(m, k, pieces, stretch, at)
  }

  lemma {:induction false} DueIsListed(m: Manifest, k: nat, name: string)
    requires k <= |m.artifacts|
    ensures name in Due(m, k) <==> ListedBefore(m, k, name)
  {
    if k == 0 {
      CreatedIs(m.tables, name);
    } else {
      DueIsListed(m, k - 1, name);
      var tables := exists i :: 0 <= i < |m.tables| && m.tables[i].relation && m.tables[i].name == Some(name);
      var here := name in m.artifacts[k - 1].relations;
      assert name in Due(m, k) <==> name in Due(m, k - 1) || here;
      var before := exists j :: 0 <= j < k - 1 && name in m.artifacts[j].relations;
      if before {
        var j :| 0 <= j < k - 1 && name in m.artifacts[j].relations;
        assert 0 <= j < k;
      }
      assert (exists j :: 0 <= j < k && name in m.artifacts[j].relations) <==> before || here;
    }
  }

  lemma ChosenIsBuilt(m: Manifest, k: nat, p: Piece)
    requires k < |m.artifacts|
    ensures Chosen(p, SetOf(m.artifacts[k].relations), Due(m, k)) <==> Built(m, k, p)
  {
    hide Due, ListedBefore;
    if p.Supported? && p.original.target.Some? {
      DueIsListed(m, k, p.original.target.value);
    }
  }

  lemma {:induction false} SelectedAt(m: Manifest, k: nat, pieces: seq<Piece>) returns (at: seq<nat>)
    requires k < |m.artifacts|
    ensures TakenAt(m, k, pieces, Select(pieces, SetOf(m.artifacts[k].relations), Due(m, k)), at)
  {
    if pieces == [] {
      at := [];
    } else {
      hide Built, Chosen, Due, SetOf;
      var n := |pieces| - 1;
      at := SelectedAt(m, k, pieces[..n]);
      ChosenIsBuilt(m, k, pieces[n]);
      assert Built(m, k, pieces[n]) ==> pieces[n].Supported? by { BuiltIsSupported(m, k, pieces[n]); }
      assert forall p :: 0 <= p < n ==> pieces[..n][p] == pieces[p];
      if Built(m, k, pieces[n]) {
        at := at + [n];
      }
    }
  }

  lemma BuiltIsSupported(m: Manifest, k: nat, p: Piece)
    requires k < |m.artifacts|
    ensures Built(m, k, p) ==> p.Supported?
  {
  }

  function Flat(stretches: seq<seq<Statement>>): seq<Statement> {
    if stretches == [] then [] else Flat(stretches[..|stretches| - 1]) + stretches[|stretches| - 1]
  }

  /** The list is the tables and then one stretch per artifact, each holding exactly what is built from it. */
  ghost predicate Bootstraps(m: Manifest, texts: map<string, seq<Piece>>, k: nat, list: seq<Statement>, stretches: seq<seq<Statement>>)
    requires k <= |m.artifacts|
  {
    && |stretches| == k && list == m.tables + Flat(stretches)
    && forall j :: 0 <= j < k ==>
         m.artifacts[j].file in texts && StretchOf(m, j, texts[m.artifacts[j].file], stretches[j])
  }

  lemma {:induction false} PlanBootstraps(m: Manifest, texts: map<string, seq<Piece>>, k: nat) returns (stretches: seq<seq<Statement>>)
    requires k <= |m.artifacts| && forall j :: 0 <= j < k ==> m.artifacts[j].file in texts
    ensures Bootstraps(m, texts, k, Plan(m, texts, k), stretches)
  {
    if k == 0 {
      stretches := [];
      assert m.tables + [] == m.tables;
    } else {
      hide Select, Due, TakenAt;
      var before := PlanBootstraps(m, texts, k - 1);
      var pieces := texts[m.artifacts[k - 1].file];
      var at := SelectedAt(m, k - 1, pieces);
      var taken := Taken(m, texts, k - 1);
      stretches := before + [taken];
      assert stretches[..k - 1] == before;
      assert m.tables + (Flat(before) + taken) == m.tables + Flat(before) + taken;
    }
  }

  // ----- When it is accepted -----

  /** Exactly one piece makes the relation. */
  ghost predicate MadeOnce(pieces: seq<Piece>, name: string) {
    exists p :: 0 <= p < |pieces| && Makes(pieces[p], name)
                && forall q :: 0 <= q < |pieces| && Makes(pieces[q], name) ==> q == p
  }

  lemma {:induction false} TimesOnce(pieces: seq<Piece>, name: string)
    ensures Times(pieces, name) == 1 <==> MadeOnce(pieces, name)
  {
    if pieces != [] {
      hide Makes;
      var n := |pieces| - 1;
      var front := pieces[..n];
      TimesOnce(front, name);
      TimesIs(front, name);
      assert forall p :: 0 <= p < n ==> front[p] == pieces[p];
      if Makes(pieces[n], name) {
        assert MadeOnce(pieces, name) <==> forall q :: 0 <= q < n ==> !Makes(front[q], name);
      } else {
        OnceStays(pieces, name);
      }
    }
  }

  lemma OnceStays(pieces: seq<Piece>, name: string)
    requires pieces != [] && !Makes(pieces[|pieces| - 1], name)
    ensures MadeOnce(pieces, name) <==> MadeOnce(pieces[..|pieces| - 1], name)
  {
    hide Makes;
    var front := pieces[..|pieces| - 1];
    assert forall p :: 0 <= p < |front| ==> front[p] == pieces[p];
    if MadeOnce(pieces, name) {
      var p :| 0 <= p < |pieces| && Makes(pieces[p], name) && forall q :: 0 <= q < |pieces| && Makes(pieces[q], name) ==> q == p;
      assert Makes(front[p], name);
    }
    if MadeOnce(front, name) {
      var p :| 0 <= p < |front| && Makes(front[p], name) && forall q :: 0 <= q < |front| && Makes(front[q], name) ==> q == p;
      assert Makes(pieces[p], name);
    }
  }

  /** The set-based order check is exactly the statement by positions. */
  lemma OrderIs(stmts: seq<Statement>)
    ensures InOrder(stmts) <==> NoneTwice(stmts) && ReadsEarlier(stmts)
  {
    hide Created;
    if InOrder(stmts) {
      OrderMeans(stmts);
    }
    if NoneTwice(stmts) && ReadsEarlier(stmts) {
      forall k | 0 <= k < |stmts| ensures Fits(Created(stmts[..k]), stmts[k]) {
        FitsAt(stmts, k);
      }
    }
  }

  lemma FitsAt(stmts: seq<Statement>, k: nat)
    requires k < |stmts| && NoneTwice(stmts) && ReadsEarlier(stmts)
    ensures Fits(Created(stmts[..k]), stmts[k])
  {
    hide Created;
    var s, before := stmts[k], stmts[..k];
    forall i | 0 <= i < |s.uses| ensures s.target == Some(s.uses[i]) || s.uses[i] in Created(before) {
      CreatedIs(before, s.uses[i]);
      if s.target != Some(s.uses[i]) {
        assert s.uses[i] in s.uses && MadeBefore(stmts, k, s.uses[i]);
        var j :| 0 <= j < k && stmts[j].relation && stmts[j].name == Some(s.uses[i]);
        assert before[j] == stmts[j];
      }
    }
    if s.relation && s.name.Some? {
      CreatedIs(before, s.name.value);
      assert forall j :: 0 <= j < k ==> before[j] == stmts[j];
    }
  }

  /** A statement reads the relation, or is an index on it. */
  ghost predicate Feeds(stmts: seq<Statement>, name: string) {
    exists i :: 0 <= i < |stmts| && (name in stmts[i].uses || stmts[i].target == Some(name))
  }

  lemma {:induction false} ReferencedIs(stmts: seq<Statement>, name: string)
    ensures name in Referenced(stmts) <==> Feeds(stmts, name)
  {
    if stmts != [] {
      var front, last := stmts[..|stmts| - 1], stmts[|stmts| - 1];
      ReferencedIs(front, name);
      assert forall i :: 0 <= i < |front| ==> front[i] == stmts[i];
      if Feeds(front, name) {
        var i :| 0 <= i < |front| && (name in front[i].uses || front[i].target == Some(name));
        assert name in stmts[i].uses || stmts[i].target == Some(name);
      }
      if Feeds(stmts, name) {
        var i :| 0 <= i < |stmts| && (name in stmts[i].uses || stmts[i].target == Some(name));
        assert i < |front| ==> name in front[i].uses || front[i].target == Some(name);
      }
    }
  }

  /** Every server read is created, and every table is read, indexed or read by the server. */
  ghost predicate Served(m: Manifest, stmts: seq<Statement>) {
    && (forall i :: 0 <= i < |m.serverReads| ==> MadeBefore(stmts, |stmts|, m.serverReads[i]))
    && (forall i :: 0 <= i < |m.tables| && m.tables[i].name.Some? ==>
          Feeds(stmts, m.tables[i].name.value) || m.tables[i].name.value in m.serverReads)
  }

  lemma ServedIs(m: Manifest, stmts: seq<Statement>)
    ensures Serves(m, stmts) <==> Served(m, stmts)
  {
    hide Created, Referenced, Feeds;
    forall name ensures name in Created(stmts) <==> MadeBefore(stmts, |stmts|, name) {
      CreatedIs(stmts, name);
    }
    forall name ensures name in Referenced(stmts) <==> Feeds(stmts, name) {
      ReferencedIs(stmts, name);
    }
  }

  /** The artifact is there, with supported statements only, and each relation it lists is made by exactly one. */
  ghost predicate Usable(m: Manifest, texts: map<string, seq<Piece>>, k: nat)
    requires k < |m.artifacts|
  {
    && m.artifacts[k].file in texts
    && (forall p :: 0 <= p < |texts[m.artifacts[k].file]| ==> !texts[m.artifacts[k].file][p].Unsupported?)
    && (forall w :: w in m.artifacts[k].relations ==> MadeOnce(texts[m.artifacts[k].file], w))
  }

  /** Beyond the tables, every CDC source read is the local one. */
  ghost predicate ReadsLocal(m: Manifest, list: seq<Statement>) {
    forall i :: |m.tables| <= i < |list| ==> forall s :: s in list[i].sources ==> s == LOCAL_SOURCE
  }

  lemma LocalSplit(m: Manifest, a: seq<Statement>, b: seq<Statement>)
    requires |m.tables| <= |a|
    ensures ReadsLocal(m, a + b) <==> ReadsLocal(m, a) && LocalOnly(b)
  {
    var all := a + b;
    assert forall i :: 0 <= i < |a| ==> all[i] == a[i];
    assert forall i :: |a| <= i < |all| ==> all[i] == b[i - |a|];
    if ReadsLocal(m, all) {
      forall i | 0 <= i < |b| ensures Local(b[i]) {
        assert all[|a| + i] == b[i];
        assert forall j :: 0 <= j < |b[i].sources| ==> b[i].sources[j] in b[i].sources;
      }
    }
    if LocalOnly(b) {
      forall i | |a| <= i < |all| ensures forall s :: s in all[i].sources ==> s == LOCAL_SOURCE {
        assert Local(b[i - |a|]);
      }
    }
  }

  lemma {:induction false} PlanLocal(m: Manifest, texts: map<string, seq<Piece>>, k: nat)
    requires k <= |m.artifacts|
    ensures |m.tables| <= |Plan(m, texts, k)|
    ensures ReadsLocal(m, Plan(m, texts, k)) <==> forall j :: 0 <= j < k ==> LocalOnly(Taken(m, texts, j))
  {
    if k > 0 {
      hide LocalOnly, Taken, ReadsLocal;
      PlanLocal(m, texts, k - 1);
      LocalSplit(m, Plan(m, texts, k - 1), Taken(m, texts, k - 1));
    }
  }

  lemma FitIsUsable(m: Manifest, texts: map<string, seq<Piece>>, k: nat)
    requires k < |m.artifacts|
    ensures ArtifactFit(m, texts, k) <==> Usable(m, texts, k) && LocalOnly(Taken(m, texts, k))
  {
    hide LocalOnly, Taken, MadeOnce, Times;
    if m.artifacts[k].file in texts {
      var pieces := texts[m.artifacts[k].file];
      forall w ensures Times(pieces, w) == 1 <==> MadeOnce(pieces, w) {
        TimesOnce(pieces, w);
      }
    }
  }

  /** Every artifact is usable, and the list is in order, local and serves what it has to. */
  ghost predicate Accepted(m: Manifest, texts: map<string, seq<Piece>>, list: seq<Statement>) {
    && (forall k :: 0 <= k < |m.artifacts| ==> Usable(m, texts, k))
    && NoneTwice(list) && ReadsEarlier(list) && ReadsLocal(m, list) && Served(m, list)
  }

  /**
   * A manifest and artifacts are accepted if and only if every artifact is usable and the
   * list of tables and built statements reads only what is created before, creates nothing
   * twice, reads the local source only, and serves every server read and every table.
   */
  lemma AcceptedExactly(m: Manifest, texts: map<string, seq<Piece>>)
    ensures Acceptable(m, texts) <==> Accepted(m, texts, Plan(m, texts, |m.artifacts|))
  {
    hide ArtifactFit, Usable, LocalOnly, Taken, Plan, InOrder, NoneTwice, ReadsEarlier, ReadsLocal, Serves, Served;
    var n := |m.artifacts|;
    var list := Plan(m, texts, n);
    OrderIs(list);
    ServedIs(m, list);
    PlanLocal(m, texts, n);
    forall k | 0 <= k < n ensures ArtifactFit(m, texts, k) <==> Usable(m, texts, k) && LocalOnly(Taken(m, texts, k)) {
      FitIsUsable(m, texts, k);
    }
  }

  ghost predicate BootstrapOf(m: Manifest, texts: map<string, seq<Piece>>, list: seq<Statement>) {
    exists stretches :: Bootstraps(m, texts, |m.artifacts|, list, stretches)
  }

  /** The positions taken from an artifact are fixed, so its stretch is. */
  lemma StretchIsUnique(m: Manifest, k: nat, pieces: seq<Piece>, a: seq<Statement>, b: seq<Statement>)
    requires k < |m.artifacts| && StretchOf(m, k, pieces, a) && StretchOf(m, k, pieces, b)
    ensures a == b
  {
    hide Built;
    var p: seq<nat> :| TakenAt(m, k, pieces, a, p);
    var q: seq<nat> :| TakenAt(m, k, pieces, b, q);
    assert forall x :: x in p <==> x in q by {
      assert forall x :: 0 <= x < |p| ==> p[x] in p;
      assert forall x :: 0 <= x < |q| ==> q[x] in q;
    }
    IncreasingUnique(p, q);
  }

  lemma {:induction false} IncreasingUnique(p: seq<nat>, q: seq<nat>)
    requires forall x, y :: 0 <= x < y < |p| ==> p[x] < p[y]
    requires forall x, y :: 0 <= x < y < |q| ==> q[x] < q[y]
    requires forall x :: x in p <==> x in q
    ensures p == q
  {
    assert (p != [] ==> p[0] in p) && (q != [] ==> q[0] in q);
    if p != [] && q != [] {
      var n, l := |p| - 1, |q| - 1;
      assert p[n] in q && q[l] in p;
      assert p[n] == q[l];
      forall x ensures x in p[..n] <==> x in q[..l] {
        assert x in p[..n] <==> x in p && x != p[n];
        assert x in q[..l] <==> x in q && x != q[l];
      }
      IncreasingUnique(p[..n], q[..l]);
      assert p == p[..n] + [p[n]] && q == q[..l] + [q[l]];
    }
  }

  lemma BootstrapIsUnique(m: Manifest, texts: map<string, seq<Piece>>, a: seq<Statement>, b: seq<Statement>)
    requires BootstrapOf(m, texts, a) && BootstrapOf(m, texts, b)
    ensures a == b
  {
    hide StretchOf, Flat;
    var n := |m.artifacts|;
    var s :| Bootstraps(m, texts, n, a, s);
    var t :| Bootstraps(m, texts, n, b, t);
    forall j | 0 <= j < n ensures s[j] == t[j] {
      StretchIsUnique(m, j, texts[m.artifacts[j].file], s[j], t[j]);
    }
    assert s == t;
  }

  /**
   * The bootstrap statements. They are returned exactly when some list of the tables and
   * the built pieces, in file order, is acceptable; that list is unique and is the answer.
   */
  method BuildStatements(m: Manifest, texts: map<string, seq<Piece>>) returns (r: Option<seq<Statement>>)
    requires Listed(m) && forall f :: f in texts ==> AllScanned(texts[f])
    ensures r.Some? <==> exists list :: BootstrapOf(m, texts, list) && Accepted(m, texts, list)
    ensures r.Some? ==> BootstrapOf(m, texts, r.value) && Accepted(m, texts, r.value)
  {
    hide Acceptable, Accepted, BootstrapOf, Plan, Listed, AllScanned;
    r := BuildBootstrapStatements(m, texts);
    AcceptedExactly(m, texts);
    forall list | BootstrapOf(m, texts, list) && Accepted(m, texts, list)
      ensures list == Plan(m, texts, |m.artifacts|)
    {
      PlanIsIt(m, texts, list);
    }
    if r.Some? {
      PlanIsBootstrap(m, texts);
    }
  }

  lemma PlanIsBootstrap(m: Manifest, texts: map<string, seq<Piece>>)
    requires Accepted(m, texts, Plan(m, texts, |m.artifacts|))
    ensures BootstrapOf(m, texts, Plan(m, texts, |m.artifacts|))
  {
    hide Plan, Bootstraps, NoneTwice, ReadsEarlier, ReadsLocal, Served;
    forall j | 0 <= j < |m.artifacts| ensures m.artifacts[j].file in texts {
      assert Usable(m, texts, j);
    }
    var stretches := PlanBootstraps(m, texts, |m.artifacts|);
  }

  lemma PlanIsIt(m: Manifest, texts: map<string, seq<Piece>>, list: seq<Statement>)
    requires BootstrapOf(m, texts, list)
    ensures list == Plan(m, texts, |m.artifacts|)
  {
    hide Plan, StretchOf, Flat;
    var s :| Bootstraps(m, texts, |m.artifacts|, list, s);
    var t := PlanBootstraps(m, texts, |m.artifacts|);
    BootstrapIsUnique(m, texts, list, Plan(m, texts, |m.artifacts|));
  }
}
