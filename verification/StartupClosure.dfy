/**
 * The modules the web entry loads at startup. A re-export barrel is followed only
 * where a target is itself a barrel or declares a name some startup module
 * imports, so the edges of the walk depend on names that the walk itself collects;
 * the walk is repeated until nothing new is collected.
 */
module StartupClosure {
  import opened Basics

  type Id = string

  /**
   * What the bundler knows about one module. source tells whether its code is
   * available; barrel whether that code only re-exports; namespaced whether it has
   * an `import * as`; names what it imports by name; declared what it declares.
   */
  datatype Module = Module(
    source: bool,
    barrel: bool,
    namespaced: bool,
    names: set<string>,
    declared: set<string>,
    imports: seq<Id>)

  /** Code that is not available is no barrel and imports no names. */
  predicate WellFormed(m: Module) {
    !m.source ==> !m.barrel && !m.namespaced && m.names == {} && m.declared == {}
  }

  type Graph = g: map<Id, Module> | forall id :: id in g ==> WellFormed(g[id]) witness map[]

  predicate IsBarrel(g: Graph, id: Id) {
    id in g && g[id].barrel
  }

  predicate HasSource(g: Graph, id: Id) {
    id in g && g[id].source
  }

  /** The startup modules, the names they import, and the barrels all of whose re-exports count. */
  datatype Found = Found(closure: set<Id>, names: set<string>, whole: set<Id>)

  predicate Below(a: Found, b: Found) {
    a.closure <= b.closure && a.names <= b.names && a.whole <= b.whole
  }

  /** A barrel's edge to a target counts. */
  predicate Followed(g: Graph, f: Found, id: Id, target: Id) {
    || id in f.whole
    || !HasSource(g, target)
    || IsBarrel(g, target)
    || (HasSource(g, target) && g[target].declared * f.names != {})
  }

  /** The rules for one module that is in the closure. */
  predicate ModuleClosed(g: Graph, f: Found, id: Id) {
    id in g ==>
      if !g[id].barrel then
        && g[id].names <= f.names
        && (forall t :: t in g[id].imports ==> t in f.closure)
        && (g[id].namespaced ==> forall t :: t in g[id].imports && IsBarrel(g, t) ==> t in f.whole)
      else
        && (forall t :: t in g[id].imports && Followed(g, f, id, t) ==> t in f.closure)
        && (id in f.whole ==> forall t :: t in g[id].imports && IsBarrel(g, t) ==> t in f.whole)
  }

  /** Closed under the import and barrel rules. */
  ghost predicate Closed(g: Graph, entry: Id, f: Found) {
    && entry in f.closure
    && "default" in f.names
    && forall id :: id in f.closure ==> ModuleClosed(g, f, id)
  }

  /** The least closed answer. */
  ghost predicate IsLeast(g: Graph, entry: Id, f: Found) {
    Closed(g, entry, f) && forall other :: Closed(g, entry, other) ==> Below(f, other)
  }

  /** There is at most one least answer. */
  lemma LeastIsUnique(g: Graph, entry: Id, a: Found, b: Found)
    requires IsLeast(g, entry, a) && IsLeast(g, entry, b)
    ensures a == b
  {
    assert Below(a, b) && Below(b, a);
  }

  /** Two graphs with the same modules up to the order and repetition of imports have the same closed answers. */
  ghost predicate SameUpToOrder(g: Graph, h: Graph) {
    && g.Keys == h.Keys
    && forall id :: id in g ==> h[id] == g[id].(imports := h[id].imports)
                                && forall t :: t in g[id].imports <==> t in h[id].imports
  }

  lemma OrderDoesNotMatter(g: Graph, h: Graph, entry: Id, f: Found)
    requires SameUpToOrder(g, h) && IsLeast(g, entry, f)
    ensures IsLeast(h, entry, f)
  {
    forall other ensures Closed(g, entry, other) <==> Closed(h, entry, other) {
      forall id | id in other.closure ensures ModuleClosed(g, other, id) <==> ModuleClosed(h, other, id) {
      }
    }
  }

  // ----- The walk -----

  /** Everything the walk can ever meet, so that it ends. */
  function AllIds(g: Graph, entry: Id): set<Id> {
    {entry} + g.Keys + set id, t | id in g && t in g[id].imports :: t
  }

  function AllNames(g: Graph): set<string> {
    {"default"} + set id, n | id in g && n in g[id].names :: n
  }

  ghost predicate Bounded(g: Graph, entry: Id, f: Found) {
    f.closure <= AllIds(g, entry) && f.names <= AllNames(g) && f.whole <= g.Keys
  }

  /** Everything collected so far is forced by the rules. */
  ghost predicate Forced(g: Graph, entry: Id, f: Found, pending: seq<Id>) {
    forall other :: Closed(g, entry, other) ==>
      Below(f, other) && forall t :: t in pending ==> t in other.closure
  }

  /**
   * A walked module obeys the rules for the names and barrels collected when it was
   * walked, with targets in the closure or still pending.
   */
  ghost predicate Walked(g: Graph, f: Found, start: Found, pending: seq<Id>, id: Id) {
    id in g ==>
      if !g[id].barrel then
        && g[id].names <= f.names
        && (forall t :: t in g[id].imports ==> t in f.closure || t in pending)
        && (g[id].namespaced ==> forall t :: t in g[id].imports && IsBarrel(g, t) ==> t in f.whole)
      else
        && (forall t :: t in g[id].imports && Followed(g, start, id, t) ==> t in f.closure || t in pending)
        && (id in start.whole ==> forall t :: t in g[id].imports && IsBarrel(g, t) ==> t in f.whole)
  }

  /** The invariant of one pass: all modules met so far are walked with at least the names the pass started with. */
  ghost predicate PassInv(g: Graph, entry: Id, start: Found, f: Found, pending: seq<Id>) {
    && Bounded(g, entry, f)
    && start.names <= f.names && start.whole <= f.whole && "default" in f.names
    && (forall t :: t in pending ==> t in AllIds(g, entry))
    && (entry in f.closure || entry in pending)
    && Forced(g, entry, f, pending)
    && (forall id :: id in f.closure ==> Walked(g, f, start, pending, id))
  }

  /** The imports of a module that is no barrel. */
  method VisitImports(g: Graph, id: Id, whole0: set<Id>, pending0: seq<Id>)
    returns (whole: set<Id>, pending: seq<Id>)
    requires id in g && !g[id].barrel
    ensures pending == pending0 + g[id].imports
    ensures whole == whole0 + (if g[id].namespaced then set t | t in g[id].imports && IsBarrel(g, t) else {})
  {
    whole, pending := whole0, pending0;
    for k := 0 to |g[id].imports|
      invariant pending == pending0 + g[id].imports[..k]
      invariant whole == whole0 + (if g[id].namespaced then set t | t in g[id].imports[..k] && IsBarrel(g, t) else {})
    {
      var target := g[id].imports[k];
      if g[id].namespaced && IsBarrel(g, target) {
        whole := whole + {target};
      }
      pending := pending + [target];
    }
    assert g[id].imports[..|g[id].imports|] == g[id].imports;
  }

  /** The re-export edges of a barrel. When it counts as whole, so do the barrels among its targets. */
  method VisitReexports(g: Graph, id: Id, names: set<string>, whole0: set<Id>, pending0: seq<Id>)
    returns (whole: set<Id>, pending: seq<Id>)
    requires IsBarrel(g, id)
    ensures pending0 <= pending
    ensures whole0 <= whole
    ensures whole <= whole0 + (set t | t in g[id].imports && IsBarrel(g, t))
    ensures id !in whole0 ==> whole == whole0
    ensures id in whole0 ==> forall t :: t in g[id].imports && IsBarrel(g, t) ==> t in whole
    ensures forall t :: t in g[id].imports && Followed(g, Found({}, names, whole0), id, t) ==> t in pending
    ensures forall t :: t in pending ==> t in pending0 || (t in g[id].imports && Followed(g, Found({}, names, whole0), id, t))
  {
    whole, pending := whole0, pending0;
    for k := 0 to |g[id].imports|
      invariant pending0 <= pending
      invariant whole0 <= whole <= whole0 + (set t | t in g[id].imports[..k] && IsBarrel(g, t))
      invariant id !in whole0 ==> whole == whole0
      invariant id in whole0 ==> forall t :: t in g[id].imports[..k] && IsBarrel(g, t) ==> t in whole
      invariant forall t :: t in g[id].imports[..k] && Followed(g, Found({}, names, whole0), id, t) ==> t in pending
      invariant forall t :: t in pending ==>
                  t in pending0 || (t in g[id].imports[..k] && Followed(g, Found({}, names, whole0), id, t))
    {
      var target := g[id].imports[k];
      if id in whole || !HasSource(g, target) || IsBarrel(g, target) {
        if id in whole && IsBarrel(g, target) {
          whole := whole + {target};
        }
        pending := pending + [target];
      } else if g[target].declared * names != {} {
        pending := pending + [target];
      }
    }
    assert g[id].imports[..|g[id].imports|] == g[id].imports;
  }

  lemma FollowedMonotone(g: Graph, a: Found, b: Found, id: Id, t: Id)
    requires a.names <= b.names && a.whole <= b.whole && Followed(g, a, id, t)
    ensures Followed(g, b, id, t)
  {
    if HasSource(g, t) && g[t].declared * a.names != {} {
      var n :| n in g[t].declared * a.names;
      assert n in g[t].declared * b.names;
    }
  }

  /** A pass that collects nothing new has found a closed answer. */
  lemma QuietPassIsLeast(g: Graph, entry: Id, start: Found, f: Found)
    requires PassInv(g, entry, start, f, []) && f.names == start.names && f.whole == start.whole
    ensures IsLeast(g, entry, f)
  {
    forall id | id in f.closure ensures ModuleClosed(g, f, id) {
      assert Walked(g, f, start, [], id);
      forall t | id in g && t in g[id].imports ensures Followed(g, start, id, t) <==> Followed(g, f, id, t) {
      }
    }
    assert Closed(g, entry, f);
  }

  /** Walking a module that is no barrel. */
  lemma WalkPlain(g: Graph, entry: Id, start: Found, f: Found, pending: seq<Id>, id: Id, next: Found, after: seq<Id>)
    requires PassInv(g, entry, start, f, pending + [id]) && id !in f.closure
    requires id in g ==> !g[id].barrel
    requires next.closure == f.closure + {id}
    requires next.names == f.names + (if id in g then g[id].names else {})
    requires next.whole == f.whole + (if id in g && g[id].namespaced then set t | t in g[id].imports && IsBarrel(g, t) else {})
    requires after == pending + (if id in g then g[id].imports else [])
    ensures PassInv(g, entry, start, next, after)
  {
    forall other | Closed(g, entry, other) ensures Below(next, other) && forall t :: t in after ==> t in other.closure {
      assert id in pending + [id];
      assert Below(f, other) && id in other.closure;
      assert ModuleClosed(g, other, id);
      forall t | t in after ensures t in other.closure {
        assert t in pending ==> t in pending + [id];
      }
    }
    forall k | k in next.closure ensures Walked(g, next, start, after, k) {
      if k != id {
        WalkedFrame(g, f, pending + [id], next, after, start, k);
      }
    }
    BoundedNames(g, entry, id);
    assert forall t :: t in pending ==> t in pending + [id];
    assert id in pending + [id];
  }

  /** A walked module stays walked as more is collected. */
  lemma WalkedFrame(g: Graph, f: Found, pending: seq<Id>, next: Found, after: seq<Id>, start: Found, k: Id)
    requires Walked(g, f, start, pending, k) && Below(f, next)
    requires forall t :: t in pending ==> t in after || t in next.closure
    ensures Walked(g, next, start, after, k)
  {
  }

  lemma BoundedNames(g: Graph, entry: Id, id: Id)
    ensures id in g ==> g[id].names <= AllNames(g)
    ensures id in g ==> forall t :: t in g[id].imports ==> t in AllIds(g, entry)
  {
  }

  /** Walking a barrel: only followed targets become pending. */
  lemma WalkBarrel(g: Graph, entry: Id, start: Found, f: Found, pending: seq<Id>, id: Id, next: Found, after: seq<Id>)
    requires PassInv(g, entry, start, f, pending + [id]) && id !in f.closure && IsBarrel(g, id)
    requires next.closure == f.closure + {id} && next.names == f.names
    requires f.whole <= next.whole <= f.whole + (set t | t in g[id].imports && IsBarrel(g, t))
    requires id !in f.whole ==> next.whole == f.whole
    requires id in f.whole ==> forall t :: t in g[id].imports && IsBarrel(g, t) ==> t in next.whole
    requires forall t :: t in pending ==> t in after
    requires forall t :: t in g[id].imports && Followed(g, f, id, t) ==> t in after
    requires forall t :: t in after ==> t in pending || (t in g[id].imports && Followed(g, f, id, t))
    ensures PassInv(g, entry, start, next, after)
  {
    assert id in pending + [id];
    assert forall t :: t in pending ==> t in pending + [id];
    forall other | Closed(g, entry, other) ensures Below(next, other) && forall t :: t in after ==> t in other.closure {
      assert Below(f, other) && id in other.closure;
      assert ModuleClosed(g, other, id);
      forall t | t in after ensures t in other.closure {
        if t !in pending {
          FollowedMonotone(g, f, other, id, t);
        }
      }
    }
    forall k | k in next.closure ensures Walked(g, next, start, after, k) {
      if k != id {
        WalkedFrame(g, f, pending + [id], next, after, start, k);
      } else {
        forall t | t in g[id].imports && Followed(g, start, id, t) ensures t in after {
          FollowedMonotone(g, start, f, id, t);
        }
      }
    }
    BoundedNames(g, entry, id);
  }

  /** A module met before is skipped. */
  lemma SkipSeen(g: Graph, entry: Id, start: Found, f: Found, pending: seq<Id>, id: Id)
    requires PassInv(g, entry, start, f, pending + [id]) && id in f.closure
    ensures PassInv(g, entry, start, f, pending)
  {
    assert forall t :: t in pending ==> t in pending + [id];
    forall k | k in f.closure ensures Walked(g, f, start, pending, k) {
      WalkedFrame(g, f, pending + [id], f, pending, start, k);
    }
  }

  /** One pass over the graph from the entry. */
  method WalkOnce(g: Graph, entry: Id, names0: set<string>, whole0: set<Id>)
    returns (closure: set<Id>, names: set<string>, whole: set<Id>)
    requires Bounded(g, entry, Found({}, names0, whole0)) && "default" in names0
    requires Forced(g, entry, Found({}, names0, whole0), [entry])
    ensures PassInv(g, entry, Found({}, names0, whole0), Found(closure, names, whole), [])
  {
    hide PassInv, Followed, AllIds, AllNames;
    ghost var start := Found({}, names0, whole0);
    closure, names, whole := {}, names0, whole0;
    var pending := [entry];
    StartPass(g, entry, start);
    while pending != []
      invariant PassInv(g, entry, start, Found(closure, names, whole), pending)
      decreases AllIds(g, entry) - closure, |pending|
    {
      ghost var f := Found(closure, names, whole);
      var id := pending[|pending| - 1];
      ghost var rest := pending[..|pending| - 1];
      assert pending == rest + [id];
      PendingBounded(g, entry, start, f, pending, id);
      pending := pending[..|pending| - 1];
      if id in closure {
        SkipSeen(g, entry, start, f, rest, id);
        continue;
      }
      closure := closure + {id};
      if id !in g {
        WalkPlain(g, entry, start, f, rest, id, Found(closure, names, whole), pending);
      } else if !g[id].barrel {
        names := names + g[id].names;
        whole, pending := VisitImports(g, id, whole, pending);
        WalkPlain(g, entry, start, f, rest, id, Found(closure, names, whole), pending);
      } else {
        whole, pending := VisitReexports(g, id, names, whole, pending);
        FollowedIgnoresClosure(g, f, id);
        WalkBarrel(g, entry, start, f, rest, id, Found(closure, names, whole), pending);
      }
    }
  }

  lemma FollowedIgnoresClosure(g: Graph, f: Found, id: Id)
    ensures forall t :: Followed(g, Found({}, f.names, f.whole), id, t) <==> Followed(g, f, id, t)
  {
  }

  lemma StartPass(g: Graph, entry: Id, start: Found)
    requires Bounded(g, entry, start) && "default" in start.names && start.closure == {}
    requires Forced(g, entry, start, [entry])
    ensures PassInv(g, entry, start, start, [entry])
  {
  }

  lemma PendingBounded(g: Graph, entry: Id, start: Found, f: Found, pending: seq<Id>, id: Id)
    requires PassInv(g, entry, start, f, pending) && id in pending
    ensures id in AllIds(g, entry)
  {
  }

  lemma SubsetSizes<T>(a: set<T>, b: set<T>)
    requires a <= b
    ensures |a| <= |b| && (|a| == |b| ==> a == b)
  {
    assert |b - a| == |b| - |a|;
  }

  /**
   * Passes are repeated until one collects no new name and no new whole barrel. On
   * every finite graph this ends, and the result is the closure of the least answer
   * to the import and barrel rules.
   */
  method ComputeStartupClosure(g: Graph, entry: Id) returns (closure: set<Id>)
    ensures exists f :: IsLeast(g, entry, f) && f.closure == closure
  {
    hide PassInv, IsLeast;
    var names: set<string>, whole: set<Id> := {"default"}, {};
    StartWalk(g, entry);
    while true
      invariant Bounded(g, entry, Found({}, names, whole)) && "default" in names
      invariant Forced(g, entry, Found({}, names, whole), [entry])
      decreases |AllNames(g)| - |names| + |g.Keys| - |whole|
    {
      var sizeBefore := |names| + |whole|;
      ghost var start := Found({}, names, whole);
      closure, names, whole := WalkOnce(g, entry, names, whole);
      PassGrows(g, entry, start, Found(closure, names, whole));
      if |names| + |whole| == sizeBefore {
        QuietPassIsLeast(g, entry, start, Found(closure, names, whole));
        return;
      }
    }
  }

  lemma StartWalk(g: Graph, entry: Id)
    ensures Bounded(g, entry, Found({}, {"default"}, {}))
    ensures Forced(g, entry, Found({}, {"default"}, {}), [entry])
  {
  }

  lemma PassGrows(g: Graph, entry: Id, start: Found, f: Found)
    requires PassInv(g, entry, start, f, [])
    ensures Bounded(g, entry, Found({}, f.names, f.whole)) && "default" in f.names
    ensures Forced(g, entry, Found({}, f.names, f.whole), [entry])
    ensures |f.names| <= |AllNames(g)| && |f.whole| <= |g.Keys|
    ensures |start.names| <= |f.names| && |start.whole| <= |f.whole|
    ensures |start.names| + |start.whole| == |f.names| + |f.whole| ==> start.names == f.names && start.whole == f.whole
  {
    SubsetSizes(start.names, f.names);
    SubsetSizes(start.whole, f.whole);
    SubsetSizes(f.names, AllNames(g));
    SubsetSizes(f.whole, g.Keys);
  }
}
