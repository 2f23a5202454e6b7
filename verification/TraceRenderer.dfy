/** renderTrace as it runs: lookup tables built in loops, then a recursive walk over shared sets. */
module TraceRenderer {
  import opened Basics
  import opened TraceForest
  import opened TraceMargin
  import opened TraceSiblings

  class Renderer {
    const kids: seq<seq<nat>>
    var visited: set<nat>
    var active: set<nat>
    var lines: seq<RenderedLine>

    ghost predicate Valid()
      reads this
    {
      && (forall p, k :: 0 <= p < |kids| && 0 <= k < |kids[p]| ==> kids[p][k] < |kids|)
      && visited <= Universe(|kids|) && active <= visited
    }

    constructor (kids: seq<seq<nat>>)
      requires forall p, k :: 0 <= p < |kids| && 0 <= k < |kids[p]| ==> kids[p][k] < |kids|
      ensures Valid() && this.kids == kids && visited == {} && active == {} && lines == []
    {
      this.kids := kids;
      visited, active, lines := {}, {}, [];
    }

    method Visit(span: nat, depth: nat, note: Note)
      requires Valid() && span < |kids|
      modifies this
      ensures Valid() && active == old(active)
      ensures var r := RenderNode(kids, span, depth, note, old(visited), old(active));
              lines == old(lines) + r.lines && visited == r.visited
      decreases Universe(|kids|) - visited
    {
      hide RenderNode, RenderList;
      NodeUnfolds(kids, span, depth, note, visited, active);
      if span in active {
        lines := lines + [CycleLine(span, depth)];
        return;
      }
      if span in visited {
        return;
      }
      visited := visited + {span};
      active := active + {span};
      lines := lines + [SpanLine(span, depth, note)];
      ghost var below := RenderList(kids, kids[span], depth + 1, visited, active);
      ghost var before, path := lines, active;
      for k := 0 to |kids[span]|
        invariant Valid() && active == path && span in visited && old(visited) <= visited
        invariant var rest := RenderList(kids, kids[span][k..], depth + 1, visited, active);
                  lines + rest.lines == before + below.lines && rest.visited == below.visited
      {
        ghost var was := lines;
        ListUnfolds(kids, kids[span], k, depth + 1, visited, active);
        Visit(kids[span][k], depth + 1, NoNote);
        ghost var tail := RenderList(kids, kids[span][k + 1..], depth + 1, visited, active);
        assert was + ((lines[|was|..]) + tail.lines) == lines + tail.lines;
      }
      ListEnds(kids, kids[span], depth + 1, visited, active);
      assert lines + [] == lines;
      assert lines == old(lines) + ([SpanLine(span, depth, note)] + below.lines);
      active := active - {span};
      assert active == old(active);
    }
  }

  lemma NodeUnfolds(kids: seq<seq<nat>>, span: nat, depth: nat, note: Note, visited: set<nat>, active: set<nat>)
    requires span < |kids| && visited <= Universe(|kids|)
    requires forall p, k :: 0 <= p < |kids| && 0 <= k < |kids[p]| ==> kids[p][k] < |kids|
    ensures RenderNode(kids, span, depth, note, visited, active)
         == if span in active then Rendering([CycleLine(span, depth)], visited)
            else if span in visited then Rendering([], visited)
            else
              var below := RenderList(kids, kids[span], depth + 1, visited + {span}, active + {span});
              Rendering([SpanLine(span, depth, note)] + below.lines, below.visited)
  {
    hide RenderList;
  }

  lemma ListUnfolds(kids: seq<seq<nat>>, list: seq<nat>, k: nat, depth: nat, visited: set<nat>, active: set<nat>)
    requires visited <= Universe(|kids|) && k < |list|
    requires forall l :: 0 <= l < |list| ==> list[l] < |kids|
    requires forall p, l :: 0 <= p < |kids| && 0 <= l < |kids[p]| ==> kids[p][l] < |kids|
    ensures var first := RenderNode(kids, list[k], depth, NoNote, visited, active);
            var rest := RenderList(kids, list[k + 1..], depth, first.visited, active);
            RenderList(kids, list[k..], depth, visited, active) == Rendering(first.lines + rest.lines, rest.visited)
  {
    hide RenderNode;
    assert list[k..][0] == list[k] && list[k..][1..] == list[k + 1..];
  }

  lemma ListEnds(kids: seq<seq<nat>>, list: seq<nat>, depth: nat, visited: set<nat>, active: set<nat>)
    requires visited <= Universe(|kids|)
    requires forall p, l :: 0 <= p < |kids| && 0 <= l < |kids[p]| ==> kids[p][l] < |kids|
    ensures RenderList(kids, list[|list|..], depth, visited, active) == Rendering([], visited)
  {
  }

  function Links(spans: seq<Span>): (links: seq<Link>)
    ensures |links| == |spans|
    ensures forall x :: 0 <= x < |spans| ==> links[x] == LinkOf(spans, x)
  {
    seq(|spans|, x requires 0 <= x < |spans| => LinkOf(spans, x))
  }

  /** The spans recorded under each id, in display order. */
  method BySpanId(spans: seq<Span>) returns (table: map<string, seq<nat>>)
    ensures forall id :: (if id in table then table[id] else []) == WithId(spans, id)
  {
    hide WithId;
    table := map[];
    assert forall id :: WithId([], id) == [] by { NoneWithId(); }
    for x := 0 to |spans|
      invariant forall id :: (if id in table then table[id] else []) == WithId(spans[..x], id)
    {
      forall id ensures WithId(spans[..x + 1], id) == WithId(spans[..x], id) + if spans[x].spanId == id then [x] else [] {
        WithIdStep(spans, x, id);
      }
      var id := spans[x].spanId;
      var existing := if id in table then table[id] else [];
      table := table[id := existing + [x]];
    }
    assert spans[..|spans|] == spans;
  }

  lemma NoneWithId()
    ensures forall id :: WithId([], id) == []
  {
  }

  lemma WithIdStep(spans: seq<Span>, x: nat, id: string)
    requires x < |spans|
    ensures WithId(spans[..x + 1], id) == WithId(spans[..x], id) + if spans[x].spanId == id then [x] else []
  {
    assert spans[..x + 1][..x] == spans[..x];
  }

  /** kids[p] lists the children of p among the first x spans. */
  ghost predicate KidsSoFar(links: seq<Link>, kids: seq<seq<nat>>, x: nat)
    requires x <= |links|
  {
    && |kids| == |links|
    && (forall p, k :: 0 <= p < |kids| && 0 <= k < |kids[p]| ==> kids[p][k] < x && links[kids[p][k]] == ChildOf(p))
    && (forall p :: 0 <= p < |kids| ==> Distinct(kids[p]))
    && (forall y :: 0 <= y < x && links[y].ChildOf? && links[y].parent < |kids| ==> y in kids[links[y].parent])
  }

  lemma KidsGrow(links: seq<Link>, kids: seq<seq<nat>>, x: nat, more: seq<seq<nat>>)
    requires x < |links| && KidsSoFar(links, kids, x)
    requires links[x].ChildOf? && links[x].parent < |kids|
    requires more == kids[links[x].parent := kids[links[x].parent] + [x]]
    ensures KidsSoFar(links, more, x + 1)
  {
    forall y | 0 <= y < x + 1 && links[y].ChildOf? && links[y].parent < |more| ensures y in more[links[y].parent] {
      if y < x {
        assert y in kids[links[y].parent];
      }
    }
  }

  lemma LinksAreValid(spans: seq<Span>)
    ensures ValidLinks(Links(spans))
  {
    forall x | 0 <= x < |spans| && LinkOf(spans, x).ChildOf? ensures LinkOf(spans, x).parent < |spans| {
      WithIdIndices(spans, spans[x].parentSpanId);
    }
  }

  /** The roots among the first n spans, in display order. */
  ghost predicate RootsListed(links: seq<Link>, roots: seq<nat>, n: nat)
    requires n <= |links|
  {
    && (forall x: nat :: x in roots <==> x < n && links[x] == Root)
    && (forall i, j :: 0 <= i < j < |roots| ==> roots[i] < roots[j])
  }

  /** The orphans among the first n spans, in display order, each with its reason. */
  ghost predicate OrphansListed(links: seq<Link>, orphans: seq<Start>, n: nat)
    requires n <= |links|
  {
    && (forall k :: 0 <= k < |orphans| ==>
          orphans[k].span < n && links[orphans[k].span].Orphan?
          && orphans[k].note == OrphanNote(links[orphans[k].span].ambiguous))
    && (forall i, j :: 0 <= i < j < |orphans| ==> orphans[i].span < orphans[j].span)
    && (forall x: nat :: x < n && links[x].Orphan? ==> StartedBy(orphans, |orphans|, x))
  }

  lemma OrphansGrow(links: seq<Link>, orphans: seq<Start>, x: nat)
    requires x < |links| && OrphansListed(links, orphans, x)
    ensures links[x].Orphan? ==> OrphansListed(links, orphans + [Start(x, OrphanNote(links[x].ambiguous))], x + 1)
    ensures !links[x].Orphan? ==> OrphansListed(links, orphans, x + 1)
  {
    if links[x].Orphan? {
      var more := orphans + [Start(x, OrphanNote(links[x].ambiguous))];
      forall y: nat | y < x + 1 && links[y].Orphan? ensures StartedBy(more, |more|, y) {
        if y < x {
          var i :| 0 <= i < |orphans| && orphans[i].span == y;
          assert more[i].span == y;
        } else {
          assert more[|orphans|].span == y;
        }
      }
    }
  }

  /** Sorting the spans into roots, orphans and children of a recorded parent. */
  method Classify(spans: seq<Span>) returns (kids: seq<seq<nat>>, roots: seq<nat>, orphans: seq<Start>)
    ensures ValidKids(Links(spans), kids)
    ensures RootsListed(Links(spans), roots, |spans|)
    ensures OrphansListed(Links(spans), orphans, |spans|)
  {
    hide WithId, OrphansListed, RootsListed, KidsSoFar;
    var table := BySpanId(spans);
    LinksAreValid(spans);
    kids, roots, orphans := seq(|spans|, _ => []), [], [];
    NothingYet(Links(spans), kids);
    for x := 0 to |spans|
      invariant KidsSoFar(Links(spans), kids, x)
      invariant RootsListed(Links(spans), roots, x)
      invariant OrphansListed(Links(spans), orphans, x)
    {
      OrphansGrow(Links(spans), orphans, x);
      RootsGrow(Links(spans), roots, x);
      KidsStay(Links(spans), kids, x);
      if spans[x].parentSpanId == "" {
        roots := roots + [x];
        continue;
      }
      var id := spans[x].parentSpanId;
      var candidates := if id in table then table[id] else [];
      if |candidates| == 1 {
        var p := candidates[0];
        assert Links(spans)[x] == ChildOf(p);
        KidsBound(Links(spans), kids, x);
        KidsGrow(Links(spans), kids, x, kids[p := kids[p] + [x]]);
        kids := kids[p := kids[p] + [x]];
      } else {
        orphans := orphans + [Start(x, OrphanNote(|candidates| > 1))];
      }
    }
    AllKids(Links(spans), kids);
  }

  lemma NothingYet(links: seq<Link>, kids: seq<seq<nat>>)
    requires |kids| == |links| && forall p :: 0 <= p < |kids| ==> kids[p] == []
    ensures OrphansListed(links, [], 0) && RootsListed(links, [], 0) && KidsSoFar(links, kids, 0)
  {
  }

  lemma RootsGrow(links: seq<Link>, roots: seq<nat>, x: nat)
    requires x < |links| && RootsListed(links, roots, x)
    ensures RootsListed(links, if links[x] == Root then roots + [x] else roots, x + 1)
  {
    assert forall k :: 0 <= k < |roots| ==> roots[k] in roots;
  }

  lemma KidsStay(links: seq<Link>, kids: seq<seq<nat>>, x: nat)
    requires x < |links| && KidsSoFar(links, kids, x)
    ensures !links[x].ChildOf? ==> KidsSoFar(links, kids, x + 1)
  {
  }

  lemma KidsBound(links: seq<Link>, kids: seq<seq<nat>>, x: nat)
    requires x <= |links| && KidsSoFar(links, kids, x)
    ensures |kids| == |links|
  {
  }

  lemma AllKids(links: seq<Link>, kids: seq<seq<nat>>)
    requires ValidLinks(links) && KidsSoFar(links, kids, |links|)
    ensures ValidKids(links, kids)
  {
  }

  // ----- Children in the order of their start -----

  /** The position before the trailing spans that start later. */
  function PlaceFor(spans: seq<Span>, list: seq<nat>, x: nat): (p: nat)
    requires x < |spans| && forall k :: 0 <= k < |list| ==> list[k] < |spans|
    ensures p <= |list|
    ensures p > 0 ==> spans[list[p - 1]].start <= spans[x].start
    ensures forall k :: p <= k < |list| ==> spans[x].start < spans[list[k]].start
  {
    if list == [] || spans[list[|list| - 1]].start <= spans[x].start then |list|
    else PlaceFor(spans, list[..|list| - 1], x)
  }

  /** The children of one span sorted by start; equal starts keep their order. */
  function SortedByStart(spans: seq<Span>, list: seq<nat>): (r: seq<nat>)
    requires forall k :: 0 <= k < |list| ==> list[k] < |spans|
    ensures forall k :: 0 <= k < |r| ==> r[k] < |spans|
  {
    if list == [] then []
    else
      var front, x := SortedByStart(spans, list[..|list| - 1]), list[|list| - 1];
      var p := PlaceFor(spans, front, x);
      front[..p] + [x] + front[p..]
  }

  lemma InsertionOrdered(spans: seq<Span>, list: seq<nat>, x: nat)
    requires x < |spans| && ListFollowsStart(spans, list)
    ensures var p := PlaceFor(spans, list, x); ListFollowsStart(spans, list[..p] + [x] + list[p..])
  {
    hide PlaceFor;
    var p := PlaceFor(spans, list, x);
    var r := list[..p] + [x] + list[p..];
    forall k, l | 0 <= k < l < |r| ensures spans[r[k]].start <= spans[r[l]].start {
      if k < p {
        assert spans[list[k]].start <= spans[list[p - 1]].start;
      }
    }
  }

  lemma {:induction false} SortedIsOrdered(spans: seq<Span>, list: seq<nat>)
    requires forall k :: 0 <= k < |list| ==> list[k] < |spans|
    ensures ListFollowsStart(spans, SortedByStart(spans, list))
  {
    if list != [] {
      hide ListFollowsStart, PlaceFor;
      SortedIsOrdered(spans, list[..|list| - 1]);
      InsertionOrdered(spans, SortedByStart(spans, list[..|list| - 1]), list[|list| - 1]);
    }
  }

  ghost predicate SameMembers(a: seq<nat>, b: seq<nat>) {
    forall y :: y in a <==> y in b
  }

  lemma InsertionSame(init: seq<nat>, front: seq<nat>, p: nat, x: nat)
    requires p <= |front| && SameMembers(front, init)
    ensures SameMembers(front[..p] + [x] + front[p..], init + [x])
  {
    assert front == front[..p] + front[p..];
  }

  lemma InsertionDistinct(front: seq<nat>, p: nat, x: nat)
    requires p <= |front| && Distinct(front) && x !in front
    ensures Distinct(front[..p] + [x] + front[p..])
  {
    var r := front[..p] + [x] + front[p..];
    forall i, j | 0 <= i < j < |r| ensures r[i] != r[j] {
      assert r[i] == if i < p then front[i] else if i == p then x else front[i - 1];
      assert r[j] == if j < p then front[j] else if j == p then x else front[j - 1];
    }
  }

  lemma SortStep(spans: seq<Span>, list: seq<nat>)
    requires list != [] && forall k :: 0 <= k < |list| ==> list[k] < |spans|
    ensures var front, x := SortedByStart(spans, list[..|list| - 1]), list[|list| - 1];
            var p := PlaceFor(spans, front, x);
            SortedByStart(spans, list) == front[..p] + [x] + front[p..]
  {
    hide PlaceFor;
  }

  lemma {:induction false} SortedIsSame(spans: seq<Span>, list: seq<nat>)
    requires forall k :: 0 <= k < |list| ==> list[k] < |spans|
    ensures SameMembers(SortedByStart(spans, list), list)
    ensures Distinct(list) ==> Distinct(SortedByStart(spans, list))
  {
    if list != [] {
      hide PlaceFor, Distinct, SameMembers, SortedByStart;
      var init, x := list[..|list| - 1], list[|list| - 1];
      var front := SortedByStart(spans, init);
      var p := PlaceFor(spans, front, x);
      SortStep(spans, list);
      SortedIsSame(spans, init);
      InsertionSame(init, front, p, x);
      assert list == init + [x];
      if Distinct(list) {
        DistinctInit(init, x);
        assert x !in front by { MemberOf(front, init, x); }
        InsertionDistinct(front, p, x);
      }
    }
  }

  lemma MemberOf(a: seq<nat>, b: seq<nat>, x: nat)
    requires SameMembers(a, b)
    ensures x in a <==> x in b
  {
  }

  lemma DistinctInit(init: seq<nat>, x: nat)
    ensures Distinct(init + [x]) ==> Distinct(init) && x !in init
  {
    var list := init + [x];
    assert forall i :: 0 <= i < |init| ==> list[i] == init[i];
    assert list[|init|] == x;
  }

  lemma SortingKeepsKids(spans: seq<Span>, kids: seq<seq<nat>>, sorted: seq<seq<nat>>)
    requires ValidKids(Links(spans), kids) && |sorted| == |kids|
    requires forall p :: 0 <= p < |kids| ==>
               ListFollowsStart(spans, sorted[p]) && Distinct(sorted[p]) && SameMembers(sorted[p], kids[p])
    ensures ValidKids(Links(spans), sorted) && KidsFollowStart(spans, sorted)
  {
    hide LinkOf, ListFollowsStart, Distinct;
    forall p, k | 0 <= p < |sorted| && 0 <= k < |sorted[p]|
      ensures sorted[p][k] < |spans| && Links(spans)[sorted[p][k]] == ChildOf(p)
    {
      assert sorted[p][k] in kids[p];
    }
  }

  /** The loop that sorts every list of children in place. */
  method SortChildren(spans: seq<Span>, kids: seq<seq<nat>>) returns (sorted: seq<seq<nat>>)
    requires ValidKids(Links(spans), kids)
    ensures ValidKids(Links(spans), sorted) && KidsFollowStart(spans, sorted)
  {
    hide LinkOf, ListFollowsStart, Distinct;
    sorted := kids;
    for p := 0 to |kids|
      invariant |sorted| == |kids|
      invariant forall q :: p <= q < |kids| ==> sorted[q] == kids[q]
      invariant forall q :: 0 <= q < p ==>
                  ListFollowsStart(spans, sorted[q]) && Distinct(sorted[q]) && SameMembers(sorted[q], kids[q])
    {
      SortedIsOrdered(spans, kids[p]);
      SortedIsSame(spans, kids[p]);
      sorted := sorted[p := SortedByStart(spans, sorted[p])];
    }
    SortingKeepsKids(spans, kids, sorted);
  }

  function StartsOf(spans: seq<nat>, note: Note): (starts: seq<Start>)
    ensures |starts| == |spans|
    ensures forall j :: 0 <= j < |spans| ==> starts[j] == Start(spans[j], note)
  {
    seq(|spans|, j requires 0 <= j < |spans| => Start(spans[j], note))
  }

  function Everyone(n: nat): (starts: seq<Start>)
    ensures |starts| == n
    ensures forall x :: 0 <= x < n ==> starts[x] == Start(x, CycleNote)
  {
    seq(n, x requires 0 <= x < n => Start(x, CycleNote))
  }

  function AllStarts(roots: seq<nat>, orphans: seq<Start>, n: nat): seq<Start> {
    StartsOf(roots, NoNote) + orphans + Everyone(n)
  }

  /** Where the starts come from. */
  lemma StartAt(roots: seq<nat>, orphans: seq<Start>, n: nat, j: nat)
    requires j < |AllStarts(roots, orphans, n)|
    ensures |AllStarts(roots, orphans, n)| == |roots| + |orphans| + n
    ensures AllStarts(roots, orphans, n)[j]
         == if j < |roots| then Start(roots[j], NoNote)
            else if j < |roots| + |orphans| then orphans[j - |roots|]
            else Start(j - |roots| - |orphans|, CycleNote)
  {
  }

  lemma AllStartsAreOrdered(links: seq<Link>, roots: seq<nat>, orphans: seq<Start>)
    requires RootsListed(links, roots, |links|) && OrphansListed(links, orphans, |links|)
    ensures StartsOrdered(AllStarts(roots, orphans, |links|))
  {
    hide AllStarts;
    var starts := AllStarts(roots, orphans, |links|);
    forall j, k | 0 <= j < k < |starts|
      ensures Comes(NoteGroup(starts[j].note), starts[j].span, NoteGroup(starts[k].note), starts[k].span)
    {
      StartAt(roots, orphans, |links|, j);
      StartAt(roots, orphans, |links|, k);
    }
  }

  /** Each span has its turn among the starts that follow the orphans. */
  lemma TurnOf(links: seq<Link>, roots: seq<nat>, orphans: seq<Start>, j: nat, y: nat)
    requires j <= |AllStarts(roots, orphans, |links|)| && y < |links| && |roots| + |orphans| + y < j
    ensures StartedBy(AllStarts(roots, orphans, |links|), j, y)
  {
    hide AllStarts;
    var starts := AllStarts(roots, orphans, |links|);
    StartAt(roots, orphans, |links|, |roots| + |orphans| + y);
    assert starts[|roots| + |orphans| + y].span == y;
  }

  /** The starts before that are the roots and the orphans, with their notes. */
  lemma EarlyStarts(links: seq<Link>, roots: seq<nat>, orphans: seq<Start>, j: nat)
    requires RootsListed(links, roots, |links|) && OrphansListed(links, orphans, |links|)
    requires j < |roots| + |orphans|
    ensures |AllStarts(roots, orphans, |links|)| == |roots| + |orphans| + |links|
    ensures var start := AllStarts(roots, orphans, |links|)[j];
            start.span < |links| && start.note == NoteFor(links[start.span]) && !links[start.span].ChildOf?
  {
    hide AllStarts;
    StartsLength(roots, orphans, |links|);
    StartAt(roots, orphans, |links|, j);
    if j < |roots| {
      assert roots[j] in roots;
    }
  }

  lemma StartsLength(roots: seq<nat>, orphans: seq<Start>, n: nat)
    ensures |AllStarts(roots, orphans, n)| == |roots| + |orphans| + n
  {
  }

  /** A root or an orphan has started before its turn comes. */
  lemma StartedEarly(links: seq<Link>, roots: seq<nat>, orphans: seq<Start>, j: nat, x: nat)
    requires RootsListed(links, roots, |links|) && OrphansListed(links, orphans, |links|)
    requires x < |links| && !links[x].ChildOf? && |roots| + |orphans| <= j <= |AllStarts(roots, orphans, |links|)|
    ensures StartedBy(AllStarts(roots, orphans, |links|), j, x)
  {
    hide AllStarts;
    var starts := AllStarts(roots, orphans, |links|);
    StartsLength(roots, orphans, |links|);
    if links[x] == Root {
      var k :| 0 <= k < |roots| && roots[k] == x;
      StartAt(roots, orphans, |links|, k);
      assert starts[k].span == x;
    } else {
      assert StartedBy(orphans, |orphans|, x);
      var k :| 0 <= k < |orphans| && orphans[k].span == x;
      StartAt(roots, orphans, |links|, |roots| + k);
      assert starts[|roots| + k].span == x;
    }
  }

  lemma AllStartsAreGood(links: seq<Link>, roots: seq<nat>, orphans: seq<Start>)
    requires RootsListed(links, roots, |links|) && OrphansListed(links, orphans, |links|)
    ensures GoodStarts(links, AllStarts(roots, orphans, |links|))
    ensures GoodNotes(links, AllStarts(roots, orphans, |links|))
  {
    hide AllStarts, RootsListed, OrphansListed, StartedBy;
    var starts := AllStarts(roots, orphans, |links|);
    var early := |roots| + |orphans|;
    StartsLength(roots, orphans, |links|);
    forall j | 0 <= j < |starts|
      ensures starts[j].span < |links|
      ensures starts[j].note == NoteFor(links[starts[j].span]) || StartedBy(starts, j, starts[j].span)
      ensures links[starts[j].span].ChildOf? ==> j == early + starts[j].span
    {
      if j < early {
        EarlyStarts(links, roots, orphans, j);
      } else {
        StartAt(roots, orphans, |links|, j);
        if !links[starts[j].span].ChildOf? {
          StartedEarly(links, roots, orphans, j, starts[j].span);
        }
      }
    }
    forall j: nat, y: nat | j < |starts| && links[starts[j].span].ChildOf? && y < starts[j].span
      ensures StartedBy(starts, j, y)
    {
      TurnOf(links, roots, orphans, j, y);
    }
    forall x: nat | x < |links| ensures StartedBy(starts, |starts|, x) {
      TurnOf(links, roots, orphans, |starts|, x);
    }
  }

  /**
   * The forest part of renderTrace: whatever the parent ids say, it ends, prints one
   * line per span and one cycle marker per cycle of parents, indents every line
   * under its parent's, and notes at the margin why a span stands there: roots first, then
   * orphans, then the spans of cycles, each in display order. Children
   * follow their start; RenderingIsExact and RenderingNests hold for every other order.
   */
  method RenderTrace(spans: seq<Span>) returns (lines: seq<RenderedLine>)
    ensures ValidLinks(Links(spans))
    ensures forall x: nat :: x < |spans| ==>
              SpanLines(lines, x) == 1 && CycleLines(lines, x) == Bit(FirstOfCycle(Links(spans), x))
    ensures Nested(Links(spans), lines, 0)
    ensures forall j :: 0 <= j < |lines| && lines[j].depth == 0 ==>
              lines[j].SpanLine? && lines[j].span < |spans| && lines[j].note == NoteFor(LinkOf(spans, lines[j].span))
    ensures MarginOrdered(Links(spans), lines)
    ensures OrderedBelow(spans, lines, 0)
  {
    hide OrderedBelow, MarginFrom, MarginOrdered, StartsOrdered, OrphansListed, RootsListed, RenderNode, FirstOfCycle, SpanLines, CycleLines, LinkOf, Nested, KidsFollowStart;
    var children, roots, orphans := Classify(spans);
    var kids := SortChildren(spans, children);
    var starts := AllStarts(roots, orphans, |spans|);
    AllStartsAreGood(Links(spans), roots, orphans);
    AllStartsAreOrdered(Links(spans), roots, orphans);
    var renderer := new Renderer(kids);
    for m := 0 to |starts|
      invariant renderer.Valid() && renderer.kids == kids && renderer.active == {}
      invariant RenderStarts(kids, starts, m) == Rendering(renderer.lines, renderer.visited)
    {
      renderer.Visit(starts[m].span, 0, starts[m].note);
    }
    lines := renderer.lines;
    RenderingFollowsStart(spans, kids, starts, |starts|);
    RenderingNests(Links(spans), kids, starts, |starts|);
    RenderingOrdered(Links(spans), kids, starts, |starts|);
    OrderOfMargin(Links(spans), lines, starts);
    forall x: nat | x < |spans|
      ensures SpanLines(lines, x) == 1 && CycleLines(lines, x) == Bit(FirstOfCycle(Links(spans), x)) {
      RenderingIsExact(Links(spans), kids, starts, x);
    }
  }
}
