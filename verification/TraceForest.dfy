/**
 * Rendering the spans of one trace as a forest. Parent links are arbitrary text,
 * so spans may be roots, orphans (parent not recorded, or ambiguous), or lie on or
 * under a cycle of parents.
 */
module TraceForest {
  import opened Basics

  /** A span in display order; an empty parent id means no parent. */
  datatype Span = Span(spanId: string, parentSpanId: string, start: int)

  /** An orphan's parent id is not recorded, or is ambiguous. */
  datatype Link = Root | Orphan(ambiguous: bool) | ChildOf(parent: nat)

  /** The positions of all spans with this id. */
  function WithId(spans: seq<Span>, id: string): seq<nat> {
    if spans == [] then []
    else
      var last := |spans| - 1;
      WithId(spans[..last], id) + (if spans[last].spanId == id then [last] else [])
  }

  lemma {:induction false} WithIdIndices(spans: seq<Span>, id: string)
    ensures forall k :: 0 <= k < |WithId(spans, id)| ==>
              WithId(spans, id)[k] < |spans| && spans[WithId(spans, id)[k]].spanId == id
  {
    if spans != [] {
      WithIdIndices(spans[..|spans| - 1], id);
    }
  }

  /** A parent counts only if exactly one span has its id. */
  function LinkOf(spans: seq<Span>, x: nat): Link
    requires x < |spans|
  {
    if spans[x].parentSpanId == "" then Root
    else
      var candidates := WithId(spans, spans[x].parentSpanId);
      if |candidates| == 1 then ChildOf(candidates[0]) else Orphan(|candidates| > 1)
  }

  /** The parent relation over n spans. */
  ghost predicate ValidLinks(links: seq<Link>) {
    forall x :: 0 <= x < |links| && links[x].ChildOf? ==> links[x].parent < |links|
  }

  /** Child lists: each child of a span once, in any order. */
  ghost predicate ValidKids(links: seq<Link>, kids: seq<seq<nat>>) {
    && ValidLinks(links) && |kids| == |links|
    && (forall p, k :: 0 <= p < |kids| && 0 <= k < |kids[p]| ==>
          kids[p][k] < |links| && links[kids[p][k]] == ChildOf(p))
    && (forall p :: 0 <= p < |kids| ==> Distinct(kids[p]))
    && (forall x :: 0 <= x < |links| && links[x].ChildOf? ==> x in kids[links[x].parent])
  }

  datatype Note = NoNote | OrphanNote(ambiguous: bool) | CycleNote

  datatype RenderedLine = SpanLine(span: nat, depth: nat, note: Note) | CycleLine(span: nat, depth: nat)

  datatype Rendering = Rendering(lines: seq<RenderedLine>, visited: set<nat>)

  /** The numbers below n. */
  function Universe(n: nat): (all: set<nat>)
    ensures forall x: nat :: x in all <==> x < n
  {
    if n == 0 then {} else Universe(n - 1) + {n - 1}
  }

  // ----- The depth-first walk -----

  function RenderNode(kids: seq<seq<nat>>, span: nat, depth: nat, note: Note, visited: set<nat>, active: set<nat>): (r: Rendering)
    requires span < |kids| && visited <= Universe(|kids|)
    requires forall p, k :: 0 <= p < |kids| && 0 <= k < |kids[p]| ==> kids[p][k] < |kids|
    ensures visited <= r.visited <= Universe(|kids|)
    decreases Universe(|kids|) - visited, 0
  {
    if span in active then Rendering([CycleLine(span, depth)], visited)
    else if span in visited then Rendering([], visited)
    else
      var below := RenderList(kids, kids[span], depth + 1, visited + {span}, active + {span});
      Rendering([SpanLine(span, depth, note)] + below.lines, below.visited)
  }

  function RenderList(kids: seq<seq<nat>>, list: seq<nat>, depth: nat, visited: set<nat>, active: set<nat>): (r: Rendering)
    requires visited <= Universe(|kids|)
    requires forall k :: 0 <= k < |list| ==> list[k] < |kids|
    requires forall p, k :: 0 <= p < |kids| && 0 <= k < |kids[p]| ==> kids[p][k] < |kids|
    ensures visited <= r.visited <= Universe(|kids|)
    decreases Universe(|kids|) - visited, 1 + |list|
  {
    if list == [] then Rendering([], visited)
    else
      var first := RenderNode(kids, list[0], depth, NoNote, visited, active);
      var rest := RenderList(kids, list[1..], depth, first.visited, active);
      Rendering(first.lines + rest.lines, rest.visited)
  }

  // ----- Counting lines -----

  function SpanLines(lines: seq<RenderedLine>, x: nat): nat {
    if lines == [] then 0
    else SpanLines(lines[..|lines| - 1], x) + (if lines[|lines| - 1].SpanLine? && lines[|lines| - 1].span == x then 1 else 0)
  }

  function CycleLines(lines: seq<RenderedLine>, x: nat): nat {
    if lines == [] then 0
    else CycleLines(lines[..|lines| - 1], x) + (if lines[|lines| - 1].CycleLine? && lines[|lines| - 1].span == x then 1 else 0)
  }

  lemma {:induction false} CountConcat(a: seq<RenderedLine>, b: seq<RenderedLine>, x: nat)
    ensures SpanLines(a + b, x) == SpanLines(a, x) + SpanLines(b, x)
    ensures CycleLines(a + b, x) == CycleLines(a, x) + CycleLines(b, x)
  {
    if b == [] {
      assert a + b == a;
    } else {
      CountConcat(a, b[..|b| - 1], x);
      assert (a + b)[..|a + b| - 1] == a + b[..|b| - 1];
    }
  }

  lemma CountOne(line: RenderedLine, x: nat)
    ensures SpanLines([line], x) == if line.SpanLine? && line.span == x then 1 else 0
    ensures CycleLines([line], x) == if line.CycleLine? && line.span == x then 1 else 0
  {
    assert [line][..0] == [];
  }

  function Bit(b: bool): nat {
    if b then 1 else 0
  }

  /** A span line is printed exactly for the spans newly visited. */
  lemma {:induction false} NodeSpanLines(kids: seq<seq<nat>>, span: nat, depth: nat, note: Note,
                                         visited: set<nat>, active: set<nat>, x: nat)
    requires span < |kids| && visited <= Universe(|kids|)
    requires forall p, k :: 0 <= p < |kids| && 0 <= k < |kids[p]| ==> kids[p][k] < |kids|
    ensures var r := RenderNode(kids, span, depth, note, visited, active);
            SpanLines(r.lines, x) == Bit(x in r.visited && x !in visited)
    decreases Universe(|kids|) - visited, 0
  {
    if span in active {
      CountOne(CycleLine(span, depth), x);
    } else if span !in visited {
      var below := RenderList(kids, kids[span], depth + 1, visited + {span}, active + {span});
      ListSpanLines(kids, kids[span], depth + 1, visited + {span}, active + {span}, x);
      CountOne(SpanLine(span, depth, note), x);
      CountConcat([SpanLine(span, depth, note)], below.lines, x);
    }
  }

  lemma {:induction false} ListSpanLines(kids: seq<seq<nat>>, list: seq<nat>, depth: nat,
                                         visited: set<nat>, active: set<nat>, x: nat)
    requires visited <= Universe(|kids|)
    requires forall k :: 0 <= k < |list| ==> list[k] < |kids|
    requires forall p, k :: 0 <= p < |kids| && 0 <= k < |kids[p]| ==> kids[p][k] < |kids|
    ensures var r := RenderList(kids, list, depth, visited, active);
            SpanLines(r.lines, x) == Bit(x in r.visited && x !in visited)
    decreases Universe(|kids|) - visited, 1 + |list|
  {
    if list != [] {
      var first := RenderNode(kids, list[0], depth, NoNote, visited, active);
      var rest := RenderList(kids, list[1..], depth, first.visited, active);
      NodeSpanLines(kids, list[0], depth, NoNote, visited, active, x);
      ListSpanLines(kids, list[1..], depth, first.visited, active, x);
      CountConcat(first.lines, rest.lines, x);
    }
  }

  // ----- Cycle markers -----

  /**
   * The active spans are a chain of parents from q up to start: every active span
   * but start has its parent active, and none has q as its parent.
   */
  ghost predicate Chain(links: seq<Link>, active: set<nat>, start: nat, q: nat) {
    && start in active && q in active && start < |links| && q < |links|
    && forall a :: a in active && a != start ==>
         a < |links| && links[a].ChildOf? && links[a].parent in active && links[a].parent != q
  }

  /** Below start, a marker can only be for start, and is printed exactly when start's parent is visited. */
  ghost predicate Marks(links: seq<Link>, start: nat, visited: set<nat>, after: set<nat>, x: nat, count: nat, extra: nat)
    requires start < |links|
  {
    count == (if x == start then extra + Bit(links[start].ChildOf? && links[start].parent in after
                                              && links[start].parent !in visited) else 0)
  }

  /** Rendering a span below the active chain: q is its parent, or the chain is empty and it is the start. */
  lemma {:induction false} NodeMarks(links: seq<Link>, kids: seq<seq<nat>>, span: nat, depth: nat, note: Note,
                                     visited: set<nat>, active: set<nat>, start: nat, q: nat, x: nat)
    requires ValidKids(links, kids) && span < |kids| && visited <= Universe(|kids|)
    requires active == {} ==> span == start
    requires active != {} ==> Chain(links, active, start, q) && links[span] == ChildOf(q)
    requires active <= visited && start < |links|
    ensures var r := RenderNode(kids, span, depth, note, visited, active);
            Marks(links, start, visited, r.visited, x, CycleLines(r.lines, x), Bit(span in active))
    decreases Universe(|kids|) - visited, 0
  {
    if span in active {
      CountOne(CycleLine(span, depth), x);
    } else if span !in visited {
      var below := RenderList(kids, kids[span], depth + 1, visited + {span}, active + {span});
      ListMarks(links, kids, kids[span], depth + 1, visited + {span}, active + {span}, start, span, x);
      CountOne(SpanLine(span, depth, note), x);
      CountConcat([SpanLine(span, depth, note)], below.lines, x);
    }
  }

  lemma {:induction false} ListMarks(links: seq<Link>, kids: seq<seq<nat>>, list: seq<nat>, depth: nat,
                                     visited: set<nat>, active: set<nat>, start: nat, q: nat, x: nat)
    requires ValidKids(links, kids) && visited <= Universe(|kids|)
    requires forall k :: 0 <= k < |list| ==> list[k] < |links| && links[list[k]] == ChildOf(q)
    requires Distinct(list) && Chain(links, active, start, q) && active <= visited
    ensures var r := RenderList(kids, list, depth, visited, active);
            Marks(links, start, visited, r.visited, x, CycleLines(r.lines, x), Bit(start in list))
    decreases Universe(|kids|) - visited, 1 + |list|
  {
    if list != [] {
      var first := RenderNode(kids, list[0], depth, NoNote, visited, active);
      var rest := RenderList(kids, list[1..], depth, first.visited, active);
      NodeMarks(links, kids, list[0], depth, NoNote, visited, active, start, q, x);
      ListMarks(links, kids, list[1..], depth, first.visited, active, start, q, x);
      CountConcat(first.lines, rest.lines, x);
    }
  }

  // ----- What is visited -----

  /** Every visited span that is not active has all its children visited. */
  ghost predicate Settled(kids: seq<seq<nat>>, visited: set<nat>, active: set<nat>) {
    forall v, k :: v in visited && v !in active && v < |kids| && 0 <= k < |kids[v]| ==> kids[v][k] in visited
  }

  lemma {:induction false} NodeSettles(kids: seq<seq<nat>>, span: nat, depth: nat, note: Note, visited: set<nat>, active: set<nat>)
    requires span < |kids| && visited <= Universe(|kids|) && active <= visited
    requires forall p, k :: 0 <= p < |kids| && 0 <= k < |kids[p]| ==> kids[p][k] < |kids|
    requires Settled(kids, visited, active)
    ensures var r := RenderNode(kids, span, depth, note, visited, active);
            span in r.visited && Settled(kids, r.visited, active)
    decreases Universe(|kids|) - visited, 0
  {
    if span !in active && span !in visited {
      ListSettles(kids, kids[span], depth + 1, visited + {span}, active + {span});
    }
  }

  lemma {:induction false} ListSettles(kids: seq<seq<nat>>, list: seq<nat>, depth: nat, visited: set<nat>, active: set<nat>)
    requires visited <= Universe(|kids|) && active <= visited
    requires forall k :: 0 <= k < |list| ==> list[k] < |kids|
    requires forall p, k :: 0 <= p < |kids| && 0 <= k < |kids[p]| ==> kids[p][k] < |kids|
    requires Settled(kids, visited, active)
    ensures var r := RenderList(kids, list, depth, visited, active);
            (forall k :: 0 <= k < |list| ==> list[k] in r.visited) && Settled(kids, r.visited, active)
    decreases Universe(|kids|) - visited, 1 + |list|
  {
    if list != [] {
      var first := RenderNode(kids, list[0], depth, NoNote, visited, active);
      NodeSettles(kids, list[0], depth, NoNote, visited, active);
      ListSettles(kids, list[1..], depth, first.visited, active);
      forall k | 0 <= k < |list| ensures list[k] in RenderList(kids, list, depth, visited, active).visited {
        if k > 0 {
          assert list[1..][k - 1] == list[k];
        }
      }
    }
  }

  // ----- Ancestors -----

  /** The k-th ancestor, if there is one. */
  function Up(links: seq<Link>, x: nat, k: nat): (y: Option<nat>)
    requires ValidLinks(links) && x < |links|
    ensures y.Some? ==> y.value < |links|
  {
    if k == 0 then Some(x)
    else
      var y := Up(links, x, k - 1);
      if y.Some? && links[y.value].ChildOf? then Some(links[y.value].parent) else None
  }

  /** a is x or one of its ancestors. */
  ghost predicate Above(links: seq<Link>, a: nat, x: nat)
    requires ValidLinks(links)
  {
    x < |links| && exists k: nat :: Up(links, x, k) == Some(a)
  }

  ghost predicate OnCycle(links: seq<Link>, x: nat)
    requires ValidLinks(links)
  {
    x < |links| && exists k: nat :: k > 0 && Up(links, x, k) == Some(x)
  }

  lemma {:induction false} UpAdds(links: seq<Link>, x: nat, a: nat, b: nat)
    requires ValidLinks(links) && x < |links| && Up(links, x, a).Some?
    ensures Up(links, x, a + b) == Up(links, Up(links, x, a).value, b)
  {
    if b > 0 {
      UpAdds(links, x, a, b - 1);
    }
  }

  lemma {:induction false} UpSteps(links: seq<Link>, x: nat, k: nat, j: nat)
    requires ValidLinks(links) && x < |links| && Up(links, x, k).Some? && j <= k
    ensures Up(links, x, j).Some?
  {
    if j < k {
      UpSteps(links, x, k - 1, j);
    }
  }

  lemma {:induction false} GoRound(links: seq<Link>, x: nat, k: nat, times: nat)
    requires ValidLinks(links) && x < |links| && Up(links, x, k) == Some(x)
    ensures Up(links, x, times * k) == Some(x)
  {
    if times > 0 {
      GoRound(links, x, k, times - 1);
      UpAdds(links, x, (times - 1) * k, k);
      assert (times - 1) * k + k == times * k;
    }
  }

  /** On a cycle, whatever is above a span is also below it, and on a cycle itself. */
  lemma CycleMates(links: seq<Link>, x: nat, y: nat)
    requires ValidLinks(links) && OnCycle(links, x) && Above(links, y, x)
    ensures Above(links, x, y) && OnCycle(links, y)
  {
    var k: nat :| k > 0 && Up(links, x, k) == Some(x);
    var j: nat :| Up(links, x, j) == Some(y);
    GoRound(links, x, k, j + 1);
    var round := (j + 1) * k;
    assert round >= j + 1 by {
      assert (j + 1) * k >= (j + 1) * 1;
    }
    UpAdds(links, x, j, round - j);
    assert Up(links, y, round - j) == Some(x);
    UpAdds(links, y, round - j, j);
    assert Up(links, y, round) == Some(y);
  }

  lemma CycleHasParent(links: seq<Link>, x: nat)
    requires ValidLinks(links) && OnCycle(links, x)
    ensures links[x].ChildOf? && Above(links, x, links[x].parent)
  {
    var k: nat :| k > 0 && Up(links, x, k) == Some(x);
    UpSteps(links, x, k, 1);
    assert Up(links, x, 1) == if links[Up(links, x, 0).value].ChildOf? then Some(links[x].parent) else None;
    UpAdds(links, x, 1, k - 1);
  }

  /** A settled set that holds a span holds everything below it. */
  lemma {:induction false} SettledBelow(links: seq<Link>, kids: seq<seq<nat>>, visited: set<nat>, a: nat, x: nat, k: nat)
    requires ValidKids(links, kids) && Settled(kids, visited, {}) && a in visited
    requires x < |links| && Up(links, x, k) == Some(a)
    ensures x in visited
    decreases k
  {
    if k > 0 {
      var y := Up(links, x, k - 1).value;
      assert y in kids[a];
      SettledBelow(links, kids, visited, y, x, k - 1);
    }
  }

  lemma SettledAbove(links: seq<Link>, kids: seq<seq<nat>>, visited: set<nat>, a: nat, x: nat)
    requires ValidKids(links, kids) && Settled(kids, visited, {}) && a in visited && Above(links, a, x)
    ensures x in visited
  {
    var k: nat :| Up(links, x, k) == Some(a);
    SettledBelow(links, kids, visited, a, x, k);
  }

  /** Whatever a walk newly visits is below its start. */
  lemma {:induction false} NodeReaches(links: seq<Link>, kids: seq<seq<nat>>, span: nat, depth: nat, note: Note,
                                       visited: set<nat>, active: set<nat>, x: nat)
    requires ValidKids(links, kids) && span < |kids| && visited <= Universe(|kids|)
    requires x in RenderNode(kids, span, depth, note, visited, active).visited && x !in visited
    ensures Above(links, span, x)
    decreases Universe(|kids|) - visited, 0
  {
    if x == span {
      assert Up(links, x, 0) == Some(span);
    } else {
      ListReaches(links, kids, kids[span], depth + 1, visited + {span}, active + {span}, span, x);
    }
  }

  lemma {:induction false} ListReaches(links: seq<Link>, kids: seq<seq<nat>>, list: seq<nat>, depth: nat,
                                       visited: set<nat>, active: set<nat>, q: nat, x: nat)
    requires ValidKids(links, kids) && visited <= Universe(|kids|)
    requires forall k :: 0 <= k < |list| ==> list[k] < |links| && links[list[k]] == ChildOf(q)
    requires x in RenderList(kids, list, depth, visited, active).visited && x !in visited
    ensures Above(links, q, x)
    decreases Universe(|kids|) - visited, 1 + |list|
  {
    var first := RenderNode(kids, list[0], depth, NoNote, visited, active);
    if x in first.visited {
      NodeReaches(links, kids, list[0], depth, NoNote, visited, active, x);
      var k: nat :| Up(links, x, k) == Some(list[0]);
      assert Up(links, x, k + 1) == Some(q);
    } else {
      ListReaches(links, kids, list[1..], depth, first.visited, active, q, x);
    }
  }

  // ----- The whole rendering -----

  datatype Start = Start(span: nat, note: Note)

  /** Walks from these starts in turn; a start already visited prints nothing. */
  function RenderStarts(kids: seq<seq<nat>>, starts: seq<Start>, m: nat): (r: Rendering)
    requires m <= |starts| && forall j :: 0 <= j < |starts| ==> starts[j].span < |kids|
    requires forall p, k :: 0 <= p < |kids| && 0 <= k < |kids[p]| ==> kids[p][k] < |kids|
    ensures r.visited <= Universe(|kids|)
  {
    if m == 0 then Rendering([], {})
    else
      var before := RenderStarts(kids, starts, m - 1);
      var walk := RenderNode(kids, starts[m - 1].span, 0, starts[m - 1].note, before.visited, {});
      Rendering(before.lines + walk.lines, walk.visited)
  }

  /** One of the first j walks starts at y. */
  ghost predicate StartedBy(starts: seq<Start>, j: nat, y: nat)
    requires j <= |starts|
  {
    exists i :: 0 <= i < j && starts[i].span == y
  }

  /** Every span starts a walk; one that has a parent only after all spans displayed before it. */
  ghost predicate GoodStarts(links: seq<Link>, starts: seq<Start>) {
    && (forall j :: 0 <= j < |starts| ==> starts[j].span < |links|)
    && (forall j: nat, y: nat {:trigger StartedBy(starts, j, y)} ::
          j < |starts| && links[starts[j].span].ChildOf? && y < starts[j].span ==> StartedBy(starts, j, y))
    && (forall x: nat {:trigger StartedBy(starts, |starts|, x)} :: x < |links| ==> StartedBy(starts, |starts|, x))
  }

  /** The first span of a cycle in display order. */
  ghost predicate FirstOfCycle(links: seq<Link>, x: nat)
    requires ValidLinks(links)
  {
    OnCycle(links, x) && forall y: nat :: Above(links, y, x) ==> x <= y
  }

  ghost predicate Progress(links: seq<Link>, kids: seq<seq<nat>>, starts: seq<Start>, m: nat, r: Rendering)
    requires ValidLinks(links) && m <= |starts|
  {
    && r.visited <= Universe(|kids|)
    && Settled(kids, r.visited, {})
    && (forall j :: 0 <= j < m ==> starts[j].span in r.visited)
  }

  /** Among what a walk newly visits, exactly its start can be first of a cycle, and is so iff its parent is newly visited. */
  lemma NewFirst(links: seq<Link>, kids: seq<seq<nat>>, starts: seq<Start>, m: nat, r: Rendering, x: nat)
    requires ValidKids(links, kids) && GoodStarts(links, starts) && m < |starts|
    requires Progress(links, kids, starts, m, r) && starts[m].span !in r.visited
    requires x in RenderNode(kids, starts[m].span, 0, starts[m].note, r.visited, {}).visited && x !in r.visited
    ensures var s := starts[m].span;
            var after := RenderNode(kids, s, 0, starts[m].note, r.visited, {}).visited;
            FirstOfCycle(links, x) <==>
            x == s && links[s].ChildOf? && links[s].parent in after && links[s].parent !in r.visited
  {
    hide RenderNode;
    var s := starts[m].span;
    var after := RenderNode(kids, s, 0, starts[m].note, r.visited, {}).visited;
    NodeReaches(links, kids, s, 0, starts[m].note, r.visited, {}, x);
    NodeSettles(kids, s, 0, starts[m].note, r.visited, {});
    if FirstOfCycle(links, x) {
      CycleMates(links, x, s);
      CycleHasParent(links, s);
      assert x < s ==> StartedBy(starts, m, x);
      SettledAbove(links, kids, after, s, links[s].parent);
      if links[s].parent in r.visited {
        ParentAbove(links, s);
        SettledAbove(links, kids, r.visited, links[s].parent, s);
      }
    }
    if x == s && links[s].ChildOf? && links[s].parent in after && links[s].parent !in r.visited {
      StartOnCycle(links, kids, starts, m, r);
    }
  }

  lemma ParentAbove(links: seq<Link>, s: nat)
    requires ValidLinks(links) && s < |links| && links[s].ChildOf?
    ensures Above(links, links[s].parent, s)
  {
    assert Up(links, s, 0) == Some(s);
    assert Up(links, s, 1) == Some(links[s].parent);
  }

  lemma StartOnCycle(links: seq<Link>, kids: seq<seq<nat>>, starts: seq<Start>, m: nat, r: Rendering)
    requires ValidKids(links, kids) && GoodStarts(links, starts) && m < |starts|
    requires Progress(links, kids, starts, m, r) && starts[m].span !in r.visited
    requires links[starts[m].span].ChildOf?
    requires links[starts[m].span].parent in RenderNode(kids, starts[m].span, 0, starts[m].note, r.visited, {}).visited
    requires links[starts[m].span].parent !in r.visited
    ensures FirstOfCycle(links, starts[m].span)
  {
    hide RenderNode;
    var s := starts[m].span;
    var p := links[s].parent;
    NodeReaches(links, kids, s, 0, starts[m].note, r.visited, {}, p);
    var k: nat :| Up(links, p, k) == Some(s);
    assert Up(links, s, 0) == Some(s);
    assert Up(links, s, 1) == Some(p);
    UpAdds(links, s, 1, k);
    assert Up(links, s, 1 + k) == Some(s);
    forall y: nat | Above(links, y, s) ensures s <= y {
      if y < s {
        assert StartedBy(starts, m, y);
        SettledAbove(links, kids, r.visited, y, s);
      }
    }
  }

  /** What holds after each start: one line per visited span, one marker per cycle met. */
  lemma {:induction false} StartsRendered(links: seq<Link>, kids: seq<seq<nat>>, starts: seq<Start>, m: nat, x: nat)
    requires ValidKids(links, kids) && GoodStarts(links, starts) && m <= |starts|
    ensures var r := RenderStarts(kids, starts, m);
            && Progress(links, kids, starts, m, r)
            && SpanLines(r.lines, x) == Bit(x in r.visited)
            && CycleLines(r.lines, x) == Bit(x in r.visited && FirstOfCycle(links, x))
  {
    hide RenderNode, FirstOfCycle;
    if m > 0 {
      StartsRendered(links, kids, starts, m - 1, x);
      var before := RenderStarts(kids, starts, m - 1);
      var s, note := starts[m - 1].span, starts[m - 1].note;
      var walk := RenderNode(kids, s, 0, note, before.visited, {});
      CountConcat(before.lines, walk.lines, x);
      NodeSpanLines(kids, s, 0, note, before.visited, {}, x);
      NodeMarks(links, kids, s, 0, note, before.visited, {}, s, s, x);
      NodeSettles(kids, s, 0, note, before.visited, {});
      if s in before.visited {
        VisitedPrintsNothing(kids, s, note, before.visited);
      } else if x in walk.visited && x !in before.visited {
        NewFirst(links, kids, starts, m - 1, before, x);
      } else {
        StartIsNew(kids, s, note, before.visited);
      }
    }
  }

  lemma VisitedPrintsNothing(kids: seq<seq<nat>>, s: nat, note: Note, visited: set<nat>)
    requires s < |kids| && visited <= Universe(|kids|) && s in visited
    requires forall p, k :: 0 <= p < |kids| && 0 <= k < |kids[p]| ==> kids[p][k] < |kids|
    ensures RenderNode(kids, s, 0, note, visited, {}) == Rendering([], visited)
  {
  }

  lemma StartIsNew(kids: seq<seq<nat>>, s: nat, note: Note, visited: set<nat>)
    requires s < |kids| && visited <= Universe(|kids|) && s !in visited
    requires forall p, k :: 0 <= p < |kids| && 0 <= k < |kids[p]| ==> kids[p][k] < |kids|
    ensures s in RenderNode(kids, s, 0, note, visited, {}).visited
  {
  }

  /**
   * For every parent relation and every order of children: each span's line is
   * printed exactly once, and a cycle marker exactly once per cycle of parents, for
   * the cycle's first span in display order.
   */
  lemma RenderingIsExact(links: seq<Link>, kids: seq<seq<nat>>, starts: seq<Start>, x: nat)
    requires ValidKids(links, kids) && GoodStarts(links, starts) && x < |links|
    ensures var lines := RenderStarts(kids, starts, |starts|).lines;
            SpanLines(lines, x) == 1 && CycleLines(lines, x) == Bit(FirstOfCycle(links, x))
  {
    hide RenderStarts;
    StartsRendered(links, kids, starts, |starts|, x);
    assert StartedBy(starts, |starts|, x);
  }

  // ----- Indentation -----

  /** Line i is the line of the parent of line j's span, one level up, with nothing shallower between. */
  ghost predicate Under(links: seq<Link>, lines: seq<RenderedLine>, j: nat, i: nat) {
    && i < j < |lines| && lines[j].span < |links|
    && lines[i].SpanLine? && links[lines[j].span] == ChildOf(lines[i].span)
    && lines[i].depth + 1 == lines[j].depth
    && forall k :: i < k < j ==> lines[k].depth >= lines[j].depth
  }

  /** Every line deeper than base stands under its parent's line. */
  ghost predicate Nested(links: seq<Link>, lines: seq<RenderedLine>, base: nat) {
    && (forall j :: 0 <= j < |lines| ==> lines[j].depth >= base)
    && (forall j: nat :: j < |lines| && lines[j].depth > base ==> exists i: nat :: Under(links, lines, j, i))
  }

  lemma UnderShift(links: seq<Link>, a: seq<RenderedLine>, b: seq<RenderedLine>, j: nat, i: nat)
    requires Under(links, b, j, i)
    ensures Under(links, a + b, |a| + j, |a| + i)
  {
    var lines := a + b;
    forall k | |a| + i < k < |a| + j ensures lines[k].depth >= lines[|a| + j].depth {
      assert lines[k] == b[k - |a|];
    }
  }

  lemma UnderPrefix(links: seq<Link>, a: seq<RenderedLine>, b: seq<RenderedLine>, j: nat, i: nat)
    requires Under(links, a, j, i)
    ensures Under(links, a + b, j, i)
  {
  }

  lemma NestedConcat(links: seq<Link>, a: seq<RenderedLine>, b: seq<RenderedLine>, base: nat)
    requires Nested(links, a, base) && Nested(links, b, base)
    ensures Nested(links, a + b, base)
  {
    hide Under;
    forall j: nat | j < |a + b| && (a + b)[j].depth > base ensures exists i: nat :: Under(links, a + b, j, i) {
      if j < |a| {
        var i: nat :| Under(links, a, j, i);
        UnderPrefix(links, a, b, j, i);
      } else {
        var i: nat :| Under(links, b, j - |a|, i);
        UnderShift(links, a, b, j - |a|, i);
      }
    }
  }

  lemma TopUnder(links: seq<Link>, span: nat, depth: nat, note: Note, below: seq<RenderedLine>, j: nat)
    requires j < |below| && below[j].depth == depth + 1 && below[j].span < |links|
    requires links[below[j].span] == ChildOf(span)
    requires forall k :: 0 <= k < |below| ==> below[k].depth >= depth + 1
    ensures Under(links, [SpanLine(span, depth, note)] + below, j + 1, 0)
  {
    var lines := [SpanLine(span, depth, note)] + below;
    forall k | 0 < k < j + 1 ensures lines[k].depth >= depth + 1 {
      assert lines[k] == below[k - 1];
    }
  }

  lemma NestedPrepend(links: seq<Link>, span: nat, depth: nat, note: Note, below: seq<RenderedLine>)
    requires Nested(links, below, depth + 1)
    requires forall j :: 0 <= j < |below| && below[j].depth == depth + 1 ==>
               below[j].span < |links| && links[below[j].span] == ChildOf(span)
    ensures Nested(links, [SpanLine(span, depth, note)] + below, depth)
  {
    hide Under;
    var top := [SpanLine(span, depth, note)];
    var lines := top + below;
    forall j: nat | j < |lines| && lines[j].depth > depth ensures exists i: nat :: Under(links, lines, j, i) {
      assert lines[j] == below[j - 1];
      if lines[j].depth == depth + 1 {
        TopUnder(links, span, depth, note, below, j - 1);
      } else {
        var i: nat :| Under(links, below, j - 1, i);
        UnderShift(links, top, below, j - 1, i);
      }
    }
  }

  /** The block a span renders: its own line (or marker) first, everything else nested below. */
  lemma {:induction false} NodeNests(links: seq<Link>, kids: seq<seq<nat>>, span: nat, depth: nat, note: Note,
                                     visited: set<nat>, active: set<nat>)
    requires ValidKids(links, kids) && span < |kids| && visited <= Universe(|kids|)
    ensures var lines := RenderNode(kids, span, depth, note, visited, active).lines;
            && Nested(links, lines, depth)
            && forall j :: 0 <= j < |lines| && lines[j].depth == depth ==>
                 lines[j] == SpanLine(span, depth, note) || (span in active && lines[j] == CycleLine(span, depth))
    decreases Universe(|kids|) - visited, 0
  {
    if span !in active && span !in visited {
      var below := RenderList(kids, kids[span], depth + 1, visited + {span}, active + {span});
      ListNests(links, kids, kids[span], depth + 1, visited + {span}, active + {span}, span);
      NestedPrepend(links, span, depth, note, below.lines);
    }
  }

  lemma {:induction false} ListNests(links: seq<Link>, kids: seq<seq<nat>>, list: seq<nat>, depth: nat,
                                     visited: set<nat>, active: set<nat>, q: nat)
    requires ValidKids(links, kids) && visited <= Universe(|kids|)
    requires forall k :: 0 <= k < |list| ==> list[k] < |links| && links[list[k]] == ChildOf(q)
    ensures var lines := RenderList(kids, list, depth, visited, active).lines;
            && Nested(links, lines, depth)
            && forall j :: 0 <= j < |lines| && lines[j].depth == depth ==>
                 lines[j].span < |links| && links[lines[j].span] == ChildOf(q)
    decreases Universe(|kids|) - visited, 1 + |list|
  {
    if list != [] {
      var first := RenderNode(kids, list[0], depth, NoNote, visited, active);
      var rest := RenderList(kids, list[1..], depth, first.visited, active);
      NodeNests(links, kids, list[0], depth, NoNote, visited, active);
      ListNests(links, kids, list[1..], depth, first.visited, active, q);
      NestedConcat(links, first.lines, rest.lines, depth);
    }
  }

  /** Why a span stands at the left margin. */
  function NoteFor(link: Link): Note {
    match link
    case Root => NoNote
    case Orphan(ambiguous) => OrphanNote(ambiguous)
    case ChildOf(_) => CycleNote
  }

  /** A start with another span's note is a repetition. */
  ghost predicate GoodNotes(links: seq<Link>, starts: seq<Start>) {
    forall j :: 0 <= j < |starts| ==>
      starts[j].span < |links| && (starts[j].note == NoteFor(links[starts[j].span]) || StartedBy(starts, j, starts[j].span))
  }

  /**
   * The layout says what the parent relation is: an indented line stands under its
   * parent's line, and a line at the margin is a span line that says why.
   */
  lemma {:induction false} RenderingNests(links: seq<Link>, kids: seq<seq<nat>>, starts: seq<Start>, m: nat)
    requires ValidKids(links, kids) && GoodStarts(links, starts) && GoodNotes(links, starts) && m <= |starts|
    ensures var lines := RenderStarts(kids, starts, m).lines;
            Nested(links, lines, 0) && MarginNoted(links, lines)
  {
    hide RenderNode, Nested, MarginNoted;
    if m == 0 {
      EmptyNested(links);
    } else {
      RenderingNests(links, kids, starts, m - 1);
      var before := RenderStarts(kids, starts, m - 1);
      var s, note := starts[m - 1].span, starts[m - 1].note;
      NodeNests(links, kids, s, 0, note, before.visited, {});
      NestedConcat(links, before.lines, RenderNode(kids, s, 0, note, before.visited, {}).lines, 0);
      StartNoted(links, kids, starts, m - 1, before.visited);
      MarginConcat(links, before.lines, RenderNode(kids, s, 0, note, before.visited, {}).lines);
    }
  }

  /** A line at the margin is a span line with the note for its span. */
  ghost predicate MarginNoted(links: seq<Link>, lines: seq<RenderedLine>) {
    forall j :: 0 <= j < |lines| && lines[j].depth == 0 ==>
      lines[j].SpanLine? && lines[j].span < |links| && lines[j].note == NoteFor(links[lines[j].span])
  }

  lemma MarginConcat(links: seq<Link>, a: seq<RenderedLine>, b: seq<RenderedLine>)
    requires MarginNoted(links, a) && MarginNoted(links, b)
    ensures MarginNoted(links, a + b)
  {
  }

  /** What one start prints at the margin. */
  lemma StartNoted(links: seq<Link>, kids: seq<seq<nat>>, starts: seq<Start>, m: nat, visited: set<nat>)
    requires ValidKids(links, kids) && GoodStarts(links, starts) && GoodNotes(links, starts) && m < |starts|
    requires visited == RenderStarts(kids, starts, m).visited
    ensures MarginNoted(links, RenderNode(kids, starts[m].span, 0, starts[m].note, visited, {}).lines)
  {
    hide RenderNode, Nested;
    var s, note := starts[m].span, starts[m].note;
    StartsRendered(links, kids, starts, m, 0);
    NodeNests(links, kids, s, 0, note, visited, {});
    if s in visited {
      VisitedPrintsNothing(kids, s, note, visited);
    }
  }

  lemma EmptyNested(links: seq<Link>)
    ensures Nested(links, [], 0) && MarginNoted(links, [])
  {
  }
}
