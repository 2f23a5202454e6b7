/** The order of siblings: lines under the same parent follow the start of their spans. */
module TraceSiblings {
  import opened TraceForest

  ghost predicate KidsFollowStart(spans: seq<Span>, kids: seq<seq<nat>>) {
    forall p :: 0 <= p < |kids| ==> ListFollowsStart(spans, kids[p])
  }

  ghost predicate ListFollowsStart(spans: seq<Span>, list: seq<nat>) {
    && (forall k :: 0 <= k < |list| ==> list[k] < |spans|)
    && (forall k, l :: 0 <= k < l < |list| ==> spans[list[k]].start <= spans[list[l]].start)
  }

  /** Both lines are at this depth, and no line between them is further out. */
  ghost predicate Siblings(lines: seq<RenderedLine>, a: nat, b: nat) {
    && a < b < |lines| && lines[a].depth == lines[b].depth
    && forall k :: a < k < b ==> lines[k].depth >= lines[a].depth
  }

  ghost predicate InStartOrder(spans: seq<Span>, x: nat, y: nat) {
    x < |spans| && y < |spans| && spans[x].start <= spans[y].start
  }

  /** Siblings deeper than the base follow their start. */
  ghost predicate OrderedBelow(spans: seq<Span>, lines: seq<RenderedLine>, base: nat) {
    forall a: nat, b: nat :: Siblings(lines, a, b) && lines[a].depth > base ==> InStartOrder(spans, lines[a].span, lines[b].span)
  }

  /** Lines at the depth of a list stand for its members, in order. */
  ghost predicate LevelOrdered(spans: seq<Span>, lines: seq<RenderedLine>, depth: nat) {
    forall a, b :: 0 <= a < b < |lines| && lines[a].depth == depth && lines[b].depth == depth ==>
      InStartOrder(spans, lines[a].span, lines[b].span)
  }

  ghost predicate LevelIn(lines: seq<RenderedLine>, depth: nat, list: seq<nat>) {
    forall a :: 0 <= a < |lines| ==> lines[a].depth >= depth && (lines[a].depth == depth ==> lines[a].span in list)
  }

  /** The lines of one span begin at its depth and go on deeper. */
  ghost predicate Block(lines: seq<RenderedLine>, span: nat, depth: nat) {
    lines == [] || (lines[0].depth == depth && lines[0].span == span && forall k :: 1 <= k < |lines| ==> lines[k].depth > depth)
  }

  lemma SiblingsShift(a: seq<RenderedLine>, b: seq<RenderedLine>, i: nat, j: nat)
    requires |a| <= i && Siblings(a + b, i, j)
    ensures Siblings(b, i - |a|, j - |a|) && (a + b)[i] == b[i - |a|] && (a + b)[j] == b[j - |a|]
  {
    forall k | i - |a| < k < j - |a| ensures b[k].depth >= b[i - |a|].depth {
      assert (a + b)[k + |a|] == b[k];
    }
  }

  lemma BelowConcat(spans: seq<Span>, a: seq<RenderedLine>, b: seq<RenderedLine>, depth: nat)
    requires OrderedBelow(spans, a, depth) && OrderedBelow(spans, b, depth)
    requires b == [] || b[0].depth == depth
    ensures OrderedBelow(spans, a + b, depth)
  {
    var all := a + b;
    forall i: nat, j: nat | Siblings(all, i, j) && all[i].depth > depth ensures InStartOrder(spans, all[i].span, all[j].span) {
      assert b != [] ==> all[|a|] == b[0];
      if j < |a| {
        assert forall k :: 0 <= k < |a| ==> all[k] == a[k];
        assert Siblings(a, i, j);
      } else if i >= |a| {
        SiblingsShift(a, b, i, j);
      }
    }
  }

  lemma LevelConcat(spans: seq<Span>, list: seq<nat>, a: seq<RenderedLine>, b: seq<RenderedLine>, depth: nat)
    requires list != [] && ListFollowsStart(spans, list) && Block(a, list[0], depth)
    requires LevelOrdered(spans, b, depth) && LevelIn(b, depth, list[1..])
    ensures LevelOrdered(spans, a + b, depth) && LevelIn(a + b, depth, list)
  {
    var all := a + b;
    forall i | 0 <= i < |all| ensures all[i].depth >= depth && (all[i].depth == depth ==> all[i].span in list) {
      if i >= |a| {
        assert all[i] == b[i - |a|];
      }
    }
    forall i, j | 0 <= i < j < |all| && all[i].depth == depth && all[j].depth == depth
      ensures InStartOrder(spans, all[i].span, all[j].span)
    {
      assert j >= |a| && all[j] == b[j - |a|] && all[j].span in list[1..];
      if i >= |a| {
        assert all[i] == b[i - |a|];
      } else {
        assert all[i].span == list[0];
        var k :| 0 <= k < |list[1..]| && list[1..][k] == all[j].span;
        assert list[k + 1] == all[j].span;
      }
    }
  }

  /** Under one span, its children's lines are the siblings of the next depth. */
  lemma BelowOne(spans: seq<Span>, first: RenderedLine, below: seq<RenderedLine>, depth: nat, list: seq<nat>)
    requires first.depth == depth && LevelIn(below, depth + 1, list)
    requires OrderedBelow(spans, below, depth + 1) && LevelOrdered(spans, below, depth + 1)
    ensures OrderedBelow(spans, [first] + below, depth) && Block([first] + below, first.span, depth)
  {
    var all := [first] + below;
    assert forall k :: 1 <= k < |all| ==> all[k] == below[k - 1];
    forall i: nat, j: nat | Siblings(all, i, j) && all[i].depth > depth ensures InStartOrder(spans, all[i].span, all[j].span) {
      assert i >= 1;
      if all[i].depth > depth + 1 {
        SiblingsShift([first], below, i, j);
      } else {
        assert below[i - 1].depth == below[j - 1].depth == depth + 1;
      }
    }
  }

  lemma {:induction false} NodeFollowsStart(spans: seq<Span>, kids: seq<seq<nat>>, span: nat, depth: nat, note: Note,
                                            visited: set<nat>, active: set<nat>)
    requires KidsFollowStart(spans, kids) && |spans| == |kids| && span < |kids| && visited <= Universe(|kids|)
    requires forall p, k :: 0 <= p < |kids| && 0 <= k < |kids[p]| ==> kids[p][k] < |kids|
    ensures var lines := RenderNode(kids, span, depth, note, visited, active).lines;
            OrderedBelow(spans, lines, depth) && Block(lines, span, depth)
    decreases Universe(|kids|) - visited, 0
  {
    hide OrderedBelow, LevelOrdered, LevelIn, Block, ListFollowsStart;
    assert OrderedBelow(spans, [], depth) && OrderedBelow(spans, [CycleLine(span, depth)], depth)
        && Block([], span, depth) && Block([CycleLine(span, depth)], span, depth) by {
      ShortLists(spans, span, depth, []);
    }
    if span !in active && span !in visited {
      ListFollows(spans, kids, kids[span], depth + 1, visited + {span}, active + {span});
      var below := RenderList(kids, kids[span], depth + 1, visited + {span}, active + {span}).lines;
      BelowOne(spans, SpanLine(span, depth, note), below, depth, kids[span]);
    }
  }

  lemma ShortLists(spans: seq<Span>, span: nat, depth: nat, list: seq<nat>)
    ensures OrderedBelow(spans, [], depth) && OrderedBelow(spans, [CycleLine(span, depth)], depth)
    ensures Block([], span, depth) && Block([CycleLine(span, depth)], span, depth)
    ensures LevelOrdered(spans, [], depth) && LevelIn([], depth, list)
  {
  }

  lemma {:induction false} ListFollows(spans: seq<Span>, kids: seq<seq<nat>>, list: seq<nat>, depth: nat,
                                       visited: set<nat>, active: set<nat>)
    requires KidsFollowStart(spans, kids) && |spans| == |kids| && visited <= Universe(|kids|) && ListFollowsStart(spans, list)
    requires forall p, k :: 0 <= p < |kids| && 0 <= k < |kids[p]| ==> kids[p][k] < |kids|
    ensures var lines := RenderList(kids, list, depth, visited, active).lines;
            && OrderedBelow(spans, lines, depth) && LevelOrdered(spans, lines, depth) && LevelIn(lines, depth, list)
            && (lines == [] || lines[0].depth == depth)
    decreases Universe(|kids|) - visited, 1 + |list|
  {
    if list == [] {
      ShortLists(spans, 0, depth, list);
    } else {
      hide OrderedBelow, LevelOrdered, LevelIn, RenderNode;
      NodeFollowsStart(spans, kids, list[0], depth, NoNote, visited, active);
      var first := RenderNode(kids, list[0], depth, NoNote, visited, active);
      ListFollows(spans, kids, list[1..], depth, first.visited, active);
      var rest := RenderList(kids, list[1..], depth, first.visited, active);
      LevelConcat(spans, list, first.lines, rest.lines, depth);
      BelowConcat(spans, first.lines, rest.lines, depth);
    }
  }

  /** The rendering of any starts: siblings at any depth below the margin follow their start. */
  lemma {:induction false} RenderingFollowsStart(spans: seq<Span>, kids: seq<seq<nat>>, starts: seq<Start>, m: nat)
    requires KidsFollowStart(spans, kids) && |spans| == |kids| && m <= |starts|
    requires forall j :: 0 <= j < |starts| ==> starts[j].span < |kids|
    requires forall p, k :: 0 <= p < |kids| && 0 <= k < |kids[p]| ==> kids[p][k] < |kids|
    ensures OrderedBelow(spans, RenderStarts(kids, starts, m).lines, 0)
  {
    hide RenderNode, KidsFollowStart;
    if m == 0 {
      ShortLists(spans, 0, 0, []);
    } else {
      hide OrderedBelow;
      RenderingFollowsStart(spans, kids, starts, m - 1);
      var before := RenderStarts(kids, starts, m - 1);
      NodeFollowsStart(spans, kids, starts[m - 1].span, 0, starts[m - 1].note, before.visited, {});
      BelowConcat(spans, before.lines, RenderNode(kids, starts[m - 1].span, 0, starts[m - 1].note, before.visited, {}).lines, 0);
    }
  }
}
