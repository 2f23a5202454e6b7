/**
 * The order of the lines at the margin: roots first, then orphans, then the spans that
 * only a cycle of parents leads to, each group in display order.
 */
module TraceMargin {
  import opened Basics
  import opened TraceForest

  function Group(link: Link): nat {
    match link case Root => 0 case Orphan(_) => 1 case ChildOf(_) => 2
  }

  function NoteGroup(note: Note): nat {
    match note case NoNote => 0 case OrphanNote(_) => 1 case CycleNote => 2
  }

  /** What an id stands for: nothing, exactly one span, or none or several. */
  ghost predicate OnlySpan(spans: seq<Span>, id: string, p: nat) {
    p < |spans| && spans[p].spanId == id && forall q :: 0 <= q < |spans| && spans[q].spanId == id ==> q == p
  }

  lemma {:induction false} WithIdMeans(spans: seq<Span>, id: string)
    ensures forall x: nat :: x in WithId(spans, id) <==> x < |spans| && spans[x].spanId == id
    ensures forall i, j :: 0 <= i < j < |WithId(spans, id)| ==> WithId(spans, id)[i] < WithId(spans, id)[j]
  {
    if spans != [] {
      var init := spans[..|spans| - 1];
      WithIdMeans(init, id);
      assert forall x :: 0 <= x < |init| ==> init[x] == spans[x];
      var before := WithId(init, id);
      assert forall k :: 0 <= k < |before| ==> before[k] in before;
    }
  }

  /** A span is a root without a parent id, a child of the one span with that id, and an orphan if there is none or there are several. */
  lemma LinkMeans(spans: seq<Span>, x: nat)
    requires x < |spans|
    ensures var parent := spans[x].parentSpanId;
            && (LinkOf(spans, x) == Root <==> parent == "")
            && (forall p: nat :: LinkOf(spans, x) == ChildOf(p) <==> parent != "" && OnlySpan(spans, parent, p))
            && (LinkOf(spans, x) == Orphan(false) <==> parent != "" && forall q :: 0 <= q < |spans| ==> spans[q].spanId != parent)
            && (LinkOf(spans, x) == Orphan(true)
                <==> parent != "" && exists p, q :: 0 <= p < q < |spans| && spans[p].spanId == spans[q].spanId == parent)
  {
    hide WithId;
    var parent := spans[x].parentSpanId;
    var c := WithId(spans, parent);
    WithIdMeans(spans, parent);
    if |c| >= 1 {
      assert c[0] in c;
    }
    if |c| >= 2 {
      assert c[1] in c && c[0] < c[1];
    }
    assert forall q :: 0 <= q < |spans| && spans[q].spanId == parent ==> q in c;
  }

  // ----- Margin lines and starts -----

  ghost predicate StartsOrdered(starts: seq<Start>) {
    forall j, k :: 0 <= j < k < |starts| ==> Comes(NoteGroup(starts[j].note), starts[j].span, NoteGroup(starts[k].note), starts[k].span)
  }

  /** A pair of group and position comes before another. */
  predicate Comes(g: nat, x: nat, h: nat, y: nat) {
    g < h || (g == h && x < y)
  }

  ghost predicate AtMargin(lines: seq<RenderedLine>, a: nat) {
    a < |lines| && lines[a].depth == 0
  }

  /** Margin line a is that of one of the first m starts. */
  ghost predicate FromStart(lines: seq<RenderedLine>, a: nat, starts: seq<Start>, m: nat)
    requires m <= |starts| && a < |lines|
  {
    exists j :: 0 <= j < m && lines[a] == SpanLine(starts[j].span, 0, starts[j].note)
  }

  ghost predicate MarginFrom(lines: seq<RenderedLine>, starts: seq<Start>, m: nat)
    requires m <= |starts|
  {
    && (forall a: nat :: AtMargin(lines, a) ==> FromStart(lines, a, starts, m))
    && (forall a: nat, b: nat :: a < b && AtMargin(lines, a) && AtMargin(lines, b) ==>
          && lines[a].SpanLine? && lines[b].SpanLine?
          && Comes(NoteGroup(lines[a].note), lines[a].span, NoteGroup(lines[b].note), lines[b].span))
  }

  /** One start prints nothing, or its own line and then only deeper ones. */
  ghost predicate OwnLineFirst(lines: seq<RenderedLine>, start: Start) {
    lines == [] || (lines[0] == SpanLine(start.span, 0, start.note) && forall k :: 1 <= k < |lines| ==> lines[k].depth > 0)
  }

  lemma NodeMargin(links: seq<Link>, kids: seq<seq<nat>>, start: Start, visited: set<nat>)
    requires ValidKids(links, kids) && start.span < |kids| && visited <= Universe(|kids|)
    ensures OwnLineFirst(RenderNode(kids, start.span, 0, start.note, visited, {}).lines, start)
  {
    var s := start.span;
    if s !in visited {
      hide RenderList;
      assert RenderNode(kids, s, 0, start.note, visited, {}).lines
          == [SpanLine(s, 0, start.note)] + RenderList(kids, kids[s], 1, visited + {s}, {} + {s}).lines;
      ListNests(links, kids, kids[s], 1, visited + {s}, {} + {s}, s);
    }
  }

  lemma MarginGrows(lines: seq<RenderedLine>, more: seq<RenderedLine>, starts: seq<Start>, m: nat)
    requires m < |starts| && StartsOrdered(starts) && MarginFrom(lines, starts, m) && OwnLineFirst(more, starts[m])
    ensures MarginFrom(lines + more, starts, m + 1)
  {
    hide Comes, NoteGroup;
    var all := lines + more;
    assert forall a :: 0 <= a < |lines| ==> all[a] == lines[a];
    assert forall a :: |lines| <= a < |all| ==> all[a] == more[a - |lines|];
    forall a: nat | AtMargin(all, a) ensures FromStart(all, a, starts, m + 1) {
      if a < |lines| {
        assert AtMargin(lines, a);
        var j :| 0 <= j < m && lines[a] == SpanLine(starts[j].span, 0, starts[j].note);
      } else {
        assert all[a] == SpanLine(starts[m].span, 0, starts[m].note);
      }
    }
    forall a: nat, b: nat | a < b && AtMargin(all, a) && AtMargin(all, b)
      ensures all[a].SpanLine? && all[b].SpanLine?
      ensures Comes(NoteGroup(all[a].note), all[a].span, NoteGroup(all[b].note), all[b].span)
    {
      assert a < |lines| && AtMargin(lines, a);
      if b < |lines| {
        assert AtMargin(lines, b);
      } else {
        var j :| 0 <= j < m && lines[a] == SpanLine(starts[j].span, 0, starts[j].note);
        assert all[b] == SpanLine(starts[m].span, 0, starts[m].note);
      }
    }
  }

  lemma {:induction false} RenderingOrdered(links: seq<Link>, kids: seq<seq<nat>>, starts: seq<Start>, m: nat)
    requires ValidKids(links, kids) && GoodStarts(links, starts) && StartsOrdered(starts) && m <= |starts|
    ensures MarginFrom(RenderStarts(kids, starts, m).lines, starts, m)
  {
    hide RenderNode, StartsOrdered, MarginFrom;
    if m == 0 {
      NoMargin(starts);
    } else {
      RenderingOrdered(links, kids, starts, m - 1);
      var before := RenderStarts(kids, starts, m - 1);
      NodeMargin(links, kids, starts[m - 1], before.visited);
      MarginGrows(before.lines, RenderNode(kids, starts[m - 1].span, 0, starts[m - 1].note, before.visited, {}).lines, starts, m - 1);
    }
  }

  lemma NoMargin(starts: seq<Start>)
    ensures MarginFrom([], starts, 0)
  {
  }

  /** Lines at the margin: roots, then orphans, then cycles, each in display order. */
  ghost predicate MarginOrdered(links: seq<Link>, lines: seq<RenderedLine>) {
    forall a: nat, b: nat :: a < b && AtMargin(lines, a) && AtMargin(lines, b) ==>
      && lines[a].span < |links| && lines[b].span < |links|
      && Comes(Group(links[lines[a].span]), lines[a].span, Group(links[lines[b].span]), lines[b].span)
  }

  lemma OrderOfMargin(links: seq<Link>, lines: seq<RenderedLine>, starts: seq<Start>)
    requires MarginFrom(lines, starts, |starts|) && MarginNoted(links, lines)
    ensures MarginOrdered(links, lines)
  {
    hide Comes;
    forall a: nat, b: nat | a < b && AtMargin(lines, a) && AtMargin(lines, b)
      ensures && lines[a].span < |links| && lines[b].span < |links|
              && Comes(Group(links[lines[a].span]), lines[a].span, Group(links[lines[b].span]), lines[b].span)
    {
      assert lines[a].note == NoteFor(links[lines[a].span]) && lines[b].note == NoteFor(links[lines[b].span]);
    }
  }
}
