/**
 * What the reader's view of one process says about its rows: from where it was rebuilt,
 * when it is complete, and exactly which requests it lists.
 */
module OccupancyMeaning {
  import opened Basics
  import opened TransportEvidence
  import opened OccupancyHistory
  import opened OccupancyReader

  /** The rows begin with the process start as number 1 and miss no number up to the row after the last one that counts. */
  ghost predicate FromTheStart(rows: seq<Row>, last: nat)
    requires last < |rows|
  {
    && rows[0].event.ProcessStart?
    && forall x :: 0 <= x <= last + 1 && x < |rows| ==> rows[x].sequence == x + 1
  }

  predicate FullCheckpoint(row: Row) {
    row.event.Checkpoint? && row.event.truncated == 0 && |row.event.requests| <= 16
  }

  /** Row c is the last full checkpoint that counts, and no number is missing from it to the row after the last one. */
  ghost predicate FromCheckpoint(rows: seq<Row>, last: nat, c: nat)
    requires last < |rows|
  {
    && !FromTheStart(rows, last)
    && c <= last && FullCheckpoint(rows[c])
    && (forall y :: c < y <= last ==> !FullCheckpoint(rows[y]))
    && (forall x :: c <= x <= last + 1 && x < |rows| ==> rows[x].sequence == rows[c].sequence + x - c)
  }

  // ----- Which requests are listed -----

  /** After this row the request is no longer served as it was. */
  predicate Ends(event: RowEvent, id: nat, on: Option<nat>) {
    || (event.RequestFinish? && event.id == id)
    || (event.RequestFailed? && event.id == id)
    || (event.RequestTeardown? && event.id == id)
    || (event.RequestBegin? && event.id == id)
    || (event.ConnectionClose? && on == Some(event.connection))
    || event.ProcessExit?
  }

  ghost predicate Undisturbed(rows: seq<Row>, from: nat, to: nat, id: nat, on: Option<nat>)
    requires to <= |rows|
  {
    forall y :: from <= y < to ==> !Ends(rows[y].event, id, on)
  }

  /** The request began at x and nothing up to the bound ended it. */
  ghost predicate BegunAt(rows: seq<Row>, x: nat, to: nat, id: nat, on: Option<nat>)
    requires to <= |rows|
  {
    x < to && rows[x].event == RequestBegin(id, on) && Undisturbed(rows, x + 1, to, id, on)
  }

  ghost predicate Serves(active: Active, id: nat, on: Option<nat>) {
    id in active && active[id] == on
  }

  /** Replaying rows: a request is served if it began in them, or was served before, and nothing ended it since. */
  lemma {:induction false} ReplayMeans(base: Active, rows: seq<Row>, from: nat, to: nat, id: nat, on: Option<nat>)
    requires from <= to <= |rows|
    ensures Serves(Replay(base, rows, from, to), id, on)
       <==> || (exists x :: from <= x < to && BegunAt(rows, x, to, id, on))
            || (Serves(base, id, on) && Undisturbed(rows, from, to, id, on))
  {
    if from < to {
      ReplayMeans(base, rows, from, to - 1, id, on);
      var before, event := Replay(base, rows, from, to - 1), rows[to - 1].event;
      ApplyMeans(before, event, id, on);
      hide Apply, Ends, Serves;
      assert BegunAt(rows, to - 1, to, id, on) <==> event == RequestBegin(id, on);
      forall x: nat | x < to - 1
        ensures BegunAt(rows, x, to, id, on) <==> BegunAt(rows, x, to - 1, id, on) && !Ends(event, id, on)
      {
        assert Undisturbed(rows, x + 1, to, id, on)
          <==> Undisturbed(rows, x + 1, to - 1, id, on) && !Ends(event, id, on);
      }
      assert Undisturbed(rows, from, to, id, on) <==> Undisturbed(rows, from, to - 1, id, on) && !Ends(event, id, on);
      var prev := to - 1;
      if x :| from <= x < prev && BegunAt(rows, x, prev, id, on) {
        assert BegunAt(rows, x, to, id, on) <==> !Ends(event, id, on);
      }
    }
  }

  lemma ApplyMeans(active: Active, event: RowEvent, id: nat, on: Option<nat>)
    ensures Serves(Apply(active, event), id, on)
       <==> event == RequestBegin(id, on) || (Serves(active, id, on) && !Ends(event, id, on))
  {
  }

  /** The last entry for this id in a checkpoint. */
  ghost predicate Lists(requests: seq<Request>, id: nat, on: Option<nat>) {
    exists k :: 0 <= k < |requests| && requests[k] == Request(id, on)
                && forall l :: k < l < |requests| ==> requests[l].id != id
  }

  lemma ListsMore(init: seq<Request>, last: Request, id: nat, on: Option<nat>)
    ensures Lists(init + [last], id, on) <==> if last.id == id then last.connection == on else Lists(init, id, on)
  {
    var all := init + [last];
    assert all[|init|] == last && forall l :: 0 <= l < |init| ==> all[l] == init[l];
    if last.id == id && last.connection == on {
      assert all[|init|] == Request(id, on);
    }
    if last.id != id && Lists(init, id, on) {
      var k :| 0 <= k < |init| && init[k] == Request(id, on) && forall l :: k < l < |init| ==> init[l].id != id;
      assert all[k] == Request(id, on);
    }
  }

  lemma {:induction false} FromListMeans(requests: seq<Request>, id: nat, on: Option<nat>)
    ensures Serves(FromList(requests), id, on) <==> Lists(requests, id, on)
  {
    if requests != [] {
      hide Lists;
      var init, last := requests[..|requests| - 1], requests[|requests| - 1];
      FromListMeans(init, id, on);
      ListsMore(init, last, id, on);
      assert requests == init + [last];
    }
  }

  /** Among the first n rows the request began and was not ended. */
  ghost predicate ShownFromNothing(rows: seq<Row>, n: nat, id: nat, on: Option<nat>)
    requires n <= |rows|
  {
    exists x :: 0 <= x < n && BegunAt(rows, x, n, id, on)
  }

  /** The checkpoint at c lists it, or it began after that, and it was not ended. */
  ghost predicate ShownFromCheckpoint(rows: seq<Row>, c: nat, n: nat, id: nat, on: Option<nat>)
    requires c < n <= |rows| && rows[c].event.Checkpoint?
  {
    || (exists x :: c + 1 <= x < n && BegunAt(rows, x, n, id, on))
    || (Lists(rows[c].event.requests, id, on) && Undisturbed(rows, c + 1, n, id, on))
  }

  /** The request is listed for a process with these rows. */
  ghost predicate Shown(rows: seq<Row>, probe: int, id: nat, on: Option<nat>) {
    var last := LastAtOrBefore(rows, probe, |rows|);
    && last >= 0
    && (forall c: nat :: FromCheckpoint(rows, last, c) ==> ShownFromCheckpoint(rows, c, last + 1, id, on))
    && ((forall c: nat :: !FromCheckpoint(rows, last, c)) ==> ShownFromNothing(rows, last + 1, id, on))
  }

  // ----- The view -----

  lemma {:induction false} ContiguousMeans(rows: seq<Row>, from: nat, to: nat)
    requires from <= to < |rows|
    ensures Contiguous(rows, from, to)
       <==> forall x :: from <= x <= to ==> rows[x].sequence == rows[from].sequence + x - from
  {
    if from < to {
      ContiguousMeans(rows, from, to - 1);
      assert Contiguous(rows, from, to)
        <==> Contiguous(rows, from, to - 1) && rows[to].sequence == rows[to - 1].sequence + 1;
    }
  }

  lemma StartMeans(rows: seq<Row>, last: nat)
    requires last < |rows|
    ensures var end := if last + 1 < |rows| then last + 1 else last;
            FromStart(rows, end) <==> FromTheStart(rows, last)
  {
    var end := if last + 1 < |rows| then last + 1 else last;
    ContiguousMeans(rows, 0, end);
    hide Contiguous;
    assert FromTheStart(rows, last) ==> rows[0].sequence == 1;
  }

  lemma CheckpointMeans(rows: seq<Row>, last: nat, c: nat)
    requires last < |rows| && !FromTheStart(rows, last)
    ensures var end := if last + 1 < |rows| then last + 1 else last;
            FromCheckpoint(rows, last, c) <==> LastUsable(rows, last + 1) == c && Contiguous(rows, c, end)
  {
    hide FromTheStart, Contiguous, LastUsable;
    var end := if last + 1 < |rows| then last + 1 else last;
    if c <= last {
      ContiguousMeans(rows, c, end);
    }
    var u := LastUsable(rows, last + 1);
    assert forall y :: 0 <= y < |rows| ==> (FullCheckpoint(rows[y]) <==> Usable(rows[y]));
  }

  /**
   * The view of a process, from its rows alone: it is complete exactly when they reach
   * back to the process start or to a full checkpoint without a gap, it was rebuilt from a
   * checkpoint exactly in the second case, and it lists exactly the requests shown.
   */
  lemma ViewMeans(rows: seq<Row>, probe: int)
    ensures var view := ViewOf(rows, probe);
            var last := LastAtOrBefore(rows, probe, |rows|);
            && (view.complete <==> last >= 0 && (FromTheStart(rows, last) || exists c: nat :: FromCheckpoint(rows, last, c)))
            && (view.usedCheckpoint <==> last >= 0 && exists c: nat :: FromCheckpoint(rows, last, c))
            && (forall id: nat, on :: Serves(view.active, id, on) <==> Shown(rows, probe, id, on))
  {
    var last := LastAtOrBefore(rows, probe, |rows|);
    if last >= 0 {
      forall id: nat, on ensures Serves(ViewOf(rows, probe).active, id, on) <==> Shown(rows, probe, id, on) {
        ListsShown(rows, probe, id, on);
      }
      BaseMeans(rows, probe);
    } else {
      hide ViewOf;
      NothingSeen(rows, probe);
    }
  }

  lemma NothingSeen(rows: seq<Row>, probe: int)
    requires LastAtOrBefore(rows, probe, |rows|) < 0
    ensures ViewOf(rows, probe) == View(false, false, map[])
  {
  }

  lemma BaseMeans(rows: seq<Row>, probe: int)
    requires LastAtOrBefore(rows, probe, |rows|) >= 0
    ensures var view := ViewOf(rows, probe);
            var last := LastAtOrBefore(rows, probe, |rows|);
            && (view.complete <==> FromTheStart(rows, last) || exists c: nat :: FromCheckpoint(rows, last, c))
            && (view.usedCheckpoint <==> exists c: nat :: FromCheckpoint(rows, last, c))
  {
    hide Replay, FromList, FromStart, Contiguous, LastUsable, LastAtOrBefore, FromTheStart;
    var last := LastAtOrBefore(rows, probe, |rows|);
    StartMeans(rows, last);
    if !FromTheStart(rows, last) {
      hide FromCheckpoint;
      forall c: nat
        ensures var end := if last + 1 < |rows| then last + 1 else last;
                FromCheckpoint(rows, last, c) <==> LastUsable(rows, last + 1) == c && Contiguous(rows, c, end)
      {
        CheckpointMeans(rows, last, c);
      }
      var u := LastUsable(rows, last + 1);
      if u >= 0 {
        CheckpointMeans(rows, last, u);
      }
    }
  }

  lemma ShownWithout(rows: seq<Row>, probe: int, id: nat, on: Option<nat>)
    requires var last := LastAtOrBefore(rows, probe, |rows|);
             last >= 0 && forall c: nat :: !FromCheckpoint(rows, last, c)
    ensures var last := LastAtOrBefore(rows, probe, |rows|);
            Shown(rows, probe, id, on) <==> Serves(Replay(map[], rows, 0, last + 1), id, on)
  {
    hide Replay, LastAtOrBefore, FromCheckpoint, BegunAt;
    var last := LastAtOrBefore(rows, probe, |rows|);
    ReplayMeans(map[], rows, 0, last + 1, id, on);
  }

  lemma ShownWith(rows: seq<Row>, probe: int, c: nat, id: nat, on: Option<nat>)
    requires var last := LastAtOrBefore(rows, probe, |rows|);
             last >= 0 && FromCheckpoint(rows, last, c) && forall d: nat :: FromCheckpoint(rows, last, d) ==> d == c
    ensures var last := LastAtOrBefore(rows, probe, |rows|);
            Shown(rows, probe, id, on) <==> Serves(Replay(FromList(rows[c].event.requests), rows, c + 1, last + 1), id, on)
  {
    hide Replay, LastAtOrBefore, BegunAt, FromList, Lists, Serves, FromTheStart, Undisturbed;
    var last := LastAtOrBefore(rows, probe, |rows|);
    ReplayMeans(FromList(rows[c].event.requests), rows, c + 1, last + 1, id, on);
    FromListMeans(rows[c].event.requests, id, on);
  }

  lemma ListsShown(rows: seq<Row>, probe: int, id: nat, on: Option<nat>)
    requires LastAtOrBefore(rows, probe, |rows|) >= 0
    ensures Serves(ViewOf(rows, probe).active, id, on) <==> Shown(rows, probe, id, on)
  {
    hide Replay, FromStart, Contiguous, LastUsable, LastAtOrBefore, FromTheStart, Serves, FromList, Shown;
    var last := LastAtOrBefore(rows, probe, |rows|);
    StartMeans(rows, last);
    if FromTheStart(rows, last) {
      ShownWithout(rows, probe, id, on);
    } else {
      hide FromCheckpoint;
      var u, end := LastUsable(rows, last + 1), if last + 1 < |rows| then last + 1 else last;
      forall c: nat ensures FromCheckpoint(rows, last, c) <==> u == c && Contiguous(rows, c, end) {
        CheckpointMeans(rows, last, c);
      }
      if u >= 0 && Contiguous(rows, u, end) {
        ShownWith(rows, probe, u, id, on);
      } else {
        ShownWithout(rows, probe, id, on);
      }
    }
  }
}
