/** Deduplication of the spans flattened from the documents, in order. */
module TraceSpans {

  /** A span as deduplication sees it; the fingerprint leaves out the source line. */
  datatype FlatSpan = FlatSpan(traceId: string, spanId: string, fingerprint: string, sourceLine: nat)

  function KeyOf(span: FlatSpan): string {
    span.traceId + [':'] + span.spanId
  }

  /** With trace ids that hold no colon, as hexadecimal ones, equal keys mean the same trace and the same span. */
  lemma KeysTellApart(a: FlatSpan, b: FlatSpan)
    requires ':' !in a.traceId && ':' !in b.traceId
    ensures KeyOf(a) == KeyOf(b) <==> a.traceId == b.traceId && a.spanId == b.spanId
  {
    if KeyOf(a) == KeyOf(b) {
      var k, n, l := KeyOf(a), |a.traceId|, |b.traceId|;
      assert k[n] == ':' && k[l] == ':';
      assert forall i :: 0 <= i < n ==> k[i] == a.traceId[i];
      assert forall i :: 0 <= i < l ==> k[i] == b.traceId[i];
      assert n == l;
      assert k[..n] == a.traceId && k[..l] == b.traceId && k[n + 1..] == a.spanId && k[l + 1..] == b.spanId;
    }
  }

  /** A later span under the same key that is not the same. */
  datatype Conflict = Conflict(kept: FlatSpan, other: FlatSpan)

  datatype Deduped = Deduped(spans: seq<FlatSpan>, exactDuplicates: nat, conflicts: seq<Conflict>)

  predicate SeenIn(spans: seq<FlatSpan>, key: string) {
    exists i :: 0 <= i < |spans| && KeyOf(spans[i]) == key
  }

  /** The spans whose key occurs for the first time. */
  function FirstPerKey(spans: seq<FlatSpan>): seq<FlatSpan> {
    if spans == [] then []
    else
      var init, last := spans[..|spans| - 1], spans[|spans| - 1];
      FirstPerKey(init) + (if SeenIn(init, KeyOf(last)) then [] else [last])
  }

  ghost predicate SubsequenceAt(kept: seq<FlatSpan>, spans: seq<FlatSpan>, at: seq<nat>) {
    && |at| == |kept|
    && (forall i :: 0 <= i < |at| ==> at[i] < |spans| && kept[i] == spans[at[i]])
    && (forall i, j :: 0 <= i < j < |at| ==> at[i] < at[j])
    && (forall i :: 0 <= i < |at| ==> !SeenIn(spans[..at[i]], KeyOf(kept[i])))
  }

  ghost predicate OnePerKey(spans: seq<FlatSpan>) {
    forall i, j :: 0 <= i < j < |spans| ==> KeyOf(spans[i]) != KeyOf(spans[j])
  }

  ghost predicate SameKeys(a: seq<FlatSpan>, b: seq<FlatSpan>) {
    forall key :: SeenIn(a, key) <==> SeenIn(b, key)
  }

  lemma {:induction false} KeysAreKept(spans: seq<FlatSpan>)
    ensures SameKeys(spans, FirstPerKey(spans))
  {
    if spans != [] {
      hide KeyOf, SeenIn;
      var init, last := spans[..|spans| - 1], spans[|spans| - 1];
      KeysAreKept(init);
      assert spans == init + [last];
      forall key ensures SeenIn(spans, key) <==> SeenIn(FirstPerKey(spans), key) {
        SeenAppend(init, last, key);
        SeenAppend(FirstPerKey(init), last, key);
        assert FirstPerKey(init) + [] == FirstPerKey(init);
      }
    }
  }

  lemma {:induction false} KeptOnce(spans: seq<FlatSpan>)
    ensures OnePerKey(FirstPerKey(spans))
  {
    if spans != [] {
      hide KeyOf;
      KeptOnce(spans[..|spans| - 1]);
      KeysAreKept(spans[..|spans| - 1]);
    }
  }

  /** Kept spans stand in their original order, one per key, each the first of its key. */
  lemma {:induction false} FirstPerKeyIsFirst(spans: seq<FlatSpan>) returns (at: seq<nat>)
    ensures SubsequenceAt(FirstPerKey(spans), spans, at)
    ensures SameKeys(spans, FirstPerKey(spans)) && OnePerKey(FirstPerKey(spans))
  {
    hide KeyOf, SeenIn, SameKeys, OnePerKey;
    KeysAreKept(spans);
    KeptOnce(spans);
    if spans == [] {
      at := [];
    } else {
      var init, last := spans[..|spans| - 1], spans[|spans| - 1];
      at := FirstPerKeyIsFirst(init);
      forall i | 0 <= i < |at| ensures spans[..at[i]] == init[..at[i]] {
      }
      if !SeenIn(init, KeyOf(last)) {
        at := at + [|init|];
      }
    }
  }

  lemma SeenAppend(spans: seq<FlatSpan>, last: FlatSpan, key: string)
    ensures SeenIn(spans + [last], key) <==> SeenIn(spans, key) || KeyOf(last) == key
  {
    hide KeyOf;
    if SeenIn(spans, key) {
      var i :| 0 <= i < |spans| && KeyOf(spans[i]) == key;
      assert (spans + [last])[i] == spans[i];
    }
    if KeyOf(last) == key {
      assert (spans + [last])[|spans|] == last;
    }
  }

  // ----- Later spans -----

  /** The first span of its key. */
  ghost predicate FirstAt(input: seq<FlatSpan>, f: nat, key: string) {
    f < |input| && KeyOf(input[f]) == key && !SeenIn(input[..f], key)
  }

  /** A later span that says the same as the first one of its key. */
  ghost predicate Repeats(input: seq<FlatSpan>, k: nat)
    requires k < |input|
  {
    exists f: nat :: f < k && FirstAt(input, f, KeyOf(input[k])) && input[f].fingerprint == input[k].fingerprint
  }

  /** A later span that says something else. */
  ghost predicate Contradicts(input: seq<FlatSpan>, k: nat)
    requires k < |input|
  {
    exists f: nat :: f < k && FirstAt(input, f, KeyOf(input[k])) && input[f].fingerprint != input[k].fingerprint
  }

  lemma FirstIsUnique(input: seq<FlatSpan>, f: nat, g: nat, key: string)
    requires FirstAt(input, f, key) && FirstAt(input, g, key)
    ensures f == g
  {
    hide SeenIn, KeyOf;
    if f < g {
      SeenBefore(input, f, g);
    } else if g < f {
      SeenBefore(input, g, f);
    }
  }

  lemma SeenBefore(input: seq<FlatSpan>, f: nat, n: nat)
    requires f < n <= |input|
    ensures SeenIn(input[..n], KeyOf(input[f]))
  {
    assert input[..n][f] == input[f];
  }

  /** Against the first of its key, a later span repeats or contradicts, never both. */
  lemma LaterSpan(input: seq<FlatSpan>, f: nat, k: nat)
    requires f < k < |input| && FirstAt(input, f, KeyOf(input[k]))
    ensures Repeats(input, k) <==> input[f].fingerprint == input[k].fingerprint
    ensures Contradicts(input, k) <==> input[f].fingerprint != input[k].fingerprint
  {
    hide KeyOf, FirstAt;
    forall g: nat | FirstAt(input, g, KeyOf(input[k])) ensures g == f {
      FirstIsUnique(input, f, g, KeyOf(input[k]));
    }
  }

  lemma FreshSpan(input: seq<FlatSpan>, k: nat)
    requires k < |input| && !SeenIn(input[..k], KeyOf(input[k]))
    ensures FirstAt(input, k, KeyOf(input[k])) && !Repeats(input, k) && !Contradicts(input, k)
  {
    hide KeyOf;
    forall f: nat | f < k ensures !FirstAt(input, f, KeyOf(input[k])) {
      assert input[..k][f] == input[f];
    }
  }

  ghost function RepeatsBefore(input: seq<FlatSpan>, n: nat): set<nat>
    requires n <= |input|
  {
    set k | 0 <= k < n && Repeats(input, k)
  }

  lemma RepeatsStep(input: seq<FlatSpan>, n: nat)
    requires n < |input|
    ensures |RepeatsBefore(input, n + 1)| == |RepeatsBefore(input, n)| + if Repeats(input, n) then 1 else 0
  {
    hide Repeats;
    assert RepeatsBefore(input, n + 1) == RepeatsBefore(input, n) + if Repeats(input, n) then {n} else {};
  }

  /** The conflict sets the span at k against the first one of its key. */
  ghost predicate SetsAgainstFirst(input: seq<FlatSpan>, c: Conflict, k: nat)
    requires k < |input|
  {
    c.other == input[k] && exists f: nat :: f < k && FirstAt(input, f, KeyOf(input[k])) && c.kept == input[f]
  }

  /** at lists the contradicting positions below n, in order, and the conflicts are theirs. */
  ghost predicate ConflictsAt(conflicts: seq<Conflict>, input: seq<FlatSpan>, n: nat, at: seq<nat>)
    requires n <= |input|
  {
    && |at| == |conflicts|
    && (forall i :: 0 <= i < |at| ==> at[i] < n && SetsAgainstFirst(input, conflicts[i], at[i]))
    && (forall i, j :: 0 <= i < j < |at| ==> at[i] < at[j])
    && (forall k: nat :: k < n ==> (k in at <==> Contradicts(input, k)))
  }

  /** One conflict for every contradicting span, in order, and no others. */
  ghost predicate ListsConflicts(conflicts: seq<Conflict>, input: seq<FlatSpan>) {
    exists at: seq<nat> :: ConflictsAt(conflicts, input, |input|, at)
  }

  lemma ConflictsGrow(conflicts: seq<Conflict>, input: seq<FlatSpan>, n: nat, at: seq<nat>, c: Conflict)
    requires n < |input| && ConflictsAt(conflicts, input, n, at)
    requires Contradicts(input, n) && SetsAgainstFirst(input, c, n)
    ensures ConflictsAt(conflicts + [c], input, n + 1, at + [n])
  {
    hide Contradicts, SetsAgainstFirst;
  }

  lemma ConflictsStay(conflicts: seq<Conflict>, input: seq<FlatSpan>, n: nat, at: seq<nat>)
    requires n < |input| && ConflictsAt(conflicts, input, n, at) && !Contradicts(input, n)
    ensures ConflictsAt(conflicts, input, n + 1, at)
  {
    hide Contradicts, SetsAgainstFirst;
  }

  /** The index holds the first span of every key seen among the first n. */
  ghost predicate Indexed(unique: map<string, FlatSpan>, input: seq<FlatSpan>, n: nat)
    requires n <= |input|
  {
    && (forall key :: key in unique <==> SeenIn(input[..n], key))
    && (forall key :: key in unique ==> HoldsFirst(unique[key], input, n, key))
  }

  ghost predicate HoldsFirst(span: FlatSpan, input: seq<FlatSpan>, n: nat, key: string) {
    exists f: nat :: f < n && FirstAt(input, f, key) && span == input[f]
  }

  lemma IndexGrows(unique: map<string, FlatSpan>, input: seq<FlatSpan>, n: nat)
    requires n < |input| && Indexed(unique, input, n)
    ensures var key := KeyOf(input[n]);
            Indexed(if key in unique then unique else unique[key := input[n]], input, n + 1)
  {
    hide KeyOf, SeenIn;
    var span := input[n];
    assert input[..n + 1] == input[..n] + [span];
    forall key ensures SeenIn(input[..n + 1], key) <==> SeenIn(input[..n], key) || KeyOf(span) == key {
      SeenAppend(input[..n], span, key);
    }
    if KeyOf(span) !in unique {
      FreshSpan(input, n);
    }
  }

  /**
   * The loop over flattened spans. The kept spans are the first of each key in order;
   * every later span is counted as an exact duplicate if it repeats the first one of
   * its key, and is listed as a conflict otherwise, so nothing is lost.
   */
  method Dedupe(input: seq<FlatSpan>) returns (d: Deduped)
    ensures d.spans == FirstPerKey(input)
    ensures d.exactDuplicates == |RepeatsBefore(input, |input|)|
    ensures ListsConflicts(d.conflicts, input)
    ensures |d.spans| + d.exactDuplicates + |d.conflicts| == |input|
  {
    hide KeyOf, SeenIn, FirstPerKey, Repeats, Contradicts, RepeatsBefore, FirstAt, ConflictsAt;
    var unique: map<string, FlatSpan> := map[];
    var spans: seq<FlatSpan>, duplicates: nat, conflicts: seq<Conflict> := [], 0, [];
    ghost var at: seq<nat> := [];
    NothingSeen();
    NothingLater(input);
    for k := 0 to |input|
      invariant spans == FirstPerKey(input[..k])
      invariant |spans| + duplicates + |conflicts| == k
      invariant duplicates == |RepeatsBefore(input, k)|
      invariant Indexed(unique, input, k)
      invariant ConflictsAt(conflicts, input, k, at)
    {
      var span := input[k];
      FirstPerKeyStep(input, k);
      RepeatsStep(input, k);
      IndexGrows(unique, input, k);
      var key := KeyOf(span);
      if key !in unique {
        FreshSpan(input, k);
        ConflictsStay(conflicts, input, k, at);
        unique := unique[key := span];
        spans := spans + [span];
      } else {
        ghost var f: nat :| f < k && FirstAt(input, f, key) && unique[key] == input[f];
        LaterSpan(input, f, k);
        if unique[key].fingerprint == span.fingerprint {
          ConflictsStay(conflicts, input, k, at);
          duplicates := duplicates + 1;
        } else {
          ConflictsGrow(conflicts, input, k, at, Conflict(unique[key], span));
          conflicts, at := conflicts + [Conflict(unique[key], span)], at + [k];
        }
      }
    }
    assert input[..|input|] == input;
    d := Deduped(spans, duplicates, conflicts);
  }

  lemma NothingLater(input: seq<FlatSpan>)
    ensures RepeatsBefore(input, 0) == {} && ConflictsAt([], input, 0, [])
  {
  }

  lemma NothingSeen()
    ensures FirstPerKey([]) == [] && forall key :: !SeenIn([], key)
  {
  }

  lemma FirstPerKeyStep(input: seq<FlatSpan>, k: nat)
    requires k < |input|
    ensures FirstPerKey(input[..k + 1])
         == FirstPerKey(input[..k]) + if SeenIn(input[..k], KeyOf(input[k])) then [] else [input[k]]
  {
    hide SeenIn, KeyOf;
    assert input[..k + 1][..k] == input[..k];
  }
}
