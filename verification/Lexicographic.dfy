/** Lists compared by their first difference. */
module Lexicographic {

  /** The lists agree before i, and a is smaller there or ends there. */
  ghost predicate LessAt<T(!new)>(a: seq<T>, b: seq<T>, lt: (T, T) -> bool, i: nat) {
    && i <= |a| && i < |b| && a[..i] == b[..i]
    && (i < |a| ==> lt(a[i], b[i]))
  }

  ghost predicate Less<T(!new)>(a: seq<T>, b: seq<T>, lt: (T, T) -> bool) {
    exists i: nat :: LessAt(a, b, lt, i)
  }

  /** A strict total order on the values in a domain. */
  ghost predicate StrictTotal<T(!new)>(lt: (T, T) -> bool, dom: T -> bool) {
    && (forall x :: dom(x) ==> !lt(x, x))
    && (forall x, y :: dom(x) && dom(y) && x != y ==> lt(x, y) || lt(y, x))
    && (forall x, y, z :: dom(x) && dom(y) && dom(z) && lt(x, y) && lt(y, z) ==> lt(x, z))
  }

  ghost predicate AllIn<T(!new)>(s: seq<T>, dom: T -> bool) {
    forall i :: 0 <= i < |s| ==> dom(s[i])
  }

  lemma Irreflexive<T(!new)>(a: seq<T>, lt: (T, T) -> bool, dom: T -> bool)
    requires StrictTotal(lt, dom) && AllIn(a, dom)
    ensures !Less(a, a, lt)
  {
  }

  lemma Transitive<T(!new)>(a: seq<T>, b: seq<T>, c: seq<T>, lt: (T, T) -> bool, dom: T -> bool)
    requires StrictTotal(lt, dom) && AllIn(a, dom) && AllIn(b, dom) && AllIn(c, dom)
    requires Less(a, b, lt) && Less(b, c, lt)
    ensures Less(a, c, lt)
  {
    var i: nat :| LessAt(a, b, lt, i);
    var j: nat :| LessAt(b, c, lt, j);
    var k := if i < j then i else j;
    assert a[..k] == a[..i][..k] == b[..i][..k] == b[..k];
    assert c[..k] == c[..j][..k] == b[..j][..k] == b[..k];
    assert i < j ==> b[i] == b[..j][i] == c[..j][i] == c[i];
    assert j < i ==> b[j] == b[..i][j] == a[..i][j] == a[j];
    assert LessAt(a, c, lt, k);
  }

  lemma {:induction false} Total<T(!new)>(a: seq<T>, b: seq<T>, lt: (T, T) -> bool, dom: T -> bool, i: nat)
    requires StrictTotal(lt, dom) && AllIn(a, dom) && AllIn(b, dom)
    requires i <= |a| && i <= |b| && a[..i] == b[..i]
    ensures a == b || Less(a, b, lt) || Less(b, a, lt)
    decreases |a| - i
  {
    if i == |a| || i == |b| || a[i] != b[i] {
      assert i == |a| == |b| || LessAt(a, b, lt, i) || LessAt(b, a, lt, i);
      assert a[..|a|] == a && b[..|b|] == b;
    } else {
      assert a[..i + 1] == a[..i] + [a[i]] && b[..i + 1] == b[..i] + [b[i]];
      Total(a, b, lt, dom, i + 1);
    }
  }

  /** Comparison by first difference is again a strict total order. */
  lemma Strict<T(!new)>(a: seq<T>, b: seq<T>, lt: (T, T) -> bool, dom: T -> bool)
    requires StrictTotal(lt, dom) && AllIn(a, dom) && AllIn(b, dom)
    ensures a == b ==> !Less(a, b, lt)
    ensures a != b ==> Less(a, b, lt) || Less(b, a, lt)
    ensures Less(a, b, lt) ==> !Less(b, a, lt)
  {
    Irreflexive(a, lt, dom);
    Total(a, b, lt, dom, 0);
    if Less(a, b, lt) && Less(b, a, lt) {
      Transitive(a, b, a, lt, dom);
    }
  }
}
