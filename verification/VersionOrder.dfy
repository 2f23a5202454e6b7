/**
 * The strict order of Computer versions x.y.z and x.y.z-pre. The parser accepts exactly
 * the printed versions; the comparison is the precedence of section 11 of SemVer 2.0.0.
 */
module VersionOrder {
  import opened Basics
  import Lexicographic

  // ----- Parsing -----

  predicate IsDigit(c: char) {
    '0' <= c <= '9'
  }

  predicate Numeric(s: string) {
    |s| > 0 && forall i :: 0 <= i < |s| ==> IsDigit(s[i])
  }

  /** A number without leading zeros. */
  predicate Numeral(s: string) {
    Numeric(s) && (|s| > 1 ==> s[0] != '0')
  }

  predicate IdentifierChar(c: char) {
    IsDigit(c) || 'A' <= c <= 'Z' || 'a' <= c <= 'z' || c == '-'
  }

  predicate Identifier(s: string) {
    && |s| > 0 && (forall i :: 0 <= i < |s| ==> IdentifierChar(s[i]))
    && (Numeric(s) ==> Numeral(s))
  }

  function Split(s: string, sep: char): (parts: seq<string>)
    ensures |parts| > 0
  {
    if s == [] then [[]]
    else
      var rest := Split(s[1..], sep);
      if s[0] == sep then [[]] + rest else [[s[0]] + rest[0]] + rest[1..]
  }

  function Join(parts: seq<string>, sep: char): string
    requires |parts| > 0
  {
    if |parts| == 1 then parts[0] else parts[0] + [sep] + Join(parts[1..], sep)
  }

  predicate Without(s: string, c: char) {
    forall i :: 0 <= i < |s| ==> s[i] != c
  }

  function IndexOf(s: string, c: char): (i: nat)
    ensures i <= |s| && Without(s[..i], c) && (i < |s| ==> s[i] == c)
  {
    if s == [] || s[0] == c then 0
    else
      var i := IndexOf(s[1..], c);
      assert s[..i + 1] == [s[0]] + s[1..][..i];
      i + 1
  }

  datatype Version = Version(nums: seq<string>, pre: Option<seq<string>>)

  predicate AllNumerals(parts: seq<string>) {
    forall i :: 0 <= i < |parts| ==> Numeral(parts[i])
  }

  predicate AllIdentifiers(parts: seq<string>) {
    forall i :: 0 <= i < |parts| ==> Identifier(parts[i])
  }

  /** A version of SemVer's grammar, without build metadata. */
  predicate WellFormed(v: Version) {
    && |v.nums| == 3 && AllNumerals(v.nums)
    && (v.pre.Some? ==> |v.pre.value| > 0 && AllIdentifiers(v.pre.value))
  }

  function Text(v: Version): string
    requires WellFormed(v)
  {
    Join(v.nums, '.') + if v.pre.Some? then ['-'] + Join(v.pre.value, '.') else []
  }

  function Parse(s: string): Option<Version> {
    var dash := IndexOf(s, '-');
    var v := Version(Split(s[..dash], '.'), if dash < |s| then Some(Split(s[dash + 1..], '.')) else None);
    if WellFormed(v) then Some(v) else None
  }

  lemma {:induction false} JoinUndoesSplit(s: string, sep: char)
    ensures Join(Split(s, sep), sep) == s
  {
    if s != [] {
      JoinUndoesSplit(s[1..], sep);
      var parts, rest := Split(s, sep), Split(s[1..], sep);
      if s[0] == sep {
        assert parts[1..] == rest;
        assert [] + [sep] + s[1..] == s;
      } else if |rest| > 1 {
        assert parts[1..] == rest[1..];
        assert parts[0] + [sep] + Join(rest[1..], sep) == [s[0]] + (rest[0] + [sep] + Join(rest[1..], sep));
      }
    }
  }

  lemma {:induction false} SplitPlain(s: string, sep: char)
    requires Without(s, sep)
    ensures Split(s, sep) == [s]
  {
    if s != [] {
      SplitPlain(s[1..], sep);
      assert [s[0]] + s[1..] == s;
    }
  }

  lemma {:induction false} SplitAtSep(a: string, rest: string, sep: char)
    requires Without(a, sep)
    ensures Split(a + [sep] + rest, sep) == [a] + Split(rest, sep)
  {
    var s := a + [sep] + rest;
    if a == [] {
      assert s[1..] == rest;
    } else {
      assert s[1..] == a[1..] + [sep] + rest;
      SplitAtSep(a[1..], rest, sep);
      assert [s[0]] + a[1..] == a;
    }
  }

  lemma {:induction false} SplitUndoesJoin(parts: seq<string>, sep: char)
    requires |parts| > 0 && forall i :: 0 <= i < |parts| ==> Without(parts[i], sep)
    ensures Split(Join(parts, sep), sep) == parts
  {
    if |parts| == 1 {
      SplitPlain(parts[0], sep);
    } else {
      SplitAtSep(parts[0], Join(parts[1..], sep), sep);
      SplitUndoesJoin(parts[1..], sep);
    }
  }

  lemma {:induction false} JoinWithout(parts: seq<string>, sep: char, c: char)
    requires |parts| > 0 && sep != c && forall i :: 0 <= i < |parts| ==> Without(parts[i], c)
    ensures Without(Join(parts, sep), c)
  {
    if |parts| > 1 {
      JoinWithout(parts[1..], sep, c);
    }
  }

  /** The parser accepts exactly the printed versions, and reads back what was printed. */
  lemma ParseIsGrammar(s: string, v: Version)
    ensures Parse(s) == Some(v) <==> WellFormed(v) && s == Text(v)
  {
    if Parse(s) == Some(v) {
      ParsedIsPrinted(s, v);
    }
    if WellFormed(v) && s == Text(v) {
      PrintedIsParsed(v);
    }
  }

  lemma ParsedIsPrinted(s: string, v: Version)
    requires Parse(s) == Some(v)
    ensures WellFormed(v) && s == Text(v)
  {
    hide Split, Join, WellFormed, IndexOf;
    var dash := IndexOf(s, '-');
    JoinUndoesSplit(s[..dash], '.');
    if dash < |s| {
      JoinUndoesSplit(s[dash + 1..], '.');
    }
    CutAtDash(s, dash);
  }

  lemma CutAtDash(s: string, dash: nat)
    requires dash <= |s| && (dash < |s| ==> s[dash] == '-')
    ensures s == s[..dash] + if dash < |s| then ['-'] + s[dash + 1..] else []
  {
  }

  lemma PrintedIsParsed(v: Version)
    requires WellFormed(v)
    ensures Parse(Text(v)) == Some(v)
  {
    hide Split, Join, Numeral;
    var core := Join(v.nums, '.');
    CoreHasNoDash(v.nums);
    SplitUndoesJoin(v.nums, '.');
    if v.pre.Some? {
      IdentifiersHaveNoDot(v.pre.value);
      SplitUndoesJoin(v.pre.value, '.');
      DashFound(core, Join(v.pre.value, '.'));
    } else {
      assert Text(v) == core;
      assert IndexOf(core, '-') == |core|;
      assert core[..|core|] == core;
    }
  }

  lemma DashFound(core: string, pre: string)
    requires Without(core, '-')
    ensures var s := core + (['-'] + pre); IndexOf(s, '-') == |core| && s[..|core|] == core && s[|core| + 1..] == pre
  {
    var s := core + (['-'] + pre);
    var i := IndexOf(s, '-');
    assert s[|core|] == '-';
    assert forall k :: 0 <= k < i ==> s[k] == s[..i][k] != '-';
  }

  lemma CoreHasNoDash(nums: seq<string>)
    requires |nums| > 0 && AllNumerals(nums)
    ensures Without(Join(nums, '.'), '-') && forall i :: 0 <= i < |nums| ==> Without(nums[i], '.')
  {
    assert forall i :: 0 <= i < |nums| ==> Numeral(nums[i]) && Without(nums[i], '-') && Without(nums[i], '.');
    JoinWithout(nums, '.', '-');
  }

  lemma IdentifiersHaveNoDot(pre: seq<string>)
    requires AllIdentifiers(pre)
    ensures forall i :: 0 <= i < |pre| ==> Without(pre[i], '.')
  {
    assert forall i :: 0 <= i < |pre| ==> Identifier(pre[i]);
  }

  // ----- Precedence -----

  function Value(s: string): nat {
    if s == [] || !IsDigit(s[|s| - 1]) then 0
    else Value(s[..|s| - 1]) * 10 + (s[|s| - 1] - '0') as nat
  }

  /** A numeral is the decimal form of its value, so equal values mean equal text. */
  lemma {:induction false} NumeralIsDecimal(s: string)
    requires Numeral(s)
    ensures Digits(Value(s)) == s && (s[0] != '0' ==> Value(s) > 0)
  {
    var front, d := s[..|s| - 1], (s[|s| - 1] - '0') as nat;
    assert IsDigit(s[|s| - 1]);
    assert DigitChar(d) == s[|s| - 1];
    if front != [] {
      NumeralIsDecimal(front);
      assert Value(s) / 10 == Value(front) && Value(s) % 10 == d;
      assert s == front + [DigitChar(d)];
    } else {
      assert Value(front) == 0;
      assert s == [DigitChar(d)];
    }
  }

  predicate CharLess(a: char, b: char) {
    a < b
  }

  /** Rules 11.4.1 to 11.4.3: numbers by value, texts in character order, numbers below texts. */
  ghost predicate IdentifierLess(a: string, b: string) {
    if Numeric(a) && Numeric(b) then Value(a) < Value(b)
    else if Numeric(a) || Numeric(b) then Numeric(a)
    else Lexicographic.Less(a, b, CharLess)
  }

  ghost predicate NumeralLess(a: string, b: string) {
    Value(a) < Value(b)
  }

  /** Rules 11.2, 11.3 and 11.4. */
  ghost predicate Precedes(a: Version, b: Version) {
    || Lexicographic.Less(a.nums, b.nums, NumeralLess)
    || (a.nums == b.nums && a.pre.Some?
        && (b.pre.None? || Lexicographic.Less(a.pre.value, b.pre.value, IdentifierLess)))
  }

  lemma CharsStrict()
    ensures Lexicographic.StrictTotal(CharLess, (c: char) => true)
  {
  }

  lemma NumeralsStrict()
    ensures Lexicographic.StrictTotal(NumeralLess, Numeral)
  {
    forall x, y | Numeral(x) && Numeral(y) && Value(x) == Value(y) ensures x == y {
      NumeralIsDecimal(x);
      NumeralIsDecimal(y);
    }
  }

  lemma IdentifiersStrict()
    ensures Lexicographic.StrictTotal(IdentifierLess, Identifier)
  {
    hide Value, Identifier;
    forall x | Identifier(x) ensures !IdentifierLess(x, x) {
      TextsStrict(x, x, x);
    }
    forall x, y | Identifier(x) && Identifier(y) && x != y ensures IdentifierLess(x, y) || IdentifierLess(y, x) {
      TextsStrict(x, y, x);
      NumbersDiffer(x, y);
    }
    forall x, y, z | Identifier(x) && Identifier(y) && Identifier(z) && IdentifierLess(x, y) && IdentifierLess(y, z)
      ensures IdentifierLess(x, z)
    {
      TextsStrict(x, y, z);
    }
  }

  lemma NumbersDiffer(x: string, y: string)
    requires Identifier(x) && Identifier(y) && x != y
    ensures Numeric(x) && Numeric(y) ==> Value(x) != Value(y)
  {
    if Numeric(x) && Numeric(y) {
      NumeralIsDecimal(x);
      NumeralIsDecimal(y);
    }
  }

  lemma TextsStrict(x: string, y: string, z: string)
    ensures !Lexicographic.Less(x, x, CharLess)
    ensures x != y ==> Lexicographic.Less(x, y, CharLess) || Lexicographic.Less(y, x, CharLess)
    ensures Lexicographic.Less(x, y, CharLess) && Lexicographic.Less(y, z, CharLess) ==> Lexicographic.Less(x, z, CharLess)
  {
    var any := (c: char) => true;
    CharsStrict();
    Lexicographic.Strict(x, y, CharLess, any);
    Lexicographic.Irreflexive(x, CharLess, any);
    if Lexicographic.Less(x, y, CharLess) && Lexicographic.Less(y, z, CharLess) {
      Lexicographic.Transitive(x, y, z, CharLess, any);
    }
  }

  /** Precedence is a strict total order on versions. */
  lemma PrecedenceStrict(a: Version, b: Version)
    requires WellFormed(a) && WellFormed(b)
    ensures a == b ==> !Precedes(a, b)
    ensures a != b ==> Precedes(a, b) || Precedes(b, a)
    ensures Precedes(a, b) ==> !Precedes(b, a)
  {
    hide Numeral, Identifier;
    NumeralsStrict();
    Lexicographic.Strict(a.nums, b.nums, NumeralLess, Numeral);
    if a.pre.Some? && b.pre.Some? {
      IdentifiersStrict();
      Lexicographic.Strict(a.pre.value, b.pre.value, IdentifierLess, Identifier);
    }
  }

  lemma PrecedenceTransitive(a: Version, b: Version, c: Version)
    requires WellFormed(a) && WellFormed(b) && WellFormed(c)
    requires Precedes(a, b) && Precedes(b, c)
    ensures Precedes(a, c)
  {
    hide Numeral, Identifier, NumeralLess, IdentifierLess;
    if Lexicographic.Less(a.nums, b.nums, NumeralLess) && Lexicographic.Less(b.nums, c.nums, NumeralLess) {
      NumeralsStrict();
      Lexicographic.Transitive(a.nums, b.nums, c.nums, NumeralLess, Numeral);
    } else if a.nums == b.nums == c.nums && c.pre.Some? {
      IdentifiersStrict();
      Lexicographic.Transitive(a.pre.value, b.pre.value, c.pre.value, IdentifierLess, Identifier);
    }
  }

  // ----- The comparison -----

  /** The language's order on strings. */
  function TextLess(a: string, b: string): bool {
    if b == [] then false
    else if a == [] then true
    else if a[0] != b[0] then a[0] < b[0]
    else TextLess(a[1..], b[1..])
  }

  lemma {:induction false} TextLessIs(a: string, b: string)
    ensures TextLess(a, b) ==> Lexicographic.Less(a, b, CharLess)
    ensures !TextLess(a, b) && a != b ==> Lexicographic.Less(b, a, CharLess)
  {
    if a == [] || b == [] || a[0] != b[0] {
      assert Lexicographic.LessAt(a, b, CharLess, 0) || Lexicographic.LessAt(b, a, CharLess, 0) || a == b;
    } else {
      TextLessIs(a[1..], b[1..]);
      if TextLess(a, b) {
        LessAfterHead(a, b);
      } else if a != b {
        assert a == [a[0]] + a[1..] && b == [b[0]] + b[1..];
        LessAfterHead(b, a);
      }
    }
  }

  lemma LessAfterHead(a: string, b: string)
    requires a != [] && b != [] && a[0] == b[0] && Lexicographic.Less(a[1..], b[1..], CharLess)
    ensures Lexicographic.Less(a, b, CharLess)
  {
    var i: nat :| Lexicographic.LessAt(a[1..], b[1..], CharLess, i);
    assert a[..i + 1] == [a[0]] + a[1..][..i] && b[..i + 1] == [b[0]] + b[1..][..i];
    assert Lexicographic.LessAt(a, b, CharLess, i + 1);
  }

  /** One step of the loop over identifiers. */
  method CompareIdentifiers(left: string, right: string) returns (r: int)
    requires Identifier(left) && Identifier(right) && left != right
    ensures (r == -1 && IdentifierLess(left, right)) || (r == 1 && IdentifierLess(right, left))
  {
    NumbersDiffer(left, right);
    TextLessIs(left, right);
    if Numeric(left) && Numeric(right) {
      r := if Value(left) < Value(right) then -1 else 1;
    } else if Numeric(left) != Numeric(right) {
      r := if Numeric(left) then -1 else 1;
    } else {
      r := if TextLess(left, right) then -1 else 1;
    }
  }

  /** The loop over pre-release identifiers. */
  method ComparePre(a: seq<string>, b: seq<string>) returns (r: int)
    requires AllIdentifiers(a) && AllIdentifiers(b)
    ensures || (r == 0 && a == b)
            || (r == -1 && Lexicographic.Less(a, b, IdentifierLess))
            || (r == 1 && Lexicographic.Less(b, a, IdentifierLess))
  {
    hide Identifier, IdentifierLess;
    var count := if |a| < |b| then |a| else |b|;
    for i := 0 to count
      invariant a[..i] == b[..i]
    {
      if a[i] != b[i] {
        r := CompareIdentifiers(a[i], b[i]);
        assert if r < 0 then Lexicographic.LessAt(a, b, IdentifierLess, i) else Lexicographic.LessAt(b, a, IdentifierLess, i);
        return;
      }
      assert a[..i + 1] == a[..i] + [a[i]] && b[..i + 1] == b[..i] + [b[i]];
    }
    assert a[..|a|] == a && b[..|b|] == b;
    if |a| == |b| {
      return 0;
    }
    assert Lexicographic.LessAt(a, b, IdentifierLess, count) || Lexicographic.LessAt(b, a, IdentifierLess, count);
    r := if |a| < |b| then -1 else 1;
  }

  method CompareParsed(a: Version, b: Version) returns (r: int)
    requires WellFormed(a) && WellFormed(b)
    ensures (r == 0 && a == b) || (r == -1 && Precedes(a, b)) || (r == 1 && Precedes(b, a))
  {
    hide Numeral, Identifier, IdentifierLess;
    for i := 0 to 3
      invariant a.nums[..i] == b.nums[..i]
    {
      var left, right := Value(a.nums[i]), Value(b.nums[i]);
      if left != right {
        assert Lexicographic.LessAt(a.nums, b.nums, NumeralLess, i) || Lexicographic.LessAt(b.nums, a.nums, NumeralLess, i);
        return if left < right then -1 else 1;
      }
      NumeralIsDecimal(a.nums[i]);
      NumeralIsDecimal(b.nums[i]);
      assert a.nums[..i + 1] == a.nums[..i] + [a.nums[i]] && b.nums[..i + 1] == b.nums[..i] + [b.nums[i]];
    }
    assert a.nums[..3] == a.nums && b.nums[..3] == b.nums;
    if a.pre.None? && b.pre.None? {
      return 0;
    }
    if a.pre.None? {
      return 1;
    }
    if b.pre.None? {
      return -1;
    }
    r := ComparePre(a.pre.value, b.pre.value);
  }

  /**
   * The comparison of version strings. It answers for accepted strings only, with the
   * sign of their precedence, and with zero exactly for identical strings.
   */
  method CompareComputerVersions(a: string, b: string) returns (r: Option<int>)
    ensures r.Some? <==> Parse(a).Some? && Parse(b).Some?
    ensures r.Some? ==> r.value in {-1, 0, 1}
    ensures r.Some? ==> (r.value < 0 <==> Precedes(Parse(a).value, Parse(b).value))
    ensures r.Some? ==> (r.value > 0 <==> Precedes(Parse(b).value, Parse(a).value))
    ensures r.Some? ==> (r.value == 0 <==> a == b)
  {
    hide WellFormed, Precedes;
    var pa, pb := Parse(a), Parse(b);
    if pa.None? || pb.None? {
      return None;
    }
    ParsedIsPrinted(a, pa.value);
    ParsedIsPrinted(b, pb.value);
    PrecedenceStrict(pa.value, pb.value);
    PrecedenceStrict(pb.value, pa.value);
    var sign := CompareParsed(pa.value, pb.value);
    r := Some(sign);
  }

  // ----- The standard's own examples -----

  function Pre(identifiers: seq<string>): Version {
    Version(["1", "0", "0"], Some(identifiers))
  }

  function Release(major: string, minor: string, patch: string): Version {
    Version([major, minor, patch], None)
  }

  lemma PreLess(a: seq<string>, b: seq<string>, i: nat)
    requires Lexicographic.LessAt(a, b, IdentifierLess, i)
    ensures Precedes(Pre(a), Pre(b))
  {
  }

  lemma ReleaseLess(a: Version, b: Version, i: nat)
    requires Lexicographic.LessAt(a.nums, b.nums, NumeralLess, i)
    ensures Precedes(a, b)
  {
  }

  lemma TextBefore(a: string, b: string)
    requires a != [] && b != [] && a[0] < b[0] && !Numeric(a) && !Numeric(b)
    ensures IdentifierLess(a, b)
  {
    assert Lexicographic.LessAt(a, b, CharLess, 0);
  }

  lemma Digit(c: char)
    requires IsDigit(c)
    ensures Numeric([c]) && Value([c]) == (c - '0') as nat
  {
    assert [c][..0] == [];
  }

  lemma TwoDigits(c: char, d: char)
    requires IsDigit(c) && IsDigit(d)
    ensures Numeric([c, d]) && Value([c, d]) == (c - '0') as nat * 10 + (d - '0') as nat
  {
    Digit(c);
    assert [c, d][..1] == [c];
  }

  lemma NotNumeric(s: string)
    requires s != [] && !IsDigit(s[0])
    ensures !Numeric(s)
  {
  }

  /** The order of the examples in section 11 of SemVer 2.0.0, each before the next. */
  lemma StandardExamples()
    ensures Precedes(Pre(["alpha"]), Pre(["alpha", "1"]))
    ensures Precedes(Pre(["alpha", "1"]), Pre(["alpha", "beta"]))
    ensures Precedes(Pre(["alpha", "beta"]), Pre(["beta"]))
    ensures Precedes(Pre(["beta"]), Pre(["beta", "2"]))
    ensures Precedes(Pre(["beta", "2"]), Pre(["beta", "11"]))
    ensures Precedes(Pre(["beta", "11"]), Pre(["rc", "1"]))
    ensures Precedes(Pre(["rc", "1"]), Release("1", "0", "0"))
    ensures Precedes(Release("1", "0", "0"), Release("2", "0", "0"))
    ensures Precedes(Release("2", "0", "0"), Release("2", "1", "0"))
    ensures Precedes(Release("2", "1", "0"), Release("2", "1", "1"))
  {
    hide IdentifierLess, NumeralLess, Numeric, Precedes;
    PreLess(["alpha"], ["alpha", "1"], 1);
    assert IdentifierLess("1", "beta") by { Digit('1'); NotNumeric("beta"); MixedLess("1", "beta"); }
    PreLess(["alpha", "1"], ["alpha", "beta"], 1);
    NotNumeric("alpha");
    NotNumeric("beta");
    NotNumeric("rc");
    TextBefore("alpha", "beta");
    PreLess(["alpha", "beta"], ["beta"], 0);
    PreLess(["beta"], ["beta", "2"], 1);
    assert IdentifierLess("2", "11") by { Digit('2'); TwoDigits('1', '1'); NumbersLess("2", "11"); }
    PreLess(["beta", "2"], ["beta", "11"], 1);
    TextBefore("beta", "rc");
    PreLess(["beta", "11"], ["rc", "1"], 0);
    ReleaseLast(["rc", "1"]);
    Digit('0');
    Digit('1');
    Digit('2');
    NumeralsLess("1", "2");
    NumeralsLess("0", "1");
    ReleaseLess(Release("1", "0", "0"), Release("2", "0", "0"), 0);
    ReleaseLess(Release("2", "0", "0"), Release("2", "1", "0"), 1);
    ReleaseLess(Release("2", "1", "0"), Release("2", "1", "1"), 2);
  }

  lemma MixedLess(a: string, b: string)
    requires Numeric(a) && !Numeric(b)
    ensures IdentifierLess(a, b)
  {
  }

  lemma NumbersLess(a: string, b: string)
    requires Numeric(a) && Numeric(b) && Value(a) < Value(b)
    ensures IdentifierLess(a, b)
  {
  }

  lemma NumeralsLess(a: string, b: string)
    requires Value(a) < Value(b)
    ensures NumeralLess(a, b)
  {
  }

  lemma ReleaseLast(identifiers: seq<string>)
    ensures Precedes(Pre(identifiers), Release("1", "0", "0"))
  {
  }
}
