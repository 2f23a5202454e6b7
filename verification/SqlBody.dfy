/**
 * What a split-off statement is good for: it lexes from code to its end on its own, so
 * splitting it again changes nothing, and the comments before its body can be skipped
 * without touching how the body lexes.
 */
module SqlBody {
  import opened Basics
  import opened SqlLexer
  import opened SqlSplitter

  // ----- Statements stand alone -----

  lemma LexSuffix(s: string, a: nat, k: nat)
    requires a + k <= |s| && LexAt(s, a) == Code
    ensures LexAt(s[a..], k) == LexAt(s, a + k)
  {
    hide Step;
    assert s[..a + k] == s[..a] + s[a..a + k];
    assert s[a..][..k] == s[a..a + k];
    LexConcat(Code, s[..a], s[a..a + k]);
  }

  lemma LexPrefix(s: string, m: nat, k: nat)
    requires k <= m <= |s|
    ensures LexAt(s[..m], k) == LexAt(s, k)
  {
    assert s[..m][..k] == s[..k];
  }

  /** No semicolon in code. */
  ghost predicate Uncut(s: string) {
    forall p: nat :: p < |s| ==> !CutAt(s, p)
  }

  /** A stretch that begins in code lexes by itself as it does in place. */
  lemma StretchAlone(sql: string, a: nat, b: nat)
    requires a <= b <= |sql| && LexAt(sql, a) == Code
    requires forall x :: a <= x < b ==> !CutAt(sql, x)
    ensures Uncut(sql[a..b]) && LexAt(sql[a..b], b - a) == LexAt(sql, b)
  {
    hide LexAt;
    var s := sql[a..b];
    forall k: nat | k <= b - a ensures LexAt(s, k) == LexAt(sql, a + k) {
      assert s == sql[a..][..b - a];
      LexPrefix(sql[a..], b - a, k);
      LexSuffix(sql, a, k);
    }
    forall p: nat | p < |s| ensures !CutAt(s, p) {
      assert s[p] == sql[a + p] && !CutAt(sql, a + p);
    }
  }

  /** The piece being read began in code, and every piece cut off is self-contained. */
  lemma {:induction false} PiecesAreSelfContained(sql: string, n: nat)
    requires n <= |sql|
    ensures LexAt(sql, PieceStart(sql, n)) == Code
    ensures forall x :: PieceStart(sql, n) <= x < n ==> !CutAt(sql, x)
    ensures forall p :: p in Pieces(sql, n) ==> SelfContained(p)
  {
    hide Step;
    if n > 0 {
      PiecesAreSelfContained(sql, n - 1);
      if CutAt(sql, n - 1) {
        StretchAlone(sql, PieceStart(sql, n - 1), n - 1);
        LexNext(sql, n - 1);
        SemicolonInCode(LexAt(sql, n - 1));
      }
    }
  }

  // ----- Trimming -----

  /** A text that holds no cut and ends outside quotes and block comments. */
  ghost predicate Closed(s: string) {
    Uncut(s) && !Unterminated(LexAt(s, |s|))
  }

  /** Dollar bodies end with a dollar sign. */
  lemma {:induction false} TagsEndInDollar(s: string, n: nat)
    requires n <= |s|
    ensures LexAt(s, n).Dollar? ==> |LexAt(s, n).tag| > 0 && LexAt(s, n).tag[|LexAt(s, n).tag| - 1] == '$'
  {
    hide LexAt;
    if n > 0 {
      TagsEndInDollar(s, n - 1);
      LexNext(s, n - 1);
    } else {
      AtStart(s);
    }
  }

  /** White space closes nothing. */
  lemma WhitespaceCloses(s: string, n: nat)
    requires n < |s| && IsWhitespace(s[n]) && Unterminated(LexAt(s, n))
    ensures Unterminated(LexAt(s, n + 1))
  {
    hide LexAt;
    TagsEndInDollar(s, n);
    LexNext(s, n);
  }

  lemma {:induction false} TrimStartClosed(s: string)
    requires Closed(s)
    ensures Closed(TrimStart(s)) && (TrimStart(s) != [] ==> !IsWhitespace(TrimStart(s)[0]))
  {
    hide LexAt;
    if s != [] && IsWhitespace(s[0]) {
      AtStart(s);
      LexNext(s, 0);
      assert LexAt(s, 1) == Code;
      assert s[1..|s|] == s[1..];
      StretchAlone(s, 1, |s|);
      TrimStartClosed(s[1..]);
    }
  }

  lemma {:induction false} TrimEndClosed(s: string)
    requires Closed(s) && (s != [] ==> !IsWhitespace(s[0]))
    ensures Closed(TrimEnd(s)) && IsTrimmed(TrimEnd(s))
  {
    hide LexAt;
    if s != [] && IsWhitespace(s[|s| - 1]) {
      var init := s[..|s| - 1];
      forall p: nat | p < |init| ensures !CutAt(init, p) {
        LexPrefix(s, |s| - 1, p);
        assert !CutAt(s, p);
      }
      LexPrefix(s, |s| - 1, |s| - 1);
      if Unterminated(LexAt(s, |s| - 1)) {
        WhitespaceCloses(s, |s| - 1);
      }
      TrimEndClosed(init);
    }
  }

  lemma TrimClosed(s: string)
    requires Closed(s)
    ensures Closed(Trim(s)) && IsTrimmed(Trim(s))
  {
    TrimStartClosed(s);
    TrimEndClosed(TrimStart(s));
  }

  lemma {:induction false} KeptAreTrimmed(pieces: seq<string>)
    requires forall p :: p in pieces ==> Closed(p)
    ensures forall t :: t in Kept(pieces) ==> Closed(t) && IsTrimmed(t) && t != []
  {
    hide Closed, Trim, IsTrimmed;
    if pieces != [] {
      KeptAreTrimmed(pieces[..|pieces| - 1]);
      TrimClosed(pieces[|pieces| - 1]);
    }
  }

  /** at lists the pieces that are not all white space, in order, and the statements are those pieces trimmed. */
  ghost predicate TrimmedAt(pieces: seq<string>, statements: seq<string>, at: seq<nat>) {
    && |at| == |statements|
    && (forall x :: 0 <= x < |at| ==> at[x] < |pieces| && statements[x] == Trim(pieces[at[x]]))
    && (forall x, y :: 0 <= x < y < |at| ==> at[x] < at[y])
    && (forall p: nat :: p < |pieces| ==> (p in at <==> !AllWhitespace(pieces[p])))
  }

  lemma TrimsToNothing(s: string)
    ensures Trim(s) == [] <==> AllWhitespace(s)
  {
    hide Trim;
    var front, back := TrimIs(s);
    if Trim(s) != [] {
      assert s[|front|] == Trim(s)[0];
    } else {
      assert forall i :: 0 <= i < |s| ==> s[i] == if i < |front| then front[i] else back[i - |front|];
    }
  }

  /** Every piece with something in it becomes a statement, in order, and no other does. */
  lemma {:induction false} KeptExactly(pieces: seq<string>) returns (at: seq<nat>)
    ensures TrimmedAt(pieces, Kept(pieces), at)
  {
    hide Trim, AllWhitespace;
    if pieces == [] {
      at := [];
    } else {
      var n := |pieces| - 1;
      at := KeptExactly(pieces[..n]);
      TrimsToNothing(pieces[n]);
      assert forall p :: 0 <= p < n ==> pieces[..n][p] == pieces[p];
      if Trim(pieces[n]) != [] {
        at := at + [n];
      }
    }
  }

  lemma AllPiecesClosed(sql: string)
    requires !Unterminated(LexAt(sql, |sql|))
    ensures forall p :: p in AllPieces(sql) ==> Closed(p)
  {
    hide LexAt, Pieces, PieceStart;
    PiecesAreSelfContained(sql, |sql|);
    var start := PieceStart(sql, |sql|);
    assert sql[start..|sql|] == sql[start..];
    StretchAlone(sql, start, |sql|);
  }

  /** What the splitter returns: trimmed, not empty, without a semicolon in code, and ending outside quotes. */
  lemma StatementsAreClosed(sql: string)
    requires SplitSql(sql).Statements?
    ensures forall t :: t in SplitSql(sql).statements ==> Closed(t) && IsTrimmed(t) && t != []
  {
    hide Closed, LexAt, AllPieces, Kept, IsTrimmed, Unterminated;
    AllPiecesClosed(sql);
    KeptAreTrimmed(AllPieces(sql));
  }

  lemma {:induction false} UncutIsOnePiece(s: string, n: nat)
    requires Uncut(s) && n <= |s|
    ensures Pieces(s, n) == [] && PieceStart(s, n) == 0
  {
    hide LexAt;
    if n > 0 {
      UncutIsOnePiece(s, n - 1);
    }
  }

  /** Splitting a statement again gives just that statement. */
  lemma ResplitIsIdentity(sql: string, t: string)
    requires SplitSql(sql).Statements? && t in SplitSql(sql).statements
    ensures SplitSql(t) == Statements([t])
  {
    hide LexAt, Trim, SplitSql;
    StatementsAreClosed(sql);
    UncutIsOnePiece(t, |t|);
    TrimKeepsTrimmed(t);
    assert t[0..] == t && [] + [t] == [t];
    assert AllPieces(t) == [t];
    KeptAppend([], t);
    SplitOf(t);
  }

  lemma SplitOf(t: string)
    requires !Unterminated(LexAt(t, |t|)) && AllPieces(t) == [t]
    ensures SplitSql(t) == Statements(Kept([t])) && Kept([]) == []
  {
  }

  // ----- The body of a statement -----

  /** A comment begins here. */
  predicate OpensAt(s: string, x: nat) {
    x + 1 < |s| && ((s[x] == '-' && s[x + 1] == '-') || (s[x] == '/' && s[x + 1] == '*'))
  }

  /** White space, or part of a comment that the lexer reads. */
  ghost predicate Trivia(s: string, x: nat)
    requires x < |s|
  {
    || IsWhitespace(s[x])
    || LexAt(s, x).LineComment? || LexAt(s, x).Block?
    || (LexAt(s, x) == Code && OpensAt(s, x))
    || (x > 0 && LexAt(s, x - 1) == Code && OpensAt(s, x - 1))
  }

  ghost predicate AllTrivia(s: string, n: nat) {
    n <= |s| && forall x: nat :: x < n ==> Trivia(s, x)
  }

  /** Reading white space in code stays in code. */
  lemma SpaceStep(s: string, i: nat)
    requires i < |s| && AllTrivia(s, i) && LexAt(s, i) == Code && IsWhitespace(s[i])
    ensures AllTrivia(s, i + 1) && LexAt(s, i + 1) == Code
  {
    hide LexAt;
    LexNext(s, i);
  }

  /** Reading the two characters that open a comment. */
  lemma OpenStep(s: string, i: nat)
    requires i < |s| && AllTrivia(s, i) && LexAt(s, i) == Code && OpensAt(s, i)
    ensures AllTrivia(s, i + 2)
    ensures Synced(s, i + 2, if s[i] == '-' then LineMode else BlockMode(1))
  {
    hide LexAt;
    if s[i] == '-' {
      OpensLineComment(s, i);
    } else {
      OpensBlockComment(s, i);
    }
    assert Trivia(s, i) && Trivia(s, i + 1);
  }

  lemma LineStep(s: string, i: nat)
    requires i < |s| && AllTrivia(s, i) && LexAt(s, i) == LineComment
    ensures AllTrivia(s, i + 1) && LexAt(s, i + 1) == if s[i] == '\n' then Code else LineComment
  {
    hide LexAt;
    LexNext(s, i);
  }

  /** The end of a line comment: the newline, or the end of the statement. */
  method SkipLine(s: string, from: nat) returns (i: nat)
    requires from <= |s| && AllTrivia(s, from) && LexAt(s, from) == LineComment
    ensures from <= i <= |s| && AllTrivia(s, i)
    ensures LexAt(s, i) == Code || (i == |s| && LexAt(s, i) == LineComment)
  {
    hide AllTrivia, LexAt;
    i := from;
    while i < |s|
      invariant from <= i <= |s| && AllTrivia(s, i) && LexAt(s, i) == LineComment
    {
      LineStep(s, i);
      i := i + 1;
      if s[i - 1] == '\n' {
        return;
      }
    }
  }

  ghost predicate InBlock(s: string, i: nat, depth: nat) {
    i <= |s| && AllTrivia(s, i) && if depth == 0 then LexAt(s, i) == Code else Synced(s, i, BlockMode(depth))
  }

  lemma BlockPairStep(s: string, i: nat, depth: nat)
    requires depth > 0 && InBlock(s, i, depth) && i + 1 < |s|
    requires (s[i] == '/' && s[i + 1] == '*') || (s[i] == '*' && s[i + 1] == '/')
    ensures InBlock(s, i + 2, if s[i] == '/' then depth + 1 else depth - 1)
  {
    hide LexAt;
    InBlockPair(s, i, depth);
    LexTwo(s, i);
    LexNext(s, i);
    assert Trivia(s, i) && Trivia(s, i + 1);
  }

  lemma BlockOtherStep(s: string, i: nat, depth: nat)
    requires depth > 0 && InBlock(s, i, depth) && i < |s|
    requires i + 1 < |s| ==> !(s[i] == '/' && s[i + 1] == '*') && !(s[i] == '*' && s[i + 1] == '/')
    ensures InBlock(s, i + 1, depth)
  {
    hide LexAt;
    InBlockOther(s, i, depth);
    assert Trivia(s, i);
  }

  /** The end of a block comment, counting nested ones, or nothing if it has none. */
  method SkipBlock(s: string, from: nat) returns (end: Option<nat>)
    requires InBlock(s, from, 1)
    ensures end.Some? ==> from <= end.value && InBlock(s, end.value, 0)
    ensures end.None? ==> AllTrivia(s, |s|) && LexAt(s, |s|).Block?
  {
    hide InBlock;
    var i, depth := from, 1;
    assert i <= |s| by { BlockMeans(s, i, depth); }
    while i < |s| && depth > 0
      invariant from <= i <= |s| && InBlock(s, i, depth)
      decreases |s| - i
    {
      if i + 1 < |s| && s[i] == '/' && s[i + 1] == '*' {
        BlockPairStep(s, i, depth);
        depth, i := depth + 1, i + 2;
      } else if i + 1 < |s| && s[i] == '*' && s[i + 1] == '/' {
        BlockPairStep(s, i, depth);
        depth, i := depth - 1, i + 2;
      } else {
        BlockOtherStep(s, i, depth);
        i := i + 1;
      }
    }
    BlockMeans(s, i, depth);
    end := if depth == 0 then Some(i) else None;
  }

  lemma BlockMeans(s: string, i: nat, depth: nat)
    requires InBlock(s, i, depth)
    ensures i <= |s| && AllTrivia(s, i) && (depth > 0 ==> LexAt(s, i).Block?)
  {
  }

  /** All comment, and the last one is never closed. */
  ghost predicate NoBody(s: string) {
    AllTrivia(s, |s|) && LexAt(s, |s|).Block?
  }

  /**
   * Where the body of a statement begins: after exactly the longest stretch of white
   * space and comments. There is no answer exactly when the statement is all comment
   * and ends inside a block comment.
   */
  method LeadingSqlBodyStart(s: string) returns (start: Option<nat>)
    ensures start.Some? ==>
              && AllTrivia(s, start.value)
              && (start.value < |s| ==> LexAt(s, start.value) == Code && !Trivia(s, start.value))
              && (start.value == |s| ==> LexAt(s, |s|) == Code || LexAt(s, |s|) == LineComment)
    ensures start.None? <==> NoBody(s)
  {
    hide LexAt, AllTrivia, Trivia;
    var i := 0;
    assert AllTrivia(s, 0) && LexAt(s, 0) == Code by { NoTriviaYet(s); }
    while i < |s|
      invariant i <= |s| && AllTrivia(s, i)
      invariant LexAt(s, i) == Code || (i == |s| && LexAt(s, i) == LineComment)
      decreases |s| - i
    {
      ghost var was := i;
      while i < |s| && IsWhitespace(s[i])
        invariant was <= i <= |s| && AllTrivia(s, i) && LexAt(s, i) == Code
      {
        SpaceStep(s, i);
        i := i + 1;
      }
      if OpensAt(s, i) && s[i] == '-' {
        OpenStep(s, i);
        i := SkipLine(s, i + 2);
      } else if OpensAt(s, i) {
        OpenStep(s, i);
        var end := SkipBlock(s, i + 2);
        if end.None? {
          return None;
        }
        i := end.value;
      } else {
        break;
      }
    }
    if i < |s| {
      BodyBegins(s, i);
    }
    start := Some(i);
  }

  /** A character in code that is neither white space nor opens a comment is not trivia. */
  lemma BodyBegins(s: string, i: nat)
    requires i < |s| && LexAt(s, i) == Code && !IsWhitespace(s[i]) && !OpensAt(s, i)
    ensures !Trivia(s, i) && !AllTrivia(s, |s|)
  {
    hide LexAt;
    if i > 0 {
      LexNext(s, i - 1);
    }
  }

  lemma NoTriviaYet(s: string)
    ensures AllTrivia(s, 0) && LexAt(s, 0) == Code
  {
  }

  /**
   * Skipping what stands before the body keeps its meaning: no semicolon in code is
   * skipped, and the body alone lexes, and is cut, as it is in place.
   */
  lemma BodyLexesAlone(s: string, start: nat, k: nat)
    requires AllTrivia(s, start) && LexAt(s, start) == Code && start + k < |s|
    ensures LexAt(s[start..], k) == LexAt(s, start + k)
    ensures CutAt(s[start..], k) <==> CutAt(s, start + k)
    ensures forall x :: 0 <= x < start ==> !CutAt(s, x)
  {
    hide LexAt;
    LexSuffix(s, start, k);
    forall x | 0 <= x < start ensures !CutAt(s, x) {
      assert Trivia(s, x);
    }
  }

  /** On a statement from the splitter the scan never fails. */
  lemma StatementsHaveBodies(sql: string, t: string)
    requires SplitSql(sql).Statements? && t in SplitSql(sql).statements
    ensures !NoBody(t)
  {
    hide LexAt, SplitSql;
    StatementsAreClosed(sql);
  }

  /** A statement is what stands before its body, all white space and comments, and its body. */
  ghost predicate BodyOf(t: string, body: string) {
    && |body| <= |t| && body == t[|t| - |body|..] && AllTrivia(t, |t| - |body|)
    && (body != [] ==> LexAt(t, |t| - |body|) == Code && !Trivia(t, |t| - |body|))
  }

  /** The bodies of the statements of an artifact. The scan for a body fails on none of them. */
  method StatementBodies(sql: string) returns (bodies: Option<seq<string>>)
    ensures bodies.Some? <==> SplitSql(sql).Statements?
    ensures bodies.Some? ==>
              var statements := SplitSql(sql).statements;
              && |bodies.value| == |statements|
              && forall k :: 0 <= k < |statements| ==> BodyOf(statements[k], bodies.value[k])
  {
    hide LexAt, AllTrivia, Trivia, SplitSql, NoBody;
    var split := SplitSqlStatements(sql);
    if split.UnterminatedSql? {
      return None;
    }
    var found: seq<string> := [];
    for k := 0 to |split.statements|
      invariant |found| == k && forall l :: 0 <= l < k ==> BodyOf(split.statements[l], found[l])
    {
      var t := split.statements[k];
      StatementsHaveBodies(sql, t);
      var start := LeadingSqlBodyStart(t);
      BoundOf(t, start.value);
      found := found + [t[start.value..]];
    }
    bodies := Some(found);
  }

  lemma BoundOf(s: string, n: nat)
    requires AllTrivia(s, n)
    ensures n <= |s|
  {
  }
}
