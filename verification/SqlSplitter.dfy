/**
 * splitSqlStatements as it runs: flags, a nesting counter, an index that skips
 * over pairs and tags it has looked ahead at. It is proved to follow the
 * character-by-character lexer.
 */
module SqlSplitter {
  import opened Basics
  import opened SqlLexer

  // ----- Dollar tags -----

  function WordEnd(sql: string, k: nat): (e: nat)
    requires k <= |sql|
    ensures k <= e <= |sql|
    ensures forall x :: k <= x < e ==> IsWord(sql[x])
    ensures e < |sql| ==> !IsWord(sql[e])
    decreases |sql| - k
  {
    if k < |sql| && IsWord(sql[k]) then WordEnd(sql, k + 1) else k
  }

  /** The dollar tag that starts at i, if one does. */
  function DollarTag(sql: string, i: nat): (tag: Option<string>)
    requires i < |sql| && sql[i] == '$'
    ensures tag.Some? ==> TagShape(tag.value) && StartsWith(sql, tag.value, i)
  {
    if i + 1 < |sql| && sql[i + 1] == '$' then Some(sql[i..i + 2])
    else if i + 1 < |sql| && IsLetter(sql[i + 1]) then
      var e := WordEnd(sql, i + 2);
      if e < |sql| && sql[e] == '$' then Some(sql[i..e + 1]) else None
    else None
  }

  predicate StartsWith(sql: string, tag: string, i: nat) {
    i + |tag| <= |sql| && sql[i..i + |tag|] == tag
  }

  /** Dollar signs at both ends and nowhere else. */
  predicate TagShape(tag: string) {
    && |tag| >= 2 && tag[0] == '$' && tag[|tag| - 1] == '$'
    && (|tag| > 2 ==> IsLetter(tag[1]))
    && forall k :: 1 < k < |tag| - 1 ==> IsWord(tag[k])
  }

  /** The beginning of a tag: a dollar sign and a name. */
  predicate TagStart(t: string) {
    |t| >= 1 && t[0] == '$' && (|t| > 1 ==> IsLetter(t[1])) && forall k :: 1 < k < |t| ==> IsWord(t[k])
  }

  // ----- What the loop knows about the lexer -----

  /** The flags of the loop. */
  datatype Mode = CodeMode | LineMode | BlockMode(depth: nat) | DollarMode(tag: string) | SingleMode | DoubleMode

  /** In code, nothing pending that the next character would complete. */
  ghost predicate CodeAligned(sql: string, i: nat, s: Lex) {
    match s
    case Code => true
    case Dash => i < |sql| ==> sql[i] != '-'
    case Slash => i < |sql| ==> sql[i] != '*'
    case SingleEnd => i < |sql| ==> sql[i] != '\''
    case DoubleEnd => i < |sql| ==> sql[i] != '"'
    case Opening(t) =>
      TagStart(t) && |t| <= i <= |sql| && sql[i - |t|..i] == t && DollarTag(sql, i - |t|).None?
    case _ => false
  }

  ghost predicate Aligned(sql: string, i: nat, mode: Mode, s: Lex) {
    match mode
    case CodeMode => CodeAligned(sql, i, s)
    case LineMode => s == LineComment
    case BlockMode(depth) =>
      s.Block? && s.depth == depth >= 1
      && (i < |sql| ==> !(s.seen == SeenStar && sql[i] == '/') && !(s.seen == SeenSlash && sql[i] == '*'))
    case DollarMode(tag) =>
      && TagShape(tag) && s.Dollar? && s.tag == tag && s.matched < |tag| && s.matched <= i <= |sql|
      && sql[i - s.matched..i] == tag[..s.matched]
      && (s.matched > 0 ==> !StartsWith(sql, tag, i - s.matched))
    case SingleMode => s == Single
    case DoubleMode => s == Double
  }

  ghost predicate Synced(sql: string, i: nat, mode: Mode) {
    i <= |sql| && Aligned(sql, i, mode, LexAt(sql, i))
  }

  /** Nothing is cut off between two positions. */
  ghost predicate NoCuts(sql: string, i: nat, j: nat) {
    i <= j <= |sql| && Pieces(sql, j) == Pieces(sql, i) && PieceStart(sql, j) == PieceStart(sql, i)
  }

  lemma {:induction false} NoSemicolons(sql: string, i: nat, j: nat)
    requires i <= j <= |sql| && forall x :: i <= x < j ==> sql[x] != ';' || !InCode(LexAt(sql, x))
    ensures NoCuts(sql, i, j)
  {
    if i < j {
      NoSemicolons(sql, i, j - 1);
      assert !CutAt(sql, j - 1);
    }
  }

  lemma LexTwo(sql: string, i: nat)
    requires i + 1 < |sql|
    ensures LexAt(sql, i + 2) == Step(Step(LexAt(sql, i), sql[i]), sql[i + 1])
  {
    hide Step;
    LexNext(sql, i);
    LexNext(sql, i + 1);
  }

  /** While a tag is being read that is not one, no dollar sign follows. */
  lemma NoTagNoDollar(sql: string, j: nat, i: nat)
    requires j < i < |sql| && TagStart(sql[j..i]) && DollarTag(sql, j).None?
    ensures sql[i] != '$'
  {
    var t := sql[j..i];
    if i > j + 1 {
      assert IsLetter(sql[j + 1]) by { assert t[1] == sql[j + 1]; }
      assert forall x :: j + 2 <= x < i ==> IsWord(sql[x]) by {
        forall x | j + 2 <= x < i ensures IsWord(sql[x]) {
          assert t[x - j] == sql[x];
        }
      }
      assert WordEnd(sql, j + 2) >= i;
    }
  }

  /** In code the next character is read fresh, unless it continues a name after a dollar sign. */
  lemma FreshStep(sql: string, i: nat, s: Lex)
    requires i < |sql| && CodeAligned(sql, i, s)
    ensures if s.Opening? && Continues(s.tag, sql[i]) then Step(s, sql[i]) == Opening(s.tag + [sql[i]])
            else Step(s, sql[i]) == CodeStep(sql[i])
  {
    if s.Opening? {
      NoTagNoDollar(sql, i - |s.tag|, i);
    }
  }

  predicate Special(c: char) {
    c == '-' || c == '/' || c == '\'' || c == '"' || c == '$'
  }

  lemma SpecialIsFresh(sql: string, i: nat)
    requires Synced(sql, i, CodeMode) && i < |sql| && Special(sql[i])
    ensures LexAt(sql, i + 1) == CodeStep(sql[i])
  {
    hide Step, CodeStep;
    FreshStep(sql, i, LexAt(sql, i));
    LexNext(sql, i);
  }

  // ----- One iteration in code -----

  lemma OpensLineComment(sql: string, i: nat)
    requires Synced(sql, i, CodeMode) && i + 1 < |sql| && sql[i] == '-' && sql[i + 1] == '-'
    ensures Synced(sql, i + 2, LineMode) && NoCuts(sql, i, i + 2)
  {
    SpecialIsFresh(sql, i);
    LexNext(sql, i + 1);
    NoSemicolons(sql, i, i + 2);
  }

  lemma OpensBlockComment(sql: string, i: nat)
    requires Synced(sql, i, CodeMode) && i + 1 < |sql| && sql[i] == '/' && sql[i + 1] == '*'
    ensures Synced(sql, i + 2, BlockMode(1)) && NoCuts(sql, i, i + 2)
  {
    SpecialIsFresh(sql, i);
    LexNext(sql, i + 1);
    NoSemicolons(sql, i, i + 2);
  }

  lemma OpensQuote(sql: string, i: nat)
    requires Synced(sql, i, CodeMode) && i < |sql| && (sql[i] == '\'' || sql[i] == '"')
    ensures Synced(sql, i + 1, if sql[i] == '\'' then SingleMode else DoubleMode) && NoCuts(sql, i, i + 1)
  {
    SpecialIsFresh(sql, i);
    NoSemicolons(sql, i, i + 1);
  }

  /** Reading a tag's name after its first dollar sign. */
  lemma {:induction false} ReadsTag(sql: string, i: nat, tag: string, k: nat)
    requires TagShape(tag) && StartsWith(sql, tag, i) && 1 <= k < |tag|
    requires LexAt(sql, i + 1) == Opening(['$'])
    ensures LexAt(sql, i + k) == Opening(tag[..k])
  {
    if k == 1 {
      assert tag[..1] == ['$'];
    } else {
      ReadsTag(sql, i, tag, k - 1);
      LexNext(sql, i + k - 1);
      assert sql[i + k - 1] == sql[i..i + |tag|][k - 1] == tag[k - 1];
      assert tag[..k] == tag[..k - 1] + [tag[k - 1]];
    }
  }

  lemma TagHasNoCuts(sql: string, i: nat, tag: string)
    requires TagShape(tag) && StartsWith(sql, tag, i)
    ensures NoCuts(sql, i, i + |tag|)
    ensures sql[i] == '$' && sql[i + |tag| - 1] == '$'
  {
    hide NoCuts;
    forall x | i <= x < i + |tag| ensures sql[x] == tag[x - i] && sql[x] != ';' {
      assert sql[x] == sql[i..i + |tag|][x - i];
    }
    NoSemicolons(sql, i, i + |tag|);
  }

  lemma OpensDollar(sql: string, i: nat)
    requires Synced(sql, i, CodeMode) && i < |sql| && sql[i] == '$' && DollarTag(sql, i).Some?
    ensures var tag := DollarTag(sql, i).value;
            i + |tag| <= |sql| && Synced(sql, i + |tag|, DollarMode(tag)) && NoCuts(sql, i, i + |tag|)
  {
    hide NoCuts, LexAt, DollarTag;
    var tag := DollarTag(sql, i).value;
    SpecialIsFresh(sql, i);
    ReadsTag(sql, i, tag, |tag| - 1);
    LexNext(sql, i + |tag| - 1);
    TagHasNoCuts(sql, i, tag);
    assert tag == tag[..|tag| - 1] + ['$'];
  }

  /** Any other character in code; only a semicolon cuts. */
  lemma StaysInCode(sql: string, i: nat)
    requires Synced(sql, i, CodeMode) && i < |sql|
    requires sql[i] != '\'' && sql[i] != '"'
    requires sql[i] == '-' ==> i + 1 == |sql| || sql[i + 1] != '-'
    requires sql[i] == '/' ==> i + 1 == |sql| || sql[i + 1] != '*'
    requires sql[i] == '$' ==> DollarTag(sql, i).None?
    ensures Synced(sql, i + 1, CodeMode)
    ensures CutAt(sql, i) <==> sql[i] == ';'
  {
    var s := LexAt(sql, i);
    FreshStep(sql, i, s);
    LexNext(sql, i);
    if s.Opening? && Continues(s.tag, sql[i]) {
      assert sql[i - |s.tag|..i + 1] == s.tag + [sql[i]];
    } else if sql[i] == '$' {
      assert sql[i..i + 1] == ['$'];
    }
  }

  lemma NoCutAtAll(sql: string, i: nat)
    requires i < |sql| && !CutAt(sql, i)
    ensures NoCuts(sql, i, i + 1)
  {
  }

  // ----- One iteration elsewhere -----

  lemma InLineComment(sql: string, i: nat)
    requires Synced(sql, i, LineMode) && i < |sql|
    ensures Synced(sql, i + 1, if sql[i] == '\n' then CodeMode else LineMode) && NoCuts(sql, i, i + 1)
  {
    LexNext(sql, i);
    NoSemicolons(sql, i, i + 1);
  }

  lemma InBlockPair(sql: string, i: nat, depth: nat)
    requires Synced(sql, i, BlockMode(depth)) && i + 1 < |sql|
    requires (sql[i] == '/' && sql[i + 1] == '*') || (sql[i] == '*' && sql[i + 1] == '/')
    ensures Synced(sql, i + 2, if sql[i] == '/' then BlockMode(depth + 1)
                               else if depth == 1 then CodeMode else BlockMode(depth - 1))
    ensures NoCuts(sql, i, i + 2)
  {
    LexTwo(sql, i);
    NoSemicolons(sql, i, i + 2);
  }

  lemma InBlockOther(sql: string, i: nat, depth: nat)
    requires Synced(sql, i, BlockMode(depth)) && i < |sql|
    requires i + 1 < |sql| ==> !(sql[i] == '/' && sql[i + 1] == '*') && !(sql[i] == '*' && sql[i + 1] == '/')
    ensures Synced(sql, i + 1, BlockMode(depth)) && NoCuts(sql, i, i + 1)
  {
    LexNext(sql, i);
    NoSemicolons(sql, i, i + 1);
  }

  lemma InQuote(sql: string, i: nat, single: bool)
    requires Synced(sql, i, if single then SingleMode else DoubleMode) && i < |sql|
    ensures var quote := if single then '\'' else '"';
            var mode := if single then SingleMode else DoubleMode;
            if sql[i] == quote && i + 1 < |sql| && sql[i + 1] == quote then
              Synced(sql, i + 2, mode) && NoCuts(sql, i, i + 2)
            else
              Synced(sql, i + 1, if sql[i] == quote then CodeMode else mode) && NoCuts(sql, i, i + 1)
  {
    LexNext(sql, i);
    var quote := if single then '\'' else '"';
    if sql[i] == quote && i + 1 < |sql| && sql[i + 1] == quote {
      LexTwo(sql, i);
      NoSemicolons(sql, i, i + 2);
    } else {
      NoSemicolons(sql, i, i + 1);
    }
  }

  /** A tag being matched: k of its characters read from position i on. */
  lemma {:induction false} MatchesTag(sql: string, i: nat, tag: string, k: nat)
    requires TagShape(tag) && StartsWith(sql, tag, i) && 1 <= k < |tag|
    requires LexAt(sql, i + 1) == Dollar(tag, 1)
    ensures LexAt(sql, i + k) == Dollar(tag, k)
  {
    if k > 1 {
      MatchesTag(sql, i, tag, k - 1);
      LexNext(sql, i + k - 1);
      assert sql[i + k - 1] == sql[i..i + |tag|][k - 1] == tag[k - 1];
    }
  }

  /** At the first character of a closing tag, whatever was matched before counts for nothing. */
  lemma ClosingStarts(sql: string, i: nat, tag: string)
    requires Synced(sql, i, DollarMode(tag)) && StartsWith(sql, tag, i)
    ensures LexAt(sql, i + 1) == Dollar(tag, 1)
  {
    hide LexAt;
    var m := LexAt(sql, i).matched;
    LexNext(sql, i);
    assert sql[i] == sql[i..i + |tag|][0] == '$';
    assert LexAt(sql, i + 1) == DollarStep(tag, m, '$');
    if m > 0 && tag[m] == '$' {
      MatchGoesOn(sql, i, tag, m);
    }
  }

  lemma ClosesDollar(sql: string, i: nat, tag: string)
    requires Synced(sql, i, DollarMode(tag)) && StartsWith(sql, tag, i)
    ensures Synced(sql, i + |tag|, CodeMode) && NoCuts(sql, i, i + |tag|)
  {
    hide NoCuts, LexAt;
    ClosingStarts(sql, i, tag);
    MatchesTag(sql, i, tag, |tag| - 1);
    LexNext(sql, i + |tag| - 1);
    TagHasNoCuts(sql, i, tag);
  }

  lemma InDollarBody(sql: string, i: nat, tag: string)
    requires Synced(sql, i, DollarMode(tag)) && i < |sql| && !StartsWith(sql, tag, i)
    ensures Synced(sql, i + 1, DollarMode(tag)) && NoCuts(sql, i, i + 1)
  {
    hide NoCuts, LexAt;
    var m := LexAt(sql, i).matched;
    LexNext(sql, i);
    NoSemicolons(sql, i, i + 1);
    assert LexAt(sql, i + 1) == DollarStep(tag, m, sql[i]);
    assert !StartsWith(sql, tag, i - m);
    if sql[i] == tag[m] {
      MatchGoesOn(sql, i, tag, m);
    } else if sql[i] == '$' {
      assert sql[i..i + 1] == tag[..1];
    } else {
      assert sql[i + 1..i + 1] == tag[..0];
    }
  }

  /** A match that goes on is still not the closing tag. */
  lemma MatchGoesOn(sql: string, i: nat, tag: string, m: nat)
    requires m <= i < |sql| && m < |tag| && sql[i - m..i] == tag[..m] && sql[i] == tag[m]
    requires !StartsWith(sql, tag, i - m)
    ensures m + 1 < |tag| && sql[i - m..i + 1] == tag[..m + 1]
  {
    assert sql[i - m..i + 1] == sql[i - m..i] + [sql[i]];
    assert tag[..m + 1] == tag[..m] + [tag[m]];
    assert tag[..|tag|] == tag;
  }

  // ----- The loop -----

  /** The flags as one mode; the loop tests them in this order. */
  function ModeOf(line: bool, block: nat, tag: Option<string>, single: bool, double: bool): Mode {
    if line then LineMode
    else if block > 0 then BlockMode(block)
    else if tag.Some? then DollarMode(tag.value)
    else if single then SingleMode
    else if double then DoubleMode
    else CodeMode
  }

  predicate AtMostOne(line: bool, block: nat, tag: Option<string>, single: bool, double: bool) {
    && (line ==> block == 0 && tag.None? && !single && !double)
    && (block > 0 ==> tag.None? && !single && !double)
    && (tag.Some? ==> !single && !double)
    && (single ==> !double)
  }

  lemma CutSteps(sql: string, i: nat)
    requires i < |sql| && CutAt(sql, i)
    ensures Pieces(sql, i + 1) == Pieces(sql, i) + [sql[PieceStart(sql, i)..i]] && PieceStart(sql, i + 1) == i + 1
  {
  }

  lemma EndIsUnterminated(sql: string, mode: Mode)
    requires Synced(sql, |sql|, mode)
    ensures Unterminated(LexAt(sql, |sql|)) <==> !mode.CodeMode? && !mode.LineMode?
  {
  }

  /** The splitter cuts exactly where the character-by-character lexer does. */
  method SplitSqlStatements(sql: string) returns (result: Split)
    ensures result == SplitSql(sql)
  {
    hide Synced, NoCuts, Step, LexAt, Pieces, PieceStart, CutAt, Kept, DollarTag, StartsWith, Unterminated, Trim;
    var statements: seq<string> := [];
    var start, i := 0, 0;
    var line, block, single, double := false, 0, false, false;
    var tag: Option<string> := None;
    SyncedAtStart(sql);
    while i < |sql|
      invariant Synced(sql, i, ModeOf(line, block, tag, single, double)) && i <= |sql|
      invariant AtMostOne(line, block, tag, single, double)
      invariant start == PieceStart(sql, i) && statements == Kept(Pieces(sql, i))
      decreases |sql| - i
    {
      NoCutsParts(sql, i);
      var c := sql[i];
      var paired := i + 1 < |sql|;
      if line {
        InLineComment(sql, i);
        line := c != '\n';
        i := i + 1;
      } else if block > 0 {
        if paired && c == '/' && sql[i + 1] == '*' {
          InBlockPair(sql, i, block);
          block, i := block + 1, i + 2;
        } else if paired && c == '*' && sql[i + 1] == '/' {
          InBlockPair(sql, i, block);
          block, i := block - 1, i + 2;
        } else {
          InBlockOther(sql, i, block);
          i := i + 1;
        }
      } else if tag.Some? {
        if StartsWith(sql, tag.value, i) {
          ClosesDollar(sql, i, tag.value);
          NonEmptyTag(sql, i, tag.value);
          i, tag := i + |tag.value|, None;
        } else {
          InDollarBody(sql, i, tag.value);
          i := i + 1;
        }
      } else if single {
        InQuote(sql, i, true);
        if c == '\'' && paired && sql[i + 1] == '\'' {
          i := i + 2;
        } else {
          single := c != '\'';
          i := i + 1;
        }
      } else if double {
        InQuote(sql, i, false);
        if c == '"' && paired && sql[i + 1] == '"' {
          i := i + 2;
        } else {
          double := c != '"';
          i := i + 1;
        }
      } else if paired && c == '-' && sql[i + 1] == '-' {
        OpensLineComment(sql, i);
        line, i := true, i + 2;
      } else if paired && c == '/' && sql[i + 1] == '*' {
        OpensBlockComment(sql, i);
        block, i := 1, i + 2;
      } else if c == '\'' || c == '"' {
        OpensQuote(sql, i);
        single, double, i := c == '\'', c == '"', i + 1;
      } else if c == '$' && DollarTag(sql, i).Some? {
        OpensDollar(sql, i);
        tag := DollarTag(sql, i);
        NonEmptyTag(sql, i, tag.value);
        i := i + |tag.value|;
      } else {
        StaysInCode(sql, i);
        if c == ';' {
          CutSteps(sql, i);
          KeptAppend(Pieces(sql, i), sql[start..i]);
          var statement := Trim(sql[start..i]);
          if statement != [] {
            statements := statements + [statement];
          }
          start := i + 1;
        } else {
          NoCutAtAll(sql, i);
        }
        i := i + 1;
      }
    }
    EndIsUnterminated(sql, ModeOf(line, block, tag, single, double));
    if single || double || block > 0 || tag.Some? {
      return UnterminatedSql;
    }
    KeptAppend(Pieces(sql, |sql|), sql[start..]);
    var tail := Trim(sql[start..]);
    if tail != [] {
      statements := statements + [tail];
    }
    return Statements(statements);
  }

  lemma SyncedAtStart(sql: string)
    ensures Synced(sql, 0, CodeMode) && PieceStart(sql, 0) == 0 && Kept(Pieces(sql, 0)) == []
  {
  }

  lemma NoCutsParts(sql: string, i: nat)
    ensures forall j: nat :: NoCuts(sql, i, j) ==>
              i <= j <= |sql| && Pieces(sql, j) == Pieces(sql, i) && PieceStart(sql, j) == PieceStart(sql, i)
  {
  }

  lemma NonEmptyTag(sql: string, i: nat, tag: string)
    requires Synced(sql, i, DollarMode(tag)) || (i < |sql| && sql[i] == '$' && DollarTag(sql, i) == Some(tag))
    ensures |tag| >= 2
  {
  }
}
