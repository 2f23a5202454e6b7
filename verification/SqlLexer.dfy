/**
 * A reference lexer for the SQL artifacts that reads one character at a time and
 * never looks ahead: line and nested block comments, quotes doubled inside quotes,
 * dollar-quoted bodies. Splitting at semicolons is defined by it.
 */
module SqlLexer {
  import opened Basics

  datatype Seen = Plain | SeenStar | SeenSlash

  /** Code, Dash, Slash, Opening, SingleEnd and DoubleEnd are code unless the next character makes a pair. */
  datatype Lex =
    | Code
    | Dash
    | Slash
    | Opening(tag: string)
    | LineComment
    | Block(depth: nat, seen: Seen)
    | Dollar(tag: string, matched: nat)
    | Single
    | SingleEnd
    | Double
    | DoubleEnd

  predicate IsLetter(c: char) {
    'a' <= c <= 'z' || 'A' <= c <= 'Z' || c == '_'
  }

  predicate IsWord(c: char) {
    IsLetter(c) || '0' <= c <= '9'
  }

  /** A character that continues a tag of which t has been read. */
  predicate Continues(t: string, c: char) {
    if |t| == 1 then IsLetter(c) else IsWord(c)
  }

  function CodeStep(c: char): Lex {
    if c == '-' then Dash
    else if c == '/' then Slash
    else if c == '\'' then Single
    else if c == '"' then Double
    else if c == '$' then Opening(['$'])
    else Code
  }

  function BlockStep(depth: nat, seen: Seen, c: char): Lex {
    if seen == SeenStar && c == '/' then (if depth <= 1 then Code else Block(depth - 1, Plain))
    else if seen == SeenSlash && c == '*' then Block(depth + 1, Plain)
    else Block(depth, if c == '*' then SeenStar else if c == '/' then SeenSlash else Plain)
  }

  function DollarStep(tag: string, matched: nat, c: char): Lex {
    if matched < |tag| && c == tag[matched] then
      (if matched + 1 == |tag| then Code else Dollar(tag, matched + 1))
    else Dollar(tag, if c == '$' then 1 else 0)
  }

  function Step(s: Lex, c: char): Lex {
    match s
    case Code => CodeStep(c)
    case Dash => if c == '-' then LineComment else CodeStep(c)
    case Slash => if c == '*' then Block(1, Plain) else CodeStep(c)
    case Opening(t) =>
      if c == '$' then Dollar(t + ['$'], 0) else if Continues(t, c) then Opening(t + [c]) else CodeStep(c)
    case LineComment => if c == '\n' then Code else LineComment
    case Block(depth, seen) => BlockStep(depth, seen, c)
    case Dollar(tag, matched) => DollarStep(tag, matched, c)
    case Single => if c == '\'' then SingleEnd else Single
    case SingleEnd => if c == '\'' then Single else CodeStep(c)
    case Double => if c == '"' then DoubleEnd else Double
    case DoubleEnd => if c == '"' then Double else CodeStep(c)
  }

  predicate InCode(s: Lex) {
    s.Code? || s.Dash? || s.Slash? || s.Opening? || s.SingleEnd? || s.DoubleEnd?
  }

  predicate Unterminated(s: Lex) {
    s.Block? || s.Dollar? || s.Single? || s.Double?
  }

  /** The state after reading text from state s. */
  function LexFrom(s: Lex, text: string): Lex {
    if text == [] then s else Step(LexFrom(s, text[..|text| - 1]), text[|text| - 1])
  }

  function LexAt(sql: string, n: nat): Lex
    requires n <= |sql|
  {
    LexFrom(Code, sql[..n])
  }

  lemma {:induction false} LexConcat(s: Lex, a: string, b: string)
    ensures LexFrom(s, a + b) == LexFrom(LexFrom(s, a), b)
  {
    hide Step;
    if b == [] {
      assert a + b == a;
    } else {
      LexConcat(s, a, b[..|b| - 1]);
      assert (a + b)[..|a + b| - 1] == a + b[..|b| - 1];
    }
  }

  lemma LexNext(sql: string, n: nat)
    requires n < |sql|
    ensures LexAt(sql, n + 1) == Step(LexAt(sql, n), sql[n])
  {
    hide Step;
    assert sql[..n + 1][..n] == sql[..n];
  }

  // ----- Splitting -----

  /** A semicolon read in code. */
  predicate CutAt(sql: string, p: nat)
    requires p < |sql|
  {
    sql[p] == ';' && InCode(LexAt(sql, p))
  }

  /** Where the piece being read began, after n characters. */
  function PieceStart(sql: string, n: nat): (start: nat)
    requires n <= |sql|
    ensures start <= n
  {
    if n == 0 then 0 else if CutAt(sql, n - 1) then n else PieceStart(sql, n - 1)
  }

  /** The pieces cut off in the first n characters, untrimmed. */
  function Pieces(sql: string, n: nat): seq<string>
    requires n <= |sql|
  {
    if n == 0 then []
    else if CutAt(sql, n - 1) then Pieces(sql, n - 1) + [sql[PieceStart(sql, n - 1)..n - 1]]
    else Pieces(sql, n - 1)
  }

  function AllPieces(sql: string): seq<string> {
    Pieces(sql, |sql|) + [sql[PieceStart(sql, |sql|)..]]
  }

  function Keep(statements: seq<string>, piece: string): seq<string> {
    if Trim(piece) == [] then statements else statements + [Trim(piece)]
  }

  /** The pieces trimmed, empty ones left out. */
  function Kept(pieces: seq<string>): seq<string> {
    if pieces == [] then [] else Keep(Kept(pieces[..|pieces| - 1]), pieces[|pieces| - 1])
  }

  datatype Split = Statements(statements: seq<string>) | UnterminatedSql

  function SplitSql(sql: string): Split {
    if Unterminated(LexAt(sql, |sql|)) then UnterminatedSql else Statements(Kept(AllPieces(sql)))
  }

  lemma KeptAppend(pieces: seq<string>, piece: string)
    ensures Kept(pieces + [piece]) == Keep(Kept(pieces), piece)
  {
    assert (pieces + [piece])[..|pieces|] == pieces;
  }

  // ----- Pieces rejoin -----

  /** Pieces with a semicolon after each. */
  function Terminated(pieces: seq<string>): string {
    if pieces == [] then [] else Terminated(pieces[..|pieces| - 1]) + pieces[|pieces| - 1] + [';']
  }

  /** Pieces with semicolons between them. */
  function Joined(pieces: seq<string>): string
    requires pieces != []
  {
    Terminated(pieces[..|pieces| - 1]) + pieces[|pieces| - 1]
  }

  lemma {:induction false} PiecesRejoinUpTo(sql: string, n: nat)
    requires n <= |sql|
    ensures Terminated(Pieces(sql, n)) + sql[PieceStart(sql, n)..n] == sql[..n]
  {
    hide LexAt, InCode, Terminated;
    if n == 0 {
      assert Terminated([]) == [] by { NothingTerminated(); }
    } else {
      PiecesRejoinUpTo(sql, n - 1);
      if CutAt(sql, n - 1) {
        CutRejoins(sql, n, Pieces(sql, n - 1), PieceStart(sql, n - 1));
      } else {
        PieceGoesOn(sql, n, Terminated(Pieces(sql, n - 1)), PieceStart(sql, n - 1));
      }
    }
  }

  lemma NothingTerminated()
    ensures Terminated([]) == []
  {
  }

  lemma TerminatedAppend(pieces: seq<string>, piece: string)
    ensures Terminated(pieces + [piece]) == Terminated(pieces) + piece + [';']
  {
    assert (pieces + [piece])[..|pieces|] == pieces;
  }

  /** A semicolon ends the piece being read. */
  lemma CutRejoins(sql: string, n: nat, pieces: seq<string>, start: nat)
    requires 0 < n <= |sql| && start <= n - 1 && sql[n - 1] == ';'
    requires Terminated(pieces) + sql[start..n - 1] == sql[..n - 1]
    ensures Terminated(pieces + [sql[start..n - 1]]) + sql[n..n] == sql[..n]
  {
    hide Terminated;
    TerminatedAppend(pieces, sql[start..n - 1]);
    assert sql[..n] == sql[..n - 1] + [';'];
    assert sql[n..n] == [];
  }

  /** Any other character goes into the piece being read. */
  lemma PieceGoesOn(sql: string, n: nat, before: string, start: nat)
    requires 0 < n <= |sql| && start <= n - 1
    requires before + sql[start..n - 1] == sql[..n - 1]
    ensures before + sql[start..n] == sql[..n]
  {
    assert sql[start..n] == sql[start..n - 1] + [sql[n - 1]];
    assert sql[..n] == sql[..n - 1] + [sql[n - 1]];
    assert before + (sql[start..n - 1] + [sql[n - 1]]) == (before + sql[start..n - 1]) + [sql[n - 1]];
  }

  /** The untrimmed pieces, joined by semicolons, are the input. */
  lemma PiecesRejoin(sql: string)
    ensures Joined(AllPieces(sql)) == sql
  {
    hide LexAt, CutAt, Pieces, PieceStart, Terminated;
    PiecesRejoinUpTo(sql, |sql|);
    var pieces, tail := Pieces(sql, |sql|), sql[PieceStart(sql, |sql|)..];
    assert (pieces + [tail])[..|pieces|] == pieces;
    assert sql[PieceStart(sql, |sql|)..|sql|] == tail && sql[..|sql|] == sql;
  }

  // ----- Joining and splitting -----

  /** A statement that lexes from code to code without a semicolon in code. */
  ghost predicate SelfContained(s: string) {
    InCode(LexAt(s, |s|)) && forall p: nat :: p < |s| ==> !CutAt(s, p)
  }

  lemma SemicolonInCode(s: Lex)
    requires InCode(s)
    ensures Step(s, ';') == Code
  {
  }

  /** A self-contained stretch read from code leaves the cuts as they were. */
  lemma {:induction false} StretchHasNoCuts(sql: string, from: nat, s: string, k: nat)
    requires from + |s| <= |sql| && sql[from..from + |s|] == s && k <= |s|
    requires LexAt(sql, from) == Code && SelfContained(s)
    ensures LexAt(sql, from + k) == LexAt(s, k)
    ensures Pieces(sql, from + k) == Pieces(sql, from) && PieceStart(sql, from + k) == PieceStart(sql, from)
  {
    hide Step;
    if k > 0 {
      StretchHasNoCuts(sql, from, s, k - 1);
      LexNext(sql, from + k - 1);
      LexNext(s, k - 1);
      assert sql[from + k - 1] == s[k - 1];
      assert !CutAt(s, k - 1);
    }
  }

  lemma AtStart(sql: string)
    ensures LexAt(sql, 0) == Code && Pieces(sql, 0) == [] && PieceStart(sql, 0) == 0
  {
  }

  lemma TerminatedShape(statements: seq<string>, rest: string)
    requires statements != []
    ensures var init, s := statements[..|statements| - 1], statements[|statements| - 1];
            var from := |Terminated(init)|;
            var sql := Terminated(statements) + rest;
            && sql == Terminated(init) + (s + [';'] + rest)
            && |Terminated(statements)| == from + |s| + 1
            && sql[from..from + |s|] == s && sql[from + |s|] == ';'
  {
    var init, s := statements[..|statements| - 1], statements[|statements| - 1];
    var t := Terminated(init);
    assert t + s + [';'] + rest == t + (s + [';'] + rest);
    assert (t + (s + [';'] + rest))[|t|..|t| + |s|] == s;
    assert (t + (s + [';'] + rest))[|t| + |s|] == ';';
  }

  /** Reading statements each followed by a semicolon cuts exactly them off. */
  lemma {:induction false} TerminatedSplits(statements: seq<string>, rest: string)
    requires forall i :: 0 <= i < |statements| ==> SelfContained(statements[i])
    ensures var sql := Terminated(statements) + rest;
            var n := |Terminated(statements)|;
            && LexAt(sql, n) == Code && Pieces(sql, n) == statements && PieceStart(sql, n) == n
  {
    hide Step, SelfContained, LexAt, Pieces, PieceStart, CutAt;
    var sql := Terminated(statements) + rest;
    if statements == [] {
      AtStart(sql);
    } else {
      var init, s := statements[..|statements| - 1], statements[|statements| - 1];
      TerminatedShape(statements, rest);
      TerminatedSplits(init, s + [';'] + rest);
      var from := |Terminated(init)|;
      StretchHasNoCuts(sql, from, s, |s|);
      CutsAfter(sql, from, s);
      assert statements == init + [s];
    }
  }

  lemma CutsAfter(sql: string, from: nat, s: string)
    requires from + |s| < |sql| && sql[from..from + |s|] == s && sql[from + |s|] == ';'
    requires SelfContained(s) && LexAt(sql, from + |s|) == LexAt(s, |s|) && PieceStart(sql, from + |s|) == from
    ensures LexAt(sql, from + |s| + 1) == Code && PieceStart(sql, from + |s| + 1) == from + |s| + 1
    ensures Pieces(sql, from + |s| + 1) == Pieces(sql, from + |s|) + [s]
  {
    SemicolonInCode(LexAt(s, |s|));
    LexNext(sql, from + |s|);
  }

  lemma EndsInCode(s: string)
    requires SelfContained(s)
    ensures !Unterminated(LexAt(s, |s|))
  {
  }

  lemma JoinedShape(init: seq<string>, last: string)
    ensures var from := |Terminated(init)|;
            var sql := Terminated(init) + last;
            |sql| == from + |last| && sql[from..from + |last|] == last && sql[from..] == last
  {
  }

  lemma JoinedPieces(init: seq<string>, last: string)
    requires SelfContained(last) && forall i :: 0 <= i < |init| ==> SelfContained(init[i])
    ensures var sql := Terminated(init) + last;
            AllPieces(sql) == init + [last] && LexAt(sql, |sql|) == LexAt(last, |last|)
  {
    hide Step, LexAt, Pieces, PieceStart, CutAt, Terminated, SelfContained;
    var sql := Terminated(init) + last;
    TerminatedSplits(init, last);
    JoinedShape(init, last);
    StretchHasNoCuts(sql, |Terminated(init)|, last, |last|);
  }

  lemma SplitJoined(init: seq<string>, last: string)
    requires SelfContained(last) && forall i :: 0 <= i < |init| ==> SelfContained(init[i])
    ensures SplitSql(Terminated(init) + last) == Statements(Kept(init + [last]))
  {
    hide LexAt, Terminated, Kept, SelfContained, Unterminated, AllPieces;
    JoinedPieces(init, last);
    EndsInCode(last);
  }

  /**
   * Joining self-contained statements with semicolons and splitting again returns
   * them trimmed and in order, empty ones left out.
   */
  lemma SplitUndoesJoin(statements: seq<string>)
    requires statements != [] && forall i :: 0 <= i < |statements| ==> SelfContained(statements[i])
    ensures SplitSql(Joined(statements)) == Statements(Kept(statements))
  {
    hide Terminated, Kept, SelfContained, SplitSql;
    var init, last := statements[..|statements| - 1], statements[|statements| - 1];
    SplitJoined(init, last);
    assert statements == init + [last];
  }
}
