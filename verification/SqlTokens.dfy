/**
 * The lexer against the language it reads: any sequence of words, quoted texts, comments
 * and dollar-quoted bodies, printed the way SQL writes them, is one statement, whatever
 * semicolons and quotes the quoted parts hold.
 */
module SqlTokens {
  import opened Basics
  import opened SqlLexer

  /** Parts of a comment: text, or a comment inside it. */
  datatype Part = Words(text: string) | Inner(parts: seq<Part>)

  datatype Token =
    | Word(text: string)
    | SingleQuoted(text: string)
    | DoubleQuoted(text: string)
    | LineRemark(text: string)
    | BlockRemark(parts: seq<Part>)
    | DollarQuoted(name: string, text: string)

  predicate Lacks(s: string, chars: set<char>) {
    forall i :: 0 <= i < |s| ==> s[i] !in chars
  }

  predicate PlainParts(parts: seq<Part>) {
    forall i :: 0 <= i < |parts| ==>
      match parts[i]
      case Words(text) => Lacks(text, {'*', '/'})
      case Inner(inner) => PlainParts(inner)
  }

  predicate TagName(name: string) {
    name == [] || (IsLetter(name[0]) && forall i :: 1 <= i < |name| ==> IsWord(name[i]))
  }

  predicate WellFormed(t: Token) {
    match t
    case Word(text) => Lacks(text, {'-', '/', '\'', '"', '$', ';'})
    case SingleQuoted(_) => true
    case DoubleQuoted(_) => true
    case LineRemark(text) => Lacks(text, {'\n'})
    case BlockRemark(parts) => PlainParts(parts)
    case DollarQuoted(name, text) => TagName(name) && Lacks(text, {'$'})
  }

  /** A text with every quote doubled. */
  function Doubled(s: string, quote: char): string {
    if s == [] then [] else Doubled(s[..|s| - 1], quote) + if s[|s| - 1] == quote then [quote, quote] else [s[|s| - 1]]
  }

  function PrintParts(parts: seq<Part>): string {
    if parts == [] then []
    else
      PrintParts(parts[..|parts| - 1])
      + match parts[|parts| - 1]
        case Words(text) => text
        case Inner(inner) => "/*" + PrintParts(inner) + "*/"
  }

  function Print(t: Token): string {
    match t
    case Word(text) => text
    case SingleQuoted(text) => "'" + Doubled(text, '\'') + "'"
    case DoubleQuoted(text) => "\"" + Doubled(text, '"') + "\""
    case LineRemark(text) => "--" + text + "\n"
    case BlockRemark(parts) => "/*" + PrintParts(parts) + "*/"
    case DollarQuoted(name, text) => ("$" + name + "$") + text + ("$" + name + "$")
  }

  function PrintAll(tokens: seq<Token>): string {
    if tokens == [] then [] else PrintAll(tokens[..|tokens| - 1]) + Print(tokens[|tokens| - 1]) + " "
  }

  // ----- Reading a stretch -----

  /** From one state the text leads to another, and no semicolon in it is read in code. */
  ghost predicate Passes(a: Lex, text: string, b: Lex) {
    LexFrom(a, text) == b && forall k: nat :: k < |text| && text[k] == ';' ==> !InCode(LexFrom(a, text[..k]))
  }

  lemma PassNothing(a: Lex)
    ensures Passes(a, [], a)
  {
  }

  lemma PassChar(a: Lex, c: char)
    requires c == ';' ==> !InCode(a)
    ensures Passes(a, [c], Step(a, c))
  {
    hide Step, InCode;
    assert [c][..0] == [] && LexFrom(a, []) == a;
    assert LexFrom(a, [c]) == Step(a, c);
    forall k: nat | k < |[c]| && [c][k] == ';' ensures !InCode(LexFrom(a, [c][..k])) {
      assert k == 0;
    }
  }

  lemma PassBoth(a: Lex, s: string, b: Lex, t: string, c: Lex)
    requires Passes(a, s, b) && Passes(b, t, c)
    ensures Passes(a, s + t, c)
  {
    hide Step, InCode;
    LexConcat(a, s, t);
    var all := s + t;
    forall k: nat | k < |all| && all[k] == ';' ensures !InCode(LexFrom(a, all[..k])) {
      if k < |s| {
        assert all[..k] == s[..k] && s[k] == ';';
      } else {
        assert all[..k] == s + t[..k - |s|] && t[k - |s|] == ';';
        LexConcat(a, s, t[..k - |s|]);
      }
    }
  }

  lemma PassMore(a: Lex, s: string, b: Lex, c: char)
    requires Passes(a, s, b) && (c == ';' ==> !InCode(b))
    ensures Passes(a, s + [c], Step(b, c))
  {
    hide Step, InCode, Passes;
    PassChar(b, c);
    PassBoth(a, s, b, [c], Step(b, c));
  }

  // ----- Tokens -----

  lemma {:induction false} PassSame(a: Lex, s: string)
    requires forall i :: 0 <= i < |s| ==> Step(a, s[i]) == a && (s[i] == ';' ==> !InCode(a))
    ensures Passes(a, s, a)
  {
    hide Step, InCode, Passes;
    if s == [] {
      PassNothing(a);
    } else {
      var n := |s| - 1;
      PassSame(a, s[..n]);
      PassMore(a, s[..n], a, s[n]);
      assert s == s[..n] + [s[n]];
    }
  }

  lemma {:induction false} PassSingle(s: string)
    ensures Passes(Single, Doubled(s, '\''), Single)
  {
    hide Passes;
    if s == [] {
      PassNothing(Single);
    } else {
      var n := |s| - 1;
      var before := Doubled(s[..n], '\'');
      PassSingle(s[..n]);
      PassMore(Single, before, Single, s[n]);
      if s[n] == '\'' {
        PassMore(Single, before + ['\''], SingleEnd, '\'');
        assert before + ['\''] + ['\''] == before + ['\'', '\''];
      }
    }
  }

  lemma {:induction false} PassDouble(s: string)
    ensures Passes(Double, Doubled(s, '"'), Double)
  {
    hide Passes;
    if s == [] {
      PassNothing(Double);
    } else {
      var n := |s| - 1;
      var before := Doubled(s[..n], '"');
      PassDouble(s[..n]);
      PassMore(Double, before, Double, s[n]);
      if s[n] == '"' {
        PassMore(Double, before + ['"'], DoubleEnd, '"');
        assert before + ['"'] + ['"'] == before + ['"', '"'];
      }
    }
  }

  /** Two characters, then a stretch, then two more. */
  lemma PassAround(a: Lex, open: string, b: Lex, text: string, c: Lex, close: string, d: Lex)
    requires Passes(a, open, b) && Passes(b, text, c) && Passes(c, close, d)
    ensures Passes(a, open + text + close, d)
  {
    hide Passes;
    PassBoth(a, open, b, text, c);
    PassBoth(a, open + text, c, close, d);
  }

  lemma PassTwo(a: Lex, x: char, y: char)
    requires x != ';' && y != ';'
    ensures Passes(a, [x, y], Step(Step(a, x), y))
  {
    hide Step, Passes, InCode;
    PassChar(a, x);
    PassMore(a, [x], Step(a, x), y);
    assert [x] + [y] == [x, y];
  }

  /** The parts of a comment leave the depth as it was. */
  lemma {:induction false} PassParts(parts: seq<Part>, depth: nat)
    requires PlainParts(parts) && depth > 0
    ensures Passes(Block(depth, Plain), PrintParts(parts), Block(depth, Plain))
    decreases parts
  {
    var here := Block(depth, Plain);
    if parts == [] {
      PassNothing(here);
    } else {
      var n := |parts| - 1;
      PassParts(parts[..n], depth);
      match parts[n]
      case Words(text) =>
        PassSame(here, text);
        PassBoth(here, PrintParts(parts[..n]), here, text, here);
      case Inner(inner) =>
        PassParts(inner, depth + 1);
        PassTwo(here, '/', '*');
        PassTwo(Block(depth + 1, Plain), '*', '/');
        PassAround(here, "/*", Block(depth + 1, Plain), PrintParts(inner), Block(depth + 1, Plain), "*/", here);
        PassBoth(here, PrintParts(parts[..n]), here, "/*" + PrintParts(inner) + "*/", here);
    }
  }

  /** The name of a dollar tag after its first dollar sign. */
  lemma {:induction false} PassName(name: string)
    requires TagName(name)
    ensures Passes(Opening("$"), name, Opening("$" + name))
  {
    hide Passes;
    if name == [] {
      PassNothing(Opening("$"));
      assert "$" + name == "$";
    } else {
      var n := |name| - 1;
      PassName(name[..n]);
      PassMore(Opening("$"), name[..n], Opening("$" + name[..n]), name[n]);
      assert name == name[..n] + [name[n]];
      assert ("$" + name[..n]) + [name[n]] == "$" + name;
    }
  }

  lemma PassOpening(name: string)
    requires TagName(name)
    ensures Passes(Code, "$" + name + "$", Dollar("$" + name + "$", 0))
  {
    hide Passes, TagName;
    PassChar(Code, '$');
    PassName(name);
    PassBoth(Code, "$", Opening("$"), name, Opening("$" + name));
    PassMore(Code, "$" + name, Opening("$" + name), '$');
  }

  /** The closing tag, k characters of it. */
  lemma {:induction false} PassClosing(tag: string, k: nat)
    requires |tag| >= 2 && k < |tag| && Lacks(tag, {';'})
    ensures Passes(Dollar(tag, 0), tag[..k], Dollar(tag, k))
  {
    hide Passes;
    if k == 0 {
      PassNothing(Dollar(tag, 0));
    } else {
      PassClosing(tag, k - 1);
      PassMore(Dollar(tag, 0), tag[..k - 1], Dollar(tag, k - 1), tag[k - 1]);
      assert tag[..k] == tag[..k - 1] + [tag[k - 1]];
    }
  }

  lemma PassDollar(name: string, text: string)
    requires TagName(name) && Lacks(text, {'$'})
    ensures Passes(Code, ("$" + name + "$") + text + ("$" + name + "$"), Code)
  {
    var tag := "$" + name + "$";
    var n := |tag| - 1;
    assert tag[0] == '$' && tag[n] == '$';
    assert Lacks(tag, {';'});
    hide Passes, TagName;
    PassOpening(name);
    PassSame(Dollar(tag, 0), text);
    PassClosing(tag, n);
    PassMore(Dollar(tag, 0), tag[..n], Dollar(tag, n), '$');
    assert tag == tag[..n] + ['$'];
    PassAround(Code, tag, Dollar(tag, 0), text, Dollar(tag, 0), tag, Code);
  }

  predicate Settles(s: Lex) {
    s == Code || s == SingleEnd || s == DoubleEnd
  }

  /** A token leads from code to code, or to where a quote has just closed. */
  lemma PassToken(t: Token) returns (end: Lex)
    requires WellFormed(t)
    ensures Settles(end) && Passes(Code, Print(t), end)
  {
    match t
    case Word(text) =>
      PassSame(Code, text);
      end := Code;
    case SingleQuoted(text) =>
      PassChar(Code, '\'');
      PassSingle(text);
      PassChar(Single, '\'');
      PassAround(Code, "'", Single, Doubled(text, '\''), Single, "'", SingleEnd);
      end := SingleEnd;
    case DoubleQuoted(text) =>
      PassChar(Code, '"');
      PassDouble(text);
      PassChar(Double, '"');
      PassAround(Code, "\"", Double, Doubled(text, '"'), Double, "\"", DoubleEnd);
      end := DoubleEnd;
    case LineRemark(text) =>
      PassTwo(Code, '-', '-');
      PassSame(LineComment, text);
      PassChar(LineComment, '\n');
      PassAround(Code, "--", LineComment, text, LineComment, "\n", Code);
      end := Code;
    case BlockRemark(parts) =>
      PassTwo(Code, '/', '*');
      PassParts(parts, 1);
      PassTwo(Block(1, Plain), '*', '/');
      PassAround(Code, "/*", Block(1, Plain), PrintParts(parts), Block(1, Plain), "*/", Code);
      end := Code;
    case DollarQuoted(name, text) =>
      PassDollar(name, text);
      end := Code;
  }

  lemma {:induction false} PassAll(tokens: seq<Token>)
    requires forall i :: 0 <= i < |tokens| ==> WellFormed(tokens[i])
    ensures Passes(Code, PrintAll(tokens), Code)
  {
    hide Passes, WellFormed, Print, PrintAll;
    if tokens == [] {
      PassNothing(Code);
      PrintNone();
    } else {
      var n := |tokens| - 1;
      PassAll(tokens[..n]);
      assert tokens[n] in tokens;
      var end := PassToken(tokens[n]);
      PassBoth(Code, PrintAll(tokens[..n]), Code, Print(tokens[n]), end);
      PassMore(Code, PrintAll(tokens[..n]) + Print(tokens[n]), end, ' ');
      SpaceSettles(end);
      PrintOneMore(tokens);
    }
  }

  lemma SpaceSettles(end: Lex)
    requires Settles(end)
    ensures Step(end, ' ') == Code
  {
  }

  lemma PrintNone()
    ensures PrintAll([]) == []
  {
  }

  lemma PrintOneMore(tokens: seq<Token>)
    requires tokens != []
    ensures PrintAll(tokens) == PrintAll(tokens[..|tokens| - 1]) + Print(tokens[|tokens| - 1]) + [' ']
  {
    hide Print;
  }

  /**
   * Printed tokens are one self-contained statement: no semicolon inside quotes, comments
   * or dollar bodies ends it, however they nest and whatever they hold.
   */
  lemma TokensAreOneStatement(tokens: seq<Token>)
    requires forall i :: 0 <= i < |tokens| ==> WellFormed(tokens[i])
    ensures SelfContained(PrintAll(tokens))
  {
    hide WellFormed, PrintAll;
    PassAll(tokens);
    var s := PrintAll(tokens);
    assert s[..|s|] == s;
  }

  /** What an unfinished artifact can end with. */
  datatype Open =
    | OpenSingle(text: string)
    | OpenDouble(text: string)
    | OpenBlock(parts: seq<Part>)
    | OpenDollar(name: string, text: string)
    | OpenLine(text: string)

  predicate WellFormedOpen(o: Open) {
    match o
    case OpenSingle(_) => true
    case OpenDouble(_) => true
    case OpenBlock(parts) => PlainParts(parts)
    case OpenDollar(name, text) => TagName(name) && Lacks(text, {'$'})
    case OpenLine(text) => Lacks(text, {'\n'})
  }

  function PrintOpen(o: Open): string {
    match o
    case OpenSingle(text) => "'" + Doubled(text, '\'')
    case OpenDouble(text) => "\"" + Doubled(text, '"')
    case OpenBlock(parts) => "/*" + PrintParts(parts)
    case OpenDollar(name, text) => ("$" + name + "$") + text
    case OpenLine(text) => "--" + text
  }

  lemma PassOpen(o: Open) returns (end: Lex)
    requires WellFormedOpen(o)
    ensures Passes(Code, PrintOpen(o), end)
    ensures Unterminated(end) <==> !o.OpenLine?
  {
    match o
    case OpenSingle(text) =>
      PassChar(Code, '\'');
      PassSingle(text);
      end := Single;
      PassBoth(Code, "'", end, Doubled(text, '\''), end);
    case OpenDouble(text) =>
      PassChar(Code, '"');
      PassDouble(text);
      end := Double;
      PassBoth(Code, "\"", end, Doubled(text, '"'), end);
    case OpenBlock(parts) =>
      PassTwo(Code, '/', '*');
      PassParts(parts, 1);
      end := Block(1, Plain);
      PassBoth(Code, "/*", end, PrintParts(parts), end);
    case OpenDollar(name, text) =>
      PassOpening(name);
      end := Dollar("$" + name + "$", 0);
      PassSame(end, text);
      PassBoth(Code, "$" + name + "$", end, text, end);
    case OpenLine(text) =>
      PassTwo(Code, '-', '-');
      PassSame(LineComment, text);
      end := LineComment;
      PassBoth(Code, "--", end, text, end);
  }

  /** After any tokens, an open quote, block comment or dollar body makes the artifact fail, and an open line comment does not. */
  lemma OpenEndsFail(tokens: seq<Token>, o: Open)
    requires WellFormedOpen(o) && forall i :: 0 <= i < |tokens| ==> WellFormed(tokens[i])
    ensures SplitSql(PrintAll(tokens) + PrintOpen(o)).UnterminatedSql? <==> !o.OpenLine?
  {
    hide WellFormed, PrintAll, PrintOpen, WellFormedOpen, Unterminated, AllPieces, Kept;
    PassAll(tokens);
    var end := PassOpen(o);
    PassBoth(Code, PrintAll(tokens), Code, PrintOpen(o), end);
    var s := PrintAll(tokens) + PrintOpen(o);
    assert s[..|s|] == s;
  }
}
