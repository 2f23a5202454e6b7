/**
 * Quoting one argv token for a Windows command line, and the rules by which
 * CommandLineToArgvW takes such a line apart again.
 */
module WindowsArguments {
  import opened Basics

  function Slashes(n: nat): (s: string)
    ensures |s| == n && forall i :: 0 <= i < n ==> s[i] == '\\'
  {
    if n == 0 then [] else Slashes(n - 1) + ['\\']
  }

  // ----- Quoting -----

  predicate NeedsQuotes(value: string) {
    value == [] || exists i :: 0 <= i < |value| && (IsWhitespace(value[i]) || value[i] == '"')
  }

  /** The text between the quotes for value[k..], with n backslashes held back. */
  function Body(value: string, k: nat, n: nat): string
    requires k <= |value|
    decreases |value| - k
  {
    if k == |value| then Slashes(2 * n)
    else if value[k] == '\\' then Body(value, k + 1, n + 1)
    else if value[k] == '"' then Slashes(2 * n + 1) + ['"'] + Body(value, k + 1, 0)
    else Slashes(n) + [value[k]] + Body(value, k + 1, 0)
  }

  function Quoted(value: string): string {
    if NeedsQuotes(value) then ['"'] + Body(value, 0, 0) + ['"'] else value
  }

  /** The loop of the source: one pass, holding back runs of backslashes. */
  method QuoteWindowsArgument(value: string) returns (result: string)
    ensures result == Quoted(value)
  {
    if !NeedsQuotes(value) {
      return value;
    }
    result := ['"'];
    var backslashes := 0;
    for k := 0 to |value|
      invariant result + Body(value, k, backslashes) == ['"'] + Body(value, 0, 0)
    {
      var c := value[k];
      ghost var rest := Body(value, k + 1, 0);
      if c == '\\' {
        backslashes := backslashes + 1;
      } else if c == '"' {
        assert result + (Slashes(2 * backslashes + 1) + ['"'] + rest)
            == (result + Slashes(backslashes * 2 + 1) + ['"']) + rest;
        result := result + Slashes(backslashes * 2 + 1) + ['"'];
        backslashes := 0;
      } else {
        assert result + (Slashes(backslashes) + [c] + rest) == (result + Slashes(backslashes) + [c]) + rest;
        result := result + Slashes(backslashes) + [c];
        backslashes := 0;
      }
    }
    result := result + Slashes(backslashes * 2) + ['"'];
  }

  /** Tokens joined by single spaces, as the scheduled-task XML has them. */
  function ArgumentLine(args: seq<string>): string {
    if args == [] then []
    else if |args| == 1 then Quoted(args[0])
    else ArgumentLine(args[..|args| - 1]) + [' '] + Quoted(args[|args| - 1])
  }

  // ----- Parsing -----

  /** How a parser reads a quote right after a closing quote; it has changed over the years. */
  datatype Rules = Rules(doubledIsLiteral: bool, staysQuoted: bool)

  /** Between tokens, or inside one: its text so far, whether quoted, backslashes not yet read, just closed. */
  datatype Mode = Between | Inside(text: string, quoted: bool, slashes: nat, closed: bool)

  datatype State = State(args: seq<string>, mode: Mode)

  const START: State := State([], Between)

  function Flush(m: Mode): string
    requires m.Inside?
  {
    m.text + Slashes(m.slashes)
  }

  /** One character of the command line. */
  function Step(rules: Rules, s: State, c: char): State {
    if s.mode.Between? && (c == ' ' || c == '\t') then s
    else
      var m := if s.mode.Between? then Inside([], false, 0, false) else s.mode;
      if c == '\\' then s.(mode := Inside(m.text, m.quoted, m.slashes + 1, false))
      else if c == '"' then
        if m.closed && rules.doubledIsLiteral then s.(mode := Inside(m.text + ['"'], rules.staysQuoted, 0, false))
        else if m.slashes % 2 == 1 then s.(mode := Inside(m.text + Slashes(m.slashes / 2) + ['"'], m.quoted, 0, false))
        else s.(mode := Inside(m.text + Slashes(m.slashes / 2), !m.quoted, 0, m.quoted))
      else if !m.quoted && (c == ' ' || c == '\t') then State(s.args + [Flush(m)], Between)
      else s.(mode := Inside(Flush(m) + [c], m.quoted, 0, false))
  }

  function Run(rules: Rules, s: State, line: string): State {
    if line == [] then s else Step(rules, Run(rules, s, line[..|line| - 1]), line[|line| - 1])
  }

  function ParseArguments(rules: Rules, line: string): seq<string> {
    var s := Run(rules, START, line);
    if s.mode.Between? then s.args else s.args + [Flush(s.mode)]
  }

  lemma {:induction false} RunConcat(rules: Rules, s: State, a: string, b: string)
    ensures Run(rules, s, a + b) == Run(rules, Run(rules, s, a), b)
  {
    hide Step;
    if b == [] {
      assert a + b == a;
    } else {
      RunConcat(rules, s, a, b[..|b| - 1]);
      assert (a + b)[..|a + b| - 1] == a + b[..|b| - 1];
    }
  }

  lemma RunOne(rules: Rules, s: State, c: char)
    ensures Run(rules, s, [c]) == Step(rules, s, c)
  {
    hide Step;
    assert [c][..0] == [];
  }

  lemma {:induction false} RunSlashes(rules: Rules, s: State, n: nat)
    requires s.mode.Inside?
    ensures Run(rules, s, Slashes(n))
            == if n == 0 then s else s.(mode := s.mode.(slashes := s.mode.slashes + n, closed := false))
  {
    if n > 0 {
      RunSlashes(rules, s, n - 1);
      assert Slashes(n)[..n - 1] == Slashes(n - 1);
    }
  }

  /** Reading n backslashes and then one more character from inside a quoted token. */
  lemma RunSlashesThen(rules: Rules, args: seq<string>, text: string, n: nat, c: char)
    ensures Run(rules, State(args, Inside(text, true, 0, false)), Slashes(n) + [c])
            == Step(rules, State(args, Inside(text, true, n, false)), c)
  {
    var s := State(args, Inside(text, true, 0, false));
    RunSlashes(rules, s, n);
    RunConcat(rules, s, Slashes(n), [c]);
    RunOne(rules, Run(rules, s, Slashes(n)), c);
  }

  /** The quoted body followed by the closing quote reads back as the value, backslashes held back included. */
  lemma {:induction false} BodyReadsBack(rules: Rules, args: seq<string>, text: string, value: string, k: nat, n: nat)
    requires k <= |value|
    ensures Run(rules, State(args, Inside(text, true, 0, false)), Body(value, k, n) + ['"'])
            == State(args, Inside(text + Slashes(n) + value[k..], false, 0, true))
    decreases |value| - k
  {
    hide Run;
    var s := State(args, Inside(text, true, 0, false));
    if k == |value| {
      RunSlashesThen(rules, args, text, 2 * n, '"');
      assert text + Slashes(n) + value[k..] == text + Slashes(n);
    } else if value[k] == '\\' {
      BodyReadsBack(rules, args, text, value, k + 1, n + 1);
      assert Slashes(n + 1) + value[k + 1..] == Slashes(n) + value[k..];
      assert text + Slashes(n + 1) + value[k + 1..] == text + Slashes(n) + value[k..];
    } else {
      var c := value[k];
      var head := Slashes(if c == '"' then 2 * n + 1 else n) + [c];
      var next := text + Slashes(n) + [c];
      RunSlashesThen(rules, args, text, if c == '"' then 2 * n + 1 else n, c);
      assert Run(rules, s, head) == State(args, Inside(next, true, 0, false));
      BodyReadsBack(rules, args, next, value, k + 1, 0);
      assert Body(value, k, n) + ['"'] == head + (Body(value, k + 1, 0) + ['"']);
      RunConcat(rules, s, head, Body(value, k + 1, 0) + ['"']);
      assert next + Slashes(0) + value[k + 1..] == text + Slashes(n) + value[k..];
    }
  }

  /** A token needing no quotes reads back as itself. */
  lemma {:induction false} BareReadsBack(rules: Rules, args: seq<string>, value: string)
    requires value != [] && forall i :: 0 <= i < |value| ==> !IsWhitespace(value[i]) && value[i] != '"'
    ensures var s := Run(rules, State(args, Between), value);
            s.args == args && s.mode.Inside? && !s.mode.quoted && !s.mode.closed && Flush(s.mode) == value
  {
    var init, c := value[..|value| - 1], value[|value| - 1];
    if init == [] {
      assert value == [c];
      assert Run(rules, State(args, Between), []) == State(args, Between);
    } else {
      BareReadsBack(rules, args, init);
    }
    assert value == init + [c];
  }

  /** After one printed token the parser holds exactly that token, unquoted. */
  lemma TokenReadsBack(rules: Rules, args: seq<string>, value: string)
    ensures var s := Run(rules, State(args, Between), Quoted(value));
            s.args == args && s.mode.Inside? && !s.mode.quoted && Flush(s.mode) == value
  {
    hide Run;
    if NeedsQuotes(value) {
      var s := State(args, Between);
      BodyReadsBack(rules, args, [], value, 0, 0);
      RunOne(rules, s, '"');
      RunConcat(rules, s, ['"'], Body(value, 0, 0) + ['"']);
      assert ['"'] + (Body(value, 0, 0) + ['"']) == Quoted(value);
      assert [] + Slashes(0) + value[0..] == value;
    } else {
      BareReadsBack(rules, args, value);
    }
  }

  lemma {:induction false} LineReadsBack(rules: Rules, args: seq<string>)
    requires args != []
    ensures var s := Run(rules, START, ArgumentLine(args));
            s.mode.Inside? && !s.mode.quoted && s.args + [Flush(s.mode)] == args
  {
    hide Step, Quoted, Run, Flush;
    var init, last := args[..|args| - 1], args[|args| - 1];
    if init == [] {
      TokenReadsBack(rules, [], last);
      assert args == [last];
    } else {
      LineReadsBack(rules, init);
      var s := Run(rules, START, ArgumentLine(init));
      RunConcat(rules, START, ArgumentLine(init), [' '] + Quoted(last));
      RunConcat(rules, s, [' '], Quoted(last));
      RunOne(rules, s, ' ');
      SpaceEndsToken(rules, s);
      TokenReadsBack(rules, init, last);
      assert ArgumentLine(args) == ArgumentLine(init) + ([' '] + Quoted(last));
      assert args == init + [last];
    }
  }

  lemma SpaceEndsToken(rules: Rules, s: State)
    requires s.mode.Inside? && !s.mode.quoted
    ensures Step(rules, s, ' ') == State(s.args + [Flush(s.mode)], Between)
  {
  }

  /**
   * Parsing undoes quoting: whatever the list, with empty strings, embedded quotes
   * and any runs of backslashes, and whichever way the parser reads doubled quotes.
   */
  lemma ParsingUndoesQuoting(rules: Rules, args: seq<string>)
    ensures ParseArguments(rules, ArgumentLine(args)) == args
  {
    if args != [] {
      LineReadsBack(rules, args);
    }
  }
}
