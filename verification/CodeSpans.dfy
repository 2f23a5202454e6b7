/**
 * Commands travel to the user inside error messages as Markdown code spans and are
 * read back from there. The printer picks a fence wider than any run of backticks
 * in the command; the reader pairs fences of equal width, widest first.
 */
module CodeSpans {
  import opened Basics

  /** Only backticks from a up to b. */
  predicate Ticks(s: string, a: nat, b: nat) {
    a <= b <= |s| && forall i :: a <= i < b ==> s[i] == '`'
  }

  function Fence(width: nat): (s: string)
    ensures |s| == width && Ticks(s, 0, width)
  {
    if width == 0 then [] else Fence(width - 1) + ['`']
  }

  /** The backticks at the end of a text. */
  function Trailing(s: string): (n: nat)
    ensures n <= |s| && Ticks(s, |s| - n, |s|) && (n < |s| ==> s[|s| - n - 1] != '`')
  {
    if s == [] || s[|s| - 1] != '`' then 0
    else Trailing(s[..|s| - 1]) + 1
  }

  /** The length of the widest run of backticks. */
  function WidestRun(s: string): nat {
    if s == [] then 0
    else
      var w, n := WidestRun(s[..|s| - 1]), Trailing(s);
      if w < n then n else w
  }

  lemma {:induction false} NoWiderRun(s: string, a: nat, b: nat)
    requires Ticks(s, a, b)
    ensures b - a <= WidestRun(s)
  {
    if b < |s| {
      NoWiderRun(s[..|s| - 1], a, b);
    } else if a < b {
      var n := Trailing(s);
    }
  }

  /** The printer. */
  function CodeSpan(value: string): string {
    var fence := Fence(WidestRun(value) + 1);
    var padding := if value != [] && (value[0] == '`' || value[|value| - 1] == '`') then [' '] else [];
    fence + padding + value + padding + fence
  }

  // ----- The reader -----

  /** A run of exactly width backticks at p, with no backtick on either side. */
  predicate RunAt(m: string, p: nat, width: nat) {
    && width > 0 && Ticks(m, p, p + width)
    && (p > 0 ==> m[p - 1] != '`') && (p + width < |m| ==> m[p + width] != '`')
  }

  /** The first such run from a position on. */
  function NextRun(m: string, from: nat, width: nat): (p: Option<nat>)
    requires from <= |m|
    ensures p.Some? ==> from <= p.value && RunAt(m, p.value, width)
    ensures p.Some? ==> forall q :: from <= q < p.value ==> !RunAt(m, q, width)
    ensures p.None? ==> forall q :: from <= q <= |m| ==> !RunAt(m, q, width)
    decreases |m| - from
  {
    if RunAt(m, from, width) then Some(from) else if from == |m| then None else NextRun(m, from + 1, width)
  }

  /** The texts between fences of this width, paired from left to right. */
  function Contents(m: string, from: nat, width: nat): seq<string>
    requires from <= |m| && width > 0
    decreases |m| - from
  {
    var open := NextRun(m, from, width);
    if open.None? then []
    else
      var start := open.value + width;
      var close := NextRun(m, start, width);
      if close.None? then [] else [m[start..close.value]] + Contents(m, close.value + width, width)
  }

  const COMMAND: string := "raft-computer"

  predicate WordChar(c: char) {
    'a' <= c <= 'z' || 'A' <= c <= 'Z' || '0' <= c <= '9' || c == '_'
  }

  predicate NamedAt(s: string, p: nat) {
    && p + |COMMAND| <= |s| && s[p..p + |COMMAND|] == COMMAND
    && (p > 0 ==> !WordChar(s[p - 1]))
    && (p + |COMMAND| < |s| ==> !WordChar(s[p + |COMMAND|]))
  }

  /** The command's name stands in the text as a word. */
  predicate Mentions(s: string) {
    exists p: nat :: p <= |s| && NamedAt(s, p)
  }

  /** The commands among these texts, trimmed, each once. */
  function Commands(contents: seq<string>): seq<string> {
    if contents == [] then []
    else
      var before, command := Commands(contents[..|contents| - 1]), Trim(contents[|contents| - 1]);
      if Mentions(command) && command !in before then before + [command] else before
  }

  /** The widths of the runs of a message, up to a bound: each once, widest first. */
  function WidthsUpTo(m: string, bound: nat): (widths: seq<nat>)
    ensures forall i :: 0 <= i < |widths| ==> 0 < widths[i] <= bound
    ensures forall i, j :: 0 <= i < j < |widths| ==> widths[i] > widths[j]
    ensures forall i :: 0 <= i < |widths| ==> IsWidth(m, widths[i])
  {
    if bound == 0 then []
    else if NextRun(m, 0, bound).Some? then [bound] + WidthsUpTo(m, bound - 1)
    else WidthsUpTo(m, bound - 1)
  }

  ghost predicate IsWidth(m: string, width: nat) {
    exists p: nat :: RunAt(m, p, width)
  }

  lemma {:induction false} WidthsComplete(m: string, bound: nat, width: nat)
    requires IsWidth(m, width) && width <= bound
    ensures width in WidthsUpTo(m, bound)
  {
    hide RunAt;
    var p: nat :| RunAt(m, p, width);
    assert 0 < width && p <= |m| by { RunInside(m, p, width); }
    if width < bound {
      WidthsComplete(m, bound - 1, width);
    }
  }

  lemma RunInside(m: string, p: nat, width: nat)
    requires RunAt(m, p, width)
    ensures 0 < width && p + width <= |m|
  {
  }

  predicate Positive(widths: seq<nat>) {
    forall i :: 0 <= i < |widths| ==> widths[i] > 0
  }

  /** Trying each width in turn until one gives commands. */
  function FirstCommands(m: string, widths: seq<nat>): seq<string>
    requires Positive(widths)
  {
    if widths == [] then []
    else
      var commands := Commands(Contents(m, 0, widths[0]));
      if commands != [] then commands else FirstCommands(m, widths[1..])
  }

  /** What the reader finds between fences. */
  function FencedCommands(m: string): seq<string> {
    FirstCommands(m, WidthsUpTo(m, |m|))
  }

  /** The loop over the matches of one width. */
  method CommandsAtWidth(m: string, width: nat) returns (commands: seq<string>)
    requires width > 0
    ensures commands == Commands(Contents(m, 0, width))
  {
    hide *;
    ghost var before: seq<string> := [];
    commands := [];
    assert commands == Commands(before) by { NoCommands(); }
    var from := 0;
    var open := NextRun(m, 0, width);
    while open.Some?
      invariant from <= |m| && commands == Commands(before)
      invariant Contents(m, 0, width) == before + Contents(m, from, width)
      invariant open == NextRun(m, from, width)
      decreases |m| - from
    {
      RunInside(m, open.value, width);
      var close := NextRun(m, open.value + width, width);
      if close.None? {
        break;
      }
      RunInside(m, close.value, width);
      var text := m[open.value + width..close.value];
      ContentsStep(m, from, width);
      CommandsStep(before, text);
      before := before + [text];
      var command := Trim(text);
      if Mentions(command) && command !in commands {
        commands := commands + [command];
      }
      from := close.value + width;
      open := NextRun(m, from, width);
    }
    ContentsEnd(m, from, width);
    assert Contents(m, 0, width) == before;
  }

  lemma ContentsStep(m: string, from: nat, width: nat)
    requires from <= |m| && width > 0
    requires NextRun(m, from, width).Some?
    requires NextRun(m, NextRun(m, from, width).value + width, width).Some?
    ensures var start := NextRun(m, from, width).value + width;
            var end := NextRun(m, start, width).value;
            Contents(m, from, width) == [m[start..end]] + Contents(m, end + width, width)
  {
    hide RunAt, NextRun;
  }

  lemma ContentsEnd(m: string, from: nat, width: nat)
    requires from <= |m| && width > 0
    requires var open := NextRun(m, from, width); open.None? || NextRun(m, open.value + width, width).None?
    ensures Contents(m, from, width) == []
  {
    hide RunAt, NextRun;
  }

  lemma NoCommands()
    ensures Commands([]) == []
  {
  }

  lemma CommandsStep(before: seq<string>, text: string)
    ensures var commands, command := Commands(before), Trim(text);
            Commands(before + [text])
            == if Mentions(command) && command !in commands then commands + [command] else commands
  {
    hide Mentions, Trim;
    assert (before + [text])[..|before|] == before;
  }

  /** The loop over fence widths, widest first. */
  method FencedNextCommands(m: string) returns (commands: seq<string>)
    ensures commands == FencedCommands(m)
  {
    hide Contents, Commands;
    var widths := WidthsUpTo(m, |m|);
    for k := 0 to |widths|
      invariant Positive(widths[k..])
      invariant FencedCommands(m) == FirstCommands(m, widths[k..])
    {
      commands := CommandsAtWidth(m, widths[k]);
      if commands != [] {
        return;
      }
      assert widths[k..][1..] == widths[k + 1..];
    }
    commands := [];
  }

  // ----- Without fences -----

  function SpaceEnd(m: string, q: nat): (w: nat)
    requires q <= |m|
    ensures q <= w <= |m| && forall k :: q <= k < w ==> IsWhitespace(m[k])
    decreases |m| - q
  {
    if q < |m| && IsWhitespace(m[q]) then SpaceEnd(m, q + 1) else q
  }

  predicate Stops(c: char) {
    c == '\n' || c == '.'
  }

  function StopEnd(m: string, s: nat): (e: nat)
    requires s <= |m|
    ensures s <= e <= |m|
    decreases |m| - s
  {
    if s < |m| && !Stops(m[s]) then StopEnd(m, s + 1) else s
  }

  /** White space up to s, then at least one character that does not stop, giving white space back until that works. */
  function BareEnd(m: string, q: nat, s: nat): (e: Option<nat>)
    requires q <= s <= |m|
    ensures e.Some? ==> q < e.value <= |m|
  {
    if s == q then None
    else if s < |m| && !Stops(m[s]) then Some(StopEnd(m, s))
    else BareEnd(m, q, s - 1)
  }

  /** The command's name begins here as a word. */
  predicate NameAt(m: string, p: nat) {
    p + |COMMAND| <= |m| && m[p..p + |COMMAND|] == COMMAND && (p > 0 ==> !WordChar(m[p - 1]))
  }

  /** The first bare command from p on: the name, white space, and the rest of the sentence or line. */
  function BareFrom(m: string, p: nat): (bare: Option<string>)
    requires p <= |m|
    decreases |m| - p
  {
    if p == |m| then None
    else
      var end := if NameAt(m, p) then BareEnd(m, p + |COMMAND|, SpaceEnd(m, p + |COMMAND|)) else None;
      if end.Some? then Some(Trim(m[p..end.value])) else BareFrom(m, p + 1)
  }

  predicate StartsWith(s: string, prefix: string) {
    prefix <= s
  }

  /** What follows the command's name when the message names no command. */
  function FallbackArguments(code: string): string {
    if StartsWith(code, "UPGRADE_") then "upgrade"
    else if StartsWith(code, "CHANNEL_VERSIONS_") then "channel versions"
    else if code == "MIGRATION_LOCAL_EVIDENCE_UNMATCHED" then "doctor --migration-details"
    else if StartsWith(code, "MIGRATE_") || StartsWith(code, "MIGRATION_") || StartsWith(code, "SETUP_")
            || StartsWith(code, "LEGACY_") then "setup /<server>"
    else if StartsWith(code, "RUNNER_") || StartsWith(code, "RUNNERS_") then "runners list"
    else if code == "NO_DAEMON_LOG" then "logs --service"
    else if code == "NO_ATTACHMENT" || code == "INVALID_ATTACHMENT" || code == "NOT_ATTACHED" then "setup /<server>"
    else if code == "CHANNEL_INVALID" then "channel set latest"
    else if code == "NON_INTERACTIVE_SETUP_REQUIRES_FLAGS" then "setup /<server>"
    else if code == "CONCURRENT_OPERATION" then "status"
    else "doctor"
  }

  function FallbackCommand(code: string): string {
    COMMAND + [' '] + FallbackArguments(code)
  }

  function NextCommands(code: string, m: string): seq<string> {
    var fenced, bare := FencedCommands(m), BareFrom(m, 0);
    if fenced != [] then fenced else if bare.Some? then [bare.value] else [FallbackCommand(code)]
  }

  /** The reader: commands between fences, else a bare command, else one for the code. */
  method InferNextCommands(code: string, m: string) returns (commands: seq<string>)
    ensures commands == NextCommands(code, m)
  {
    hide FencedCommands, BareFrom, FallbackCommand;
    commands := FencedNextCommands(m);
    if commands == [] {
      var bare := BareFrom(m, 0);
      if bare.Some? {
        return [bare.value];
      }
      commands := [FallbackCommand(code)];
    }
  }

  // ----- There is always a command -----

  lemma {:induction false} CommandsAreNamed(contents: seq<string>)
    ensures Distinct(Commands(contents)) && forall i :: 0 <= i < |Commands(contents)| ==> Mentions(Commands(contents)[i])
  {
    hide Mentions, Trim;
    if contents != [] {
      CommandsAreNamed(contents[..|contents| - 1]);
    }
  }

  lemma {:induction false} FirstAreNamed(m: string, widths: seq<nat>)
    requires Positive(widths)
    ensures var c := FirstCommands(m, widths); Distinct(c) && forall i :: 0 <= i < |c| ==> Mentions(c[i])
  {
    hide Mentions, Commands, Contents;
    if widths != [] {
      CommandsAreNamed(Contents(m, 0, widths[0]));
      FirstAreNamed(m, widths[1..]);
    }
  }

  /** Trimming the end stops at a character that is not white space. */
  lemma {:induction false} TrimEndKeeps(s: string, n: nat)
    requires 0 < n <= |s| && !IsWhitespace(s[n - 1])
    ensures n <= |TrimEnd(s)| && TrimEnd(s) <= s
  {
    if IsWhitespace(s[|s| - 1]) {
      TrimEndKeeps(s[..|s| - 1], n);
    }
  }

  lemma NameFollowedBySpace(s: string)
    requires |COMMAND| < |s| && s[..|COMMAND|] == COMMAND && IsWhitespace(s[|COMMAND|])
    ensures Mentions(Trim(s))
  {
    var n := |COMMAND|;
    assert s[0] == s[..n][0] == 'r' && s[n - 1] == s[..n][n - 1] == 'r';
    TrimEndKeeps(s, n);
    var t := Trim(s);
    assert t[..n] == s[..n];
    assert t[0..0 + n] == t[..n];
    assert NamedAt(t, 0);
  }

  lemma {:induction false} BareIsNamed(m: string, p: nat)
    requires p <= |m| && BareFrom(m, p).Some?
    ensures Mentions(BareFrom(m, p).value)
    decreases |m| - p
  {
    hide Mentions, Trim, BareEnd, SpaceEnd;
    var q := p + |COMMAND|;
    if NameAt(m, p) && BareEnd(m, q, SpaceEnd(m, q)).Some? {
      var e := BareEnd(m, q, SpaceEnd(m, q)).value;
      assert SpaceEnd(m, q) > q by { NoBareEnd(m, q); }
      var s := m[p..e];
      assert s[..|COMMAND|] == m[p..q] && s[|COMMAND|] == m[q];
      NameFollowedBySpace(s);
    } else {
      BareIsNamed(m, p + 1);
    }
  }

  lemma NoBareEnd(m: string, q: nat)
    requires q <= |m|
    ensures BareEnd(m, q, q) == None
  {
  }

  /** The user is always given a command: at least one, none twice, and each names raft-computer. */
  lemma AlwaysACommand(code: string, m: string)
    ensures var c := NextCommands(code, m);
            c != [] && Distinct(c) && forall i :: 0 <= i < |c| ==> Mentions(c[i])
  {
    hide Mentions, FirstCommands, BareFrom, FallbackArguments;
    FirstAreNamed(m, WidthsUpTo(m, |m|));
    if BareFrom(m, 0).Some? {
      BareIsNamed(m, 0);
    }
    FallbackIsNamed(code);
  }

  lemma FallbackIsNamed(code: string)
    ensures Mentions(FallbackCommand(code))
  {
    hide FallbackArguments;
    var s := FallbackCommand(code);
    assert s[0..0 + |COMMAND|] == COMMAND && s[|COMMAND|] == ' ';
    assert NamedAt(s, 0);
  }

  // ----- What stands between fences -----

  /** runs lists, in order, exactly the runs of this width from a position on. */
  ghost predicate RunsFrom(m: string, from: nat, width: nat, runs: seq<nat>) {
    && (forall x :: 0 <= x < |runs| ==> from <= runs[x] && RunAt(m, runs[x], width))
    && (forall x, y :: 0 <= x < y < |runs| ==> runs[x] < runs[y])
    && (forall p: nat :: from <= p && RunAt(m, p, width) ==> p in runs)
  }

  /** The texts between the first and second of the runs, the third and fourth, and so on. */
  ghost predicate BetweenRuns(m: string, width: nat, runs: seq<nat>, contents: seq<string>) {
    && |contents| == |runs| / 2
    && forall k :: 0 <= k < |contents| ==>
         runs[2 * k] + width <= runs[2 * k + 1] <= |m| && contents[k] == m[runs[2 * k] + width..runs[2 * k + 1]]
  }

  lemma RunsApart(m: string, p: nat, q: nat, width: nat)
    requires RunAt(m, p, width) && RunAt(m, q, width) && p < q
    ensures p + width <= q
  {
    if q < p + width {
      FenceRun(m, p, width, q, width);
    }
  }

  lemma RunsAfter(m: string, from: nat, first: nat, width: nat, rest: seq<nat>)
    requires RunAt(m, first, width) && from <= first && (forall q :: from <= q < first ==> !RunAt(m, q, width))
    requires RunsFrom(m, first + width, width, rest)
    ensures RunsFrom(m, from, width, [first] + rest)
  {
    hide RunAt;
    RunInside(m, first, width);
    forall p: nat | from <= p && RunAt(m, p, width) ensures p in [first] + rest {
      if p > first {
        RunsApart(m, first, p, width);
      }
    }
  }

  lemma NoRunPast(m: string, width: nat)
    ensures forall q: nat :: q > |m| ==> !RunAt(m, q, width)
  {
  }

  lemma {:induction false} RunList(m: string, from: nat, width: nat) returns (runs: seq<nat>)
    requires from <= |m| && width > 0
    ensures RunsFrom(m, from, width, runs)
    ensures runs == [] <==> NextRun(m, from, width).None?
    ensures runs != [] ==> runs[0] == NextRun(m, from, width).value && RunsFrom(m, runs[0] + width, width, runs[1..])
    decreases |m| - from
  {
    hide RunAt, NextRun;
    var p := NextRun(m, from, width);
    if p.None? {
      runs := [];
      NoRunPast(m, width);
    } else {
      RunInside(m, p.value, width);
      var rest := RunList(m, p.value + width, width);
      runs := [p.value] + rest;
      RunsAfter(m, from, p.value, width, rest);
      assert runs[1..] == rest;
    }
  }

  /** The contents read are exactly the texts between the runs of this width, paired from the left. */
  lemma {:induction false} ContentsMean(m: string, from: nat, width: nat, runs: seq<nat>)
    requires from <= |m| && width > 0 && RunsFrom(m, from, width, runs)
    ensures BetweenRuns(m, width, runs, Contents(m, from, width))
    decreases |runs|
  {
    hide RunAt, NextRun, RunsFrom, Contents, BetweenRuns;
    FirstOfRuns(m, from, width, runs);
    if |runs| >= 1 {
      RestOfRuns(m, from, width, runs);
      FirstOfRuns(m, runs[0] + width, width, runs[1..]);
    }
    if |runs| >= 2 {
      RestOfRuns(m, runs[0] + width, width, runs[1..]);
      assert runs[1..][1..] == runs[2..] && runs[1..][0] == runs[1];
      ContentsMean(m, runs[1] + width, width, runs[2..]);
      ContentsStep(m, from, width);
      BetweenStep(m, width, runs, Contents(m, runs[1] + width, width));
    } else {
      ContentsEnd(m, from, width);
      BetweenNone(m, width, runs);
    }
  }

  lemma BetweenNone(m: string, width: nat, runs: seq<nat>)
    requires |runs| < 2
    ensures BetweenRuns(m, width, runs, [])
  {
  }

  lemma BetweenStep(m: string, width: nat, runs: seq<nat>, rest: seq<string>)
    requires |runs| >= 2 && BetweenRuns(m, width, runs[2..], rest) && runs[0] + width <= runs[1] <= |m|
    ensures BetweenRuns(m, width, runs, [m[runs[0] + width..runs[1]]] + rest)
  {
    var all, after := [m[runs[0] + width..runs[1]]] + rest, runs[2..];
    forall k | 0 <= k < |all|
      ensures runs[2 * k] + width <= runs[2 * k + 1] <= |m| && all[k] == m[runs[2 * k] + width..runs[2 * k + 1]]
    {
      if k > 0 {
        assert after[2 * (k - 1)] == runs[2 * k] && after[2 * (k - 1) + 1] == runs[2 * k + 1];
        assert all[k] == rest[k - 1];
      }
    }
  }

  lemma FirstOfRuns(m: string, from: nat, width: nat, runs: seq<nat>)
    requires from <= |m| && width > 0 && RunsFrom(m, from, width, runs)
    ensures NextRun(m, from, width) == if runs == [] then None else Some(runs[0])
  {
    hide RunAt;
    var p := NextRun(m, from, width);
    if runs != [] {
      RunInside(m, runs[0], width);
    }
    if p.Some? {
      assert p.value in runs;
    }
  }

  lemma RestOfRuns(m: string, from: nat, width: nat, runs: seq<nat>)
    requires runs != [] && RunsFrom(m, from, width, runs)
    ensures runs[0] + width <= |m| && RunsFrom(m, runs[0] + width, width, runs[1..])
    ensures |runs| > 1 ==> runs[0] + width <= runs[1] && runs[1] + width <= |m|
  {
    hide RunAt;
    RunInside(m, runs[0], width);
    if |runs| > 1 {
      RunInside(m, runs[1], width);
      RunsApart(m, runs[0], runs[1], width);
    }
    forall x | 0 <= x < |runs[1..]| ensures runs[0] + width <= runs[1..][x] {
      RunsApart(m, runs[0], runs[x + 1], width);
    }
  }

  /** The text names raft-computer, with no letter, digit or underscore right before or after it. */
  ghost predicate NamesComputer(s: string) {
    exists a, b :: NamedBetween(s, a, b)
  }

  ghost predicate NamedBetween(s: string, a: string, b: string) {
    s == a + "raft-computer" + b && (a != [] ==> !WordChar(a[|a| - 1])) && (b != [] ==> !WordChar(b[0]))
  }

  lemma CutAround(s: string, p: nat, name: string)
    requires p + |name| <= |s| && s[p..p + |name|] == name
    ensures s == s[..p] + name + s[p + |name|..]
  {
  }

  lemma FoundInside(a: string, name: string, b: string)
    ensures var s := a + name + b;
            && s[|a|..|a| + |name|] == name && s[..|a|] == a && s[|a| + |name|..] == b
  {
  }

  lemma MentionsMeans(s: string)
    ensures Mentions(s) <==> NamesComputer(s)
  {
    hide NamedAt, NamedBetween;
    if Mentions(s) {
      var p: nat :| p <= |s| && NamedAt(s, p);
      NamedCut(s, p);
    }
    if NamesComputer(s) {
      var a, b :| NamedBetween(s, a, b);
      NamedInside(s, a, b);
    }
  }

  lemma NamedCut(s: string, p: nat)
    requires NamedAt(s, p)
    ensures NamesComputer(s)
  {
    hide WordChar;
    var n := p + |COMMAND|;
    CutAround(s, p, COMMAND);
    assert n < |s| ==> s[n..][0] == s[n];
    assert NamedBetween(s, s[..p], s[n..]);
  }

  lemma NamedInside(s: string, a: string, b: string)
    requires NamedBetween(s, a, b)
    ensures Mentions(s)
  {
    hide WordChar;
    FoundInside(a, COMMAND, b);
    var n := |a| + |COMMAND|;
    assert a != [] ==> s[|a| - 1] == s[..|a|][|a| - 1];
    assert n < |s| ==> s[n] == s[n..][0];
    assert NamedAt(s, |a|);
  }

  /** at lists, in order, the first occurrence of every text that is a command, and the commands are those texts trimmed. */
  ghost predicate CommandsAt(contents: seq<string>, commands: seq<string>, at: seq<nat>) {
    && |at| == |commands|
    && (forall x :: 0 <= x < |at| ==> at[x] < |contents| && commands[x] == Trim(contents[at[x]]))
    && (forall x, y :: 0 <= x < y < |at| ==> at[x] < at[y])
    && (forall k: nat :: k < |contents| ==> (k in at <==> FirstCommandAt(contents, k)))
  }

  ghost predicate FirstCommandAt(contents: seq<string>, k: nat)
    requires k < |contents|
  {
    NamesComputer(Trim(contents[k])) && forall j :: 0 <= j < k ==> Trim(contents[j]) != Trim(contents[k])
  }

  ghost predicate Occurs(contents: seq<string>, c: string) {
    exists j :: 0 <= j < |contents| && Trim(contents[j]) == c
  }

  lemma OccursMore(front: seq<string>, text: string, c: string)
    ensures Occurs(front + [text], c) <==> Occurs(front, c) || Trim(text) == c
  {
    hide Trim;
    var all := front + [text];
    assert all[|front|] == text;
    if j :| 0 <= j < |front| && Trim(front[j]) == c {
      assert Trim(all[j]) == c;
    }
  }

  lemma {:induction false} CommandsOccur(contents: seq<string>, c: string)
    ensures c in Commands(contents) <==> NamesComputer(c) && Occurs(contents, c)
  {
    hide Trim, Mentions, NamesComputer, Occurs;
    if contents == [] {
      assert !Occurs([], c) by { NothingOccurs(c); }
    } else {
      var n := |contents| - 1;
      CommandsOccur(contents[..n], c);
      CommandsOccur(contents[..n], Trim(contents[n]));
      MentionsMeans(Trim(contents[n]));
      OccursMore(contents[..n], contents[n], c);
      assert contents == contents[..n] + [contents[n]];
    }
  }

  lemma NothingOccurs(c: string)
    ensures !Occurs([], c)
  {
  }

  lemma FirstStays(front: seq<string>, text: string, k: nat)
    requires k < |front|
    ensures FirstCommandAt(front + [text], k) <==> FirstCommandAt(front, k)
  {
    hide Trim, NamesComputer;
    var all := front + [text];
    assert forall j :: 0 <= j < |front| ==> all[j] == front[j];
  }

  lemma LastIsFirst(front: seq<string>, text: string)
    ensures FirstCommandAt(front + [text], |front|) <==> NamesComputer(Trim(text)) && !Occurs(front, Trim(text))
  {
    hide Trim, NamesComputer;
    var all := front + [text];
    assert all[|front|] == text && forall j :: 0 <= j < |front| ==> all[j] == front[j];
  }

  /** Every text that names the command becomes one, once, in the order of first occurrence. */
  lemma {:induction false} CommandsMean(contents: seq<string>) returns (at: seq<nat>)
    ensures CommandsAt(contents, Commands(contents), at)
  {
    hide Trim, Mentions, NamesComputer, Occurs, FirstCommandAt;
    if contents == [] {
      at := [];
    } else {
      var n := |contents| - 1;
      var front, text := contents[..n], contents[n];
      at := CommandsMean(front);
      assert contents == front + [text];
      CommandsOccur(front, Trim(text));
      MentionsMeans(Trim(text));
      LastIsFirst(front, text);
      forall k: nat | k < n ensures FirstCommandAt(contents, k) <==> FirstCommandAt(front, k) {
        FirstStays(front, text, k);
      }
      if FirstCommandAt(contents, n) {
        at := at + [n];
      }
    }
  }

  // ----- A bare command is recovered -----

  lemma NoFences(m: string, bound: nat)
    requires '`' !in m
    ensures WidthsUpTo(m, bound) == []
  {
    if bound > 0 {
      NoFences(m, bound - 1);
      var p := NextRun(m, 0, bound);
      if p.Some? {
        NoRun(m, p.value, bound);
      }
    }
  }

  lemma NoRun(m: string, p: nat, width: nat)
    requires '`' !in m
    ensures !RunAt(m, p, width)
  {
    assert p < |m| ==> m[p] in m;
  }

  lemma {:induction false} StopsAfter(m: string, s: nat, e: nat)
    requires s <= e <= |m| && (e < |m| ==> Stops(m[e])) && forall k :: s <= k < e ==> !Stops(m[k])
    ensures StopEnd(m, s) == e
    decreases e - s
  {
    if s < e {
      StopsAfter(m, s + 1, e);
    }
  }

  lemma {:induction false} SkipsUnnamed(m: string, p: nat, q: nat)
    requires p <= q <= |m| && forall k :: p <= k < q ==> !NameAt(m, k)
    ensures BareFrom(m, p) == BareFrom(m, q)
    decreases q - p
  {
    hide NameAt, BareEnd, SpaceEnd, Trim;
    if p < q {
      SkipsUnnamed(m, p + 1, q);
    }
  }

  /**
   * Without fences, a command in running text is recovered: its name as a word, a space and
   * its arguments, up to the end of the sentence, of the line or of the message.
   */
  lemma BareRecovered(code: string, before: string, arguments: string, after: string)
    requires arguments != [] && IsTrimmed(arguments) && forall k :: 0 <= k < |arguments| ==> !Stops(arguments[k])
    requires after != [] ==> Stops(after[0])
    requires before != [] ==> !WordChar(before[|before| - 1])
    requires '`' !in before && '`' !in arguments && '`' !in after
    requires var m := before + (COMMAND + [' '] + arguments) + after;
             forall k :: 0 <= k < |before| ==> !NameAt(m, k)
    ensures NextCommands(code, before + (COMMAND + [' '] + arguments) + after) == [COMMAND + [' '] + arguments]
  {
    hide NameAt, BareFrom, Trim, IsWhitespace, WordChar;
    var command := COMMAND + [' '] + arguments;
    var m := before + command + after;
    var p := |before|;
    assert '`' !in COMMAND;
    NoFences(m, |m|);
    SkipsUnnamed(m, 0, p);
    CommandInText(before, arguments, after);
    BareAtName(m, p, p + |command|);
    assert m[p..p + |command|] == command;
    CommandIsTrimmed(arguments);
    TrimKeepsTrimmed(command);
  }

  lemma CommandIsTrimmed(arguments: string)
    requires arguments != [] && IsTrimmed(arguments)
    ensures IsTrimmed(COMMAND + [' '] + arguments)
  {
    var command := COMMAND + [' '] + arguments;
    assert command[0] == 'r' && command[|command| - 1] == arguments[|arguments| - 1];
  }

  lemma CommandInText(before: string, arguments: string, after: string)
    requires arguments != [] && IsTrimmed(arguments) && forall k :: 0 <= k < |arguments| ==> !Stops(arguments[k])
    requires after != [] ==> Stops(after[0])
    requires before != [] ==> !WordChar(before[|before| - 1])
    ensures var command := COMMAND + [' '] + arguments;
            var m := before + command + after;
            InText(m, |before|, |before| + |command|)
  {
    hide WordChar, IsWhitespace;
    TextParts(before, COMMAND, arguments, after);
  }

  /** Where the parts of such a message stand. */
  lemma TextParts(before: string, name: string, arguments: string, after: string)
    requires arguments != []
    ensures var m := before + (name + [' '] + arguments) + after;
            var q := |before| + |name|;
            var e := q + 1 + |arguments|;
            && e <= |m| && m[|before|..q] == name && m[q] == ' '
            && (forall k :: q + 1 <= k < e ==> m[k] == arguments[k - q - 1])
            && (before != [] ==> m[|before| - 1] == before[|before| - 1])
            && (e == |m| <==> after == []) && (after != [] ==> m[e] == after[0])
  {
    var command := name + [' '] + arguments;
    var m := before + command + after;
    assert forall k :: 0 <= k < |command| ==> m[|before| + k] == command[k];
    assert command[..|name|] == name;
    assert forall k :: 0 <= k < |name| ==> command[k] == command[..|name|][k];
    assert m[|before|..|before| + |name|] == name;
  }

  /** From p up to e: the name as a word, one space, and then no stop until one follows or the message ends. */
  ghost predicate InText(m: string, p: nat, e: nat) {
    var q := p + |COMMAND|;
    && q + 1 < e <= |m| && NameAt(m, p) && m[q] == ' ' && !IsWhitespace(m[q + 1])
    && (forall k :: q + 1 <= k < e ==> !Stops(m[k])) && (e < |m| ==> Stops(m[e]))
  }

  lemma BareAtName(m: string, p: nat, e: nat)
    requires InText(m, p, e)
    ensures BareFrom(m, p) == Some(Trim(m[p..e]))
  {
    hide NameAt, Trim;
    var q := p + |COMMAND|;
    assert SpaceEnd(m, q) == q + 1 by {
      assert IsWhitespace(' ') && SpaceEnd(m, q) == SpaceEnd(m, q + 1);
    }
    StopsAfter(m, q + 1, e);
    assert BareEnd(m, q, q + 1) == Some(e);
  }

  /** Without fences and without the name, the command for the code is given. */
  lemma FallbackGiven(code: string, m: string)
    requires '`' !in m && forall k :: 0 <= k < |m| ==> !NameAt(m, k)
    ensures NextCommands(code, m) == [FallbackCommand(code)]
  {
    hide NameAt;
    NoFences(m, |m|);
    SkipsUnnamed(m, 0, |m|);
  }

  // ----- The round trip -----

  /** A printed command in a message: text, fence, padding, command, padding, fence, text. */
  datatype Printed = Printed(before: string, command: string, after: string) {
    function Width(): nat {
      WidestRun(command) + 1
    }

    function Inner(): string {
      var padding := if command != [] && (command[0] == '`' || command[|command| - 1] == '`') then [' '] else [];
      padding + command + padding
    }

    function Message(): string {
      before + (Fence(Width()) + Inner() + Fence(Width())) + after
    }

    function Open(): nat {
      |before|
    }

    function Close(): nat {
      |before| + Width() + |Inner()|
    }
  }

  lemma PrintedIsCodeSpan(p: Printed)
    ensures p.Message() == p.before + CodeSpan(p.command) + p.after
  {
    var fence := Fence(p.Width());
    var padding := if p.command != [] && (p.command[0] == '`' || p.command[|p.command| - 1] == '`') then [' '] else [];
    assert fence + (padding + p.command + padding) + fence == fence + padding + p.command + padding + fence;
  }

  ghost predicate Clean(p: Printed) {
    '`' !in p.before && '`' !in p.after && p.command != []
  }

  /** What each stretch of the message is. */
  lemma MessageParts(p: Printed)
    ensures var m, w, inner := p.Message(), p.Width(), p.Inner();
            && |m| == p.Close() + w + |p.after|
            && m[..p.Open()] == p.before
            && m[p.Open()..p.Open() + w] == Fence(w)
            && m[p.Open() + w..p.Close()] == inner
            && m[p.Close()..p.Close() + w] == Fence(w)
            && m[p.Close() + w..] == p.after
  {
    hide Fence, WidestRun, Printed.Inner;
    FivePieces(p.before, Fence(p.Width()), p.Inner(), Fence(p.Width()), p.after);
  }

  /** Where each of five texts stands in their concatenation. */
  lemma FivePieces(a: string, b: string, c: string, d: string, e: string)
    ensures var m := a + (b + c + d) + e;
            var i, j, k, l := |a|, |a| + |b|, |a| + |b| + |c|, |a| + |b| + |c| + |d|;
            && |m| == l + |e|
            && m[..i] == a && m[i..j] == b && m[j..k] == c && m[k..l] == d && m[l..] == e
  {
    var m := a + (b + c + d) + e;
    var rest := b + c + d;
    PieceOf(a, rest, e);
    assert m[|a|..|a| + |rest|] == rest;
    assert m[|a|..|a| + |b|] == rest[..|b|] == b;
    assert m[|a| + |b|..|a| + |b| + |c|] == rest[|b|..|b| + |c|] == c;
    assert m[|a| + |b| + |c|..|a| + |b| + |c| + |d|] == rest[|b| + |c|..] == d;
  }

  lemma PieceOf(a: string, b: string, c: string)
    ensures (a + b + c)[..|a|] == a && (a + b + c)[|a|..|a| + |b|] == b && (a + b + c)[|a| + |b|..] == c
  {
  }

  /** The inner text neither begins nor ends with a backtick, and has no run as wide as the fence. */
  lemma InnerRuns(p: Printed, a: nat, b: nat)
    requires p.command != [] && Ticks(p.Inner(), a, b)
    ensures p.Inner() != [] && p.Inner()[0] != '`' && p.Inner()[|p.Inner()| - 1] != '`'
    ensures b - a < p.Width()
  {
    hide WidestRun, Ticks;
    var inner, c := p.Inner(), p.command;
    if inner == c {
      NoWiderRun(c, a, b);
    } else {
      assert inner == [' '] + c + [' '];
      PaddedRun(c, a, b);
    }
  }

  lemma PaddedRun(c: string, a: nat, b: nat)
    requires Ticks([' '] + c + [' '], a, b)
    ensures b - a <= WidestRun(c)
  {
    hide WidestRun;
    var inner := [' '] + c + [' '];
    if a < b {
      assert inner[a] == '`' && inner[b - 1] == '`';
      assert forall i :: 0 <= i < |c| ==> c[i] == inner[i + 1];
      NoWiderRun(c, a - 1, b - 1);
    }
  }

  lemma FencesAreRuns(p: Printed)
    requires Clean(p)
    ensures RunAt(p.Message(), p.Open(), p.Width()) && RunAt(p.Message(), p.Close(), p.Width())
  {
    hide WidestRun, Fence, Printed.Message, Printed.Inner;
    MessageParts(p);
    InnerRuns(p, 0, 0);
    var m, w, inner := p.Message(), p.Width(), p.Inner();
    if p.Open() > 0 {
      assert m[p.Open() - 1] == m[..p.Open()][p.Open() - 1] == p.before[p.Open() - 1];
    }
    assert m[p.Open() + w] == m[p.Open() + w..p.Close()][0] == inner[0];
    assert m[p.Close() - 1] == m[p.Open() + w..p.Close()][|inner| - 1] == inner[|inner| - 1];
    if p.Close() + w < |m| {
      assert m[p.Close() + w] == m[p.Close() + w..][0] == p.after[0];
    }
  }

  /** No other run is as wide. */
  lemma OnlyFences(p: Printed, q: nat, width: nat)
    requires Clean(p) && RunAt(p.Message(), q, width) && width >= p.Width()
    ensures width == p.Width() && (q == p.Open() || q == p.Close())
  {
    hide WidestRun, Fence, Printed.Message, Printed.Inner;
    MessageParts(p);
    FencesAreRuns(p);
    var m, w := p.Message(), p.Width();
    assert m[q] == '`';
    assert forall i :: 0 <= i < p.Open() ==> m[i] == m[..p.Open()][i] != '`';
    assert forall i :: p.Close() + w <= i < |m| ==> m[i] == m[p.Close() + w..][i - p.Close() - w] != '`';
    assert p.Open() <= q < p.Close() + w;
    if q < p.Open() + w {
      FenceRun(m, p.Open(), w, q, width);
    } else if q < p.Close() {
      InnerRun(p, q, width);
    } else {
      FenceRun(m, p.Close(), w, q, width);
    }
  }

  /** Two runs that share a position are the same run. */
  lemma FenceRun(m: string, p: nat, w: nat, q: nat, width: nat)
    requires RunAt(m, p, w) && RunAt(m, q, width) && p <= q < p + w
    ensures q == p && width == w
  {
  }

  lemma InnerRun(p: Printed, q: nat, width: nat)
    requires Clean(p) && RunAt(p.Message(), q, width)
    requires p.Open() + p.Width() <= q < p.Close()
    ensures width < p.Width()
  {
    hide WidestRun, Fence, Printed.Message, Printed.Inner;
    MessageParts(p);
    var m, w, inner := p.Message(), p.Width(), p.Inner();
    var a := q - p.Open() - w;
    InnerRuns(p, 0, 0);
    assert m[p.Close() - 1] == m[p.Open() + w..p.Close()][|inner| - 1] != '`';
    assert q + width <= p.Close() - 1;
    assert forall i :: 0 <= i < |inner| ==> inner[i] == m[p.Open() + w..p.Close()][i] == m[p.Open() + w + i];
    InnerRuns(p, a, a + width);
  }

  lemma TrimInner(p: Printed)
    requires p.command != [] && IsTrimmed(p.command)
    ensures Trim(p.Inner()) == p.command
  {
    var c := p.command;
    TrimKeepsTrimmed(c);
    if p.Inner() != c {
      assert p.Inner() == [' '] + (c + [' ']);
      assert p.Inner()[1..] == c + [' '];
      assert TrimStart(c + [' ']) == c + [' '];
      assert (c + [' '])[..|c|] == c;
    }
  }

  lemma ContentsOfPrinted(p: Printed)
    requires Clean(p)
    ensures Contents(p.Message(), 0, p.Width()) == [p.Inner()]
  {
    hide WidestRun, Fence, RunAt, NextRun;
    MessageParts(p);
    FencesAreRuns(p);
    var m, w := p.Message(), p.Width();
    var open := NextRun(m, 0, w);
    OnlyFences(p, open.value, w);
    var close := NextRun(m, p.Open() + w, w);
    OnlyFences(p, close.value, w);
    var more := NextRun(m, p.Close() + w, w);
    if more.Some? {
      OnlyFences(p, more.value, w);
    }
  }

  /**
   * A printed command is recovered exactly: whatever backticks it contains, in text
   * without backticks around it, the reader returns this command and no other.
   */
  lemma CommandRecovered(code: string, before: string, command: string, after: string)
    requires '`' !in before && '`' !in after
    requires IsTrimmed(command) && Mentions(command)
    ensures NextCommands(code, before + CodeSpan(command) + after) == [command]
  {
    hide WidestRun, Fence, RunAt, Contents, CodeSpan, BareFrom;
    var p := Printed(before, command, after);
    PrintedIsCodeSpan(p);
    WidestFirst(p);
    ContentsOfPrinted(p);
    TrimInner(p);
    assert [p.Inner()][..0] == [];
    assert Commands([p.Inner()]) == [command];
  }

  lemma WidestFirst(p: Printed)
    requires Clean(p)
    ensures var widths := WidthsUpTo(p.Message(), |p.Message()|); widths != [] && widths[0] == p.Width()
  {
    hide WidestRun, Fence, RunAt;
    var m := p.Message();
    FencesAreRuns(p);
    RunInside(m, p.Open(), p.Width());
    WidthsComplete(m, |m|, p.Width());
    var widths := WidthsUpTo(m, |m|);
    var q: nat :| RunAt(m, q, widths[0]);
    OnlyFences(p, q, widths[0]);
  }
}
