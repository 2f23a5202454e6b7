/**
 * Reading a trace file as a stream of chunks: complete lines are taken out as
 * their newlines arrive, a line growing past the byte cap is discarded, and a last
 * line without newline is kept apart.
 */
module TraceLines {
  import opened Basics

  const LINE_CAP: nat := 16 * 1024 * 1024

  /** Bytes of a character in UTF-8. */
  function Utf8(c: char): nat {
    if c < '\U{0080}' then 1 else if c < '\U{0800}' then 2 else if c < '\U{10000}' then 3 else 4
  }

  function Bytes(s: string): nat {
    if s == [] then 0 else Bytes(s[..|s| - 1]) + Utf8(s[|s| - 1])
  }

  lemma {:induction false} BytesConcat(a: string, b: string)
    ensures Bytes(a + b) == Bytes(a) + Bytes(b)
  {
    if b == [] {
      assert a + b == a;
    } else {
      BytesConcat(a, b[..|b| - 1]);
      assert (a + b)[..|a + b| - 1] == a + b[..|b| - 1];
    }
  }

  predicate Blank(s: string) {
    forall i :: 0 <= i < |s| ==> IsWhitespace(s[i])
  }

  function StripCr(line: string): string {
    if line != [] && line[|line| - 1] == '\r' then line[..|line| - 1] else line
  }

  /** What a line gives rise to: a document to parse, or an error naming its number. */
  datatype Item = Document(line: nat, text: string) | Oversize(line: nat)

  function LineItems(number: nat, line: string): seq<Item> {
    var raw := StripCr(line);
    if Blank(raw) then [] else if Bytes(raw) > LINE_CAP then [Oversize(number)] else [Document(number, raw)]
  }

  /** The reader between characters: items so far, complete lines, the unfinished line or that it is being discarded. */
  datatype Reader = Reader(items: seq<Item>, lines: nat, pending: string, discarding: bool)

  const START: Reader := Reader([], 0, [], false)

  function FeedChar(r: Reader, c: char): Reader {
    if r.discarding then (if c == '\n' then r.(lines := r.lines + 1, discarding := false) else r)
    else if c == '\n' then Reader(r.items + LineItems(r.lines + 1, r.pending), r.lines + 1, [], false)
    else r.(pending := r.pending + [c])
  }

  function Feed(r: Reader, text: string): Reader {
    if text == [] then r else FeedChar(Feed(r, text[..|text| - 1]), text[|text| - 1])
  }

  /** Only at the end of a chunk is the unfinished line held against the cap. */
  function EndChunk(r: Reader): Reader {
    if r.discarding || Bytes(r.pending) <= LINE_CAP then r
    else Reader(r.items + [Oversize(r.lines + 1)], r.lines, [], true)
  }

  function ReadChunks(chunks: seq<string>): Reader {
    if chunks == [] then START else EndChunk(Feed(ReadChunks(chunks[..|chunks| - 1]), chunks[|chunks| - 1]))
  }

  function Concat(chunks: seq<string>): string {
    if chunks == [] then [] else Concat(chunks[..|chunks| - 1]) + chunks[|chunks| - 1]
  }

  lemma {:induction false} FeedConcat(r: Reader, a: string, b: string)
    ensures Feed(r, a + b) == Feed(Feed(r, a), b)
  {
    hide FeedChar;
    if b == [] {
      assert a + b == a;
    } else {
      FeedConcat(r, a, b[..|b| - 1]);
      assert (a + b)[..|a + b| - 1] == a + b[..|b| - 1];
    }
  }

  lemma FeedOne(r: Reader, c: char)
    ensures Feed(r, [c]) == FeedChar(r, c)
  {
    hide FeedChar;
    assert [c][..0] == [];
  }

  lemma {:induction false} FeedPlain(r: Reader, text: string)
    requires '\n' !in text
    ensures Feed(r, text) == if r.discarding then r else r.(pending := r.pending + text)
  {
    if text == [] {
      assert r.pending + text == r.pending;
    } else {
      FeedPlain(r, text[..|text| - 1]);
      assert text == text[..|text| - 1] + [text[|text| - 1]];
    }
  }

  lemma {:induction false} FeedNeverDiscards(r: Reader, text: string)
    requires !r.discarding
    ensures !Feed(r, text).discarding
  {
    if text != [] {
      FeedNeverDiscards(r, text[..|text| - 1]);
    }
  }

  // ----- When chunks do not matter -----

  /** Over the cap as it stands, but not an oversize line once its newline is there: blank, or within the cap without its CR. */
  predicate Borderline(line: string) {
    Bytes(line) > LINE_CAP && (Blank(StripCr(line)) || Bytes(StripCr(line)) <= LINE_CAP)
  }

  /** The line that the newline at p completes. */
  function LineAt(text: string, p: nat): string
    requires p < |text|
  {
    Feed(START, text[..p]).pending
  }

  ghost predicate NoBorderline(text: string) {
    forall p: nat :: p < |text| && text[p] == '\n' ==> !Borderline(LineAt(text, p))
  }

  function IndexOf(s: string, from: nat): (x: int)
    requires from <= |s|
    ensures -1 <= x < |s|
    ensures x >= 0 ==> from <= x && s[x] == '\n' && '\n' !in s[from..x]
    ensures x == -1 ==> '\n' !in s[from..]
    decreases |s| - from
  {
    if from == |s| then -1
    else if s[from] == '\n' then from
    else
      var x := IndexOf(s, from + 1);
      assert s[from..] == [s[from]] + s[from + 1..];
      assert x >= 0 ==> s[from..x] == [s[from]] + s[from + 1..x];
      x
  }

  /** A discarded line and the same line kept meet again at its newline. */
  lemma MeetAtNewline(p: Reader, line: string)
    requires !p.discarding && Bytes(p.pending) > LINE_CAP && '\n' !in line && !Borderline(p.pending + line)
    ensures Feed(EndChunk(p), line + ['\n']) == Feed(p, line + ['\n'])
  {
    FeedConcat(p, line, ['\n']);
    FeedConcat(EndChunk(p), line, ['\n']);
    FeedPlain(p, line);
    FeedPlain(EndChunk(p), line);
    FeedOne(Feed(p, line), '\n');
    FeedOne(Feed(EndChunk(p), line), '\n');
    BytesConcat(p.pending, line);
  }

  /** Without a newline the discarded and the kept line end the chunk alike. */
  lemma MeetAtChunkEnd(p: Reader, chunk: string)
    requires !p.discarding && Bytes(p.pending) > LINE_CAP && '\n' !in chunk
    ensures EndChunk(Feed(EndChunk(p), chunk)) == EndChunk(Feed(p, chunk))
  {
    hide Feed, Bytes;
    FeedPlain(p, chunk);
    FeedPlain(EndChunk(p), chunk);
    BytesConcat(p.pending, chunk);
  }

  lemma MeetInChunk(p: Reader, line: string, rest: string)
    requires !p.discarding && Bytes(p.pending) > LINE_CAP && '\n' !in line && !Borderline(p.pending + line)
    ensures Feed(EndChunk(p), line + ['\n'] + rest) == Feed(p, line + ['\n'] + rest)
  {
    hide Feed, Bytes, Borderline, EndChunk;
    MeetAtNewline(p, line);
    FeedConcat(p, line + ['\n'], rest);
    FeedConcat(EndChunk(p), line + ['\n'], rest);
  }

  /** The first line of a chunk goes on with what was pending. */
  lemma LineGoesOn(text: string, line: string, rest: string)
    requires '\n' !in line && !Feed(START, text).discarding
    ensures var whole := text + (line + ['\n'] + rest);
            whole[|text| + |line|] == '\n' && LineAt(whole, |text| + |line|) == Feed(START, text).pending + line
  {
    hide Feed;
    var whole := text + (line + ['\n'] + rest);
    assert whole[..|text| + |line|] == text + line;
    FeedConcat(START, text, line);
    FeedPlain(Feed(START, text), line);
  }

  /** Ending a chunk early makes no difference at the end of the next one. */
  lemma EarlyEnd(text: string, chunk: string)
    requires NoBorderline(text + chunk)
    ensures EndChunk(Feed(EndChunk(Feed(START, text)), chunk)) == EndChunk(Feed(START, text + chunk))
  {
    hide Feed, Borderline, Bytes, LineAt;
    var p := Feed(START, text);
    FeedConcat(START, text, chunk);
    FeedNeverDiscards(START, text);
    if Bytes(p.pending) > LINE_CAP {
      var x := IndexOf(chunk, 0);
      if x < 0 {
        assert chunk[0..] == chunk;
        MeetAtChunkEnd(p, chunk);
      } else {
        var line, rest := chunk[..x], chunk[x + 1..];
        assert chunk == line + ['\n'] + rest && chunk[0..x] == line;
        LineGoesOn(text, line, rest);
        MeetInChunk(p, line, rest);
      }
    }
  }

  lemma PrefixNoBorderline(a: string, b: string)
    requires NoBorderline(a + b)
    ensures NoBorderline(a)
  {
    hide Borderline, Feed;
    forall p: nat | p < |a| && a[p] == '\n' ensures !Borderline(LineAt(a, p)) {
      assert (a + b)[p] == '\n' && (a + b)[..p] == a[..p];
      assert LineAt(a + b, p) == LineAt(a, p);
    }
  }

  /** Without borderline lines, reading any chunks is reading the whole text at once. */
  lemma {:induction false} ChunksDoNotMatter(chunks: seq<string>)
    requires NoBorderline(Concat(chunks))
    ensures ReadChunks(chunks) == EndChunk(Feed(START, Concat(chunks)))
  {
    hide FeedChar, Feed, NoBorderline, EndChunk;
    if chunks == [] {
      StartIsEnded();
    } else {
      var init, last := chunks[..|chunks| - 1], chunks[|chunks| - 1];
      PrefixNoBorderline(Concat(init), last);
      ChunksDoNotMatter(init);
      EarlyEnd(Concat(init), last);
    }
  }

  lemma StartIsEnded()
    ensures EndChunk(Feed(START, [])) == START
  {
  }

  // ----- When they do -----

  /** What feeding adds does not depend on the items there already. */
  lemma {:induction false} FeedAdds(r: Reader, items: seq<Item>, text: string) returns (added: seq<Item>)
    ensures Feed(r, text).items == r.items + added
    ensures Feed(r.(items := items), text) == Feed(r, text).(items := items + added)
  {
    if text == [] {
      added := [];
    } else {
      hide FeedChar;
      var init, c := text[..|text| - 1], text[|text| - 1];
      var before := FeedAdds(r, items, init);
      var s := Feed(r, init);
      var more := FeedCharAdds(s, items + before, c);
      added := before + more;
      assert r.items + before + more == r.items + added;
      assert items + before + more == items + added;
      assert Feed(r.(items := items), text) == FeedChar(Feed(r.(items := items), init), c);
    }
  }

  lemma FeedCharAdds(s: Reader, items: seq<Item>, c: char) returns (added: seq<Item>)
    ensures FeedChar(s, c).items == s.items + added
    ensures FeedChar(s.(items := items), c) == FeedChar(s, c).(items := items + added)
  {
    hide LineItems;
    added := if !s.discarding && c == '\n' then LineItems(s.lines + 1, s.pending) else [];
  }

  lemma EndChunkTellsApart(r: Reader, s: Reader)
    requires s == r.(items := s.items) && r.items != s.items
    ensures EndChunk(r) != EndChunk(s)
  {
    if !r.discarding && Bytes(r.pending) > LINE_CAP {
      var o := [Oversize(r.lines + 1)];
      assert r.items == (r.items + o)[..|r.items + o| - 1] && s.items == (s.items + o)[..|s.items + o| - 1];
    }
  }

  /** A borderline line makes the reading depend on whether a chunk ends right before its newline. */
  lemma ChunksMatter(text: string, p: nat)
    requires p < |text| && text[p] == '\n' && Borderline(LineAt(text, p))
    ensures text == Concat([text]) == Concat([text[..p], text[p..]])
    ensures ReadChunks([text]) != ReadChunks([text[..p], text[p..]])
  {
    hide FeedChar;
    var a, b := text[..p], text[p + 1..];
    assert text[p..] == ['\n'] + b && text == a + text[p..];
    OneChunk(text);
    TwoChunks(a, text[p..]);
    var r := Feed(START, a);
    FeedNeverDiscards(START, a);
    FeedConcat(START, a, text[p..]);
    FeedConcat(r, ['\n'], b);
    FeedConcat(EndChunk(r), ['\n'], b);
    FeedOne(r, '\n');
    FeedOne(EndChunk(r), '\n');
    var kept := FeedChar(r, '\n');
    var dropped := FeedChar(EndChunk(r), '\n');
    SplitPaths(r);
    var added := FeedAdds(kept, dropped.items, b);
    assert Feed(kept, b).items != Feed(dropped, b).items by {
      assert kept.items == (kept.items + added)[..|kept.items|];
      assert dropped.items == (dropped.items + added)[..|dropped.items|];
    }
    EndChunkTellsApart(Feed(kept, b), Feed(dropped, b));
  }

  lemma SplitPaths(r: Reader)
    requires !r.discarding && Borderline(r.pending)
    ensures var kept := FeedChar(r, '\n');
            var dropped := FeedChar(EndChunk(r), '\n');
            dropped == kept.(items := dropped.items) && kept.items != dropped.items
  {
    var line := LineItems(r.lines + 1, r.pending);
    var error := [Oversize(r.lines + 1)];
    assert line == (r.items + line)[|r.items|..] && error == (r.items + error)[|r.items|..];
  }

  function Repeat(c: char, n: nat): (s: string)
    ensures |s| == n && forall i :: 0 <= i < n ==> s[i] == c
  {
    if n == 0 then [] else Repeat(c, n - 1) + [c]
  }

  lemma {:induction false} RepeatBytes(n: nat)
    ensures Bytes(Repeat('x', n)) == n
  {
    if n > 0 {
      RepeatBytes(n - 1);
      assert Repeat('x', n)[..n - 1] == Repeat('x', n - 1);
    }
  }

  /** There are such lines: exactly the cap, then a carriage return. */
  lemma BorderlineExists()
    ensures Borderline(Repeat('x', LINE_CAP) + ['\r'])
  {
    hide Bytes, Repeat;
    var text := Repeat('x', LINE_CAP);
    RepeatBytes(LINE_CAP);
    BytesConcat(text, ['\r']);
    assert StripCr(text + ['\r']) == text;
    assert Bytes(['\r']) == 1 by { CrIsOneByte(); }
  }

  /** A file of one such line, and two ways to cut it that are read differently. */
  lemma CutsReadDifferently()
    ensures var line := Repeat('x', LINE_CAP) + ['\r'];
            && Concat([line + ['\n']]) == Concat([line, ['\n']]) == line + ['\n']
            && ReadChunks([line + ['\n']]) != ReadChunks([line, ['\n']])
  {
    hide Borderline, Repeat, Feed, ReadChunks, Concat;
    var line := Repeat('x', LINE_CAP) + ['\r'];
    var text := line + ['\n'];
    BorderlineExists();
    assert text[..|line|] == line && text[|line|..] == ['\n'];
    FeedPlain(START, line);
    assert [] + line == line;
    ChunksMatter(text, |line|);
  }

  lemma CrIsOneByte()
    ensures Bytes(['\r']) == 1
  {
    assert ['\r'][..0] == [];
  }

  lemma OneChunk(text: string)
    ensures Concat([text]) == text && ReadChunks([text]) == EndChunk(Feed(START, text))
  {
    assert [text][..0] == [];
  }

  lemma TwoChunks(a: string, b: string)
    ensures Concat([a, b]) == a + b && ReadChunks([a, b]) == EndChunk(Feed(EndChunk(Feed(START, a)), b))
  {
    assert [a, b][..1] == [a];
    OneChunk(a);
  }

  /**
   * How a file is cut into chunks is invisible if and only if no complete line is
   * borderline; then the documents and errors are those of a plain newline split.
   */
  lemma ChunkingInvisibleIff(text: string)
    ensures NoBorderline(text) <==> ChunkingInvisible(text)
  {
    hide Feed, ReadChunks, EndChunk, Borderline, ChunkingInvisible;
    if NoBorderline(text) {
      AllChunkingsAgree(text);
    } else {
      var p: nat :| p < |text| && text[p] == '\n' && Borderline(LineAt(text, p));
      SomeChunkingsDiffer(text, p);
    }
  }

  ghost predicate ChunkingInvisible(text: string) {
    forall chunks :: Concat(chunks) == text ==> ReadChunks(chunks) == EndChunk(Feed(START, text))
  }

  lemma AllChunkingsAgree(text: string)
    requires NoBorderline(text)
    ensures ChunkingInvisible(text)
  {
    hide FeedChar, Feed, ReadChunks, EndChunk, NoBorderline;
    forall chunks | Concat(chunks) == text ensures ReadChunks(chunks) == EndChunk(Feed(START, text)) {
      ChunksDoNotMatter(chunks);
    }
  }

  lemma SomeChunkingsDiffer(text: string, p: nat)
    requires p < |text| && text[p] == '\n' && Borderline(LineAt(text, p))
    ensures !ChunkingInvisible(text)
  {
    hide FeedChar, Feed, ReadChunks, EndChunk, Borderline;
    ChunksMatter(text, p);
    OneChunk(text);
  }

  // ----- The plain split -----

  datatype Tail = NewlineTerminated | OversizeTail | UnterminatedTail(line: nat, text: string)

  datatype Reading = Reading(items: seq<Item>, completeLines: nat, tail: Tail)

  function Finish(r: Reader): Reading {
    Reading(r.items, r.lines,
            if r.discarding then OversizeTail
            else if !Blank(r.pending) then UnterminatedTail(r.lines + 1, r.pending)
            else NewlineTerminated)
  }

  /** The complete lines of a text: what a plain split at newlines gives, without its last part. */
  function LinesOf(text: string): seq<string>
    decreases |text|
  {
    var x := IndexOf(text, 0);
    if x < 0 then [] else [text[..x]] + LinesOf(text[x + 1..])
  }

  /** The last part: what follows the last newline. */
  function RestOf(text: string): string
    decreases |text|
  {
    var x := IndexOf(text, 0);
    if x < 0 then text else RestOf(text[x + 1..])
  }

  /** What numbered lines give rise to, the first being number n + 1. */
  function Numbered(lines: seq<string>, n: nat): seq<Item> {
    if lines == [] then [] else LineItems(n + 1, lines[0]) + Numbered(lines[1..], n + 1)
  }

  lemma TakesLine(r: Reader, pending: string, newline: nat)
    requires !r.discarding && newline < |pending| && pending[newline] == '\n' && '\n' !in pending[..newline]
    ensures Feed(r.(pending := []), pending)
            == Feed(Reader(r.items + LineItems(r.lines + 1, pending[..newline]), r.lines + 1, [], false), pending[newline + 1..])
  {
    hide FeedChar, Feed, LineItems;
    var line, rest := pending[..newline], pending[newline + 1..];
    assert pending == (line + ['\n']) + rest;
    FeedConcat(r.(pending := []), line + ['\n'], rest);
    TakesOne(r.items, r.lines, line);
  }

  lemma TakesOne(items: seq<Item>, lines: nat, line: string)
    requires '\n' !in line
    ensures Feed(Reader(items, lines, [], false), line + ['\n'])
         == Reader(items + LineItems(lines + 1, line), lines + 1, [], false)
  {
    hide FeedChar, Feed, LineItems;
    var s := Reader(items, lines, [], false);
    FeedConcat(s, line, ['\n']);
    FeedPlain(s, line);
    assert [] + line == line;
    FeedOne(s.(pending := line), '\n');
    NewlineTakes(s.(pending := line));
  }

  lemma NewlineTakes(r: Reader)
    requires !r.discarding
    ensures FeedChar(r, '\n') == Reader(r.items + LineItems(r.lines + 1, r.pending), r.lines + 1, [], false)
  {
  }

  /** The plain split of a text with a newline is its first line and the split of the rest. */
  lemma SplitFirst(text: string, x: nat)
    requires IndexOf(text, 0) == x
    ensures '\n' !in text[..x] && x < |text| && text[x] == '\n'
    ensures LinesOf(text) == [text[..x]] + LinesOf(text[x + 1..]) && RestOf(text) == RestOf(text[x + 1..])
  {
    hide IndexOf;
    assert text[0..x] == text[..x];
  }

  lemma SplitNone(text: string)
    requires IndexOf(text, 0) < 0
    ensures '\n' !in text && LinesOf(text) == [] && RestOf(text) == text
  {
    hide IndexOf;
    assert text[0..] == text;
  }

  lemma NumberedFirst(items: seq<Item>, n: nat, line: string, lines: seq<string>)
    ensures items + Numbered([line] + lines, n) == items + LineItems(n + 1, line) + Numbered(lines, n + 1)
    ensures items + Numbered([], n) == items
  {
    hide LineItems;
    assert ([line] + lines)[1..] == lines;
  }

  /** Reading a text at once gives the items of its plain split, in order, and leaves its last part pending. */
  lemma {:induction false} PlainSplit(items: seq<Item>, n: nat, text: string)
    ensures Feed(Reader(items, n, [], false), text)
         == Reader(items + Numbered(LinesOf(text), n), n + |LinesOf(text)|, RestOf(text), false)
    decreases |text|
  {
    hide Feed, LineItems, IndexOf, LinesOf, RestOf, Numbered;
    var r := Reader(items, n, [], false);
    var x := IndexOf(text, 0);
    if x < 0 {
      SplitNone(text);
      FeedPlain(r, text);
      NumberedFirst(items, n, [], []);
      assert [] + text == text;
    } else {
      SplitFirst(text, x);
      var line, rest := text[..x], text[x + 1..];
      TakesLine(r, text, x);
      PlainSplit(items + LineItems(n + 1, line), n + 1, rest);
      NumberedFirst(items, n, line, LinesOf(rest));
    }
  }

  lemma IndexIs(text: string, x: nat)
    requires x < |text| && text[x] == '\n' && '\n' !in text[..x]
    ensures IndexOf(text, 0) == x
  {
    var y := IndexOf(text, 0);
    assert text[0..] == text && text[x] in text;
    assert forall i :: 0 <= i < x ==> text[..x][i] == text[i];
    assert forall i :: 0 <= i < y ==> text[0..y][i] == text[i];
  }

  lemma RestOfPlain(text: string)
    requires '\n' !in text
    ensures RestOf(text) == text
  {
  }

  /** What stands before the first newline does not touch the rest of a longer text. */
  lemma RestAfterLine(text: string, x: nat, p: nat)
    requires IndexOf(text, 0) == x < p <= |text|
    ensures RestOf(text[..p]) == RestOf(text[x + 1..][..p - x - 1])
  {
    hide IndexOf;
    assert text[..p][..x] == text[0..x];
    IndexIs(text[..p], x);
    assert text[..p][x + 1..] == text[x + 1..][..p - x - 1];
  }

  /** The line that a newline completes is one of the plain lines. */
  lemma {:induction false} CompletedIsPlain(text: string, p: nat)
    requires p < |text| && text[p] == '\n'
    ensures RestOf(text[..p]) in LinesOf(text)
    decreases |text|
  {
    hide IndexOf, RestOf;
    var x := IndexOf(text, 0);
    assert text[0..] == text && text[p] in text;
    if x == p {
      assert text[..p] == text[0..x];
      RestOfPlain(text[..p]);
    } else {
      assert x < p by { assert forall i :: 0 <= i < x ==> text[0..x][i] == text[i]; }
      RestAfterLine(text, x, p);
      CompletedIsPlain(text[x + 1..], p - x - 1);
    }
  }

  /** Every plain line is completed by some newline. */
  lemma {:induction false} PlainIsCompleted(text: string, line: string) returns (p: nat)
    requires line in LinesOf(text)
    ensures p < |text| && text[p] == '\n' && RestOf(text[..p]) == line
    decreases |text|
  {
    hide IndexOf, RestOf;
    var x := IndexOf(text, 0);
    if line == text[..x] {
      p := x;
      assert text[..p] == text[0..x];
      RestOfPlain(text[..p]);
    } else {
      var q := PlainIsCompleted(text[x + 1..], line);
      p := x + 1 + q;
      RestAfterLine(text, x, p);
    }
  }

  /** So the condition on chunks is a condition on the lines of the plain split. */
  lemma NoBorderlineIs(text: string)
    ensures NoBorderline(text) <==> forall line :: line in LinesOf(text) ==> !Borderline(line)
  {
    hide Borderline, Feed, LinesOf, RestOf;
    forall p: nat | p < |text| && text[p] == '\n'
      ensures LineAt(text, p) == RestOf(text[..p]) && LineAt(text, p) in LinesOf(text)
    {
      PlainSplit([], 0, text[..p]);
      CompletedIsPlain(text, p);
    }
    if NoBorderline(text) {
      forall line | line in LinesOf(text) ensures !Borderline(line) {
        var p := PlainIsCompleted(text, line);
        assert LineAt(text, p) == line;
      }
    }
  }

  // ----- What the plain split is -----

  /** Lines each followed by a newline, and the rest. */
  function Rejoined(lines: seq<string>, rest: string): string {
    if lines == [] then rest else lines[0] + ['\n'] + Rejoined(lines[1..], rest)
  }

  /** The lines and the rest hold no newline and make up the text: there is only one such split. */
  lemma {:induction false} SplitRejoins(text: string)
    ensures Rejoined(LinesOf(text), RestOf(text)) == text
    ensures '\n' !in RestOf(text) && forall k :: 0 <= k < |LinesOf(text)| ==> '\n' !in LinesOf(text)[k]
    decreases |text|
  {
    hide IndexOf, LinesOf, RestOf;
    var x := IndexOf(text, 0);
    if x < 0 {
      SplitNone(text);
    } else {
      SplitFirst(text, x);
      SplitRejoins(text[x + 1..]);
      assert ([text[..x]] + LinesOf(text[x + 1..]))[1..] == LinesOf(text[x + 1..]);
      assert text == text[..x] + ['\n'] + text[x + 1..];
    }
  }

  /** The text of a line: without the carriage return at its end, if it has one. */
  ghost predicate TextOf(line: string, text: string) {
    line == text + ['\r'] || (line == text && (line == [] || line[|line| - 1] != '\r'))
  }

  ghost predicate HasVisible(text: string) {
    exists i :: 0 <= i < |text| && !IsWhitespace(text[i])
  }

  /** The line gives rise to this item under this number. */
  ghost predicate Yields(line: string, number: nat, item: Item) {
    && item.line == number
    && match item
       case Document(_, text) => TextOf(line, text) && HasVisible(text) && Bytes(text) <= LINE_CAP
       case Oversize(_) => exists text :: TextOf(line, text) && HasVisible(text) && Bytes(text) > LINE_CAP
  }

  lemma LineYields(number: nat, line: string)
    ensures |LineItems(number, line)| <= 1
    ensures forall item :: item in LineItems(number, line) <==> Yields(line, number, item)
  {
    hide Bytes;
    var raw := StripCr(line);
    assert TextOf(line, raw) by {
      assert line != [] ==> line == line[..|line| - 1] + [line[|line| - 1]];
    }
    forall text | TextOf(line, text) ensures text == raw {
      assert (text + ['\r'])[..|text|] == text;
    }
    assert Blank(raw) <==> !HasVisible(raw);
  }

  /** The items come in the order of their lines. */
  lemma {:induction false} NumberedInOrder(lines: seq<string>, n: nat)
    ensures forall i :: 0 <= i < |Numbered(lines, n)| ==> n < Numbered(lines, n)[i].line <= n + |lines|
    ensures forall i, j :: 0 <= i < j < |Numbered(lines, n)| ==> Numbered(lines, n)[i].line < Numbered(lines, n)[j].line
  {
    if lines != [] {
      hide LineItems;
      NumberedInOrder(lines[1..], n + 1);
      LineNumbered(n + 1, lines[0]);
    }
  }

  lemma LineNumbered(number: nat, line: string)
    ensures var items := LineItems(number, line); |items| <= 1 && forall i :: 0 <= i < |items| ==> items[i].line == number
  {
    hide Bytes, Blank;
  }

  /** A document or an error is that of the line at the position its number tells. */
  lemma {:induction false} NumberedMeans(lines: seq<string>, n: nat, item: Item)
    ensures item in Numbered(lines, n) <==> n < item.line <= n + |lines| && Yields(lines[item.line - n - 1], item.line, item)
  {
    if lines != [] {
      hide LineItems, Yields;
      NumberedMeans(lines[1..], n + 1, item);
      LineYields(n + 1, lines[0]);
      assert item in Numbered(lines, n) <==> item in LineItems(n + 1, lines[0]) || item in Numbered(lines[1..], n + 1);
      if Yields(lines[0], n + 1, item) {
        YieldsNumber(lines[0], n + 1, item);
      }
    }
  }

  lemma YieldsNumber(line: string, number: nat, item: Item)
    requires Yields(line, number, item)
    ensures item.line == number
  {
  }

  /** The reading of a whole text by its plain split. */
  function PlainReading(text: string): Reading {
    var lines, rest := LinesOf(text), RestOf(text);
    if Bytes(rest) > LINE_CAP then Reading(Numbered(lines, 0) + [Oversize(|lines| + 1)], |lines|, OversizeTail)
    else Reading(Numbered(lines, 0), |lines|,
                 if Blank(rest) then NewlineTerminated else UnterminatedTail(|lines| + 1, rest))
  }

  /** The reading told by the lines of the text and what follows the last newline. */
  ghost predicate ReadsAs(text: string, lines: seq<string>, rest: string, reading: Reading) {
    && Rejoined(lines, rest) == text && '\n' !in rest && (forall k :: 0 <= k < |lines| ==> '\n' !in lines[k])
    && reading.completeLines == |lines|
    && (forall item :: item in reading.items <==>
          || (1 <= item.line <= |lines| && Yields(lines[item.line - 1], item.line, item))
          || (Bytes(rest) > LINE_CAP && item == Oversize(|lines| + 1)))
    && (forall i, j :: 0 <= i < j < |reading.items| ==> reading.items[i].line < reading.items[j].line)
    && (reading.tail == OversizeTail <==> Bytes(rest) > LINE_CAP)
    && (forall n, t :: reading.tail == UnterminatedTail(n, t)
          <==> Bytes(rest) <= LINE_CAP && HasVisible(rest) && n == |lines| + 1 && t == rest)
  }

  lemma PlainReadsAs(text: string)
    ensures ReadsAs(text, LinesOf(text), RestOf(text), PlainReading(text))
  {
    hide LinesOf, RestOf, Numbered, Rejoined, Bytes, Yields;
    var lines, rest := LinesOf(text), RestOf(text);
    SplitRejoins(text);
    NumberedInOrder(lines, 0);
    forall item ensures item in Numbered(lines, 0) <==> 0 < item.line <= |lines| && Yields(lines[item.line - 1], item.line, item) {
      NumberedMeans(lines, 0, item);
    }
    assert Blank(rest) <==> !HasVisible(rest);
  }

  lemma PlainFinish(text: string)
    ensures Finish(EndChunk(Feed(START, text))) == PlainReading(text)
  {
    hide Feed, LinesOf, RestOf, Numbered, Bytes, Blank;
    PlainSplit([], 0, text);
    assert [] + Numbered(LinesOf(text), 0) == Numbered(LinesOf(text), 0);
  }

  // ----- The stream loop -----

  /** A reader between chunks: no newline is pending, and nothing when a line is being discarded. */
  ghost predicate Settled(r: Reader) {
    '\n' !in r.pending && (r.discarding ==> r.pending == []) && Bytes(r.pending) <= LINE_CAP
  }

  /** The rest of a chunk after the line being discarded, or nothing if that line goes on. */
  method SkipDiscarded(r: Reader, chunk: string) returns (remainder: Option<string>)
    requires r.discarding && r.pending == []
    ensures remainder.None? ==> Feed(r, chunk) == r
    ensures remainder.Some? ==> Feed(r, chunk) == Feed(r.(lines := r.lines + 1, discarding := false), remainder.value)
  {
    hide FeedChar, Feed, IndexOf;
    var newline := IndexOf(chunk, 0);
    assert chunk[0..] == chunk;
    if newline == -1 {
      FeedPlain(r, chunk);
      return None;
    }
    assert chunk == (chunk[..newline] + ['\n']) + chunk[newline + 1..];
    assert chunk[..newline] == chunk[0..newline];
    SkipsLine(r, chunk[..newline], chunk[newline + 1..]);
    return Some(chunk[newline + 1..]);
  }

  /** Feeding what was pending and then the remainder is feeding both at once. */
  lemma PendingFirst(items: seq<Item>, lines: nat, pending: string, remainder: string)
    requires '\n' !in pending
    ensures Feed(Reader(items, lines, [], false), pending + remainder)
         == Feed(Reader(items, lines, pending, false), remainder)
  {
    hide Feed;
    var at := Reader(items, lines, [], false);
    FeedPlain(at, pending);
    assert [] + pending == pending;
    FeedConcat(at, pending, remainder);
  }

  /** The loop that takes complete lines out of the pending text, searching from where newlines can be. */
  method TakeLines(items0: seq<Item>, lines0: nat, text: string, from: nat)
    returns (items: seq<Item>, lines: nat, pending: string)
    requires from <= |text| && '\n' !in text[..from]
    ensures '\n' !in pending
    ensures Reader(items, lines, pending, false) == Feed(Reader(items0, lines0, [], false), text)
  {
    hide FeedChar, Feed, LineItems, IndexOf;
    items, lines, pending := items0, lines0, text;
    var newline := IndexOf(pending, from);
    SearchFrom(pending, from, newline);
    while newline != -1
      invariant -1 <= newline < |pending|
      invariant newline == -1 ==> '\n' !in pending
      invariant newline >= 0 ==> pending[newline] == '\n' && '\n' !in pending[..newline]
      invariant Feed(Reader(items, lines, [], false), pending) == Feed(Reader(items0, lines0, [], false), text)
      decreases |pending|
    {
      TakesLine(Reader(items, lines, [], false), pending, newline);
      items := items + LineItems(lines + 1, pending[..newline]);
      lines, pending := lines + 1, pending[newline + 1..];
      newline := IndexOf(pending, 0);
      SearchFrom(pending, 0, newline);
    }
    FeedPlain(Reader(items, lines, [], false), pending);
    assert [] + pending == pending;
  }

  /** One chunk through the loop of the source. */
  method ReadChunk(r: Reader, chunk: string) returns (next: Reader)
    requires Settled(r)
    ensures next == EndChunk(Feed(r, chunk)) && Settled(next)
  {
    hide FeedChar, Feed, LineItems, Bytes, IndexOf;
    var lines, remainder := r.lines, chunk;
    if r.discarding {
      var rest := SkipDiscarded(r, chunk);
      if rest.None? {
        return r;
      }
      lines, remainder := lines + 1, rest.value;
    }
    PendingFirst(r.items, lines, r.pending, remainder);
    var items, pending := r.items, r.pending + remainder;
    assert pending[..|r.pending|] == r.pending;
    // The part before the remainder holds no newline.
    items, lines, pending := TakeLines(items, lines, pending, |pending| - |remainder|);
    if Bytes(pending) > LINE_CAP {
      NoBytes();
      return Reader(items + [Oversize(lines + 1)], lines, [], true);
    }
    return Reader(items, lines, pending, false);
  }

  lemma NoBytes()
    ensures Bytes([]) == 0
  {
  }

  lemma SearchFrom(pending: string, from: nat, newline: int)
    requires from <= |pending| && '\n' !in pending[..from] && newline == IndexOf(pending, from)
    ensures newline == -1 ==> '\n' !in pending
    ensures newline >= 0 ==> from <= newline < |pending| && pending[newline] == '\n' && '\n' !in pending[..newline]
  {
    assert pending == pending[..from] + pending[from..];
    if newline >= 0 {
      assert pending[..newline] == pending[..from] + pending[from..newline];
    }
  }

  lemma SkipsLine(r: Reader, line: string, rest: string)
    requires r.discarding && '\n' !in line
    ensures Feed(r, line + ['\n'] + rest) == Feed(r.(lines := r.lines + 1, discarding := false), rest)
  {
    FeedConcat(r, line + ['\n'], rest);
    FeedConcat(r, line, ['\n']);
    FeedPlain(r, line);
    FeedOne(r, '\n');
  }

  /**
   * The stream read to its end. Files without borderline lines give the documents,
   * line numbers and tail of a plain newline split, however they were cut.
   */
  method ReadTraceText(chunks: seq<string>) returns (reading: Reading)
    ensures reading == Finish(ReadChunks(chunks))
    ensures (forall line :: line in LinesOf(Concat(chunks)) ==> !Borderline(line)) ==>
              exists lines, rest :: ReadsAs(Concat(chunks), lines, rest, reading)
  {
    hide FeedChar, Feed, EndChunk, Bytes, Finish, NoBorderline, Borderline, PlainReading, LinesOf, ReadsAs;
    var r := START;
    NoBytes();
    for k := 0 to |chunks|
      invariant r == ReadChunks(chunks[..k])
      invariant Settled(r)
    {
      assert chunks[..k + 1][..k] == chunks[..k];
      r := ReadChunk(r, chunks[k]);
    }
    assert chunks[..|chunks|] == chunks;
    NoBorderlineIs(Concat(chunks));
    if NoBorderline(Concat(chunks)) {
      ChunksDoNotMatter(chunks);
      PlainFinish(Concat(chunks));
      PlainReadsAs(Concat(chunks));
    }
    reading := Finish(r);
  }
}
