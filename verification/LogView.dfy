/**
 The part of a growing log to write next: complete lines, stripped of their
 stamps, each of them once over all looks. A text is its bytes.
 */
module LogView {
  import opened Sequences

  /** A line from its 33rd byte on when bytes 27 to 32 look like the end of a stamp, else all of it. */
  function Untimed(line: string): string {
    if |line| >= 32 && line[26] == 'Z' && line[27] == ' '
       && (line[30] == 'O' || line[30] == 'E') && (line[31] == ' ' || line[31] == '+')
    then line[32..] else line
  }

  /** A line without the carriage return before its newline. */
  function WithoutReturn(line: string): string {
    if line != [] && line[|line| - 1] == '\r' then line[..|line| - 1] else line
  }

  /** Where the first newline of `s` is, or its length. */
  function LineEnd(s: string): (k: nat)
    ensures k <= |s|
  {
    if s == [] || s[0] == '\n' then 0 else 1 + LineEnd(s[1..])
  }

  /** The lines of a text; the last may lack its newline. */
  function LinesOf(s: string): seq<string>
    decreases |s|
  {
    var k := LineEnd(s);
    if s == [] then []
    else if k == |s| then [s]
    else [WithoutReturn(s[..k])] + LinesOf(s[k + 1..])
  }

  /** How much of `s` is whole lines. */
  function WholeLines(s: string): (n: nat)
    ensures n <= |s|
  {
    if s == [] || s[|s| - 1] == '\n' then |s| else WholeLines(s[..|s| - 1])
  }

  /** The whole lines of `s`, without stamps. */
  function Render(s: string): string
    decreases |s|
  {
    var k := LineEnd(s);
    if k == |s| then []
    else Shown(s[..k]) + Render(s[k + 1..])
  }

  /** One line as it is written. */
  function Shown(line: string): string {
    Untimed(WithoutReturn(line)) + "\n"
  }

  ghost predicate AtLineStart(s: string) {
    s == [] || s[|s| - 1] == '\n'
  }

  // --- What is taken off a line ---

  /** A time to the microsecond, its zone, a stream's number and kind, and whether the line goes on. */
  ghost predicate IsStamp(stamp: string) {
    exists time, stream, kind, goesOn ::
      && |time| == 26 && |stream| == 2 && kind in {'O', 'E'} && goesOn in {' ', '+'}
      && stamp == time + "Z " + stream + [kind, goesOn]
  }

  lemma StampAt(stamp: string)
    ensures IsStamp(stamp) <==>
      && |stamp| == 32 && stamp[26] == 'Z' && stamp[27] == ' '
      && stamp[30] in {'O', 'E'} && stamp[31] in {' ', '+'}
  {
    if |stamp| == 32 && stamp[26] == 'Z' && stamp[27] == ' ' && stamp[30] in {'O', 'E'} && stamp[31] in {' ', '+'} {
      assert stamp == stamp[..26] + "Z " + stamp[28..30] + [stamp[30], stamp[31]];
    }
  }

  /** A line is cut where its stamp ends, and one that bears none is left whole. */
  lemma UntimedExactly(line: string)
    ensures forall stamp | IsStamp(stamp) && stamp <= line :: Untimed(line) == line[|stamp|..]
    ensures (forall stamp | IsStamp(stamp) :: !(stamp <= line)) ==> Untimed(line) == line
  {
    forall stamp | IsStamp(stamp) && stamp <= line ensures Untimed(line) == line[|stamp|..] {
      StampAt(stamp);
    }
    if |line| >= 32 {
      StampAt(line[..32]);
      assert line[..32] <= line;
    }
  }

  // --- Rendering piece by piece ---

  lemma {:induction false} LineEndPrefix(a: string, b: string)
    requires LineEnd(a) < |a|
    ensures LineEnd(a + b) == LineEnd(a)
  {
    if a[0] != '\n' {
      assert (a + b)[1..] == a[1..] + b;
      LineEndPrefix(a[1..], b);
    }
  }

  lemma {:induction false} NoNewline(s: string)
    requires '\n' !in s
    ensures LineEnd(s) == |s| && Render(s) == []
  {
    if s != [] {
      assert s[0] in s;
      NoNewline(s[1..]);
    }
  }

  lemma {:induction false} RenderJoins(a: string, b: string)
    requires AtLineStart(a)
    ensures Render(a + b) == Render(a) + Render(b)
    decreases |a|
  {
    if a == [] {
      assert a + b == b;
    } else {
      HasLine(a);
      var k := LineEnd(a);
      var rest := a[k + 1..];
      RenderJoins(rest, b);
      RenderFirst(a, k);
      FirstLine(a, b, k);
      Assoc(Shown(a[..k]), Render(rest), Render(b));
    }
  }

  lemma RenderFirst(a: string, k: nat)
    requires LineEnd(a) == k < |a|
    ensures Render(a) == Shown(a[..k]) + Render(a[k + 1..])
  {
  }

  lemma FirstLine(a: string, b: string, k: nat)
    requires LineEnd(a) == k < |a|
    ensures Render(a + b) == Shown(a[..k]) + Render(a[k + 1..] + b)
  {
    LineEndPrefix(a, b);
    assert (a + b)[..k] == a[..k] && (a + b)[k + 1..] == a[k + 1..] + b;
  }

  lemma {:induction false} HasLine(a: string)
    requires a != [] && a[|a| - 1] == '\n'
    ensures LineEnd(a) < |a|
  {
    if a[0] != '\n' {
      HasLine(a[1..]);
    }
  }

  lemma {:induction false} LineEndsLast(s: string)
    requires '\n' !in s
    ensures LineEnd(s + "\n") == |s|
  {
    if s != [] {
      assert s[0] in s && (s + "\n")[1..] == s[1..] + "\n";
      LineEndsLast(s[1..]);
    }
  }

  /** Whole lines end where the last newline is; nothing behind it has one. */
  lemma {:induction false} WholeLinesEnd(s: string)
    ensures AtLineStart(s[..WholeLines(s)]) && '\n' !in s[WholeLines(s)..]
  {
    if s != [] && s[|s| - 1] != '\n' {
      var front := s[..|s| - 1];
      WholeLinesEnd(front);
      assert s[..WholeLines(s)] == front[..WholeLines(front)];
      assert s[WholeLines(s)..] == front[WholeLines(front)..] + [s[|s| - 1]];
    } else {
      assert s[..|s|] == s;
    }
  }

  /** A partial line at the end renders as nothing. */
  lemma RenderWhole(s: string)
    ensures AtLineStart(s[..WholeLines(s)]) && Render(s) == Render(s[..WholeLines(s)])
  {
    var n := WholeLines(s);
    var a, b := s[..n], s[n..];
    WholeLinesEnd(s);
    assert s == a + b;
    RenderJoins(a, b);
    NoNewline(b);
    assert Render(a) + [] == Render(a);
  }

  lemma {:induction false} WholeLinesJoin(a: string, b: string)
    requires AtLineStart(a)
    ensures WholeLines(a + b) == |a| + WholeLines(b)
    decreases |b|
  {
    if b == [] {
      assert a + b == a;
    } else if b[|b| - 1] != '\n' {
      assert (a + b)[..|a + b| - 1] == a + b[..|b| - 1];
      WholeLinesJoin(a, b[..|b| - 1]);
    }
  }

  // --- A log as the runner writes it ---

  /** What a runner logs of one line: a stamp, unless it bears none, the line, and perhaps a return. */
  datatype Entry = Entry(stamp: string, line: string, cr: bool)

  ghost predicate Proper(entry: Entry) {
    && '\n' !in entry.stamp && '\n' !in entry.line
    && (if entry.stamp == [] then Untimed(entry.line) == entry.line else IsStamp(entry.stamp))
    && (!entry.cr && entry.line != [] ==> entry.line[|entry.line| - 1] != '\r')
  }

  function Logged(entry: Entry): string {
    entry.stamp + entry.line + if entry.cr then "\r" else ""
  }

  function Log(entries: seq<Entry>): string {
    if entries == [] then [] else Log(entries[..|entries| - 1]) + (Logged(entries[|entries| - 1]) + "\n")
  }

  function Lines(entries: seq<Entry>): string {
    if entries == [] then [] else Lines(entries[..|entries| - 1]) + (entries[|entries| - 1].line + "\n")
  }

  lemma ReturnOff(whole: string, cr: bool)
    requires !cr && whole != [] ==> whole[|whole| - 1] != '\r'
    ensures WithoutReturn(whole + if cr then "\r" else "") == whole
  {
    assert (whole + "\r")[..|whole|] == whole && whole + "" == whole;
  }

  lemma StampOff(stamp: string, line: string)
    requires if stamp == [] then Untimed(line) == line else IsStamp(stamp)
    ensures Untimed(stamp + line) == line
  {
    if stamp == [] {
      assert stamp + line == line;
    } else {
      UntimedExactly(stamp + line);
      assert (stamp + line)[|stamp|..] == line;
    }
  }

  lemma EntryShown(entry: Entry)
    requires Proper(entry)
    ensures Shown(Logged(entry)) == entry.line + "\n" && '\n' !in Logged(entry)
  {
    StampOff(entry.stamp, entry.line);
    StampEnds(entry.stamp);
    ReturnOff(entry.stamp + entry.line, entry.cr);
  }

  lemma StampEnds(stamp: string)
    ensures IsStamp(stamp) ==> stamp != [] && stamp[|stamp| - 1] != '\r'
  {
    StampAt(stamp);
  }

  lemma RenderLine(line: string)
    requires '\n' !in line
    ensures Render(line + "\n") == Shown(line)
  {
    LineEndsLast(line);
    var whole := line + "\n";
    assert whole[..|line|] == line && whole[|line| + 1..] == [];
    assert Shown(line) + Render([]) == Shown(line);
  }

  /** All that is shown of a log are its lines, without stamps and returns, whole and in order. */
  lemma {:induction false} LogRenders(entries: seq<Entry>)
    requires forall k | 0 <= k < |entries| :: Proper(entries[k])
    ensures Render(Log(entries)) == Lines(entries) && AtLineStart(Log(entries))
  {
    if entries != [] {
      var n := |entries| - 1;
      LogRenders(entries[..n]);
      EntryShown(entries[n]);
      RenderLine(Logged(entries[n]));
      RenderJoins(Log(entries[..n]), Logged(entries[n]) + "\n");
    }
  }

  lemma LinesFirst(a: string, b: string, k: nat)
    requires LineEnd(a) == k < |a| && LineEnd(a + b) == k
    ensures LinesOf(a + b) == [WithoutReturn(a[..k])] + LinesOf(a[k + 1..] + b)
  {
    assert (a + b)[..k] == a[..k] && (a + b)[k + 1..] == a[k + 1..] + b;
  }

  lemma {:induction false} LinesJoin(a: string, b: string)
    requires AtLineStart(a)
    ensures LinesOf(a + b) == LinesOf(a) + LinesOf(b)
    decreases |a|
  {
    if a == [] {
      assert a + b == b;
    } else {
      HasLine(a);
      LineEndPrefix(a, b);
      var k := LineEnd(a);
      var rest := a[k + 1..];
      LinesJoin(rest, b);
      LinesFirst(a, b, k);
      assert a + [] == a && rest + [] == rest;
      LinesFirst(a, [], k);
      Assoc([WithoutReturn(a[..k])], LinesOf(rest), LinesOf(b));
    }
  }

  lemma OneLine(line: string)
    requires '\n' !in line && WithoutReturn(line) == line
    ensures LinesOf(line + "\n") == [line]
  {
    LineEndsLast(line);
    var whole := line + "\n";
    assert whole[..|line|] == line && whole[|line| + 1..] == [];
  }

  /** The lines as they were written, stamps and all. */
  function WrittenLines(entries: seq<Entry>): seq<string> {
    if entries == [] then []
    else WrittenLines(entries[..|entries| - 1]) + [entries[|entries| - 1].stamp + entries[|entries| - 1].line]
  }

  lemma LineOff(entry: Entry)
    requires Proper(entry)
    ensures LinesOf(Logged(entry) + "\n") == [entry.stamp + entry.line]
  {
    EntryShown(entry);
    StampEnds(entry.stamp);
    ReturnOff(entry.stamp + entry.line, entry.cr);
    LineEndsLast(Logged(entry));
    var whole := Logged(entry) + "\n";
    assert whole[..|Logged(entry)|] == Logged(entry) && whole[|Logged(entry)| + 1..] == [];
  }

  lemma {:induction false} LogLines(entries: seq<Entry>)
    requires forall k | 0 <= k < |entries| :: Proper(entries[k])
    ensures LinesOf(Log(entries)) == WrittenLines(entries)
  {
    if entries != [] {
      var n := |entries| - 1;
      LogLines(entries[..n]);
      LogRenders(entries[..n]);
      LineOff(entries[n]);
      LinesJoin(Log(entries[..n]), Logged(entries[n]) + "\n");
    }
  }

  /** A log's lines are those written, and what is begun of another is one more. */
  lemma BegunLine(entries: seq<Entry>, begun: string)
    requires (forall k | 0 <= k < |entries| :: Proper(entries[k])) && '\n' !in begun
    ensures LinesOf(Log(entries) + begun) == WrittenLines(entries) + if begun == [] then [] else [begun]
  {
    LogLines(entries);
    LogRenders(entries);
    NoNewline(begun);
    LinesJoin(Log(entries), begun);
  }

  // --- show ---

  /** The text of the lines, each behind its stamp's place and ended by a newline. */
  function Unstamped(lines: seq<string>): string {
    if lines == [] then [] else Unstamped(lines[..|lines| - 1]) + (Untimed(lines[|lines| - 1]) + "\n")
  }

  lemma {:induction false} UnstampedFirst(line: string, lines: seq<string>)
    ensures Unstamped([line] + lines) == (Untimed(line) + "\n") + Unstamped(lines)
  {
    var all := [line] + lines;
    if lines == [] {
      assert all[..0] == [];
    } else {
      var n := |lines| - 1;
      assert all[..|all| - 1] == [line] + lines[..n] && all[|all| - 1] == lines[n];
      UnstampedFirst(line, lines[..n]);
      Assoc(Untimed(line) + "\n", Unstamped(lines[..n]), Untimed(lines[n]) + "\n");
    }
  }

  lemma {:induction false} LinesRender(s: string)
    requires AtLineStart(s)
    ensures Unstamped(LinesOf(s)) == Render(s)
    decreases |s|
  {
    if s != [] {
      HasLine(s);
      var k := LineEnd(s);
      LinesRender(s[k + 1..]);
      UnstampedFirst(WithoutReturn(s[..k]), LinesOf(s[k + 1..]));
    }
  }

  /** The new complete lines of `trace` past byte `shown`, and the byte after them. */
  method Show(trace: string, shown: nat) returns (text: string, far: nat)
    ensures text == if shown <= |trace| then Render(trace[shown..]) else []
    ensures far == if shown <= |trace| then shown + WholeLines(trace[shown..]) else shown
  {
    text := [];
    if shown > |trace| {
      return text, shown;
    }
    var news := trace[shown..];
    WholeLinesRender(news);
    var end := WholeLines(news);
    if end == 0 {
      return text, shown;
    }
    var lines := LinesOf(news[..end]);
    for k := 0 to |lines|
      invariant text == Unstamped(lines[..k])
    {
      OneMoreLine(lines, k);
      text := text + (Untimed(lines[k]) + "\n");
    }
    assert lines[..|lines|] == lines;
    return text, shown + end;
  }

  lemma OneMoreLine(lines: seq<string>, k: nat)
    requires k < |lines|
    ensures Unstamped(lines[..k + 1]) == Unstamped(lines[..k]) + (Untimed(lines[k]) + "\n")
  {
    assert lines[..k + 1][..k] == lines[..k];
  }

  lemma WholeLinesRender(s: string)
    ensures Unstamped(LinesOf(s[..WholeLines(s)])) == Render(s)
    ensures WholeLines(s) == 0 ==> Render(s) == []
  {
    RenderWhole(s);
    LinesRender(s[..WholeLines(s)]);
  }

  ghost predicate Growing(traces: seq<string>) {
    forall k | 0 < k < |traces| :: traces[k - 1] <= traces[k]
  }

  /**
   However a log grows between looks, what was written is the last look's whole
   lines, rendered once: no line twice, none split, none skipped.
   */
  method ShowEach(traces: seq<string>) returns (text: string, shown: nat)
    requires Growing(traces)
    ensures traces != [] ==> text == Render(traces[|traces| - 1]) && shown == WholeLines(traces[|traces| - 1])
    ensures traces == [] ==> text == [] && shown == 0
  {
    text, shown := [], 0;
    for k := 0 to |traces|
      invariant k > 0 ==> text == Render(traces[k - 1]) && shown == WholeLines(traces[k - 1])
      invariant k == 0 ==> text == [] && shown == 0
    {
      var trace := traces[k];
      ghost var was := if k == 0 then [] else traces[k - 1];
      ShownOnce(was, trace);
      var news, far := Show(trace, shown);
      text, shown := text + news, far;
    }
  }

  /** What was shown of a log, and what is new in a longer one, is the longer one shown. */
  lemma ShownOnce(was: string, trace: string)
    requires was <= trace
    ensures var shown := WholeLines(was);
      && shown <= |trace|
      && Render(trace) == Render(was) + Render(trace[shown..])
      && WholeLines(trace) == shown + WholeLines(trace[shown..])
  {
    var shown := WholeLines(was);
    var a, b := trace[..shown], trace[shown..];
    assert a == was[..shown] && trace == a + b;
    RenderWhole(was);
    RenderJoins(a, b);
    WholeLinesJoin(a, b);
  }
}
