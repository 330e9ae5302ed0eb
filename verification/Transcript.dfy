/** A session's files as one input of the `transcript` fuzz target, and back. A text is its bytes. */
module Transcript {
  import opened Wrappers
  import opened Machine
  import opened Sequences
  import opened LogView

  /** The character that makes a line a naming one. */
  const FILE_MARK: char := 1 as char

  /** A file by the subagent it is of; none for the main one. */
  datatype File = File(agent: Option<string>, text: string)

  datatype Line = Line(file: Option<string>, text: string)

  predicate Marked(line: string) {
    line != [] && line[0] == FILE_MARK
  }

  /** A text with its last line ended. */
  function Closed(text: string): string {
    if text != [] && text[|text| - 1] == '\n' then text else text + "\n"
  }

  // --- input ---

  /** The line that names a file; the main one goes without at the start. */
  function Naming(agent: Option<string>, before: string): string {
    match agent
    case Some(id) => [FILE_MARK] + id + "\n"
    case None => if before == [] then [] else [FILE_MARK] + "\n"
  }

  function Inputs(files: seq<File>): string {
    if files == [] then []
    else
      var before, file := Inputs(files[..|files| - 1]), files[|files| - 1];
      before + Naming(file.agent, before) + Closed(file.text)
  }

  /** `input`, after its read size byte. */
  method Input(files: seq<File>) returns (out: string)
    ensures out == Inputs(files)
  {
    out := [];
    for k := 0 to |files|
      invariant out == Inputs(files[..k])
    {
      InputsOn(files, k);
      var agent, text := files[k].agent, files[k].text;
      if agent.Some? {
        out := out + ([FILE_MARK] + agent.value + "\n");
      } else if out != [] {
        out := out + ([FILE_MARK] + "\n");
      } else {
        out := out + [];
      }
      Assoc(out, text, "\n");
      out := out + text;
      if text == [] || text[|text| - 1] != '\n' {
        out := out + "\n";
      }
    }
    assert files[..|files|] == files;
  }

  lemma InputsOn(files: seq<File>, k: nat)
    requires k < |files|
    ensures var before := Inputs(files[..k]);
      Inputs(files[..k + 1]) == before + Naming(files[k].agent, before) + Closed(files[k].text)
  {
    OneMore(files, k);
  }

  // --- lines_of ---

  /** The pieces of a text, each up to and with its newline. */
  function Split(s: string): seq<string>
    decreases |s|
  {
    if s == [] then []
    else
      var k := Min(LineEnd(s) + 1, |s|);
      [s[..k]] + Split(s[k..])
  }

  function TrimNewlines(s: string): (r: string)
    ensures r <= s
    ensures r != [] ==> r[|r| - 1] != '\n' && r[|r| - 1] != '\r'
  {
    if s != [] && (s[|s| - 1] == '\n' || s[|s| - 1] == '\r') then TrimNewlines(s[..|s| - 1]) else s
  }

  function Named(line: string): Option<string>
    requires Marked(line)
  {
    var id := TrimNewlines(line[1..]);
    if id == [] then None else Some(id)
  }

  /** The lines, each with the file named last before it. */
  function Filed(file: Option<string>, pieces: seq<string>): seq<Line>
    decreases |pieces|
  {
    if pieces == [] then []
    else if Marked(pieces[0]) then Filed(Named(pieces[0]), pieces[1..])
    else [Line(file, Closed(pieces[0]))] + Filed(file, pieces[1..])
  }

  method LinesOf(text: string) returns (out: seq<Line>)
    ensures out == Filed(None, Split(text))
  {
    var file: Option<string>, pieces := None, Split(text);
    out := [];
    for k := 0 to |pieces|
      invariant out + Filed(file, pieces[k..]) == Filed(None, pieces)
    {
      var line := pieces[k];
      assert pieces[k..][0] == line && pieces[k..][1..] == pieces[k + 1..];
      if Marked(line) {
        file := Named(line);
      } else {
        Assoc(out, [Line(file, Closed(line))], Filed(file, pieces[k + 1..]));
        out := out + [Line(file, Closed(line))];
      }
    }
  }

  // --- The round trip ---

  /** An id a naming line gives back. */
  predicate IsId(id: string) {
    id != [] && '\n' !in id && id[|id| - 1] != '\r'
  }

  predicate Nameable(agent: Option<string>) {
    agent.Some? ==> IsId(agent.value)
  }

  ghost predicate Unmarked(pieces: seq<string>) {
    forall k | 0 <= k < |pieces| :: !Marked(pieces[k])
  }

  /** Ids that are lines, and no line of a text that starts with the mark. */
  ghost predicate Plain(files: seq<File>) {
    forall k | 0 <= k < |files| :: Nameable(files[k].agent) && Unmarked(Split(Closed(files[k].text)))
  }

  function FileLines(agent: Option<string>, pieces: seq<string>): (r: seq<Line>)
    ensures |r| == |pieces| && forall k | 0 <= k < |r| :: r[k] == Line(agent, pieces[k])
  {
    seq(|pieces|, k requires 0 <= k < |pieces| => Line(agent, pieces[k]))
  }

  function LinesIn(file: File): seq<Line> {
    FileLines(file.agent, Split(Closed(file.text)))
  }

  /** Each file's own lines, under its own id. */
  function Expected(files: seq<File>): seq<Line> {
    if files == [] then [] else Expected(files[..|files| - 1]) + LinesIn(files[|files| - 1])
  }

  /** A piece of a split text: not empty, and a newline only at its end. */
  ghost predicate IsPiece(piece: string) {
    piece != [] && '\n' !in piece[..|piece| - 1]
  }

  ghost predicate ArePieces(pieces: seq<string>) {
    forall k | 0 <= k < |pieces| :: IsPiece(pieces[k])
  }

  lemma {:induction false} BeforeLineEnd(s: string)
    ensures '\n' !in s[..LineEnd(s)]
    ensures LineEnd(s) < |s| ==> s[LineEnd(s)] == '\n'
  {
    if s != [] && s[0] != '\n' {
      BeforeLineEnd(s[1..]);
      assert s[..LineEnd(s)] == [s[0]] + s[1..][..LineEnd(s[1..])];
    }
  }

  lemma {:induction false} SplitPieces(s: string)
    ensures ArePieces(Split(s)) && (s != [] ==> Split(s) != [])
    decreases |s|
  {
    if s != [] {
      BeforeLineEnd(s);
      var k := Min(LineEnd(s) + 1, |s|);
      SplitPieces(s[k..]);
      assert s[..k][..k - 1] == s[..LineEnd(s)][..k - 1];
    }
  }

  lemma {:induction false} SplitEnded(s: string)
    requires AtLineStart(s)
    ensures Ended(Split(s))
    decreases |s|
  {
    if s != [] {
      HasLine(s);
      BeforeLineEnd(s);
      SplitEnded(s[LineEnd(s) + 1..]);
      assert Closed(s[..LineEnd(s) + 1]) == s[..LineEnd(s) + 1];
    }
  }

  ghost predicate Ended(pieces: seq<string>) {
    forall k | 0 <= k < |pieces| :: pieces[k] != [] && Closed(pieces[k]) == pieces[k]
  }

  lemma {:induction false} SplitJoins(a: string, b: string)
    requires AtLineStart(a)
    ensures Split(a + b) == Split(a) + Split(b)
    decreases |a|
  {
    if a == [] {
      assert a + b == b;
    } else {
      HasLine(a);
      LineEndPrefix(a, b);
      var k := LineEnd(a) + 1;
      SplitJoins(a[k..], b);
      assert a + [] == a && a[k..] + [] == a[k..];
      SplitFirst(a, b, k);
      SplitFirst(a, [], k);
      Assoc([a[..k]], Split(a[k..]), Split(b));
    }
  }

  lemma SplitFirst(a: string, b: string, k: nat)
    requires LineEnd(a) < |a| && k == LineEnd(a) + 1 && LineEnd(a + b) == LineEnd(a)
    ensures Split(a + b) == [a[..k]] + Split(a[k..] + b)
  {
    assert (a + b)[..k] == a[..k] && (a + b)[k..] == a[k..] + b;
  }

  lemma {:induction false} WholeLine(s: string)
    requires '\n' !in s
    ensures Split(s + "\n") == [s + "\n"]
  {
    LineEndsLast(s);
    assert (s + "\n")[..|s| + 1] == s + "\n" && (s + "\n")[|s| + 1..] == [];
  }

  /** The file named last. */
  function FileAfter(file: Option<string>, pieces: seq<string>): Option<string>
    decreases |pieces|
  {
    if pieces == [] then file
    else FileAfter(if Marked(pieces[0]) then Named(pieces[0]) else file, pieces[1..])
  }

  lemma {:induction false} FiledJoins(file: Option<string>, a: seq<string>, b: seq<string>)
    ensures Filed(file, a + b) == Filed(file, a) + Filed(FileAfter(file, a), b)
    decreases |a|
  {
    if a == [] {
      assert a + b == b;
    } else {
      assert (a + b)[1..] == a[1..] + b;
      FiledJoins(if Marked(a[0]) then Named(a[0]) else file, a[1..], b);
    }
  }

  lemma {:induction false} FiledUnmarked(file: Option<string>, pieces: seq<string>)
    requires Unmarked(pieces) && Ended(pieces)
    ensures Filed(file, pieces) == FileLines(file, pieces)
  {
    if pieces != [] {
      FiledUnmarked(file, pieces[1..]);
    }
  }

  lemma InputsEnd(files: seq<File>)
    ensures AtLineStart(Inputs(files)) && (Inputs(files) == [] <==> files == [])
  {
  }

  /** A naming line names its file. */
  lemma NamingNames(agent: Option<string>, before: string)
    requires Nameable(agent)
    ensures var naming := Naming(agent, before);
      && AtLineStart(naming)
      && (naming == [] <==> agent.None? && before == [])
      && (naming != [] ==> Split(naming) == [naming] && Marked(naming) && Named(naming) == agent)
  {
    var naming := Naming(agent, before);
    if naming != [] {
      var id := if agent.Some? then agent.value else [];
      assert naming == ([FILE_MARK] + id) + "\n";
      WholeLine([FILE_MARK] + id);
      NameTrimmed(naming, id);
    }
  }

  lemma NameTrimmed(naming: string, id: string)
    requires naming == ([FILE_MARK] + id) + "\n" && (id == [] || IsId(id))
    ensures TrimNewlines(naming[1..]) == id
  {
    assert naming[1..] == id + "\n" && (id + "\n")[..|id|] == id;
    assert TrimNewlines(id + "\n") == TrimNewlines(id);
    assert id != [] ==> id[|id| - 1] in id;
  }

  /** One more file in the input is its own lines more. */
  lemma FileAdds(files: seq<File>)
    requires files != [] && Plain(files)
    ensures var before, file := Inputs(files[..|files| - 1]), files[|files| - 1];
      Filed(None, Split(Inputs(files))) == Filed(None, Split(before)) + LinesIn(file)
  {
    var file := files[|files| - 1];
    InputsEnd(files[..|files| - 1]);
    SplitPieces(Closed(file.text));
    SplitEnded(Closed(file.text));
    FiledUnmarked(file.agent, Split(Closed(file.text)));
    TextAdds(Inputs(files[..|files| - 1]), file.agent, Closed(file.text));
  }

  lemma TextAdds(before: string, agent: Option<string>, text: string)
    requires AtLineStart(before) && Nameable(agent)
    ensures Filed(None, Split(before + Naming(agent, before) + text))
         == Filed(None, Split(before)) + Filed(agent, Split(text))
  {
    var naming := Naming(agent, before);
    NamingNames(agent, before);
    if naming == [] {
      assert before + naming + text == text;
    } else {
      SplitJoins(before + naming, text);
      SplitJoins(before, naming);
      NamedThen(Split(before), naming, agent, Split(text));
    }
  }

  /** What comes after its naming line is filed under it. */
  lemma NamedThen(before: seq<string>, naming: string, agent: Option<string>, text: seq<string>)
    requires Marked(naming) && Named(naming) == agent
    ensures Filed(None, before + [naming] + text) == Filed(None, before) + Filed(agent, text)
  {
    FiledJoins(None, before + [naming], text);
    FiledJoins(None, before, [naming]);
    AfterNaming(None, before, naming, agent);
    NothingMore(Filed(None, before), Filed(FileAfter(None, before), [naming]));
  }

  lemma NothingMore(lines: seq<Line>, more: seq<Line>)
    requires more == []
    ensures lines + more == lines
  {
  }

  lemma {:induction false} AfterNaming(file: Option<string>, pieces: seq<string>, naming: string, agent: Option<string>)
    requires Marked(naming) && Named(naming) == agent
    ensures FileAfter(file, pieces + [naming]) == agent && Filed(FileAfter(file, pieces), [naming]) == []
    decreases |pieces|
  {
    if pieces == [] {
      assert pieces + [naming] == [naming];
    } else {
      assert (pieces + [naming])[1..] == pieces[1..] + [naming];
      AfterNaming(if Marked(pieces[0]) then Named(pieces[0]) else file, pieces[1..], naming, agent);
    }
  }

  lemma {:induction false} FilesReturn(files: seq<File>)
    requires Plain(files)
    ensures Filed(None, Split(Inputs(files))) == Expected(files)
  {
    if files != [] {
      FilesReturn(files[..|files| - 1]);
      FileAdds(files);
    }
  }

  /** Whatever the input, a line read is of a file a naming line can name, and not marked. */
  ghost predicate Readable(line: Line) {
    Nameable(line.file) && !Marked(line.text)
  }

  ghost predicate AllReadable(lines: seq<Line>) {
    forall k | 0 <= k < |lines| :: Readable(lines[k])
  }

  lemma {:induction false} FiledReadable(file: Option<string>, pieces: seq<string>)
    requires Nameable(file) && ArePieces(pieces)
    ensures AllReadable(Filed(file, pieces))
    decreases |pieces|
  {
    if pieces != [] {
      assert IsPiece(pieces[0]);
      if Marked(pieces[0]) {
        NamedIsId(pieces[0]);
        FiledReadable(Named(pieces[0]), pieces[1..]);
      } else {
        FiledReadable(file, pieces[1..]);
      }
    }
  }

  lemma NamedIsId(line: string)
    requires Marked(line) && IsPiece(line)
    ensures Nameable(Named(line))
  {
    var id := TrimNewlines(line[1..]);
    forall k | 0 <= k < |id| ensures id[k] != '\n' {
      assert id[k] == line[k + 1];
      assert k + 1 < |line| - 1 ==> line[..|line| - 1][k + 1] == line[k + 1];
    }
  }

  lemma ReadableParts(a: seq<Line>, b: seq<Line>)
    requires AllReadable(a + b)
    ensures AllReadable(a) && AllReadable(b)
  {
    forall k | 0 <= k < |a| ensures Readable(a[k]) {
      assert (a + b)[k] == a[k];
    }
    forall k | 0 <= k < |b| ensures Readable(b[k]) {
      assert (a + b)[|a| + k] == b[k];
    }
  }

  lemma FilePlain(file: File)
    requires AllReadable(LinesIn(file))
    ensures Nameable(file.agent) && Unmarked(Split(Closed(file.text)))
  {
    var pieces := Split(Closed(file.text));
    SplitPieces(Closed(file.text));
    assert Readable(LinesIn(file)[0]);
    forall k | 0 <= k < |pieces| ensures !Marked(pieces[k]) {
      assert Readable(LinesIn(file)[k]);
    }
  }

  lemma {:induction false} ReadablePlain(files: seq<File>)
    requires AllReadable(Expected(files))
    ensures Plain(files)
  {
    if files != [] {
      var front, last := files[..|files| - 1], files[|files| - 1];
      ReadableParts(Expected(front), LinesIn(last));
      ReadablePlain(front);
      FilePlain(last);
      assert files == front + [last];
    }
  }

  /** A line starts at `i`, and with the byte 1. */
  ghost predicate MarksAt(s: string, i: nat) {
    i < |s| && (i == 0 || s[i - 1] == '\n') && s[i] as int == 1
  }

  /** No line of a text starts with it. */
  ghost predicate NoneStarts(s: string) {
    forall i: nat :: !MarksAt(s, i)
  }

  lemma MarksBehind(s: string, k: nat, i: nat)
    requires 0 < k <= |s| && (k == |s| || s[k - 1] == '\n')
    ensures MarksAt(s[k..], i) <==> MarksAt(s, k + i)
  {
    assert i < |s[k..]| ==> s[k..][i] == s[k + i];
    assert 0 < i < |s[k..]| ==> s[k..][i - 1] == s[k + i - 1];
  }

  lemma NoneStartsFirst(s: string, k: nat)
    requires s != [] && k == Min(LineEnd(s) + 1, |s|)
    ensures NoneStarts(s) <==> !MarksAt(s, 0) && NoneStarts(s[k..])
  {
    BeforeLineEnd(s);
    forall i: nat | 0 < i < k ensures !MarksAt(s, i) {
      assert s[i - 1] == s[..LineEnd(s)][i - 1];
    }
    forall i: nat ensures MarksAt(s[k..], i) <==> MarksAt(s, k + i) {
      MarksBehind(s, k, i);
    }
    forall i: nat | MarksAt(s, i) && i >= k ensures !NoneStarts(s[k..]) {
      assert MarksAt(s[k..], i - k) <==> MarksAt(s, k + (i - k));
    }
  }

  lemma {:induction false} SplitStarts(s: string)
    ensures Unmarked(Split(s)) <==> NoneStarts(s)
    decreases |s|
  {
    if s != [] {
      var k := Min(LineEnd(s) + 1, |s|);
      NoneStartsFirst(s, k);
      SplitStarts(s[k..]);
      var pieces := Split(s);
      assert pieces[0] == s[..k] && pieces[1..] == Split(s[k..]);
      assert Unmarked(pieces) <==> !Marked(pieces[0]) && Unmarked(pieces[1..]) by {
        assert forall j | 0 < j < |pieces| :: pieces[j] == pieces[1..][j - 1];
      }
    }
  }

  lemma ClosedStarts(s: string)
    ensures NoneStarts(Closed(s)) <==> NoneStarts(s)
  {
    var closed := Closed(s);
    assert forall i | 0 <= i < |s| :: closed[i] == s[i];
    assert forall i: nat :: MarksAt(s, i) <==> MarksAt(closed, i);
  }

  lemma PlainExactly(files: seq<File>)
    ensures Plain(files) <==> forall k | 0 <= k < |files| ::
      && (files[k].agent.Some? ==>
            var id := files[k].agent.value; id != [] && '\n' !in id && id[|id| - 1] != '\r')
      && NoneStarts(files[k].text)
  {
    forall k | 0 <= k < |files| ensures Unmarked(Split(Closed(files[k].text))) <==> NoneStarts(files[k].text) {
      SplitStarts(Closed(files[k].text));
      ClosedStarts(files[k].text);
    }
  }

  /**
   The lines of an input are each file's own, in order and under its own id,
   exactly when no line starts with the mark and the ids are lines.
   */
  lemma RoundTrip(files: seq<File>)
    ensures Filed(None, Split(Inputs(files))) == Expected(files) <==> Plain(files)
  {
    if Plain(files) {
      FilesReturn(files);
    }
    if Filed(None, Split(Inputs(files))) == Expected(files) {
      SplitPieces(Inputs(files));
      FiledReadable(None, Split(Inputs(files)));
      ReadablePlain(files);
    }
  }

  // --- Any input ---

  lemma {:induction false} SplitNone(s: string)
    requires '\n' !in s && s != []
    ensures Split(s) == [s]
  {
    NoNewline(s);
    assert s[..|s|] == s && s[|s|..] == [];
  }

  lemma NameOnEnded(line: string)
    requires Marked(line)
    ensures Marked(line + "\n") && Named(line + "\n") == Named(line)
  {
    var id := line[1..];
    assert (line + "\n")[1..] == id + "\n" && (id + "\n")[..|id|] == id;
  }

  /** An input whose last line is not ended reads as if it were. */
  lemma {:induction false} UnendedReads(file: Option<string>, s: string)
    requires s != [] && s[|s| - 1] != '\n'
    ensures Filed(file, Split(s)) == Filed(file, Split(s + "\n"))
    decreases |s|
  {
    if '\n' in s {
      LineEndBefore(s);
      var k := LineEnd(s) + 1;
      LineEndPrefix(s, "\n");
      LineEndPrefix(s, []);
      assert s + [] == s && s[k..] + [] == s[k..];
      SplitFirst(s, "\n", k);
      SplitFirst(s, [], k);
      UnendedReads(if Marked(s[..k]) then Named(s[..k]) else file, s[k..]);
    } else {
      SplitNone(s);
      WholeLine(s);
      if Marked(s) {
        NameOnEnded(s);
      }
    }
  }

  lemma LineEndBefore(s: string)
    requires '\n' in s && s[|s| - 1] != '\n'
    ensures LineEnd(s) + 1 < |s|
  {
    BeforeLineEnd(s);
    assert s[..|s|] == s;
  }

  /** Every line read is one whole line, ended. */
  lemma {:induction false} LinesAreWhole(file: Option<string>, pieces: seq<string>)
    requires ArePieces(pieces)
    ensures forall k | 0 <= k < |Filed(file, pieces)| ::
      var text := Filed(file, pieces)[k].text;
      text != [] && text[|text| - 1] == '\n' && '\n' !in text[..|text| - 1]
    decreases |pieces|
  {
    if pieces != [] {
      LinesAreWhole(if Marked(pieces[0]) then Named(pieces[0]) else file, pieces[1..]);
      assert IsPiece(pieces[0]);
      PieceCloses(pieces[0]);
    }
  }

  lemma PieceCloses(piece: string)
    requires IsPiece(piece)
    ensures var text := Closed(piece); text != [] && text[|text| - 1] == '\n' && '\n' !in text[..|text| - 1]
  {
    assert (piece + "\n")[..|piece|] == piece;
    assert piece == piece[..|piece| - 1] + [piece[|piece| - 1]];
  }
}
