/** A session's lines handed over as a tail of its files hands them, a read at a time. */
module Reads {
  import opened Wrappers
  import opened Machine
  import opened Sequences
  import opened Transcript

  /** Lines of one file from byte `start` of it on. */
  datatype Read = Read(file: Option<string>, start: u64, lines: seq<Line>)

  function Text(lines: seq<Line>): string {
    if lines == [] then [] else Text(lines[..|lines| - 1]) + lines[|lines| - 1].text
  }

  /** All that was read, in order. */
  function AllRead(taken: seq<Read>): seq<Line> {
    if taken == [] then [] else AllRead(taken[..|taken| - 1]) + taken[|taken| - 1].lines
  }

  /** What was handed over of one file. */
  function Handed(taken: seq<Read>, file: Option<string>): string {
    if taken == [] then []
    else
      var last := taken[|taken| - 1];
      Handed(taken[..|taken| - 1], file) + if last.file == file then Text(last.lines) else []
  }

  /** What the lines say of one file. */
  function Said(lines: seq<Line>, file: Option<string>): string {
    if lines == [] then []
    else
      var last := lines[|lines| - 1];
      Said(lines[..|lines| - 1], file) + if last.file == file then last.text else []
  }

  predicate OfOneFile(lines: seq<Line>, file: Option<string>) {
    forall k | 0 <= k < |lines| :: lines[k].file == file
  }

  /** Some lines, of one file, and no more than a read may hold. */
  predicate Fits(read: Read, perRead: nat) {
    1 <= |read.lines| <= perRead && OfOneFile(read.lines, read.file)
  }

  ghost predicate AllFit(taken: seq<Read>, perRead: nat) {
    forall k | 0 <= k < |taken| :: Fits(taken[k], perRead)
  }

  /** A read is full, or the next line is another file's. */
  ghost predicate EndsRight(taken: seq<Read>, perRead: nat, k: nat)
    requires k + 1 < |taken|
  {
    |taken[k].lines| == perRead || taken[k + 1].file != taken[k].file
  }

  ghost predicate AllEndRight(taken: seq<Read>, perRead: nat) {
    forall k | 0 <= k < |taken| - 1 :: EndsRight(taken, perRead, k)
  }

  /** Each read starts where the file's reads before it ended. */
  ghost predicate Contiguous(taken: seq<Read>) {
    forall k | 0 <= k < |taken| :: StartsRight(taken, k)
  }

  ghost predicate StartsRight(taken: seq<Read>, k: nat)
    requires k < |taken|
  {
    taken[k].start == Min(|Handed(taken[..k], taken[k].file)|, U64_MAX)
  }

  ghost predicate Nothing(taken: seq<Read>) {
    forall k | 0 <= k < |taken| :: taken[k].lines == []
  }

  function Offset(offsets: map<Option<string>, u64>, file: Option<string>): u64 {
    if file in offsets then offsets[file] else 0
  }

  /** Where each file stands, for the files read from so far. */
  ghost predicate Stand(offsets: map<Option<string>, u64>, taken: seq<Read>) {
    forall file :: Offset(offsets, file) == Min(|Handed(taken, file)|, U64_MAX)
  }

  /** How many of the lines from `at` on one read takes: at most `perRead`, all of the first one's file. */
  method RunAt(lines: seq<Line>, at: nat, perRead: nat) returns (run: nat)
    requires at < |lines|
    ensures at + run <= |lines| && run <= perRead && (perRead > 0 ==> run > 0)
    ensures OfOneFile(lines[at..at + run], lines[at].file)
    ensures run == perRead || at + run == |lines| || lines[at + run].file != lines[at].file
  {
    run := 0;
    while run < perRead && at + run < |lines| && lines[at + run].file == lines[at].file
      invariant at + run <= |lines| && run <= perRead
      invariant forall k | at <= k < at + run :: lines[k].file == lines[at].file
    {
      run := run + 1;
    }
  }

  lemma HandedSnoc(taken: seq<Read>, read: Read, file: Option<string>)
    ensures Handed(taken + [read], file) == Handed(taken, file) + if read.file == file then Text(read.lines) else []
  {
    assert (taken + [read])[..|taken|] == taken;
  }

  lemma StandOn(offsets: map<Option<string>, u64>, taken: seq<Read>, read: Read)
    requires Stand(offsets, taken) && read.start == Offset(offsets, read.file)
    ensures Stand(offsets[read.file := SatAdd(read.start, Min(|Text(read.lines)|, U64_MAX))], taken + [read])
  {
    var after := offsets[read.file := SatAdd(read.start, Min(|Text(read.lines)|, U64_MAX))];
    forall file ensures Offset(after, file) == Min(|Handed(taken + [read], file)|, U64_MAX) {
      HandedSnoc(taken, read, file);
      assert Offset(offsets, file) == Min(|Handed(taken, file)|, U64_MAX);
    }
  }

  lemma ContiguousOn(offsets: map<Option<string>, u64>, taken: seq<Read>, read: Read)
    requires Stand(offsets, taken) && read.start == Offset(offsets, read.file) && Contiguous(taken)
    ensures Contiguous(taken + [read])
  {
    var more := taken + [read];
    forall k | 0 <= k < |more| ensures StartsRight(more, k) {
      if k < |taken| {
        assert StartsRight(taken, k) && more[..k] == taken[..k];
      } else {
        assert more[..k] == taken;
        assert Offset(offsets, read.file) == Min(|Handed(taken, read.file)|, U64_MAX);
      }
    }
  }

  lemma FitsOn(taken: seq<Read>, read: Read, perRead: nat)
    requires AllFit(taken, perRead) && AllEndRight(taken, perRead) && Fits(read, perRead)
    requires taken != [] ==> |taken[|taken| - 1].lines| == perRead || read.file != taken[|taken| - 1].file
    ensures AllFit(taken + [read], perRead) && AllEndRight(taken + [read], perRead)
  {
    var more := taken + [read];
    forall k | 0 <= k < |more| - 1 ensures EndsRight(more, perRead, k) {
      if k + 1 < |taken| {
        assert EndsRight(taken, perRead, k);
      }
    }
  }

  lemma AllReadOn(lines: seq<Line>, taken: seq<Read>, read: Read, at: nat, run: nat)
    requires at + run <= |lines| && AllRead(taken) == lines[..at] && read.lines == lines[at..at + run]
    ensures AllRead(taken + [read]) == lines[..at + run]
  {
    assert (taken + [read])[..|taken|] == taken;
  }

  /** Whether the line at `at` may follow the reads so far in a read of its own. */
  ghost predicate Stops(lines: seq<Line>, taken: seq<Read>, at: nat, perRead: nat)
    requires at <= |lines|
  {
    taken != [] && at < |lines| ==>
      |taken[|taken| - 1].lines| == perRead || lines[at].file != taken[|taken| - 1].file
  }

  /** The lines before `at` are cut as they should be. */
  ghost predicate Cut(lines: seq<Line>, taken: seq<Read>, at: nat, perRead: nat) {
    && at <= |lines| && AllRead(taken) == lines[..at]
    && AllFit(taken, perRead) && AllEndRight(taken, perRead) && Stops(lines, taken, at, perRead)
  }

  lemma CutOn(lines: seq<Line>, taken: seq<Read>, at: nat, perRead: nat, read: Read, run: nat)
    requires Cut(lines, taken, at, perRead) && at + run <= |lines| && 0 < run <= perRead
    requires read.file == lines[at].file && read.lines == lines[at..at + run] && OfOneFile(read.lines, read.file)
    requires run == perRead || at + run == |lines| || lines[at + run].file != lines[at].file
    ensures Cut(lines, taken + [read], at + run, perRead)
  {
    FitsOn(taken, read, perRead);
    AllReadOn(lines, taken, read, at, run);
  }

  /**
   The cutting of `decode`: all lines once and in order, in reads of one file each
   that stop only when full or at another file's line, and start where the file's
   reads before ended. (A read size of none, which no caller asks, hands over nothing.)
   */
  method Decode(lines: seq<Line>, perRead: nat) returns (taken: seq<Read>)
    ensures Contiguous(taken)
    ensures perRead > 0 ==> AllRead(taken) == lines && AllFit(taken, perRead) && AllEndRight(taken, perRead)
    ensures perRead == 0 ==> |taken| == |lines| && Nothing(taken)
  {
    taken := [];
    var at: nat, offsets: map<Option<string>, u64> := 0, map[];
    while at < |lines|
      invariant at <= |lines| && Contiguous(taken) && Stand(offsets, taken)
      invariant perRead > 0 ==> Cut(lines, taken, at, perRead)
      invariant perRead == 0 ==> |taken| == at && Nothing(taken)
    {
      var file := lines[at].file;
      var run := RunAt(lines, at, perRead);
      var start := Offset(offsets, file);
      var read := Read(file, start, lines[at..at + run]);
      ContiguousOn(offsets, taken, read);
      StandOn(offsets, taken, read);
      if perRead > 0 {
        CutOn(lines, taken, at, perRead, read, run);
      }
      offsets := offsets[file := SatAdd(start, Min(|Text(read.lines)|, U64_MAX))];
      taken := taken + [read];
      at := at + if run > 1 then run else 1;
    }
    assert lines[..|lines|] == lines;
  }

  // --- What the read size changes ---

  lemma {:induction false} SaidOfOne(lines: seq<Line>, of: Option<string>, file: Option<string>)
    requires OfOneFile(lines, of)
    ensures Said(lines, file) == if of == file then Text(lines) else []
  {
    if lines != [] {
      SaidOfOne(lines[..|lines| - 1], of, file);
    }
  }

  lemma {:induction false} SaidJoins(a: seq<Line>, b: seq<Line>, file: Option<string>)
    ensures Said(a + b, file) == Said(a, file) + Said(b, file)
  {
    if b == [] {
      assert a + b == a;
    } else {
      var last := b[|b| - 1];
      assert (a + b)[..|a + b| - 1] == a + b[..|b| - 1];
      SaidJoins(a, b[..|b| - 1], file);
      Assoc(Said(a, file), Said(b[..|b| - 1], file), if last.file == file then last.text else []);
    }
  }

  /** Each file is handed over whole. */
  lemma {:induction false} HandedAll(taken: seq<Read>, perRead: nat, file: Option<string>)
    requires AllFit(taken, perRead)
    ensures Handed(taken, file) == Said(AllRead(taken), file)
  {
    if taken != [] {
      var front, last := taken[..|taken| - 1], taken[|taken| - 1];
      assert Fits(last, perRead);
      HandedAll(front, perRead, file);
      SaidJoins(AllRead(front), last.lines, file);
      SaidOfOne(last.lines, last.file, file);
    }
  }

  /** However many lines a read takes, the same text of every file is handed over. */
  lemma SizeChangesNothing(lines: seq<Line>, few: seq<Read>, many: seq<Read>, a: nat, b: nat, file: Option<string>)
    requires AllRead(few) == lines && AllFit(few, a)
    requires AllRead(many) == lines && AllFit(many, b)
    ensures Handed(few, file) == Handed(many, file) == Said(lines, file)
  {
    HandedAll(few, a, file);
    HandedAll(many, b, file);
  }
}
