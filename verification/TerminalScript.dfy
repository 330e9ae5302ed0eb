/** Captures as scripts of the `terminal` fuzz target, and that target's reader of a script. */
module TerminalScript {
  import opened Wrappers
  import opened Machine
  import opened Sequences

  datatype Size = Size(cols: nat, rows: nat)

  datatype Op = Write(bytes: seq<u8>) | Resize(size: Size) | Join | Page(start: u8, count: nat) | Checkpoint

  /** Two bytes as a screen's size, never zero. */
  function PickSize(cols: u8, rows: u8): (size: Size)
    ensures 1 <= size.cols <= 80 && 1 <= size.rows <= 24
  {
    Size(cols % 80 + 1, rows % 24 + 1)
  }

  /** The operation at the front of a script and what follows it; none where its bytes are missing. */
  function Front(script: seq<u8>): (r: Option<(Op, seq<u8>)>)
    requires script != []
    ensures r.Some? ==> |r.value.1| < |script|
  {
    var op, rest := script[0], script[1..];
    if op <= 0xef then
      var len := Min(op % 64 + 1, |rest|);
      Some((Write(rest[..len]), rest[len..]))
    else if op <= 0xf3 then
      if |rest| < 2 then None else Some((Resize(PickSize(rest[0], rest[1])), rest[2..]))
    else if op <= 0xf7 then Some((Join, rest))
    else if op <= 0xfb then
      if |rest| < 1 then None else Some((Page(rest[0], op % 4 * 8 + 1), rest[1..]))
    else Some((Checkpoint, rest))
  }

  /** What a script has the target do. */
  function Ops(script: seq<u8>): seq<Op>
    decreases |script|
  {
    if script == [] then []
    else match Front(script)
      case None => []
      case Some((op, rest)) => [op] + Ops(rest)
  }

  // --- The screen a run of operations draws ---

  datatype Drawn = Byte(byte: u8) | Sized(size: Size)

  function Bytes(bytes: seq<u8>): (r: seq<Drawn>)
    ensures |r| == |bytes| && forall k | 0 <= k < |r| :: r[k] == Byte(bytes[k])
  {
    seq(|bytes|, k requires 0 <= k < |bytes| => Byte(bytes[k]))
  }

  function DrawnBy(op: Op): seq<Drawn> {
    match op
    case Write(bytes) => Bytes(bytes)
    case Resize(size) => [Sized(size)]
    case _ => []
  }

  /** The bytes written and the sizes taken, in order, however the writes are cut. */
  function Screen(ops: seq<Op>): seq<Drawn> {
    if ops == [] then [] else Screen(ops[..|ops| - 1]) + DrawnBy(ops[|ops| - 1])
  }

  /** Only the first write may be of more or fewer bytes than one. */
  ghost predicate BytewiseAfterFirst(ops: seq<Op>) {
    forall i, j | 0 <= i < j < |ops| && ops[i].Write? && ops[j].Write? :: |ops[j].bytes| == 1
  }

  ghost predicate NoWrites(ops: seq<Op>) {
    forall i | 0 <= i < |ops| :: !ops[i].Write?
  }

  lemma ScreenSnoc(ops: seq<Op>, op: Op)
    ensures Screen(ops + [op]) == Screen(ops) + DrawnBy(op)
  {
    assert (ops + [op])[..|ops|] == ops;
  }

  lemma OneByteOn(screen: seq<Drawn>, bytes: seq<u8>, n: nat)
    requires n < |bytes|
    ensures screen + Bytes(bytes[..n]) + [Byte(bytes[n])] == screen + Bytes(bytes[..n + 1])
  {
  }

  /** Writes `bytes` a byte at a time. */
  method WriteBytewise(mirror: seq<Op>, bytes: seq<u8>) returns (r: seq<Op>)
    requires BytewiseAfterFirst(mirror)
    ensures BytewiseAfterFirst(r) && Screen(r) == Screen(mirror) + Bytes(bytes)
  {
    r := mirror;
    for n := 0 to |bytes|
      invariant BytewiseAfterFirst(r) && Screen(r) == Screen(mirror) + Bytes(bytes[..n])
    {
      ScreenSnoc(r, Write([bytes[n]]));
      OneByteOn(Screen(mirror), bytes, n);
      assert Bytes([bytes[n]]) == [Byte(bytes[n])];
      r := r + [Write([bytes[n]])];
    }
    assert bytes[..|bytes|] == bytes;
  }

  /** Tells the mirror what draws: its first write whole, the others bytewise. */
  method Mirror(mirror: seq<Op>, op: Op, written: bool) returns (r: seq<Op>)
    requires BytewiseAfterFirst(mirror) && (!written ==> NoWrites(mirror))
    ensures BytewiseAfterFirst(r) && Screen(r) == Screen(mirror) + DrawnBy(op)
    ensures !written && !op.Write? ==> NoWrites(r)
  {
    ScreenSnoc(mirror, op);
    if op.Write? && written {
      r := WriteBytewise(mirror, op.bytes);
    } else if op.Write? || op.Resize? {
      r := mirror + [op];
    } else {
      r := mirror;
    }
  }

  lemma OpsAdvance(all: seq<Op>, ops: seq<Op>, script: seq<u8>, op: Op, rest: seq<u8>)
    requires script != [] && Front(script) == Some((op, rest)) && all == ops + Ops(script)
    ensures all == (ops + [op]) + Ops(rest)
  {
    OpsFront(script, op, rest);
  }

  lemma OpsFront(script: seq<u8>, op: Op, rest: seq<u8>)
    requires script != [] && Front(script) == Some((op, rest))
    ensures Ops(script) == [op] + Ops(rest)
  {
  }

  /**
   The reader of `run`: what the subject is told, and what the mirror is, which
   draws the same screen with every write but its first cut to single bytes.
   */
  method Run(data: seq<u8>) returns (start: Option<Size>, ops: seq<Op>, mirror: seq<Op>)
    ensures start == if |data| < 2 then None else Some(PickSize(data[0], data[1]))
    ensures ops == if |data| < 2 then [] else Ops(data[2..])
    ensures Screen(mirror) == Screen(ops) && BytewiseAfterFirst(mirror)
  {
    start, ops, mirror := None, [], [];
    if |data| < 2 {
      return;
    }
    start := Some(PickSize(data[0], data[1]));
    var script, written := data[2..], false;
    ghost var all := Ops(script);
    while script != []
      invariant all == ops + Ops(script)
      invariant Screen(mirror) == Screen(ops) && BytewiseAfterFirst(mirror)
      invariant !written ==> NoWrites(mirror)
      decreases |script|
    {
      var front := Front(script);
      if front.None? {
        return;
      }
      var (op, rest) := front.value;
      OpsAdvance(all, ops, script, op, rest);
      ScreenSnoc(ops, op);
      mirror := Mirror(mirror, op, written);
      written := written || op.Write?;
      ops, script := ops + [op], rest;
    }
  }

  // --- The encoder ---

  const CLOSING: seq<u8> := [0xf4, 0xfc, 0xf0, 39, 11, 0xfc]

  /** The operation that writes the next `n` bytes. */
  function Lead(n: nat): seq<u8>
    requires 1 <= n <= 64
  {
    [n - 1]
  }

  /** The pieces of at most 64 bytes, each led by the write operation of its length. */
  function Pieces(capture: seq<u8>): seq<u8> {
    if capture == [] then []
    else
      var n := Min(64, |capture|);
      Lead(n) + capture[..n] + Pieces(capture[n..])
  }

  /** `script`, and `terminal_script`: `capture` as a script. */
  method Script(capture: seq<u8>) returns (script: seq<u8>)
    ensures script == [79, 23] + Pieces(capture) + CLOSING
  {
    script := [79, 23];
    ghost var whole := script + Pieces(capture);
    var at := 0;
    assert capture[at..] == capture;
    while at < |capture|
      invariant at <= |capture| && script + Pieces(capture[at..]) == whole
    {
      var piece := capture[at..Min(at + 64, |capture|)];
      PieceOn(capture, at);
      Assoc(script, Lead(|piece|) + piece, Pieces(capture[at + |piece|..]));
      script := script + (Lead(|piece|) + piece);
      at := at + |piece|;
    }
    Finished(script, capture[at..]);
    script := script + CLOSING;
  }

  lemma Finished(script: seq<u8>, left: seq<u8>)
    requires left == []
    ensures script + Pieces(left) == script
  {
  }

  lemma PieceOn(capture: seq<u8>, at: nat)
    requires at < |capture|
    ensures var piece := capture[at..Min(at + 64, |capture|)];
      Pieces(capture[at..]) == Lead(|piece|) + piece + Pieces(capture[at + |piece|..])
  {
    var rest, n := capture[at..], Min(at + 64, |capture|) - at;
    assert rest[..n] == capture[at..at + n] && rest[n..] == capture[at + n..];
  }

  // --- The round trip ---

  /** All the bytes a run of operations writes. */
  function Written(ops: seq<Op>): seq<u8> {
    if ops == [] then []
    else (if ops[0].Write? then ops[0].bytes else []) + Written(ops[1..])
  }

  ghost predicate OnlyWrites(ops: seq<Op>) {
    forall k | 0 <= k < |ops| :: ops[k].Write? && 1 <= |ops[k].bytes| <= 64
  }

  /** Pieces in front of a script are read as writes of the capture. */
  lemma {:induction false} PiecesRead(capture: seq<u8>, after: seq<u8>) returns (writes: seq<Op>)
    ensures Ops(Pieces(capture) + after) == writes + Ops(after)
    ensures OnlyWrites(writes) && Written(writes) == capture
    decreases |capture|
  {
    if capture == [] {
      assert Pieces(capture) + after == after;
      return [];
    }
    var piece, rest := PiecesFirst(capture);
    var more := PiecesRead(rest, after);
    PieceRead(piece, Pieces(rest) + after);
    Assoc(Lead(|piece|) + piece, Pieces(rest), after);
    Assoc([Write(piece)], more, Ops(after));
    WriteOn(piece, more);
    return [Write(piece)] + more;
  }

  lemma PiecesFirst(capture: seq<u8>) returns (piece: seq<u8>, rest: seq<u8>)
    requires capture != []
    ensures capture == piece + rest && 1 <= |piece| <= 64
    ensures Pieces(capture) == Lead(|piece|) + piece + Pieces(rest)
  {
    piece, rest := capture[..Min(64, |capture|)], capture[Min(64, |capture|)..];
  }

  lemma WriteOn(piece: seq<u8>, more: seq<Op>)
    requires OnlyWrites(more) && 1 <= |piece| <= 64
    ensures OnlyWrites([Write(piece)] + more) && Written([Write(piece)] + more) == piece + Written(more)
  {
    assert ([Write(piece)] + more)[1..] == more;
  }

  lemma PieceRead(piece: seq<u8>, after: seq<u8>)
    requires 1 <= |piece| <= 64
    ensures Ops(Lead(|piece|) + piece + after) == [Write(piece)] + Ops(after)
  {
    var script: seq<u8> := Lead(|piece|) + piece + after;
    FrontWrite(script, piece, after);
    OpsFront(script, Write(piece), after);
  }

  lemma FrontWrite(script: seq<u8>, piece: seq<u8>, after: seq<u8>)
    requires 1 <= |piece| <= 64 && script == Lead(|piece|) + piece + after
    ensures Front(script) == Some((Write(piece), after))
  {
    var rest := script[1..];
    assert rest == piece + after;
    assert rest[..|piece|] == piece && rest[|piece|..] == after;
  }

  lemma ClosingRead()
    ensures Ops(CLOSING) == [Join, Checkpoint, Resize(Size(40, 12)), Checkpoint]
  {
    var c3: seq<u8> := [0xfc];
    var c2: seq<u8> := [0xf0, 39, 11, 0xfc];
    var c1: seq<u8> := [0xfc, 0xf0, 39, 11, 0xfc];
    assert CLOSING[1..] == c1 && c1[1..] == c2 && c2[1..][2..] == c3 && c3[1..] == [];
    assert Ops(c3) == [Checkpoint];
    assert Ops(c2) == [Resize(Size(40, 12))] + Ops(c3);
    assert Ops(c1) == [Checkpoint] + Ops(c2);
  }

  lemma Headed(script: seq<u8>, pieces: seq<u8>, closing: seq<u8>)
    requires script == [79, 23] + pieces + closing
    ensures |script| >= 2 && script[0] == 79 && script[1] == 23 && script[2..] == pieces + closing
  {
  }

  /**
   A script of a capture reads as an 80 by 24 screen, writes that are the capture,
   and then exactly a join, a checkpoint, a resize to 40 by 12 and a checkpoint.
   */
  lemma ScriptReads(capture: seq<u8>, script: seq<u8>) returns (writes: seq<Op>)
    requires script == [79, 23] + Pieces(capture) + CLOSING
    ensures |script| >= 2 && PickSize(script[0], script[1]) == Size(80, 24)
    ensures Ops(script[2..]) == writes + [Join, Checkpoint, Resize(Size(40, 12)), Checkpoint]
    ensures OnlyWrites(writes) && Written(writes) == capture
  {
    writes := PiecesRead(capture, CLOSING);
    ClosingRead();
    Headed(script, Pieces(capture), CLOSING);
  }
}
