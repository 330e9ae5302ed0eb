/** The forms in which a script can hold each operation, and what the reader makes of them. */
module TerminalForms {
  import opened Wrappers
  import opened Machine
  import opened Sequences
  import opened TerminalScript

  /** An operation may be written in several forms: the number says which. */
  ghost predicate HasForm(op: Op, form: nat) {
    match op
    case Write(bytes) => 1 <= |bytes| <= 64 && (form < 3 || (form == 3 && |bytes| <= 48))
    case Resize(size) =>
      && 1 <= size.cols <= 80 && size.cols - 1 + 80 * (form / 4 % 4) < 256
      && 1 <= size.rows <= 24 && size.rows - 1 + 24 * (form / 16) < 256
    case Page(_, count) => form == 0 && count in {1, 9, 17, 25}
    case _ => form < 4
  }

  /** The bytes of a form. */
  function Encoded(op: Op, form: nat): seq<u8>
    requires HasForm(op, form)
  {
    match op
    case Write(bytes) => [64 * form + |bytes| - 1] + bytes
    case Resize(size) => [240 + form % 4, size.cols - 1 + 80 * (form / 4 % 4), size.rows - 1 + 24 * (form / 16)]
    case Join => [244 + form]
    case Page(start, count) => [248 + (count - 1) / 8, start]
    case Checkpoint => [252 + form]
  }

  /** Any form of an operation is read as that operation, whatever follows. */
  lemma FormRead(op: Op, form: nat, after: seq<u8>)
    requires HasForm(op, form)
    ensures Front(Encoded(op, form) + after) == Some((op, after))
  {
    var script := Encoded(op, form) + after;
    match op
    case Write(bytes) =>
      WriteFormRead(bytes, form, after);
    case Resize(size) =>
      ResizeFormRead(size, form, after);
    case Page(start, count) =>
      assert script[1..] == [start] + after && script[1..][1..] == after;
    case _ =>
      assert script[1..] == after;
  }

  lemma ResizeFormRead(size: Size, form: nat, after: seq<u8>)
    requires HasForm(Resize(size), form)
    ensures Front(Encoded(Resize(size), form) + after) == Some((Resize(size), after))
  {
    var cols: u8, rows: u8 := size.cols - 1 + 80 * (form / 4 % 4), size.rows - 1 + 24 * (form / 16);
    var script := Encoded(Resize(size), form) + after;
    assert script[1..] == [cols, rows] + after && script[1..][2..] == after;
    Wrapped(size.cols - 1, form / 4 % 4);
    Wrapped(size.rows - 1, form / 16);
  }

  lemma Wrapped(x: nat, k: nat)
    ensures x < 80 ==> (x + 80 * k) % 80 == x
    ensures x < 24 ==> (x + 24 * k) % 24 == x
  {
  }

  lemma WriteFormRead(bytes: seq<u8>, form: nat, after: seq<u8>)
    requires HasForm(Write(bytes), form)
    ensures Front(Encoded(Write(bytes), form) + after) == Some((Write(bytes), after))
  {
    var script := Encoded(Write(bytes), form) + after;
    assert script[0] == 64 * form + |bytes| - 1;
    assert script[1..] == bytes + after;
    assert (bytes + after)[..|bytes|] == bytes && (bytes + after)[|bytes|..] == after;
  }

  ghost predicate HaveForms(ops: seq<Op>, forms: seq<nat>) {
    |forms| == |ops| && forall k | 0 <= k < |ops| :: HasForm(ops[k], forms[k])
  }

  function AllEncoded(ops: seq<Op>, forms: seq<nat>): seq<u8>
    requires HaveForms(ops, forms)
  {
    if ops == [] then [] else Encoded(ops[0], forms[0]) + AllEncoded(ops[1..], forms[1..])
  }

  /** Operations in any forms, one after another, are read back, and then what follows them. */
  lemma {:induction false} FormsRead(ops: seq<Op>, forms: seq<nat>, after: seq<u8>)
    requires HaveForms(ops, forms)
    ensures Ops(AllEncoded(ops, forms) + after) == ops + Ops(after)
  {
    if ops == [] {
      assert AllEncoded(ops, forms) + after == after;
    } else {
      var first, more := Encoded(ops[0], forms[0]), AllEncoded(ops[1..], forms[1..]);
      FormsRead(ops[1..], forms[1..], after);
      FormThen(ops[0], forms[0], first, more + after);
      Assoc(first, more, after);
      assert ops == [ops[0]] + ops[1..];
      Assoc([ops[0]], ops[1..], Ops(after));
    }
  }

  lemma FormThen(op: Op, form: nat, first: seq<u8>, rest: seq<u8>)
    requires HasForm(op, form) && first == Encoded(op, form)
    ensures Ops(first + rest) == [op] + Ops(rest)
  {
    FormRead(op, form, rest);
    OpsFront(first + rest, op, rest);
  }

  /** A write at the end that has fewer bytes than it asks for writes those; a size or a page cut short ends the script. */
  lemma CutShort(lead: u8, rest: seq<u8>)
    ensures lead < 240 && |rest| <= lead % 64 ==> Ops([lead] + rest) == [Write(rest)]
    ensures 240 <= lead < 244 && |rest| < 2 ==> Ops([lead] + rest) == []
    ensures 248 <= lead < 252 && rest == [] ==> Ops([lead] + rest) == []
  {
    var script: seq<u8> := [lead] + rest;
    assert script[1..] == rest && rest[..|rest|] == rest && rest[|rest|..] == [];
    if lead < 240 && |rest| <= lead % 64 {
      OpsFront(script, Write(rest), []);
    }
  }
}
