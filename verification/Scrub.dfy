/**
 The scrubber that replaces ids in recorded fixtures by numbered placeholders:
 the class that does it in place, and what its passes keep. A text is its
 characters; ids are ASCII, so windows of bytes are windows of characters.
 */
module Scrub {
  import opened Wrappers
  import opened Machine
  import opened Sequences
  import opened Decimal

  /** What an id is: a UUID, or letters and digits behind a prefix. */
  datatype Kind = Uuid | Tokens(prefix: string)

  const UUID_START := "00000000-0000-4000-8000-"

  /** The placeholder of the `n`th id of a kind. */
  function Placeholder(kind: Kind, n: nat): string {
    match kind
    case Uuid => UUID_START + Pad(n, 12)
    case Tokens(prefix) => prefix + Pad(n, 2)
  }

  /** The placeholders given so far, and how many of each kind. */
  datatype Names = Names(ids: map<string, string>, counts: map<Kind, u64>)

  function Count(names: Names, kind: Kind): u64 {
    if kind in names.counts then names.counts[kind] else 0
  }

  const Fresh := Names(map[], map[])

  /** The placeholder of an id: the one it has, else the next of its kind. */
  function Named(names: Names, kind: Kind, id: string): (r: (string, Names)) {
    if id in names.ids then (names.ids[id], names)
    else
      var n := SatAdd(Count(names, kind), 1);
      var to := Placeholder(kind, n);
      (to, Names(names.ids[id := to], names.counts[kind := n]))
  }

  // --- UUIDs ---

  predicate IsHex(c: char) {
    IsDigit(c) || 'a' <= c <= 'f'
  }

  predicate IsUuid(s: string) {
    |s| == 36 && forall i | 0 <= i < 36 ::
      if i == 8 || i == 13 || i == 18 || i == 23 then s[i] == '-' else IsHex(s[i])
  }

  predicate StartsUuid(s: string) {
    |s| >= 36 && IsUuid(s[..36])
  }

  /** The text with every UUID replaced, scanned from the left. */
  function Uuids(names: Names, s: string): (string, Names)
    decreases |s|
  {
    if s == [] then ([], names)
    else if StartsUuid(s) then
      var (to, after) := Named(names, Uuid, s[..36]);
      var (rest, last) := Uuids(after, s[36..]);
      (to + rest, last)
    else
      var (rest, last) := Uuids(names, s[1..]);
      ([s[0]] + rest, last)
  }

  // --- Prefixed tokens ---

  predicate IsAlnum(c: char) {
    IsDigit(c) || 'a' <= c <= 'z' || 'A' <= c <= 'Z'
  }

  /** Where `p` first occurs in `s`. */
  function Find(s: string, p: string): (at: Option<nat>)
    requires p != []
    ensures at.Some? ==> at.value + |p| <= |s|
  {
    if |s| < |p| then None
    else if s[..|p|] == p then Some(0)
    else
      match Find(s[1..], p)
      case None => None
      case Some(k) => Some(k + 1)
  }

  /** How many letters and digits `s` starts with. */
  function Run(s: string): (n: nat)
    ensures n <= |s|
  {
    if s == [] || !IsAlnum(s[0]) then 0 else 1 + Run(s[1..])
  }

  /**
   What stands for a prefix with `tail` behind it, and how much of the tail that
   takes: the prefix itself before fewer than eight letters and digits.
   */
  function Token(names: Names, p: string, tail: string): (r: (string, Names, nat))
    ensures r.2 <= |tail|
  {
    var len := Run(tail);
    if len < 8 then (p, names, 0)
    else
      var (to, after) := Named(names, Tokens(p), p + tail[..len]);
      (to, after, len)
  }

  /** The text with every token of at least eight letters and digits behind `p` replaced. */
  function Prefixed(names: Names, p: string, s: string): (string, Names)
    requires p != []
    decreases |s|
  {
    match Find(s, p)
    case None => (s, names)
    case Some(at) =>
      var tail := s[at + |p|..];
      var (to, after, taken) := Token(names, p, tail);
      var (rest, last) := Prefixed(after, p, tail[taken..]);
      (s[..at] + to + rest, last)
  }

  // --- The class ---

  class Scrubber {
    var ids: map<string, string>
    var counts: map<Kind, u64>

    function View(): Names
      reads this
    {
      Names(ids, counts)
    }

    constructor ()
      ensures View() == Fresh
    {
      ids := map[];
      counts := map[];
    }

    method Next(kind: Kind) returns (n: u64)
      modifies this`counts
      ensures n == SatAdd(Count(old(View()), kind), 1)
      ensures counts == old(counts)[kind := n]
    {
      n := SatAdd(if kind in counts then counts[kind] else 0, 1);
      counts := counts[kind := n];
    }

    method Id(kind: Kind, from: string) returns (to: string)
      modifies this
      ensures (to, View()) == Named(old(View()), kind, from)
    {
      if from in ids {
        return ids[from];
      }
      var n := Next(kind);
      to := Placeholder(kind, n);
      ids := ids[from := to];
    }

    method ScrubUuids(s: string) returns (out: string)
      modifies this
      ensures (out, View()) == Uuids(old(View()), s)
    {
      out := "";
      var i := 0;
      assert s[0..] == s;
      NothingBefore(Uuids(View(), s).0);
      while i < |s|
        invariant i <= |s|
        invariant var (rest, last) := Uuids(View(), s[i..]); Uuids(old(View()), s) == (out + rest, last)
      {
        ghost var left := s[i..];
        if i + 36 <= |s| && IsUuid(s[i..i + 36]) {
          assert left[..36] == s[i..i + 36] && left[36..] == s[i + 36..];
          ghost var before := out;
          var id := Id(Uuid, s[i..i + 36]);
          out := out + id;
          i := i + 36;
          Assoc(before, id, Uuids(View(), s[i..]).0);
        } else {
          assert |left| >= 36 ==> left[..36] == s[i..i + 36];
          assert left[1..] == s[i + 1..] && left[0] == s[i];
          ghost var before := out;
          out := out + [s[i]];
          i := i + 1;
          Assoc(before, [s[i - 1]], Uuids(View(), s[i..]).0);
        }
      }
      assert out + [] == out;
    }

    /** What stands for a prefix with `tail` behind it, and how much of the tail that takes. */
    method Replace(p: string, tail: string) returns (to: string, taken: nat)
      modifies this
      ensures (to, View(), taken) == Token(old(View()), p, tail)
    {
      taken := Run(tail);
      if taken < 8 {
        return p, 0;
      }
      to := Id(Tokens(p), p + tail[..taken]);
    }

    method ScrubPrefixed(s: string, p: string) returns (out: string)
      requires p != []
      modifies this
      ensures (out, View()) == Prefixed(old(View()), p, s)
    {
      out := "";
      var rest := s;
      ghost var names := View();
      ghost var whole := Prefixed(names, p, s);
      NothingBefore(whole.0);
      var found := Find(rest, p);
      while found.Some?
        invariant found == Find(rest, p) && View() == names && WrittenSo(names, p, rest, out, whole)
        decreases |rest|
      {
        var before := rest[..found.value];
        var tail := rest[found.value + |p|..];
        ghost var was, from := out, rest;
        var to, taken := Replace(p, tail);
        out := out + before + to;
        rest := tail[taken..];
        PrefixedOn(names, p, from, found.value, was, to, View(), taken, whole, rest, out);
        names := View();
        found := Find(rest, p);
      }
      PrefixedEnds(names, p, rest);
      out := out + rest;
    }
  }

  /** `out` is written, and the scan of `rest` writes what is left of `whole`. */
  ghost predicate WrittenSo(names: Names, p: string, rest: string, out: string, whole: (string, Names))
    requires p != []
  {
    whole.0 == out + Prefixed(names, p, rest).0 && whole.1 == Prefixed(names, p, rest).1
  }

  lemma NothingBefore(a: string)
    ensures "" + a == a
  {
  }

  /** One step of the scan for a prefix, at the first one. */
  lemma PrefixedStep(names: Names, p: string, s: string, at: nat, tail: string, to: string, after: Names, taken: nat)
    requires p != [] && Find(s, p) == Some(at) && tail == s[at + |p|..]
    requires Token(names, p, tail) == (to, after, taken)
    ensures var (rest, last) := Prefixed(after, p, tail[taken..]);
      Prefixed(names, p, s) == (s[..at] + to + rest, last)
  {
  }

  /** One token's step of the scan, behind what was written before. */
  lemma PrefixedOn(names: Names, p: string, s: string, at: nat, out: string, to: string, after: Names, taken: nat,
                   whole: (string, Names), rest: string, more: string)
    requires p != [] && Find(s, p) == Some(at) && Token(names, p, s[at + |p|..]) == (to, after, taken)
    requires WrittenSo(names, p, s, out, whole)
    requires rest == s[at + |p|..][taken..] && more == out + s[..at] + to
    ensures WrittenSo(after, p, rest, more, whole)
  {
    PrefixedStep(names, p, s, at, s[at + |p|..], to, after, taken);
    WrittenOn(names, p, s, s[..at], out, to, after, whole, rest, more);
  }

  lemma WrittenOn(names: Names, p: string, s: string, before: string, out: string, to: string, after: Names,
                  whole: (string, Names), rest: string, more: string)
    requires p != [] && WrittenSo(names, p, s, out, whole) && more == out + before + to
    requires var (left, last) := Prefixed(after, p, rest); Prefixed(names, p, s) == (before + to + left, last)
    ensures WrittenSo(after, p, rest, more, whole)
  {
    Append3(out, before, to, Prefixed(after, p, rest).0);
  }

  lemma PrefixedEnds(names: Names, p: string, s: string)
    requires p != [] && Find(s, p).None?
    ensures Prefixed(names, p, s) == (s, names)
  {
  }

  lemma Append3(a: string, b: string, c: string, d: string)
    ensures a + (b + c + d) == (a + b + c) + d
  {
  }
}
