/**
 What the ids are to the scrubber: a UUID is five numbers in lower-case hexadecimal,
 joined by dashes; a token is a prefix and eight or more ASCII letters and digits.
 */
module ScrubIds {
  import opened Machine
  import opened Decimal
  import opened Scrub
  import opened ScrubProperties
  import opened ScrubPrefixes
  import opened ScrubPasses

  const HEX := "0123456789abcdef"

  /** The last `w` hexadecimal digits of a number. */
  function Hex(n: nat, w: nat): (s: string)
    ensures |s| == w
  {
    if w == 0 then [] else Hex(n / 16, w - 1) + [HEX[n % 16]]
  }

  function Pow16(w: nat): nat {
    if w == 0 then 1 else 16 * Pow16(w - 1)
  }

  function Written(a: nat, b: nat, c: nat, d: nat, e: nat): string {
    Hex(a, 8) + ("-" + (Hex(b, 4) + ("-" + (Hex(c, 4) + ("-" + (Hex(d, 4) + ("-" + Hex(e, 12))))))))
  }

  ghost predicate Fit(a: nat, b: nat, c: nat, d: nat, e: nat) {
    a < Pow16(8) && b < Pow16(4) && c < Pow16(4) && d < Pow16(4) && e < Pow16(12)
  }

  ghost predicate AllHex(s: string) {
    forall i | 0 <= i < |s| :: IsHex(s[i])
  }

  lemma DigitIsHex(d: nat)
    requires d < 16
    ensures IsHex(HEX[d])
  {
  }

  lemma HexIsDigit(c: char) returns (d: nat)
    requires IsHex(c)
    ensures d < 16 && HEX[d] == c
  {
    d := if c <= '9' then c as int - '0' as int else c as int - 'a' as int + 10;
    assert c <= '9' ==> HEX[d] == ('0' as int + d) as char;
    assert c > '9' ==> HEX[d] == ('a' as int + d - 10) as char;
  }

  lemma {:induction false} HexIsHex(n: nat, w: nat)
    ensures AllHex(Hex(n, w))
  {
    if w > 0 {
      HexIsHex(n / 16, w - 1);
      DigitIsHex(n % 16);
    }
  }

  /** Hexadecimal digits are a number's. */
  lemma {:induction false} HexRead(s: string) returns (n: nat)
    requires AllHex(s)
    ensures n < Pow16(|s|) && Hex(n, |s|) == s
  {
    n := 0;
    if s != [] {
      var front := HexRead(s[..|s| - 1]);
      var last := HexIsDigit(s[|s| - 1]);
      n := 16 * front + last;
      assert n / 16 == front && n % 16 == last;
      assert s == s[..|s| - 1] + [s[|s| - 1]];
    }
  }

  /** No two numbers that fit are written the same. */
  lemma {:induction false} HexDiffer(n: nat, m: nat, w: nat)
    requires n < Pow16(w) && m < Pow16(w) && Hex(n, w) == Hex(m, w)
    ensures n == m
  {
    if w > 0 {
      var a, b := Hex(n / 16, w - 1), Hex(m / 16, w - 1);
      assert Hex(n, w)[..w - 1] == a && Hex(m, w)[..w - 1] == b;
      HexDiffer(n / 16, m / 16, w - 1);
      assert Hex(n, w)[w - 1] == HEX[n % 16] && Hex(m, w)[w - 1] == HEX[m % 16];
    }
  }

  lemma JoinIsUuid(a: string, b: string, c: string, d: string, e: string, s: string)
    requires |a| == 8 && |b| == 4 && |c| == 4 && |d| == 4 && |e| == 12
    requires s == a + ("-" + (b + ("-" + (c + ("-" + (d + ("-" + e)))))))
    ensures IsUuid(s) <==> AllHex(a) && AllHex(b) && AllHex(c) && AllHex(d) && AllHex(e)
  {
    PartIs(s, 0, a);
    PartIs(s, 9, b);
    PartIs(s, 14, c);
    PartIs(s, 19, d);
    PartIs(s, 24, e);
    assert s[8] == s[13] == s[18] == s[23] == '-';
    assert IsUuid(s) <==> HexAt(s, 0, 8) && HexAt(s, 9, 4) && HexAt(s, 14, 4) && HexAt(s, 19, 4) && HexAt(s, 24, 12);
  }

  ghost predicate HexAt(s: string, at: nat, n: nat)
    requires at + n <= |s|
  {
    forall i | at <= i < at + n :: IsHex(s[i])
  }

  lemma PartIs(s: string, at: nat, part: string)
    requires at + |part| <= |s| && s[at..at + |part|] == part
    ensures HexAt(s, at, |part|) <==> AllHex(part)
  {
    assert forall i | at <= i < at + |part| :: s[i] == part[i - at];
    assert forall i | 0 <= i < |part| :: part[i] == s[at + i];
  }

  lemma UuidParts(s: string)
    requires IsUuid(s)
    ensures s == s[..8] + ("-" + (s[9..13] + ("-" + (s[14..18] + ("-" + (s[19..23] + ("-" + s[24..])))))))
  {
  }

  /** Exactly the writings of five numbers that fit are UUIDs. */
  lemma UuidExactly(s: string)
    ensures IsUuid(s) <==> exists a, b, c, d, e :: Fit(a, b, c, d, e) && s == Written(a, b, c, d, e)
  {
    if IsUuid(s) {
      UuidParts(s);
      JoinIsUuid(s[..8], s[9..13], s[14..18], s[19..23], s[24..], s);
      var a := HexRead(s[..8]);
      var b := HexRead(s[9..13]);
      var c := HexRead(s[14..18]);
      var d := HexRead(s[19..23]);
      var e := HexRead(s[24..]);
      assert Fit(a, b, c, d, e) && s == Written(a, b, c, d, e);
    }
    forall a, b, c, d, e | s == Written(a, b, c, d, e) ensures IsUuid(s) {
      WrittenIsUuid(a, b, c, d, e);
    }
  }

  lemma WrittenIsUuid(a: nat, b: nat, c: nat, d: nat, e: nat)
    ensures IsUuid(Written(a, b, c, d, e))
  {
    HexIsHex(a, 8);
    HexIsHex(b, 4);
    HexIsHex(c, 4);
    HexIsHex(d, 4);
    HexIsHex(e, 12);
    JoinIsUuid(Hex(a, 8), Hex(b, 4), Hex(c, 4), Hex(d, 4), Hex(e, 12), Written(a, b, c, d, e));
  }

  const FIRST := "00000000-0000-4000-8000-000000000001"

  lemma FirstPad()
    ensures Pad(1, 12) == "000000000001"
  {
    assert Pad(0, 3) == "000";
    assert Pad(0, 6) == "000000";
    assert Pad(0, 9) == "000000000";
    assert Pad(0, 11) == "00000000000";
  }

  lemma FirstPlaceholder()
    ensures Placeholder(Uuid, 1) == FIRST
  {
    FirstPad();
  }

  /** A fresh scrub puts the first placeholder in the place of any of them, whatever follows it. */
  lemma UuidScrubbed(a: nat, b: nat, c: nat, d: nat, e: nat, rest: string)
    ensures var id := Written(a, b, c, d, e);
      Uuids(Fresh, id + rest).0 == FIRST + Uuids(Names(map[id := FIRST], map[Uuid := 1]), rest).0
    ensures Uuids(Fresh, Written(a, b, c, d, e)).0 == FIRST
  {
    var id := Written(a, b, c, d, e);
    WrittenIsUuid(a, b, c, d, e);
    FirstPlaceholder();
    NewName(Fresh, Uuid, id, 1);
    BlockThen(Fresh, id, rest);
    BlockThen(Fresh, id, []);
    assert id + [] == id && FIRST + [] == FIRST;
  }

  // --- Tokens ---

  /** A digit, a capital or a small letter of ASCII, by its code. */
  predicate IsAsciiAlnum(c: char) {
    48 <= c as int <= 57 || 65 <= c as int <= 90 || 97 <= c as int <= 122
  }

  lemma {:induction false} RunExactly(x: string, rest: string)
    requires (forall c | c in x :: IsAsciiAlnum(c)) && (rest != [] ==> !IsAsciiAlnum(rest[0]))
    ensures Run(x + rest) == |x|
  {
    if x == [] {
      assert x + rest == rest;
    } else {
      assert x[0] in x && forall c | c in x[1..] :: c in x;
      BehindFirst(x, rest);
      RunExactly(x[1..], rest);
    }
  }

  /** Eight or more letters and digits behind a prefix are scrubbed with it, to the first placeholder; fewer are left. */
  lemma TokenScrubbed(p: string, x: string, rest: string)
    requires p != [] && (forall c | c in x :: IsAsciiAlnum(c)) && (rest != [] ==> !IsAsciiAlnum(rest[0]))
    ensures Prefixed(Fresh, p, p + (x + rest)).0 ==
      if |x| >= 8 then (p + "01") + Prefixed(Names(map[p + x := p + "01"], map[Tokens(p) := 1]), p, rest).0
      else p + Prefixed(Fresh, p, x + rest).0
  {
    var tail := x + rest;
    var s := p + tail;
    RunExactly(x, rest);
    assert s[|p|..] == tail && tail[..|x|] == x && tail[|x|..] == rest && tail[0..] == tail;
    SecondPad();
    NewName(Fresh, Tokens(p), p + x, 1);
    var (to, after, taken) := Token(Fresh, p, tail);
    ScanTakes(Fresh, p, s, tail, to, after, taken);
  }

  lemma SecondPad()
    ensures Pad(1, 2) == "01"
  {
    assert Pad(0, 1) == "0";
  }
}
