/**
 The passes of one text together: the UUIDs, then the three prefixes. Scrubbed
 again, the outcome keeps its tokens, and all of it exactly when the UUIDs left
 standing come in the order of their numbers.
 */
module ScrubPasses {
  import opened Machine
  import opened Sequences
  import opened Decimal
  import opened Scrub
  import opened ScrubProperties
  import opened ScrubPrefixes

  const TOOLU := "toolu_"
  const MSG := "msg_"
  const REQ := "req_"

  /** The passes, through one scrubber. */
  function Text(names: Names, s: string): (string, Names) {
    var (a, n1) := Uuids(names, s);
    var (b, n2) := Prefixed(n1, TOOLU, a);
    var (c, n3) := Prefixed(n2, MSG, b);
    Prefixed(n3, REQ, c)
  }

  // --- What such a prefix is ---

  predicate IsOfUuid(c: char) {
    IsHex(c) || c == '-'
  }

  /** The end of a prefix: letters and digits, and then what is none of these nor in a UUID. */
  ghost predicate IsEnd(t: string) {
    t != [] ==>
      && |t| <= 36 && !IsAlnum(t[|t| - 1]) && !IsOfUuid(t[|t| - 1])
      && forall i | 0 <= i < |t| - 1 :: IsAlnum(t[i])
  }

  ghost predicate IsPlain(p: string) {
    IsPrefix(p) && IsEnd(p) && !IsOfUuid(p[0])
  }

  lemma ThePlainPrefixes()
    ensures IsPlain(TOOLU) && IsPlain(MSG) && IsPlain(REQ)
  {
  }

  /** A text starts with one such end at most. */
  lemma OneEnd(t: string, q: string, s: string)
    requires IsEnd(t) && IsEnd(q) && t != [] && q != [] && t <= s && q <= s
    ensures t == q
  {
    assert forall i | 0 <= i < |t| :: t[i] == s[i];
    assert forall i | 0 <= i < |q| :: q[i] == s[i];
    assert s[|t| - 1] == t[|t| - 1] && s[|q| - 1] == q[|q| - 1];
  }

  // --- Texts without a token ---

  ghost predicate TokenHere(p: string, s: string) {
    p <= s && Run(s[|p|..]) >= 8
  }

  ghost predicate NoTokens(p: string, s: string)
    decreases |s|
  {
    s != [] ==> !TokenHere(p, s) && NoTokens(p, s[1..])
  }

  lemma {:induction false} NoTokensBehind(p: string, s: string, n: nat)
    requires NoTokens(p, s) && n <= |s|
    ensures NoTokens(p, s[n..])
  {
    if n > 0 {
      NoTokensBehind(p, s[1..], n - 1);
      assert s[1..][n - 1..] == s[n..];
    }
  }

  /** No token starts in a text without the prefix's first letter. */
  lemma {:induction false} NoneStarts(p: string, u: string, y: string)
    requires p != [] && (forall c | c in u :: c != p[0]) && NoTokens(p, y)
    ensures NoTokens(p, u + y)
  {
    if u == [] {
      assert u + y == y;
    } else {
      assert u[0] in u && forall c | c in u[1..] :: c in u;
      NoneStarts(p, u[1..], y);
      BehindFirst(u, y);
    }
  }

  /** Nor in the end of a prefix with fewer than eight letters and digits behind it. */
  lemma {:induction false} NoneInEnd(p: string, u: string, y: string)
    requires p != [] && IsEnd(p) && IsEnd(u) && Run(y) < 8 && NoTokens(p, y)
    ensures NoTokens(p, u + y)
  {
    if u == [] {
      assert u + y == y;
    } else {
      NoneInEnd(p, u[1..], y);
      BehindFirst(u, y);
      if p <= u + y {
        OneEnd(p, u, u + y);
        assert (u + y)[|u|..] == y;
      }
    }
  }

  // --- The scan for a prefix, a character at a time ---

  lemma ScanPasses(names: Names, q: string, s: string)
    requires q != [] && s != [] && !(q <= s)
    ensures var (rest, last) := Prefixed(names, q, s[1..]);
      Prefixed(names, q, s) == ([s[0]] + rest, last)
  {
    if |s| < |q| {
      TooShort(s, q);
      TooShort(s[1..], q);
    } else {
      NotHere(s, q);
    }
    assert s == [s[0]] + s[1..];
    PastOrDone(names, q, s, [s[0]], s[1..]);
  }

  lemma ScanTakes(names: Names, q: string, s: string, tail: string, to: string, after: Names, taken: nat)
    requires q != [] && q <= s && tail == s[|q|..] && Token(names, q, tail) == (to, after, taken)
    ensures var (rest, last) := Prefixed(after, q, tail[taken..]);
      Prefixed(names, q, s) == (to + rest, last)
  {
    PrefixedStep(names, q, s, 0, tail, to, after, taken);
    assert s[..0] + to == to;
  }

  /** Without a token there is nothing to do. */
  lemma {:induction false} NothingToDo(names: Names, p: string, s: string)
    requires p != [] && NoTokens(p, s)
    ensures Prefixed(names, p, s) == (s, names)
    decreases |s|
  {
    if s == [] {
      PrefixedEnds(names, p, s);
    } else if p <= s {
      var tail := s[|p|..];
      NoTokensBehind(p, s, |p|);
      NothingToDo(names, p, tail);
      ScanTakes(names, p, s, tail, p, names, 0);
      assert tail[0..] == tail && s == p + tail;
    } else {
      ScanPasses(names, p, s);
      NothingToDo(names, p, s[1..]);
      assert s == [s[0]] + s[1..];
    }
  }

  /** What a step writes, below 10^7 tokens: the prefix, and a run too short to be a token. */
  lemma StepWrites(names: Names, q: string, tail: string, to: string, after: Names, taken: nat, rest: string) returns (d: string)
    requires IsPlain(q) && TokensNumbered(names, q) && Token(names, q, tail) == (to, after, taken)
    requires rest == Prefixed(after, q, tail[taken..]).0
    requires Count(Prefixed(after, q, tail[taken..]).1, Tokens(q)) < Pow10(7)
    ensures TokensNumbered(after, q)
    ensures (forall c | c in d :: IsDigit(c)) && to == q + d && Run(d + rest) < 8
  {
    CountsOnlyGrow(after, q, tail[taken..]);
    TokenBecomes(names, q, tail);
    RunKept(after, q, tail[taken..]);
    d := to[|q|..];
    if taken == 0 {
      assert tail[0..] == tail && d + rest == rest;
    } else {
      RunOfDigits(d, rest);
    }
  }

  /** `m` letters and digits or more behind `t`. */
  ghost predicate Heads(t: string, m: nat, s: string) {
    t <= s && Run(s[|t|..]) >= m
  }

  /** What the output starts with, the text did, and behind a prefix no run gets to be a token. */
  lemma {:induction false} ScanKeepsHeads(names: Names, q: string, s: string, t: string, m: nat)
    requires IsPlain(q) && IsEnd(t) && TokensNumbered(names, q) && (m == 0 || m == 8)
    requires Count(Prefixed(names, q, s).1, Tokens(q)) < Pow10(7)
    requires Heads(t, m, Prefixed(names, q, s).0)
    ensures Heads(t, m, s)
    decreases |s|
  {
    if t == [] {
      RunKept(names, q, s);
      assert s[0..] == s && Prefixed(names, q, s).0[0..] == Prefixed(names, q, s).0;
    } else if s == [] {
      PrefixedEnds(names, q, s);
    } else if q <= s {
      var tail := s[|q|..];
      var (to, after, taken) := Token(names, q, tail);
      var rest := Prefixed(after, q, tail[taken..]).0;
      ScanTakes(names, q, s, tail, to, after, taken);
      var d := StepWrites(names, q, tail, to, after, taken, rest);
      HeadIsPrefix(t, m, q, d, rest, to, s);
    } else {
      ScanPasses(names, q, s);
      HeadOn(t, m, s, Prefixed(names, q, s[1..]).0);
      ScanKeepsHeads(names, q, s[1..], t[1..], m);
      HeadBack(t, m, s);
    }
  }

  lemma HeadIsPrefix(t: string, m: nat, q: string, d: string, rest: string, to: string, s: string)
    requires IsEnd(t) && t != [] && IsPlain(q) && q <= s && (m == 0 || m == 8)
    requires to == q + d && Run(d + rest) < 8 && Heads(t, m, to + rest)
    ensures Heads(t, m, s)
  {
    assert to + rest == q + (d + rest);
    OneEnd(t, q, to + rest);
    assert (to + rest)[|q|..] == d + rest;
  }

  lemma HeadOn(t: string, m: nat, s: string, rest: string)
    requires t != [] && s != [] && Heads(t, m, [s[0]] + rest) && IsEnd(t)
    ensures t[0] == s[0] && Heads(t[1..], m, rest) && IsEnd(t[1..])
  {
    var out := [s[0]] + rest;
    assert out[1..] == rest && t[1..] == out[..|t|][1..];
    assert out[|t|..] == rest[|t| - 1..];
  }

  lemma HeadBack(t: string, m: nat, s: string)
    requires t != [] && s != [] && t[0] == s[0] && Heads(t[1..], m, s[1..])
    ensures Heads(t, m, s)
  {
    assert t == [t[0]] + t[1..] && s == [s[0]] + s[1..];
    assert s[|t|..] == s[1..][|t[1..]|..];
  }

  /** A scan leaves no token of its prefix, and makes none of another. */
  lemma {:induction false} ScanLeavesNone(names: Names, q: string, s: string, p: string)
    requires IsPlain(p) && IsPlain(q) && TokensNumbered(names, q)
    requires Count(Prefixed(names, q, s).1, Tokens(q)) < Pow10(7)
    requires p == q || NoTokens(p, s)
    ensures NoTokens(p, Prefixed(names, q, s).0)
    decreases |s|
  {
    if s == [] {
      PrefixedEnds(names, q, s);
    } else if q <= s {
      var tail := s[|q|..];
      var (to, after, taken) := Token(names, q, tail);
      var rest := Prefixed(after, q, tail[taken..]).0;
      ScanTakes(names, q, s, tail, to, after, taken);
      var d := StepWrites(names, q, tail, to, after, taken, rest);
      if p != q {
        NoTokensBehind(p, s, |q|);
        NoTokensBehind(p, tail, taken);
      }
      ScanLeavesNone(after, q, tail[taken..], p);
      assert p[0] in p;
      NoneStarts(p, d, rest);
      NoneInEnd(p, q, d + rest);
      Joined(q, d, rest, to);
    } else {
      ScanPasses(names, q, s);
      var rest := Prefixed(names, q, s[1..]).0;
      ScanLeavesNone(names, q, s[1..], p);
      if TokenHere(p, [s[0]] + rest) {
        ScanKeepsHeads(names, q, s, p, 8);
        assert false;
      }
      assert ([s[0]] + rest)[1..] == rest;
    }
  }

  lemma Joined(q: string, d: string, rest: string, to: string)
    requires to == q + d
    ensures to + rest == q + (d + rest)
  {
  }

  // --- The scan for UUIDs makes no token ---

  /** Every UUID's name is a numbered placeholder. */
  ghost predicate UuidsNumbered(names: Names) {
    forall id | id in names.ids && IsUuid(id) :: IsNumbered(Uuid, Count(names, Uuid), names.ids[id])
  }

  /** Characters of a UUID only, eight hex digits of which come first. */
  ghost predicate IsBlock(to: string) {
    |to| >= 36 && (forall c | c in to :: IsOfUuid(c)) && forall i | 0 <= i < 8 :: IsHex(to[i])
  }

  lemma PlaceholderIsBlock(n: nat)
    ensures IsBlock(Placeholder(Uuid, n))
  {
    assert |UUID_START| == 24 && forall i | 0 <= i < 24 :: IsOfUuid(UUID_START[i]);
    assert forall c | c in UUID_START :: IsOfUuid(c);
    var to := Placeholder(Uuid, n);
    assert forall i | 0 <= i < 8 :: to[i] == UUID_START[i];
  }

  lemma UuidIsBlock(s: string)
    requires StartsUuid(s)
    ensures IsBlock(s[..36])
  {
  }

  /** What a UUID becomes. */
  lemma NamedIsBlock(names: Names, id: string)
    requires UuidsNumbered(names) && IsUuid(id)
    ensures UuidsNumbered(Named(names, Uuid, id).1) && IsBlock(Named(names, Uuid, id).0)
  {
    var (to, after) := Named(names, Uuid, id);
    if id !in names.ids {
      NextIsNumbered(Uuid, Count(after, Uuid));
      forall a | a in names.ids && IsUuid(a) ensures IsNumbered(Uuid, Count(after, Uuid), names.ids[a]) {
        NumberedStill(Uuid, Count(names, Uuid), Count(after, Uuid), names.ids[a]);
      }
    }
    var n: nat :| 1 <= n <= Count(after, Uuid) && to == Placeholder(Uuid, n);
    PlaceholderIsBlock(n);
  }

  lemma {:induction false} RunAtLeast(s: string, n: nat)
    requires n <= |s| && forall i | 0 <= i < n :: IsAlnum(s[i])
    ensures Run(s) >= n
  {
    if n > 0 {
      RunAtLeast(s[1..], n - 1);
    }
  }

  /** No end of a prefix is at the start of a block. */
  lemma NoEndInBlock(t: string, m: nat, to: string, rest: string)
    requires IsEnd(t) && t != [] && IsBlock(to)
    ensures !Heads(t, m, to + rest)
  {
    var i := |t| - 1;
    assert (to + rest)[i] == to[i] && to[i] in to;
  }

  /** A text's first letters and digits, up to eight, stay as many. */
  lemma {:induction false} UuidsKeepRun(names: Names, s: string, m: nat)
    requires UuidsNumbered(names) && m <= 8 && Run(Uuids(names, s).0) >= m
    ensures Run(s) >= m
    decreases |s|
  {
    if s == [] {
    } else if StartsUuid(s) {
      RunAtLeast(s, 8) by {
        UuidIsBlock(s);
        assert forall i | 0 <= i < 8 :: s[i] == s[..36][i];
      }
    } else if m > 0 {
      BehindFirst([s[0]], Uuids(names, s[1..]).0);
      UuidsKeepRun(names, s[1..], m - 1);
    }
  }

  lemma {:induction false} UuidsKeepHeads(names: Names, s: string, t: string, m: nat)
    requires UuidsNumbered(names) && IsEnd(t) && m <= 8 && Heads(t, m, Uuids(names, s).0)
    ensures Heads(t, m, s)
    decreases |s|
  {
    if t == [] {
      assert s[0..] == s && Uuids(names, s).0[0..] == Uuids(names, s).0;
      UuidsKeepRun(names, s, m);
    } else if s == [] {
    } else if StartsUuid(s) {
      var (to, after) := Named(names, Uuid, s[..36]);
      NamedIsBlock(names, s[..36]);
      NoEndInBlock(t, m, to, Uuids(after, s[36..]).0);
      assert false;
    } else {
      HeadOn(t, m, s, Uuids(names, s[1..]).0);
      UuidsKeepHeads(names, s[1..], t[1..], m);
      HeadBack(t, m, s);
    }
  }

  lemma {:induction false} UuidsLeaveNone(names: Names, s: string, p: string)
    requires IsPlain(p) && UuidsNumbered(names) && NoTokens(p, s)
    ensures NoTokens(p, Uuids(names, s).0)
    decreases |s|
  {
    if s == [] {
    } else if StartsUuid(s) {
      var (to, after) := Named(names, Uuid, s[..36]);
      NamedIsBlock(names, s[..36]);
      NoTokensBehind(p, s, 36);
      UuidsLeaveNone(after, s[36..], p);
      NoneStarts(p, to, Uuids(after, s[36..]).0);
    } else {
      var rest := Uuids(names, s[1..]).0;
      UuidsLeaveNone(names, s[1..], p);
      if TokenHere(p, [s[0]] + rest) {
        UuidsKeepHeads(names, s, p, 8);
        assert false;
      }
      assert ([s[0]] + rest)[1..] == rest;
    }
  }

  // --- One prefix after another ---

  /** No name is behind `p`. */
  ghost predicate NoneOf(names: Names, p: string) {
    Count(names, Tokens(p)) == 0 && forall id | id in names.ids :: !(p <= id)
  }

  lemma UuidsNameNoneOf(names: Names, s: string, p: string)
    requires IsPlain(p) && NoneOf(names, p)
    ensures NoneOf(Uuids(names, s).1, p)
  {
    UuidsInvariant(n => NoneOf(n, p), names, s);
  }

  lemma ScanNamesNoneOf(names: Names, q: string, s: string, p: string)
    requires IsPlain(p) && IsPlain(q) && p[0] != q[0] && NoneOf(names, p)
    ensures NoneOf(Prefixed(names, q, s).1, p)
  {
    PrefixedInvariant(n => NoneOf(n, p), names, q, s);
  }

  /** What a count grew by, the names did. */
  ghost predicate CountsNew(start: Names, names: Names, q: string) {
    Count(names, Tokens(q)) + |start.ids.Keys| <= Count(start, Tokens(q)) + |names.ids.Keys|
  }

  lemma NamedCountsNew(start: Names, names: Names, q: string, id: string)
    requires CountsNew(start, names, q)
    ensures CountsNew(start, Named(names, Tokens(q), id).1, q)
  {
    if id !in names.ids {
      assert Named(names, Tokens(q), id).1.ids.Keys == names.ids.Keys + {id};
    }
  }

  /** A scan with few tokens in its text numbers few. */
  lemma FewNumbered(names: Names, q: string, s: string)
    requires q != [] && NoneOf(names, q) && |TokensIn(q, s)| < Pow10(7)
    ensures Count(Prefixed(names, q, s).1, Tokens(q)) < Pow10(7)
  {
    forall n: Names, id: string | CountsNew(names, n, q) ensures CountsNew(names, Named(n, Tokens(q), id).1, q) {
      NamedCountsNew(names, n, q, id);
    }
    PrefixedInvariant(n => CountsNew(names, n, q), names, q, s);
    NamesTheTokens(names, q, s);
    UnionSize(names.ids.Keys, TokensIn(q, s));
  }

  /** Each pass for a prefix meets fewer than 10^7 different tokens in its text. */
  ghost predicate FewTokens(s: string) {
    var (a, n1) := Uuids(Fresh, s);
    var (b, n2) := Prefixed(n1, TOOLU, a);
    var (c, n3) := Prefixed(n2, MSG, b);
    |TokensIn(TOOLU, a)| < Pow10(7) && |TokensIn(MSG, b)| < Pow10(7) && |TokensIn(REQ, c)| < Pow10(7)
  }

  /** The passes leave no token of any prefix. */
  lemma NoTokensLeft(s: string)
    requires FewTokens(s)
    ensures var out := Text(Fresh, s).0;
      NoTokens("toolu_", out) && NoTokens("msg_", out) && NoTokens("req_", out)
  {
    ThePlainPrefixes();
    var (a, n1) := Uuids(Fresh, s);
    var (b, n2) := Prefixed(n1, TOOLU, a);
    var (c, n3) := Prefixed(n2, MSG, b);
    UuidsNameNoneOf(Fresh, s, TOOLU);
    UuidsNameNoneOf(Fresh, s, MSG);
    UuidsNameNoneOf(Fresh, s, REQ);
    ScanNamesNoneOf(n1, TOOLU, a, MSG);
    ScanNamesNoneOf(n1, TOOLU, a, REQ);
    ScanNamesNoneOf(n2, MSG, b, REQ);
    FewNumbered(n1, TOOLU, a);
    FewNumbered(n2, MSG, b);
    FewNumbered(n3, REQ, c);
    ScanLeavesNone(n1, TOOLU, a, TOOLU);
    ScanLeavesNone(n2, MSG, b, TOOLU);
    ScanLeavesNone(n2, MSG, b, MSG);
    ScanLeavesNone(n3, REQ, c, TOOLU);
    ScanLeavesNone(n3, REQ, c, MSG);
    ScanLeavesNone(n3, REQ, c, REQ);
  }

  /** So a second scrub is its UUID pass. */
  lemma AgainOnlyUuids(s: string)
    requires FewTokens(s)
    ensures var out := Text(Fresh, s).0;
      Text(Fresh, out) == Uuids(Fresh, out)
  {
    var out := Text(Fresh, s).0;
    var (a, n1) := Uuids(Fresh, out);
    ThePlainPrefixes();
    NoTokensLeft(s);
    UuidsLeaveNone(Fresh, out, TOOLU);
    UuidsLeaveNone(Fresh, out, MSG);
    UuidsLeaveNone(Fresh, out, REQ);
    NothingToDo(n1, TOOLU, a);
    NothingToDo(n1, MSG, a);
    NothingToDo(n1, REQ, a);
  }

  // --- When the UUID pass changes nothing ---

  /** Every UUID met is the next placeholder, or one of those up to `n` before it. */
  ghost predicate InOrder(n: nat, s: string)
    decreases |s|
  {
    if s == [] then true
    else if StartsUuid(s) then
      || (IsNumbered(Uuid, n, s[..36]) && InOrder(n, s[36..]))
      || (s[..36] == Placeholder(Uuid, n + 1) && InOrder(n + 1, s[36..]))
    else InOrder(n, s[1..])
  }

  /** The first `n` placeholders, each its own name. */
  ghost predicate OwnNames(names: Names, n: nat) {
    && Count(names, Uuid) == n
    && (forall id :: id in names.ids <==> IsNumbered(Uuid, n, id))
    && (forall id | id in names.ids :: names.ids[id] == id)
  }

  lemma OwnNamesOn(names: Names, n: nat)
    requires OwnNames(names, n) && n + 1 < U64_MAX
    ensures var to := Placeholder(Uuid, n + 1);
      to !in names.ids && Named(names, Uuid, to).0 == to && OwnNames(Named(names, Uuid, to).1, n + 1)
  {
    var to := Placeholder(Uuid, n + 1);
    NotNumberedYet(n + 1, to);
    NewName(names, Uuid, to, n + 1);
    OwnAndNext(names, n, to, Named(names, Uuid, to).1);
  }

  lemma OwnAndNext(names: Names, n: nat, to: string, after: Names)
    requires OwnNames(names, n) && to == Placeholder(Uuid, n + 1) && n + 1 <= U64_MAX
    requires after == Names(names.ids[to := to], names.counts[Uuid := n + 1])
    ensures OwnNames(after, n + 1)
  {
    forall id ensures id in after.ids <==> IsNumbered(Uuid, n + 1, id) {
      OneMoreNumbered(Uuid, n + 1, id);
    }
  }

  lemma {:induction false} PadWider(n: nat, w: nat)
    requires Pow10(w) <= n
    ensures Pad(n, w) == Pad(n, w + 1)
  {
    if w > 0 {
      PadWider(n / 10, w - 1);
    }
  }

  /** The first number of thirteen digits starts as one of twelve. */
  lemma FirstLong()
    ensures Pad(Pow10(12), 12) == Pad(Pow10(11), 12) + [Digit(0)] && |Pad(Pow10(11), 12)| == 12
  {
    Pow10Is(11);
    Pow10Is(12);
    PadWider(Pow10(11), 11);
    PadWidth(Pow10(11), 12);
  }

  lemma CutBehind(a: string, x: string, y: string, to: string)
    requires to == a + (x + y)
    ensures |to| >= |a| + |x| && to[..|a| + |x|] == a + x
  {
  }

  /** A placeholder's first 36 characters are all of it or, at the first long one, an earlier one. */
  lemma CutPlaceholder(n: nat, to: string)
    requires n < Pow10(12) && to == Placeholder(Uuid, n + 1)
    ensures |to| >= 36 && (to[..36] == to || IsNumbered(Uuid, n, to[..36]))
  {
    if n + 1 < Pow10(12) {
      PlaceholderIsUuid(n + 1);
      assert to[..36] == to;
    } else {
      FirstLong();
      CutBehind(UUID_START, Pad(Pow10(11), 12), [Digit(0)], to);
      NumberedBefore(n, Pow10(11));
    }
  }

  lemma NumberedBefore(n: nat, m: nat)
    requires n + 1 == Pow10(12) && m == Pow10(11)
    ensures IsNumbered(Uuid, n, Placeholder(Uuid, m))
  {
    Pow10Is(11);
    Pow10Is(12);
    assert 1 <= m <= n;
  }

  /** A UUID that is neither a placeholder up to `n` nor the next does not stay. */
  lemma OtherChanges(n: nat, u: string, to: string, rest: string, s: string)
    requires n < Pow10(12) && |u| == 36 && u <= s && !IsNumbered(Uuid, n, u)
    requires to == Placeholder(Uuid, n + 1) && u != to
    ensures to + rest != s
  {
    CutPlaceholder(n, to);
    assert (to + rest)[..36] == to[..36] && u == s[..36];
  }

  lemma SameFront(u: string, rest: string, s: string)
    requires u <= s
    ensures u + rest == s <==> rest == s[|u|..]
  {
    assert s == u + s[|u|..];
    assert (u + rest)[|u|..] == rest;
  }

  /** A UUID that keeps its own name is a placeholder met before, or the next. */
  lemma StaysOrNext(names: Names, n: nat, u: string, after: Names)
    requires n < Pow10(12) && OwnNames(names, n) && IsUuid(u) && Named(names, Uuid, u) == (u, after)
    ensures if u == Placeholder(Uuid, n + 1) then n + 1 < Pow10(12) && !IsNumbered(Uuid, n, u) && OwnNames(after, n + 1)
            else IsNumbered(Uuid, n, u) && after == names
  {
    FewFit(n);
    PlaceholderIsUuid(n + 1);
    OwnNamesOn(names, n);
    if u !in names.ids {
      NewName(names, Uuid, u, n + 1);
    }
  }

  /** The UUID pass changes nothing exactly when the UUIDs are placeholders in order. */
  lemma {:induction false} OrderedExactly(names: Names, n: nat, s: string)
    requires n < Pow10(12) && OwnNames(names, n)
    ensures Uuids(names, s).0 == s <==> InOrder(n, s)
    decreases |s|
  {
    if s == [] {
    } else if StartsUuid(s) {
      var u := s[..36];
      var next := Placeholder(Uuid, n + 1);
      var (to, after) := Named(names, Uuid, u);
      var rest := Uuids(after, s[36..]).0;
      FewFit(n);
      NotNumberedYet(n + 1, next);
      if to == u {
        StaysOrNext(names, n, u, after);
        OrderedExactly(after, if u == next then n + 1 else n, s[36..]);
        SameFront(u, rest, s);
      } else {
        NewName(names, Uuid, u, n + 1);
        OtherChanges(n, u, to, rest, s);
      }
    } else {
      OrderedExactly(names, n, s[1..]);
      SameFront([s[0]], Uuids(names, s[1..]).0, s);
    }
  }

  /** A scrub of the passes' own output changes nothing exactly when the UUIDs left in it are in order. */
  lemma TextFixpointExactly(s: string)
    requires FewTokens(s)
    ensures var out := Text(Fresh, s).0;
      Text(Fresh, out).0 == out <==> InOrder(0, out)
  {
    AgainOnlyUuids(s);
    Pow10Is(12);
    OrderedExactly(Fresh, 0, Text(Fresh, s).0);
  }

  /** A third scrub never changes what the second wrote. */
  lemma TwiceIsEnough(s: string)
    requires FewTokens(s) && |UuidsIn(Text(Fresh, s).0)| < Pow10(12)
    ensures var twice := Text(Fresh, Text(Fresh, s).0).0;
      Text(Fresh, twice).0 == twice
  {
    var out := Text(Fresh, s).0;
    var (twice, last) := Uuids(Fresh, out);
    AgainOnlyUuids(s);
    NoTokensLeft(s);
    FewUuidsCounted(out);
    UuidsEcho(Fresh, Fresh, out);
    ThePlainPrefixes();
    UuidsLeaveNone(Fresh, out, TOOLU);
    UuidsLeaveNone(Fresh, out, MSG);
    UuidsLeaveNone(Fresh, out, REQ);
    var again := Uuids(Fresh, twice).1;
    NothingToDo(again, TOOLU, twice);
    NothingToDo(again, MSG, twice);
    NothingToDo(again, REQ, twice);
  }

  lemma FewUuidsCounted(s: string)
    ensures Count(Uuids(Fresh, s).1, Uuid) <= |UuidsIn(s)|
  {
    CountsIdsStill(Fresh, s);
    NamesTheUuids(Fresh, s);
    assert Fresh.ids.Keys + UuidsIn(s) == UuidsIn(s);
  }

  // --- Where it changes something ---

  /** No UUID starts before `m`. */
  ghost predicate NoUuidBefore(s: string, m: nat) {
    m <= |s| && forall k | 0 <= k < m :: !StartsUuid(s[k..])
  }

  lemma {:induction false} InOrderPast(n: nat, s: string, m: nat)
    requires NoUuidBefore(s, m)
    ensures InOrder(n, s) <==> InOrder(n, s[m..])
  {
    if m == 0 {
      assert s[0..] == s;
    } else {
      forall k | 0 <= k < m - 1 ensures !StartsUuid(s[1..][k..]) {
        assert s[1..][k..] == s[k + 1..];
      }
      assert s[0..] == s && s[1..][m - 1..] == s[m..];
      InOrderPast(n, s[1..], m - 1);
    }
  }

  lemma {:induction false} UuidsPast(names: Names, s: string, m: nat)
    requires NoUuidBefore(s, m)
    ensures Uuids(names, s) == (s[..m] + Uuids(names, s[m..]).0, Uuids(names, s[m..]).1)
  {
    if m == 0 {
      assert s[0..] == s && s[..0] == [];
      NothingBefore(Uuids(names, s).0);
    } else {
      forall k | 0 <= k < m - 1 ensures !StartsUuid(s[1..][k..]) {
        assert s[1..][k..] == s[k + 1..];
      }
      assert s[0..] == s && s[1..][m - 1..] == s[m..];
      UuidsPast(names, s[1..], m - 1);
      assert s[..m] == [s[0]] + s[1..][..m - 1];
      Assoc([s[0]], s[1..][..m - 1], Uuids(names, s[m..]).0);
    }
  }

  lemma UuidHolds(s: string, k: nat, at: nat)
    requires k <= at < k + 36 && at < |s| && !IsOfUuid(s[at])
    ensures !StartsUuid(s[k..])
  {
    assert s[k..][at - k] == s[at];
    assert |s[k..]| >= 36 ==> s[k..][..36][at - k] == s[at];
  }

  lemma {:induction false} TokensFit(p: string, s: string)
    requires p != []
    ensures |TokensIn(p, s)| <= |s|
    decreases |s|
  {
    var found := Find(s, p);
    if found.Some? {
      var tail := s[found.value + |p|..];
      var taken := TokenLength(tail);
      TokensFit(p, tail[taken..]);
      TokensStep(p, s, found.value, tail, taken);
      UnionSize(TokenAt(p, tail), TokensIn(p, tail[taken..]));
    }
  }

  const GAP := " "

  /** A token and two UUIDs, the first behind its prefix. */
  function Behind(u: string, v: string): string {
    TOOLU + (u + (GAP + v))
  }

  function NthUuid(n: nat): string {
    Placeholder(Uuid, n)
  }

  lemma CharThen(names: Names, a: string, rest: string)
    requires forall c | c in a :: !IsOfUuid(c)
    ensures Uuids(names, a + rest) == (a + Uuids(names, rest).0, Uuids(names, rest).1)
  {
    forall k | 0 <= k < |a| ensures !StartsUuid((a + rest)[k..]) {
      assert (a + rest)[k] == a[k] && a[k] in a;
      UuidHolds(a + rest, k, k);
    }
    UuidsPast(names, a + rest, |a|);
    assert (a + rest)[..|a|] == a && (a + rest)[|a|..] == rest;
  }

  lemma UuidsOfBoth(u: string, v: string)
    requires IsUuid(u) && IsUuid(v) && u != v
    ensures Uuids(Fresh, Behind(u, v)).0 == Behind(NthUuid(1), NthUuid(2))
  {
    var one := Named(Fresh, Uuid, u).1;
    var two := Named(one, Uuid, v).1;
    CharThen(Fresh, TOOLU, u + (GAP + v));
    BlockThen(Fresh, u, GAP + v);
    CharThen(one, GAP, v);
    BlockThen(one, v, []);
    assert v + [] == v && NthUuid(2) + [] == NthUuid(2);
    NewName(Fresh, Uuid, u, 1);
    NewName(one, Uuid, v, 2);
  }

  lemma PlaceholderStarts(n: nat, p: string)
    requires 1 <= n <= 2 && p == NthUuid(n)
    ensures |p| == 36 && IsBlock(p) && p[8] == '-' && forall i | 0 <= i < 8 :: IsDigit(p[i])
  {
    Pow10Is(12);
    PlaceholderIsUuid(n);
    PlaceholderIsBlock(n);
    assert forall i | 0 <= i <= 8 :: p[i] == UUID_START[i];
  }

  /** What is left behind the token: characters of UUIDs and the gap. */
  ghost predicate IsLeft(left: string, p: string) {
    && Run(left) == 0 && (forall c | c in left :: IsOfUuid(c) || c == ' ')
    && |left| > 28 && left[28] == ' ' && left[29..] == p
  }

  lemma LeftBehind(first: string, second: string, gap: string, tail: string, left: string)
    requires |first| == 36 && |second| == 36 && gap == GAP && tail == first + (gap + second) && left == tail[8..]
    requires (forall c | c in first :: IsOfUuid(c)) && (forall c | c in second :: IsOfUuid(c)) && first[8] == '-'
    ensures IsLeft(left, second) && |tail| == 73 && tail[..8] == first[..8]
  {
    assert left == first[8..] + (gap + second) && left[0] == first[8];
    forall c | c in left ensures IsOfUuid(c) || c == ' ' {
      assert c in first || c in gap || c in second;
    }
  }

  lemma NoTokensIn(p: string, s: string)
    requires p != [] && forall c | c in s :: c != p[0]
    ensures NoTokens(p, s)
  {
    NoneStarts(p, s, []);
    assert s + [] == s;
  }

  /** The prefix with eight digits behind it becomes its first placeholder. */
  lemma TokenTakesStart(names: Names, p: string, tail: string, left: string, s: string)
    requires p != [] && NoneOf(names, p) && |tail| >= 8 && left == tail[8..] && s == p + tail
    requires (forall c | c in tail[..8] :: IsDigit(c)) && Run(left) == 0
    requires forall c | c in left :: c != p[0]
    ensures Prefixed(names, p, s).0 == Placeholder(Tokens(p), 1) + left
  {
    RunOfDigits(tail[..8], left);
    assert tail == tail[..8] + left && s[|p|..] == tail;
    NewName(names, Tokens(p), p + tail[..8], 1);
    var (to, after, taken) := Token(names, p, tail);
    NoTokensIn(p, left);
    NothingToDo(after, p, left);
    ScanTakes(names, p, s, tail, to, after, taken);
  }

  /** The passes of a text in which the last two meet nothing. */
  lemma Through(s: string, a: string, n1: Names, b: string, n2: Names)
    requires Uuids(Fresh, s) == (a, n1) && Prefixed(n1, TOOLU, a) == (b, n2)
    requires NoTokens(MSG, b) && NoTokens(REQ, b) && |a| < Pow10(7) && |b| < Pow10(7)
    ensures Text(Fresh, s).0 == b && FewTokens(s)
  {
    NothingToDo(n2, MSG, b);
    NothingToDo(n2, REQ, b);
    TokensFit(TOOLU, a);
    TokensFit(MSG, b);
    TokensFit(REQ, b);
  }

  lemma StartTaken(s: string, a: string, n1: Names, p: string, tail: string, left: string)
    requires p == TOOLU && Uuids(Fresh, s) == (a, n1) && a == p + tail && |tail| >= 8 && left == tail[8..]
    requires (forall c | c in tail[..8] :: IsDigit(c)) && Run(left) == 0 && forall c | c in left :: IsOfUuid(c) || c == ' '
    ensures Prefixed(n1, p, a).0 == Placeholder(Tokens(p), 1) + left
  {
    ThePlainPrefixes();
    UuidsNameNoneOf(Fresh, s, p);
    TokenTakesStart(n1, p, tail, left, a);
  }

  lemma NoOther(p: string, left: string, second: string, out: string)
    requires (p == MSG || p == REQ) && IsLeft(left, second) && out == Placeholder(Tokens(TOOLU), 1) + left
    ensures NoTokens(p, out)
  {
    forall c | c in out ensures c != p[0] {
      assert c in TOOLU || c in Pad(1, 2) || c in left;
    }
    NoTokensIn(p, out);
  }

  lemma ThroughToken(s: string, a: string, n1: Names, tail: string, left: string, second: string, out: string)
    requires Uuids(Fresh, s) == (a, n1) && a == TOOLU + tail && |tail| == 73 && left == tail[8..]
    requires (forall c | c in tail[..8] :: IsDigit(c)) && IsLeft(left, second)
    requires out == Placeholder(Tokens(TOOLU), 1) + left
    ensures Text(Fresh, s).0 == out && FewTokens(s)
  {
    StartTaken(s, a, n1, TOOLU, tail, left);
    NoOther(MSG, left, second, out);
    NoOther(REQ, left, second, out);
    Pow10Is(7);
    assert |Pad(1, 2)| == 2 && |out| < 100;
    Through(s, a, n1, out, Prefixed(n1, TOOLU, a).1);
  }

  lemma SecondFirst(out: string, left: string, second: string)
    requires out == Placeholder(Tokens(TOOLU), 1) + left && IsLeft(left, second) && second == NthUuid(2)
    ensures !InOrder(0, out)
  {
    assert |Pad(1, 2)| == 2 && |Placeholder(Tokens(TOOLU), 1)| == 8;
    assert out[36] == left[28] && out[0] == TOOLU[0] && out[37..] == left[29..];
    forall k | 0 <= k < 37 ensures !StartsUuid(out[k..]) {
      UuidHolds(out, k, if k == 0 then 0 else 36);
    }
    InOrderPast(0, out, 37);
    OnlySecond(second);
  }

  lemma OnlySecond(second: string)
    requires second == NthUuid(2)
    ensures !InOrder(0, second)
  {
    Pow10Is(12);
    PlaceholderIsUuid(2);
    assert second[..36] == second;
    if second == Placeholder(Uuid, 1) {
      PlaceholdersDiffer(Uuid, 1, Uuid, 2);
      assert false;
    }
  }

  /**
   Two UUIDs, the first behind a prefix: the token takes the start of its
   placeholder, so that the second is the first the next scrub meets.
   */
  lemma SecondComesFirst(u: string, v: string, s: string)
    requires IsUuid(u) && IsUuid(v) && u != v && s == "toolu_" + (u + (" " + v))
    ensures var out := Text(Fresh, s).0;
      Text(Fresh, out).0 != out
  {
    var first, second := NthUuid(1), NthUuid(2);
    var tail := first + (GAP + second);
    var out := Placeholder(Tokens(TOOLU), 1) + tail[8..];
    assert s == Behind(u, v);
    UuidsOfBoth(u, v);
    PlaceholderStarts(1, first);
    PlaceholderStarts(2, second);
    LeftBehind(first, second, GAP, tail, tail[8..]);
    ThroughToken(s, Uuids(Fresh, s).0, Uuids(Fresh, s).1, tail, tail[8..], second, out);
    SecondFirst(out, tail[8..], second);
    TextFixpointExactly(s);
  }
}
