/** The scan for a prefix leaves its own output alone. */
module ScrubPrefixes {
  import opened Wrappers
  import opened Machine
  import opened Sequences
  import opened Decimal
  import opened Scrub
  import opened ScrubProperties

  // --- Where a prefix first occurs ---

  lemma OccursNext(s: string, p: string, k: nat)
    requires s != []
    ensures Occurs(s[1..], p, k) <==> Occurs(s, p, k + 1)
  {
    if k + 1 + |p| <= |s| {
      assert s[1..][k..k + |p|] == s[k + 1..k + 1 + |p|];
    }
  }

  lemma OccursWithin(a: string, b: string, p: string, k: nat, m: nat)
    requires m <= |a| && m <= |b| && a[..m] == b[..m] && k + |p| <= m
    ensures Occurs(a, p, k) <==> Occurs(b, p, k)
  {
    assert a[k..k + |p|] == a[..m][k..k + |p|] == b[k..k + |p|];
  }

  /** `Find` finds the first occurrence. */
  lemma {:induction false} FoundExactly(s: string, p: string, at: nat)
    requires p != []
    ensures Find(s, p) == Some(at) <==> Occurs(s, p, at) && forall k: nat | k < at :: !Occurs(s, p, k)
  {
    if |s| < |p| {
    } else if s[..|p|] == p {
      assert s[0..0 + |p|] == s[..|p|];
      assert Occurs(s, p, 0);
    } else {
      assert s[0..0 + |p|] == s[..|p|];
      assert !Occurs(s, p, 0);
      if at > 0 {
        FoundExactly(s[1..], p, at - 1);
        OccursNext(s, p, at - 1);
        NoneBefore(s, p, at);
      }
    }
  }

  lemma NoneBefore(s: string, p: string, at: nat)
    requires s != [] && !Occurs(s, p, 0) && at > 0
    ensures (forall k: nat | k < at :: !Occurs(s, p, k)) <==> (forall k: nat | k < at - 1 :: !Occurs(s[1..], p, k))
  {
    if forall k: nat | k < at :: !Occurs(s, p, k) {
      forall k: nat | k < at - 1 ensures !Occurs(s[1..], p, k) {
        OccursNext(s, p, k);
      }
    }
    if forall k: nat | k < at - 1 :: !Occurs(s[1..], p, k) {
      forall k: nat | k < at ensures !Occurs(s, p, k) {
        if k > 0 {
          OccursNext(s, p, k - 1);
        }
      }
    }
  }

  /** What follows the first prefix does not move it. */
  lemma FindStays(s: string, p: string, at: nat, end: string)
    requires p != [] && Find(s, p) == Some(at)
    ensures Find(s[..at] + p + end, p) == Some(at)
  {
    var out := s[..at] + p + end;
    FoundExactly(s, p, at);
    assert s[..at + |p|] == s[..at] + p == out[..at + |p|];
    OccursWithin(out, s, p, at, at + |p|);
    forall k: nat | k < at ensures !Occurs(out, p, k) {
      OccursWithin(out, s, p, k, at + |p|);
    }
    FoundExactly(out, p, at);
  }

  /** No prefix starts among digits. */
  lemma {:induction false} FindPastDigits(x: string, r: string, p: string)
    requires p != [] && !IsDigit(p[0]) && forall c | c in x :: IsDigit(c)
    ensures Find(x + r, p) == if Find(r, p).None? then None else Some(|x| + Find(r, p).value)
  {
    if x == [] {
      assert x + r == r;
    } else {
      assert x[0] in x;
      FindPastDigits(x[1..], r, p);
      BehindFirst(x, r);
      FindNext(x + r, p);
    }
  }

  lemma BehindFirst(x: string, r: string)
    requires x != []
    ensures (x + r)[0] == x[0] && (x + r)[1..] == x[1..] + r
  {
  }

  /** A prefix that does not start here starts later. */
  lemma FindNext(s: string, p: string)
    requires p != [] && s != [] && s[0] != p[0]
    ensures Find(s, p) == if Find(s[1..], p).None? then None else Some(1 + Find(s[1..], p).value)
  {
    if |s| < |p| {
      TooShort(s, p);
      TooShort(s[1..], p);
    } else {
      assert s[..|p|][0] == s[0];
      NotHere(s, p);
    }
  }

  lemma TooShort(s: string, p: string)
    requires p != [] && |s| < |p|
    ensures Find(s, p).None?
  {
  }

  lemma NotHere(s: string, p: string)
    requires p != [] && |p| <= |s| && s[..|p|] != p
    ensures Find(s, p) == if Find(s[1..], p).None? then None else Some(1 + Find(s[1..], p).value)
  {
  }

  /** A scan passes over digits. */
  lemma PrefixedPastDigits(names: Names, p: string, x: string, r: string)
    requires p != [] && !IsDigit(p[0]) && forall c | c in x :: IsDigit(c)
    ensures Prefixed(names, p, x + r) == (x + Prefixed(names, p, r).0, Prefixed(names, p, r).1)
  {
    FindPastDigits(x, r, p);
    PastOrDone(names, p, x + r, x, r);
  }

  lemma PastOrDone(names: Names, p: string, s: string, x: string, r: string)
    requires p != [] && s == x + r
    requires Find(s, p) == if Find(r, p).None? then None else Some(|x| + Find(r, p).value)
    ensures Prefixed(names, p, s) == (x + Prefixed(names, p, r).0, Prefixed(names, p, r).1)
  {
    if Find(r, p).Some? {
      var at := Find(r, p).value;
      Past(s, x, r, at, |p|, |x| + at);
      StepPast(names, p, s, |x| + at, x, r, at);
    } else {
      PrefixedEnds(names, p, s);
      PrefixedEnds(names, p, r);
    }
  }

  lemma Past(s: string, x: string, r: string, at: nat, width: nat, there: nat)
    requires at + width <= |r| && s == x + r && there == |x| + at
    ensures s[there + width..] == r[at + width..]
    ensures s[..there] == x + r[..at]
  {
  }

  /** The same tail behind the first prefix: the same step, behind `x`. */
  lemma StepPast(names: Names, p: string, s: string, there: nat, x: string, r: string, at: nat)
    requires p != [] && Find(r, p) == Some(at) && Find(s, p) == Some(there)
    requires s[there + |p|..] == r[at + |p|..] && s[..there] == x + r[..at]
    ensures Prefixed(names, p, s) == (x + Prefixed(names, p, r).0, Prefixed(names, p, r).1)
  {
    var tail := r[at + |p|..];
    var (to, after, taken) := Token(names, p, tail);
    PrefixedStep(names, p, r, at, tail, to, after, taken);
    PrefixedStep(names, p, s, there, tail, to, after, taken);
    Append3(x, r[..at], to, Prefixed(after, p, tail[taken..]).0);
  }

  // --- The letters and digits a text starts with ---

  lemma {:induction false} RunStops(c: string, y: string)
    requires c != [] && !IsAlnum(c[|c| - 1])
    ensures Run(c + y) == Run(c) < |c|
  {
    if IsAlnum(c[0]) {
      assert (c + y)[1..] == c[1..] + y;
      RunStops(c[1..], y);
    }
  }

  lemma {:induction false} RunOfDigits(x: string, y: string)
    requires (forall c | c in x :: IsDigit(c)) && Run(y) == 0
    ensures Run(x + y) == |x|
  {
    if x == [] {
      assert x + y == y;
    } else {
      assert x[0] in x;
      assert (x + y)[1..] == x[1..] + y;
      RunOfDigits(x[1..], y);
    }
  }

  lemma {:induction false} RunIsWhole(s: string)
    ensures Run(s[Run(s)..]) == 0
  {
    if s != [] && IsAlnum(s[0]) {
      RunIsWhole(s[1..]);
      assert s[Run(s)..] == s[1..][Run(s[1..])..];
    }
  }

  // --- Tokens and their placeholders ---

  /** Every name behind `p` is one of its placeholders. */
  ghost predicate TokensNumbered(names: Names, p: string) {
    forall id | id in names.ids && p <= id :: IsNumbered(Tokens(p), Count(names, Tokens(p)), names.ids[id])
  }

  lemma NamedTokensNumbered(names: Names, p: string, id: string)
    requires TokensNumbered(names, p) && p <= id
    ensures var (to, after) := Named(names, Tokens(p), id);
      && TokensNumbered(after, p)
      && Count(names, Tokens(p)) <= Count(after, Tokens(p))
      && IsNumbered(Tokens(p), Count(after, Tokens(p)), to)
  {
    if id !in names.ids {
      var n := SatAdd(Count(names, Tokens(p)), 1);
      var after := Named(names, Tokens(p), id).1;
      NextIsNumbered(Tokens(p), n);
      forall a | a in names.ids && p <= a ensures IsNumbered(Tokens(p), n, names.ids[a]) {
        NumberedStill(Tokens(p), Count(names, Tokens(p)), n, names.ids[a]);
      }
    }
  }

  /** Below 10^7 a placeholder's digits are too few to be a token. */
  lemma {:induction false} PadIsShort(n: nat, w: nat)
    requires n < Pow10(w) && 2 <= w
    ensures |Pad(n, 2)| <= w
  {
    if w == 2 {
      PadWidth(n, 2);
    } else if n >= 100 {
      assert Pad(n, 2) == Pad(n / 10, 1) + [Digit(n % 10)];
      PadIsShorter(n / 10, w - 1);
    } else {
      assert Pow10(2) == 100 by {
        assert Pow10(1) == 10 * Pow10(0);
      }
      PadWidth(n, 2);
    }
  }

  lemma {:induction false} PadIsShorter(n: nat, w: nat)
    requires n < Pow10(w) && 1 <= w
    ensures |Pad(n, 1)| <= w && |Pad(n, 0)| <= w
  {
    if w == 1 {
      assert Pow10(1) == 10 * Pow10(0);
    } else if n >= 10 {
      PadIsShorter(n / 10, w - 1);
    }
  }

  /** What a token became: the prefix, and digits, few below 10^7, unless it was left alone. */
  lemma TokenBecomes(names: Names, p: string, tail: string)
    requires TokensNumbered(names, p) && p != []
    ensures var (to, after, taken) := Token(names, p, tail);
      && TokensNumbered(after, p)
      && |to| >= |p| && to[..|p|] == p && (forall c | c in to[|p|..] :: IsDigit(c))
      && (if taken == 0 then to == p && Run(tail) < 8 else Run(tail[taken..]) == 0)
      && (Count(after, Tokens(p)) < Pow10(7) ==> |to| <= |p| + 7)
  {
    var len := Run(tail);
    if len >= 8 {
      NamedTokensNumbered(names, p, p + tail[..len]);
      var (to, after) := Named(names, Tokens(p), p + tail[..len]);
      RunIsWhole(tail);
      var n: nat :| 1 <= n <= Count(after, Tokens(p)) && to == Placeholder(Tokens(p), n);
      assert to[|p|..] == Pad(n, 2) && to[..|p|] == p;
      if n < Pow10(7) {
        PadIsShort(n, 7);
      }
    }
  }

  lemma CountsOnlyGrow(names: Names, p: string, s: string)
    requires p != []
    ensures Count(names, Tokens(p)) <= Count(Prefixed(names, p, s).1, Tokens(p))
  {
    PrefixedInvariant(n => Count(names, Tokens(p)) <= Count(n, Tokens(p)), names, p, s);
  }

  /** What a scan writes, up to and past the first prefix. */
  lemma PrefixStays(names: Names, p: string, s: string, at: nat) returns (to: string, rest: string)
    requires TokensNumbered(names, p) && p != [] && Find(s, p) == Some(at)
    ensures Prefixed(names, p, s).0 == s[..at] + to + rest
    ensures |p| <= |to| && to[..|p|] == p
  {
    var tail := s[at + |p|..];
    var (word, after, taken) := Token(names, p, tail);
    to, rest := word, Prefixed(after, p, tail[taken..]).0;
    PrefixedStep(names, p, s, at, tail, to, after, taken);
    TokenBecomes(names, p, tail);
  }

  /** The letters and digits a text starts with are not touched. */
  lemma RunKept(names: Names, p: string, s: string)
    requires TokensNumbered(names, p) && IsPrefix(p)
    ensures Run(Prefixed(names, p, s).0) == Run(s)
  {
    var found := Find(s, p);
    if found.Some? {
      var to, rest := PrefixStays(names, p, s, found.value);
      FoundExactly(s, p, found.value);
      SameRun(s, found.value, p, to, rest);
    }
  }

  lemma SameRun(s: string, at: nat, p: string, to: string, rest: string)
    requires IsPrefix(p) && Occurs(s, p, at)
    requires |p| <= |to| && to[..|p|] == p
    ensures Run(s[..at] + to + rest) == Run(s)
  {
    var c := s[..at] + p;
    assert s == c + s[at + |p|..];
    assert s[..at] + to + rest == c + (to[|p|..] + rest) by {
      assert to == p + to[|p|..];
    }
    RunStops(c, s[at + |p|..]);
    RunStops(c, to[|p|..] + rest);
  }

  /** Scanning its own output changes nothing and names nothing, below 10^7 tokens of the prefix. */
  lemma {:induction false} PrefixedIsIdempotent(names: Names, p: string, s: string, again: Names)
    requires TokensNumbered(names, p) && IsPrefix(p)
    requires Count(Prefixed(names, p, s).1, Tokens(p)) < Pow10(7)
    ensures Prefixed(again, p, Prefixed(names, p, s).0) == (Prefixed(names, p, s).0, again)
    decreases |s|
  {
    var found := Find(s, p);
    if found.Some? {
      var at := found.value;
      var tail := s[at + |p|..];
      var (to, after, taken) := Token(names, p, tail);
      var (rest, last) := Prefixed(after, p, tail[taken..]);
      PrefixedStep(names, p, s, at, tail, to, after, taken);
      CountsOnlyGrow(after, p, tail[taken..]);
      TokenBecomes(names, p, tail);
      RunKept(after, p, tail[taken..]);
      PrefixedIsIdempotent(after, p, tail[taken..], again);
      OutputRescanned(again, p, s, at, to, rest, if taken == 0 then tail else tail[taken..]);
    }
  }

  /** One step over the output: the prefix is found where it was, and what follows is no token. */
  lemma OutputRescanned(again: Names, p: string, s: string, at: nat, to: string, rest: string, tail: string)
    requires IsPrefix(p) && Find(s, p) == Some(at)
    requires |p| <= |to| <= |p| + 7 && to[..|p|] == p && forall c | c in to[|p|..] :: IsDigit(c)
    requires Run(rest) == Run(tail) && (if to == p then Run(tail) < 8 else Run(tail) == 0)
    ensures var (scanned, last) := Prefixed(again, p, rest);
      Prefixed(again, p, s[..at] + to + rest) == (s[..at] + to + scanned, last)
  {
    var x := to[|p|..];
    var out := s[..at] + to + rest;
    assert to == p + x;
    assert out == s[..at] + p + (x + rest);
    FindStays(s, p, at, x + rest);
    assert out[at + |p|..] == x + rest && out[..at] == s[..at];
    if x == [] {
      assert x + rest == rest;
    } else {
      RunOfDigits(x, rest);
    }
    assert p[0] in p;
    PrefixedPastDigits(again, p, x, rest);
    assert (x + rest)[0..] == x + rest;
    PrefixedStep(again, p, out, at, x + rest, p, again, 0);
    Spread(s[..at], p, x, Prefixed(again, p, rest).0, to);
  }

  lemma Spread(before: string, p: string, x: string, rest: string, to: string)
    requires to == p + x
    ensures before + p + (x + rest) == before + to + rest
  {
  }

  // --- Where it stops ---

  lemma {:induction false} PadIsLong(n: nat, w: nat)
    requires Pow10(w) <= n
    ensures |Pad(n, 0)| > w && |Pad(n, 1)| > w && |Pad(n, 2)| > w
    decreases w
  {
    if w > 0 {
      PadIsLong(n / 10, w - 1);
    }
  }

  lemma {:induction false} RunOverDigits(x: string, y: string)
    requires forall c | c in x :: IsDigit(c)
    ensures Run(x + y) >= |x|
  {
    if x != [] {
      assert x[0] in x && (x + y)[1..] == x[1..] + y;
      RunOverDigits(x[1..], y);
    }
  }

  /** A placeholder of eight digits or more is a token to the next scan. */
  lemma LongIsToken(p: string, s: string, at: nat, n: nat, rest: string)
    requires IsPrefix(p) && Find(s, p) == Some(at) && Pow10(7) <= n
    ensures Count(Prefixed(Fresh, p, s[..at] + Placeholder(Tokens(p), n) + rest).1, Tokens(p)) > 0
  {
    var x := Pad(n, 2);
    var out := s[..at] + Placeholder(Tokens(p), n) + rest;
    PadIsLong(n, 7);
    assert out == s[..at] + p + (x + rest);
    FindStays(s, p, at, x + rest);
    assert out[at + |p|..] == x + rest;
    RunOverDigits(x, rest);
    var (to, after, taken) := Token(Fresh, p, x + rest);
    assert Count(after, Tokens(p)) == 1;
    PrefixedStep(Fresh, p, out, at, x + rest, to, after, taken);
    CountsOnlyGrow(after, p, (x + rest)[taken..]);
  }

  /** Once a scan numbers a token 10^7, the next scan numbers one again. */
  lemma {:induction false} TooManyTokens(names: Names, p: string, s: string)
    requires TokensNumbered(names, p) && IsPrefix(p)
    requires Count(names, Tokens(p)) < Pow10(7) <= Count(Prefixed(names, p, s).1, Tokens(p))
    ensures Count(Prefixed(Fresh, p, Prefixed(names, p, s).0).1, Tokens(p)) > 0
    decreases |s|
  {
    assert Find(s, p).Some? by {
      if Find(s, p).None? {
        PrefixedEnds(names, p, s);
      }
    }
    var at := Find(s, p).value;
    var tail := s[at + |p|..];
    var (to, after, taken) := Token(names, p, tail);
    var rest := Prefixed(after, p, tail[taken..]).0;
    PrefixedStep(names, p, s, at, tail, to, after, taken);
    TokenBecomes(names, p, tail);
    if Count(after, Tokens(p)) < Pow10(7) {
      TooManyTokens(after, p, tail[taken..]);
      RunKept(after, p, tail[taken..]);
      OutputRescanned(Fresh, p, s, at, to, rest, if taken == 0 then tail else tail[taken..]);
    } else {
      LongIsToken(p, s, at, Count(after, Tokens(p)), rest);
    }
  }

  /** The tokens of a text: each the prefix and the eight letters and digits or more behind it. */
  function TokensIn(p: string, s: string): set<string>
    requires p != []
    decreases |s|, 0
  {
    var found := Find(s, p);
    if found.None? then {} else TokensFrom(p, s[found.value + |p|..])
  }

  /** Those of what follows a prefix: the token there, if there is one, and the tokens behind it. */
  function TokensFrom(p: string, tail: string): set<string>
    requires p != []
    decreases |tail|, 1
  {
    TokenAt(p, tail) + TokensIn(p, tail[TokenLength(tail)..])
  }

  /** A scan names exactly the text's tokens that had no name. */
  lemma {:induction false} NamesTheTokens(names: Names, p: string, s: string)
    requires p != []
    ensures Prefixed(names, p, s).1.ids.Keys == names.ids.Keys + TokensIn(p, s)
    decreases |s|
  {
    var found := Find(s, p);
    if found.None? {
      PrefixedEnds(names, p, s);
    } else {
      var tail := s[found.value + |p|..];
      var (to, after, taken) := Token(names, p, tail);
      PrefixedStep(names, p, s, found.value, tail, to, after, taken);
      NamesTheTokens(after, p, tail[taken..]);
      TokenKeys(names, p, tail);
      TokensStep(p, s, found.value, tail, taken);
      SetsJoin(names.ids.Keys, TokenAt(p, tail), TokensIn(p, tail[taken..]));
    }
  }

  /** How much of a tail a token takes: nothing when its run is short. */
  function TokenLength(tail: string): (n: nat)
    ensures n <= |tail|
  {
    if Run(tail) < 8 then 0 else Run(tail)
  }

  /** The token right behind a prefix, if there is one. */
  function TokenAt(p: string, tail: string): set<string> {
    if Run(tail) < 8 then {} else {p + tail[..Run(tail)]}
  }

  lemma SetsJoin(a: set<string>, b: set<string>, c: set<string>)
    ensures (a + b) + c == a + (b + c)
  {
  }

  lemma TokensStep(p: string, s: string, at: nat, tail: string, taken: nat)
    requires p != [] && Find(s, p) == Some(at) && tail == s[at + |p|..] && taken == TokenLength(tail)
    ensures TokensIn(p, s) == TokenAt(p, tail) + TokensIn(p, tail[taken..])
  {
    FromFirst(p, s, at, tail);
    FromTail(p, tail, taken);
  }

  lemma FromFirst(p: string, s: string, at: nat, tail: string)
    requires p != [] && Find(s, p) == Some(at) && tail == s[at + |p|..]
    ensures TokensIn(p, s) == TokensFrom(p, tail)
  {
  }

  lemma FromTail(p: string, tail: string, taken: nat)
    requires p != [] && taken == TokenLength(tail)
    ensures TokensFrom(p, tail) == TokenAt(p, tail) + TokensIn(p, tail[taken..])
  {
  }

  lemma TokenKeys(names: Names, p: string, tail: string)
    ensures var (to, after, taken) := Token(names, p, tail);
      && taken == TokenLength(tail)
      && after.ids.Keys == names.ids.Keys + TokenAt(p, tail)
  {
  }

  /** From the start, a prefix's count is how many ids there are. */
  ghost predicate CountsAll(names: Names, p: string) {
    Count(names, Tokens(p)) == Min(|names.ids.Keys|, U64_MAX)
  }

  lemma NamedCountsAll(names: Names, p: string, id: string)
    requires CountsAll(names, p)
    ensures CountsAll(Named(names, Tokens(p), id).1, p)
  {
    var after := Named(names, Tokens(p), id).1;
    if id !in names.ids {
      assert after.ids.Keys == names.ids.Keys + {id};
    }
  }

  /** A fresh scan counts the tokens of its text. */
  lemma CountsTokens(p: string, s: string)
    requires p != []
    ensures Count(Prefixed(Fresh, p, s).1, Tokens(p)) == Min(|TokensIn(p, s)|, U64_MAX)
  {
    forall n: Names, id: string | CountsAll(n, p) ensures CountsAll(Named(n, Tokens(p), id).1, p) {
      NamedCountsAll(n, p, id);
    }
    PrefixedInvariant(n => CountsAll(n, p), Fresh, p, s);
    NamesTheTokens(Fresh, p, s);
    assert Fresh.ids.Keys + TokensIn(p, s) == TokensIn(p, s);
  }

  /**
   A fresh scan of a fresh scan's output changes and names nothing exactly when the
   text has fewer than 10^7 different tokens.
   */
  lemma PrefixedFixpointExactly(p: string, s: string)
    requires IsPrefix(p)
    ensures var out := Prefixed(Fresh, p, s).0;
      Prefixed(Fresh, p, out) == (out, Fresh) <==> |TokensIn(p, s)| < Pow10(7)
  {
    CountsTokens(p, s);
    Pow10Is(7);
    if |TokensIn(p, s)| < Pow10(7) {
      PrefixedIsIdempotent(Fresh, p, s, Fresh);
    } else {
      TooManyTokens(Fresh, p, s);
    }
  }

  lemma PlaceholderStep(p: string, n: nat)
    requires IsPrefix(p)
    ensures var (to, after, taken) := Token(Fresh, p, Pad(n, 2));
      Prefixed(Fresh, p, Placeholder(Tokens(p), n))
        == (to + Prefixed(after, p, Pad(n, 2)[taken..]).0, Prefixed(after, p, Pad(n, 2)[taken..]).1)
    ensures Run(Pad(n, 2)) == |Pad(n, 2)|
  {
    var s := Placeholder(Tokens(p), n);
    var tail := Pad(n, 2);
    assert s[|p|..] == tail && s[0..0 + |p|] == p && s[..0] == [];
    FoundExactly(s, p, 0);
    var (to, after, taken) := Token(Fresh, p, tail);
    assert [] + to == to;
    PrefixedStep(Fresh, p, s, 0, tail, to, after, taken);
    RunOfDigits(tail, []);
    assert tail + [] == tail;
  }

  /** A placeholder alone is left as it is exactly below 10^7; past that it is renamed once more. */
  lemma PlaceholderLeftAlone(p: string, n: nat)
    requires IsPrefix(p)
    ensures Prefixed(Fresh, p, Placeholder(Tokens(p), n)) == (Placeholder(Tokens(p), n), Fresh) <==> n < Pow10(7)
  {
    PlaceholderStep(p, n);
    var tail := Pad(n, 2);
    if n < Pow10(7) {
      PadIsShort(n, 7);
      assert tail[0..] == tail && tail + [] == tail && p[0] in p;
      PrefixedPastDigits(Fresh, p, tail, []);
      PrefixedEnds(Fresh, p, []);
    } else {
      PadIsLong(n, 7);
      var (to, after, taken) := Token(Fresh, p, tail);
      assert Count(after, Tokens(p)) == 1;
      CountsOnlyGrow(after, p, tail[taken..]);
    }
  }
}
