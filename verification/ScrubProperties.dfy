/** What scrubbing keeps: it renames ids one to one, loses nothing, and leaves its own output alone. */
module ScrubProperties {
  import opened Wrappers
  import opened Machine
  import opened Decimal
  import opened Scrub

  // --- Placeholders ---

  /** What a prefix has to be: no digits in it, and no letter or digit at its end. */
  ghost predicate IsPrefix(p: string) {
    p != [] && !IsAlnum(p[|p| - 1]) && forall c | c in p :: !IsDigit(c)
  }

  lemma ThePrefixes()
    ensures IsPrefix("toolu_") && IsPrefix("msg_") && IsPrefix("req_")
  {
  }

  ghost predicate IsKind(kind: Kind) {
    kind.Tokens? ==> IsPrefix(kind.prefix)
  }

  /** What comes before a placeholder's number; it ends in no digit. */
  function Start(kind: Kind): string {
    if kind.Uuid? then UUID_START else kind.prefix
  }

  function Width(kind: Kind): nat {
    if kind.Uuid? then 12 else 2
  }

  /** Digits behind a non-digit are told apart from it. */
  lemma {:induction false} DigitsEnd(a: string, x: string, b: string, y: string)
    requires a != [] && !IsDigit(a[|a| - 1]) && b != [] && !IsDigit(b[|b| - 1])
    requires (forall c | c in x :: IsDigit(c)) && (forall c | c in y :: IsDigit(c))
    requires a + x == b + y
    ensures a == b && x == y
  {
    var s := a + x;
    assert s[|a| - 1] == a[|a| - 1] && s[|b| - 1] == b[|b| - 1];
    assert forall i | |a| <= i < |s| :: s[i] in x;
    assert forall i | |b| <= i < |s| :: s[i] in y;
    assert a == s[..|a|] && b == s[..|b|] && x == s[|a|..] && y == s[|b|..];
  }

  lemma PlaceholdersDiffer(kind: Kind, n: nat, other: Kind, m: nat)
    requires IsKind(kind) && IsKind(other)
    requires Placeholder(kind, n) == Placeholder(other, m)
    ensures kind == other && n == m
  {
    StartsEnd(kind);
    StartsEnd(other);
    DigitsEnd(Start(kind), Pad(n, Width(kind)), Start(other), Pad(m, Width(other)));
    assert UUID_START[0] in UUID_START;
    PadInjective(n, m, Width(kind));
  }

  lemma StartsEnd(kind: Kind)
    requires IsKind(kind)
    ensures Start(kind) != [] && !IsDigit(Start(kind)[|Start(kind)| - 1])
  {
  }

  /** A UUID's placeholder has a UUID's shape exactly below 10^12. */
  lemma PlaceholderIsUuid(n: nat)
    ensures IsUuid(Placeholder(Uuid, n)) <==> n < Pow10(12)
  {
    PadWidth(n, 12);
    var s := Placeholder(Uuid, n);
    assert |UUID_START| == 24;
    forall i | 24 <= i < |s| ensures IsHex(s[i]) {
      assert s[i] == Pad(n, 12)[i - 24];
    }
  }

  // --- One to one ---

  /** One of the first `upTo` placeholders of a kind. */
  ghost predicate IsNumbered(kind: Kind, upTo: nat, to: string) {
    exists n: nat :: 1 <= n <= upTo && to == Placeholder(kind, n)
  }

  ghost predicate Numbered(names: Names, to: string) {
    exists kind: Kind :: IsKind(kind) && IsNumbered(kind, Count(names, kind), to)
  }

  lemma NumberedStill(kind: Kind, upTo: nat, more: nat, to: string)
    requires IsNumbered(kind, upTo, to) && upTo <= more
    ensures IsNumbered(kind, more, to)
  {
    var n: nat :| 1 <= n <= upTo && to == Placeholder(kind, n);
    assert 1 <= n <= more;
  }

  lemma NextIsNumbered(kind: Kind, n: nat)
    requires n >= 1
    ensures IsNumbered(kind, n, Placeholder(kind, n))
  {
  }

  /** The next placeholder is none of those numbered before, of its kind or another. */
  lemma NextIsNew(kind: Kind, n: nat, other: Kind, upTo: nat, to: string)
    requires IsKind(kind) && IsKind(other)
    requires IsNumbered(other, upTo, to) && (kind == other ==> upTo < n)
    ensures to != Placeholder(kind, n)
  {
    var m: nat :| 1 <= m <= upTo && to == Placeholder(other, m);
    if to == Placeholder(kind, n) {
      PlaceholdersDiffer(other, m, kind, n);
      assert false;
    }
  }

  /** No count is at its end, where it stays and the next id gets the number of the last. */
  ghost predicate Unsaturated(names: Names) {
    forall kind: Kind :: Count(names, kind) < U64_MAX
  }

  ghost predicate OneToOne(names: Names) {
    forall a, b | a in names.ids && b in names.ids && names.ids[a] == names.ids[b] :: a == b
  }

  /** Every placeholder given is numbered, and until a count is at its end no two ids share one. */
  ghost predicate WellNamed(names: Names) {
    && (forall id | id in names.ids :: Numbered(names, names.ids[id]))
    && (Unsaturated(names) ==> OneToOne(names))
  }

  /** No id loses the placeholder it has. */
  ghost predicate Grows(names: Names, after: Names) {
    && (forall id | id in names.ids :: id in after.ids && after.ids[id] == names.ids[id])
    && (forall kind: Kind :: Count(names, kind) <= Count(after, kind))
  }

  lemma NamedKeeps(names: Names, kind: Kind, id: string)
    requires IsKind(kind) && WellNamed(names)
    ensures var (to, after) := Named(names, kind, id);
      WellNamed(after) && Grows(names, after) && id in after.ids && after.ids[id] == to
  {
    if id !in names.ids {
      NewNameKeeps(names, kind, id);
    }
  }

  lemma NewNameKeeps(names: Names, kind: Kind, id: string)
    requires IsKind(kind) && WellNamed(names) && id !in names.ids
    ensures WellNamed(Named(names, kind, id).1)
  {
    var n := SatAdd(Count(names, kind), 1);
    var (to, after) := Named(names, kind, id);
    forall a | a in after.ids
      ensures Numbered(after, after.ids[a]) && (a != id && Unsaturated(after) ==> after.ids[a] != to)
    {
      if a == id {
        NextIsNumbered(kind, n);
        assert IsNumbered(kind, Count(after, kind), to);
      } else {
        OldNameKept(names, kind, id, a);
      }
    }
    if Unsaturated(after) {
      WasUnsaturated(names, kind, id);
      CountOn(names, kind, id, kind);
    }
  }

  lemma WasUnsaturated(names: Names, kind: Kind, id: string)
    requires Unsaturated(Named(names, kind, id).1)
    ensures Unsaturated(names)
  {
    forall k: Kind ensures Count(names, k) < U64_MAX {
      assert Count(names, k) <= Count(Named(names, kind, id).1, k);
    }
  }

  lemma OldNameKept(names: Names, kind: Kind, id: string, known: string)
    requires IsKind(kind) && WellNamed(names) && id !in names.ids && known in names.ids
    ensures Numbered(Named(names, kind, id).1, names.ids[known])
    ensures Count(names, kind) < U64_MAX ==> names.ids[known] != Named(names, kind, id).0
  {
    var k := KindOf(names, known);
    var after := Named(names, kind, id).1;
    CountOn(names, kind, id, k);
    NumberedStill(k, Count(names, k), Count(after, k), names.ids[known]);
    if Count(names, kind) < U64_MAX {
      NewName(names, kind, id, Count(names, kind) + 1);
      NextIsNew(kind, Count(names, kind) + 1, k, Count(names, k), names.ids[known]);
    }
  }

  lemma KindOf(names: Names, known: string) returns (k: Kind)
    requires WellNamed(names) && known in names.ids
    ensures IsKind(k) && IsNumbered(k, Count(names, k), names.ids[known])
  {
    assert Numbered(names, names.ids[known]);
    k :| IsKind(k) && IsNumbered(k, Count(names, k), names.ids[known]);
  }

  lemma CountOn(names: Names, kind: Kind, id: string, k: Kind)
    requires id !in names.ids
    ensures Count(names, k) <= Count(Named(names, kind, id).1, k)
    ensures Unsaturated(Named(names, kind, id).1) ==> Count(names, kind) + 1 < U64_MAX
  {
    var after := Named(names, kind, id).1;
    assert Unsaturated(after) ==> Count(after, kind) < U64_MAX;
  }

  /** `names` led to `after`, still well named and with no name changed. */
  ghost predicate LeadsTo(names: Names, after: Names) {
    WellNamed(after) && Grows(names, after)
  }

  lemma NamedLeads(start: Names, names: Names, kind: Kind, id: string)
    requires IsKind(kind) && LeadsTo(start, names)
    ensures LeadsTo(start, Named(names, kind, id).1)
  {
    NamedKeeps(names, kind, id);
  }

  /** What naming one id keeps, a scan for UUIDs keeps. */
  lemma {:induction false} UuidsInvariant(keeps: Names -> bool, names: Names, s: string)
    requires keeps(names)
    requires forall n: Names, id: string :: keeps(n) && IsUuid(id) ==> keeps(Named(n, Uuid, id).1)
    ensures keeps(Uuids(names, s).1)
    decreases |s|
  {
    if s == [] {
    } else if StartsUuid(s) {
      UuidsInvariant(keeps, Named(names, Uuid, s[..36]).1, s[36..]);
    } else {
      UuidsInvariant(keeps, names, s[1..]);
    }
  }

  /** A UUID in front is renamed. */
  lemma BlockThen(names: Names, u: string, rest: string)
    requires IsUuid(u)
    ensures StartsUuid(u + rest)
    ensures var (to, after) := Named(names, Uuid, u);
      Uuids(names, u + rest) == (to + Uuids(after, rest).0, Uuids(after, rest).1)
  {
    assert (u + rest)[..36] == u && (u + rest)[36..] == rest;
  }

  /** What naming one token keeps, a scan for a prefix keeps. */
  lemma {:induction false} PrefixedInvariant(keeps: Names -> bool, names: Names, p: string, s: string)
    requires p != [] && keeps(names)
    requires forall n: Names, id: string :: keeps(n) && p <= id ==> keeps(Named(n, Tokens(p), id).1)
    ensures keeps(Prefixed(names, p, s).1)
    decreases |s|
  {
    var found := Find(s, p);
    if found.Some? {
      var tail := s[found.value + |p|..];
      var (to, after, taken) := Token(names, p, tail);
      assert keeps(after);
      PrefixedInvariant(keeps, after, p, tail[taken..]);
      PrefixedStep(names, p, s, found.value, tail, to, after, taken);
    }
  }

  lemma UuidsLead(names: Names, s: string)
    requires WellNamed(names)
    ensures LeadsTo(names, Uuids(names, s).1)
  {
    forall n: Names, id: string | LeadsTo(names, n) ensures LeadsTo(names, Named(n, Uuid, id).1) {
      NamedLeads(names, n, Uuid, id);
    }
    UuidsInvariant(n => LeadsTo(names, n), names, s);
  }

  lemma PrefixedLeads(names: Names, p: string, s: string)
    requires WellNamed(names) && IsPrefix(p)
    ensures LeadsTo(names, Prefixed(names, p, s).1)
  {
    forall n: Names, id: string | LeadsTo(names, n) ensures LeadsTo(names, Named(n, Tokens(p), id).1) {
      NamedLeads(names, n, Tokens(p), id);
    }
    PrefixedInvariant(n => LeadsTo(names, n), names, p, s);
  }

  /** A pass of either kind changes no name, and keeps the names one to one until a count is at its end. */
  lemma PassesKeep(names: Names, p: string, s: string)
    requires WellNamed(names) && IsPrefix(p)
    ensures LeadsTo(names, Uuids(names, s).1)
    ensures LeadsTo(names, Prefixed(names, p, s).1)
  {
    UuidsLead(names, s);
    PrefixedLeads(names, p, s);
  }

  lemma NamedOneToOne(names: Names, kind: Kind, id: string)
    requires IsKind(kind) && WellNamed(names) && OneToOne(names) && id !in names.ids && Count(names, kind) < U64_MAX
    ensures OneToOne(Named(names, kind, id).1)
  {
    forall known | known in names.ids ensures names.ids[known] != Named(names, kind, id).0 {
      OldNameKept(names, kind, id, known);
    }
  }

  /** Two more ids of a kind keep the names one to one exactly when there are two numbers left for them. */
  lemma StaysOneToOneExactly(names: Names, kind: Kind, a: string, b: string)
    requires IsKind(kind) && WellNamed(names) && OneToOne(names) && a != b && a !in names.ids && b !in names.ids
    ensures OneToOne(Named(Named(names, kind, a).1, kind, b).1) <==> Count(names, kind) + 2 <= U64_MAX
  {
    var one := Named(names, kind, a).1;
    var two := Named(one, kind, b).1;
    NewNameKeeps(names, kind, a);
    if Count(names, kind) + 2 <= U64_MAX {
      NamedOneToOne(names, kind, a);
      NamedOneToOne(one, kind, b);
    } else {
      assert two.ids[a] == two.ids[b] == Placeholder(kind, U64_MAX);
    }
  }

  // --- A renaming by one map, which can be undone ---

  /** Every UUID the scan finds is one `ids` knows. */
  ghost predicate Knows(ids: map<string, string>, s: string)
    decreases |s|
  {
    if s == [] then true
    else if StartsUuid(s) then s[..36] in ids && Knows(ids, s[36..])
    else Knows(ids, s[1..])
  }

  /** The text with every UUID the scan finds renamed by `ids`. */
  function Renamed(ids: map<string, string>, s: string): string
    decreases |s|
  {
    if s == [] then []
    else if StartsUuid(s) then (if s[..36] in ids then ids[s[..36]] else s[..36]) + Renamed(ids, s[36..])
    else [s[0]] + Renamed(ids, s[1..])
  }

  /** One pass renames by the names it ends with: an id is the same everywhere. */
  lemma {:induction false} UuidsRename(names: Names, s: string, last: map<string, string>)
    requires WellNamed(names)
    requires Grows(Uuids(names, s).1, Names(last, Uuids(names, s).1.counts))
    ensures Knows(last, s) && Uuids(names, s).0 == Renamed(last, s)
    decreases |s|
  {
    if s == [] {
    } else if StartsUuid(s) {
      NamedKeeps(names, Uuid, s[..36]);
      var after := Named(names, Uuid, s[..36]).1;
      UuidsLead(after, s[36..]);
      UuidsRename(after, s[36..], last);
    } else {
      UuidsRename(names, s[1..], last);
    }
  }

  /** The same dashes and hex digits in the same places. */
  ghost predicate SameShape(a: string, b: string) {
    |a| == |b| && forall i | 0 <= i < |a| :: (a[i] == '-' <==> b[i] == '-') && (IsHex(a[i]) <==> IsHex(b[i]))
  }

  lemma ShapeStarts(a: string, b: string)
    requires SameShape(a, b)
    ensures StartsUuid(a) == StartsUuid(b)
  {
    if StartsUuid(a) {
      ShapeCarries(a, b);
    }
    if StartsUuid(b) {
      ShapeCarries(b, a);
    }
  }

  lemma ShapeCarries(a: string, b: string)
    requires SameShape(a, b) && StartsUuid(a)
    ensures StartsUuid(b)
  {
    forall i | 0 <= i < 36
      ensures if i == 8 || i == 13 || i == 18 || i == 23 then b[..36][i] == '-' else IsHex(b[..36][i])
    {
      assert a[..36][i] == a[i] && b[..36][i] == b[i];
    }
  }

  lemma UuidsSameShape(a: string, b: string)
    requires IsUuid(a) && IsUuid(b)
    ensures SameShape(a, b)
  {
  }

  /** UUIDs go to UUIDs. */
  ghost predicate ToUuids(ids: map<string, string>) {
    forall id | id in ids && IsUuid(id) :: IsUuid(ids[id])
  }

  lemma {:induction false} RenamedShape(ids: map<string, string>, s: string)
    requires ToUuids(ids)
    ensures SameShape(Renamed(ids, s), s)
    decreases |s|
  {
    if s == [] {
    } else if StartsUuid(s) {
      RenamedShape(ids, s[36..]);
      var to := if s[..36] in ids then ids[s[..36]] else s[..36];
      UuidsSameShape(to, s[..36]);
      assert s == s[..36] + s[36..];
    } else {
      RenamedShape(ids, s[1..]);
      assert s == [s[0]] + s[1..];
    }
  }

  /** `back` undoes `ids` on UUIDs. */
  ghost predicate Undoes(back: map<string, string>, ids: map<string, string>) {
    forall id | id in ids && IsUuid(id) :: ids[id] in back && back[ids[id]] == id
  }

  /** Renaming back gives the text: the scan finds the placeholders exactly where the ids were. */
  lemma {:induction false} RenamedBack(ids: map<string, string>, back: map<string, string>, s: string)
    requires ToUuids(ids) && Undoes(back, ids) && Knows(ids, s)
    ensures Renamed(back, Renamed(ids, s)) == s
    decreases |s|
  {
    RenamedShape(ids, s);
    ShapeStarts(Renamed(ids, s), s);
    if s == [] {
    } else if StartsUuid(s) {
      RenamedBack(ids, back, s[36..]);
      var to := ids[s[..36]];
      var out := Renamed(ids, s);
      assert out[..36] == to && out[36..] == Renamed(ids, s[36..]);
      assert s == s[..36] + s[36..];
    } else {
      RenamedBack(ids, back, s[1..]);
      assert Renamed(ids, s)[1..] == Renamed(ids, s[1..]);
    }
  }

  /** The ids by their placeholders. */
  function Inverse(names: Names): map<string, string>
    requires OneToOne(names)
  {
    map id | id in names.ids :: names.ids[id] := id
  }

  /** Below 10^12 UUIDs every UUID in the names stands for a UUID-shaped placeholder. */
  ghost predicate FewUuids(names: Names) {
    && Count(names, Uuid) < Pow10(12)
    && forall id | id in names.ids && IsUuid(id) :: IsNumbered(Uuid, Count(names, Uuid), names.ids[id])
  }

  /** Nothing is lost: the names a scrub ends with give the text back. */
  lemma UuidsRestored(names: Names, s: string)
    requires WellNamed(names) && Unsaturated(Uuids(names, s).1) && FewUuids(Uuids(names, s).1)
    ensures OneToOne(Uuids(names, s).1)
    ensures Renamed(Inverse(Uuids(names, s).1), Uuids(names, s).0) == s
  {
    UuidsLead(names, s);
    var last := Uuids(names, s).1;
    UuidsRename(names, s, last.ids);
    forall id | id in last.ids && IsUuid(id) ensures IsUuid(last.ids[id]) {
      NumberedIsUuid(Count(last, Uuid), last.ids[id]);
    }
    RenamedBack(last.ids, Inverse(last), s);
  }

  // --- A scrub of its own output ---

  /** `again`, scrubbing what `first` wrote, has named each placeholder so far itself. */
  ghost predicate Echoes(first: Names, again: Names) {
    && Count(first, Uuid) == Count(again, Uuid)
    && (forall id | id in first.ids && IsUuid(id) :: IsNumbered(Uuid, Count(first, Uuid), first.ids[id]))
    && (forall to :: to in again.ids <==> IsNumbered(Uuid, Count(again, Uuid), to))
    && (forall to | to in again.ids :: again.ids[to] == to)
  }

  lemma NamedEchoes(first: Names, again: Names, id: string)
    requires Echoes(first, again) && IsUuid(id) && Count(first, Uuid) < U64_MAX
    ensures var (to, next) := Named(first, Uuid, id);
      var (echo, after) := Named(again, Uuid, to);
      echo == to && Echoes(next, after) && IsNumbered(Uuid, Count(next, Uuid), to)
  {
    var to := Named(first, Uuid, id).0;
    if id in first.ids {
      assert IsNumbered(Uuid, Count(again, Uuid), to);
    } else {
      NextIsNumbered(Uuid, Count(first, Uuid) + 1);
      EchoesOneMore(first, again, id);
    }
  }

  lemma NewName(names: Names, kind: Kind, id: string, n: nat)
    requires id !in names.ids && n == Count(names, kind) + 1 <= U64_MAX
    ensures var to := Placeholder(kind, n);
      Named(names, kind, id) == (to, Names(names.ids[id := to], names.counts[kind := n]))
  {
  }

  lemma EchoesOneMore(first: Names, again: Names, id: string)
    requires Echoes(first, again) && id !in first.ids && Count(first, Uuid) < U64_MAX
    ensures var (to, next) := Named(first, Uuid, id);
      var (echo, after) := Named(again, Uuid, to);
      echo == to && Echoes(next, after)
  {
    var n: nat := Count(first, Uuid) + 1;
    var to := Placeholder(Uuid, n);
    NewName(first, Uuid, id, n);
    NotNumberedYet(n, to);
    NewName(again, Uuid, to, n);
    NumberedOn(first, n);
    forall a ensures a in again.ids || a == to <==> IsNumbered(Uuid, n, a) {
      OneMoreNumbered(Uuid, n, a);
    }
  }

  lemma NotNumberedYet(n: nat, to: string)
    requires n >= 1 && to == Placeholder(Uuid, n)
    ensures !IsNumbered(Uuid, n - 1, to) && IsNumbered(Uuid, n, to)
  {
    if IsNumbered(Uuid, n - 1, to) {
      NextIsNew(Uuid, n, Uuid, n - 1, to);
    }
  }

  lemma NumberedOn(first: Names, n: nat)
    requires Count(first, Uuid) <= n
    requires forall id | id in first.ids && IsUuid(id) :: IsNumbered(Uuid, Count(first, Uuid), first.ids[id])
    ensures forall id | id in first.ids && IsUuid(id) :: IsNumbered(Uuid, n, first.ids[id])
  {
    forall a | a in first.ids && IsUuid(a) ensures IsNumbered(Uuid, n, first.ids[a]) {
      NumberedStill(Uuid, Count(first, Uuid), n, first.ids[a]);
    }
  }

  lemma OneMoreNumbered(kind: Kind, n: nat, to: string)
    requires n >= 1
    ensures IsNumbered(kind, n, to) <==> IsNumbered(kind, n - 1, to) || to == Placeholder(kind, n)
  {
    if IsNumbered(kind, n, to) {
      var m: nat :| 1 <= m <= n && to == Placeholder(kind, m);
      assert m == n || 1 <= m <= n - 1;
    }
    if IsNumbered(kind, n - 1, to) {
      NumberedStill(kind, n - 1, n, to);
    }
    NextIsNumbered(kind, n);
  }

  /** Numbered below 10^12, a placeholder has a UUID's shape. */
  lemma NumberedIsUuid(upTo: nat, to: string)
    requires IsNumbered(Uuid, upTo, to) && upTo < Pow10(12)
    ensures IsUuid(to)
  {
    var n: nat :| 1 <= n <= upTo && to == Placeholder(Uuid, n);
    PlaceholderIsUuid(n);
  }

  lemma FewFit(n: nat)
    requires n < Pow10(12)
    ensures n < U64_MAX
  {
    Pow10Is(12);
  }

  lemma {:induction false} Pow10Is(w: nat)
    requires w <= 12
    ensures Pow10(w) <= 1_000_000_000_000
    ensures Pow10(w) == [1, 10, 100, 1_000, 10_000, 100_000, 1_000_000, 10_000_000, 100_000_000, 1_000_000_000,
                         10_000_000_000, 100_000_000_000, 1_000_000_000_000][w]
  {
    if w > 0 {
      Pow10Is(w - 1);
    }
  }

  lemma CountsGrow(names: Names, s: string)
    ensures Count(names, Uuid) <= Count(Uuids(names, s).1, Uuid)
  {
    UuidsInvariant(n => Count(names, Uuid) <= Count(n, Uuid), names, s);
  }

  lemma ShapesJoin(a: string, b: string, c: string, d: string)
    requires SameShape(a, b) && SameShape(c, d)
    ensures SameShape(a + c, b + d)
  {
  }

  lemma EchoedShape(first: Names, again: Names, id: string, to: string, next: Names)
    requires Echoes(first, again) && IsUuid(id) && Named(first, Uuid, id) == (to, next) && Count(next, Uuid) < Pow10(12)
    ensures Echoes(next, Named(again, Uuid, to).1) && SameShape(to, id)
  {
    FewFit(Count(first, Uuid));
    NamedEchoes(first, again, id);
    NumberedIsUuid(Count(next, Uuid), to);
    UuidsSameShape(to, id);
  }

  lemma {:induction false} UuidsShape(first: Names, again: Names, s: string)
    requires Echoes(first, again) && Count(Uuids(first, s).1, Uuid) < Pow10(12)
    ensures SameShape(Uuids(first, s).0, s)
    decreases |s|
  {
    if s == [] {
    } else if StartsUuid(s) {
      var (to, next) := Named(first, Uuid, s[..36]);
      CountsGrow(next, s[36..]);
      EchoedShape(first, again, s[..36], to, next);
      UuidsShape(next, Named(again, Uuid, to).1, s[36..]);
      ShapesJoin(to, s[..36], Uuids(next, s[36..]).0, s[36..]);
      assert s == s[..36] + s[36..];
    } else {
      UuidsShape(first, again, s[1..]);
      ShapesJoin([s[0]], [s[0]], Uuids(first, s[1..]).0, s[1..]);
      assert s == [s[0]] + s[1..];
    }
  }

  /** Scrubbing what was scrubbed changes nothing, text after text. */
  lemma {:induction false} UuidsEcho(first: Names, again: Names, s: string)
    requires Echoes(first, again) && Count(Uuids(first, s).1, Uuid) < Pow10(12)
    ensures var (out, next) := Uuids(first, s);
      var (echo, after) := Uuids(again, out);
      echo == out && Echoes(next, after)
    decreases |s|
  {
    var out := Uuids(first, s).0;
    UuidsShape(first, again, s);
    ShapeStarts(out, s);
    if s == [] {
    } else if StartsUuid(s) {
      var (to, next) := Named(first, Uuid, s[..36]);
      CountsGrow(next, s[36..]);
      FewFit(Count(first, Uuid));
      NamedEchoes(first, again, s[..36]);
      NumberedIsUuid(Count(next, Uuid), to);
      UuidsEcho(next, Named(again, Uuid, to).1, s[36..]);
      assert out[..36] == to && out[36..] == Uuids(next, s[36..]).0;
    } else {
      UuidsEcho(first, again, s[1..]);
      assert out[0] == s[0] && out[1..] == Uuids(first, s[1..]).0;
    }
  }

  /** The texts of a fixture, one after another through one scrubber. */
  function AllUuids(names: Names, texts: seq<string>): (seq<string>, Names)
    decreases |texts|
  {
    if texts == [] then ([], names)
    else
      var (out, next) := Uuids(names, texts[0]);
      var (rest, last) := AllUuids(next, texts[1..]);
      ([out] + rest, last)
  }

  lemma {:induction false} AllCountsGrow(names: Names, texts: seq<string>)
    ensures Count(names, Uuid) <= Count(AllUuids(names, texts).1, Uuid)
    decreases |texts|
  {
    if texts != [] {
      CountsGrow(names, texts[0]);
      AllCountsGrow(Uuids(names, texts[0]).1, texts[1..]);
    }
  }

  lemma {:induction false} AllUuidsEcho(first: Names, again: Names, texts: seq<string>)
    requires Echoes(first, again) && Count(AllUuids(first, texts).1, Uuid) < Pow10(12)
    ensures AllUuids(again, AllUuids(first, texts).0).0 == AllUuids(first, texts).0
    decreases |texts|
  {
    if texts != [] {
      var (out, next) := Uuids(first, texts[0]);
      AllCountsGrow(next, texts[1..]);
      UuidsEcho(first, again, texts[0]);
      AllUuidsEcho(next, Uuids(again, out).1, texts[1..]);
      var all := AllUuids(first, texts).0;
      assert all[0] == out && all[1..] == AllUuids(next, texts[1..]).0;
      assert AllUuids(again, all).0 == [out] + all[1..];
    }
  }

  /** The UUIDs a scan of a text meets. */
  function UuidsIn(s: string): set<string>
    decreases |s|
  {
    if s == [] then {}
    else if StartsUuid(s) then {s[..36]} + UuidsIn(s[36..])
    else UuidsIn(s[1..])
  }

  function AllUuidsIn(texts: seq<string>): set<string> {
    if texts == [] then {} else UuidsIn(texts[0]) + AllUuidsIn(texts[1..])
  }

  /** A scan names exactly the UUIDs it meets that had no name. */
  lemma {:induction false} NamesTheUuids(names: Names, s: string)
    ensures Uuids(names, s).1.ids.Keys == names.ids.Keys + UuidsIn(s)
    decreases |s|
  {
    if s == [] {
    } else if StartsUuid(s) {
      var after := Named(names, Uuid, s[..36]).1;
      NamesTheUuids(after, s[36..]);
      assert after.ids.Keys == names.ids.Keys + {s[..36]};
    } else {
      NamesTheUuids(names, s[1..]);
    }
  }

  lemma {:induction false} NamesAllUuids(names: Names, texts: seq<string>)
    ensures AllUuids(names, texts).1.ids.Keys == names.ids.Keys + AllUuidsIn(texts)
    decreases |texts|
  {
    if texts != [] {
      NamesTheUuids(names, texts[0]);
      NamesAllUuids(Uuids(names, texts[0]).1, texts[1..]);
    }
  }

  /** From the start, the UUIDs' count is at most how many ids there are. */
  ghost predicate CountsIds(names: Names) {
    Count(names, Uuid) <= |names.ids.Keys|
  }

  lemma CountsIdsStill(names: Names, s: string)
    requires CountsIds(names)
    ensures CountsIds(Uuids(names, s).1)
  {
    forall n: Names, id: string | CountsIds(n) ensures CountsIds(Named(n, Uuid, id).1) {
      var after := Named(n, Uuid, id).1;
      assert after.ids.Keys == n.ids.Keys + {id};
    }
    UuidsInvariant(n => CountsIds(n), names, s);
  }

  lemma {:induction false} AllCountsIds(names: Names, texts: seq<string>)
    requires CountsIds(names)
    ensures CountsIds(AllUuids(names, texts).1)
    decreases |texts|
  {
    if texts != [] {
      CountsIdsStill(names, texts[0]);
      AllCountsIds(Uuids(names, texts[0]).1, texts[1..]);
    }
  }

  /** A fresh scrubber over a fresh scrubber's output returns it, when the texts have below 10^12 different UUIDs. */
  lemma UuidsAreAFixpoint(texts: seq<string>)
    requires |AllUuidsIn(texts)| < Pow10(12)
    ensures AllUuids(Fresh, AllUuids(Fresh, texts).0).0 == AllUuids(Fresh, texts).0
  {
    NamesAllUuids(Fresh, texts);
    AllCountsIds(Fresh, texts);
    assert Fresh.ids.Keys + AllUuidsIn(texts) == AllUuidsIn(texts);
    AllUuidsEcho(Fresh, Fresh, texts);
  }
}
