/** Facts of sequences and sets the solver does not find by itself. */
module Sequences {
  ghost predicate Distinct<T>(s: seq<T>) {
    forall i, j | 0 <= i < j < |s| :: s[i] != s[j]
  }

  lemma Assoc<T>(a: seq<T>, b: seq<T>, c: seq<T>)
    ensures (a + b) + c == a + (b + c)
  {
  }

  /** The element at `k`, seen as the step of a loop. */
  lemma OneMore<T>(s: seq<T>, k: nat)
    requires k < |s|
    ensures s[..k + 1] == s[..k] + [s[k]] && s[..k + 1][..k] == s[..k]
  {
  }

  lemma UnionSize<T>(a: set<T>, b: set<T>)
    ensures |a + b| <= |a| + |b|
  {
    assert a + b == a + (b - a);
    assert b == (b - a) + (a * b);
  }

  ghost predicate Occurs(s: string, p: string, k: nat) {
    k + |p| <= |s| && s[k..k + |p|] == p
  }

  /** `at` are the places of `s` that are wanted, all of them and in order. */
  ghost predicate Places<T>(s: seq<T>, wanted: T -> bool, at: seq<nat>) {
    && (forall i, j | 0 <= i < j < |at| :: at[i] < at[j])
    && (forall k | 0 <= k < |at| :: at[k] < |s| && wanted(s[at[k]]))
    && (forall i: nat | i < |s| && wanted(s[i]) :: i in at)
  }

  /** `picked` is what `tells` says of the elements there. */
  ghost predicate Picks<T, U>(s: seq<T>, wanted: T -> bool, tells: T -> U, at: seq<nat>, picked: seq<U>) {
    && Places(s, wanted, at) && |picked| == |at|
    && forall k | 0 <= k < |at| :: picked[k] == tells(s[at[k]])
  }

  lemma PlacesOn<T>(s: seq<T>, wanted: T -> bool, at: seq<nat>, more: seq<T>)
    requires Places(s, wanted, at) && |more| == |s| + 1 && s == more[..|s|]
    ensures Places(more, wanted, if wanted(more[|s|]) then at + [|s|] else at)
  {
    var all := if wanted(more[|s|]) then at + [|s|] else at;
    forall i: nat | i < |more| && wanted(more[i]) ensures i in all {
      if i < |s| {
        assert more[i] == s[i];
      } else {
        assert all[|at|] == i;
      }
    }
  }

  lemma PicksOn<T, U>(s: seq<T>, wanted: T -> bool, tells: T -> U, at: seq<nat>, picked: seq<U>, more: seq<T>)
    requires Picks(s, wanted, tells, at, picked) && |more| == |s| + 1 && s == more[..|s|]
    ensures if wanted(more[|s|]) then Picks(more, wanted, tells, at + [|s|], picked + [tells(more[|s|])])
            else Picks(more, wanted, tells, at, picked)
  {
    PlacesOn(s, wanted, at, more);
    forall k | 0 <= k < |at| ensures picked[k] == tells(more[at[k]]) {
      assert more[at[k]] == s[at[k]];
    }
  }
}
