/**
 The max-heap `cheapest_cover` orders its inputs by: a binary heap of
 (score, Reverse(index)) pairs, so the higher score comes first and the lower
 index wins between equal scores.
 */
module Heap {
  datatype Entry = Entry(score: nat, index: nat)

  /** `a` comes off the heap no later than `b`. */
  predicate AtLeast(a: Entry, b: Entry) {
    a.score > b.score || (a.score == b.score && a.index <= b.index)
  }

  /** `a` is no earlier than any entry of `s`. */
  ghost predicate Greatest(top: Entry, s: seq<Entry>) {
    top in s && forall e | e in s :: AtLeast(top, e)
  }

  predicate IsChild(p: nat, c: nat) {
    c == 2 * p + 1 || c == 2 * p + 2
  }

  function Parent(k: nat): (p: nat)
    requires k > 0
    ensures IsChild(p, k) && p < k
    ensures forall q: nat :: IsChild(q, k) ==> q == p
  {
    (k - 1) / 2
  }

  /** Every slot but `but` is no later than its children. */
  ghost predicate OrderedBut(s: seq<Entry>, but: int) {
    forall p: nat, c: nat | IsChild(p, c) && c < |s| && p != but :: AtLeast(s[p], s[c])
  }

  /** Every slot but `but` is no earlier than its parent. */
  ghost predicate OrderedUpTo(s: seq<Entry>, but: int) {
    forall p: nat, c: nat | IsChild(p, c) && c < |s| && c != but :: AtLeast(s[p], s[c])
  }

  /** The children of slot `k` are no earlier than its parent. */
  ghost predicate Bridged(s: seq<Entry>, k: nat) {
    forall p: nat, c: nat | IsChild(p, k) && IsChild(k, c) && c < |s| :: AtLeast(s[p], s[c])
  }

  ghost predicate Ordered(s: seq<Entry>) {
    OrderedBut(s, -1)
  }

  function Swap(s: seq<Entry>, i: nat, j: nat): (r: seq<Entry>)
    requires i < |s| && j < |s|
    ensures |r| == |s| && r[i] == s[j] && r[j] == s[i]
    ensures forall k | 0 <= k < |s| && k != i && k != j :: r[k] == s[k]
    ensures multiset(r) == multiset(s)
  {
    s[i := s[j]][j := s[i]]
  }

  lemma RootIsGreatest(s: seq<Entry>, k: nat)
    requires Ordered(s) && k < |s|
    ensures AtLeast(s[0], s[k])
  {
    if k > 0 {
      RootIsGreatest(s, Parent(k));
    }
  }

  lemma RiseKeepsOrder(s: seq<Entry>, k: nat)
    requires 0 < k < |s| && OrderedUpTo(s, k) && Bridged(s, k)
    requires !AtLeast(s[Parent(k)], s[k])
    ensures OrderedUpTo(Swap(s, Parent(k), k), Parent(k))
    ensures Bridged(Swap(s, Parent(k), k), Parent(k))
  {
  }

  lemma SinkKeepsOrder(s: seq<Entry>, k: nat, c: nat)
    requires IsChild(k, c) && c < |s| && OrderedBut(s, k) && Bridged(s, k)
    requires forall d: nat | IsChild(k, d) && d < |s| :: AtLeast(s[c], s[d])
    requires !AtLeast(s[k], s[c])
    ensures OrderedBut(Swap(s, k, c), c)
    ensures Bridged(Swap(s, k, c), c)
  {
  }

  /** The child of `k` the other is no earlier than. */
  function LargerChild(s: seq<Entry>, k: nat): (c: nat)
    requires 2 * k + 1 < |s|
    ensures IsChild(k, c) && c < |s|
    ensures forall d: nat | IsChild(k, d) && d < |s| :: AtLeast(s[c], s[d])
  {
    if 2 * k + 2 < |s| && AtLeast(s[2 * k + 2], s[2 * k + 1]) then 2 * k + 2 else 2 * k + 1
  }

  lemma SettledIsOrdered(s: seq<Entry>, k: nat)
    requires k < |s| && OrderedBut(s, k)
    requires 2 * k + 1 >= |s| || AtLeast(s[k], s[LargerChild(s, k)])
    ensures Ordered(s)
  {
  }

  class MaxHeap {
    var slots: seq<Entry>

    ghost predicate Valid()
      reads this
    {
      Ordered(slots)
    }

    constructor ()
      ensures Valid() && slots == []
    {
      slots := [];
    }

    /** The greatest entry, left in place. */
    method Peek() returns (top: Entry)
      requires Valid() && slots != []
      ensures top == slots[0] && Greatest(top, slots)
    {
      top := slots[0];
      forall e | e in slots ensures AtLeast(top, e) {
        var k :| 0 <= k < |slots| && slots[k] == e;
        RootIsGreatest(slots, k);
      }
    }

    method Push(e: Entry)
      requires Valid()
      modifies this
      ensures Valid()
      ensures multiset(slots) == old(multiset(slots)) + multiset{e}
    {
      slots := slots + [e];
      var k := |slots| - 1;
      while k > 0 && !AtLeast(slots[Parent(k)], slots[k])
        invariant 0 <= k < |slots|
        invariant multiset(slots) == old(multiset(slots)) + multiset{e}
        invariant OrderedUpTo(slots, k) && Bridged(slots, k)
      {
        RiseKeepsOrder(slots, k);
        slots, k := Swap(slots, Parent(k), k), Parent(k);
      }
    }

    method Pop() returns (top: Entry)
      requires Valid() && slots != []
      modifies this
      ensures Valid()
      ensures Greatest(top, old(slots))
      ensures multiset(slots) == old(multiset(slots)) - multiset{top}
    {
      top := Peek();
      var n := |slots| - 1;
      var last := slots[n];
      assert slots == slots[..n] + [last];
      slots := slots[..n];
      if n > 0 {
        slots := slots[0 := last];
        SiftDown();
      }
    }

    /** Moves the first slot's entry down to where the heap is ordered again. */
    method SiftDown()
      requires slots != [] && OrderedBut(slots, 0)
      modifies this
      ensures Valid()
      ensures multiset(slots) == old(multiset(slots))
    {
      var k := 0;
      while 2 * k + 1 < |slots| && !AtLeast(slots[k], slots[LargerChild(slots, k)])
        invariant 0 <= k < |slots|
        invariant multiset(slots) == old(multiset(slots))
        invariant OrderedBut(slots, k) && Bridged(slots, k)
        decreases |slots| - k
      {
        var c := LargerChild(slots, k);
        SinkKeepsOrder(slots, k, c);
        slots, k := Swap(slots, k, c), c;
      }
      SettledIsOrdered(slots, k);
    }
  }
}
