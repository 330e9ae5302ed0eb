/**
 A cheap cover of every edge the merged inputs reach: plain greedy weighted set
 cover as a specification, and the lazy heap algorithm that meets it.
 */
module Cover {
  import opened Wrappers
  import opened Machine
  import opened Heap
  import opened Sequences

  /** One input a merge ran: the bytes it ran and the edges it reached. */
  datatype Run = Run(size: u64, edges: seq<u32>)

  datatype Chosen = Chosen(inputs: seq<nat>, reached: nat, edges: nat)

  /** What an input costs beside its bytes. */
  const INPUT_COST: u64 := 64

  /** The factor that makes "edges per byte" an integer. */
  const SCALE: nat := 0x10_0000

  /** The edges in a list, without repeats. */
  function EdgeSet(edges: seq<u32>): set<u32> {
    set e | e in edges
  }

  /** How many entries of `edges` are not yet reached. */
  function Gain(edges: seq<u32>, reached: set<u32>): nat {
    if edges == [] then 0
    else Gain(edges[1..], reached) + if edges[0] in reached then 0 else 1
  }

  function Score(gain: nat, run: Run): nat {
    Div(SatMul(gain, SCALE), SatAdd(run.size, INPUT_COST))
  }

  function Div(a: nat, b: nat): nat
    requires 0 < b
  {
    a / b
  }

  // --- Plain greedy, as a specification ---

  predicate Indices(runs: seq<Run>, picks: seq<nat>) {
    forall k | 0 <= k < |picks| :: picks[k] < |runs|
  }

  function Reached(runs: seq<Run>, picks: seq<nat>): set<u32>
    requires Indices(runs, picks)
  {
    if picks == [] then {}
    else Reached(runs, picks[..|picks| - 1]) + EdgeSet(runs[picks[|picks| - 1]].edges)
  }

  function Spent(runs: seq<Run>, picks: seq<nat>): u64
    requires Indices(runs, picks)
  {
    if picks == [] then 0
    else SatAdd(Spent(runs, picks[..|picks| - 1]), runs[picks[|picks| - 1]].size)
  }

  function AllEdges(runs: seq<Run>): set<u32> {
    set r, e | r in runs && e in r.edges :: e
  }

  /** What taking `i` is worth after `picks`. */
  function ScoreAfter(runs: seq<Run>, picks: seq<nat>, i: nat): nat
    requires Indices(runs, picks) && i < |runs|
  {
    Score(Gain(runs[i].edges, Reached(runs, picks)), runs[i])
  }

  /** `i` still adds an edge and still fits the budget. */
  ghost predicate Eligible(runs: seq<Run>, budget: u64, picks: seq<nat>, i: nat) {
    && Indices(runs, picks)
    && i < |runs|
    && Gain(runs[i].edges, Reached(runs, picks)) > 0
    && SatAdd(Spent(runs, picks), runs[i].size) <= budget
  }

  /** Plain greedy may take `i` next: it is eligible, and nothing eligible scores more. */
  ghost predicate GreedyPick(runs: seq<Run>, budget: u64, picks: seq<nat>, i: nat) {
    && Eligible(runs, budget, picks, i)
    && forall j: nat | Eligible(runs, budget, picks, j) ::
         ScoreAfter(runs, picks, j) <= ScoreAfter(runs, picks, i)
  }

  /** `picks` is what plain greedy takes, ties broken either way. */
  ghost predicate GreedyRun(runs: seq<Run>, budget: u64, picks: seq<nat>) {
    && Indices(runs, picks)
    && forall k | 0 <= k < |picks| :: GreedyPick(runs, budget, picks[..k], picks[k])
  }

  /** Nothing is left that adds an edge and fits. */
  ghost predicate Exhausted(runs: seq<Run>, budget: u64, picks: seq<nat>) {
    forall i: nat :: !Eligible(runs, budget, picks, i)
  }

  // --- Facts about gains and scores ---

  lemma {:induction false} GainShrinks(edges: seq<u32>, before: set<u32>, after: set<u32>)
    requires before <= after
    ensures Gain(edges, after) <= Gain(edges, before) <= |edges|
  {
    if edges != [] {
      GainShrinks(edges[1..], before, after);
    }
  }

  lemma {:induction false} NoGain(edges: seq<u32>, reached: set<u32>)
    ensures Gain(edges, reached) == 0 <==> EdgeSet(edges) <= reached
  {
    if edges != [] {
      NoGain(edges[1..], reached);
      assert EdgeSet(edges) == {edges[0]} + EdgeSet(edges[1..]);
    }
  }

  lemma {:induction false} FirstGain(edges: seq<u32>)
    ensures Gain(edges, {}) == |edges|
  {
    if edges != [] {
      FirstGain(edges[1..]);
    }
  }

  lemma ScoreGrows(less: nat, more: nat, run: Run)
    requires less <= more
    ensures Score(less, run) <= Score(more, run)
  {
    var d := SatAdd(run.size, INPUT_COST);
    DivGrows(SatMul(less, SCALE), SatMul(more, SCALE), d);
  }

  lemma DivGrows(a: nat, b: nat, d: nat)
    requires a <= b && 0 < d
    ensures Div(a, d) <= Div(b, d)
  {
    var q := b / d;
    assert b < d * q + d;
    if a / d >= q + 1 {
      assert d * (a / d) >= d * (q + 1) by { MulGrows(d, q + 1, a / d); }
      assert false;
    }
  }

  lemma MulGrows(d: nat, a: nat, b: nat)
    requires a <= b
    ensures d * a <= d * b
  {
    assert d * b == d * a + d * (b - a);
  }

  lemma {:induction false} ReachedGrows(runs: seq<Run>, picks: seq<nat>, i: nat)
    requires Indices(runs, picks) && i < |picks|
    ensures EdgeSet(runs[picks[i]].edges) <= Reached(runs, picks)
  {
    if i < |picks| - 1 {
      ReachedGrows(runs, picks[..|picks| - 1], i);
    }
  }

  lemma {:induction false} ReachedWithin(runs: seq<Run>, picks: seq<nat>)
    requires Indices(runs, picks)
    ensures Reached(runs, picks) <= AllEdges(runs)
  {
    if picks != [] {
      ReachedWithin(runs, picks[..|picks| - 1]);
    }
  }

  /** What one more pick does to the fold over `picks`. */
  lemma OnePick(runs: seq<Run>, picks: seq<nat>, i: nat)
    requires Indices(runs, picks) && i < |runs|
    ensures Indices(runs, picks + [i])
    ensures Reached(runs, picks + [i]) == Reached(runs, picks) + EdgeSet(runs[i].edges)
    ensures Spent(runs, picks + [i]) == SatAdd(Spent(runs, picks), runs[i].size)
  {
    assert (picks + [i])[..|picks|] == picks;
  }

  /** What is ineligible stays so: gains only shrink and spending only grows. */
  lemma StaysIneligible(runs: seq<Run>, budget: u64, picks: seq<nat>, i: nat, j: nat)
    requires Indices(runs, picks) && i < |runs| && j < |runs|
    requires !Eligible(runs, budget, picks, j)
    ensures !Eligible(runs, budget, picks + [i], j)
  {
    OnePick(runs, picks, i);
    GainShrinks(runs[j].edges, Reached(runs, picks), Reached(runs, picks + [i]));
  }

  /** A greedy run never takes an input twice. */
  lemma GreedyPicksDistinct(runs: seq<Run>, budget: u64, picks: seq<nat>)
    requires GreedyRun(runs, budget, picks)
    ensures Distinct(picks)
  {
    forall i, j | 0 <= i < j < |picks| ensures picks[i] != picks[j] {
      if picks[i] == picks[j] {
        assert GreedyPick(runs, budget, picks[..j], picks[j]);
        ReachedGrows(runs, picks[..j], i);
        NoGain(runs[picks[j]].edges, Reached(runs, picks[..j]));
      }
    }
  }

  lemma {:induction false} Extends(runs: seq<Run>, budget: u64, picks: seq<nat>, i: nat)
    requires GreedyRun(runs, budget, picks) && GreedyPick(runs, budget, picks, i)
    ensures GreedyRun(runs, budget, picks + [i])
  {
    var more := picks + [i];
    forall k | 0 <= k < |more| ensures GreedyPick(runs, budget, more[..k], more[k]) {
      if k < |picks| {
        assert more[..k] == picks[..k];
      } else {
        assert more[..k] == picks;
      }
    }
  }

  // --- The lazy algorithm ---

  ghost predicate Holds(slots: seq<Entry>, i: nat) {
    exists e :: e in slots && e.index == i
  }

  ghost predicate Exact(runs: seq<Run>, picks: seq<nat>, e: Entry) {
    Indices(runs, picks) && e.index < |runs| && e.score == ScoreAfter(runs, picks, e.index)
  }

  /**
   Between two steps: an entry's score bounds what its input is worth now, and
   is exactly that once it was scored again since the last pick (`stale` holds
   the entries that were not); every eligible input still has an entry.
   */
  ghost predicate Lazy(runs: seq<Run>, budget: u64, picks: seq<nat>,
                       slots: seq<Entry>, stale: multiset<Entry>) {
    && Indices(runs, picks)
    && (forall e | e in slots ::
          e.index < |runs| && ScoreAfter(runs, picks, e.index) <= e.score)
    && (forall e | multiset(slots)[e] > stale[e] :: Exact(runs, picks, e))
    && (forall j: nat | Eligible(runs, budget, picks, j) :: Holds(slots, j))
  }

  lemma LessEntry(a: seq<Entry>, b: seq<Entry>, top: Entry)
    requires multiset(b) == multiset(a) - multiset{top} && top in a
    ensures forall e | e in b :: e in a
    ensures forall e | e in a :: e == top || e in b
    ensures |b| == |a| - 1
  {
    assert forall e :: e in a <==> e in multiset(a);
    assert forall e :: e in b <==> e in multiset(b);
    assert |multiset(b)| == |multiset(a)| - 1;
  }

  lemma MoreEntry(a: seq<Entry>, b: seq<Entry>, e: Entry)
    requires multiset(b) == multiset(a) + multiset{e}
    ensures forall x :: x in b <==> x in a || x == e
    ensures |b| == |a| + 1
  {
    assert forall x :: x in a <==> x in multiset(a);
    assert forall x :: x in b <==> x in multiset(b);
    assert |multiset(b)| == |multiset(a)| + 1;
  }

  lemma LazyDrops(runs: seq<Run>, budget: u64, picks: seq<nat>,
                  slots: seq<Entry>, stale: multiset<Entry>, top: Entry, left: seq<Entry>)
    requires Lazy(runs, budget, picks, slots, stale)
    requires top in slots && multiset(left) == multiset(slots) - multiset{top}
    requires !Eligible(runs, budget, picks, top.index)
    ensures Lazy(runs, budget, picks, left, stale) && |left| < |slots|
  {
    LessEntry(slots, left, top);
    forall j: nat | Eligible(runs, budget, picks, j) ensures Holds(left, j) {
      assert Holds(slots, j);
    }
  }

  lemma LazyRescores(runs: seq<Run>, budget: u64, picks: seq<nat>,
                     slots: seq<Entry>, stale: multiset<Entry>, top: Entry, next: Entry,
                     now: Entry, left: seq<Entry>, after: seq<Entry>)
    requires Lazy(runs, budget, picks, slots, stale) && Greatest(top, slots)
    requires now.index == top.index && Exact(runs, picks, now) && now.score < next.score
    requires multiset(left) == multiset(slots) - multiset{top} && next in left
    requires multiset(after) == multiset(left) + multiset{now}
    ensures top in stale
    ensures Lazy(runs, budget, picks, after, stale - multiset{top}) && |after| == |slots|
  {
    LessEntry(slots, left, top);
    MoreEntry(left, after, now);
    assert forall x :: x in slots <==> x in multiset(slots);
    assert forall x :: x in after <==> x in multiset(after);
    assert multiset(slots)[top] > 0 && !Exact(runs, picks, top);
    forall j: nat | Eligible(runs, budget, picks, j) ensures Holds(after, j) {
      var e :| e in slots && e.index == j;
      if e == top {
        assert now in after;
      } else {
        assert e in after;
      }
    }
  }

  /** Taking the entry no other one outscores is a greedy pick. */
  lemma LazyPicks(runs: seq<Run>, budget: u64, picks: seq<nat>,
                  slots: seq<Entry>, stale: multiset<Entry>, top: Entry, left: seq<Entry>)
    requires Lazy(runs, budget, picks, slots, stale)
    requires top in slots && multiset(left) == multiset(slots) - multiset{top}
    requires Eligible(runs, budget, picks, top.index)
    requires forall e | e in left :: e.score <= ScoreAfter(runs, picks, top.index)
    ensures GreedyPick(runs, budget, picks, top.index)
  {
    LessEntry(slots, left, top);
    forall j: nat | Eligible(runs, budget, picks, j)
      ensures ScoreAfter(runs, picks, j) <= ScoreAfter(runs, picks, top.index)
    {
      assert Holds(slots, j);
      var e :| e in slots && e.index == j;
    }
  }

  lemma ScoreAfterShrinks(runs: seq<Run>, picks: seq<nat>, i: nat, j: nat)
    requires Indices(runs, picks) && i < |runs| && j < |runs|
    ensures Indices(runs, picks + [i])
    ensures ScoreAfter(runs, picks + [i], j) <= ScoreAfter(runs, picks, j)
  {
    OnePick(runs, picks, i);
    GainShrinks(runs[j].edges, Reached(runs, picks), Reached(runs, picks + [i]));
    ScoreGrows(Gain(runs[j].edges, Reached(runs, picks + [i])),
               Gain(runs[j].edges, Reached(runs, picks)), runs[j]);
  }

  /** Bounds stay bounds past a pick. */
  lemma LazyTakes(runs: seq<Run>, budget: u64, picks: seq<nat>,
                  slots: seq<Entry>, stale: multiset<Entry>, top: Entry, left: seq<Entry>)
    requires Lazy(runs, budget, picks, slots, stale)
    requires top in slots && multiset(left) == multiset(slots) - multiset{top}
    ensures Lazy(runs, budget, picks + [top.index], left, multiset(left))
  {
    var i := top.index;
    LessEntry(slots, left, top);
    OnePick(runs, picks, i);
    forall e | e in left
      ensures e.index < |runs| && ScoreAfter(runs, picks + [i], e.index) <= e.score
    {
      ScoreAfterShrinks(runs, picks, i, e.index);
    }
    forall j: nat | Eligible(runs, budget, picks + [i], j) ensures Holds(left, j) {
      StillHeld(runs, budget, picks, slots, stale, top, left, j);
    }
  }

  lemma StillHeld(runs: seq<Run>, budget: u64, picks: seq<nat>,
                  slots: seq<Entry>, stale: multiset<Entry>, top: Entry, left: seq<Entry>, j: nat)
    requires Lazy(runs, budget, picks, slots, stale)
    requires top in slots && multiset(left) == multiset(slots) - multiset{top}
    requires Eligible(runs, budget, picks + [top.index], j)
    ensures Holds(left, j)
  {
    LessEntry(slots, left, top);
    if !Eligible(runs, budget, picks, j) {
      StaysIneligible(runs, budget, picks, top.index, j);
      assert false;
    }
    assert Holds(slots, j);
    var e :| e in slots && e.index == j;
    if e == top {
      OnePick(runs, picks, j);
      NoGain(runs[j].edges, Reached(runs, picks + [j]));
      assert false;
    }
  }

  /** A heap of every input that reaches an edge, scored by all its edges. */
  ghost predicate Full(runs: seq<Run>, upTo: nat, slots: seq<Entry>)
    requires upTo <= |runs|
  {
    forall e :: e in slots <==>
      e.index < upTo && runs[e.index].edges != [] &&
      e.score == Score(|runs[e.index].edges|, runs[e.index])
  }

  method FullHeap(runs: seq<Run>, ghost budget: u64) returns (heap: MaxHeap)
    ensures fresh(heap) && heap.Valid()
    ensures Lazy(runs, budget, [], heap.slots, multiset(heap.slots))
    ensures Matches(runs, heap.slots, FirstScores(runs))
  {
    heap := new MaxHeap();
    for i := 0 to |runs|
      invariant fresh(heap) && heap.Valid() && Full(runs, i, heap.slots)
      invariant forall e :: multiset(heap.slots)[e] <= 1
    {
      if runs[i].edges != [] {
        ghost var was := heap.slots;
        var e := Entry(Score(|runs[i].edges|, runs[i]), i);
        heap.Push(e);
        MoreEntry(was, heap.slots, e);
      }
    }
    LazyStarts(runs, budget, heap.slots);
  }

  lemma LazyStarts(runs: seq<Run>, budget: u64, slots: seq<Entry>)
    requires Full(runs, |runs|, slots)
    ensures Lazy(runs, budget, [], slots, multiset(slots))
  {
    forall e | e in slots ensures e.index < |runs| && ScoreAfter(runs, [], e.index) <= e.score {
      FirstGain(runs[e.index].edges);
    }
    forall j: nat | Eligible(runs, budget, [], j) ensures Holds(slots, j) {
      assert Entry(Score(|runs[j].edges|, runs[j]), j) in slots;
    }
  }

  /** A pick that gains leaves fewer edges to reach. */
  lemma PickReaches(all: set<u32>, reached: set<u32>, edges: seq<u32>)
    requires reached <= all && EdgeSet(edges) <= all && Gain(edges, reached) > 0
    ensures reached + EdgeSet(edges) <= all
    ensures |all - (reached + EdgeSet(edges))| < |all - reached|
  {
    NoGain(edges, reached);
    var e :| e in EdgeSet(edges) && e !in reached;
    assert all - (reached + EdgeSet(edges)) <= all - reached - {e};
    Smaller(all - (reached + EdgeSet(edges)), all - reached - {e});
    assert |all - reached - {e}| == |all - reached| - 1;
  }

  lemma {:induction false} Smaller<T>(a: set<T>, b: set<T>)
    requires a <= b
    ensures |a| <= |b|
    ensures |a| == |b| ==> a == b
  {
    if a != {} {
      var x :| x in a;
      Smaller(a - {x}, b - {x});
      if |a| == |b| {
        assert a == (a - {x}) + {x} && b == (b - {x}) + {x};
      }
    }
  }

  // --- Which of several best inputs the lazy algorithm takes ---

  /** The first of the inputs by the scores they were last given. */
  ghost predicate IsTop(left: map<nat, nat>, i: nat) {
    i in left && forall j | j in left :: AtLeast(Entry(left[i], i), Entry(left[j], j))
  }

  lemma {:induction false} HasTop(left: map<nat, nat>)
    requires left.Keys != {}
    ensures exists i: nat :: IsTop(left, i)
    decreases |left|
  {
    var i :| i in left;
    var rest := left - {i};
    if rest.Keys == {} {
      assert forall j | j in left :: j == i || j in rest;
      assert IsTop(left, i);
    } else {
      HasTop(rest);
      var top: nat :| IsTop(rest, top);
      assert forall j | j in left :: j == i || j in rest;
      if AtLeast(Entry(left[i], i), Entry(left[top], top)) {
        assert IsTop(left, i);
      } else {
        assert IsTop(left, top);
      }
    }
  }

  ghost function Top(left: map<nat, nat>): (i: nat)
    requires left.Keys != {}
    ensures IsTop(left, i)
    ensures forall j: nat :: IsTop(left, j) ==> j == i
  {
    HasTop(left);
    var i: nat :| IsTop(left, i);
    i
  }

  /** The inputs whose last score is not what they are worth now. */
  ghost function Behind(runs: seq<Run>, picks: seq<nat>, left: map<nat, nat>): set<nat>
    requires Indices(runs, picks) && forall i | i in left :: i < |runs|
  {
    set i | i in left && left[i] != ScoreAfter(runs, picks, i)
  }

  /** Some other input was last given more than `now`. */
  ghost predicate Outscored(left: map<nat, nat>, now: nat) {
    exists j :: j in left && left[j] > now
  }

  lemma RescoringCatchesUp(runs: seq<Run>, picks: seq<nat>, left: map<nat, nat>, i: nat)
    requires Indices(runs, picks) && forall j | j in left :: j < |runs|
    requires IsTop(left, i) && Outscored(left - {i}, ScoreAfter(runs, picks, i))
    ensures var after := left[i := ScoreAfter(runs, picks, i)];
      && (forall j | j in after :: j < |runs|)
      && |after| == |left| && |Behind(runs, picks, after)| < |Behind(runs, picks, left)|
  {
    var after := left[i := ScoreAfter(runs, picks, i)];
    assert after.Keys == left.Keys;
    SameSize(after, left);
    assert i in Behind(runs, picks, left);
    assert Behind(runs, picks, after) == Behind(runs, picks, left) - {i};
  }

  lemma SameSize(a: map<nat, nat>, b: map<nat, nat>)
    requires a.Keys == b.Keys
    ensures |a| == |b|
  {
    assert |a| == |a.Keys| && |b| == |b.Keys|;
  }

  lemma OneFewer(left: map<nat, nat>, i: nat)
    requires i in left
    ensures |left - {i}| < |left|
  {
    assert (left - {i}).Keys == left.Keys - {i};
    assert |left| == |left.Keys| && |left - {i}| == |(left - {i}).Keys|;
  }

  lemma PickGains(runs: seq<Run>, budget: u64, picks: seq<nat>, i: nat)
    requires Eligible(runs, budget, picks, i)
    ensures Indices(runs, picks + [i])
    ensures |AllEdges(runs) - Reached(runs, picks + [i])| < |AllEdges(runs) - Reached(runs, picks)|
  {
    OnePick(runs, picks, i);
    ReachedWithin(runs, picks);
    ReachedWithin(runs, picks + [i]);
    PickReaches(AllEdges(runs), Reached(runs, picks), runs[i].edges);
  }

  /**
   What the lazy algorithm ends with, from `picks` with the inputs of `left` and
   the scores they were last given: the first of them is dropped when it adds
   nothing or does not fit, scored again when another was given more than it is
   worth now, and taken otherwise. A tie is not broken by the index alone.
   */
  ghost function Lazily(runs: seq<Run>, budget: u64, picks: seq<nat>, left: map<nat, nat>): seq<nat>
    requires Indices(runs, picks) && forall i | i in left :: i < |runs|
    decreases |AllEdges(runs) - Reached(runs, picks)|, |left|, |Behind(runs, picks, left)|
  {
    if left.Keys == {} then picks
    else
      var i := Top(left);
      OneFewer(left, i);
      if !Eligible(runs, budget, picks, i) then Lazily(runs, budget, picks, left - {i})
      else if Outscored(left - {i}, ScoreAfter(runs, picks, i)) then
        RescoringCatchesUp(runs, picks, left, i);
        Lazily(runs, budget, picks, left[i := ScoreAfter(runs, picks, i)])
      else
        PickGains(runs, budget, picks, i);
        if |Reached(runs, picks + [i])| == |AllEdges(runs)| then picks + [i]
        else Lazily(runs, budget, picks + [i], left - {i})
  }

  /** Every input that reaches an edge, scored by all its edges. */
  function FirstScores(runs: seq<Run>): map<nat, nat> {
    map i: nat | i < |runs| && runs[i].edges != [] :: Score(|runs[i].edges|, runs[i])
  }

  ghost function LazyCover(runs: seq<Run>, budget: u64): seq<nat> {
    Lazily(runs, budget, [], FirstScores(runs))
  }

  lemma LazilyDrops(runs: seq<Run>, budget: u64, picks: seq<nat>, left: map<nat, nat>, i: nat)
    requires Indices(runs, picks) && forall j | j in left :: j < |runs|
    requires IsTop(left, i) && !Eligible(runs, budget, picks, i)
    ensures Lazily(runs, budget, picks, left) == Lazily(runs, budget, picks, left - {i})
  {
  }

  lemma LazilyRescores(runs: seq<Run>, budget: u64, picks: seq<nat>, left: map<nat, nat>, i: nat)
    requires Indices(runs, picks) && forall j | j in left :: j < |runs|
    requires IsTop(left, i) && Eligible(runs, budget, picks, i)
    requires Outscored(left - {i}, ScoreAfter(runs, picks, i))
    ensures Lazily(runs, budget, picks, left)
         == Lazily(runs, budget, picks, left[i := ScoreAfter(runs, picks, i)])
  {
    RescoringCatchesUp(runs, picks, left, i);
  }

  lemma LazilyTakes(runs: seq<Run>, budget: u64, picks: seq<nat>, left: map<nat, nat>, i: nat)
    requires Indices(runs, picks) && forall j | j in left :: j < |runs|
    requires IsTop(left, i) && Eligible(runs, budget, picks, i)
    requires !Outscored(left - {i}, ScoreAfter(runs, picks, i))
    ensures Indices(runs, picks + [i])
    ensures Lazily(runs, budget, picks, left)
         == if |Reached(runs, picks + [i])| == |AllEdges(runs)| then picks + [i]
            else Lazily(runs, budget, picks + [i], left - {i})
  {
    PickGains(runs, budget, picks, i);
  }

  /** The heap holds each input of `left` once, by its last score. */
  ghost predicate Matches(runs: seq<Run>, slots: seq<Entry>, left: map<nat, nat>) {
    && (forall e :: e in slots <==> e.index in left && left[e.index] == e.score)
    && (forall e :: multiset(slots)[e] <= 1)
    && (forall i | i in left :: i < |runs|)
  }

  /** What the loop keeps: `whole` is what it will end with. */
  ghost predicate Under(runs: seq<Run>, budget: u64, picks: seq<nat>, slots: seq<Entry>,
                        stale: multiset<Entry>, left: map<nat, nat>, whole: seq<nat>) {
    && Lazy(runs, budget, picks, slots, stale) && GreedyRun(runs, budget, picks)
    && Matches(runs, slots, left) && Lazily(runs, budget, picks, left) == whole
  }

  lemma TopMatches(runs: seq<Run>, slots: seq<Entry>, left: map<nat, nat>, top: Entry, after: seq<Entry>)
    requires Matches(runs, slots, left) && Greatest(top, slots)
    requires multiset(after) == multiset(slots) - multiset{top}
    ensures IsTop(left, top.index) && left[top.index] == top.score
    ensures Matches(runs, after, left - {top.index})
  {
    LessEntry(slots, after, top);
    forall j | j in left ensures AtLeast(Entry(left[top.index], top.index), Entry(left[j], j)) {
      assert Entry(left[j], j) in slots;
    }
    assert multiset(after)[top] == 0;
    assert forall e :: e in after <==> e in multiset(after);
    assert forall e :: e in after <==> e in slots && e != top;
  }

  lemma PushMatches(runs: seq<Run>, slots: seq<Entry>, left: map<nat, nat>, e: Entry, after: seq<Entry>)
    requires Matches(runs, slots, left) && e.index !in left && e.index < |runs|
    requires multiset(after) == multiset(slots) + multiset{e}
    ensures Matches(runs, after, left[e.index := e.score])
  {
    MoreEntry(slots, after, e);
    assert forall x :: x in slots <==> x in multiset(slots);
  }

  lemma DropStep(runs: seq<Run>, budget: u64, picks: seq<nat>, slots: seq<Entry>, stale: multiset<Entry>,
                 left: map<nat, nat>, whole: seq<nat>, top: Entry, after: seq<Entry>)
    requires Under(runs, budget, picks, slots, stale, left, whole) && Greatest(top, slots)
    requires multiset(after) == multiset(slots) - multiset{top} && !Eligible(runs, budget, picks, top.index)
    ensures Under(runs, budget, picks, after, stale, left - {top.index}, whole) && |after| < |slots|
  {
    LazyDrops(runs, budget, picks, slots, stale, top, after);
    TopMatches(runs, slots, left, top, after);
    LazilyDrops(runs, budget, picks, left, top.index);
  }

  lemma RescoreStep(runs: seq<Run>, budget: u64, picks: seq<nat>, slots: seq<Entry>, stale: multiset<Entry>,
                    left: map<nat, nat>, whole: seq<nat>, top: Entry, next: Entry, now: Entry,
                    middle: seq<Entry>, after: seq<Entry>)
    requires Under(runs, budget, picks, slots, stale, left, whole) && Greatest(top, slots)
    requires Eligible(runs, budget, picks, top.index)
    requires now.index == top.index && Exact(runs, picks, now) && now.score < next.score
    requires multiset(middle) == multiset(slots) - multiset{top} && next in middle
    requires multiset(after) == multiset(middle) + multiset{now}
    ensures top in stale && |after| == |slots|
    ensures Under(runs, budget, picks, after, stale - multiset{top}, left[top.index := now.score], whole)
  {
    LazyRescores(runs, budget, picks, slots, stale, top, next, now, middle, after);
    TopMatches(runs, slots, left, top, middle);
    PushMatches(runs, middle, left - {top.index}, now, after);
    assert (left - {top.index})[top.index := now.score] == left[top.index := now.score];
    assert (left - {top.index})[next.index] == next.score;
    LazilyRescores(runs, budget, picks, left, top.index);
  }

  /** With `i` taken a greedy run goes on as before, or has reached all and is `whole`. */
  ghost predicate PickedRight(runs: seq<Run>, budget: u64, picks: seq<nat>, i: nat, slots: seq<Entry>,
                              stale: multiset<Entry>, left: map<nat, nat>, whole: seq<nat>) {
    && Indices(runs, picks + [i]) && GreedyRun(runs, budget, picks + [i])
    && if |Reached(runs, picks + [i])| == |AllEdges(runs)| then whole == picks + [i]
       else Under(runs, budget, picks + [i], slots, stale, left, whole)
  }


  lemma TakeOn(runs: seq<Run>, budget: u64, picks: seq<nat>, slots: seq<Entry>, stale: multiset<Entry>,
               left: map<nat, nat>, whole: seq<nat>, top: Entry, after: seq<Entry>)
    requires Under(runs, budget, picks, slots, stale, left, whole) && Greatest(top, slots)
    requires multiset(after) == multiset(slots) - multiset{top}
    requires Eligible(runs, budget, picks, top.index)
    requires forall e | e in after :: e.score <= ScoreAfter(runs, picks, top.index)
    ensures PickedRight(runs, budget, picks, top.index, after, multiset(after), left - {top.index}, whole)
  {
    TakeStep(runs, budget, picks, slots, stale, top, after);
    TopMatches(runs, slots, left, top, after);
    var others := left - {top.index};
    forall j | j in others ensures others[j] <= ScoreAfter(runs, picks, top.index) {
      assert Entry(others[j], j) in after;
    }
    LazilyTakes(runs, budget, picks, left, top.index);
  }

  /** One turn of the loop up to the pick: the first entry is dropped, or scored again, or is the one to take. */
  method Turn(runs: seq<Run>, budget: u64, heap: MaxHeap, ghost picks: seq<nat>, reached: set<u32>, spent: u64,
              ghost stale: multiset<Entry>, ghost left: map<nat, nat>, ghost whole: seq<nat>)
      returns (taken: Option<nat>, ghost staleNow: multiset<Entry>, ghost leftNow: map<nat, nat>)
    requires heap.Valid() && heap.slots != []
    requires Under(runs, budget, picks, heap.slots, stale, left, whole)
    requires reached == Reached(runs, picks) && spent == Spent(runs, picks)
    modifies heap
    ensures heap.Valid()
    ensures taken.None? ==>
      && Under(runs, budget, picks, heap.slots, staleNow, leftNow, whole)
      && (|heap.slots| < |old(heap.slots)| || (|heap.slots| == |old(heap.slots)| && |staleNow| < |stale|))
    ensures taken.Some? ==>
      && Eligible(runs, budget, picks, taken.value)
      && PickedRight(runs, budget, picks, taken.value, heap.slots, staleNow, leftNow, whole)
  {
    ghost var was := heap.slots;
    var top := heap.Pop();
    var i := top.index;
    var gain := Gain(runs[i].edges, reached);
    staleNow, leftNow := stale, left - {i};
    if gain == 0 || SatAdd(spent, runs[i].size) > budget {
      DropStep(runs, budget, picks, was, stale, left, whole, top, heap.slots);
      return None, staleNow, leftNow;
    }
    var now := Score(gain, runs[i]);
    if heap.slots != [] {
      var next := heap.Peek();
      if next.score > now {
        ghost var middle := heap.slots;
        heap.Push(Entry(now, i));
        RescoreStep(runs, budget, picks, was, stale, left, whole, top, next, Entry(now, i), middle, heap.slots);
        return None, stale - multiset{top}, left[i := now];
      }
    }
    TakeOn(runs, budget, picks, was, stale, left, whole, top, heap.slots);
    return Some(i), multiset(heap.slots), leftNow;
  }

  /**
   The lazy algorithm is a run of plain greedy: whatever it takes scores no less
   than anything else that still adds an edge and fits, and it stops only when
   nothing does. Which of several best it takes, `LazyCover` says.
   */
  method CheapestCover(runs: seq<Run>, budget: u64) returns (cover: Chosen)
    ensures cover.inputs == LazyCover(runs, budget)
    ensures GreedyRun(runs, budget, cover.inputs)
    ensures Exhausted(runs, budget, cover.inputs)
    ensures Distinct(cover.inputs)
    ensures Spent(runs, cover.inputs) <= budget
    ensures cover.reached == |Reached(runs, cover.inputs)|
    ensures cover.edges == |AllEdges(runs)|
  {
    var all := AllEdges(runs);
    var reached: set<u32> := {};
    var heap := FullHeap(runs, budget);
    var inputs: seq<nat>, spent: u64 := [], 0;
    ghost var stale, left, whole := multiset(heap.slots), FirstScores(runs), LazyCover(runs, budget);
    while heap.slots != []
      invariant fresh(heap) && heap.Valid()
      invariant Under(runs, budget, inputs, heap.slots, stale, left, whole)
      invariant reached == Reached(runs, inputs) <= all
      invariant spent == Spent(runs, inputs) <= budget
      decreases |all - reached|, |heap.slots|, |stale|
    {
      var taken;
      taken, stale, left := Turn(runs, budget, heap, inputs, reached, spent, stale, left, whole);
      if taken.Some? {
        var i := taken.value;
        Taken(runs, budget, inputs, i);
        reached := reached + EdgeSet(runs[i].edges);
        spent := SatAdd(spent, runs[i].size);
        inputs := inputs + [i];
        if |reached| == |all| {
          break;
        }
      }
    }
    Ends(runs, budget, inputs, heap.slots, stale, left, whole);
    return Chosen(inputs, |reached|, |all|);
  }

  /** The loop's two ends: all is reached, or nothing is left. */
  lemma Ends(runs: seq<Run>, budget: u64, picks: seq<nat>, slots: seq<Entry>,
             stale: multiset<Entry>, left: map<nat, nat>, whole: seq<nat>)
    requires Indices(runs, picks) && GreedyRun(runs, budget, picks)
    requires if |Reached(runs, picks)| == |AllEdges(runs)| && picks == whole then true
             else slots == [] && Under(runs, budget, picks, slots, stale, left, whole)
    ensures picks == whole && Exhausted(runs, budget, picks) && Distinct(picks)
  {
    GreedyPicksDistinct(runs, budget, picks);
    if |Reached(runs, picks)| == |AllEdges(runs)| {
      AllReached(runs, budget, picks);
    }
  }

  /** What a pick does to what is reached and spent. */
  lemma Taken(runs: seq<Run>, budget: u64, picks: seq<nat>, i: nat)
    requires Eligible(runs, budget, picks, i)
    ensures Indices(runs, picks + [i])
    ensures Reached(runs, picks + [i]) == Reached(runs, picks) + EdgeSet(runs[i].edges) <= AllEdges(runs)
    ensures Spent(runs, picks + [i]) == SatAdd(Spent(runs, picks), runs[i].size) <= budget
    ensures |AllEdges(runs) - Reached(runs, picks + [i])| < |AllEdges(runs) - Reached(runs, picks)|
  {
    OnePick(runs, picks, i);
    PickGains(runs, budget, picks, i);
    ReachedWithin(runs, picks + [i]);
  }

  /** Everything the loop keeps, through a pick. */
  lemma TakeStep(runs: seq<Run>, budget: u64, picks: seq<nat>,
                 slots: seq<Entry>, stale: multiset<Entry>, top: Entry, left: seq<Entry>)
    requires Lazy(runs, budget, picks, slots, stale) && GreedyRun(runs, budget, picks)
    requires top in slots && multiset(left) == multiset(slots) - multiset{top}
    requires Eligible(runs, budget, picks, top.index)
    requires forall e | e in left :: e.score <= ScoreAfter(runs, picks, top.index)
    ensures Lazy(runs, budget, picks + [top.index], left, multiset(left))
    ensures GreedyRun(runs, budget, picks + [top.index])
  {
    LazyPicks(runs, budget, picks, slots, stale, top, left);
    LazyTakes(runs, budget, picks, slots, stale, top, left);
    Extends(runs, budget, picks, top.index);
  }

  lemma AllReached(runs: seq<Run>, budget: u64, picks: seq<nat>)
    requires Indices(runs, picks) && |Reached(runs, picks)| == |AllEdges(runs)|
    ensures Exhausted(runs, budget, picks)
  {
    ReachedWithin(runs, picks);
    Smaller(Reached(runs, picks), AllEdges(runs));
    forall i: nat | i < |runs| ensures !Eligible(runs, budget, picks, i) {
      NoGain(runs[i].edges, Reached(runs, picks));
    }
  }
}
