/** When ties between inputs matter: an input on which they do, and that nothing else does. */
module CoverTies {
  import opened Machine
  import opened Sequences
  import opened Cover

  // --- When ties matter ---

  /** At no pick of the run could plain greedy have taken another input. */
  ghost predicate NoRival(runs: seq<Run>, budget: u64, picks: seq<nat>) {
    forall k, i: nat | 0 <= k < |picks| && GreedyPick(runs, budget, picks[..k], i) :: i == picks[k]
  }

  lemma PickIsGreedy(runs: seq<Run>, budget: u64, picks: seq<nat>, k: nat)
    requires GreedyRun(runs, budget, picks) && k < |picks|
    ensures GreedyPick(runs, budget, picks[..k], picks[k])
  {
  }

  lemma {:induction false} SamePrefix(runs: seq<Run>, budget: u64, a: seq<nat>, b: seq<nat>, n: nat)
    requires GreedyRun(runs, budget, a) && NoRival(runs, budget, a)
    requires GreedyRun(runs, budget, b) && n <= |a| && n <= |b|
    ensures a[..n] == b[..n]
  {
    if n > 0 {
      SamePrefix(runs, budget, a, b, n - 1);
      PickIsGreedy(runs, budget, b, n - 1);
      assert GreedyPick(runs, budget, a[..n - 1], b[n - 1]);
      OneMore(a, n - 1);
      OneMore(b, n - 1);
    }
  }

  /** A greedy run ends where nothing is eligible. */
  lemma EndsThere(runs: seq<Run>, budget: u64, picks: seq<nat>, n: nat)
    requires GreedyRun(runs, budget, picks) && n <= |picks| && Exhausted(runs, budget, picks[..n])
    ensures n == |picks|
  {
    if n < |picks| {
      PickIsGreedy(runs, budget, picks, n);
    }
  }

  /** Without a rival to any pick of one finished greedy run, every finished one is that run. */
  lemma TiesAside(runs: seq<Run>, budget: u64, a: seq<nat>, b: seq<nat>)
    requires GreedyRun(runs, budget, a) && Exhausted(runs, budget, a) && NoRival(runs, budget, a)
    requires GreedyRun(runs, budget, b) && Exhausted(runs, budget, b)
    ensures a == b
  {
    var n := if |a| <= |b| then |a| else |b|;
    SamePrefix(runs, budget, a, b, n);
    var shared := a[..n];
    assert a[..|a|] == a && b[..|b|] == b;
    assert shared == a || shared == b;
    EndsThere(runs, budget, a, n);
    EndsThere(runs, budget, b, n);
  }

  ghost predicate EligibleBelow(runs: seq<Run>, budget: u64, picks: seq<nat>, n: nat) {
    exists i: nat :: i < n && Eligible(runs, budget, picks, i)
  }

  /** `i` is eligible, and no eligible input before `n` scores more. */
  ghost predicate BestBelow(runs: seq<Run>, budget: u64, picks: seq<nat>, n: nat, i: nat) {
    && i < n && Eligible(runs, budget, picks, i)
    && forall j: nat | j < n && Eligible(runs, budget, picks, j) ::
         ScoreAfter(runs, picks, j) <= ScoreAfter(runs, picks, i)
  }

  lemma {:induction false} BestOf(runs: seq<Run>, budget: u64, picks: seq<nat>, n: nat)
    requires EligibleBelow(runs, budget, picks, n)
    ensures exists i: nat :: BestBelow(runs, budget, picks, n, i)
  {
    var last: nat := n - 1;
    if EligibleBelow(runs, budget, picks, last) {
      BestOf(runs, budget, picks, last);
      var i: nat :| BestBelow(runs, budget, picks, last, i);
      if Eligible(runs, budget, picks, last) && ScoreAfter(runs, picks, last) > ScoreAfter(runs, picks, i) {
        assert BestBelow(runs, budget, picks, n, last);
      } else {
        assert BestBelow(runs, budget, picks, n, i);
      }
    } else {
      var i: nat :| i < n && Eligible(runs, budget, picks, i);
      assert i == last;
      assert BestBelow(runs, budget, picks, n, i);
    }
  }

  /** Every greedy run goes on to a finished one. */
  lemma {:induction false} CanFinish(runs: seq<Run>, budget: u64, picks: seq<nat>) returns (all: seq<nat>)
    requires GreedyRun(runs, budget, picks)
    ensures GreedyRun(runs, budget, all) && Exhausted(runs, budget, all) && picks <= all
    decreases |AllEdges(runs) - Reached(runs, picks)|
  {
    if EligibleBelow(runs, budget, picks, |runs|) {
      BestOf(runs, budget, picks, |runs|);
      var i: nat :| BestBelow(runs, budget, picks, |runs|, i);
      assert GreedyPick(runs, budget, picks, i);
      Extends(runs, budget, picks, i);
      PickGains(runs, budget, picks, i);
      all := CanFinish(runs, budget, picks + [i]);
    } else {
      all := picks;
    }
  }

  lemma PrefixIsGreedy(runs: seq<Run>, budget: u64, picks: seq<nat>, k: nat)
    requires GreedyRun(runs, budget, picks) && k <= |picks|
    ensures GreedyRun(runs, budget, picks[..k])
  {
    var front := picks[..k];
    forall n | 0 <= n < k ensures GreedyPick(runs, budget, front[..n], front[n]) {
      PickIsGreedy(runs, budget, picks, n);
      assert front[..n] == picks[..n];
    }
  }

  /** A rival taken makes another finished run. */
  lemma RivalRuns(runs: seq<Run>, budget: u64, a: seq<nat>, k: nat, i: nat) returns (b: seq<nat>)
    requires GreedyRun(runs, budget, a) && k < |a| && GreedyPick(runs, budget, a[..k], i) && i != a[k]
    ensures GreedyRun(runs, budget, b) && Exhausted(runs, budget, b) && b != a
  {
    PrefixIsGreedy(runs, budget, a, k);
    Extends(runs, budget, a[..k], i);
    b := CanFinish(runs, budget, a[..k] + [i]);
    assert (a[..k] + [i])[k] == b[k];
  }

  ghost predicate Finished(runs: seq<Run>, budget: u64, picks: seq<nat>) {
    GreedyRun(runs, budget, picks) && Exhausted(runs, budget, picks)
  }

  /** A finished greedy run is the only one, so eager and lazy alike, exactly when no pick of it has a rival. */
  lemma OnlyRunExactly(runs: seq<Run>, budget: u64, a: seq<nat>)
    requires Finished(runs, budget, a)
    ensures (forall b | Finished(runs, budget, b) :: b == a) <==> NoRival(runs, budget, a)
  {
    if NoRival(runs, budget, a) {
      forall b | Finished(runs, budget, b) ensures b == a {
        TiesAside(runs, budget, a, b);
      }
    } else {
      var k, i: nat :| 0 <= k < |a| && GreedyPick(runs, budget, a[..k], i) && i != a[k];
      var b := RivalRuns(runs, budget, a, k, i);
      assert Finished(runs, budget, b);
    }
  }

  // --- A tie that the index does not decide ---

  /** After input 2, inputs 0 and 1 add one edge each; input 1 was last scored for two. */
  function Tied(): seq<Run> {
    [Run(0, [3]), Run(0, [1, 2]), Run(0, [1, 4, 5])]
  }

  lemma GainOfOne(a: u32, reached: set<u32>)
    ensures Gain([a], reached) == if a in reached then 0 else 1
  {
    assert Gain([], reached) == 0;
  }

  lemma GainOfTwo(a: u32, b: u32, reached: set<u32>)
    ensures Gain([a, b], reached) == (if a in reached then 0 else 1) + (if b in reached then 0 else 1)
  {
    assert [a, b][1..] == [b];
    GainOfOne(b, reached);
  }

  lemma GainOfThree(a: u32, b: u32, c: u32, reached: set<u32>)
    ensures Gain([a, b, c], reached)
         == (if a in reached then 0 else 1) + (if b in reached then 0 else 1) + (if c in reached then 0 else 1)
  {
    assert [a, b, c][1..] == [b, c];
    GainOfTwo(b, c, reached);
  }

  /** Each input's score is its gain in units of the score of one edge. */
  lemma TiedScores(picks: seq<nat>, reached: set<u32>)
    requires Indices(Tied(), picks) && Reached(Tied(), picks) == reached
    ensures ScoreAfter(Tied(), picks, 0) == 16384 * Gain([3], reached)
    ensures ScoreAfter(Tied(), picks, 1) == 16384 * Gain([1, 2], reached)
    ensures ScoreAfter(Tied(), picks, 2) == 16384 * Gain([1, 4, 5], reached)
    ensures Gain([3], reached) == if 3 in reached then 0 else 1
    ensures Gain([1, 2], reached) == (if 1 in reached then 0 else 1) + (if 2 in reached then 0 else 1)
    ensures Gain([1, 4, 5], reached)
         == (if 1 in reached then 0 else 1) + (if 4 in reached then 0 else 1) + (if 5 in reached then 0 else 1)
  {
    GainOfOne(3, reached);
    GainOfTwo(1, 2, reached);
    GainOfThree(1, 4, 5, reached);
    InUnits(Gain([3], reached), Tied()[0]);
    InUnits(Gain([1, 2], reached), Tied()[1]);
    InUnits(Gain([1, 4, 5], reached), Tied()[2]);
  }

  lemma InUnits(gain: nat, run: Run)
    requires gain <= 3 && run.size == 0
    ensures Score(gain, run) == 16384 * gain
  {
    assert SatMul(gain, SCALE) == gain * SCALE;
  }

  lemma EdgesOfTied()
    ensures EdgeSet(Tied()[0].edges) == {3} && EdgeSet(Tied()[1].edges) == {1, 2}
    ensures EdgeSet(Tied()[2].edges) == {1, 4, 5}
  {
    var a: seq<u32>, b: seq<u32>, c: seq<u32> := [3], [1, 2], [1, 4, 5];
    assert forall e :: e in a <==> e == 3;
    assert forall e :: e in b <==> e == 1 || e == 2;
    assert forall e :: e in c <==> e == 1 || e == 4 || e == 5;
  }

  lemma AllOfThree(runs: seq<Run>)
    requires |runs| == 3
    ensures AllEdges(runs) == EdgeSet(runs[0].edges) + EdgeSet(runs[1].edges) + EdgeSet(runs[2].edges)
  {
    assert runs[0] in runs && runs[1] in runs && runs[2] in runs;
    assert forall r | r in runs :: r == runs[0] || r == runs[1] || r == runs[2];
  }

  /** The state after these picks: what is reached. */
  ghost predicate At(picks: seq<nat>, reached: set<u32>) {
    Indices(Tied(), picks) && Reached(Tied(), picks) == reached
  }

  lemma AtNext(picks: seq<nat>, reached: set<u32>, i: nat, after: set<u32>, more: seq<nat>)
    requires At(picks, reached) && i < 3 && after == reached + EdgeSet(Tied()[i].edges) && more == picks + [i]
    ensures At(more, after)
  {
    OnePick(Tied(), picks, i);
  }

  lemma TiedReached()
    ensures At([], {}) && At([2], {1, 4, 5}) && At([2, 1], {1, 2, 4, 5}) && At([2, 0], {1, 3, 4, 5})
    ensures At([2, 1, 0], AllEdges(Tied())) && At([2, 0, 1], AllEdges(Tied()))
  {
    EdgesOfTied();
    AllOfThree(Tied());
    AtNext([], {}, 2, {1, 4, 5}, [2]);
    AtNext([2], {1, 4, 5}, 1, {1, 2, 4, 5}, [2, 1]);
    AtNext([2], {1, 4, 5}, 0, {1, 3, 4, 5}, [2, 0]);
    AtNext([2, 1], {1, 2, 4, 5}, 0, AllEdges(Tied()), [2, 1, 0]);
    AtNext([2, 0], {1, 3, 4, 5}, 1, AllEdges(Tied()), [2, 0, 1]);
  }

  /** After these picks, exactly the inputs that gain are eligible: nothing is too large. */
  lemma TiedEligible(picks: seq<nat>, i: nat)
    requires Indices(Tied(), picks)
    ensures Eligible(Tied(), U64_MAX, picks, i) <==>
      i < 3 && Gain(Tied()[i].edges, Reached(Tied(), picks)) > 0
  {
  }

  lemma TiedPick(picks: seq<nat>, reached: set<u32>, i: nat, s0: nat, s1: nat, s2: nat)
    requires Indices(Tied(), picks) && Reached(Tied(), picks) == reached && i < 3
    requires s0 == Gain([3], reached) && s1 == Gain([1, 2], reached) && s2 == Gain([1, 4, 5], reached)
    requires var s := [s0, s1, s2]; s[i] > 0 && s0 <= s[i] && s1 <= s[i] && s2 <= s[i]
    ensures GreedyPick(Tied(), U64_MAX, picks, i)
  {
    TiedScores(picks, reached);
    forall j: nat | Eligible(Tied(), U64_MAX, picks, j)
      ensures ScoreAfter(Tied(), picks, j) <= ScoreAfter(Tied(), picks, i)
    {
      TiedEligible(picks, j);
    }
    TiedEligible(picks, i);
  }

  lemma EitherPick()
    ensures GreedyPick(Tied(), U64_MAX, [], 2)
    ensures GreedyPick(Tied(), U64_MAX, [2], 1) && GreedyPick(Tied(), U64_MAX, [2], 0)
    ensures GreedyPick(Tied(), U64_MAX, [2, 1], 0) && GreedyPick(Tied(), U64_MAX, [2, 0], 1)
  {
    TiedReached();
    TiedScores([], {});
    TiedPick([], {}, 2, 1, 2, 3);
    TiedScores([2], {1, 4, 5});
    TiedPick([2], {1, 4, 5}, 1, 1, 1, 0);
    TiedPick([2], {1, 4, 5}, 0, 1, 1, 0);
    TiedScores([2, 1], {1, 2, 4, 5});
    TiedPick([2, 1], {1, 2, 4, 5}, 0, 1, 0, 0);
    TiedScores([2, 0], {1, 3, 4, 5});
    TiedPick([2, 0], {1, 3, 4, 5}, 1, 0, 1, 0);
  }

  /** Both orders of the tied inputs are finished greedy runs. */
  lemma EitherOrder()
    ensures GreedyRun(Tied(), U64_MAX, [2, 1, 0]) && Exhausted(Tied(), U64_MAX, [2, 1, 0])
    ensures GreedyRun(Tied(), U64_MAX, [2, 0, 1]) && Exhausted(Tied(), U64_MAX, [2, 0, 1])
  {
    TiedReached();
    EitherPick();
    ThreePicks(Tied(), U64_MAX, 2, 1, 0);
    ThreePicks(Tied(), U64_MAX, 2, 0, 1);
    AllReached(Tied(), U64_MAX, [2, 1, 0]);
    AllReached(Tied(), U64_MAX, [2, 0, 1]);
  }

  lemma ThreePicks(runs: seq<Run>, budget: u64, a: nat, b: nat, c: nat)
    requires GreedyPick(runs, budget, [], a) && GreedyPick(runs, budget, [a], b) && GreedyPick(runs, budget, [a, b], c)
    ensures GreedyRun(runs, budget, [a, b, c])
  {
    var picks := [a, b, c];
    assert picks[..0] == [] && picks[..1] == [a] && picks[..2] == [a, b];
  }

  lemma NotAll(some: set<u32>, all: set<u32>, e: u32)
    requires some <= all && e in all && e !in some
    ensures |some| != |all|
  {
    Smaller(some, all);
  }

  function Units(n: nat): nat {
    16384 * n
  }

  /** A turn of the lazy algorithm that takes `i`, no other of `left` having been given more than it is worth. */
  lemma TakesTied(picks: seq<nat>, reached: set<u32>, left: map<nat, nat>, i: nat, gain: nat,
                  more: seq<nat>, after: set<u32>, rest: map<nat, nat>)
    requires At(picks, reached) && At(more, after) && more == picks + [i] && i < 3 && rest == left - {i}
    requires forall j | j in left :: j < 3
    requires IsTop(left, i) && 0 < gain <= 3 && Gain(Tied()[i].edges, reached) == gain
    requires forall j | j in rest :: rest[j] <= Units(gain)
    ensures Lazily(Tied(), U64_MAX, picks, left)
         == if |after| == |AllEdges(Tied())| then more else Lazily(Tied(), U64_MAX, more, rest)
  {
    TiedEligible(picks, i);
    InUnits(gain, Tied()[i]);
    LazilyTakes(Tied(), U64_MAX, picks, left, i);
  }

  /** What the first `n` inputs score by all their edges. */
  function Scores(n: nat): map<nat, nat>
    requires n <= 3
  {
    if n == 0 then map[] else Scores(n - 1)[n - 1 := Units(n)]
  }

  lemma TiedStart()
    ensures FirstScores(Tied()) == Scores(3)
  {
    InUnits(1, Tied()[0]);
    InUnits(2, Tied()[1]);
    InUnits(3, Tied()[2]);
  }

  lemma {:induction false} ScoresAre(n: nat)
    requires n <= 3
    ensures forall i: nat :: i in Scores(n) <==> i < n
    ensures forall i: nat | i in Scores(n) :: Scores(n)[i] == Units(i + 1)
  {
    if n > 0 {
      ScoresAre(n - 1);
    }
  }

  lemma LessOne(n: nat)
    requires n < 3
    ensures IsTop(Scores(n + 1), n) && Scores(n) == Scores(n + 1) - {n}
    ensures forall i: nat | i in Scores(n) :: Scores(n)[i] <= Units(n)
  {
    ScoresAre(n);
    ScoresAre(n + 1);
  }

  lemma NotYet(reached: set<u32>)
    requires reached <= {1, 2, 4, 5}
    ensures |reached| != |AllEdges(Tied())|
  {
    AllOfThree(Tied());
    EdgesOfTied();
    NotAll(reached, AllEdges(Tied()), 3);
  }

  lemma TurnOfTwo(none: set<u32>, one: set<u32>)
    requires none == {} && At([], none) && one == {1, 4, 5} && At([2], one)
    ensures Lazily(Tied(), U64_MAX, [], Scores(3)) == Lazily(Tied(), U64_MAX, [2], Scores(2))
  {
    NotYet(one);
    GainOfThree(1, 4, 5, none);
    TakesLast([], none, 2, 3, [2], one);
  }

  lemma TurnOfOne(one: set<u32>, two: set<u32>)
    requires one == {1, 4, 5} && At([2], one) && two == {1, 2, 4, 5} && At([2, 1], two)
    ensures Lazily(Tied(), U64_MAX, [2], Scores(2)) == Lazily(Tied(), U64_MAX, [2, 1], Scores(1))
  {
    NotYet(two);
    GainOfTwo(1, 2, one);
    TakesLast([2], one, 1, 1, [2, 1], two);
  }

  lemma TurnOfZero(two: set<u32>, all: set<u32>, picks: seq<nat>, more: seq<nat>)
    requires 3 !in two && At(picks, two) && all == AllEdges(Tied()) && more == picks + [0] && At(more, all)
    ensures Lazily(Tied(), U64_MAX, picks, Scores(1)) == more
  {
    GainOfOne(3, two);
    TakesLast(picks, two, 0, 1, more, all);
  }

  lemma TakesLast(picks: seq<nat>, reached: set<u32>, i: nat, gain: nat, more: seq<nat>, after: set<u32>)
    requires At(picks, reached) && At(more, after) && more == picks + [i] && i < 3
    requires Gain(Tied()[i].edges, reached) == gain && 0 < gain <= 3 && i <= gain
    ensures Lazily(Tied(), U64_MAX, picks, Scores(i + 1))
         == if |after| == |AllEdges(Tied())| then more else Lazily(Tied(), U64_MAX, more, Scores(i))
  {
    LessOne(i);
    ScoresAre(i + 1);
    TakesTied(picks, reached, Scores(i + 1), i, gain, more, after, Scores(i));
  }

  lemma LastTurn(two: set<u32>)
    requires two == {1, 2, 4, 5}
    ensures Lazily(Tied(), U64_MAX, [2, 1], Scores(1)) == [2, 1, 0]
  {
    TiedReached();
    TurnOfZero(two, AllEdges(Tied()), [2, 1], [2, 1, 0]);
  }

  lemma FirstTurns(none: set<u32>, one: set<u32>, two: set<u32>)
    requires none == {} && one == {1, 4, 5} && two == {1, 2, 4, 5}
    ensures At([2], one) && At([2, 1], two)
    ensures Lazily(Tied(), U64_MAX, [], Scores(3)) == Lazily(Tied(), U64_MAX, [2, 1], Scores(1))
  {
    TiedReached();
    TurnOfTwo(none, one);
    TurnOfOne(one, two);
  }

  /** The lazy algorithm takes input 1 before input 0, though they score the same and 0 is the lower. */
  lemma HigherIndexFirst()
    ensures LazyCover(Tied(), U64_MAX) == [2, 1, 0]
  {
    TiedStart();
    FirstTurns({}, {1, 4, 5}, {1, 2, 4, 5});
    LastTurn({1, 2, 4, 5});
  }

  /** And they do score the same there. */
  lemma SameScore()
    ensures Indices(Tied(), [2]) && ScoreAfter(Tied(), [2], 0) == ScoreAfter(Tied(), [2], 1) > 0
  {
    TiedReached();
    TiedScores([2], {1, 4, 5});
  }
}
