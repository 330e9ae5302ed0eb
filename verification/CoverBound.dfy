/**
 How far from the cheapest a greedy run can be. The documented claim is "within a
 factor of ln n"; what holds of the integer scores is the harmonic number of the
 most edges one input reaches, times what the scores' truncation costs: (q + 1) / q
 when an edge of the other cover's inputs is worth at least q whole scores.

 The proof is by a potential: over the inputs of any other cover, weight times
 the harmonic number of the edges still missing. Each pick costs no more, up to
 the truncation, than it takes off the potential.
 */
module CoverBound {
  import opened Machine
  import opened Cover
  import opened Sequences

  ghost predicate NoRepeats(runs: seq<Run>) {
    forall r | r in runs :: Distinct(r.edges)
  }

  /** What an input costs: its bytes and its file. */
  function Weight(run: Run): nat {
    run.size + INPUT_COST
  }

  function Cost(runs: seq<Run>, picks: seq<nat>): nat
    requires Indices(runs, picks)
  {
    if picks == [] then 0
    else Cost(runs, picks[..|picks| - 1]) + Weight(runs[picks[|picks| - 1]])
  }

  function Bytes(runs: seq<Run>): nat {
    if runs == [] then 0 else Bytes(runs[..|runs| - 1]) + runs[|runs| - 1].size
  }

  /** No budget that could pass an input over. */
  ghost predicate Unlimited(runs: seq<Run>, budget: u64) {
    budget == U64_MAX || Bytes(runs) <= budget
  }

  function Harmonic(n: nat): real {
    if n == 0 then 0.0 else Harmonic(n - 1) + 1.0 / n as real
  }

  // --- Without repeats, a gain counts edges ---

  lemma {:induction false} GainCounts(edges: seq<u32>, reached: set<u32>)
    requires Distinct(edges)
    ensures Gain(edges, reached) == |EdgeSet(edges) - reached|
  {
    if edges != [] {
      var rest := edges[1..];
      GainCounts(rest, reached);
      assert EdgeSet(edges) - reached ==
        (EdgeSet(rest) - reached) + (if edges[0] in reached then {} else {edges[0]});
      assert edges[0] !in EdgeSet(rest);
    }
  }

  lemma {:induction false} FewNumbers(s: set<u32>, n: nat)
    requires forall e | e in s :: e < n
    ensures |s| <= n
  {
    if n > 0 {
      FewNumbers(s - {n - 1}, n - 1);
    } else {
      assert s == {};
    }
  }

  /** A gain is far from saturating the score's product. */
  lemma GainFits(edges: seq<u32>, reached: set<u32>)
    requires Distinct(edges)
    ensures Gain(edges, reached) * SCALE <= U64_MAX
  {
    GainCounts(edges, reached);
    FewNumbers(EdgeSet(edges) - reached, U32_LIMIT);
  }

  // --- With no budget in the way, everything is reached ---

  lemma {:induction false} BytesOfOne(runs: seq<Run>, i: nat)
    requires i < |runs|
    ensures runs[i].size <= Bytes(runs)
  {
    if i < |runs| - 1 {
      BytesOfOne(runs[..|runs| - 1], i);
    }
  }

  /** Distinct picks spend no more than every input together. */
  lemma {:induction false} SpentWithin(runs: seq<Run>, picks: seq<nat>)
    requires Indices(runs, picks) && Distinct(picks)
    ensures Spent(runs, picks) <= Bytes(runs)
  {
    if runs == [] {
      assert picks == [];
    } else {
      var n := |runs| - 1;
      var fewer := runs[..n];
      if n in picks {
        var k :| 0 <= k < |picks| && picks[k] == n;
        var others := picks[..k] + picks[k + 1..];
        SpentWithout(runs, picks, k);
        assert Indices(fewer, others);
        SpentWithin(fewer, others);
        SpentOfPrefix(runs, others);
      } else {
        assert Indices(fewer, picks);
        SpentWithin(fewer, picks);
        SpentOfPrefix(runs, picks);
      }
    }
  }

  lemma {:induction false} SpentOfPrefix(runs: seq<Run>, picks: seq<nat>)
    requires runs != [] && Indices(runs[..|runs| - 1], picks)
    ensures Indices(runs, picks)
    ensures Spent(runs, picks) == Spent(runs[..|runs| - 1], picks)
  {
    if picks != [] {
      SpentOfPrefix(runs, picks[..|picks| - 1]);
    }
  }

  lemma {:induction false} SpentWithout(runs: seq<Run>, picks: seq<nat>, k: nat)
    requires Indices(runs, picks) && k < |picks|
    ensures Indices(runs, picks[..k] + picks[k + 1..])
    ensures Spent(runs, picks) == SatAdd(Spent(runs, picks[..k] + picks[k + 1..]), runs[picks[k]].size)
  {
    var last := |picks| - 1;
    var front := picks[..last];
    if k < last {
      SpentWithout(runs, front, k);
      var fewer := front[..k] + front[k + 1..];
      assert picks[..k] + picks[k + 1..] == fewer + [picks[last]];
      OnePick(runs, fewer, picks[last]);
    } else {
      assert picks[..k] + picks[k + 1..] == front;
    }
  }

  /** Under no budget, whatever still adds an edge is eligible. */
  lemma GainingIsEligible(runs: seq<Run>, budget: u64, picks: seq<nat>, i: nat)
    requires GreedyRun(runs, budget, picks) && Unlimited(runs, budget)
    requires i < |runs| && Gain(runs[i].edges, Reached(runs, picks)) > 0
    ensures Eligible(runs, budget, picks, i)
  {
    if budget != U64_MAX {
      GreedyPicksDistinct(runs, budget, picks);
      forall k | 0 <= k < |picks| ensures picks[k] != i {
        if picks[k] == i {
          ReachedGrows(runs, picks, k);
          NoGain(runs[i].edges, Reached(runs, picks));
        }
      }
      SpentWithin(runs, picks + [i]);
      OnePick(runs, picks, i);
    }
  }

  /** All edges are reached when the sizes fit together. */
  lemma EverythingReached(runs: seq<Run>, budget: u64, picks: seq<nat>)
    requires GreedyRun(runs, budget, picks) && Exhausted(runs, budget, picks)
    requires Unlimited(runs, budget)
    ensures Reached(runs, picks) == AllEdges(runs)
  {
    ReachedWithin(runs, picks);
    forall e | e in AllEdges(runs) ensures e in Reached(runs, picks) {
      var r :| r in runs && e in r.edges;
      var i: nat :| i < |runs| && runs[i] == r;
      if Gain(runs[i].edges, Reached(runs, picks)) > 0 {
        GainingIsEligible(runs, budget, picks, i);
        assert false;
      }
      NoGain(runs[i].edges, Reached(runs, picks));
      assert e in EdgeSet(runs[i].edges);
    }
  }

  // --- The potential ---

  lemma {:induction false} HarmonicGrows(less: nat, more: nat)
    requires less <= more
    ensures Harmonic(less) <= Harmonic(more)
  {
    if less < more {
      HarmonicGrows(less, more - 1);
    }
  }

  /** Dropping from `more` to `less` takes at least (more - less) / more off. */
  lemma {:induction false} HarmonicDrop(less: nat, more: nat)
    requires less <= more && 0 < more
    ensures (more - less) as real / more as real <= Harmonic(more) - Harmonic(less)
  {
    if less < more {
      if more - 1 > 0 {
        HarmonicDrop(less, more - 1);
        FractionShrinks(more - 1 - less, more - 1, more);
      }
      SplitFraction(more - 1 - less, more);
    }
  }

  lemma FractionShrinks(a: nat, b: nat, c: nat)
    requires 0 < b <= c
    ensures a as real / c as real <= a as real / b as real
  {
    var q := a as real / b as real;
    assert q * b as real == a as real;
    assert q * c as real >= a as real;
  }

  lemma SplitFraction(a: nat, c: nat)
    requires 0 < c
    ensures (a + 1) as real / c as real == a as real / c as real + 1.0 / c as real
  {
  }

  /** Products by name, so that equal factors make equal products at once. */
  function Times(a: real, b: real): real {
    a * b
  }

  function Mul(a: int, b: int): int {
    a * b
  }

  lemma TimesAdds(a: real, b: real, c: real)
    ensures Times(a, b + c) == Times(a, b) + Times(a, c)
  {
  }

  lemma TimesGrows(a: real, b: real, c: real)
    requires a <= b && 0.0 <= c
    ensures Times(a, c) <= Times(b, c) && Times(c, a) <= Times(c, b)
  {
  }

  lemma MulIsTimes(a: int, b: int)
    ensures Mul(a, b) as real == Times(a as real, b as real)
  {
  }

  /** What of the other cover's price is still to pay once `reached` is. */
  function Potential(runs: seq<Run>, other: seq<nat>, reached: set<u32>): real
    requires Indices(runs, other)
  {
    if other == [] then 0.0
    else Potential(runs, other[..|other| - 1], reached) + Owed(runs[other[|other| - 1]], reached)
  }

  function Owed(run: Run, reached: set<u32>): real {
    Times(Weight(run) as real, Harmonic(Gain(run.edges, reached)))
  }

  /** Over the other cover's inputs, how many of their edges `reached` to `after` reaches. */
  function Covered(runs: seq<Run>, other: seq<nat>, reached: set<u32>, after: set<u32>): int
    requires Indices(runs, other)
  {
    if other == [] then 0
    else
      var edges := runs[other[|other| - 1]].edges;
      Covered(runs, other[..|other| - 1], reached, after) + Drop(edges, reached, after)
  }

  function Drop(edges: seq<u32>, reached: set<u32>, after: set<u32>): int {
    Gain(edges, reached) - Gain(edges, after)
  }

  /** Every newly reached edge of the other cover is counted at least once. */
  lemma {:induction false} NewEdgesCounted(runs: seq<Run>, other: seq<nat>, reached: set<u32>, after: set<u32>)
    requires Indices(runs, other) && NoRepeats(runs) && reached <= after
    ensures |(after - reached) * Reached(runs, other)| <= Covered(runs, other, reached, after)
  {
    if other != [] {
      var front := other[..|other| - 1];
      var edges := runs[other[|other| - 1]].edges;
      NewEdgesCounted(runs, front, reached, after);
      GainCounts(edges, reached);
      GainCounts(edges, after);
      var news := after - reached;
      var mine := EdgeSet(edges);
      assert news * Reached(runs, other) == news * Reached(runs, front) + news * mine;
      UnionSize(news * Reached(runs, front), news * mine);
      assert mine - reached == (mine - after) + news * mine;
      assert (mine - after) !! (news * mine);
    }
  }

  /** What one edge of an input that weighs `limit` scores. */
  function EdgeScore(limit: nat): nat
    requires 0 < limit
  {
    Div(SCALE, limit)
  }

  /** An edge of an input at the limit scores something exactly up to the scale. */
  lemma ScoresUpToScale(limit: nat)
    requires 0 < limit
    ensures EdgeScore(limit) > 0 <==> limit <= SCALE
  {
    if limit <= SCALE {
      DivGrows(limit, SCALE, limit);
    }
  }

  /** What the truncation of the scores costs, over inputs of at most that weight. */
  function Slack(limit: nat): real
    requires 0 < limit && EdgeScore(limit) > 0
  {
    (EdgeScore(limit) + 1) as real / EdgeScore(limit) as real
  }

  /** It is never more than twice, and close to one for light inputs. */
  lemma SlackIsSmall(limit: nat)
    requires 0 < limit <= SCALE && EdgeScore(limit) > 0
    ensures 1.0 < Slack(limit) <= 2.0
    ensures Times(Slack(limit), (SCALE - limit) as real) <= SCALE as real
  {
    var q := EdgeScore(limit);
    var f := Slack(limit);
    assert f * q as real == (q + 1) as real;
    Quotient(SCALE, limit);
    assert Mul(q + 1, limit) == (q + 1) * limit;
    assert (q + 1) * (SCALE - limit) == q * SCALE + SCALE - (q + 1) * limit;
    assert ((q + 1) * (SCALE - limit)) as real == (q + 1) as real * (SCALE - limit) as real;
    assert (q * SCALE) as real == q as real * SCALE as real;
    assert q as real * (f * (SCALE - limit) as real) == (f * q as real) * (SCALE - limit) as real;
    Cancel(q as real, f * (SCALE - limit) as real, SCALE as real);
    Cancel(q as real, f, 2.0);
    if f <= 1.0 {
      TimesGrows(f, 1.0, q as real);
      assert false;
    }
  }

  /**
   Over integer scores: a pick that scores no less than `other` pays, for each
   edge, at most the other's price for each of its, up to the slack.
   */
  lemma PickPrice(pick: Run, other: Run, reached: set<u32>, limit: nat)
    requires Distinct(pick.edges) && Distinct(other.edges)
    requires Weight(other) <= limit <= SCALE && EdgeScore(limit) > 0
    requires Gain(other.edges, reached) > 0
    requires Score(Gain(other.edges, reached), other) <= Score(Gain(pick.edges, reached), pick)
    ensures Mul(Mul(Weight(pick), Gain(other.edges, reached)), EdgeScore(limit))
         <= Mul(Mul(Gain(pick.edges, reached), Weight(other)), EdgeScore(limit) + 1)
  {
    var g, r := Gain(pick.edges, reached), Gain(other.edges, reached);
    var wi, wj := Weight(pick), Weight(other);
    GainFits(pick.edges, reached);
    GainFits(other.edges, reached);
    GainSmall(pick.edges, reached);
    var sj := Div(r * SCALE, wj);
    assert Score(r, other) == sj;
    WorthOfOne(r, wj, limit);
    if wi > U64_MAX {
      SmallOverLarge(g * SCALE, U64_MAX);
      assert false;
    }
    var si := Div(g * SCALE, wi);
    assert Score(g, pick) == si;
    Truncation(g, r, wi, wj, EdgeScore(limit));
  }

  /** A gain of an input within the limit scores at least what one edge at the limit does. */
  lemma WorthOfOne(r: nat, wj: nat, limit: nat)
    requires 0 < r && 0 < wj <= limit
    ensures EdgeScore(limit) <= Div(r * SCALE, wj)
  {
    var q, s := Div(SCALE, limit), Div(r * SCALE, wj);
    Quotient(SCALE, limit);
    Quotient(r * SCALE, wj);
    if s < q {
      Scaled(s + 1, q, wj);
      MulSwap(q, wj);
      MulSwap(q, limit);
      Scaled(wj, limit, q);
      assert false;
    }
  }

  lemma MulSwap(a: int, b: int)
    ensures Mul(a, b) == Mul(b, a)
  {
  }

  lemma GainSmall(edges: seq<u32>, reached: set<u32>)
    requires Distinct(edges)
    ensures Gain(edges, reached) <= U32_LIMIT
  {
    GainCounts(edges, reached);
    FewNumbers(EdgeSet(edges) - reached, U32_LIMIT);
  }

  lemma SmallOverLarge(a: nat, b: nat)
    requires a < b
    ensures Div(a, b) == 0
  {
  }

  lemma Truncation(g: nat, r: nat, wi: nat, wj: nat, q: nat)
    requires 0 < wi && 0 < wj && q <= Div(r * SCALE, wj)
    requires Div(r * SCALE, wj) <= Div(g * SCALE, wi)
    ensures Mul(Mul(wi, r), q) <= Mul(Mul(g, wj), q + 1)
  {
    var s := Div(g * SCALE, wi);
    Quotient(g * SCALE, wi);
    Quotient(r * SCALE, wj);
    Scaled(Div(r * SCALE, wj) + 1, s + 1, wj);
    OverWeight(g, r, wi, wj, s);
    Milder(Mul(wi, r), Mul(g, wj), q, s);
  }

  lemma Quotient(a: nat, b: nat)
    requires 0 < b
    ensures Mul(Div(a, b), b) <= a < Mul(Div(a, b) + 1, b)
  {
  }

  /** The other's gain against the pick's, across both weights. */
  lemma OverWeight(g: nat, r: nat, wi: nat, wj: nat, s: nat)
    requires Mul(s, wi) <= g * SCALE && r * SCALE <= Mul(s + 1, wj)
    ensures Mul(Mul(wi, r), s) <= Mul(Mul(g, wj), s + 1)
  {
    var a, b := s * wi, (s + 1) * wj;
    Scaled(r * SCALE, b, a);
    Scaled(a, g * SCALE, b);
    MulSwap(a, b);
    assert Mul(r * SCALE, a) <= Mul(g * SCALE, b);
    assert r * SCALE * a == SCALE * (wi * r * s);
    assert g * SCALE * b == SCALE * (g * wj * (s + 1));
  }

  /** What holds of more scores holds of fewer. */
  lemma Milder(a: nat, b: nat, q: nat, s: nat)
    requires q <= s && Mul(a, s) <= Mul(b, s + 1)
    ensures Mul(a, q) <= Mul(b, q + 1)
  {
    if a <= b {
      Scaled(a, b, q);
      assert b * (q + 1) == b * q + b;
    } else {
      Scaled(q, s, a - b);
      assert s * (a - b) == a * s - b * s && b * (s + 1) == b * s + b;
      assert q * (a - b) == a * q - b * q && b * (q + 1) == b * q + b;
    }
  }

  lemma Scaled(a: int, b: int, c: nat)
    requires a <= b
    ensures Mul(a, c) <= Mul(b, c)
  {
  }

  /** `price` for each edge `run` still gains comes to no more than its weight, up to the slack. */
  ghost predicate FairPrice(run: Run, reached: set<u32>, price: real, slack: real) {
    Times(price, Gain(run.edges, reached) as real) <= Times(slack, Weight(run) as real)
  }

  /** A price fair to every input of the other cover is paid for out of the potential. */
  lemma {:induction false} PotentialPays(runs: seq<Run>, other: seq<nat>, reached: set<u32>, after: set<u32>,
                                         price: real, slack: real)
    requires Indices(runs, other) && reached <= after && 0.0 <= price
    requires forall k | 0 <= k < |other| :: FairPrice(runs[other[k]], reached, price, slack)
    ensures Times(price, Covered(runs, other, reached, after) as real)
         <= Times(slack, Potential(runs, other, reached) - Potential(runs, other, after))
  {
    if other != [] {
      var n := |other| - 1;
      var front := other[..n];
      forall k | 0 <= k < |front| ensures FairPrice(runs[front[k]], reached, price, slack) {
        assert front[k] == other[k];
      }
      PotentialPays(runs, front, reached, after, price, slack);
      assert FairPrice(runs[other[n]], reached, price, slack);
      OneInputPays(runs[other[n]], reached, after, price, slack);
      TimesAdds(price, Covered(runs, front, reached, after) as real,
                Drop(runs[other[n]].edges, reached, after) as real);
      TimesAdds(slack, Potential(runs, front, reached) - Potential(runs, front, after),
                Owed(runs[other[n]], reached) - Owed(runs[other[n]], after));
    }
  }

  lemma OneInputPays(run: Run, reached: set<u32>, after: set<u32>, price: real, slack: real)
    requires reached <= after && 0.0 <= price && FairPrice(run, reached, price, slack)
    ensures Times(price, Drop(run.edges, reached, after) as real)
         <= Times(slack, Owed(run, reached) - Owed(run, after))
  {
    GainShrinks(run.edges, reached, after);
    var less, more := Gain(run.edges, after), Gain(run.edges, reached);
    if more == 0 {
      assert less == 0;
    } else {
      HarmonicDrop(less, more);
      Positive(price, more as real, slack, Weight(run) as real);
      PayShare(price, more, less, Weight(run) as real, Harmonic(more), Harmonic(less), slack);
    }
  }

  lemma Positive(price: real, m: real, slack: real, w: real)
    requires 0.0 <= price && 0.0 <= m && 0.0 < w && Times(price, m) <= Times(slack, w)
    ensures 0.0 <= slack
  {
    if slack < 0.0 {
      assert slack * w < 0.0;
    }
  }

  /** Paying for `more - less` of `more` edges costs that share of what all of them may cost. */
  lemma PayShare(price: real, more: nat, less: nat, w: real, h: real, l: real, slack: real)
    requires 0 < more && less <= more && 0.0 <= w && 0.0 <= slack
    requires Times(price, more as real) <= Times(slack, w)
    requires (more - less) as real / more as real <= h - l
    ensures Times(price, (more - less) as real) <= Times(slack, Times(w, h) - Times(w, l))
  {
    var m, d := more as real, (more - less) as real;
    var share := d / m;
    assert share * m == d;
    TimesGrows(price * m, slack * w, share);
    assert price * d == (price * m) * share;
    TimesGrows(share, h - l, slack * w);
    assert (slack * w) * (h - l) == slack * (w * h - w * l);
  }

  /** One greedy pick costs no more than it takes off the potential, up to the slack. */
  lemma PickPays(runs: seq<Run>, budget: u64, picks: seq<nat>, i: nat, other: seq<nat>, limit: nat)
    requires GreedyRun(runs, budget, picks) && GreedyPick(runs, budget, picks, i)
    requires Unlimited(runs, budget) && NoRepeats(runs)
    requires CoversAll(runs, other) && Light(runs, other, limit) && 0 < limit <= SCALE && EdgeScore(limit) > 0
    ensures Indices(runs, picks + [i])
    ensures Weight(runs[i]) as real
         <= Times(Slack(limit), Potential(runs, other, Reached(runs, picks))
                                - Potential(runs, other, Reached(runs, picks + [i])))
  {
    var before := Reached(runs, picks);
    OnePick(runs, picks, i);
    var after := Reached(runs, picks + [i]);
    var g := Gain(runs[i].edges, before);
    var price := PricePerEdge(Weight(runs[i]), g);
    forall k | 0 <= k < |other| ensures FairPrice(runs[other[k]], before, price, Slack(limit)) {
      PriceIsFair(runs, budget, picks, i, other[k], limit, price);
    }
    PotentialPays(runs, other, before, after, price, Slack(limit));
    PickIsCounted(runs, picks, i, other);
    TimesGrows(g as real, Covered(runs, other, before, after) as real, price);
  }

  lemma PricePerEdge(weight: nat, g: nat) returns (price: real)
    requires 0 < g
    ensures 0.0 <= price && Times(price, g as real) == weight as real
  {
    price := weight as real / g as real;
  }

  lemma PickIsCounted(runs: seq<Run>, picks: seq<nat>, i: nat, other: seq<nat>)
    requires Indices(runs, picks) && i < |runs| && NoRepeats(runs) && CoversAll(runs, other)
    ensures Indices(runs, picks + [i])
    ensures Gain(runs[i].edges, Reached(runs, picks))
         <= Covered(runs, other, Reached(runs, picks), Reached(runs, picks + [i]))
  {
    var before := Reached(runs, picks);
    OnePick(runs, picks, i);
    var after := Reached(runs, picks + [i]);
    NewEdgesCounted(runs, other, before, after);
    GainCounts(runs[i].edges, before);
    ReachedWithin(runs, picks + [i]);
    assert (after - before) * Reached(runs, other) == EdgeSet(runs[i].edges) - before;
  }

  lemma PriceIsFair(runs: seq<Run>, budget: u64, picks: seq<nat>, i: nat, j: nat, limit: nat, price: real)
    requires GreedyRun(runs, budget, picks) && GreedyPick(runs, budget, picks, i)
    requires Unlimited(runs, budget) && NoRepeats(runs)
    requires j < |runs| && Weight(runs[j]) <= limit <= SCALE && EdgeScore(limit) > 0
    requires Times(price, Gain(runs[i].edges, Reached(runs, picks)) as real) == Weight(runs[i]) as real
    ensures FairPrice(runs[j], Reached(runs, picks), price, Slack(limit))
  {
    var reached := Reached(runs, picks);
    if Gain(runs[j].edges, reached) > 0 {
      GainingIsEligible(runs, budget, picks, j);
      assert ScoreAfter(runs, picks, j) <= ScoreAfter(runs, picks, i);
      PickPrice(runs[i], runs[j], reached, limit);
      FairFraction(Weight(runs[i]), Gain(runs[j].edges, reached), EdgeScore(limit),
                   Gain(runs[i].edges, reached), Weight(runs[j]), price, Slack(limit));
    } else {
      assert Times(price, 0.0) == 0.0;
      TimesGrows(0.0, Slack(limit), Weight(runs[j]) as real);
    }
  }

  lemma FairFraction(wi: nat, r: nat, q: nat, g: nat, wj: nat, price: real, slack: real)
    requires 0 < g && 0 < q && Mul(Mul(wi, r), q) <= Mul(Mul(g, wj), q + 1)
    requires Times(price, g as real) == wi as real && slack == (q + 1) as real / q as real
    ensures Times(price, r as real) <= Times(slack, wj as real)
  {
    var x, gr, qr := price * r as real, g as real, q as real;
    assert slack * qr == (q + 1) as real;
    assert (wi * r * q) as real == (wi as real * r as real) * qr;
    assert (g * wj * (q + 1)) as real == (gr * wj as real) * (q + 1) as real;
    assert gr * x == (price * gr) * r as real;
    assert (gr * qr) * x == (gr * x) * qr;
    assert (gr * qr) * (slack * wj as real) == (gr * wj as real) * (slack * qr);
    Product(gr, qr);
    Cancel(gr * qr, x, slack * wj as real);
  }

  lemma Product(a: real, b: real)
    requires 0.0 < a && 0.0 < b
    ensures 0.0 < a * b
  {
  }

  lemma Cancel(g: real, a: real, b: real)
    requires 0.0 < g && g * a <= g * b
    ensures a <= b
  {
    assert g * (a - b) <= 0.0;
  }

  /** `other` is a cover of every edge. */
  ghost predicate CoversAll(runs: seq<Run>, other: seq<nat>) {
    Indices(runs, other) && Reached(runs, other) == AllEdges(runs)
  }

  /** Every input of `other` weighs at most `limit`. */
  ghost predicate Light(runs: seq<Run>, other: seq<nat>, limit: nat)
    requires Indices(runs, other)
  {
    forall k | 0 <= k < |other| :: Weight(runs[other[k]]) <= limit
  }

  /** What `picks` cost, up to the slack, came off the potential. */
  ghost predicate Paid(runs: seq<Run>, picks: seq<nat>, other: seq<nat>, slack: real)
    requires Indices(runs, picks) && Indices(runs, other)
  {
    Cost(runs, picks) as real
    <= Times(slack, Potential(runs, other, {}) - Potential(runs, other, Reached(runs, picks)))
  }

  lemma {:induction false} PicksPay(runs: seq<Run>, budget: u64, picks: seq<nat>, other: seq<nat>, limit: nat)
    requires GreedyRun(runs, budget, picks) && Unlimited(runs, budget) && NoRepeats(runs)
    requires CoversAll(runs, other) && Light(runs, other, limit) && 0 < limit <= SCALE && EdgeScore(limit) > 0
    ensures Paid(runs, picks, other, Slack(limit))
  {
    if picks != [] {
      var n := |picks| - 1;
      var front := picks[..n];
      GreedyPrefix(runs, budget, picks);
      PicksPay(runs, budget, front, other, limit);
      PickPays(runs, budget, front, picks[n], other, limit);
      assert front + [picks[n]] == picks;
      OnePickPaid(runs, front, picks[n], other, Slack(limit));
    } else {
      NothingPaid(runs, other, Slack(limit));
    }
  }

  lemma NothingPaid(runs: seq<Run>, other: seq<nat>, slack: real)
    requires Indices(runs, other)
    ensures Paid(runs, [], other, slack)
  {
    assert Times(slack, 0.0) == 0.0;
  }

  lemma OnePickPaid(runs: seq<Run>, picks: seq<nat>, i: nat, other: seq<nat>, slack: real)
    requires Indices(runs, picks) && Indices(runs, other) && i < |runs| && Indices(runs, picks + [i])
    requires Paid(runs, picks, other, slack)
    requires Weight(runs[i]) as real
          <= Times(slack, Potential(runs, other, Reached(runs, picks))
                          - Potential(runs, other, Reached(runs, picks + [i])))
    ensures Paid(runs, picks + [i], other, slack)
  {
    assert (picks + [i])[..|picks|] == picks;
    TimesAdds(slack, Potential(runs, other, {}) - Potential(runs, other, Reached(runs, picks)),
              Potential(runs, other, Reached(runs, picks)) - Potential(runs, other, Reached(runs, picks + [i])));
  }

  lemma GreedyPrefix(runs: seq<Run>, budget: u64, picks: seq<nat>)
    requires GreedyRun(runs, budget, picks) && picks != []
    ensures GreedyRun(runs, budget, picks[..|picks| - 1])
    ensures GreedyPick(runs, budget, picks[..|picks| - 1], picks[|picks| - 1])
  {
    var front := picks[..|picks| - 1];
    forall k | 0 <= k < |front| ensures GreedyPick(runs, budget, front[..k], front[k]) {
      assert front[..k] == picks[..k];
    }
  }

  lemma {:induction false} PotentialRemains(runs: seq<Run>, other: seq<nat>, reached: set<u32>)
    requires Indices(runs, other)
    ensures 0.0 <= Potential(runs, other, reached)
  {
    if other != [] {
      PotentialRemains(runs, other[..|other| - 1], reached);
      var run := runs[other[|other| - 1]];
      HarmonicGrows(0, Gain(run.edges, reached));
    }
  }

  lemma {:induction false} PotentialStarts(runs: seq<Run>, other: seq<nat>, most: nat)
    requires Indices(runs, other)
    requires forall k | 0 <= k < |other| :: |runs[other[k]].edges| <= most
    ensures Potential(runs, other, {}) <= Times(Harmonic(most), Cost(runs, other) as real)
  {
    if other != [] {
      var n := |other| - 1;
      var front := other[..n];
      var run := runs[other[n]];
      forall k | 0 <= k < |front| ensures |runs[front[k]].edges| <= most {
        assert front[k] == other[k];
      }
      PotentialStarts(runs, front, most);
      FirstGain(run.edges);
      HarmonicGrows(|run.edges|, most);
      TimesGrows(Harmonic(|run.edges|), Harmonic(most), Weight(run) as real);
      TimesAdds(Harmonic(most), Cost(runs, front) as real, Weight(run) as real);
    }
  }

  /**
   With no budget in the way, what a greedy run chose costs at most H(most) times
   the slack of any other cover whose inputs reach at most `most` edges each and
   weigh at most `limit` each.
   */
  lemma ApproximatesTheCheapest(runs: seq<Run>, budget: u64, picks: seq<nat>,
                                other: seq<nat>, most: nat, limit: nat)
    requires GreedyRun(runs, budget, picks) && Unlimited(runs, budget) && NoRepeats(runs)
    requires CoversAll(runs, other) && Light(runs, other, limit) && 0 < limit <= SCALE
    requires forall k | 0 <= k < |other| :: |runs[other[k]].edges| <= most
    ensures EdgeScore(limit) > 0
    ensures Cost(runs, picks) as real <= Times(Slack(limit), Times(Harmonic(most), Cost(runs, other) as real))
  {
    ScoresUpToScale(limit);
    SlackIsSmall(limit);
    PicksPay(runs, budget, picks, other, limit);
    PotentialRemains(runs, other, Reached(runs, picks));
    PotentialStarts(runs, other, most);
    TimesGrows(Potential(runs, other, {}) - Potential(runs, other, Reached(runs, picks)),
               Times(Harmonic(most), Cost(runs, other) as real), Slack(limit));
  }

  // --- Past the scale ---

  /** Two inputs that reach the same edge: one of weight `w`, one `factor` times as heavy and more. */
  function TooHeavy(factor: nat, w: nat): seq<Run>
    requires INPUT_COST <= w <= U64_MAX && Mul(factor, w) <= U64_MAX
  {
    [Run(Mul(factor, w) as u64, [7]), Run(w - INPUT_COST, [7])]
  }

  /**
   At every weight past the scale a single edge scores nothing, and the lazy
   algorithm takes an input any factor heavier than one that does as well.
   */
  lemma NoFactorPastTheScale(factor: nat, w: nat)
    requires 0 < factor && SCALE < w <= U64_MAX && Mul(factor, w) <= U64_MAX
    ensures var runs := TooHeavy(factor, w);
      && GreedyRun(runs, U64_MAX, [0]) && Exhausted(runs, U64_MAX, [0]) && NoRepeats(runs)
      && LazyCover(runs, U64_MAX) == [0]
      && CoversAll(runs, [1]) && Weight(runs[1]) == w
      && Cost(runs, [0]) > Mul(factor, Cost(runs, [1]))
  {
    var runs := TooHeavy(factor, w);
    SevenReached(runs, 0);
    SevenReached(runs, 1);
    NoneScores(runs, factor, w);
    assert GreedyPick(runs, U64_MAX, [], 0);
    assert [0][..0] == [];
    forall i: nat | i < |runs| ensures !Eligible(runs, U64_MAX, [0], i) {
      NoGain(runs[i].edges, {7});
    }
    CostOfOne(runs, 0);
    CostOfOne(runs, 1);
    HeavyIsTaken(runs, factor, w);
  }

  /** Both score nothing, so the lower index comes first; and taking it reaches all. */
  lemma HeavyIsTaken(runs: seq<Run>, factor: nat, w: nat)
    requires 0 < factor && SCALE < w <= U64_MAX && Mul(factor, w) <= U64_MAX && runs == TooHeavy(factor, w)
    ensures LazyCover(runs, U64_MAX) == [0]
  {
    NoneScores(runs, factor, w);
    SevenReached(runs, 0);
    FirstGain(runs[0].edges);
    FirstGain(runs[1].edges);
    var left := FirstScores(runs);
    assert left.Keys == {0, 1} && left[0] == 0 && left[1] == 0;
    assert IsTop(left, 0) && !Outscored(left - {0}, 0);
    assert [] + [0] == [0];
    LazilyTakes(runs, U64_MAX, [], left, 0);
  }

  /** What is compared: a finished greedy run with no budget in the way, and another cover of light inputs. */
  ghost predicate Compared(runs: seq<Run>, budget: u64, picks: seq<nat>, other: seq<nat>, most: nat, limit: nat) {
    && GreedyRun(runs, budget, picks) && Exhausted(runs, budget, picks)
    && Unlimited(runs, budget) && NoRepeats(runs)
    && CoversAll(runs, other) && Light(runs, other, limit)
    && forall k | 0 <= k < |other| :: |runs[other[k]].edges| <= most
  }

  /** H(most) times `factor` bounds every greedy run against every cover of inputs up to the limit. */
  ghost predicate Bounds(factor: nat, limit: nat) {
    forall runs, budget, picks, other, most | Compared(runs, budget, picks, other, most, limit) ::
      Cost(runs, picks) as real <= Times(factor as real, Times(Harmonic(most), Cost(runs, other) as real))
  }

  /** Likewise of what the lazy algorithm itself takes. */
  ghost predicate LazyBounds(factor: nat, limit: nat) {
    forall runs, budget, other, most | Compared(runs, budget, LazyCover(runs, budget), other, most, limit) ::
      Cost(runs, LazyCover(runs, budget)) as real
      <= Times(factor as real, Times(Harmonic(most), Cost(runs, other) as real))
  }

  /**
   Whatever whole factor, two or more, as far as sizes of 64 bits tell: it bounds
   greedy, or the lazy algorithm alone, against all covers of inputs up to a weight
   exactly when that weight is within the scale.
   */
  lemma FactorExactly(factor: nat, limit: nat)
    requires 2 <= factor && Mul(factor, SCALE + 1) <= U64_MAX
    ensures Bounds(factor, limit) <==> limit <= SCALE
    ensures LazyBounds(factor, limit) <==> limit <= SCALE
  {
    if limit <= SCALE {
      forall runs, budget, picks, other, most | Compared(runs, budget, picks, other, most, limit)
        ensures Cost(runs, picks) as real <= Times(factor as real, Times(Harmonic(most), Cost(runs, other) as real))
      {
        WithinFactor(runs, budget, picks, other, most, limit, factor);
      }
    } else {
      var runs := TooHeavy(factor, SCALE + 1);
      NoFactorPastTheScale(factor, SCALE + 1);
      MulIsTimes(factor, Cost(runs, [1]));
      assert Harmonic(1) == 1.0;
      assert Times(Harmonic(1), Cost(runs, [1]) as real) == Cost(runs, [1]) as real;
      CostOfOne(runs, 1);
      assert Compared(runs, U64_MAX, [0], [1], 1, limit);
    }
  }

  lemma WithinFactor(runs: seq<Run>, budget: u64, picks: seq<nat>, other: seq<nat>, most: nat, limit: nat, factor: nat)
    requires Compared(runs, budget, picks, other, most, limit) && limit <= SCALE && 2 <= factor
    ensures Cost(runs, picks) as real <= Times(factor as real, Times(Harmonic(most), Cost(runs, other) as real))
  {
    var some := if limit == 0 then 1 else limit;
    assert Light(runs, other, some);
    ApproximatesTheCheapest(runs, budget, picks, other, most, some);
    SlackIsSmall(some);
    HarmonicGrows(0, most);
    TimesGrows(0.0, Harmonic(most), Cost(runs, other) as real);
    TimesGrows(Slack(some), factor as real, Times(Harmonic(most), Cost(runs, other) as real));
  }

  lemma CostOfOne(runs: seq<Run>, i: nat)
    requires i < |runs|
    ensures Cost(runs, [i]) == Weight(runs[i])
  {
    var picks := [i];
    assert picks[..0] == [] && Cost(runs, picks[..0]) == 0;
  }

  lemma SevenReached(runs: seq<Run>, i: nat)
    requires |runs| == 2 && runs[0].edges == [7] && runs[1].edges == [7] && i < 2
    ensures Reached(runs, [i]) == {7} == AllEdges(runs)
  {
    OnePick(runs, [], i);
    assert [] + [i] == [i];
    OneEdge(7);
    forall e | e in AllEdges(runs) ensures e == 7 {
      var run :| run in runs && e in run.edges;
      assert run.edges == [7];
    }
    assert runs[0] in runs && 7 in runs[0].edges;
  }

  lemma OneEdge(e: u32)
    ensures EdgeSet([e]) == {e}
  {
  }

  lemma NoneScores(runs: seq<Run>, factor: nat, w: nat)
    requires 0 < factor && SCALE < w <= U64_MAX && Mul(factor, w) <= U64_MAX && runs == TooHeavy(factor, w)
    ensures forall i: nat | i < 2 ::
      Gain(runs[i].edges, {}) == 1 && ScoreAfter(runs, [], i) == 0
  {
    Scaled(1, factor, w);
    forall i: nat | i < 2
      ensures Gain(runs[i].edges, {}) == 1 && ScoreAfter(runs, [], i) == 0
    {
      FirstGain(runs[i].edges);
      SmallOverLarge(SatMul(1, SCALE), SatAdd(runs[i].size, INPUT_COST));
    }
  }
}
