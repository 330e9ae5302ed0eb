/** Shrinking an input that makes a fuzz target fail, while it fails the same way. */
module Minimise {
  import opened Wrappers
  import opened Machine

  /** So many refusals, none taken between them, end it. */
  const KEEP_REFUSALS: nat := 5

  /** How a run of one input fails: one bug told from another. */
  type Failure = string

  /**
   The world: `step` offers a smaller input from the one so far and a seed,
   `check` runs one, after as many questions as were asked before, and `elapsed`
   is the time taken when the clock is read for the `n`th time.
   */
  class World {
    const step: (nat, seq<u8>, int) -> Result<Option<seq<u8>>, string>
    const check: (nat, seq<u8>) -> Result<Option<Failure>, string>
    const elapsed: nat -> nat
    var asked: nat
    var checked: nat
    var looks: nat

    constructor (step: (nat, seq<u8>, int) -> Result<Option<seq<u8>>, string>,
                 check: (nat, seq<u8>) -> Result<Option<Failure>, string>, elapsed: nat -> nat)
      ensures this.step == step && this.check == check && this.elapsed == elapsed
      ensures asked == 0 && checked == 0 && looks == 0
    {
      this.step, this.check, this.elapsed := step, check, elapsed;
      asked, checked, looks := 0, 0, 0;
    }

    method Elapsed() returns (time: nat)
      modifies this`looks
      ensures time == elapsed(old(looks)) && looks == old(looks) + 1
    {
      time := elapsed(looks);
      looks := looks + 1;
    }

    method Step(current: seq<u8>, seed: int) returns (r: Result<Option<seq<u8>>, string>)
      modifies this`asked
      ensures r == step(old(asked), current, seed) && asked == old(asked) + 1
    {
      r := step(asked, current, seed);
      asked := asked + 1;
    }

    method Check(offered: seq<u8>) returns (r: Result<Option<Failure>, string>)
      modifies this`checked
      ensures r == check(old(checked), offered) && checked == old(checked) + 1
    {
      r := check(checked, offered);
      checked := checked + 1;
    }
  }

  /** One offer: what it was made from, and whether it was taken. */
  datatype Round = Round(from: seq<u8>, offered: seq<u8>, took: bool)

  /** The input so far. */
  function Current(input: seq<u8>, rounds: seq<Round>): seq<u8> {
    if rounds == [] then input
    else
      var last := rounds[|rounds| - 1];
      if last.took then last.offered else last.from
  }

  /** The refusals since the last offer taken. */
  function Refused(rounds: seq<Round>): nat {
    if rounds == [] || rounds[|rounds| - 1].took then 0 else Refused(rounds[..|rounds| - 1]) + 1
  }

  /** How many offers were smaller, so checked. */
  function Smaller(rounds: seq<Round>): nat {
    if rounds == [] then 0
    else
      var last := rounds[|rounds| - 1];
      Smaller(rounds[..|rounds| - 1]) + SmallerBy(last)
  }

  function SmallerBy(round: Round): nat {
    if |round.offered| < |round.from| then 1 else 0
  }

  /** Where the world stood when it began. */
  datatype Start = Start(asked: nat, checked: nat, looks: nat)

  /** After the rounds before it, one comes in time, and its offer is taken exactly when smaller and failing the same way. */
  ghost predicate Plays(world: World, start: Start, failure: Failure, budget: nat, input: seq<u8>, before: seq<Round>, round: Round) {
    var k := |before|;
    var found := world.check(start.checked + Smaller(before), round.offered);
    && Refused(before) < 5 && world.elapsed(start.looks + k) < budget
    && round.from == Current(input, before)
    && world.step(start.asked + k, round.from, k + 1) == Ok(Some(round.offered))
    && (round.took <==> |round.offered| < |round.from| && found == Ok(Some(failure)))
    && (|round.offered| < |round.from| ==> found.Ok?)
  }

  ghost predicate Played(world: World, start: Start, failure: Failure, budget: nat, input: seq<u8>, rounds: seq<Round>, k: nat)
    requires k < |rounds|
  {
    Plays(world, start, failure, budget, input, rounds[..k], rounds[k])
  }

  ghost predicate AllPlayed(world: World, start: Start, failure: Failure, budget: nat, input: seq<u8>, rounds: seq<Round>) {
    forall k | 0 <= k < |rounds| :: Played(world, start, failure, budget, input, rounds, k)
  }

  /** There is a reason not to go on. */
  ghost predicate Over(world: World, start: Start, budget: nat, input: seq<u8>, rounds: seq<Round>) {
    var n := |rounds|;
    || Refused(rounds) == 5
    || world.elapsed(start.looks + n) >= budget
    || world.step(start.asked + n, Current(input, rounds), n + 1) == Ok(None)
    || n == 4_294_967_295
  }

  /** A question without an answer ended it, and why is what is said. */
  ghost predicate Broke(world: World, start: Start, input: seq<u8>, rounds: seq<Round>, error: string) {
    var n, current := |rounds|, Current(input, rounds);
    var step := world.step(start.asked + n, current, n + 1);
    if step.Err? then step.error == error
    else
      && step.value.Some? && |step.value.value| < |current|
      && world.check(start.checked + Smaller(rounds), step.value.value) == Err(error)
  }

  lemma PlayedOn(world: World, start: Start, failure: Failure, budget: nat, input: seq<u8>, rounds: seq<Round>, round: Round)
    requires AllPlayed(world, start, failure, budget, input, rounds)
    requires Plays(world, start, failure, budget, input, rounds, round)
    ensures AllPlayed(world, start, failure, budget, input, rounds + [round])
  {
    var more := rounds + [round];
    forall k | 0 <= k < |more| ensures Played(world, start, failure, budget, input, more, k) {
      if k < |rounds| {
        assert Played(world, start, failure, budget, input, rounds, k) && more[..k] == rounds[..k];
      }
    }
  }

  lemma RoundOn(rounds: seq<Round>, round: Round, input: seq<u8>)
    ensures var more := rounds + [round];
      && more[..|rounds|] == rounds
      && Current(input, more) == (if round.took then round.offered else round.from)
      && Refused(more) == (if round.took then 0 else Refused(rounds) + 1)
      && Smaller(more) == Smaller(rounds) + SmallerBy(round)
  {
    assert (rounds + [round])[..|rounds|] == rounds;
  }

  /** What a step offers for `current`, and whether a check has it taken. */
  method Offer(world: World, current: seq<u8>, seed: int, failure: Failure) returns (r: Result<Option<Round>, string>)
    modifies world`asked, world`checked
    ensures world.asked == old(world.asked) + 1
    ensures var step := world.step(old(world.asked), current, seed);
      var smaller := step.Ok? && step.value.Some? && |step.value.value| < |current|;
      && world.checked == old(world.checked) + (if smaller then 1 else 0)
      && (r.Err? <==> step.Err? || (smaller && world.check(old(world.checked), step.value.value).Err?))
      && (r.Err? ==> r.error == if step.Err? then step.error else world.check(old(world.checked), step.value.value).error)
      && (r.Ok? ==> (r.value.Some? <==> step.value.Some?))
      && (r.Ok? && r.value.Some? ==>
            r.value.value == Round(current, step.value.value,
                                   smaller && world.check(old(world.checked), step.value.value) == Ok(Some(failure))))
  {
    var offer := world.Step(current, seed);
    if offer.Err? {
      return Err(offer.error);
    }
    if offer.value.None? {
      return Ok(None);
    }
    var offered := offer.value.value;
    if |offered| < |current| {
      var found := world.Check(offered);
      if found.Err? {
        return Err(found.error);
      }
      return Ok(Some(Round(current, offered, found.value == Some(failure))));
    }
    return Ok(Some(Round(current, offered, false)));
  }

  /** `minimise`: what it returns, the rounds that led there, and why it ended. */
  method Minimise(world: World, input: seq<u8>, failure: Failure, budget: nat)
      returns (r: Result<seq<u8>, string>, ghost rounds: seq<Round>, ghost start: Start)
    modifies world
    ensures start == Start(old(world.asked), old(world.checked), old(world.looks))
    ensures AllPlayed(world, start, failure, budget, input, rounds)
    ensures if r.Ok? then r.value == Current(input, rounds) && Over(world, start, budget, input, rounds)
            else Refused(rounds) < KEEP_REFUSALS && Broke(world, start, input, rounds, r.error)
    ensures world.asked <= start.asked + |rounds| + if Refused(rounds) < KEEP_REFUSALS then 1 else 0
  {
    start := Start(world.asked, world.checked, world.looks);
    rounds := [];
    var current, refused: nat, seed := input, 0, 1;
    while seed <= U32_LIMIT - 1
      invariant 1 <= seed == |rounds| + 1 <= U32_LIMIT && refused == Refused(rounds) <= KEEP_REFUSALS
      invariant world.asked == start.asked + |rounds| && world.looks == start.looks + |rounds|
      invariant world.checked == start.checked + Smaller(rounds)
      invariant current == Current(input, rounds) && AllPlayed(world, start, failure, budget, input, rounds)
    {
      if refused == KEEP_REFUSALS {
        break;
      }
      var elapsed := world.Elapsed();
      if elapsed >= budget {
        break;
      }
      var offer := Offer(world, current, seed, failure);
      if offer.Err? {
        return Err(offer.error), rounds, start;
      }
      if offer.value.None? {
        break;
      }
      var round := offer.value.value;
      RoundOn(rounds, round, input);
      PlayedOn(world, start, failure, budget, input, rounds, round);
      rounds := rounds + [round];
      if round.took {
        current := round.offered;
        refused := 0;
      } else {
        refused := refused + 1;
      }
      seed := seed + 1;
    }
    return Ok(current), rounds, start;
  }

  /** The `k`th round's offer is `found`, which its check found failing the same way. */
  ghost predicate FoundAt(world: World, start: Start, failure: Failure, rounds: seq<Round>, found: seq<u8>, k: nat)
    requires k < |rounds|
  {
    rounds[k].offered == found && world.check(start.checked + Smaller(rounds[..k]), found) == Ok(Some(failure))
  }

  /** The input, or a strictly smaller one that a check of the run found failing the same way. */
  ghost predicate Sound(world: World, start: Start, failure: Failure, input: seq<u8>, rounds: seq<Round>, result: seq<u8>) {
    result == input || (|result| < |input| && exists k :: 0 <= k < |rounds| && FoundAt(world, start, failure, rounds, result, k))
  }

  /**
   Whatever is offered, what is returned is sound; and however much time there is,
   every byte taken off costs at most five questions, and the refusals at the end
   at most five more.
   */
  lemma {:induction false} ShrinksSafely(world: World, start: Start, failure: Failure, budget: nat,
                                         input: seq<u8>, rounds: seq<Round>)
    requires AllPlayed(world, start, failure, budget, input, rounds)
    ensures var result := Current(input, rounds);
      && Sound(world, start, failure, input, rounds, result)
      && |rounds| <= KEEP_REFUSALS * (|input| - |result|) + Refused(rounds)
      && Refused(rounds) <= KEEP_REFUSALS
  {
    if rounds != [] {
      var n := |rounds| - 1;
      var front := rounds[..n];
      assert Played(world, start, failure, budget, input, rounds, n);
      forall k | 0 <= k < n ensures Played(world, start, failure, budget, input, front, k) {
        assert Played(world, start, failure, budget, input, rounds, k) && rounds[..k] == front[..k];
      }
      ShrinksSafely(world, start, failure, budget, input, front);
      SoundOn(world, start, failure, input, rounds);
    }
  }

  lemma SoundOn(world: World, start: Start, failure: Failure, input: seq<u8>, rounds: seq<Round>)
    requires rounds != []
    requires var n := |rounds| - 1;
      var front, last := rounds[..n], rounds[n];
      && Sound(world, start, failure, input, front, Current(input, front)) && last.from == Current(input, front)
      && (last.took ==> |last.offered| < |last.from| && FoundAt(world, start, failure, rounds, last.offered, n))
    ensures Sound(world, start, failure, input, rounds, Current(input, rounds))
  {
    var n := |rounds| - 1;
    var front, last := rounds[..n], rounds[n];
    if !last.took && last.from != input {
      var k :| 0 <= k < n && FoundAt(world, start, failure, front, last.from, k);
      assert front[..k] == rounds[..k] && FoundAt(world, start, failure, rounds, last.from, k);
    }
  }

  /** Five times the input's bytes and five more questions are always enough. */
  lemma AsksBounded(world: World, start: Start, failure: Failure, budget: nat, input: seq<u8>, rounds: seq<Round>, asked: nat)
    requires AllPlayed(world, start, failure, budget, input, rounds)
    requires asked <= start.asked + |rounds| + if Refused(rounds) < KEEP_REFUSALS then 1 else 0
    ensures asked - start.asked <= 5 * |input| + 5
  {
    ShrinksSafely(world, start, failure, budget, input, rounds);
  }
}
