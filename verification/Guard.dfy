/** The guard in the guest: it stops a job's work once another project wants the Mac, and in time. */
module Guard {
  import opened Wrappers
  import opened Machine
  import opened Gitlab
  import opened Dispatch

  /** The pause between two looks at the work, in milliseconds. */
  const TICK: nat := 100

  /** The guarded work: `ends(n)` is what the `n`th look at it finds. */
  class Work {
    const ends: nat -> Result<Option<int>, string>
    var polled: nat
    var stops: nat

    constructor (ends: nat -> Result<Option<int>, string>)
      ensures this.ends == ends && polled == 0 && stops == 0
    {
      this.ends := ends;
      polled, stops := 0, 0;
    }

    method Poll() returns (r: Result<Option<int>, string>)
      modifies this`polled
      ensures r == ends(old(polled)) && polled == old(polled) + 1
    {
      r := ends(polled);
      polled := polled + 1;
    }

    method Stop()
      modifies this`stops
      ensures stops == old(stops) + 1
    {
      stops := stops + 1;
    }
  }

  /** What the clock reads at the `k`th look of the guard. */
  ghost function At(api: Api, first: nat, k: nat): nat {
    api.clock(first + k)
  }

  /** Asked after so many looks, the queue says another project's job wants the Mac. */
  ghost predicate SaysWanted(api: Api, looks: nat, ours: u64) {
    && api.runner(looks).Ok? && api.active(looks).Ok?
    && Foreign(api.runner(looks).value, ours, api.active(looks).value) > 0
  }

  ghost function OthersSaid(api: Api, looks: nat, ours: u64): nat
    requires SaysWanted(api, looks, ours)
  {
    Min(Foreign(api.runner(looks).value, ours, api.active(looks).value), U64_MAX)
  }

  ghost predicate WantedAt(api: Api, first: nat, k: nat, ours: u64) {
    SaysWanted(api, first + k + 1, ours)
  }

  ghost function OthersAt(api: Api, first: nat, k: nat, ours: u64): nat
    requires WantedAt(api, first, k, ours)
  {
    OthersSaid(api, first + k + 1, ours)
  }

  /** At the `k`th tick, a question asked less than a poll before did not say so. */
  ghost predicate Guarded(api: Api, first: nat, k: nat, ours: u64) {
    exists j :: 0 <= j <= k && AsksAt(api, first, j, k, ours)
  }

  ghost predicate AsksAt(api: Api, first: nat, j: nat, k: nat, ours: u64) {
    Since(At(api, first, j), At(api, first, k)) < POLL && !WantedAt(api, first, j, ours)
  }

  /** The line the guard logs when it gives the Mac back. */
  function GivesBack(others: nat, tag: string): string {
    YIELD_MARK + ": " + Reason(others, tag) + "\n"
  }

  ghost predicate AllGuarded(api: Api, first: nat, ticks: nat, ours: u64) {
    forall k | 0 <= k < ticks :: Guarded(api, first, k, ours)
  }

  lemma OneMoreGuarded(api: Api, first: nat, j: nat, k: nat, ours: u64)
    requires AllGuarded(api, first, k, ours) && j <= k && AsksAt(api, first, j, k, ours)
    ensures AllGuarded(api, first, k + 1, ours)
  {
    assert Guarded(api, first, k, ours);
  }

  /** The last question, asked at the `last`th tick, did not say so. */
  ghost predicate AskedLast(api: Api, first: nat, last: nat, ticks: nat, asked: Option<nat>, ours: u64) {
    asked.Some? ==> last < ticks && asked.value == At(api, first, last) && !WantedAt(api, first, last, ours)
  }

  lemma AsksStill(api: Api, first: nat, last: nat, ticks: nat, asked: Option<nat>, ours: u64)
    requires asked.Some? && last <= ticks && asked.value == At(api, first, last) && !WantedAt(api, first, last, ours)
    requires Since(asked.value, At(api, first, ticks)) < POLL && AllGuarded(api, first, ticks, ours)
    ensures AllGuarded(api, first, ticks + 1, ours) && AskedLast(api, first, last, ticks + 1, asked, ours)
  {
    OneMoreGuarded(api, first, last, ticks, ours);
  }

  /** It ended without a status, for the Mac to be given back. */
  predicate GaveBack(r: Option<Result<Option<int>, string>>) {
    r.Some? && r.value.Ok? && r.value.value.None?
  }

  /**
   A status reported is what the last look found, and anything else of work that had
   not ended; an error is that look's or the pause's.
   */
  predicate Reports(found: Result<Option<int>, string>, paused: Result<(), string>, r: Result<Option<int>, string>) {
    && (if r.Ok? && r.value.Some? then found == r else (found.Ok? ==> found.value.None?))
    && (r.Err? ==> found == r || paused == Err(r.error))
  }

  /** Wanted at that tick, the Mac is given back and the line about it logged last. */
  ghost predicate Yields(api: Api, first: nat, ticks: nat, ours: u64, tag: string, early: string, text: string) {
    WantedAt(api, first, ticks, ours) && text == early + GivesBack(OthersAt(api, first, ticks, ours), tag)
  }

  lemma YieldsHere(api: Api, first: nat, ticks: nat, ours: u64, tag: string, early: string, said: string, looks: nat)
    requires looks == first + ticks + 1 && SaysWanted(api, looks, ours) && said == GivesBack(OthersSaid(api, looks, ours), tag)
    ensures Yields(api, first, ticks, ours, tag, early, early + said)
  {
  }

  /** What is logged of a question that is no reason to yield: nothing, or that it got no answer. */
  ghost predicate IsComplaint(line: string, tag: string) {
    line == "" || exists error :: line == "slopty-gitlab: could not read " + tag + "'s queue: " + error + "\n"
  }

  function Joined(lines: seq<string>): string {
    if lines == [] then [] else Joined(lines[..|lines| - 1]) + lines[|lines| - 1]
  }

  /** All that was logged before the last question, if that gave the Mac back. */
  ghost predicate OnlyComplains(text: string, lines: seq<string>, tag: string) {
    text == Joined(lines) && forall k | 0 <= k < |lines| :: IsComplaint(lines[k], tag)
  }

  lemma ComplainsOn(text: string, lines: seq<string>, tag: string, line: string)
    requires OnlyComplains(text, lines, tag) && IsComplaint(line, tag)
    ensures OnlyComplains(text + line, lines + [line], tag)
  {
    assert (lines + [line])[..|lines|] == lines;
  }

  /** Whether the Mac is wanted, and what is logged of it; no answer is no reason to yield. */
  method Question(api: Api, ours: u64, tag: string) returns (givesBack: bool, said: string)
    modifies api`calls
    ensures givesBack <==> SaysWanted(api, api.looks, ours)
    ensures if givesBack then said == GivesBack(OthersSaid(api, api.looks, ours), tag) else IsComplaint(said, tag)
  {
    var wanted, _ := api.Wanted(ours, tag);
    givesBack := wanted.Ok? && wanted.value.Some?;
    said := if givesBack then YIELD_MARK + ": " + wanted.value.value + "\n"
      else if wanted.Err? then "slopty-gitlab: could not read " + tag + "'s queue: " + wanted.error + "\n"
      else "";
  }

  /** The question of one tick, asked at first and a poll after it last was. */
  method AskWhenDue(api: Api, ours: u64, tag: string, asked: Option<nat>, now: nat,
                    ghost first: nat, ghost ticks: nat, ghost last: nat)
      returns (givesBack: bool, said: string, askedNow: Option<nat>, ghost lastNow: nat)
    requires api.looks == first + ticks + 1 && now == At(api, first, ticks)
    requires AskedLast(api, first, last, ticks, asked, ours)
    modifies api`calls
    ensures if givesBack then SaysWanted(api, api.looks, ours) && said == GivesBack(OthersSaid(api, api.looks, ours), tag)
            else IsComplaint(said, tag)
    ensures !givesBack ==>
      && askedNow.Some? && Since(askedNow.value, now) < POLL
      && lastNow <= ticks && askedNow.value == At(api, first, lastNow) && !WantedAt(api, first, lastNow, ours)
  {
    givesBack, said, askedNow, lastNow := false, "", asked, last;
    if asked.None? || Since(asked.value, now) >= POLL {
      askedNow, lastNow := Some(now), ticks;
      givesBack, said := Question(api, ours, tag);
    }
  }

  /**
   `guard` until it ends or `fuel` ticks went on. It stops the work only when the
   queue says it is wanted, never because it got no answer, and then reports no
   status; a status it reports is the work's own, of work it did not stop.
   */
  method Watch(api: Api, ours: u64, tag: string, work: Work, fuel: nat)
      returns (r: Option<Result<Option<int>, string>>, ticks: nat, text: string,
               ghost first: nat, ghost early: string, ghost lines: seq<string>)
    modifies api, work
    ensures first == old(api.looks) && ticks <= fuel && (r.None? <==> ticks == fuel)
    ensures work.polled == old(work.polled) + ticks + if r.Some? then 1 else 0
    ensures work.stops == old(work.stops) + if GaveBack(r) then 1 else 0
    ensures OnlyComplains(early, lines, tag)
    ensures if GaveBack(r) then Yields(api, first, ticks, ours, tag, early, text) else text == early
    ensures r.Some? ==> Reports(work.ends(old(work.polled) + ticks), api.paused(first + ticks + 1), r.value)
    ensures AllGuarded(api, first, ticks, ours)
  {
    first := api.looks;
    r, ticks, text, early, lines := None, 0, "", "", [];
    var asked: Option<nat> := None;
    ghost var last: nat := 0;
    while ticks < fuel
      invariant ticks <= fuel && api.looks == first + ticks && r.None?
      invariant work.polled == old(work.polled) + ticks && work.stops == old(work.stops)
      invariant text == early && OnlyComplains(early, lines, tag)
      invariant AllGuarded(api, first, ticks, ours)
      invariant AskedLast(api, first, last, ticks, asked, ours)
    {
      var status := work.Poll();
      if status.Err? || status.value.Some? {
        r := Some(status);
        return;
      }
      var now := api.Now();
      var givesBack, said;
      givesBack, said, asked, last := AskWhenDue(api, ours, tag, asked, now, first, ticks, last);
      text := text + said;
      if givesBack {
        YieldsHere(api, first, ticks, ours, tag, early, said, api.looks);
        work.Stop();
        r := Some(Ok(None));
        return;
      }
      ComplainsOn(early, lines, tag, said);
      early, lines := text, lines + [said];
      AsksStill(api, first, last, ticks, asked, ours);
      var paused := api.Pause();
      if paused.Err? {
        r := Some(Err(paused.error));
        return;
      }
      ticks := ticks + 1;
    }
  }

  /** The clock runs on, and two looks of the guard at it are at most `step` apart. */
  ghost predicate Steady(api: Api, first: nat, ticks: nat, step: nat) {
    forall k | 0 <= k < ticks :: ClockStep(api, first, k, step)
  }

  ghost predicate ClockStep(api: Api, first: nat, k: nat, step: nat) {
    At(api, first, k) <= At(api, first, k + 1) <= At(api, first, k) + step
  }

  /** From `since` on, every question would say another project's job wants the Mac. */
  ghost predicate WantedFrom(api: Api, first: nat, ticks: nat, ours: u64, since: nat) {
    forall k | 0 <= k <= ticks && At(api, first, k) >= since :: WantedAt(api, first, k, ours)
  }

  lemma {:induction false} ClockRunsOn(api: Api, first: nat, ticks: nat, step: nat, j: nat, k: nat)
    requires Steady(api, first, ticks, step) && j <= k <= ticks
    ensures At(api, first, j) <= At(api, first, k)
  {
    if j < k {
      ClockRunsOn(api, first, ticks, step, j, k - 1);
      assert ClockStep(api, first, k - 1, step);
    }
  }

  /**
   A foreign job that stays gets the Mac in time: with looks at most `step` apart,
   the guard is past no tick a poll after the job came, so what it does next (stop
   the work, unless that ended) is within a poll and a step of it.
   */
  lemma GivesBackInTime(api: Api, first: nat, ticks: nat, step: nat, ours: u64, since: nat)
    requires AllGuarded(api, first, ticks, ours)
    requires Steady(api, first, ticks, step) && WantedFrom(api, first, ticks, ours, since)
    ensures forall k | 0 <= k < ticks :: At(api, first, k) < since + 3_000
    ensures ticks > 0 ==> At(api, first, ticks) < since + 3_000 + step
  {
    forall k | 0 <= k < ticks ensures At(api, first, k) < since + POLL {
      assert Guarded(api, first, k, ours);
      var j :| 0 <= j <= k && AsksAt(api, first, j, k, ours);
      ClockRunsOn(api, first, ticks, step, j, k);
    }
    if ticks > 0 {
      assert ClockStep(api, first, ticks - 1, step);
    }
  }

  /** Questions take no time, and a pause takes a tick. */
  ghost predicate ExactPauses(api: Api, first: nat, ticks: nat) {
    forall k | 0 <= k < ticks :: PausesTick(api, first, k)
  }

  ghost predicate PausesTick(api: Api, first: nat, k: nat) {
    At(api, first, k + 1) == At(api, first, k) + TICK
  }

  /** Then the guard's last look, the one it ends at, is within a poll and a tick of the job's coming. */
  lemma GivesBackByTheTick(api: Api, first: nat, ticks: nat, ours: u64, since: nat)
    requires AllGuarded(api, first, ticks, ours) && ticks > 0
    requires ExactPauses(api, first, ticks) && WantedFrom(api, first, ticks, ours, since)
    ensures At(api, first, ticks) < since + 3_100
  {
    forall k | 0 <= k < ticks ensures ClockStep(api, first, k, TICK) {
      assert PausesTick(api, first, k);
    }
    GivesBackInTime(api, first, ticks, TICK, ours, since);
  }
}
