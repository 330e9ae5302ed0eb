/**
 How a commit pushed to `gate` reaches main: pushes replace `gate`, their runs
 overlap and may stand aside, and a green run's `promote` fast-forwards main.

 A commit is the sequence of ids from the root to it, so "is an ancestor of" is
 "is a prefix of". A land reads main and pushes in one step here; `StaleLand`
 at the end splits the two.
 */
module Landing {
  import opened Wrappers

  type Commit = seq<nat>

  /** A run's e2e job: not queued, queued for a Mac, running, or ended. */
  datatype E2e = Unplanned | Waiting | Running | Passed | Failed

  /** The gate's lanes, taken together. */
  datatype Lanes = Going | Green | Red

  /** One run of the gate. `cases`: its plan reaches an e2e case. */
  datatype Run = Run(commit: Commit, cases: bool, planned: bool, e2e: E2e, lanes: Lanes,
                     cancelled: bool, byHand: bool, promoted: bool)

  datatype World = World(main: Commit, tip: Option<Commit>, runs: seq<Run>)

  /** What can happen to one run. `read` says whether it could read `gate`'s tip. */
  datatype Event =
    | PlanEnds(read: bool)
    | E2eStarts(read: bool)
    | E2eEnds(passed: bool)
    | LanesEnd(passed: bool)
    | Promote
    | Rerun
    | CancelByHand

  datatype Step = Land(head: Commit, reaches: bool) | Of(i: nat, event: Event)

  function Start(main: Commit): World {
    World(main, None, [])
  }

  function NewRun(head: Commit, cases: bool): Run {
    Run(head, cases, false, Unplanned, Going, false, false, false)
  }

  /** The tip, where it was read, is not the run's commit. */
  predicate StandsAside(tip: Option<Commit>, commit: Commit) {
    tip.Some? && tip.value != commit
  }

  /** Every lane green, and the e2e passed or none chosen. */
  predicate AllGreen(run: Run) {
    run.lanes == Green && if run.cases then run.e2e == Passed else run.planned
  }

  predicate IsRed(run: Run) {
    run.lanes == Red || run.e2e == Failed
  }

  predicate Allows(run: Run, event: Event) {
    match event
    case PlanEnds(_) => !run.cancelled && !run.planned
    case E2eStarts(_) => !run.cancelled && run.e2e == Waiting
    case E2eEnds(_) => !run.cancelled && run.e2e == Running
    case LanesEnd(_) => !run.cancelled && run.lanes == Going
    case Promote => !run.cancelled && !run.promoted && AllGreen(run)
    case Rerun => !run.promoted && (run.cancelled || IsRed(run))
    case CancelByHand => !run.cancelled && !run.promoted
  }

  /** A land is refused unless the commit is past main, on top of it. */
  predicate Enabled(w: World, s: Step) {
    match s
    case Land(head, _) => w.main <= head && head != w.main
    case Of(i, event) => i < |w.runs| && Allows(w.runs[i], event)
  }

  /** A run's plan or e2e job asks whether it stands aside; if so the whole run is cancelled. */
  function Ask(tip: Option<Commit>, run: Run, read: bool, goOn: Run): Run {
    if run.cases && StandsAside(if read then tip else None, run.commit)
    then run.(planned := true, cancelled := true)
    else goOn
  }

  function After(tip: Option<Commit>, run: Run, event: Event): Run {
    match event
    case PlanEnds(read) =>
      Ask(tip, run, read, run.(planned := true, e2e := if run.cases then Waiting else Unplanned))
    case E2eStarts(read) => Ask(tip, run, read, run.(e2e := Running))
    case E2eEnds(passed) => run.(e2e := if passed then Passed else Failed)
    case LanesEnd(passed) => run.(lanes := if passed then Green else Red)
    case Promote => run.(promoted := true)
    case Rerun =>
      run.(cancelled := false, byHand := false,
           e2e := if run.planned && run.cases then Waiting else Unplanned,
           lanes := if run.lanes == Red then Going else run.lanes)
    case CancelByHand => run.(cancelled := true, byHand := true)
  }

  /** Where main is once a run at `commit` promoted: there, if `gate` holds it and main is under it. */
  function Promoted(w: World, commit: Commit): Commit {
    if w.tip.Some? && commit <= w.tip.value && w.main <= commit then commit else w.main
  }

  function Apply(w: World, s: Step): World
    requires Enabled(w, s)
  {
    match s
    case Land(head, reaches) =>
      // A push of the commit `gate` is already at changes nothing and starts no run.
      if w.tip == Some(head) then w
      else w.(tip := Some(head), runs := w.runs + [NewRun(head, reaches)])
    case Of(i, event) =>
      var run := w.runs[i];
      World(if event.Promote? then Promoted(w, run.commit) else w.main, w.tip,
            w.runs[i := After(w.tip, run, event)])
  }

  /** `steps`, one after another, lead from `w` to `w'`. */
  ghost predicate Leads(w: World, steps: seq<Step>, w': World)
    decreases |steps|
  {
    if steps == [] then w == w'
    else Enabled(w, steps[0]) && Leads(Apply(w, steps[0]), steps[1..], w')
  }

  // --- What every step keeps ---

  ghost predicate RunKept(run: Run) {
    && (run.e2e != Unplanned ==> run.planned && run.cases)
    && (run.planned && run.cases && !run.cancelled ==> run.e2e != Unplanned)
    && (run.promoted ==> AllGreen(run) && !run.cancelled)
    && (run.byHand ==> run.cancelled)
  }

  ghost predicate RunsKept(w: World) {
    forall k | 0 <= k < |w.runs| :: RunKept(w.runs[k])
  }

  /** Main is where it started, or at the commit of a run whose lanes and e2e all passed. */
  ghost predicate MainIsGreen(main0: Commit, w: World) {
    w.main == main0
    || exists i :: 0 <= i < |w.runs| && w.runs[i].promoted && w.runs[i].commit == w.main
  }

  /** The last push's run: its commit is the tip, it stands aside for nothing, and once it promoted main is at the tip. */
  ghost predicate LastRunKept(w: World) {
    w.runs != [] ==>
      var last := w.runs[|w.runs| - 1];
      && w.tip == Some(last.commit)
      && (last.cancelled ==> last.byHand)
      && (last.promoted ==> w.main == last.commit)
  }

  ghost predicate Kept(main0: Commit, w: World) {
    && main0 <= w.main
    && (w.tip.Some? <==> w.runs != [])
    && (w.tip.Some? ==> w.main <= w.tip.value)
    && RunsKept(w)
    && (forall i | 0 <= i < |w.runs| :: main0 < w.runs[i].commit)
    && MainIsGreen(main0, w)
    && LastRunKept(w)
  }

  lemma LandKeeps(main0: Commit, w: World, s: Step)
    requires Kept(main0, w) && Enabled(w, s) && s.Land?
    ensures Kept(main0, Apply(w, s))
  {
    if w.tip != Some(s.head) {
      var w' := Apply(w, s);
      if w.main != main0 {
        var i :| 0 <= i < |w.runs| && w.runs[i].promoted && w.runs[i].commit == w.main;
        assert w'.runs[i] == w.runs[i];
      }
    }
  }

  /** What an event keeps of its own run. */
  lemma EventKeeps(tip: Option<Commit>, run: Run, event: Event)
    requires RunKept(run) && Allows(run, event)
    ensures RunKept(After(tip, run, event))
    ensures After(tip, run, event).commit == run.commit
    ensures run.promoted ==> After(tip, run, event).promoted
    ensures tip == Some(run.commit) && (run.cancelled ==> run.byHand) ==>
      After(tip, run, event).cancelled ==> After(tip, run, event).byHand
  {
  }

  lemma EventStepKeeps(main0: Commit, w: World, i: nat, event: Event)
    requires Kept(main0, w) && Enabled(w, Of(i, event))
    ensures Kept(main0, Apply(w, Of(i, event)))
  {
    var w' := Apply(w, Of(i, event));
    EventKeeps(w.tip, w.runs[i], event);
    assert forall k | 0 <= k < |w.runs| && k != i :: w'.runs[k] == w.runs[k];
    if w'.main == w.main {
      if w.main != main0 {
        var k :| 0 <= k < |w.runs| && w.runs[k].promoted && w.runs[k].commit == w.main;
        assert w'.runs[k].promoted && w'.runs[k].commit == w.main;
      }
    } else {
      assert w'.runs[i].promoted && w'.runs[i].commit == w'.main;
    }
  }

  lemma StepKeeps(main0: Commit, w: World, s: Step)
    requires Kept(main0, w) && Enabled(w, s)
    ensures Kept(main0, Apply(w, s))
  {
    match s
    case Land(_, _) => LandKeeps(main0, w, s);
    case Of(i, event) => EventStepKeeps(main0, w, i, event);
  }

  /** Safety over whole runs: every state any steps lead to keeps all of `Kept`. */
  lemma {:induction false} ReachableKeeps(main0: Commit, w: World, steps: seq<Step>, w': World)
    requires Kept(main0, w) && Leads(w, steps, w')
    ensures Kept(main0, w')
    decreases |steps|
  {
    if steps != [] {
      StepKeeps(main0, w, steps[0]);
      ReachableKeeps(main0, Apply(w, steps[0]), steps[1..], w');
    }
  }

  /** A state CI can be in, main having started at `main0`. */
  ghost predicate Reachable(main0: Commit, w: World) {
    exists steps :: Leads(Start(main0), steps, w)
  }

  lemma MainUnderGate(main0: Commit, w: World)
    requires Reachable(main0, w)
    ensures Kept(main0, w)
  {
    var steps :| Leads(Start(main0), steps, w);
    ReachableKeeps(main0, Start(main0), steps, w);
  }

  /**
   Main moves only by a promote, forward, to the commit of a run that is all
   green, and only while `gate` holds that commit.
   */
  lemma MainMovesOnGreen(w: World, s: Step)
    requires Enabled(w, s) && Apply(w, s).main != w.main
    ensures s.Of? && s.event.Promote? && AllGreen(w.runs[s.i])
    ensures Apply(w, s).main == w.runs[s.i].commit
    ensures w.main < Apply(w, s).main
    ensures w.tip.Some? && Apply(w, s).main <= w.tip.value
  {
  }

  lemma {:induction false} MainOnlyForward(w: World, steps: seq<Step>, w': World)
    requires Leads(w, steps, w')
    ensures w.main <= w'.main
    decreases |steps|
  {
    if steps != [] {
      if Apply(w, steps[0]).main != w.main {
        MainMovesOnGreen(w, steps[0]);
      }
      MainOnlyForward(Apply(w, steps[0]), steps[1..], w');
    }
  }

  /**
   `promote` is never refused as "not on top of main": a commit `gate` holds is
   under main or past it.
   */
  lemma PromoteFastForwards(main0: Commit, w: World, commit: Commit)
    requires Reachable(main0, w) && w.tip.Some? && commit <= w.tip.value
    ensures commit <= w.main || w.main <= commit
  {
    MainUnderGate(main0, w);
    if |commit| <= |w.main| {
      assert commit == w.tip.value[..|commit|] == w.main[..|commit|];
    } else {
      assert w.main == w.tip.value[..|w.main|] == commit[..|w.main|];
    }
  }

  /** The latest push's run never stands aside: only a hand cancels it. */
  lemma LatestNeverStandsAside(main0: Commit, w: World)
    requires Reachable(main0, w) && w.runs != []
    ensures var last := w.runs[|w.runs| - 1]; last.cancelled ==> last.byHand
    ensures w.tip == Some(w.runs[|w.runs| - 1].commit)
  {
    MainUnderGate(main0, w);
  }

  // --- Standing aside ---

  /**
   A run's plan that ends, or its e2e that starts, after a push of another commit
   has the whole run cancelled, if it reached a case and could read where `gate` is; in
   any other case it goes on.
   */
  lemma AsideExactly(w: World, i: nat, event: Event)
    requires Enabled(w, Of(i, event)) && (event.PlanEnds? || event.E2eStarts?)
    ensures var run, after := w.runs[i], Apply(w, Of(i, event)).runs[i];
      && (after.cancelled <==> run.cases && event.read && w.tip.Some? && w.tip.value != run.commit)
      && (!after.cancelled ==>
            after.e2e == if event.E2eStarts? then E2e.Running else if run.cases then E2e.Waiting else E2e.Unplanned)
      && (event.PlanEnds? ==> after.planned)
      && after.commit == run.commit && after.cases == run.cases && after.lanes == run.lanes && after.byHand == run.byHand
  {
  }

  /** The `i`th run's e2e runs, or ran. */
  ghost predicate Started(w: World, i: nat) {
    i < |w.runs| && w.runs[i].e2e in {Running, Passed, Failed}
  }

  /** After `k` of the steps the `i`th run's e2e starts; if it reads where `gate` is, that is at its commit. */
  ghost predicate StartsAt(w: World, steps: seq<Step>, k: nat, mid: World, i: nat, read: bool) {
    && k < |steps| && Leads(w, steps[..k], mid) && steps[k] == Of(i, E2eStarts(read))
    && i < |mid.runs| && (mid.runs[i].cases && read && mid.tip.Some? ==> mid.tip == Some(mid.runs[i].commit))
  }

  lemma StartsHere(w: World, s: Step, i: nat)
    requires Enabled(w, s) && !Started(w, i) && Started(Apply(w, s), i)
    ensures s.Of? && s.i == i && s.event.E2eStarts?
    ensures i < |w.runs| &&
      (w.runs[i].cases && s.event.read && w.tip.Some? ==> w.tip == Some(w.runs[i].commit))
  {
    if s.Of? && s.i == i && s.event.E2eStarts? {
      AsideExactly(w, i, s.event);
    }
  }

  /** Over any steps no e2e starts once `gate` is read at another commit: each was started at its own. */
  lemma {:induction false} NoE2eStartsBehind(w: World, steps: seq<Step>, w': World, i: nat)
      returns (k: nat, mid: World, read: bool)
    requires Leads(w, steps, w') && !Started(w, i) && Started(w', i)
    ensures StartsAt(w, steps, k, mid, i, read)
    decreases |steps|
  {
    var s, next := steps[0], Apply(w, steps[0]);
    if Started(next, i) {
      StartsHere(w, s, i);
      k, mid, read := 0, w, s.event.read;
    } else {
      var j;
      j, mid, read := NoE2eStartsBehind(next, steps[1..], w', i);
      k := j + 1;
      assert steps[..k][0] == s && steps[..k][1..] == steps[1..][..j];
    }
  }

  // --- What was done before main moved ---

  lemma StepDid(w: World, s: Step, i: nat)
    requires Enabled(w, s) && i < |Apply(w, s).runs| && RunsKept(w)
    ensures var after := Apply(w, s).runs[i];
      if i < |w.runs| then
        && after.commit == w.runs[i].commit && after.cases == w.runs[i].cases
        && (after.planned ==> w.runs[i].planned || exists read :: s == Of(i, PlanEnds(read)))
        && (after.lanes == Green ==> w.runs[i].lanes == Green || s == Of(i, LanesEnd(true)))
        && (after.e2e == Passed ==> w.runs[i].e2e == Passed || s == Of(i, E2eEnds(true)))
        && (after.promoted ==> w.runs[i].promoted || s == Of(i, Promote))
      else
        && s == Land(after.commit, after.cases)
        && !after.planned && after.lanes != Green && after.e2e != Passed && !after.promoted
  {
    if i < |w.runs| && s.Of? && s.i == i && s.event.PlanEnds? {
      assert s == Of(i, PlanEnds(s.event.read));
    }
  }

  lemma StepKeepsRuns(w: World, s: Step)
    requires Enabled(w, s) && RunsKept(w)
    ensures RunsKept(Apply(w, s))
  {
    if s.Of? {
      EventKeeps(w.tip, w.runs[s.i], s.event);
    }
  }

  /** Of a run: where it comes from, and that its plan, its lanes, its e2e and its promote were not done before these steps. */
  ghost predicate Done(w: World, steps: seq<Step>, w': World, i: nat)
    requires i < |w'.runs|
  {
    var run := w'.runs[i];
    && (i < |w.runs| ==> run.commit == w.runs[i].commit && run.cases == w.runs[i].cases)
    && (i >= |w.runs| ==> Land(run.commit, run.cases) in steps)
    && (run.planned && (i < |w.runs| ==> !w.runs[i].planned) ==> exists read :: Of(i, PlanEnds(read)) in steps)
    && (run.lanes == Green && (i < |w.runs| ==> w.runs[i].lanes != Green) ==> Of(i, LanesEnd(true)) in steps)
    && (run.e2e == Passed && (i < |w.runs| ==> w.runs[i].e2e != Passed) ==> Of(i, E2eEnds(true)) in steps)
    && (run.promoted && (i < |w.runs| ==> !w.runs[i].promoted) ==> Of(i, Promote) in steps)
  }

  lemma {:induction false} WasDone(w: World, steps: seq<Step>, w': World, i: nat)
    requires Leads(w, steps, w') && i < |w'.runs| && RunsKept(w)
    ensures Done(w, steps, w', i)
    decreases |steps|
  {
    if steps != [] {
      var next := Apply(w, steps[0]);
      StepKeepsRuns(w, steps[0]);
      WasDone(next, steps[1..], w', i);
      assert forall s :: s in steps <==> s == steps[0] || s in steps[1..];
      if i < |next.runs| {
        StepDid(w, steps[0], i);
      }
    }
  }

  /**
   Whatever happened, main is where it started or at a commit that was landed, planned,
   passed by every lane, by its e2e if its plan reached a case, and promoted.
   */
  lemma MainWasChecked(main0: Commit, steps: seq<Step>, w: World) returns (i: nat, cases: bool, read: bool)
    requires Leads(Start(main0), steps, w) && w.main != main0
    ensures Land(w.main, cases) in steps && Of(i, PlanEnds(read)) in steps && Of(i, LanesEnd(true)) in steps
    ensures (cases ==> Of(i, E2eEnds(true)) in steps) && Of(i, Promote) in steps
  {
    ReachableKeeps(main0, Start(main0), steps, w);
    i :| 0 <= i < |w.runs| && w.runs[i].promoted && w.runs[i].commit == w.main;
    cases := w.runs[i].cases;
    WasDone(Start(main0), steps, w, i);
    read :| Of(i, PlanEnds(read)) in steps;
  }

  /** A run that is re-run passes by another end of its e2e, whatever the one before was. */
  lemma PassesAgain(w: World, steps: seq<Step>, w': World, i: nat)
    requires steps != [] && steps[0] == Of(i, Rerun) && Leads(w, steps, w') && RunsKept(w)
    ensures i < |w'.runs|
    ensures !w.runs[i].promoted && (w.runs[i].cancelled || w.runs[i].lanes == Red || w.runs[i].e2e == Failed)
    ensures w'.runs[i].e2e == Passed ==> Of(i, E2eEnds(true)) in steps[1..]
    ensures w.runs[i].lanes == Red && w'.runs[i].lanes == Green ==> Of(i, LanesEnd(true)) in steps[1..]
  {
    StepKeepsRuns(w, steps[0]);
    RunsStay(Apply(w, steps[0]), steps[1..], w');
    WasDone(Apply(w, steps[0]), steps[1..], w', i);
  }

  /** No two pushes after each other are of one commit. */
  ghost predicate PushesDiffer(w: World) {
    && (w.runs != [] ==> w.tip == Some(w.runs[|w.runs| - 1].commit))
    && forall k | 0 < k < |w.runs| :: w.runs[k].commit != w.runs[k - 1].commit
  }

  lemma {:induction false} PushesDifferStill(w: World, steps: seq<Step>, w': World)
    requires PushesDiffer(w) && Leads(w, steps, w')
    ensures PushesDiffer(w')
    decreases |steps|
  {
    if steps != [] {
      var next := Apply(w, steps[0]);
      assert forall k | 0 <= k < |w.runs| :: next.runs[k].commit == w.runs[k].commit;
      PushesDifferStill(next, steps[1..], w');
    }
  }

  // --- Once nothing more happens ---

  /** Nothing more happens unless someone lands, re-runs or cancels. */
  ghost predicate Settled(w: World) {
    forall i: nat, event: Event | Enabled(w, Of(i, event)) :: event.Rerun? || event.CancelByHand?
  }

  lemma SettledRun(w: World, i: nat)
    requires Settled(w) && i < |w.runs| && RunKept(w.runs[i])
    ensures var run := w.runs[i]; run.cancelled || IsRed(run) || (AllGreen(run) && run.promoted)
  {
    var run := w.runs[i];
    assert !Enabled(w, Of(i, PlanEnds(true)));
    assert !Enabled(w, Of(i, E2eStarts(true)));
    assert !Enabled(w, Of(i, E2eEnds(true)));
    assert !Enabled(w, Of(i, LanesEnd(true)));
    assert !Enabled(w, Of(i, Promote));
  }

  ghost predicate Fine(run: Run) {
    !IsRed(run) && !run.byHand
  }

  lemma KeptConverges(main0: Commit, w: World)
    requires Kept(main0, w) && Settled(w) && w.runs != []
    ensures Fine(w.runs[|w.runs| - 1]) ==> w.tip == Some(w.main)
  {
    SettledRun(w, |w.runs| - 1);
  }

  /**
   Convergence: over every interleaving of lands, stand-asides, ends, re-runs and
   cancels, once nothing more happens main is at `gate`'s tip, unless the latest
   push's own run went red or was cancelled by hand. What older runs did is no matter.
   */
  lemma GateConverges(main0: Commit, w: World)
    requires Reachable(main0, w) && Settled(w)
    requires w.runs != [] && Fine(w.runs[|w.runs| - 1])
    ensures w.tip == Some(w.main)
  {
    MainUnderGate(main0, w);
    KeptConverges(main0, w);
  }

  ghost predicate PushedOnce(w: World) {
    forall i, j | 0 <= i < j < |w.runs| :: w.runs[i].commit != w.runs[j].commit
  }

  /** With no commit pushed twice, the latest run's end decides it both ways. */
  lemma GateConvergesExactly(main0: Commit, w: World)
    requires Reachable(main0, w) && Settled(w) && w.runs != [] && PushedOnce(w)
    ensures w.tip == Some(w.main) <==> Fine(w.runs[|w.runs| - 1])
  {
    MainUnderGate(main0, w);
    var n := |w.runs| - 1;
    if Fine(w.runs[n]) {
      GateConverges(main0, w);
    }
    if w.tip == Some(w.main) {
      assert main0 < w.runs[n].commit;
      var i :| 0 <= i < |w.runs| && w.runs[i].promoted && w.runs[i].commit == w.main;
      assert i == n;
    }
  }

  /** How many events a run can still see, unless it is re-run. */
  function Left(run: Run): nat {
    if run.cancelled then 0
    else
      (if run.planned then 0 else 1)
      + (match run.e2e case Unplanned => 3 case Waiting => 2 case Running => 1 case _ => 0)
      + (if run.lanes == Going then 1 else 0)
      + (if run.promoted then 0 else 1)
  }

  function AllLeft(runs: seq<Run>): nat {
    if runs == [] then 0 else AllLeft(runs[..|runs| - 1]) + Left(runs[|runs| - 1])
  }

  lemma {:induction false} OneLess(runs: seq<Run>, i: nat, run: Run)
    requires i < |runs| && Left(run) < Left(runs[i])
    ensures AllLeft(runs[i := run]) < AllLeft(runs)
  {
    var n := |runs| - 1;
    if i < n {
      OneLess(runs[..n], i, run);
      assert runs[i := run][..n] == runs[..n][i := run];
    } else {
      assert runs[i := run][..n] == runs[..n];
    }
  }

  /** With no more lands or re-runs, only so many events are left, so everything settles. */
  lemma {:induction false} EventsRunOut(w: World, steps: seq<Step>, w': World)
    requires Leads(w, steps, w') && RunsKept(w)
    requires forall s | s in steps :: s.Of? && !s.event.Rerun?
    ensures |steps| <= AllLeft(w.runs) <= 6 * |w.runs|
    decreases |steps|
  {
    FewLeft(w.runs);
    if steps != [] {
      var s := steps[0];
      assert s in steps;
      var next := Apply(w, s);
      EventKeeps(w.tip, w.runs[s.i], s.event);
      assert next.runs == w.runs[s.i := After(w.tip, w.runs[s.i], s.event)];
      OneLess(w.runs, s.i, After(w.tip, w.runs[s.i], s.event));
      forall t | t in steps[1..] ensures t.Of? && !t.event.Rerun? {
        assert t in steps;
      }
      EventsRunOut(next, steps[1..], w');
    }
  }

  lemma {:induction false} FewLeft(runs: seq<Run>)
    ensures AllLeft(runs) <= 6 * |runs|
  {
    if runs != [] {
      FewLeft(runs[..|runs| - 1]);
    }
  }

  // --- How main gets there ---

  lemma {:induction false} LeadsOn(w: World, steps: seq<Step>, mid: World, s: Step)
    requires Leads(w, steps, mid) && Enabled(mid, s)
    ensures Leads(w, steps + [s], Apply(mid, s))
    decreases |steps|
  {
    if steps == [] {
      assert steps + [s] == [s];
    } else {
      assert (steps + [s])[1..] == steps[1..] + [s];
      LeadsOn(Apply(w, steps[0]), steps[1..], mid, s);
    }
  }

  /** The `i`th run is of the tip, and on top of main. */
  ghost predicate Newest(w: World, i: nat, run: Run) {
    i < |w.runs| && w.runs[i] == run && w.tip == Some(run.commit) && w.main <= run.commit
  }

  /** One more event of it. */
  lemma Goes(from: World, steps: seq<Step>, w: World, i: nat, run: Run, event: Event)
      returns (more: seq<Step>, w': World, run': Run)
    requires Leads(from, steps, w) && Newest(w, i, run) && Allows(run, event) && !event.Promote?
    ensures more == steps + [Of(i, event)] && Leads(from, more, w')
    ensures run' == After(Some(run.commit), run, event) && Newest(w', i, run')
  {
    more, w', run' := steps + [Of(i, event)], Apply(w, Of(i, event)), After(w.tip, run, event);
    LeadsOn(from, steps, w, Of(i, event));
  }

  /** The e2e of a run, started where `gate` is at its commit, and its end. */
  lemma E2eDone(from: World, steps: seq<Step>, w: World, i: nat, run: Run, passed: bool)
      returns (more: seq<Step>, w': World, run': Run)
    requires Leads(from, steps, w) && Newest(w, i, run) && !run.cancelled && run.e2e == Waiting
    ensures more == steps + [Of(i, E2eStarts(true)), Of(i, E2eEnds(passed))] && Leads(from, more, w')
    ensures run' == run.(e2e := if passed then E2e.Passed else E2e.Failed) && Newest(w', i, run')
  {
    more, w', run' := Goes(from, steps, w, i, run, E2eStarts(true));
    more, w', run' := Goes(from, more, w', i, run', E2eEnds(passed));
  }

  lemma PromoteTakes(from: World, steps: seq<Step>, w: World, i: nat, run: Run) returns (w': World)
    requires Leads(from, steps, w) && Newest(w, i, run) && !run.cancelled && !run.promoted && AllGreen(run)
    ensures Leads(from, steps + [Of(i, Promote)], w') && w'.main == run.commit
  {
    w' := Apply(w, Of(i, Promote));
    LeadsOn(from, steps, w, Of(i, Promote));
  }

  lemma Landed(w: World, head: Commit, cases: bool) returns (w': World)
    requires Enabled(w, Land(head, cases)) && w.tip != Some(head)
    ensures Leads(w, [Land(head, cases)], w') && Newest(w', |w.runs|, NewRun(head, cases))
  {
    w' := Apply(w, Land(head, cases));
    LeadsOn(w, [], w, Land(head, cases));
    assert [] + [Land(head, cases)] == [Land(head, cases)];
  }

  /** From any state a commit that may land and whose checks all pass takes main. */
  lemma GreenReachesMain(w: World, head: Commit, cases: bool) returns (steps: seq<Step>, w': World)
    requires Enabled(w, Land(head, cases)) && w.tip != Some(head)
    ensures var i := |w.runs|;
      steps == [Land(head, cases)] + [Of(i, PlanEnds(true))] + [Of(i, LanesEnd(true))]
        + (if cases then [Of(i, E2eStarts(true)), Of(i, E2eEnds(true))] else []) + [Of(i, Promote)]
    ensures Leads(w, steps, w') && w'.main == head
  {
    var i, run := |w.runs|, NewRun(head, cases);
    steps := [Land(head, cases)];
    w' := Landed(w, head, cases);
    steps, w', run := Goes(w, steps, w', i, run, PlanEnds(true));
    steps, w', run := Goes(w, steps, w', i, run, LanesEnd(true));
    if cases {
      steps, w', run := E2eDone(w, steps, w', i, run, true);
    }
    w' := PromoteTakes(w, steps, w', i, run);
    steps := steps + [Of(i, Promote)];
  }

  /** So does one whose e2e fails first, and its lanes too unless `green`, once it is re-run and they pass. */
  lemma RetriedReachesMain(w: World, head: Commit, green: bool) returns (steps: seq<Step>, w': World)
    requires Enabled(w, Land(head, true)) && w.tip != Some(head)
    ensures var i := |w.runs|;
      steps == [Land(head, true)] + [Of(i, PlanEnds(true))] + [Of(i, LanesEnd(green))]
        + [Of(i, E2eStarts(true)), Of(i, E2eEnds(false))] + [Of(i, Rerun)]
        + [Of(i, E2eStarts(true)), Of(i, E2eEnds(true))]
        + (if green then [] else [Of(i, LanesEnd(true))]) + [Of(i, Promote)]
    ensures Leads(w, steps, w') && w'.main == head
  {
    var i, run := |w.runs|, NewRun(head, true);
    steps := [Land(head, true)];
    w' := Landed(w, head, true);
    steps, w', run := Goes(w, steps, w', i, run, PlanEnds(true));
    steps, w', run := Goes(w, steps, w', i, run, LanesEnd(green));
    steps, w', run := E2eDone(w, steps, w', i, run, false);
    steps, w', run := Goes(w, steps, w', i, run, Rerun);
    steps, w', run := E2eDone(w, steps, w', i, run, true);
    if !green {
      steps, w', run := Goes(w, steps, w', i, run, LanesEnd(true));
    }
    w' := PromoteTakes(w, steps, w', i, run);
    steps := steps + [Of(i, Promote)];
  }

  /** Once nothing more happens, exactly the runs that did not promote can be re-run. */
  lemma SettledReruns(main0: Commit, w: World, i: nat)
    requires Reachable(main0, w) && Settled(w) && i < |w.runs|
    ensures Enabled(w, Of(i, Rerun)) <==> !w.runs[i].promoted
  {
    MainUnderGate(main0, w);
    SettledRun(w, i);
  }

  // --- What `land --wait` says of a commit ---

  /** What is found once a run ended: main's head and `gate`'s, what each holds, the red jobs. */
  datatype Gate = Gate(main: Commit, holds: bool, red: seq<string>, tip: Option<Commit>, carries: bool)

  datatype Next =
    | Held(main: Commit)
    | Failing(red: seq<string>)
    | Follow(tip: Option<Commit>)
    | Withdrawn(tip: Option<Commit>)
    | Ended

  /** The wait's answer, by the first of the findings that settles it. */
  function Decide(gate: Gate, sha: Commit): Next {
    if gate.holds then Held(gate.main)
    else if gate.red != [] then Failing(gate.red)
    else if !gate.carries then Withdrawn(gate.tip)
    else if gate.tip != Some(sha) then Follow(gate.tip)
    else Ended
  }

  function Look(main: Commit, tip: Option<Commit>, red: seq<string>, head: Commit): Gate {
    Gate(main, head <= main, red, tip, tip.Some? && head <= tip.value)
  }

  /**
   When each answer is given: held exactly when main holds the commit; to follow a
   run only when its commit carries the landed one, is another than the run's
   own and nothing was red; ended without a word only when `gate` is still at
   the run's own commit.
   */
  lemma DecideTells(main: Commit, tip: Option<Commit>, red: seq<string>, head: Commit, sha: Commit)
    ensures var next := Decide(Look(main, tip, red, head), sha);
      && (next.Held? <==> head <= main)
      && (next.Failing? <==> !(head <= main) && red != [])
      && (next.Follow? <==> !(head <= main) && red == [] && tip.Some? && head <= tip.value && tip.value != sha)
      && (next.Held? ==> next.main == main) && (next.Failing? ==> next.red == red)
      && (next.Follow? || next.Withdrawn? ==> next.tip == tip)
      && (next.Withdrawn? <==> !(head <= main) && red == [] && !(tip.Some? && head <= tip.value))
      && (next.Ended? <==> !(head <= main) && red == [] && tip == Some(sha) && head <= sha)
  {
  }

  /**
   Once everything settled and the latest run is fine, the wait on any commit
   whose run was not red ends for good: held if main carries it, withdrawn if a
   later land replaced it; never `Ended`, never told to follow another run.
   */
  lemma EveryCommitHeldOrWithdrawn(main0: Commit, w: World, head: Commit, sha: Commit)
    requires Reachable(main0, w) && Settled(w)
    requires w.runs != [] && Fine(w.runs[|w.runs| - 1])
    ensures Decide(Look(w.main, w.tip, [], head), sha)
         == if head <= w.main then Held(w.main) else Withdrawn(Some(w.main))
  {
    GateConverges(main0, w);
  }

  // --- A land whose push comes later than its look at main ---

  /**
   A land that read main some time ago and pushes now: the lease holds `gate` where
   it was, but nothing holds main.
   */
  function StaleLand(w: World, head: Commit, reaches: bool): World {
    w.(tip := Some(head), runs := w.runs + [NewRun(head, reaches)])
  }

  /** What happens once pushes may come late: all that did, and a push past a main of before. */
  datatype Happening = Prompt(step: Step) | Late(head: Commit, reaches: bool)

  /** Every main there was is `main0` or past it, so a land that passed its look has a head past `main0`. */
  predicate Can(main0: Commit, w: World, h: Happening) {
    match h
    case Prompt(step) => Enabled(w, step)
    case Late(head, _) => main0 < head
  }

  function Happens(main0: Commit, w: World, h: Happening): World
    requires Can(main0, w, h)
  {
    match h
    case Prompt(step) => Apply(w, step)
    case Late(head, reaches) => StaleLand(w, head, reaches)
  }

  ghost predicate LeadsLate(main0: Commit, w: World, hs: seq<Happening>, w': World)
    decreases |hs|
  {
    if hs == [] then w == w'
    else Can(main0, w, hs[0]) && LeadsLate(main0, Happens(main0, w, hs[0]), hs[1..], w')
  }

  /** What is still kept: all but where main is to `gate`. */
  ghost predicate Loose(main0: Commit, w: World) {
    && main0 <= w.main
    && (w.tip.Some? <==> w.runs != [])
    && RunsKept(w)
    && (forall i | 0 <= i < |w.runs| :: main0 < w.runs[i].commit)
    && MainIsGreen(main0, w)
    && (w.runs != [] ==>
          var last := w.runs[|w.runs| - 1];
          w.tip == Some(last.commit) && (last.cancelled ==> last.byHand))
  }

  lemma PushLoose(main0: Commit, w: World, head: Commit, reaches: bool)
    requires Loose(main0, w) && main0 < head
    ensures Loose(main0, StaleLand(w, head, reaches))
  {
    var w' := StaleLand(w, head, reaches);
    if w.main != main0 {
      var i :| 0 <= i < |w.runs| && w.runs[i].promoted && w.runs[i].commit == w.main;
      assert w'.runs[i] == w.runs[i];
    }
  }

  lemma EventLoose(main0: Commit, w: World, i: nat, event: Event)
    requires Loose(main0, w) && Enabled(w, Of(i, event))
    ensures Loose(main0, Apply(w, Of(i, event)))
  {
    var w' := Apply(w, Of(i, event));
    EventKeeps(w.tip, w.runs[i], event);
    assert forall k | 0 <= k < |w.runs| && k != i :: w'.runs[k] == w.runs[k];
    if w'.main == w.main {
      if w.main != main0 {
        var k :| 0 <= k < |w.runs| && w.runs[k].promoted && w.runs[k].commit == w.main;
        assert w'.runs[k].promoted && w'.runs[k].commit == w.main;
      }
    } else {
      assert w'.runs[i].promoted && w'.runs[i].commit == w'.main;
    }
  }

  lemma HappeningLoose(main0: Commit, w: World, h: Happening)
    requires Loose(main0, w) && Can(main0, w, h)
    ensures Loose(main0, Happens(main0, w, h))
  {
    match h
    case Late(head, reaches) => PushLoose(main0, w, head, reaches);
    case Prompt(Land(head, reaches)) =>
      if w.tip != Some(head) {
        PushLoose(main0, w, head, reaches);
      }
    case Prompt(Of(i, event)) => EventLoose(main0, w, i, event);
  }

  lemma {:induction false} LateKeepsLoose(main0: Commit, w: World, hs: seq<Happening>, w': World)
    requires Loose(main0, w) && LeadsLate(main0, w, hs, w')
    ensures Loose(main0, w')
    decreases |hs|
  {
    if hs != [] {
      HappeningLoose(main0, w, hs[0]);
      LateKeepsLoose(main0, Happens(main0, w, hs[0]), hs[1..], w');
    }
  }

  /** A late push gives back all that every state keeps exactly when its commit is on top of main then. */
  lemma StaleLandKeepsExactly(main0: Commit, w: World, head: Commit, reaches: bool)
    requires Loose(main0, w) && main0 < head
    ensures Kept(main0, StaleLand(w, head, reaches)) <==> w.main <= head
  {
    PushLoose(main0, w, head, reaches);
  }

  /** Once main is not under `gate`, only a land can change either. */
  lemma {:induction false} Stranded(w: World, steps: seq<Step>, w': World)
    requires Leads(w, steps, w') && forall s | s in steps :: s.Of?
    requires w.tip.Some? && !(w.main <= w.tip.value)
    ensures w'.main == w.main && w'.tip == w.tip
    decreases |steps|
  {
    if steps != [] {
      assert steps[0] in steps;
      if Apply(w, steps[0]).main != w.main {
        MainMovesOnGreen(w, steps[0]);
        assert false;
      }
      forall s | s in steps[1..] ensures s.Of? {
        assert s in steps;
      }
      Stranded(Apply(w, steps[0]), steps[1..], w');
    }
  }

  lemma {:induction false} RunsStay(w: World, steps: seq<Step>, w': World)
    requires Leads(w, steps, w')
    ensures |w.runs| <= |w'.runs|
    decreases |steps|
  {
    if steps != [] {
      RunsStay(Apply(w, steps[0]), steps[1..], w');
    }
  }

  /**
   After any number of late pushes and all else, the last push alone decides: once
   nothing more happens and its own run is fine, main took its commit exactly when
   that was on top of main as it was pushed. Otherwise the commit is stranded.
   */
  lemma StaleLandSettles(main0: Commit, hs: seq<Happening>, w: World, head: Commit, reaches: bool,
                         steps: seq<Step>, w': World)
    requires LeadsLate(main0, Start(main0), hs, w) && main0 < head
    requires Leads(StaleLand(w, head, reaches), steps, w') && forall s | s in steps :: s.Of?
    requires Settled(w')
    ensures w'.runs != []
    ensures Fine(w'.runs[|w'.runs| - 1]) ==> (w'.tip == Some(w'.main) <==> w.main <= head)
  {
    LateKeepsLoose(main0, Start(main0), hs, w);
    var w1 := StaleLand(w, head, reaches);
    RunsStay(w1, steps, w');
    if w.main <= head {
      StaleLandKeepsExactly(main0, w, head, reaches);
      ReachableKeeps(main0, w1, steps, w');
      KeptConverges(main0, w');
    } else {
      Stranded(w1, steps, w');
    }
  }

  /**
   With main moved between the look and the push, every run can be green and the
   latest commit still stranded: the land was in order at its look and `gate` where
   it was at the push, and `land --wait` says `Ended` of it.
   */
  lemma StaleLandStrands()
    ensures exists look, w, w': World, before, steps ::
      && Reachable([0], look) && LandsLate(look, before, w, [0, 2]) && StrandsAt(w, [0, 2], steps, w')
  {
    var look := FirstPassed();
    var w := FirstLanded();
    FirstPasses(look, w);
    var w' := Finish(StaleLand(w, [0, 2], false), 1);
    SecondStrands(w, w');
    assert LandsLate(look, [Of(0, Promote)], w, [0, 2]);
    assert StrandsAt(w, [0, 2], Finishing(1), w');
  }

  /** A land of `head` in order at its look, and main, but not `gate`, moved by its push. */
  ghost predicate LandsLate(look: World, before: seq<Step>, w: World, head: Commit) {
    Enabled(look, Land(head, false)) && Leads(look, before, w) && w.tip == look.tip && w.main != look.main
  }

  /** Pushed then, all goes green and the commit is left off main. */
  ghost predicate StrandsAt(w: World, head: Commit, steps: seq<Step>, w': World) {
    && Leads(StaleLand(w, head, false), steps, w')
    && Settled(w') && (forall i | 0 <= i < |w'.runs| :: AllGreen(w'.runs[i]))
    && w'.tip != Some(w'.main)
    && Decide(Look(w'.main, w'.tip, [], head), head) == Ended
  }

  lemma SecondStrands(w: World, w': World)
    requires w == FirstLanded() && w' == Finish(StaleLand(w, [0, 2], false), 1)
    ensures StrandsAt(w, [0, 2], Finishing(1), w')
  {
    var w1 := StaleLand(w, [0, 2], false);
    FinishLeads(w1, 1);
    Unrelated([0, 1], [0, 2]);
    assert w'.main == [0, 1] && w'.tip == Some([0, 2]);
    AllPromotedSettles(w');
  }

  lemma Unrelated(a: Commit, b: Commit)
    requires |a| == |b| == 2 && a[1] != b[1]
    ensures !(a <= b) && !(b <= a)
  {
  }

  lemma AllPromotedSettles(w: World)
    requires forall run | run in w.runs :: run.promoted && run.planned && run.e2e == Unplanned && run.lanes == Green
    ensures Settled(w)
  {
  }

  /** `[0, 1]` landed on `[0]`, green and promoted. */
  function FirstLanded(): World {
    World([0, 1], Some([0, 1]), [Run([0, 1], false, true, Unplanned, Green, false, false, true)])
  }

  /** And just before its promote. */
  function FirstPassed(): World {
    World([0], Some([0, 1]), [Run([0, 1], false, true, Unplanned, Green, false, false, false)])
  }

  lemma FirstPasses(look: World, w: World)
    requires look == FirstPassed() && w == FirstLanded()
    ensures Reachable([0], look) && Leads(look, [Of(0, Promote)], w)
  {
    var s := [Land([0, 1], false), Of(0, PlanEnds(true)), Of(0, LanesEnd(true))];
    var w0 := Start([0]);
    var w1 := Apply(w0, s[0]);
    var w2 := Apply(w1, s[1]);
    var w3 := Apply(w2, s[2]);
    assert w3.runs == look.runs && w3 == look;
    assert s[1..][1..] == s[2..] && s[2..][1..] == s[3..] && s[3..] == [];
    assert Leads(w2, s[2..], look) && s[1..][0] == s[1];
    assert Leads(w1, s[1..], look);
    assert Leads(w0, s, look);
    var promote := [Of(0, Promote)];
    assert promote[1..] == [];
    assert Apply(look, promote[0]).runs == w.runs;
  }

  /** Run `i`, fresh and with no e2e chosen, from its plan to its promote. */
  function Finishing(i: nat): seq<Step> {
    [Of(i, PlanEnds(true)), Of(i, LanesEnd(true)), Of(i, Promote)]
  }

  function Finish(w: World, i: nat): World
    requires i < |w.runs|
  {
    var run := w.runs[i];
    World(Promoted(w, run.commit), w.tip,
          w.runs[i := run.(planned := true, lanes := Green, promoted := true)])
  }

  lemma FinishLeads(w: World, i: nat)
    requires i < |w.runs| && w.runs[i] == NewRun(w.runs[i].commit, false)
    ensures Leads(w, Finishing(i), Finish(w, i))
  {
    var s := Finishing(i);
    var a := Apply(w, s[0]);
    var b := Apply(a, s[1]);
    var c := Apply(b, s[2]);
    assert c.runs == Finish(w, i).runs;
    assert Leads(c, s[3..], Finish(w, i));
    assert s[2..][0] == s[2] && s[2..][1..] == s[3..];
    assert Leads(b, s[2..], Finish(w, i));
    assert s[1..][0] == s[1] && s[1..][1..] == s[2..];
    assert Leads(a, s[1..], Finish(w, i));
  }
}
