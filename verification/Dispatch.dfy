/** Following a dispatched job to its verdict, and giving it up in time. */
module Dispatch {
  import opened Wrappers
  import opened Machine
  import opened Sequences
  import opened LogView
  import opened Gitlab

  /** Between two polls, between two readings of a log, and the longest wait for a Mac, in milliseconds. */
  const POLL: nat := 3_000
  const LOG_EVERY: nat := 15_000
  const PENDING_LIMIT: nat := 30_000

  const READY := "VM is ready."

  predicate Contains(s: string, part: string) {
    part <= s || (s != [] && Contains(s[1..], part))
  }

  ghost predicate Says(s: string, part: string) {
    exists k: nat :: Occurs(s, part, k)
  }

  lemma {:induction false} ContainsExactly(s: string, part: string)
    ensures Contains(s, part) <==> Says(s, part)
  {
    assert Occurs(s, part, 0) <==> part <= s;
    if s != [] {
      ContainsExactly(s[1..], part);
      forall k: nat ensures Occurs(s[1..], part, k) <==> Occurs(s, part, k + 1) {
        if k + 1 + |part| <= |s| {
          assert s[1..][k..k + |part|] == s[k + 1..k + 1 + |part|];
        }
      }
      forall k: nat | k > 0 && Occurs(s, part, k) ensures Occurs(s[1..], part, k - 1) {
        assert Occurs(s[1..], part, k - 1) <==> Occurs(s, part, k - 1 + 1);
      }
    }
  }

  function Since(then_: nat, at: nat): nat {
    if at < then_ then 0 else at - then_
  }

  // --- A poll of `follow`, told from what the environment answers it ---

  /** Asked after so many looks at the clock, the job has not ended. */
  ghost predicate Going(api: Api, looks: nat) {
    api.job(looks).Ok? && !HasEnded(api.job(looks).value)
  }

  ghost predicate Waiting(api: Api, looks: nat) {
    Going(api, looks) && api.job(looks).value.status in {"created", "pending", "waiting_for_resource"}
  }

  ghost predicate Up(api: Api, looks: nat) {
    !Waiting(api, looks) && api.trace(looks + 1).Ok? && Says(api.trace(looks + 1).value, "VM is ready.")
  }

  /** The `k`th poll asks about the job `first + k` looks in. */
  ghost predicate Answers(api: Api, first: nat, k: nat) {
    Going(api, first + k)
  }

  ghost predicate WaitsAt(api: Api, first: nat, k: nat) {
    Waiting(api, first + k)
  }

  /** By the `k`th poll the guest is up: the log of a poll it ran in said so. */
  ghost predicate ReadyBy(api: Api, first: nat, k: nat) {
    exists j :: 0 <= j < k && SaysReady(api, first, j)
  }

  ghost predicate SaysReady(api: Api, first: nat, j: nat) {
    Up(api, first + j)
  }

  /** The first poll that found it running. */
  ghost predicate RunsFrom(api: Api, first: nat, j: nat) {
    !WaitsAt(api, first, j) && forall i | 0 <= i < j :: WaitsAt(api, first, i)
  }

  /** No job of another project wants the Mac, when asked after so many looks. */
  ghost predicate Unwanted(api: Api, looks: nat, ours: u64) {
    && api.runner(looks).Ok?
    && if api.active(looks).Ok? then Foreign(api.runner(looks).value, ours, api.active(looks).value) == 0
       else forall own :: Foreign(api.runner(looks).value, ours, own) == 0
  }

  /** Within its limits at the `k`th poll: of waiting for the Mac, or of its guest coming up. */
  ghost predicate InTime(api: Api, first: nat, k: nat, started: nat, prepare: Option<nat>) {
    var at := api.clock(first + k);
    if WaitsAt(api, first, k) then at <= started + 30_000
    else
      prepare.None? || ReadyBy(api, first, k + 1)
      || forall j | 0 <= j <= k && RunsFrom(api, first, j) :: at <= api.clock(first + j) + prepare.value
  }

  /** A poll at which the job is to be given up: another project wants the Mac, or its time is over. */
  ghost predicate MustStop(api: Api, first: nat, k: nat, started: nat, prepare: Option<nat>, ours: u64) {
    !Unwanted(api, first + k + 1, ours) || !InTime(api, first, k, started, prepare)
  }

  /** A poll that neither ended the wait nor gave the job up. */
  ghost predicate GoesOn(api: Api, first: nat, k: nat, started: nat, prepare: Option<nat>, ours: u64) {
    && Answers(api, first, k)
    && !MustStop(api, first, k, started, prepare, ours)
    && api.paused(first + k + 1).Ok?
  }

  /** So many polls went on. */
  ghost predicate AllGoOn(api: Api, first: nat, polls: nat, started: nat, prepare: Option<nat>, ours: u64) {
    forall k | 0 <= k < polls :: GoesOn(api, first, k, started, prepare, ours)
  }

  lemma OneMoreGoesOn(api: Api, first: nat, k: nat, started: nat, prepare: Option<nat>, ours: u64)
    requires AllGoOn(api, first, k, started, prepare, ours) && GoesOn(api, first, k, started, prepare, ours)
    ensures AllGoOn(api, first, k + 1, started, prepare, ours)
  {
  }

  // --- How a follow may end ---

  /** The `k`th call saw the job end; all was calm before, and nothing failed or was cancelled after. */
  ghost predicate EndsAt(log: seq<Call>, k: nat) {
    && k < |log| && SawEnd(log[k]) && CalmFor(log, k)
    && forall j | k < j < |log| :: !log[j].Cancelled? && !FailedQuestion(log[j]) && !log[j].Paused? && !log[j].AskedJob?
  }

  /** It saw the job end, read its log last, and says the verdict of the two. */
  ghost predicate EndsSeen(log: seq<Call>, verdict: Verdict) {
    exists k: nat :: EndsAt(log, k) && log[|log| - 1].AskedTrace? && log[|log| - 1].trace.Ok?
      && VerdictOf(log[k].job.value, log[|log| - 1].trace.value) == Some(verdict)
  }

  ghost predicate GivenUp(log: seq<Call>) {
    log != [] && log[|log| - 1].Cancelled? && log[|log| - 1].done.Ok? && CalmFor(log, |log| - 1)
  }

  ghost predicate Signalled(log: seq<Call>, error: string) {
    && |log| >= 2 && log[|log| - 1].Cancelled? && CalmFor(log, |log| - 2)
    && log[|log| - 2].Paused? && log[|log| - 2].over.Err?
    && error == if log[|log| - 1].done.Err? then log[|log| - 1].done.error else "cancelled: " + log[|log| - 2].over.error
  }

  ghost predicate CancelFailed(log: seq<Call>, error: string) {
    log != [] && log[|log| - 1].Cancelled? && log[|log| - 1].done == Err(error) && CalmFor(log, |log| - 1)
  }

  /** A question failed last; before it nothing did, and nothing was cancelled. */
  ghost predicate Unanswered(log: seq<Call>, error: string) {
    && log != [] && FailsWith(log[|log| - 1], error)
    && forall k | 0 <= k < |log| - 1 :: !log[k].Cancelled? && !FailedQuestion(log[k])
  }

  /**
   How `follow` ended, by its calls: it saw the job end and says its verdict; or it
   gave the job up, cancelling it last; or a signal had it cancelled; or the cancel
   itself, or a question, failed.
   */
  ghost predicate Accounted(log: seq<Call>, r: Option<Result<Verdict, string>>) {
    match r
    case None => Calm(log)
    case Some(Ok(verdict)) => EndsSeen(log, verdict) || (GivenUp(log) && verdict.Yielded?)
    case Some(Err(error)) => Signalled(log, error) || CancelFailed(log, error) || Unanswered(log, error)
  }

  /** The cancels among the calls. */
  function Cancels(log: seq<Call>): nat {
    if log == [] then 0
    else Cancels(log[..|log| - 1]) + if log[|log| - 1].Cancelled? then 1 else 0
  }

  lemma {:induction false} CancelsNothing(log: seq<Call>)
    requires forall k | 0 <= k < |log| :: !log[k].Cancelled?
    ensures Cancels(log) == 0
  {
    if log != [] {
      CancelsNothing(log[..|log| - 1]);
    }
  }

  /** Nothing was seen to end, and every question got its answer. */
  ghost predicate Open(log: seq<Call>) {
    forall k | 0 <= k < |log| :: !SawEnd(log[k]) && !FailedQuestion(log[k])
  }

  ghost predicate CancelsAtEnd(log: seq<Call>) {
    log != [] && log[|log| - 1].Cancelled?
  }

  /** Only the last call may be a cancel, and then the job is open still; any other exit closed it. */
  lemma CancelsLast(log: seq<Call>, r: Option<Result<Verdict, string>>)
    requires Accounted(log, r)
    ensures forall k | 0 <= k < |log| && log[k].Cancelled? :: k == |log| - 1
    ensures CancelsAtEnd(log) ==> Open(log)
    ensures r.Some? && !CancelsAtEnd(log) ==> !Open(log)
  {
    if r.Some? && !CancelsAtEnd(log) {
      if r.value.Ok? {
        var k: nat :| EndsAt(log, k);
        assert SawEnd(log[k]);
      } else {
        assert FailedQuestion(log[|log| - 1]);
      }
    }
  }

  /**
   The discipline: the job is cancelled at most once, and then last; never once it
   was seen ended; and an exit cancelled it exactly when it did not see it end and
   every question got its answer.
   */
  lemma CancelDiscipline(log: seq<Call>, r: Option<Result<Verdict, string>>)
    requires Accounted(log, r)
    ensures Cancels(log) <= 1
    ensures Cancels(log) == 1 <==> CancelsAtEnd(log)
    ensures r.Some? ==>
      (Cancels(log) == 1 <==> forall k | 0 <= k < |log| :: !SawEnd(log[k]) && !FailedQuestion(log[k]))
  {
    CancelsLast(log, r);
    if log != [] {
      CancelsNothing(log[..|log| - 1]);
    }
    assert Open(log) <==> forall k | 0 <= k < |log| :: !SawEnd(log[k]) && !FailedQuestion(log[k]);
  }

  // --- What a follow that saw the job end says ---

  ghost predicate Answered(call: Call, status: string) {
    call.AskedJob? && call.job.Ok? && call.job.value.status == status
  }

  /** An answer was that the job succeeded. */
  ghost predicate SawSuccess(log: seq<Call>) {
    exists k :: 0 <= k < |log| && Answered(log[k], "success")
  }

  /** An answer was that it failed, for no reason but its script's, and the log then read has no line with the mark. */
  ghost predicate SawFailure(log: seq<Call>) {
    && log != [] && log[|log| - 1].AskedTrace? && log[|log| - 1].trace.Ok?
    && Unmarked(LinesOf(log[|log| - 1].trace.value))
    && exists k :: 0 <= k < |log| && Answered(log[k], "failed")
         && (log[k].job.value.failure == None || log[k].job.value.failure == Some("script_failure"))
  }

  /** Only one answer can be the last. */
  lemma EndsOnce(log: seq<Call>, k: nat, j: nat)
    requires EndsAt(log, k) && j < |log| && SawEnd(log[j])
    ensures j == k
  {
  }

  /** A verdict of passed is said exactly of an answer of success, and one of failed exactly of a failure of the script's. */
  lemma SaidExactly(log: seq<Call>, r: Option<Result<Verdict, string>>)
    requires Accounted(log, r) && r.Some? && r.value.Ok?
    ensures r.value.value == Passed <==> SawSuccess(log)
    ensures r.value.value == Failed <==> SawFailure(log)
  {
    if EndsSeen(log, r.value.value) {
      var k: nat :| EndsAt(log, k) && log[|log| - 1].AskedTrace? && log[|log| - 1].trace.Ok?
        && VerdictOf(log[k].job.value, log[|log| - 1].trace.value) == Some(r.value.value);
      VerdictExactly(log[k].job.value, log[|log| - 1].trace.value);
      forall j: nat | j < |log| && (Answered(log[j], "success") || Answered(log[j], "failed")) ensures j == k {
        EndsOnce(log, k, j);
      }
    } else {
      assert forall j | 0 <= j < |log| :: !SawEnd(log[j]);
    }
  }

  ghost predicate Rightly(log: seq<Call>, r: Option<Result<Verdict, string>>) {
    r.Some? && r.value.Ok? ==>
      && (r.value.value == Passed <==> SawSuccess(log))
      && (r.value.value == Failed <==> SawFailure(log))
  }

  lemma SaysRightly(log: seq<Call>, r: Option<Result<Verdict, string>>)
    requires Accounted(log, r)
    ensures Rightly(log, r)
  {
    if r.Some? && r.value.Ok? {
      SaidExactly(log, r);
    }
  }

  /** The log `Follow` makes of a first question without an answer: the job is neither seen ended nor cancelled. */
  lemma LeftRunning(at: nat, error: string)
    ensures var log := [Looked(at), AskedJob(Err(error))];
      && Accounted(log, Some(Err(error))) && Cancels(log) == 0
      && forall k | 0 <= k < |log| :: !SawEnd(log[k])
  {
    CancelsNothing([Looked(at), AskedJob(Err(error))]);
  }

  // --- The log as it is shown ---

  /** The logs read among the calls. */
  function Traces(log: seq<Call>): seq<string> {
    if log == [] then []
    else
      var last := log[|log| - 1];
      Traces(log[..|log| - 1]) + if last.AskedTrace? && last.trace.Ok? then [last.trace.value] else []
  }

  lemma TracesSnoc(log: seq<Call>, call: Call)
    ensures Traces(log + [call]) ==
      Traces(log) + if call.AskedTrace? && call.trace.Ok? then [call.trace.value] else []
  {
    assert (log + [call])[..|log|] == log;
  }

  lemma {:induction false} TracesJoin(a: seq<Call>, b: seq<Call>)
    ensures Traces(a + b) == Traces(a) + Traces(b)
  {
    if b == [] {
      assert a + b == a;
    } else {
      var n := |b| - 1;
      TracesJoin(a, b[..n]);
      Assoc(a, b[..n], [b[n]]);
      assert b == b[..n] + [b[n]];
      TracesSnoc(a + b[..n], b[n]);
      Assoc(Traces(a), Traces(b[..n]), Traces(b)[|Traces(b[..n])|..]);
    }
  }

  ghost predicate Traceless(log: seq<Call>) {
    forall k | 0 <= k < |log| :: !log[k].AskedTrace?
  }

  lemma {:induction false} NoTraces(log: seq<Call>)
    requires Traceless(log)
    ensures Traces(log) == []
  {
    if log != [] {
      NoTraces(log[..|log| - 1]);
    }
  }

  /** What was written of the logs read, the first byte not shown: each line of the last, once. */
  ghost predicate Written(seen: seq<string>, text: string, shown: nat) {
    Growing(seen) ==>
      if seen == [] then text == [] && shown == 0
      else text == Render(seen[|seen| - 1]) && shown == WholeLines(seen[|seen| - 1])
  }

  /** However the log grew between reads, its last reading's whole lines were written, once each. */
  ghost predicate LogShown(seen: seq<string>, text: string) {
    Growing(seen) ==> text == if seen == [] then [] else Render(seen[|seen| - 1])
  }

  /** At most one more log, shown from where the last was left. */
  ghost predicate Adds(more: seq<string>, shown: nat, news: string, far: nat) {
    if more == [] then news == [] && far == shown
    else (|more| == 1 && ShowsFrom(more[0], shown, news, far))
  }

  ghost predicate ShowsFrom(trace: string, shown: nat, news: string, far: nat) {
    && news == (if shown <= |trace| then Render(trace[shown..]) else [])
    && far == (if shown <= |trace| then shown + WholeLines(trace[shown..]) else shown)
  }

  lemma WrittenOn(seen: seq<string>, text: string, shown: nat, more: seq<string>, news: string, far: nat)
    requires Written(seen, text, shown) && Adds(more, shown, news, far)
    ensures Written(seen + more, text + news, far)
  {
    if more == [] {
      assert seen + more == seen && text + news == text;
    } else if seen == [] {
      assert more[0][0..] == more[0] && text + news == news;
      assert seen + more == more;
    } else {
      assert (seen + more)[|seen|] == more[0] && |seen + more| == |seen| + 1;
      if Growing(seen + more) {
        GrowingLess(seen, more);
        WrittenNext(seen[|seen| - 1], text, shown, more[0], news, far);
      }
    }
  }

  lemma GrowingLess(seen: seq<string>, more: seq<string>)
    requires Growing(seen + more) && seen != [] && more != []
    ensures Growing(seen) && seen[|seen| - 1] <= more[0]
  {
    var all := seen + more;
    forall k | 0 < k < |seen| ensures seen[k - 1] <= seen[k] {
      assert all[k - 1] <= all[k];
    }
    assert all[|seen| - 1] <= all[|seen|];
  }

  lemma WrittenNext(was: string, text: string, shown: nat, trace: string, news: string, far: nat)
    requires was <= trace && text == Render(was) && shown == WholeLines(was) && ShowsFrom(trace, shown, news, far)
    ensures text + news == Render(trace) && far == WholeLines(trace)
  {
    ShownOnce(was, trace);
  }

  /** What a poll's calls add to those before it. */
  lemma PollAdds(before: seq<Call>, log: seq<Call>, more: seq<Call>, r: Option<Result<Verdict, string>>,
                 text: string, shown: nat, news: string, far: nat)
    requires Calm(log) && Accounted(more, r) && more != []
    requires Written(Traces(log), text, shown) && Adds(Traces(more), shown, news, far)
    ensures (before + log) + more == before + (log + more)
    ensures Accounted(log + more, r) && (log + more)[|log + more| - 1] == more[|more| - 1]
    ensures Written(Traces(log + more), text + news, far) && LogShown(Traces(log + more), text + news)
  {
    Assoc(before, log, more);
    AccountedOn(log, more, r);
    TracesJoin(log, more);
    WrittenOn(Traces(log), text, shown, Traces(more), news, far);
  }

  /** The two halves of a poll. */
  lemma HalvesJoin(before: seq<Call>, log: seq<Call>, half: seq<Call>, r: Option<Result<Verdict, string>>)
    requires Calm(log) && Accounted(half, r) && Traceless(half)
    ensures (before + log) + half == before + (log + half)
    ensures Accounted(log + half, r) && Traces(log + half) == Traces(log)
  {
    Assoc(before, log, half);
    AccountedOn(log, half, r);
    TracesJoin(log, half);
    NoTraces(half);
  }

  // --- follow ---

  /** What accounts for the job after some calls does after calm ones too. */
  lemma AccountedOn(log: seq<Call>, more: seq<Call>, r: Option<Result<Verdict, string>>)
    requires Calm(log) && Accounted(more, r)
    ensures Accounted(log + more, r)
  {
    if r.Some? && r.value.Ok? && EndsSeen(more, r.value.value) {
      EndsSeenOn(log, more, r.value.value);
    } else {
      Shifted(log, more);
    }
  }

  lemma Shifted(log: seq<Call>, more: seq<Call>)
    requires Calm(log)
    ensures var all := log + more;
      && (Calm(more) ==> Calm(all))
      && (GivenUp(more) ==> GivenUp(all))
      && (forall error :: Signalled(more, error) ==> Signalled(all, error))
      && (forall error :: CancelFailed(more, error) ==> CancelFailed(all, error))
      && (forall error :: Unanswered(more, error) ==> Unanswered(all, error))
  {
  }

  lemma EndsSeenOn(log: seq<Call>, more: seq<Call>, verdict: Verdict)
    requires Calm(log) && EndsSeen(more, verdict)
    ensures EndsSeen(log + more, verdict)
  {
    var k: nat :| EndsAt(more, k) && more[|more| - 1].AskedTrace? && more[|more| - 1].trace.Ok?
      && VerdictOf(more[k].job.value, more[|more| - 1].trace.value) == Some(verdict);
    EndsLater(log, more, k);
    var all := log + more;
    assert all[|all| - 1] == more[|more| - 1] && all[|log| + k] == more[k];
  }

  lemma EndsLater(log: seq<Call>, more: seq<Call>, k: nat)
    requires Calm(log) && EndsAt(more, k)
    ensures EndsAt(log + more, |log| + k)
  {
    var all, n := log + more, |log|;
    forall j | n + k < j < |all|
      ensures !all[j].Cancelled? && !FailedQuestion(all[j]) && !all[j].Paused? && !all[j].AskedJob?
    {
      assert all[j] == more[j - n];
    }
    forall j | 0 <= j < n + k ensures IsCalm(all[j]) {
      assert all[j] == if j < n then log[j] else more[j - n];
    }
  }

  /** Why the job is given up, when no one wants the Mac: not taken in time, or no guest in time. */
  function GiveUp(waiting: bool, started: nat, at: nat, since: nat, prepare: Option<nat>, ready: bool, tag: string): Option<string> {
    if waiting then
      if Since(started, at) > PENDING_LIMIT then Some(tag + " did not take it in 30s") else None
    else if prepare.Some? && !ready && Since(since, at) > prepare.value then
      Some("no guest on " + tag + ": the image is not on it yet")
    else None
  }

  /** What the loop knows of the polls so far: whether the guest was seen up, and since when it runs. */
  ghost predicate Follows(api: Api, first: nat, polls: nat, ready: bool, runningSince: Option<nat>) {
    && (ready <==> ReadyBy(api, first, polls))
    && match runningSince
       case None => forall k | 0 <= k < polls :: WaitsAt(api, first, k)
       case Some(since) => exists j :: 0 <= j < polls && RunsFrom(api, first, j) && since == api.clock(first + j)
  }

  lemma FollowsOn(api: Api, first: nat, k: nat, ready: bool, runningSince: Option<nat>, readyNow: bool)
    requires Follows(api, first, k, ready, runningSince) && Answers(api, first, k)
    requires readyNow <==> ready || SaysReady(api, first, k)
    ensures var at := api.clock(first + k);
      Follows(api, first, k + 1, readyNow,
              if WaitsAt(api, first, k) || runningSince.Some? then runningSince else Some(at))
  {
    if runningSince.None? && !WaitsAt(api, first, k) {
      assert RunsFrom(api, first, k);
    }
  }

  /** The first poll that found the job running is one. */
  lemma OneStart(api: Api, first: nat, i: nat, j: nat)
    requires RunsFrom(api, first, i) && RunsFrom(api, first, j)
    ensures i == j
  {
  }

  lemma InTimeHere(api: Api, first: nat, k: nat, started: nat, prepare: Option<nat>, ready: bool, since: nat, tag: string)
    requires WaitsAt(api, first, k) || Follows(api, first, k + 1, ready, Some(since))
    ensures InTime(api, first, k, started, prepare) <==>
      GiveUp(WaitsAt(api, first, k), started, api.clock(first + k), since, prepare, ready, tag).None?
  {
    if !WaitsAt(api, first, k) {
      var j :| 0 <= j < k + 1 && RunsFrom(api, first, j) && since == api.clock(first + j);
      assert 0 <= j <= k && RunsFrom(api, first, j);
      forall i | 0 <= i <= k && RunsFrom(api, first, i) ensures i == j {
        OneStart(api, first, i, j);
      }
    }
  }

  /** A poll reads the log while the guest is not up, the first time, and `LOG_EVERY` after it last did. */
  predicate Due(ready: bool, logged: Option<nat>, at: nat) {
    !ready || logged.None? || Since(logged.value, at) >= LOG_EVERY
  }

  function LogSays(state: Job, trace: Result<string, string>): Option<Result<Verdict, string>> {
    if trace.Err? then Some(Err(trace.error))
    else match VerdictOf(state, trace.value)
      case None => None
      case Some(verdict) => Some(Ok(verdict))
  }

  function TraceRead(trace: Result<string, string>): seq<string> {
    if trace.Ok? then [trace.value] else []
  }

  /** A job's state, a look at the clock and its log account for what is said of it. */
  lemma ReadAccounts(before: seq<Call>, asked: Result<Job, string>, at: nat, call: Call, log: seq<Call>,
                     r: Option<Result<Verdict, string>>)
    requires asked.Ok? && log == [AskedJob(asked), Looked(at), call]
    requires call.AskedTrace? && r == LogSays(asked.value, call.trace)
    ensures Accounted(log, r) && Traces(log) == TraceRead(call.trace)
    ensures before + [AskedJob(asked)] + [Looked(at)] + [call] == before + log
    ensures r.None? ==> call.trace.Ok? && !HasEnded(asked.value)
  {
    var early := [AskedJob(asked), Looked(at)];
    NoTraces(early);
    TracesSnoc(early, call);
    assert early + [call] == log;
    if call.trace.Ok? {
      EndedHasVerdict(asked.value, call.trace.value);
      if r.Some? {
        assert EndsAt(log, 0);
      }
    }
  }

  /** Without its log read, they do when it has not ended. */
  lemma LookAccounts(before: seq<Call>, asked: Result<Job, string>, at: nat, log: seq<Call>)
    requires asked.Ok? && !HasEnded(asked.value) && log == [AskedJob(asked), Looked(at)]
    ensures Accounted(log, None) && Traces(log) == [] && before + [AskedJob(asked)] + [Looked(at)] == before + log
  {
    NoTraces(log);
  }

  lemma JobUnanswered(asked: Result<Job, string>, log: seq<Call>)
    requires asked.Err? && log == [AskedJob(asked)]
    ensures Accounted(log, Some(Err(asked.error))) && Traces(log) == []
  {
    NoTraces(log);
  }

  /** What the first half of a poll that goes on tells, and that it read the log when that was due. */
  ghost predicate Asked(api: Api, looks: nat, ready: bool, logged: Option<nat>,
                        waiting: bool, at: nat, readyNow: bool, loggedNow: Option<nat>, seen: seq<string>) {
    && at == api.clock(looks) && Going(api, looks)
    && (waiting <==> Waiting(api, looks))
    && (readyNow <==> ready || Up(api, looks))
    && (seen != [] <==> !waiting && (!ready || logged.None? || logged.value + 15_000 <= at))
    && loggedNow == if seen != [] then Some(at) else logged
  }

  lemma ReadAsks(api: Api, looks: nat, ready: bool, logged: Option<nat>, state: Job, trace: Result<string, string>)
    requires api.job(looks) == Ok(state) && !HasEnded(state) && !IsWaiting(state)
    requires Due(ready, logged, api.clock(looks)) && trace.Ok? && trace == api.trace(looks + 1)
    ensures Asked(api, looks, ready, logged, false, api.clock(looks),
                  ready || Contains(trace.value, READY), Some(api.clock(looks)), TraceRead(trace))
  {
    ContainsExactly(trace.value, READY);
  }

  lemma LookAsks(api: Api, looks: nat, ready: bool, logged: Option<nat>, state: Job)
    requires api.job(looks) == Ok(state) && !HasEnded(state)
    requires IsWaiting(state) || !Due(ready, logged, api.clock(looks))
    ensures Asked(api, looks, ready, logged, IsWaiting(state), api.clock(looks), ready, logged, [])
  {
  }

  /** Where the job's question gets no answer, nothing else is asked and the error is what there is to say. */
  ghost predicate LeavesAt(api: Api, looks: nat, log: seq<Call>, r: Option<Result<Verdict, string>>) {
    api.job(looks).Err? ==> log == [AskedJob(api.job(looks))] && r == Some(Err(api.job(looks).error))
  }

  /** Likewise of a whole follow and its first question. */
  ghost predicate LeavesFirst(api: Api, first: nat, log: seq<Call>, r: Option<Result<Verdict, string>>, started: nat) {
    api.job(first).Err? ==>
      log == [Looked(started), AskedJob(api.job(first))] && r == Some(Err(api.job(first).error))
  }

  /** The calls so far: the look it started with, or some after the first answer. */
  ghost predicate Begun(api: Api, first: nat, polls: nat, log: seq<Call>, started: nat) {
    if polls == 0 then log == [Looked(started)] else api.job(first).Ok?
  }

  lemma LeavesOn(api: Api, first: nat, polls: nat, log: seq<Call>, more: seq<Call>,
                 r: Option<Result<Verdict, string>>, started: nat)
    requires Begun(api, first, polls, log, started) && LeavesAt(api, first + polls, more, r)
    ensures LeavesFirst(api, first, log + more, r, started)
  {
  }

  /** The first half of a poll: the job, the clock, and the log when it is due or the job ended. */
  method AskJob(api: Api, ready: bool, logged: Option<nat>)
      returns (r: Option<Result<Verdict, string>>, waiting: bool, at: nat, readyNow: bool, loggedNow: Option<nat>,
               trace: Option<string>, ghost log: seq<Call>)
    modifies api
    ensures api.calls == old(api.calls) + log && Accounted(log, r)
    ensures log != [] && !log[|log| - 1].Cancelled?
    ensures Traces(log) == if trace.Some? then [trace.value] else []
    ensures r.None? ==>
      && api.looks == old(api.looks) + 1
      && Asked(api, old(api.looks), ready, logged, waiting, at, readyNow, loggedNow, Traces(log))
    ensures LeavesAt(api, old(api.looks), log, r)
  {
    readyNow, loggedNow, trace, waiting, at := ready, logged, None, false, 0;
    ghost var before, looks := api.calls, api.looks;
    var asked := api.Job();
    if asked.Err? {
      log := [AskedJob(asked)];
      JobUnanswered(asked, log);
      return Some(Err(asked.error)), waiting, at, readyNow, loggedNow, trace, log;
    }
    var state := asked.value;
    waiting := IsWaiting(state);
    at := api.Now();
    EndedNotWaiting(state);
    if !waiting && (HasEnded(state) || Due(ready, logged, at)) {
      var read := api.Trace();
      r := LogSays(state, read);
      if read.Ok? {
        trace, readyNow := Some(read.value), ready || Contains(read.value, READY);
      }
      loggedNow := Some(at);
      log := [AskedJob(asked), Looked(at), AskedTrace(read)];
      ReadAccounts(before, asked, at, AskedTrace(read), log, r);
      if r.None? {
        ReadAsks(api, looks, ready, logged, state, read);
      }
    } else {
      r, log := None, [AskedJob(asked), Looked(at)];
      LookAccounts(before, asked, at, log);
      LookAsks(api, looks, ready, logged, state);
    }
  }

  /** How the second half of a poll came out, asked after so many looks. */
  ghost predicate Held(api: Api, looks: nat, ours: u64, tag: string, late: Option<string>,
                       r: Option<Result<Verdict, string>>)
  {
    && (r.None? ==> late.None? && Unwanted(api, looks, ours) && api.paused(looks).Ok?)
    && (r.Some? && r.value.Ok? ==>
          if Unwanted(api, looks, ours) then late.Some? && r.value.value == Yielded(late.value)
          else WantedSays(api, looks, ours, tag, r.value.value))
  }

  /** A job given up as wanted says by how many jobs of others. */
  ghost predicate WantedSays(api: Api, looks: nat, ours: u64, tag: string, verdict: Verdict) {
    && api.runner(looks).Ok? && api.active(looks).Ok?
    && verdict == Yielded(Reason(Min(Foreign(api.runner(looks).value, ours, api.active(looks).value), U64_MAX), tag))
  }

  /** What a job given up at the `k`th poll was given up for, and no other word. */
  ghost predicate GivenUpFor(api: Api, first: nat, k: nat, started: nat, prepare: Option<nat>, ours: u64, tag: string, verdict: Verdict) {
    if !Unwanted(api, first + k + 1, ours) then WantedSays(api, first + k + 1, ours, tag, verdict)
    else
      && !InTime(api, first, k, started, prepare)
      && verdict == Yielded(if WaitsAt(api, first, k) then tag + " did not take it in 30s"
                            else "no guest on " + tag + ": the image is not on it yet")
  }

  /**
   The second half of a poll that found the job going. Of the reasons to give it
   up another project's job comes before the time; without either it pauses, and
   a pause cut short gives the job up too.
   */
  method Hold(api: Api, ours: u64, tag: string, late: Option<string>)
      returns (r: Option<Result<Verdict, string>>, ghost log: seq<Call>)
    modifies api`calls
    ensures api.calls == old(api.calls) + log && Accounted(log, r) && Traceless(log)
    ensures Held(api, api.looks, ours, tag, late, r)
  {
    var wanted, questions := api.Wanted(ours, tag);
    log := questions;
    if wanted.Err? {
      return Some(Err(wanted.error)), log;
    }
    var why := if wanted.value.Some? then wanted.value else late;
    if why.Some? {
      var done := api.Cancel();
      log := log + [Cancelled(done)];
      return Some(if done.Err? then Err(done.error) else Ok(Yielded(why.value))), log;
    }
    var paused := api.Pause();
    log := log + [Paused(paused)];
    if paused.Err? {
      var done := api.Cancel();
      log := log + [Cancelled(done)];
      return Some(Err(if done.Err? then done.error else "cancelled: " + paused.error)), log;
    }
    return None, log;
  }

  /** One poll: either it goes on, or its calls account for how it ended. */
  method Poll(api: Api, ours: u64, tag: string, prepare: Option<nat>, started: nat, ghost first: nat, ghost k: nat,
              ready: bool, runningSince: Option<nat>, logged: Option<nat>, shown: nat)
      returns (r: Option<Result<Verdict, string>>, readyNow: bool, sinceNow: Option<nat>, loggedNow: Option<nat>,
               news: string, far: nat, ghost log: seq<Call>)
    requires api.looks == first + k && Follows(api, first, k, ready, runningSince)
    modifies api
    ensures api.calls == old(api.calls) + log && log != [] && Accounted(log, r)
    ensures Adds(Traces(log), shown, news, far)
    ensures r.None? ==>
      && api.looks == first + k + 1
      && GoesOn(api, first, k, started, prepare, ours)
      && Follows(api, first, k + 1, readyNow, sinceNow)
    ensures r.Some? && r.value.Ok? && log[|log| - 1].Cancelled? ==>
      GivenUpFor(api, first, k, started, prepare, ours, tag, r.value.value)
    ensures LeavesAt(api, first + k, log, r)
  {
    sinceNow := runningSince;
    var waiting, at;
    var trace;
    r, waiting, at, readyNow, loggedNow, trace, log := AskJob(api, ready, logged);
    news, far := "", shown;
    if trace.Some? {
      news, far := Show(trace.value, shown);
    }
    if r.Some? {
      return;
    }
    FollowsOn(api, first, k, ready, runningSince, readyNow);
    if !waiting && sinceNow.None? {
      sinceNow := Some(at);
    }
    var since := if sinceNow.Some? then sinceNow.value else at;
    var late := GiveUp(waiting, started, at, since, prepare, readyNow, tag);
    ghost var half;
    r, half := Hold(api, ours, tag, late);
    HalvesJoin(old(api.calls), log, half, r);
    log := log + half;
    PollDecides(api, first, k, started, prepare, ours, readyNow, since, tag, late, api.looks, r);
  }

  /**
   `follow` until it ends or `fuel` polls went on: every poll that went on was one
   to go on at, and a job given up was wanted by others or out of its time; and
   however it ended, its calls account for the job.
   */
  method Follow(api: Api, ours: u64, tag: string, prepare: Option<nat>, fuel: nat)
      returns (r: Option<Result<Verdict, string>>, polls: nat, started: nat, text: string,
               ghost first: nat, ghost log: seq<Call>)
    modifies api
    ensures first == old(api.looks) + 1 && started == api.clock(old(api.looks))
    ensures api.calls == old(api.calls) + log && log != [] && Accounted(log, r)
    ensures LogShown(Traces(log), text)
    ensures polls <= fuel && (r.None? <==> polls == fuel)
    ensures AllGoOn(api, first, polls, started, prepare, ours)
    ensures r.Some? && r.value.Ok? && log[|log| - 1].Cancelled? ==>
      GivenUpFor(api, first, polls, started, prepare, ours, tag, r.value.value)
    ensures fuel > 0 ==> LeavesFirst(api, first, log, r, started)
    ensures Rightly(log, r)
  {
    started := api.Now();
    first := api.looks;
    r, polls, text, log := None, 0, "", [Looked(started)];
    var runningSince: Option<nat>, logged: Option<nat>, ready, shown := None, None, false, 0;
    NoTraces(log);
    while polls < fuel
      invariant polls <= fuel && api.looks == first + polls
      invariant api.calls == old(api.calls) + log && log != [] && Calm(log) && r.None?
      invariant AllGoOn(api, first, polls, started, prepare, ours)
      invariant Follows(api, first, polls, ready, runningSince)
      invariant Written(Traces(log), text, shown) && LogShown(Traces(log), text)
      invariant Begun(api, first, polls, log, started)
    {
      var news, far;
      ghost var more;
      r, ready, runningSince, logged, news, far, more :=
        Poll(api, ours, tag, prepare, started, first, polls, ready, runningSince, logged, shown);
      PollAdds(old(api.calls), log, more, r, text, shown, news, far);
      LeavesOn(api, first, polls, log, more, r, started);
      text, shown, log := text + news, far, log + more;
      if r.Some? {
        SaysRightly(log, r);
        return;
      }
      OneMoreGoesOn(api, first, polls, started, prepare, ours);
      FirstAnswered(api, first, polls, started, prepare, ours, log);
      polls := polls + 1;
    }
  }

  lemma FirstAnswered(api: Api, first: nat, k: nat, started: nat, prepare: Option<nat>, ours: u64, log: seq<Call>)
    requires AllGoOn(api, first, k + 1, started, prepare, ours)
    ensures Begun(api, first, k + 1, log, started)
  {
    assert GoesOn(api, first, 0, started, prepare, ours);
  }

  /** The second half goes on exactly when it may, and gives up only when it must. */
  lemma PollDecides(api: Api, first: nat, k: nat, started: nat, prepare: Option<nat>, ours: u64, ready: bool,
                    since: nat, tag: string, late: Option<string>, looks: nat, r: Option<Result<Verdict, string>>)
    requires Answers(api, first, k) && (WaitsAt(api, first, k) || Follows(api, first, k + 1, ready, Some(since)))
    requires late == GiveUp(WaitsAt(api, first, k), started, api.clock(first + k), since, prepare, ready, tag)
    requires looks == first + k + 1 && Held(api, looks, ours, tag, late, r)
    ensures r.None? ==> GoesOn(api, first, k, started, prepare, ours)
    ensures r.Some? && r.value.Ok? ==> GivenUpFor(api, first, k, started, prepare, ours, tag, r.value.value)
  {
    InTimeHere(api, first, k, started, prepare, ready, since, tag);
  }
}
