/**
 GitLab and the clock as `follow` and `guard` meet them: anything may be answered
 at any time, and a look at the clock reads anything. Every call is kept, with its
 answer, so what was done can be told from the history.
 */
module Gitlab {
  import opened Wrappers
  import opened Machine
  import opened Decimal
  import opened LogView

  /** A runner's answer: whether it takes jobs, and its jobs, listed in part and counted in full. */
  datatype Runner = Runner(takes: bool, running: seq<u64>, runningCount: u64, pending: seq<u64>, pendingCount: u64)

  /** How many of `ids` are our job or one of the project's own. */
  function Known(ids: seq<u64>, ours: u64, own: seq<u64>): nat {
    if ids == [] then 0
    else
      var n := |ids| - 1;
      Known(ids[..n], ours, own) + if ids[n] == ours || ids[n] in own then 1 else 0
  }

  /** What is left of both counts, neither below zero, once the listed jobs known to be ours or our project's are off. */
  function Others(runner: Runner, ours: u64, own: seq<u64>): u64 {
    SatAdd(SatSub(runner.runningCount, Min(Known(runner.running, ours, own), U64_MAX)),
           SatSub(runner.pendingCount, Min(Known(runner.pending, ours, own), U64_MAX)))
  }

  /** Why a Mac is given back. */
  function Reason(others: nat, tag: string): string {
    Pad(others, 1) + " job(s) of another project want " + tag
  }

  /** A job of the project: `failure` is GitLab's reason, when it gave one. */
  datatype Job = Job(status: string, failure: Option<string>)

  datatype Verdict = Passed | Failed | Yielded(why: string)

  // --- The history ---

  datatype Call =
    | AskedRunner(runner: Result<Runner, string>)
    | AskedActive(active: Result<seq<u64>, string>)
    | AskedJob(job: Result<Job, string>)
    | AskedTrace(trace: Result<string, string>)
    | Looked(at: nat)
    | Cancelled(done: Result<(), string>)
    | Paused(over: Result<(), string>)

  /**
   The environment: `clock(n)` is what the `n`th look at the clock reads, and the
   other functions what each question gets after that many looks.
   */
  class Api {
    const clock: nat -> nat
    const runner: nat -> Result<Runner, string>
    const active: nat -> Result<seq<u64>, string>
    const job: nat -> Result<Job, string>
    const trace: nat -> Result<string, string>
    const cancelled: nat -> Result<(), string>
    const paused: nat -> Result<(), string>
    var looks: nat
    var calls: seq<Call>

    constructor (clock: nat -> nat, runner: nat -> Result<Runner, string>, active: nat -> Result<seq<u64>, string>,
                 job: nat -> Result<Job, string>, trace: nat -> Result<string, string>,
                 cancelled: nat -> Result<(), string>, paused: nat -> Result<(), string>)
      ensures looks == 0 && calls == []
      ensures this.clock == clock && this.runner == runner && this.active == active && this.job == job
      ensures this.trace == trace && this.cancelled == cancelled && this.paused == paused
    {
      this.clock, this.runner, this.active, this.job := clock, runner, active, job;
      this.trace, this.cancelled, this.paused := trace, cancelled, paused;
      looks, calls := 0, [];
    }

    method Runner() returns (r: Result<Runner, string>)
      modifies this`calls
      ensures r == runner(looks) && calls == old(calls) + [AskedRunner(r)]
    {
      r := runner(looks);
      calls := calls + [AskedRunner(r)];
    }

    method Active() returns (r: Result<seq<u64>, string>)
      modifies this`calls
      ensures r == active(looks) && calls == old(calls) + [AskedActive(r)]
    {
      r := active(looks);
      calls := calls + [AskedActive(r)];
    }

    method Job() returns (r: Result<Job, string>)
      modifies this`calls
      ensures r == job(looks) && calls == old(calls) + [AskedJob(r)]
    {
      r := job(looks);
      calls := calls + [AskedJob(r)];
    }

    method Trace() returns (r: Result<string, string>)
      modifies this`calls
      ensures r == trace(looks) && calls == old(calls) + [AskedTrace(r)]
    {
      r := trace(looks);
      calls := calls + [AskedTrace(r)];
    }

    method Now() returns (at: nat)
      modifies this
      ensures at == clock(old(looks)) && looks == old(looks) + 1 && calls == old(calls) + [Looked(at)]
    {
      at := clock(looks);
      looks := looks + 1;
      calls := calls + [Looked(at)];
    }

    method Cancel() returns (r: Result<(), string>)
      modifies this`calls
      ensures r == cancelled(looks) && calls == old(calls) + [Cancelled(r)]
    {
      r := cancelled(looks);
      calls := calls + [Cancelled(r)];
    }

    method Pause() returns (r: Result<(), string>)
      modifies this`calls
      ensures r == paused(looks) && calls == old(calls) + [Paused(r)]
    {
      r := paused(looks);
      calls := calls + [Paused(r)];
    }

    /**
     A reason to give the Mac back, when the count over both answers is not zero.
     The second question is spared when the first already leaves no job but ours,
     and the result is the full count's all the same.
     */
    method Wanted(ours: u64, tag: string) returns (r: Result<Option<string>, string>, ghost log: seq<Call>)
      modifies this`calls
      ensures r.Err? <==> runner(looks).Err? || (Foreign(runner(looks).value, ours, []) > 0 && active(looks).Err?)
      ensures r.Ok? && active(looks).Ok? ==>
        var foreign := Foreign(runner(looks).value, ours, active(looks).value);
        r.value == if foreign > 0 then Some(Reason(Min(foreign, U64_MAX), tag)) else None
      ensures r.Ok? && active(looks).Err? ==>
        r.value.None? && forall own :: Foreign(runner(looks).value, ours, own) == 0
      ensures calls == old(calls) + log
      ensures (if r.Ok? then Calm(log) else FailsLast(log, r.error)) && OfTheQueue(log)
    {
      var asked := Runner();
      log := [AskedRunner(asked)];
      if asked.Err? {
        return Err(asked.error), log;
      }
      var runner := asked.value;
      OthersCount(runner, ours, []);
      if Others(runner, ours, []) == 0 {
        forall own ensures Foreign(runner, ours, own) == 0 {
          OthersShrink(runner, ours, [], own);
          OthersCount(runner, ours, own);
        }
        return Ok(None), log;
      }
      var listed := Active();
      log := log + [AskedActive(listed)];
      if listed.Err? {
        return Err(listed.error), log;
      }
      var others := Others(runner, ours, listed.value);
      OthersCount(runner, ours, listed.value);
      return Ok(if others > 0 then Some(Reason(others, tag)) else None), log;
    }
  }

  predicate FailedQuestion(call: Call) {
    match call
    case AskedRunner(r) => r.Err?
    case AskedActive(r) => r.Err?
    case AskedJob(r) => r.Err?
    case AskedTrace(r) => r.Err?
    case _ => false
  }

  /** A question that failed, and how. */
  predicate FailsWith(call: Call, error: string) {
    match call
    case AskedRunner(r) => r == Err(error)
    case AskedActive(r) => r == Err(error)
    case AskedJob(r) => r == Err(error)
    case AskedTrace(r) => r == Err(error)
    case _ => false
  }

  predicate SawEnd(call: Call) {
    call.AskedJob? && call.job.Ok? && HasEnded(call.job.value)
  }

  /** It did not fail, cancel, or show the job ended. */
  predicate IsCalm(call: Call) {
    !FailedQuestion(call) && !SawEnd(call) && !call.Cancelled? && (call.Paused? ==> call.over.Ok?)
  }

  /** Only the queue is asked of. */
  ghost predicate OfTheQueue(log: seq<Call>) {
    forall k | 0 <= k < |log| :: log[k].AskedRunner? || log[k].AskedActive?
  }

  ghost predicate CalmFor(log: seq<Call>, n: nat) {
    n <= |log| && forall k | 0 <= k < n :: IsCalm(log[k])
  }

  ghost predicate Calm(log: seq<Call>) {
    CalmFor(log, |log|)
  }

  /** All calm but for a question at the end that got no answer. */
  ghost predicate FailsLast(log: seq<Call>, error: string) {
    log != [] && CalmFor(log, |log| - 1) && FailsWith(log[|log| - 1], error)
  }

  lemma {:induction false} KnownGrows(ids: seq<u64>, ours: u64, own: seq<u64>, more: seq<u64>)
    requires forall id | id in own :: id in more
    ensures Known(ids, ours, own) <= Known(ids, ours, more)
  {
    if ids != [] {
      KnownGrows(ids[..|ids| - 1], ours, own, more);
    }
  }

  /** The more jobs are the project's own, the fewer are others'. */
  lemma OthersShrink(runner: Runner, ours: u64, own: seq<u64>, more: seq<u64>)
    requires forall id | id in own :: id in more
    ensures Others(runner, ours, more) <= Others(runner, ours, own)
  {
    KnownGrows(runner.running, ours, own, more);
    KnownGrows(runner.pending, ours, own, more);
  }

  // --- What is counted ---

  /** Where our job and the project's own are in a listing. */
  ghost function KnownAt(ids: seq<u64>, ours: u64, own: seq<u64>): set<nat> {
    set k: nat | k < |ids| && (ids[k] == ours || ids[k] in own)
  }

  function Over(count: nat, known: nat): nat {
    if count <= known then 0 else count - known
  }

  /** The jobs that run there or wait, less those listed as known. */
  ghost function Foreign(runner: Runner, ours: u64, own: seq<u64>): nat {
    Over(runner.runningCount, |KnownAt(runner.running, ours, own)|)
    + Over(runner.pendingCount, |KnownAt(runner.pending, ours, own)|)
  }

  lemma {:induction false} KnownCounts(ids: seq<u64>, ours: u64, own: seq<u64>)
    ensures Known(ids, ours, own) == |KnownAt(ids, ours, own)|
  {
    if ids != [] {
      var n := |ids| - 1;
      KnownCounts(ids[..n], ours, own);
      var before := KnownAt(ids[..n], ours, own);
      assert KnownAt(ids, ours, own) == if ids[n] == ours || ids[n] in own then before + {n} else before;
    }
  }

  lemma OthersCount(runner: Runner, ours: u64, own: seq<u64>)
    ensures Others(runner, ours, own) == Min(Foreign(runner, ours, own), U64_MAX)
  {
    KnownCounts(runner.running, ours, own);
    KnownCounts(runner.pending, ours, own);
  }

  /** Where the jobs of others are in a listing. */
  ghost function ForeignAt(ids: seq<u64>, ours: u64, own: seq<u64>): set<nat> {
    set k: nat | k < |ids| && ids[k] != ours && ids[k] !in own
  }

  lemma {:induction false} ForeignCounts(ids: seq<u64>, ours: u64, own: seq<u64>)
    ensures |ForeignAt(ids, ours, own)| + Known(ids, ours, own) == |ids|
  {
    if ids != [] {
      var n := |ids| - 1;
      ForeignCounts(ids[..n], ours, own);
      var before := ForeignAt(ids[..n], ours, own);
      assert ForeignAt(ids, ours, own) == if ids[n] == ours || ids[n] in own then before else before + {n};
    }
  }

  lemma {:induction false} KnownJoins(a: seq<u64>, b: seq<u64>, ours: u64, own: seq<u64>)
    ensures Known(a + b, ours, own) == Known(a, ours, own) + Known(b, ours, own)
  {
    if b == [] {
      assert a + b == a;
    } else {
      var n := |b| - 1;
      KnownJoins(a, b[..n], ours, own);
      assert (a + b)[..|a + b| - 1] == a + b[..n];
    }
  }

  /** Listed in full, what is counted are the jobs, running or waiting, that are neither ours nor the project's own. */
  lemma FullListings(runner: Runner, ours: u64, own: seq<u64>)
    requires runner.runningCount == |runner.running| && runner.pendingCount == |runner.pending|
    ensures Others(runner, ours, own) == Min(|ForeignAt(runner.running + runner.pending, ours, own)|, U64_MAX)
  {
    KnownJoins(runner.running, runner.pending, ours, own);
    ForeignCounts(runner.running + runner.pending, ours, own);
    ForeignCounts(runner.running, ours, own);
    ForeignCounts(runner.pending, ours, own);
  }

  /** No one else wants the Mac exactly when neither count is past its own listed known jobs. */
  lemma NoOthers(runner: Runner, ours: u64, own: seq<u64>)
    ensures Others(runner, ours, own) == 0 <==>
      && runner.runningCount <= |KnownAt(runner.running, ours, own)|
      && runner.pendingCount <= |KnownAt(runner.pending, ours, own)|
  {
    OthersCount(runner, ours, own);
  }

  // --- How a job ended ---

  const YIELD_MARK := "slopty-gitlab: yielded"

  predicate IsWaiting(job: Job) {
    job.status == "created" || job.status == "pending" || job.status == "waiting_for_resource"
  }

  predicate HasEnded(job: Job) {
    job.status == "success" || job.status == "failed" || job.status == "canceled"
    || job.status == "canceling" || job.status == "skipped" || job.status == "manual"
  }

  predicate IsSpace(c: char) {
    c == ' ' || '\t' <= c <= '\r'
  }

  function TrimStart(s: string, colons: bool): string {
    if s != [] && (if colons then s[0] == ':' else IsSpace(s[0])) then TrimStart(s[1..], colons) else s
  }

  function TrimEnd(s: string): string {
    if s != [] && IsSpace(s[|s| - 1]) then TrimEnd(s[..|s| - 1]) else s
  }

  /** The first line that, unstamped, starts with the mark. */
  function YieldLine(lines: seq<string>): Option<string> {
    if lines == [] then None
    else if YIELD_MARK <= Untimed(lines[0]) then Some(Untimed(lines[0]))
    else YieldLine(lines[1..])
  }

  function VerdictOf(job: Job, trace: string): Option<Verdict> {
    if job.status == "success" then Some(Passed)
    else if job.status == "failed" then
      match YieldLine(LinesOf(trace))
      case Some(line) =>
        var why := if |YIELD_MARK| <= |line| then line[|YIELD_MARK|..] else [];
        Some(Yielded(TrimEnd(TrimStart(TrimStart(why, true), false))))
      case None =>
        if job.failure == None || job.failure == Some("script_failure") then Some(Failed)
        else Some(Yielded("GitLab ended it: " + job.failure.value))
    else if job.status == "canceled" || job.status == "canceling" then Some(Yielded("cancelled on GitLab"))
    else if job.status == "skipped" || job.status == "manual" then Some(Yielded("GitLab left it " + job.status))
    else None
  }

  /** A job has a verdict exactly when it has ended, whatever its log. */
  lemma EndedHasVerdict(job: Job, trace: string)
    ensures HasEnded(job) <==> VerdictOf(job, trace).Some?
  {
  }

  lemma EndedNotWaiting(job: Job)
    ensures HasEnded(job) ==> !IsWaiting(job)
  {
  }

  // --- What each verdict is of ---

  ghost predicate MarkedAt(lines: seq<string>, k: nat) {
    k < |lines| && YIELD_MARK <= Untimed(lines[k])
  }

  ghost predicate FirstMarkedAt(lines: seq<string>, k: nat) {
    MarkedAt(lines, k) && forall j: nat | j < k :: !MarkedAt(lines, j)
  }

  ghost predicate Unmarked(lines: seq<string>) {
    forall k: nat :: !MarkedAt(lines, k)
  }

  lemma {:induction false} YieldLineIs(lines: seq<string>)
    ensures YieldLine(lines).None? <==> Unmarked(lines)
    ensures forall k: nat :: FirstMarkedAt(lines, k) ==> YieldLine(lines) == Some(Untimed(lines[k]))
  {
    if lines != [] {
      var rest := lines[1..];
      YieldLineIs(rest);
      assert forall k: nat :: MarkedAt(rest, k) <==> MarkedAt(lines, k + 1);
      if MarkedAt(lines, 0) {
        assert forall k: nat :: FirstMarkedAt(lines, k) ==> k == 0;
      } else {
        forall k: nat | FirstMarkedAt(lines, k) ensures k > 0 && FirstMarkedAt(rest, k - 1) {
          forall j: nat | j < k - 1 ensures !MarkedAt(rest, j) {
            assert !MarkedAt(lines, j + 1);
          }
        }
        forall k: nat | MarkedAt(lines, k) ensures MarkedAt(rest, k - 1) {
        }
      }
    }
  }

  /** Which jobs passed, which failed, and what is said of every other one that ended. */
  lemma VerdictExactly(job: Job, trace: string)
    ensures VerdictOf(job, trace) == Some(Passed) <==> job.status == "success"
    ensures VerdictOf(job, trace) == Some(Failed) <==>
      && job.status == "failed" && (job.failure == None || job.failure == Some("script_failure"))
      && Unmarked(LinesOf(trace))
    ensures job.status == "failed" && job.failure.Some? && job.failure.value != "script_failure" && Unmarked(LinesOf(trace))
      ==> VerdictOf(job, trace) == Some(Yielded("GitLab ended it: " + job.failure.value))
    ensures job.status in {"canceled", "canceling"} ==> VerdictOf(job, trace) == Some(Yielded("cancelled on GitLab"))
    ensures job.status in {"skipped", "manual"} ==> VerdictOf(job, trace) == Some(Yielded("GitLab left it " + job.status))
    ensures job.status !in {"success", "failed", "canceled", "canceling", "skipped", "manual"} ==>
      VerdictOf(job, trace).None?
  {
    YieldLineIs(LinesOf(trace));
  }

  /** The white space of ASCII: tab, line feed, vertical tab, form feed, carriage return and space. */
  predicate IsBlank(c: char) {
    c as int in {9, 10, 11, 12, 13, 32}
  }

  lemma SpaceExactly()
    ensures forall c: char :: IsSpace(c) <==> IsBlank(c)
  {
  }

  ghost predicate All(s: string, of: char -> bool) {
    forall c | c in s :: of(c)
  }

  /** `why` is what is left of `rest` without the colons before it and then the space around it. */
  ghost predicate LeftOf(rest: string, why: string, colons: string, before: string, after: string) {
    && rest == colons + (before + why + after)
    && All(colons, c => c == ':') && All(before, IsBlank) && All(after, IsBlank)
    && (before + why + after != [] ==> (before + why + after)[0] != ':')
    && (why != [] ==> !IsBlank(why[0]) && !IsBlank(why[|why| - 1]))
  }

  lemma {:induction false} StartTrimmed(s: string, colons: bool) returns (off: string)
    ensures s == off + TrimStart(s, colons)
    ensures forall c | c in off :: if colons then c == ':' else IsSpace(c)
    ensures TrimStart(s, colons) != [] ==>
      !(if colons then TrimStart(s, colons)[0] == ':' else IsSpace(TrimStart(s, colons)[0]))
  {
    off := [];
    if s != [] && (if colons then s[0] == ':' else IsSpace(s[0])) {
      var more := StartTrimmed(s[1..], colons);
      off := [s[0]] + more;
      assert s == [s[0]] + s[1..];
    }
  }

  lemma {:induction false} EndTrimmed(s: string) returns (off: string)
    ensures s == TrimEnd(s) + off && All(off, IsSpace)
    ensures TrimEnd(s) != [] ==> !IsSpace(TrimEnd(s)[|TrimEnd(s)| - 1]) && TrimEnd(s)[0] == s[0]
  {
    off := [];
    if s != [] && IsSpace(s[|s| - 1]) {
      var more := EndTrimmed(s[..|s| - 1]);
      off := more + [s[|s| - 1]];
      assert s == s[..|s| - 1] + [s[|s| - 1]];
    }
  }

  lemma VerdictFromLine(job: Job, trace: string, line: string)
    requires job.status == "failed" && YieldLine(LinesOf(trace)) == Some(line) && YIELD_MARK <= line
    ensures VerdictOf(job, trace) == Some(Yielded(TrimEnd(TrimStart(TrimStart(line[|YIELD_MARK|..], true), false))))
  {
  }

  /** What the colons and the space leave. */
  lemma Trims(rest: string) returns (colons: string, before: string, after: string)
    ensures LeftOf(rest, TrimEnd(TrimStart(TrimStart(rest, true), false)), colons, before, after)
  {
    var line := TrimStart(rest, true);
    colons := StartTrimmed(rest, true);
    before := StartTrimmed(line, false);
    after := EndTrimmed(TrimStart(line, false));
    SpaceExactly();
    assert line == before + TrimEnd(TrimStart(line, false)) + after;
  }

  /** A failed job whose log has the mark yielded, for the reason its first such line gives. */
  lemma MarkedVerdict(job: Job, trace: string, k: nat) returns (why: string, colons: string, before: string, after: string)
    requires job.status == "failed" && FirstMarkedAt(LinesOf(trace), k)
    ensures VerdictOf(job, trace) == Some(Yielded(why))
    ensures LeftOf(Untimed(LinesOf(trace)[k])[|YIELD_MARK|..], why, colons, before, after)
  {
    var marked := Untimed(LinesOf(trace)[k]);
    YieldLineIs(LinesOf(trace));
    VerdictFromLine(job, trace, marked);
    colons, before, after := Trims(marked[|YIELD_MARK|..]);
    why := TrimEnd(TrimStart(TrimStart(marked[|YIELD_MARK|..], true), false));
  }
}
