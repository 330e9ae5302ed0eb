/** How a run's jobs read once they end, and the loop of `land --wait`. */
module JobEnds {
  import opened Wrappers
  import opened Sequences

  datatype End = Running | Green | Red | Cancelled

  datatype Job = Job(id: nat, name: string, conclusion: string)

  datatype Stop = StopRed(said: string) | StopCancelled(said: string)

  /** How a job ended; `late` are the jobs that ran past their timeout, listed as cancelled. */
  function EndOf(job: Job, late: set<nat>): End {
    if job.conclusion == "" then Running
    else if job.conclusion == "success" || job.conclusion == "skipped" then Green
    else if job.conclusion == "cancelled" && job.id !in late then Cancelled
    else Red
  }

  /** The red jobs `land` reports. */
  function RedJobs(jobs: seq<Job>, late: set<nat>): seq<string> {
    if jobs == [] then []
    else
      var before, job := RedJobs(jobs[..|jobs| - 1], late), jobs[|jobs| - 1];
      if EndOf(job, late) != Red then before
      else before + [if job.conclusion == "cancelled" then job.name + ", past its timeout" else job.name]
  }

  /** What the listing says of a red job. */
  function RedSaid(job: Job): string {
    if job.conclusion == "cancelled" then job.name + ", past its timeout" else job.name
  }

  /** The red jobs are those that ended and neither passed, were skipped nor were cancelled in time. */
  lemma RedExactly(job: Job, late: set<nat>)
    ensures EndOf(job, late) == Red <==>
      || job.conclusion !in {"", "success", "skipped", "cancelled"}
      || (job.conclusion == "cancelled" && job.id in late)
    ensures EndOf(job, late) == Cancelled <==> job.conclusion == "cancelled" && job.id !in late
    ensures EndOf(job, late) == Running <==> job.conclusion == ""
  {
  }

  /** What is said of the red jobs, each once and in the order of the jobs. */
  lemma {:induction false} RedJobsListed(jobs: seq<Job>, late: set<nat>, red: Job -> bool) returns (at: seq<nat>)
    requires forall job :: red(job) <==> EndOf(job, late) == Red
    ensures Picks(jobs, red, RedSaid, at, RedJobs(jobs, late))
  {
    at := [];
    if jobs != [] {
      var n := |jobs| - 1;
      at := RedJobsListed(jobs[..n], late, red);
      PicksOn(jobs[..n], red, RedSaid, at, RedJobs(jobs[..n], late), jobs);
      at := if red(jobs[n]) then at + [n] else at;
    }
  }

  /** A job is listed exactly when some conclusion is none of the four that are not red, or is of a late one. */
  lemma SomeJobIsRed(jobs: seq<Job>, late: set<nat>)
    ensures RedJobs(jobs, late) != [] <==>
      exists job :: job in jobs
        && (job.conclusion !in {"", "success", "skipped", "cancelled"}
            || (job.conclusion == "cancelled" && job.id in late))
  {
    var red := job => EndOf(job, late) == Red;
    var at := RedJobsListed(jobs, late, red);
    forall job: Job {
      RedExactly(job, late);
    }
    forall job | job in jobs && RedJobs(jobs, late) == [] ensures !red(job) {
      var i :| 0 <= i < |jobs| && jobs[i] == job;
      assert i !in at;
    }
  }

  ghost predicate First(jobs: seq<Job>, late: set<nat>, end: End, k: nat) {
    k < |jobs| && EndOf(jobs[k], late) == end && forall j | 0 <= j < k :: EndOf(jobs[j], late) != end
  }

  /**
   The stop a listing calls for: of its first red job, else of its first cancelled one. It calls
   a run red exactly when `land` later lists a red job of it, so a run that only
   stood aside is never reported red.
   */
  method EndedJobs(jobs: seq<Job>, late: set<nat>) returns (stop: Option<Stop>)
    ensures (stop.Some? && stop.value.StopRed?) <==> RedJobs(jobs, late) != []
    ensures (stop.Some? && stop.value.StopRed?) ==>
      exists k: nat :: First(jobs, late, Red, k) && stop.value.said == jobs[k].name
        + (if jobs[k].conclusion == "cancelled" then " ran past its timeout" else " ended " + jobs[k].conclusion)
    ensures (stop.Some? && stop.value.StopCancelled?) <==>
      RedJobs(jobs, late) == [] && exists job :: job in jobs && job.conclusion == "cancelled" && job.id !in late
    ensures (stop.Some? && stop.value.StopCancelled?) ==>
      exists k: nat :: First(jobs, late, Cancelled, k) && stop.value.said == jobs[k].name + " ended cancelled"
    ensures stop.None? <==> forall job | job in jobs :: job.conclusion in {"", "success", "skipped"}
  {
    SomeJobIsRed(jobs, late);
    var cancelled: Option<string> := None;
    for i := 0 to |jobs|
      invariant forall j | 0 <= j < i :: EndOf(jobs[j], late) != Red
      invariant cancelled.None? ==> forall j | 0 <= j < i :: EndOf(jobs[j], late) != Cancelled
      invariant cancelled.Some? ==>
        exists k: nat :: k < i && First(jobs, late, Cancelled, k) && cancelled.value == jobs[k].name + " ended cancelled"
    {
      var job := jobs[i];
      match EndOf(job, late)
      case Red =>
        assert First(jobs, late, Red, i);
        return Some(StopRed(job.name
          + if job.conclusion == "cancelled" then " ran past its timeout" else " ended " + job.conclusion));
      case Cancelled =>
        if cancelled.None? {
          cancelled := Some(job.name + " ended cancelled");
          assert First(jobs, late, Cancelled, i);
        }
      case _ =>
    }
    if cancelled.Some? {
      return Some(StopCancelled(cancelled.value));
    }
    return None;
  }
}

module Waiter {
  import opened Wrappers
  import opened Landing

  /** What `--wait` finds once the run it follows ended, `pushes` pushes of `gate` in. */
  datatype Glance = Glance(main: Commit, red: seq<string>, pushes: nat)

  /** `gate`'s tip after so many pushes, each of which changed it. */
  function TipAfter(pushed: seq<Commit>, pushes: nat): Option<Commit>
    requires pushes <= |pushed|
  {
    if pushes == 0 then None else Some(pushed[pushes - 1])
  }

  /** Looks come in time order, after the push `own` that landed `head`. */
  ghost predicate InOrder(pushed: seq<Commit>, own: nat, glances: seq<Result<Glance, string>>) {
    && (forall k | 0 <= k < |glances| && glances[k].Ok? :: own <= glances[k].value.pushes <= |pushed|)
    && (forall j, k | 0 <= j < k < |glances| && glances[j].Ok? && glances[k].Ok? ::
          glances[j].value.pushes <= glances[k].value.pushes)
  }

  /** What a look comes to, waiting on the run of `sha`: an error where the run was not found, or did not end, in time. */
  function Answer(pushed: seq<Commit>, head: Commit, sha: Commit, glance: Result<Glance, string>): Result<Next, string>
    requires glance.Ok? ==> glance.value.pushes <= |pushed|
  {
    if glance.Err? then Err(glance.error)
    else Ok(Decide(Look(glance.value.main, TipAfter(pushed, glance.value.pushes), glance.value.red, head), sha))
  }

  /** The commit whose run is waited on, after following the runs of `followed`. */
  function Waited(pushed: seq<Commit>, head: Commit, followed: seq<nat>): Commit
    requires forall j | 0 <= j < |followed| :: 0 < followed[j] <= |pushed|
  {
    if followed == [] then head else pushed[followed[|followed| - 1] - 1]
  }

  /**
   `followed` are the pushes whose runs the wait went on to follow: each later
   than the landed push and than the one before, of another commit than the one
   before, carrying the landed commit.
   */
  ghost predicate Follows(pushed: seq<Commit>, own: nat, head: Commit, followed: seq<nat>) {
    && (forall j | 0 <= j < |followed| :: own < followed[j] <= |pushed| && head <= pushed[followed[j] - 1])
    && (forall i, j | 0 <= i < j < |followed| :: followed[i] < followed[j])
    && (forall j | 0 < j < |followed| :: pushed[followed[j] - 1] != pushed[followed[j - 1] - 1])
  }

  /** One look that says to follow names a later push, of another commit, that carries the landed one. */
  lemma FollowNeedsPush(pushed: seq<Commit>, own: nat, head: Commit, followed: seq<nat>, glance: Glance)
    requires 0 < own <= |pushed| && pushed[own - 1] == head && Follows(pushed, own, head, followed)
    requires own <= glance.pushes <= |pushed|
    requires followed != [] ==> followed[|followed| - 1] <= glance.pushes
    requires Decide(Look(glance.main, TipAfter(pushed, glance.pushes), glance.red, head),
                    Waited(pushed, head, followed)).Follow?
    ensures Follows(pushed, own, head, followed + [glance.pushes])
  {
    var last := if followed == [] then own else followed[|followed| - 1];
    var sha := Waited(pushed, head, followed);
    DecideTells(glance.main, TipAfter(pushed, glance.pushes), glance.red, head, sha);
    assert pushed[last - 1] == sha;
    assert last < glance.pushes;
    FollowsOn(pushed, own, head, followed, glance.pushes);
  }

  lemma FollowsOn(pushed: seq<Commit>, own: nat, head: Commit, followed: seq<nat>, n: nat)
    requires 0 < own < n <= |pushed| && Follows(pushed, own, head, followed) && head <= pushed[n - 1]
    requires followed != [] ==>
      followed[|followed| - 1] < n && pushed[n - 1] != pushed[followed[|followed| - 1] - 1]
    ensures Follows(pushed, own, head, followed + [n])
  {
  }

  /**
   The `--wait` loop over whatever it finds, look after look (none left: still
   waiting). It follows at most once for each push after its own, however long it
   looks, and it ends with what the last look tells of the run it waits on, or
   with the error of a run not found or not ended in time.
   */
  method Wait(pushed: seq<Commit>, own: nat, head: Commit, glances: seq<Result<Glance, string>>)
      returns (said: Option<Result<Next, string>>, followed: seq<nat>)
    requires 0 < own <= |pushed| && pushed[own - 1] == head
    requires InOrder(pushed, own, glances)
    ensures Follows(pushed, own, head, followed)
    ensures |followed| <= |pushed| - own
    ensures said.None? ==> |followed| == |glances|
    ensures said.Some? ==> (
      && |followed| < |glances|
      && said.value == Answer(pushed, head, Waited(pushed, head, followed), glances[|followed|])
      && !(said.value.Ok? && said.value.value.Follow?))
  {
    var sha := head;
    followed := [];
    for k := 0 to |glances|
      invariant |followed| == k && Follows(pushed, own, head, followed)
      invariant sha == Waited(pushed, head, followed)
      invariant k > 0 ==> glances[k - 1].Ok? && followed[k - 1] == glances[k - 1].value.pushes
    {
      var next := Answer(pushed, head, sha, glances[k]);
      if next.Err? || !next.value.Follow? {
        Increasing(followed, own, |pushed|);
        return Some(next), followed;
      }
      FollowNeedsPush(pushed, own, head, followed, glances[k].value);
      sha := next.value.tip.value;
      followed := followed + [glances[k].value.pushes];
    }
    Increasing(followed, own, |pushed|);
    return None, followed;
  }

  /** Increasing numbers past `low`, up to `high`, are no more than lie between. */
  lemma {:induction false} Increasing(s: seq<nat>, low: nat, high: nat)
    requires forall j | 0 <= j < |s| :: low < s[j] <= high
    requires forall i, j | 0 <= i < j < |s| :: s[i] < s[j]
    requires low <= high
    ensures |s| <= high - low
  {
    if s != [] {
      var last := |s| - 1;
      Increasing(s[..last], low, s[last] - 1);
    }
  }
}
