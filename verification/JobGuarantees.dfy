/** What every run of the job queue guarantees (internal/store/store.go with internal/jobs/manager.go). */
module JobGuarantees {
  import opened Ordering
  import opened JobStore
  import opened JobProtocol

  // ----- fencing -----

  predicate Fenced(s: System, w: string) {
    IsExecuting(s, w) && FileOf(s.workers[w].id) in s.jobs && s.jobs[FileOf(s.workers[w].id)].attempts == s.workers[w].attempt
  }

  predicate AcceptsCompletion(s: System, step: Step) {
    && step.Complete? && IsExecuting(s, step.worker)
    && Accepts(s.jobs, s.workers[step.worker].id, step.worker, CompletionState(step.success), step.io)
  }

  /** Whenever the store accepts a completion, the worker holds the record's current attempt. */
  lemma {:induction false} AcceptedIsCurrent(u: Setup, steps: seq<Step>, step: Step)
    requires u.maxAttempts >= 1 && AcceptsCompletion(After(u, steps), step)
    ensures Fenced(After(u, steps), step.worker)
  {
    InvAlways(u, steps);
    assert WorkerOk(After(u, steps), step.worker);
  }

  /** The queue with a stronger fence: a completion must also come from the record's current attempt. */
  function FencedNext(u: Setup, s: System, step: Step): System {
    if AcceptsCompletion(s, step) && !Fenced(s, step.worker) then s.(workers := s.workers[step.worker := Idle]) else Next(u, s, step)
  }

  function FencedAfter(u: Setup, steps: seq<Step>): System
    decreases |steps|
  {
    if steps == [] then Initial(u) else FencedNext(u, FencedAfter(u, steps[..|steps|-1]), steps[|steps|-1])
  }

  /** Fencing by worker name is as strong as fencing by name and attempt: every run goes the same way. */
  lemma {:induction false} OwnerFencingSuffices(u: Setup, steps: seq<Step>)
    requires u.maxAttempts >= 1
    ensures FencedAfter(u, steps) == After(u, steps)
    decreases |steps|
  {
    if steps != [] {
      OwnerFencingSuffices(u, steps[..|steps|-1]);
      if AcceptsCompletion(After(u, steps[..|steps|-1]), steps[|steps|-1]) {
        AcceptedIsCurrent(u, steps[..|steps|-1], steps[|steps|-1]);
      }
    }
  }

  /** At most one worker holds a job's current attempt. */
  lemma CurrentHolderIsUnique(u: Setup, steps: seq<Step>, v: string, w: string)
    requires u.maxAttempts >= 1
    requires Fenced(After(u, steps), v) && Fenced(After(u, steps), w)
    requires After(u, steps).workers[v].id == After(u, steps).workers[w].id
    ensures v == w
  {
    InvAlways(u, steps);
    assert Apart(After(u, steps), v, w);
  }

  // ----- terminal states -----

  lemma TerminalStep(u: Setup, s: System, step: Step, name: string)
    requires Inv(u, s) && name in s.jobs && Terminal(s.jobs[name])
    ensures name in Next(u, s, step).jobs && Next(u, s, step).jobs[name] == s.jobs[name]
  {
    hide Next, NextClaim;
    var change := ChangeOf(u, s, step, name);
  }

  lemma AfterConcat(u: Setup, steps: seq<Step>, step: Step)
    ensures After(u, steps + [step]) == Next(u, After(u, steps), step)
  {
    assert (steps + [step])[..|steps|] == steps;
  }

  /** A finished job keeps its whole record for good. */
  lemma {:induction false} TerminalIsForever(u: Setup, steps: seq<Step>, more: seq<Step>, name: string)
    requires u.maxAttempts >= 1 && name in After(u, steps).jobs && Terminal(After(u, steps).jobs[name])
    ensures name in After(u, steps + more).jobs && After(u, steps + more).jobs[name] == After(u, steps).jobs[name]
    decreases |more|
  {
    hide Next, Terminal;
    if more == [] {
      assert steps + more == steps;
    } else {
      var n := |more| - 1;
      TerminalIsForever(u, steps, more[..n], name);
      InvAlways(u, steps + more[..n]);
      TerminalStep(u, After(u, steps + more[..n]), more[n], name);
      assert steps + more == (steps + more[..n]) + [more[n]];
      AfterConcat(u, steps + more[..n], more[n]);
    }
  }

  // ----- results -----

  /** At step `i` a worker holding attempt `attempt` of the job reported `resultRef`, and the store took it. */
  ghost predicate ReportedAt(u: Setup, steps: seq<Step>, i: nat, name: string, attempt: int, resultRef: string) {
    && i < |steps| && AcceptsCompletion(After(u, steps[..i]), steps[i]) && steps[i].success && steps[i].text == resultRef
    && var worker := After(u, steps[..i]).workers[steps[i].worker];
       FileOf(worker.id) == name && worker.attempt == attempt
  }

  ghost predicate Reported(u: Setup, steps: seq<Step>, name: string, attempt: int, resultRef: string) {
    exists i: nat :: ReportedAt(u, steps, i, name, attempt, resultRef)
  }

  lemma ReportStays(u: Setup, steps: seq<Step>, step: Step, name: string, attempt: int, resultRef: string)
    requires Reported(u, steps, name, attempt, resultRef)
    ensures Reported(u, steps + [step], name, attempt, resultRef)
  {
    hide AcceptsCompletion, After;
    var i: nat :| ReportedAt(u, steps, i, name, attempt, resultRef);
    assert (steps + [step])[..i] == steps[..i];
    assert ReportedAt(u, steps + [step], i, name, attempt, resultRef);
  }

  lemma SuccessStep(u: Setup, s: System, step: Step, name: string)
    requires u.maxAttempts >= 1 && Inv(u, s)
    requires name in Next(u, s, step).jobs && Next(u, s, step).jobs[name].state.Succeeded?
    ensures
      var j := Next(u, s, step).jobs[name];
      || (name in s.jobs && j == s.jobs[name])
      || (AcceptsCompletion(s, step) && step.success && step.text == j.resultRef
          && FileOf(s.workers[step.worker].id) == name && s.workers[step.worker].attempt == j.attempts)
  {
    hide NextClaim, RequeueOf, ClaimOf, HeartbeatOf;
    if name in s.jobs {
      var change := ChangeOf(u, s, step, name);
      if change.Done? {
        assert WorkerOk(s, step.worker);
      }
    } else {
      OnlyEnqueueAdds(u, s, step, name);
    }
  }

  /** A recorded result was reported by the execution of the record's last attempt, never by a stale one. */
  lemma {:induction false} ResultIsFromTheLastAttempt(u: Setup, steps: seq<Step>, name: string)
    requires u.maxAttempts >= 1 && name in After(u, steps).jobs && After(u, steps).jobs[name].state.Succeeded?
    ensures Reported(u, steps, name, After(u, steps).jobs[name].attempts, After(u, steps).jobs[name].resultRef)
    decreases |steps|
  {
    hide Next, Inv, AcceptsCompletion;
    if steps != [] {
      var n := |steps| - 1;
      var s, j := After(u, steps[..n]), After(u, steps).jobs[name];
      InvAlways(u, steps[..n]);
      SuccessStep(u, s, steps[n], name);
      assert steps == steps[..n] + [steps[n]];
      if name in s.jobs && j == s.jobs[name] {
        ResultIsFromTheLastAttempt(u, steps[..n], name);
        ReportStays(u, steps[..n], steps[n], name, j.attempts, j.resultRef);
      } else {
        assert ReportedAt(u, steps, n, name, j.attempts, j.resultRef);
      }
    }
  }

  // ----- how often a job is handled -----

  /** The attempts with which a job's handler was called, in order. */
  function Calls(u: Setup, steps: seq<Step>, name: string): seq<int>
    decreases |steps|
  {
    if steps == [] then []
    else
      var s, step := After(u, steps[..|steps|-1]), steps[|steps|-1];
      var before := Calls(u, steps[..|steps|-1], name);
      if step.Take? && IsIdle(s, step.worker) && ClaimBy(u, s, step).job.Some? && FileOf(ClaimBy(u, s, step).job.value.id) == name
      then before + [ClaimBy(u, s, step).job.value.attempts]
      else before
  }

  function AttemptsOf(s: System, name: string): int { if name in s.jobs then s.jobs[name].attempts else 0 }

  predicate Rising(calls: seq<int>, bound: int) {
    (forall i, j :: 0 <= i < j < |calls| ==> calls[i] < calls[j]) && (forall i :: 0 <= i < |calls| ==> 1 <= calls[i] <= bound)
  }

  lemma {:induction false} RisingIsShort(calls: seq<int>, bound: int)
    requires Rising(calls, bound) && bound >= 0
    ensures |calls| <= bound
    decreases |calls|
  {
    if calls != [] {
      RisingIsShort(calls[..|calls|-1], calls[|calls|-1] - 1);
    }
  }

  lemma CallStep(u: Setup, s: System, step: Step, name: string)
    requires u.maxAttempts >= 1 && Inv(u, s)
    ensures AttemptsOf(s, name) <= AttemptsOf(Next(u, s, step), name)
    ensures step.Take? && IsIdle(s, step.worker) && ClaimBy(u, s, step).job.Some? && FileOf(ClaimBy(u, s, step).job.value.id) == name ==>
      AttemptsOf(Next(u, s, step), name) == AttemptsOf(s, name) + 1 == ClaimBy(u, s, step).job.value.attempts
  {
    hide NextClaim, RequeueOf, HeartbeatOf, CompleteOf;
    if name in s.jobs {
      var change := ChangeOf(u, s, step, name);
    }
    if step.Take? {
      ClaimTakesTheFirst(s.jobs, u.maxAttempts);
      if NextClaim(s.jobs, u.maxAttempts).Some? {
        assert RecordOk(u, NextClaim(s.jobs, u.maxAttempts).value, s.jobs[NextClaim(s.jobs, u.maxAttempts).value]);
      }
    } else if name !in s.jobs && name in Next(u, s, step).jobs {
      OnlyEnqueueAdds(u, s, step, name);
    }
  }

  lemma {:induction false} CallsRise(u: Setup, steps: seq<Step>, name: string)
    requires u.maxAttempts >= 1
    ensures Rising(Calls(u, steps, name), AttemptsOf(After(u, steps), name))
    ensures AttemptsOf(After(u, steps), name) >= 0
    decreases |steps|
  {
    hide Next, Inv, ClaimBy, IsIdle;
    if steps != [] {
      CallsRise(u, steps[..|steps|-1], name);
      InvAlways(u, steps[..|steps|-1]);
      CallStep(u, After(u, steps[..|steps|-1]), steps[|steps|-1], name);
    }
  }

  /** No attempt is handled twice, and a job's handler runs at most `maxAttempts` times, across restarts too. */
  lemma HandledAtMostMaxTimes(u: Setup, steps: seq<Step>, name: string)
    requires u.maxAttempts >= 1
    ensures Distinct(Calls(u, steps, name)) && |Calls(u, steps, name)| <= AttemptsOf(After(u, steps), name) <= u.maxAttempts
  {
    hide Next;
    CallsRise(u, steps, name);
    RisingIsShort(Calls(u, steps, name), AttemptsOf(After(u, steps), name));
    InvAlways(u, steps);
    if name in After(u, steps).jobs {
      assert RecordOk(u, name, After(u, steps).jobs[name]);
    }
  }

  // ----- how often a job changes state -----

  /** What is left for a job to go through. */
  function Rank(u: Setup, j: Job): int {
    match j.state
    case Queued => 2 * (u.maxAttempts - j.attempts)
    case Running => 2 * (u.maxAttempts - j.attempts) + 1
    case Succeeded => 0
    case Failed => 0
  }

  predicate Moved(u: Setup, s: System, step: Step, name: string) {
    && name in s.jobs && name in Next(u, s, step).jobs
    && (s.jobs[name].state != Next(u, s, step).jobs[name].state || s.jobs[name].attempts != Next(u, s, step).jobs[name].attempts)
  }

  function Moves(u: Setup, steps: seq<Step>, name: string): nat
    decreases |steps|
  {
    if steps == [] then 0
    else
      Moves(u, steps[..|steps|-1], name)
      + if Moved(u, After(u, steps[..|steps|-1]), steps[|steps|-1], name) then 1 else 0
  }

  lemma MoveLowersRank(u: Setup, s: System, step: Step, name: string)
    requires u.maxAttempts >= 1 && Inv(u, s) && name in s.jobs
    ensures name in Next(u, s, step).jobs
    ensures var before, after := Rank(u, s.jobs[name]), Rank(u, Next(u, s, step).jobs[name]);
            0 <= after && (if Moved(u, s, step, name) then after < before else after == before)
  {
    hide Next, NextClaim;
    assert RecordOk(u, name, s.jobs[name]);
    var change := ChangeOf(u, s, step, name);
  }

  function RankOf(u: Setup, s: System, name: string): int { if name in s.jobs then Rank(u, s.jobs[name]) else 2 * u.maxAttempts }

  lemma NewRank(u: Setup, s: System, j: Job)
    requires IsNew(s, j)
    ensures Rank(u, j) == 2 * u.maxAttempts
  {}

  lemma {:induction false} MovesAndRank(u: Setup, steps: seq<Step>, name: string)
    requires u.maxAttempts >= 1
    ensures Moves(u, steps, name) + RankOf(u, After(u, steps), name) <= 2 * u.maxAttempts
    ensures RankOf(u, After(u, steps), name) >= 0
    decreases |steps|
  {
    hide Next, Inv, Rank;
    if steps != [] {
      var n := |steps| - 1;
      var s := After(u, steps[..n]);
      MovesAndRank(u, steps[..n], name);
      InvAlways(u, steps[..n]);
      if name in s.jobs {
        MoveLowersRank(u, s, steps[n], name);
      } else if name in Next(u, s, steps[n]).jobs {
        OnlyEnqueueAdds(u, s, steps[n], name);
        NewRank(u, s, steps[n].job);
      }
    }
  }

  /** Whatever the interleaving, a job goes through at most `2 * maxAttempts` changes of state or attempt. */
  lemma AtMostTwiceMaxMoves(u: Setup, steps: seq<Step>, name: string)
    requires u.maxAttempts >= 1
    ensures Moves(u, steps, name) <= 2 * u.maxAttempts
  {
    MovesAndRank(u, steps, name);
  }

  // ----- nothing is stuck -----

  /** A queued job can always be claimed: an idle worker that finds nothing sees no queued job at all. */
  lemma {:induction false} QueuedIsClaimable(u: Setup, steps: seq<Step>)
    requires u.maxAttempts >= 1
    ensures var jobs := After(u, steps).jobs;
            NextClaim(jobs, u.maxAttempts).None? <==> forall n :: n in jobs ==> !jobs[n].state.Queued?
  {
    InvAlways(u, steps);
    var jobs := After(u, steps).jobs;
    ClaimTakesTheFirst(jobs, u.maxAttempts);
    forall n | n in jobs ensures Claimable(jobs[n], u.maxAttempts) <==> jobs[n].state.Queued? {
      assert RecordOk(u, n, jobs[n]);
    }
  }

  /**
   * An execution that is gone -- its process ended, or the claim was recorded but never returned -- does not
   * hold its job: a complete sweep after the lease leaves no such job running.
   */
  lemma ReaperFreesEveryExpiredJob(u: Setup, steps: seq<Step>, now: int, writes: nat, name: string)
    requires u.maxAttempts >= 1 && name in After(u, steps).jobs && After(u, steps).jobs[name].state.Running?
    requires RequeueOf(After(u, steps).jobs, u.maxAttempts, now, writes).ok
    ensures After(u, steps).jobs[name].leaseExpires.Some?
    ensures name in After(u, steps + [Reap(now, writes)]).jobs
    ensures var j := After(u, steps + [Reap(now, writes)]).jobs[name];
            if After(u, steps).jobs[name].leaseExpires.value > now then j == After(u, steps).jobs[name]
            else if j.attempts < u.maxAttempts then j.state.Queued? else j.state.Failed?
  {
    hide RequeueOf;
    InvAlways(u, steps);
    assert RecordOk(u, name, After(u, steps).jobs[name]);
    AfterConcat(u, steps, Reap(now, writes));
    RequeueReleasesTheExpired(After(u, steps).jobs, u.maxAttempts, now, writes);
  }
}
