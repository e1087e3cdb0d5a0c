/**
 * Workers, heartbeats and the reaper around the job records (internal/jobs/manager.go), as a state
 * machine: every operation of the store is one step, and the steps of different parties come in any order.
 */
module JobProtocol {
  import opened Ordering
  import opened JobStore

  datatype Worker = Idle | Executing(id: string, attempt: int)

  /** The worker names, the lease and the number of attempts a job gets. */
  datatype Setup = Setup(names: set<string>, lease: int, maxAttempts: int)

  datatype System = System(jobs: Jobs, workers: map<string, Worker>)

  /**
   * A heartbeat may come from anyone at any time: the goroutine of an execution can outlive it.
   * `Restart` ends the process wherever it is; the records and the worker names stay.
   */
  datatype Step =
    | Enqueue(job: Job)
    | Take(worker: string, now: int, io: IO)
    | Heartbeat(id: string, worker: string, now: int, written: bool)
    | Complete(worker: string, success: bool, text: string, now: int, io: IO)
    | Reap(now: int, writes: nat)
    | Restart

  predicate IsIdle(s: System, w: string) { w in s.workers && s.workers[w].Idle? }
  predicate IsExecuting(s: System, w: string) { w in s.workers && s.workers[w].Executing? }

  /** A record as `Enqueue` makes it, under an identifier not used before. */
  predicate IsNew(s: System, j: Job) {
    FileOf(j.id) !in s.jobs && j.state.Queued? && j.attempts == 0 && j.leaseOwner == "" && j.leaseExpires.None?
  }

  function ClaimBy(u: Setup, s: System, step: Step): Claim
    requires step.Take?
  {
    ClaimOf(s.jobs, step.worker, u.lease, u.maxAttempts, step.now, step.io)
  }

  function CompletionState(success: bool): JobState { if success then Succeeded else Failed }

  function CompleteBy(s: System, step: Step): Jobs
    requires step.Complete? && IsExecuting(s, step.worker)
  {
    CompleteOf(s.jobs, s.workers[step.worker].id, step.worker, CompletionState(step.success),
               if step.success then step.text else "", if step.success then "" else step.text, step.now, step.io).0
  }

  /** One step; a step its party cannot take changes nothing. */
  function Next(u: Setup, s: System, step: Step): System {
    match step
    case Enqueue(j) => if IsNew(s, j) then s.(jobs := s.jobs[FileOf(j.id) := j]) else s
    case Take(w, _, _) =>
      if !IsIdle(s, w) then s
      else
        var claim := ClaimBy(u, s, step);
        System(claim.jobs, s.workers[w := if claim.job.Some? then Executing(claim.job.value.id, claim.job.value.attempts) else Idle])
    case Heartbeat(id, w, now, written) => s.(jobs := HeartbeatOf(s.jobs, id, w, u.lease, now, written).0)
    case Complete(w, _, _, _, _) =>
      if !IsExecuting(s, w) then s else System(CompleteBy(s, step), s.workers[w := Idle])
    case Reap(now, writes) => s.(jobs := RequeueOf(s.jobs, u.maxAttempts, now, writes).jobs)
    case Restart => s.(workers := map w | w in s.workers :: Idle)
  }

  function Initial(u: Setup): System { System(map[], map w | w in u.names :: Idle) }

  /** The state after a run from the beginning. */
  function After(u: Setup, steps: seq<Step>): System
    decreases |steps|
  {
    if steps == [] then Initial(u) else Next(u, After(u, steps[..|steps|-1]), steps[|steps|-1])
  }

  // ----- what one step can do to one record -----

  datatype Change = Same | Claimed(worker: string, now: int) | Renewed(now: int)
                  | Done(worker: string, state: JobState, resultRef: string, error: string, now: int) | Freed(now: int)

  function Applied(u: Setup, j: Job, change: Change): Job {
    match change
    case Same => j
    case Claimed(w, now) => Taken(j, w, u.lease, now)
    case Renewed(now) => Beaten(j, u.lease, now)
    case Done(_, state, resultRef, error, now) => Finished(j, state, resultRef, error, now)
    case Freed(now) => Released(j, u.maxAttempts, now)
  }

  predicate Possible(u: Setup, s: System, step: Step, name: string, j: Job, change: Change) {
    match change
    case Same => true
    case Claimed(w, now) =>
      step.Take? && step.worker == w && step.now == now && IsIdle(s, w) && step.io.written && Claimable(j, u.maxAttempts)
      && NextClaim(s.jobs, u.maxAttempts) == Some(name)
    case Renewed(now) => step.Heartbeat? && j.state.Running?
    case Done(w, state, resultRef, error, now) =>
      step.Complete? && step.worker == w && IsExecuting(s, w) && name == FileOf(s.workers[w].id)
      && j.state.Running? && j.leaseOwner == w && state == CompletionState(step.success)
      && (step.success ==> resultRef == step.text)
    case Freed(now) => step.Reap? && Expired(j, now)
  }

  /** Every step changes a record in one of five ways, and no step removes one. */
  lemma ChangeOf(u: Setup, s: System, step: Step, name: string) returns (change: Change)
    requires name in s.jobs
    ensures name in Next(u, s, step).jobs
    ensures Next(u, s, step).jobs[name] == Applied(u, s.jobs[name], change)
    ensures Possible(u, s, step, name, s.jobs[name], change)
  {
    hide NextClaim, RequeueOf, SortedSet;
    change := Same;
    var j, after := s.jobs[name], Next(u, s, step);
    match step
    case Enqueue(_) =>
    case Take(w, now, io) =>
      ClaimTakesTheFirst(s.jobs, u.maxAttempts);
      if IsIdle(s, w) && NextClaim(s.jobs, u.maxAttempts) == Some(name) && io.written { change := Claimed(w, now); }
    case Heartbeat(id, w, now, written) =>
      if Owns(s.jobs, id, w) && written && name == FileOf(id) { change := Renewed(now); }
    case Complete(w, success, text, now, io) =>
      if IsExecuting(s, w) && name == FileOf(s.workers[w].id) && Accepts(s.jobs, s.workers[w].id, w, CompletionState(success), io) {
        change := Done(w, CompletionState(success), if success then text else "", if success then "" else text, now);
      }
    case Reap(now, writes) =>
      RequeueReleasesTheExpired(s.jobs, u.maxAttempts, now, writes);
      if after.jobs[name] != j { change := Freed(now); }
    case Restart =>
  }

  // ----- the invariant -----

  predicate RecordOk(u: Setup, name: string, j: Job) {
    && name == FileOf(j.id) && 0 <= j.attempts <= u.maxAttempts
    && (j.state.Queued? ==> j.attempts < u.maxAttempts)
    && (j.state.Running? ==> j.attempts >= 1 && j.leaseExpires.Some?)
    && (!j.state.Running? ==> j.leaseOwner == "" && j.leaseExpires.None?)
  }

  /** What a worker believes it executes was claimed by it, and is stale once the record has moved on. */
  predicate WorkerOk(s: System, w: string) {
    w in s.workers && s.workers[w].Executing? ==>
      var name, a := FileOf(s.workers[w].id), s.workers[w].attempt;
      && name in s.jobs && 1 <= a <= s.jobs[name].attempts
      && (s.jobs[name].state.Running? && s.jobs[name].leaseOwner == w ==> s.jobs[name].attempts == a)
  }

  predicate Apart(s: System, v: string, w: string) {
    v != w && IsExecuting(s, v) && IsExecuting(s, w) && s.workers[v].id == s.workers[w].id ==> s.workers[v].attempt != s.workers[w].attempt
  }

  ghost predicate Inv(u: Setup, s: System) {
    && s.workers.Keys == u.names
    && (forall name :: name in s.jobs ==> RecordOk(u, name, s.jobs[name]))
    && (forall w :: w in s.workers ==> WorkerOk(s, w))
    && (forall v, w :: v in s.workers && w in s.workers ==> Apart(s, v, w))
  }

  lemma RecordStaysOk(u: Setup, s: System, step: Step, name: string)
    requires u.maxAttempts >= 1 && Inv(u, s) && name in Next(u, s, step).jobs
    ensures RecordOk(u, name, Next(u, s, step).jobs[name])
  {
    hide ClaimOf, HeartbeatOf, CompleteOf, RequeueOf;
    if name in s.jobs {
      assert RecordOk(u, name, s.jobs[name]);
      var change := ChangeOf(u, s, step, name);
    } else {
      OnlyEnqueueAdds(u, s, step, name);
    }
  }

  lemma OnlyEnqueueAdds(u: Setup, s: System, step: Step, name: string)
    requires name in Next(u, s, step).jobs && name !in s.jobs
    ensures step.Enqueue? && IsNew(s, step.job) && name == FileOf(step.job.id) && Next(u, s, step).jobs[name] == step.job
  {
    hide NextClaim, RequeueOf;
    if step.Reap? { RequeueReleasesTheExpired(s.jobs, u.maxAttempts, step.now, step.writes); }
  }

  /** A worker that is executing after a step was executing the same before it, or has just claimed. */
  lemma ExecutionOf(u: Setup, s: System, step: Step, w: string)
    requires IsExecuting(Next(u, s, step), w)
    ensures w in s.workers
    ensures
      var after := Next(u, s, step);
      || (s.workers[w] == after.workers[w] && !(step.Complete? && step.worker == w) && !(step.Take? && step.worker == w && IsIdle(s, w)))
      || (&& step.Take? && step.worker == w && IsIdle(s, w) && NextClaim(s.jobs, u.maxAttempts).Some?
          && var name := NextClaim(s.jobs, u.maxAttempts).value;
             name in s.jobs && after.jobs == s.jobs[name := Taken(s.jobs[name], w, u.lease, step.now)]
             && after.workers[w] == Executing(s.jobs[name].id, s.jobs[name].attempts + 1))
  {
    hide NextClaim, HeartbeatOf, RequeueOf, CompleteOf;
  }

  lemma WorkerStaysOk(u: Setup, s: System, step: Step, w: string)
    requires u.maxAttempts >= 1 && Inv(u, s) && w in s.workers
    ensures WorkerOk(Next(u, s, step), w)
  {
    hide ClaimOf, HeartbeatOf, CompleteOf, RequeueOf, NextClaim;
    var after := Next(u, s, step);
    if IsExecuting(after, w) {
      assert WorkerOk(s, w);
      ExecutionOf(u, s, step, w);
      if s.workers[w] == after.workers[w] {
        var name := FileOf(s.workers[w].id);
        var change := ChangeOf(u, s, step, name);
      } else {
        assert RecordOk(u, NextClaim(s.jobs, u.maxAttempts).value, s.jobs[NextClaim(s.jobs, u.maxAttempts).value]);
      }
    }
  }

  lemma WorkersStayApart(u: Setup, s: System, step: Step, v: string, w: string)
    requires Inv(u, s) && v in s.workers && w in s.workers
    ensures Apart(Next(u, s, step), v, w)
  {
    hide ClaimOf, HeartbeatOf, CompleteOf, RequeueOf, NextClaim;
    var after := Next(u, s, step);
    if v != w && IsExecuting(after, v) && IsExecuting(after, w) {
      ExecutionOf(u, s, step, v);
      ExecutionOf(u, s, step, w);
      assert WorkerOk(s, v) && WorkerOk(s, w) && Apart(s, v, w);
      if NextClaim(s.jobs, u.maxAttempts).Some? && NextClaim(s.jobs, u.maxAttempts).value in s.jobs {
        assert RecordOk(u, NextClaim(s.jobs, u.maxAttempts).value, s.jobs[NextClaim(s.jobs, u.maxAttempts).value]);
      }
    }
  }

  lemma {:induction false} StepKeepsInv(u: Setup, s: System, step: Step)
    requires u.maxAttempts >= 1 && Inv(u, s)
    ensures Inv(u, Next(u, s, step))
  {
    hide RecordOk, WorkerOk, Apart, ClaimOf, HeartbeatOf, CompleteOf, RequeueOf;
    var after := Next(u, s, step);
    forall name | name in after.jobs ensures RecordOk(u, name, after.jobs[name]) { RecordStaysOk(u, s, step, name); }
    forall w | w in after.workers ensures WorkerOk(after, w) { WorkerStaysOk(u, s, step, w); }
    forall v, w | v in after.workers && w in after.workers ensures Apart(after, v, w) { WorkersStayApart(u, s, step, v, w); }
  }

  /** The invariant holds after every run. */
  lemma {:induction false} InvAlways(u: Setup, steps: seq<Step>)
    requires u.maxAttempts >= 1
    ensures Inv(u, After(u, steps))
    decreases |steps|
  {
    hide Next;
    if steps != [] {
      InvAlways(u, steps[..|steps|-1]);
      StepKeepsInv(u, After(u, steps[..|steps|-1]), steps[|steps|-1]);
    }
  }
}
