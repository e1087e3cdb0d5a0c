/** Leases over whole runs of the job queue (internal/store/store.go with internal/jobs/manager.go). */
module JobLeases {
  import opened Ordering
  import opened JobStore
  import opened JobProtocol
  import opened JobGuarantees

  /** The step hands the job to a worker, or its owner's heartbeat is recorded. */
  predicate Leases(u: Setup, s: System, step: Step, name: string) {
    || (step.Take? && IsIdle(s, step.worker) && step.io.written && NextClaim(s.jobs, u.maxAttempts) == Some(name))
    || (step.Heartbeat? && step.written && FileOf(step.id) == name && Owns(s.jobs, step.id, step.worker))
  }

  function LeaseTime(step: Step): int {
    match step
    case Take(_, now, _) => now
    case Heartbeat(_, _, now, _) => now
    case _ => 0
  }

  /** When the job was last handed out or renewed in a run; read off the steps, not off the record. */
  function LastLease(u: Setup, steps: seq<Step>, name: string): Option<int>
    decreases |steps|
  {
    if steps == [] then None
    else
      var n := |steps| - 1;
      if Leases(u, After(u, steps[..n]), steps[n], name) then Some(LeaseTime(steps[n])) else LastLease(u, steps[..n], name)
  }

  /** A step that leases the job sets its lease to end one lease after that moment; any other leaves it or ends it. */
  lemma LeaseStep(u: Setup, s: System, step: Step, name: string)
    requires u.maxAttempts >= 1 && Inv(u, s) && name in Next(u, s, step).jobs && Next(u, s, step).jobs[name].state.Running?
    ensures Leases(u, s, step, name) ==> Next(u, s, step).jobs[name].leaseExpires == Some(LeaseTime(step) + u.lease)
    ensures !Leases(u, s, step, name) ==>
      name in s.jobs && s.jobs[name].state.Running? && Next(u, s, step).jobs[name].leaseExpires == s.jobs[name].leaseExpires
  {
    hide RequeueOf, CompleteOf, NextClaim;
    ClaimTakesTheFirst(s.jobs, u.maxAttempts);
    if name in s.jobs {
      assert RecordOk(u, name, s.jobs[name]);
    } else {
      OnlyEnqueueAdds(u, s, step, name);
    }
    var change := ChangeOf(u, s, step, name);
  }

  /** The lease of every running job ends exactly one lease after it was last handed out or renewed. */
  lemma {:induction false} LeaseRunsFromTheLast(u: Setup, steps: seq<Step>, name: string)
    requires u.maxAttempts >= 1 && name in After(u, steps).jobs && After(u, steps).jobs[name].state.Running?
    ensures LastLease(u, steps, name).Some?
    ensures After(u, steps).jobs[name].leaseExpires == Some(LastLease(u, steps, name).value + u.lease)
    decreases |steps|
  {
    hide Next, Inv, Leases, LeaseTime;
    if steps != [] {
      var n := |steps| - 1;
      InvAlways(u, steps[..n]);
      LeaseStep(u, After(u, steps[..n]), steps[n], name);
      if !Leases(u, After(u, steps[..n]), steps[n], name) { LeaseRunsFromTheLast(u, steps[..n], name); }
    }
  }

  /** A sweep within a lease of the last claim or renewal leaves a running job as it is; a complete one after it does not. */
  lemma ReaperRespectsTheLease(u: Setup, steps: seq<Step>, name: string, now: int, writes: nat)
    requires u.maxAttempts >= 1 && name in After(u, steps).jobs && After(u, steps).jobs[name].state.Running?
    ensures LastLease(u, steps, name).Some? && name in After(u, steps + [Reap(now, writes)]).jobs
    ensures now < LastLease(u, steps, name).value + u.lease ==> After(u, steps + [Reap(now, writes)]).jobs[name] == After(u, steps).jobs[name]
    ensures now >= LastLease(u, steps, name).value + u.lease && RequeueOf(After(u, steps).jobs, u.maxAttempts, now, writes).ok ==>
      !After(u, steps + [Reap(now, writes)]).jobs[name].state.Running?
  {
    hide RequeueOf;
    LeaseRunsFromTheLast(u, steps, name);
    AfterConcat(u, steps, Reap(now, writes));
    RequeueReleasesTheExpired(After(u, steps).jobs, u.maxAttempts, now, writes);
  }

  // ----- a worker that keeps its lease keeps its job -----

  /** The worker runs the job's current attempt, and the record says so. */
  predicate Holds(s: System, w: string, name: string) {
    Fenced(s, w) && FileOf(s.workers[w].id) == name && s.jobs[name].state.Running? && s.jobs[name].leaseOwner == w
  }

  /** Every sweep comes within a lease of the last claim or renewal of the job. */
  ghost predicate Renewed(u: Setup, before: seq<Step>, more: seq<Step>, name: string)
    decreases |more|
  {
    more == [] ||
    (var n := |more| - 1;
     Renewed(u, before, more[..n], name)
     && (more[n].Reap? ==>
           LastLease(u, before + more[..n], name).Some? && more[n].now < LastLease(u, before + more[..n], name).value + u.lease))
  }

  /** The process goes on, and the worker is still at work. */
  predicate AtWork(more: seq<Step>, w: string) {
    forall k :: k in more ==> !k.Restart? && !(k.Complete? && k.worker == w)
  }

  lemma HoldingStep(u: Setup, s: System, step: Step, w: string, name: string)
    requires u.maxAttempts >= 1 && Inv(u, s) && Holds(s, w, name) && !step.Restart? && !(step.Complete? && step.worker == w)
    requires step.Reap? ==> Next(u, s, step).jobs.Keys >= {name} && Next(u, s, step).jobs[name] == s.jobs[name]
    ensures Holds(Next(u, s, step), w, name) && Next(u, s, step).workers[w] == s.workers[w]
  {
    hide RequeueOf, NextClaim, ClaimOf, HeartbeatOf, CompleteOf;
    assert RecordOk(u, name, s.jobs[name]);
    var change := ChangeOf(u, s, step, name);
    WorkerStays(u, s, step, w);
  }

  lemma WorkerStays(u: Setup, s: System, step: Step, w: string)
    requires IsExecuting(s, w) && !step.Restart? && !(step.Complete? && step.worker == w)
    ensures w in Next(u, s, step).workers && Next(u, s, step).workers[w] == s.workers[w]
  {
    hide RequeueOf, ClaimOf, HeartbeatOf, CompleteOf;
  }

  /**
   * A worker whose claim and heartbeats come less than one lease before every sweep never loses its job, whatever the
   * other workers do: it still holds the same attempt, and its completion will be accepted.
   */
  lemma {:induction false} RenewedJobIsKept(u: Setup, before: seq<Step>, more: seq<Step>, w: string, name: string)
    requires u.maxAttempts >= 1 && Holds(After(u, before), w, name) && AtWork(more, w) && Renewed(u, before, more, name)
    ensures Holds(After(u, before + more), w, name) && After(u, before + more).workers[w] == After(u, before).workers[w]
    decreases |more|
  {
    hide Next, Inv, LastLease, Holds, After, RequeueOf;
    if more == [] {
      assert before + more == before;
    } else {
      var n := |more| - 1;
      assert more[n] in more && forall k :: k in more[..n] ==> k in more;
      RenewedJobIsKept(u, before, more[..n], w, name);
      var steps := before + more[..n];
      assert before + more == steps + [more[n]];
      AfterConcat(u, steps, more[n]);
      InvAlways(u, steps);
      HoldsMeans(After(u, steps), w, name);
      if more[n].Reap? { ReaperRespectsTheLease(u, steps, name, more[n].now, more[n].writes); }
      HoldingStep(u, After(u, steps), more[n], w, name);
    }
  }

  lemma HoldsMeans(s: System, w: string, name: string)
    requires Holds(s, w, name)
    ensures name in s.jobs && s.jobs[name].state.Running?
  {}

  // ----- what never changes -----

  /** What a job is, as opposed to how far it has come. */
  predicate SameJob(a: Job, b: Job) {
    a.id == b.id && a.kind == b.kind && a.payload == b.payload && a.principal == b.principal && a.createdAt == b.createdAt
  }

  lemma SameJobStep(u: Setup, s: System, step: Step, name: string)
    requires name in s.jobs
    ensures name in Next(u, s, step).jobs && SameJob(s.jobs[name], Next(u, s, step).jobs[name])
  {
    hide Next, NextClaim;
    var change := ChangeOf(u, s, step, name);
  }

  /** No operation alters a job's identifier, kind, payload, principal or time of creation, and none removes it. */
  lemma {:induction false} JobStaysItself(u: Setup, steps: seq<Step>, more: seq<Step>, name: string)
    requires name in After(u, steps).jobs
    ensures name in After(u, steps + more).jobs && SameJob(After(u, steps).jobs[name], After(u, steps + more).jobs[name])
    decreases |more|
  {
    hide Next;
    if more == [] {
      assert steps + more == steps;
    } else {
      var n := |more| - 1;
      JobStaysItself(u, steps, more[..n], name);
      assert steps + more == (steps + more[..n]) + [more[n]];
      AfterConcat(u, steps + more[..n], more[n]);
      SameJobStep(u, After(u, steps + more[..n]), more[n], name);
    }
  }

  // ----- what the records say -----

  lemma ClaimStep(u: Setup, s: System, w: string, now: int, name: string)
    requires IsIdle(s, w) && NextClaim(s.jobs, u.maxAttempts) == Some(name) && name in s.jobs && FileOf(s.jobs[name].id) == name
    ensures var t := Next(u, s, Take(w, now, IO(true, true)));
            && t.jobs == s.jobs[name := Taken(s.jobs[name], w, u.lease, now)]
            && t.workers == s.workers[w := Executing(s.jobs[name].id, s.jobs[name].attempts + 1)]
  {
    hide NextClaim, FileOf;
  }

  /** A claim that returns a job makes the worker its holder, on the attempt after the last one, with a full lease. */
  lemma ClaimIsRecorded(u: Setup, steps: seq<Step>, w: string, now: int)
    requires u.maxAttempts >= 1 && IsIdle(After(u, steps), w) && NextClaim(After(u, steps).jobs, u.maxAttempts).Some?
    ensures var name := NextClaim(After(u, steps).jobs, u.maxAttempts).value;
            var s, t := After(u, steps), After(u, steps + [Take(w, now, IO(true, true))]);
            && name in s.jobs && Holds(t, w, name) && t.workers[w].attempt == s.jobs[name].attempts + 1
            && t.jobs[name].attempts == s.jobs[name].attempts + 1 && t.jobs[name].leaseExpires == Some(now + u.lease)
            && t.jobs[name].heartbeatAt == now && t.jobs[name].updatedAt == now
  {
    hide NextClaim, Next, After, FileOf;
    InvAlways(u, steps);
    AfterConcat(u, steps, Take(w, now, IO(true, true)));
    ClaimTakesTheFirst(After(u, steps).jobs, u.maxAttempts);
    var name := NextClaim(After(u, steps).jobs, u.maxAttempts).value;
    assert RecordOk(u, name, After(u, steps).jobs[name]);
    ClaimStep(u, After(u, steps), w, now, name);
  }

  /** A completion by the holder is recorded with its outcome and frees the record. */
  lemma CompletionIsRecorded(u: Setup, steps: seq<Step>, w: string, name: string, success: bool, text: string, now: int, audited: bool)
    requires u.maxAttempts >= 1 && Holds(After(u, steps), w, name)
    ensures name in After(u, steps + [Complete(w, success, text, now, IO(true, audited))]).jobs
    ensures var j := After(u, steps + [Complete(w, success, text, now, IO(true, audited))]).jobs[name];
            && (if success then j.state.Succeeded? && j.resultRef == text && j.error == ""
                else j.state.Failed? && j.resultRef == "" && j.error == text)
            && j.leaseOwner == "" && j.leaseExpires == None && j.updatedAt == now && j.attempts == After(u, steps).jobs[name].attempts
  {
    AfterConcat(u, steps, Complete(w, success, text, now, IO(true, audited)));
  }

  /** A job that the sweep gives up on says why, and any it puts back waits for the next attempt. */
  lemma ReleaseIsRecorded(u: Setup, steps: seq<Step>, name: string, now: int, writes: nat)
    requires u.maxAttempts >= 1 && name in After(u, steps).jobs && After(u, steps).jobs[name].state.Running?
    ensures name in After(u, steps + [Reap(now, writes)]).jobs
    ensures var i, j := After(u, steps).jobs[name], After(u, steps + [Reap(now, writes)]).jobs[name];
            j != i ==>
              && j.leaseOwner == "" && j.leaseExpires == None && j.updatedAt == now && j.attempts == i.attempts && j.resultRef == i.resultRef
              && (if i.attempts >= u.maxAttempts then j.state.Failed? && j.error == "job lease expired and maximum attempts were reached"
                  else j.state.Queued? && j.error == i.error)
  {
    hide RequeueOf;
    AfterConcat(u, steps, Reap(now, writes));
    RequeueReleasesTheExpired(After(u, steps).jobs, u.maxAttempts, now, writes);
  }
}
