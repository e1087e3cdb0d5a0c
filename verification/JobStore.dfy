/** The persistent job records and the operations on them (internal/store/store.go). */
module JobStore {
  import opened Ordering

  datatype JobState = Queued | Running | Succeeded | Failed
  datatype Job = Job(id: string, kind: string, payload: string, principal: string, state: JobState, attempts: int,
                     leaseOwner: string, leaseExpires: Option<int>, heartbeatAt: int,
                     resultRef: string, error: string, createdAt: int, updatedAt: int)

  /** The records by file name: the directory listing sorts names, not identifiers. */
  type Jobs = map<string, Job>

  function FileOf(id: string): string { id + ".json" }

  /** Whether the record is replaced, and whether the audit entry after it is appended. */
  datatype IO = IO(written: bool, audited: bool)

  predicate Terminal(j: Job) { j.state.Succeeded? || j.state.Failed? }

  // ----- specification -----

  predicate Claimable(j: Job, maxAttempts: int) { j.state.Queued? && j.attempts < maxAttempts }

  function Taken(j: Job, worker: string, lease: int, now: int): Job {
    j.(state := Running, leaseOwner := worker, leaseExpires := Some(now + lease), heartbeatAt := now,
       attempts := j.attempts + 1, updatedAt := now)
  }

  function FirstClaimable(names: seq<string>, jobs: Jobs, maxAttempts: int): Option<string> {
    if names == [] then None
    else if names[0] in jobs && Claimable(jobs[names[0]], maxAttempts) then Some(names[0])
    else FirstClaimable(names[1..], jobs, maxAttempts)
  }

  function NextClaim(jobs: Jobs, maxAttempts: int): Option<string> { FirstClaimable(SortedSet(jobs.Keys), jobs, maxAttempts) }

  datatype Claim = Claim(jobs: Jobs, job: Option<Job>, ok: bool)

  /** A failing audit entry leaves the job claimed although the caller gets an error. */
  function ClaimOf(jobs: Jobs, worker: string, lease: int, maxAttempts: int, now: int, io: IO): Claim {
    match NextClaim(jobs, maxAttempts)
    case None => Claim(jobs, None, true)
    case Some(name) =>
      if !io.written || name !in jobs then Claim(jobs, None, false)
      else
        var j := Taken(jobs[name], worker, lease, now);
        Claim(jobs[name := j], if io.audited then Some(j) else None, io.audited)
  }

  predicate Owns(jobs: Jobs, id: string, worker: string) {
    FileOf(id) in jobs && jobs[FileOf(id)].state.Running? && jobs[FileOf(id)].leaseOwner == worker
  }

  function Beaten(j: Job, lease: int, now: int): Job {
    j.(heartbeatAt := now, leaseExpires := Some(now + lease), updatedAt := now)
  }

  function HeartbeatOf(jobs: Jobs, id: string, worker: string, lease: int, now: int, written: bool): (Jobs, bool) {
    if Owns(jobs, id, worker) && written then (jobs[FileOf(id) := Beaten(jobs[FileOf(id)], lease, now)], true) else (jobs, false)
  }

  function Finished(j: Job, state: JobState, resultRef: string, error: string, now: int): Job {
    j.(state := state, resultRef := resultRef, error := error, leaseOwner := "", leaseExpires := None, updatedAt := now)
  }

  predicate Accepts(jobs: Jobs, id: string, worker: string, state: JobState, io: IO) {
    Owns(jobs, id, worker) && (state.Succeeded? || state.Failed?) && io.written
  }

  function CompleteOf(jobs: Jobs, id: string, worker: string, state: JobState, resultRef: string, error: string, now: int, io: IO): (Jobs, bool) {
    if Accepts(jobs, id, worker, state, io)
    then (jobs[FileOf(id) := Finished(jobs[FileOf(id)], state, resultRef, error, now)], io.audited)
    else (jobs, false)
  }

  predicate Expired(j: Job, now: int) { j.state.Running? && j.leaseExpires.Some? && j.leaseExpires.value <= now }

  const LEASE_EXPIRED := "job lease expired and maximum attempts were reached"

  /** What the reaper makes of a record. */
  function Released(j: Job, maxAttempts: int, now: int): Job {
    if !Expired(j, now) then j
    else if j.attempts >= maxAttempts then j.(state := Failed, error := LEASE_EXPIRED, leaseOwner := "", leaseExpires := None, updatedAt := now)
    else j.(state := Queued, leaseOwner := "", leaseExpires := None, updatedAt := now)
  }

  datatype Requeue = Requeue(jobs: Jobs, count: nat, ok: bool)

  /** The sweep over the listing; it ends at the first record it cannot replace, after `writes` that it could. */
  function RequeueFrom(names: seq<string>, jobs: Jobs, maxAttempts: int, now: int, count: nat, writes: nat): Requeue
    decreases |names|
  {
    if names == [] then Requeue(jobs, count, true)
    else if names[0] !in jobs || !Expired(jobs[names[0]], now) then RequeueFrom(names[1..], jobs, maxAttempts, now, count, writes)
    else if count >= writes then Requeue(jobs, count, false)
    else RequeueFrom(names[1..], jobs[names[0] := Released(jobs[names[0]], maxAttempts, now)], maxAttempts, now, count + 1, writes)
  }

  function RequeueOf(jobs: Jobs, maxAttempts: int, now: int, writes: nat): Requeue {
    RequeueFrom(SortedSet(jobs.Keys), jobs, maxAttempts, now, 0, writes)
  }

  lemma SweepStep(names: seq<string>, i: nat, jobs: Jobs, maxAttempts: int, now: int, count: nat, writes: nat)
    requires i <= |names| && (i < |names| ==> names[i] in jobs)
    ensures RequeueFrom(names[i..], jobs, maxAttempts, now, count, writes) ==
      if i == |names| then Requeue(jobs, count, true)
      else if !Expired(jobs[names[i]], now) then RequeueFrom(names[i+1..], jobs, maxAttempts, now, count, writes)
      else if count >= writes then Requeue(jobs, count, false)
      else RequeueFrom(names[i+1..], jobs[names[i] := Released(jobs[names[i]], maxAttempts, now)], maxAttempts, now, count + 1, writes)
  {
    if i < |names| { assert names[i..][0] == names[i] && names[i..][1..] == names[i+1..]; }
  }

  // ----- idempotent creation -----

  datatype Request = Request(job: Job, fingerprint: string, route: string, key: string, digest: string)
  datatype Record = Record(fingerprint: string, route: string, key: string, digest: string, jobId: string, createdAt: int)

  /** What the disk does during a creation. A crash part-way is the same as every later operation failing. */
  datatype CreateIO = CreateIO(recordReadable: bool, jobReadable: bool, jobWritten: bool, recordWritten: bool, jobRemoved: bool, audited: bool)

  datatype Outcome = Rejected | Conflict | StorageError | Replayed(job: Job) | Fresh(job: Job)
  datatype Creation = Creation(jobs: Jobs, records: map<string, Record>, outcome: Outcome)

  function KeyText(fingerprint: string, route: string, key: string): string { fingerprint + "\0" + route + "\0" + key }

  function RecordId(hash: string -> string, r: Request): string { hash(KeyText(r.fingerprint, r.route, r.key)) }

  function NewRecord(r: Request, now: int): Record { Record(r.fingerprint, r.route, r.key, r.digest, r.job.id, now) }

  /** A record that cannot be read counts as absent. */
  function CreateOf(hash: string -> string, jobs: Jobs, records: map<string, Record>, r: Request, now: int, later: int, io: CreateIO): Creation {
    var id := RecordId(hash, r);
    if r.key == "" || r.digest == "" then Creation(jobs, records, Rejected)
    else if id in records && io.recordReadable then
      Creation(jobs, records,
        if records[id].digest != r.digest then Conflict
        else if FileOf(records[id].jobId) in jobs && io.jobReadable then Replayed(jobs[FileOf(records[id].jobId)])
        else StorageError)
    else
      var job := r.job.(createdAt := now, updatedAt := now);
      if !io.jobWritten then Creation(jobs, records, StorageError)
      else if !io.recordWritten then
        var added := jobs[FileOf(job.id) := job];
        Creation(if io.jobRemoved then added - {FileOf(job.id)} else added, records, StorageError)
      else
        Creation(jobs[FileOf(job.id) := job], records[id := NewRecord(r, later)], if io.audited then Fresh(job) else StorageError)
  }

  // ----- the same, as the store does it -----

  class Store {
    var jobs: Jobs
    var records: map<string, Record>

    constructor (jobs: Jobs, records: map<string, Record>)
      ensures this.jobs == jobs && this.records == records
    {
      this.jobs, this.records := jobs, records;
    }

    method CreateJobIdempotent(hash: string -> string, r: Request, now: int, later: int, io: CreateIO) returns (outcome: Outcome)
      modifies this
      ensures Creation(jobs, records, outcome) == CreateOf(hash, old(jobs), old(records), r, now, later, io)
    {
      if r.key == "" || r.digest == "" {
        return Rejected;
      }
      var id := RecordId(hash, r);
      if id in records && io.recordReadable {
        var existing := records[id];
        if existing.digest != r.digest {
          return Conflict;
        }
        if FileOf(existing.jobId) !in jobs || !io.jobReadable {
          return StorageError;
        }
        return Replayed(jobs[FileOf(existing.jobId)]);
      }
      var job := r.job.(createdAt := now, updatedAt := now);
      if !io.jobWritten {
        return StorageError;
      }
      jobs := jobs[FileOf(job.id) := job];
      if !io.recordWritten {
        if io.jobRemoved {
          jobs := jobs - {FileOf(job.id)};
        }
        return StorageError;
      }
      records := records[id := Record(r.fingerprint, r.route, r.key, r.digest, job.id, later)];
      if !io.audited {
        return StorageError;
      }
      return Fresh(job);
    }

    method ClaimNextJob(worker: string, lease: int, maxAttempts: int, now: int, io: IO) returns (job: Option<Job>, ok: bool)
      modifies `jobs
      ensures Claim(jobs, job, ok) == ClaimOf(old(jobs), worker, lease, maxAttempts, now, io)
    {
      hide StrictlyOrdered, StringLess, Claimable, Taken;
      var names := SortedKeys(jobs.Keys);
      SortedSetIsUnique(names, jobs.Keys);
      for i := 0 to |names|
        invariant jobs == old(jobs)
        invariant FirstClaimable(names, jobs, maxAttempts) == FirstClaimable(names[i..], jobs, maxAttempts)
      {
        var name := names[i];
        assert names[i..][0] == name && names[i..][1..] == names[i+1..];
        if Claimable(jobs[name], maxAttempts) {
          if !io.written {
            return None, false;
          }
          var j := Taken(jobs[name], worker, lease, now);
          jobs := jobs[name := j];
          if !io.audited {
            return None, false;
          }
          return Some(j), true;
        }
      }
      return None, true;
    }

    method HeartbeatJob(id: string, worker: string, lease: int, now: int, written: bool) returns (ok: bool)
      modifies `jobs
      ensures (jobs, ok) == HeartbeatOf(old(jobs), id, worker, lease, now, written)
    {
      var name := FileOf(id);
      if name !in jobs {
        return false;
      }
      var j := jobs[name];
      if j.state != Running || j.leaseOwner != worker {
        return false;
      }
      if !written {
        return false;
      }
      jobs := jobs[name := j.(heartbeatAt := now, leaseExpires := Some(now + lease), updatedAt := now)];
      return true;
    }

    method CompleteJob(id: string, worker: string, state: JobState, resultRef: string, error: string, now: int, io: IO) returns (ok: bool)
      modifies `jobs
      ensures (jobs, ok) == CompleteOf(old(jobs), id, worker, state, resultRef, error, now, io)
    {
      var name := FileOf(id);
      if name !in jobs {
        return false;
      }
      var j := jobs[name];
      if j.state != Running || j.leaseOwner != worker {
        return false;
      }
      if state != Succeeded && state != Failed {
        return false;
      }
      j := j.(state := state, resultRef := resultRef, error := error);
      j := j.(leaseOwner := "", leaseExpires := None, updatedAt := now);
      if !io.written {
        return false;
      }
      jobs := jobs[name := j];
      return io.audited;
    }

    method RequeueExpiredJobs(maxAttempts: int, now: int, writes: nat) returns (count: nat, ok: bool)
      modifies `jobs
      ensures Requeue(jobs, count, ok) == RequeueOf(old(jobs), maxAttempts, now, writes)
    {
      hide StrictlyOrdered, StringLess, RequeueFrom;
      var names := SortedKeys(jobs.Keys);
      SortedSetIsUnique(names, jobs.Keys);
      count := 0;
      assert names[0..] == names;
      for i := 0 to |names|
        invariant jobs.Keys == old(jobs).Keys
        invariant RequeueOf(old(jobs), maxAttempts, now, writes) == RequeueFrom(names[i..], jobs, maxAttempts, now, count, writes)
      {
        var name := names[i];
        SweepStep(names, i, jobs, maxAttempts, now, count, writes);
        var j := jobs[name];
        if j.state == Running && j.leaseExpires != None && j.leaseExpires.value <= now {
          if j.attempts >= maxAttempts {
            j := j.(state := Failed, error := LEASE_EXPIRED);
          } else {
            j := j.(state := Queued);
          }
          j := j.(leaseOwner := "", leaseExpires := None, updatedAt := now);
          if count >= writes {
            return count, false;
          }
          jobs := jobs[name := j];
          count := count + 1;
        }
      }
      SweepStep(names, |names|, jobs, maxAttempts, now, count, writes);
      ok := true;
    }
  }

  // ----- what they mean -----

  predicate CanClaim(jobs: Jobs, name: string, maxAttempts: int) { name in jobs && Claimable(jobs[name], maxAttempts) }

  /** The claimable name found stands at position `i`, after names that are not claimable. */
  lemma {:induction false} FirstClaimableIsFirst(names: seq<string>, jobs: Jobs, maxAttempts: int) returns (i: nat)
    ensures i <= |names| && (forall k :: 0 <= k < i ==> !CanClaim(jobs, names[k], maxAttempts))
    ensures FirstClaimable(names, jobs, maxAttempts) == if i == |names| then None else Some(names[i])
    ensures i < |names| ==> CanClaim(jobs, names[i], maxAttempts)
    decreases |names|
  {
    i := 0;
    if names != [] && !CanClaim(jobs, names[0], maxAttempts) {
      i := FirstClaimableIsFirst(names[1..], jobs, maxAttempts);
      i := i + 1;
      forall k | 0 <= k < i ensures !CanClaim(jobs, names[k], maxAttempts) {
        if k > 0 { assert names[1..][k-1] == names[k]; }
      }
    }
  }

  /** A claim takes the first claimable record by file name, and finds none only when there is none. */
  lemma ClaimTakesTheFirst(jobs: Jobs, maxAttempts: int)
    ensures NextClaim(jobs, maxAttempts).None? <==> forall n :: n in jobs ==> !CanClaim(jobs, n, maxAttempts)
    ensures NextClaim(jobs, maxAttempts).Some? ==>
      var name := NextClaim(jobs, maxAttempts).value;
      && CanClaim(jobs, name, maxAttempts)
      && forall n :: n in jobs && CanClaim(jobs, n, maxAttempts) ==> n == name || StringLess(name, n)
  {
    hide StringLess, CanClaim, FirstClaimable;
    var names := SortedSet(jobs.Keys);
    var i := FirstClaimableIsFirst(names, jobs, maxAttempts);
    forall n | n in jobs && CanClaim(jobs, n, maxAttempts) ensures i < |names| && (n == names[i] || StringLess(names[i], n)) {
      assert n in names;
      var k :| 0 <= k < |names| && names[k] == n;
      assert k >= i;
    }
    if i < |names| { assert names[i] in names; }
  }

  /** The sweep treats every record on its own, and reaches every one of them unless a write fails. */
  lemma UnexpiredStays(j: Job, maxAttempts: int, now: int)
    ensures !Expired(j, now) ==> Released(j, maxAttempts, now) == j
  {}

  lemma {:induction false} SweepIsPointwise(names: seq<string>, jobs: Jobs, maxAttempts: int, now: int, count: nat, writes: nat)
    requires Distinct(names) && forall n :: n in names ==> n in jobs
    ensures var r := RequeueFrom(names, jobs, maxAttempts, now, count, writes);
            && r.jobs.Keys == jobs.Keys
            && (forall n :: n in jobs && n !in names ==> r.jobs[n] == jobs[n])
            && (forall n :: n in jobs ==> r.jobs[n] == jobs[n] || r.jobs[n] == Released(jobs[n], maxAttempts, now))
            && (r.ok ==> forall n :: n in names ==> r.jobs[n] == Released(jobs[n], maxAttempts, now))
            && r.count <= count + |names|
            && (!r.ok ==> r.count >= writes)
    decreases |names|
  {
    hide Released, Expired;
    if names != [] {
      var n := names[0];
      UnexpiredStays(jobs[n], maxAttempts, now);
      assert forall k :: k in names[1..] ==> k in names && k != n;
      assert names == [n] + names[1..];
      if !Expired(jobs[n], now) {
        SweepIsPointwise(names[1..], jobs, maxAttempts, now, count, writes);
      } else if count < writes {
        SweepIsPointwise(names[1..], jobs[n := Released(jobs[n], maxAttempts, now)], maxAttempts, now, count + 1, writes);
      }
    }
  }

  /** Without a failing write, requeueing releases exactly the expired records. */
  lemma RequeueReleasesTheExpired(jobs: Jobs, maxAttempts: int, now: int, writes: nat)
    ensures var r := RequeueOf(jobs, maxAttempts, now, writes);
            && r.jobs.Keys == jobs.Keys
            && (forall n :: n in jobs ==> r.jobs[n] == jobs[n] || r.jobs[n] == Released(jobs[n], maxAttempts, now))
            && (writes > |jobs| ==> r.ok)
            && (r.ok ==> r.jobs == map n | n in jobs :: Released(jobs[n], maxAttempts, now))
  {
    var names := SortedSet(jobs.Keys);
    StrictlyOrderedIsDistinct(names);
    SweepIsPointwise(names, jobs, maxAttempts, now, 0, writes);
    DistinctLength(names, jobs.Keys);
  }

  lemma {:induction false} DistinctLength(names: seq<string>, s: set<string>)
    requires Distinct(names) && forall n :: n in names <==> n in s
    ensures |names| == |s|
    decreases |names|
  {
    if names != [] {
      assert names == [names[0]] + names[1..];
      assert forall k :: k in names[1..] <==> k in s - {names[0]};
      DistinctLength(names[1..], s - {names[0]});
    } else {
      assert s == {};
    }
  }
}
