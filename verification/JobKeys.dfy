/** Idempotency keys over whole runs of the queue (internal/store/store.go, `CreateJobIdempotent`). */
module JobKeys {
  import opened Ordering
  import opened JobStore
  import opened JobProtocol

  datatype Queue = Queue(system: System, records: map<string, Record>)

  /** A request whose job has an identifier not used before, or anything else the queue does. */
  datatype Event = Create(request: Request, now: int, later: int) | Other(step: Step)

  const FAULTLESS := CreateIO(true, true, true, true, true, true)

  function CreateIn(hash: string -> string, q: Queue, r: Request, now: int, later: int): Creation {
    CreateOf(hash, q.system.jobs, q.records, r, now, later, FAULTLESS)
  }

  function NextQueue(u: Setup, hash: string -> string, q: Queue, e: Event): Queue {
    match e
    case Create(r, now, later) =>
      if FileOf(r.job.id) in q.system.jobs then q
      else
        var creation := CreateIn(hash, q, r, now, later);
        Queue(q.system.(jobs := creation.jobs), creation.records)
    case Other(step) => if step.Enqueue? then q else q.(system := Next(u, q.system, step))
  }

  function QueueAfter(u: Setup, hash: string -> string, events: seq<Event>): Queue
    decreases |events|
  {
    if events == [] then Queue(Initial(u), map[])
    else NextQueue(u, hash, QueueAfter(u, hash, events[..|events|-1]), events[|events|-1])
  }

  // ----- records and jobs stand in one-to-one correspondence -----

  ghost predicate HasJob(hash: string -> string, jobs: Jobs, id: string, r: Record) {
    id == hash(KeyText(r.fingerprint, r.route, r.key)) && FileOf(r.jobId) in jobs
  }

  ghost predicate HasRecord(records: map<string, Record>, name: string) {
    exists id :: id in records && FileOf(records[id].jobId) == name
  }

  ghost predicate OwnJobs(records: map<string, Record>) {
    forall a, b :: a in records && b in records && a != b ==> FileOf(records[a].jobId) != FileOf(records[b].jobId)
  }

  ghost predicate Paired(hash: string -> string, q: Queue) {
    && (forall id :: id in q.records ==> HasJob(hash, q.system.jobs, id, q.records[id]))
    && (forall name :: name in q.system.jobs ==> HasRecord(q.records, name))
    && OwnJobs(q.records)
  }

  lemma SameNames(u: Setup, s: System, step: Step)
    requires !step.Enqueue?
    ensures Next(u, s, step).jobs.Keys == s.jobs.Keys
  {
    hide Next;
    forall name | name in s.jobs ensures name in Next(u, s, step).jobs { var change := ChangeOf(u, s, step, name); }
    forall name | name in Next(u, s, step).jobs ensures name in s.jobs {
      if name !in s.jobs { OnlyEnqueueAdds(u, s, step, name); }
    }
  }

  lemma CreationShape(hash: string -> string, q: Queue, r: Request, now: int, later: int)
    ensures var creation, id := CreateIn(hash, q, r, now, later), RecordId(hash, r);
            || (creation.jobs == q.system.jobs && creation.records == q.records)
            || (id !in q.records && creation.records == q.records[id := NewRecord(r, later)]
                && creation.jobs.Keys == q.system.jobs.Keys + {FileOf(r.job.id)})
  {}

  lemma OneMoreOwnJob(records: map<string, Record>, id: string, r: Record)
    requires OwnJobs(records) && id !in records
    requires forall k :: k in records ==> FileOf(records[k].jobId) != FileOf(r.jobId)
    ensures OwnJobs(records[id := r])
  {
    hide FileOf;
  }

  lemma OneMoreRecord(records: map<string, Record>, id: string, r: Record, name: string)
    requires id !in records && (name == FileOf(r.jobId) || HasRecord(records, name))
    ensures HasRecord(records[id := r], name)
  {
    hide FileOf;
    var more := records[id := r];
    if name == FileOf(r.jobId) {
      assert id in more && FileOf(more[id].jobId) == name;
    } else {
      var k :| k in records && FileOf(records[k].jobId) == name;
      assert k in more && FileOf(more[k].jobId) == name;
    }
  }

  lemma PairedCreation(hash: string -> string, q: Queue, r: Request, now: int, later: int)
    requires Paired(hash, q) && FileOf(r.job.id) !in q.system.jobs
    ensures var creation := CreateIn(hash, q, r, now, later);
            Paired(hash, Queue(q.system.(jobs := creation.jobs), creation.records))
  {
    hide CreateIn, FileOf, KeyText, OwnJobs, HasRecord;
    CreationShape(hash, q, r, now, later);
    var creation := CreateIn(hash, q, r, now, later);
    var id, name := RecordId(hash, r), FileOf(r.job.id);
    if creation.records != q.records {
      forall k | k in q.records ensures FileOf(q.records[k].jobId) != name {
        assert HasJob(hash, q.system.jobs, k, q.records[k]);
      }
      OneMoreOwnJob(q.records, id, NewRecord(r, later));
      forall n | n in creation.jobs ensures HasRecord(creation.records, n) {
        OneMoreRecord(q.records, id, NewRecord(r, later), n);
      }
    }
  }

  lemma PairedStep(u: Setup, hash: string -> string, q: Queue, e: Event)
    requires Paired(hash, q)
    ensures Paired(hash, NextQueue(u, hash, q, e))
  {
    hide Next, CreateOf, HasRecord, OwnJobs;
    match e
    case Other(step) =>
      if !step.Enqueue? {
        SameNames(u, q.system, step);
        var after := NextQueue(u, hash, q, e);
        assert after.system.jobs.Keys == q.system.jobs.Keys;
        assert forall id :: id in after.records ==> HasJob(hash, q.system.jobs, id, after.records[id]);
      }
    case Create(r, now, later) =>
      if FileOf(r.job.id) !in q.system.jobs { PairedCreation(hash, q, r, now, later); }
  }

  /** After every run: one record for every job and one job for every record. */
  lemma {:induction false} AlwaysPaired(u: Setup, hash: string -> string, events: seq<Event>)
    ensures Paired(hash, QueueAfter(u, hash, events))
    decreases |events|
  {
    hide NextQueue;
    if events == [] {
      assert QueueAfter(u, hash, events).records == map[] && QueueAfter(u, hash, events).system.jobs == map[];
    } else {
      AlwaysPaired(u, hash, events[..|events|-1]);
      PairedStep(u, hash, QueueAfter(u, hash, events[..|events|-1]), events[|events|-1]);
    }
  }

  lemma CreationSize(hash: string -> string, q: Queue, r: Request, now: int, later: int)
    requires |q.system.jobs.Keys| == |q.records.Keys| && FileOf(r.job.id) !in q.system.jobs.Keys
    ensures var creation := CreateIn(hash, q, r, now, later); |creation.jobs.Keys| == |creation.records.Keys|
  {
    hide CreateIn, RecordId, NewRecord, FileOf;
    CreationShape(hash, q, r, now, later);
    var creation := CreateIn(hash, q, r, now, later);
    if creation.records != q.records {
      assert creation.records.Keys == q.records.Keys + {RecordId(hash, r)};
    }
  }

  lemma SizeStep(u: Setup, hash: string -> string, q: Queue, e: Event)
    requires |q.system.jobs.Keys| == |q.records.Keys|
    ensures var after := NextQueue(u, hash, q, e); |after.system.jobs.Keys| == |after.records.Keys|
  {
    hide Next, CreateIn, FileOf;
    if e.Create? {
      if FileOf(e.request.job.id) !in q.system.jobs { CreationSize(hash, q, e.request, e.now, e.later); }
    } else if !e.step.Enqueue? {
      SameNames(u, q.system, e.step);
    }
  }

  /** The number of jobs ever created is the number of different keys: one job per key, none without. */
  lemma {:induction false} AsManyJobsAsKeys(u: Setup, hash: string -> string, events: seq<Event>)
    ensures |QueueAfter(u, hash, events).system.jobs.Keys| == |QueueAfter(u, hash, events).records.Keys|
    decreases |events|
  {
    hide NextQueue;
    if events != [] {
      AsManyJobsAsKeys(u, hash, events[..|events|-1]);
      SizeStep(u, hash, QueueAfter(u, hash, events[..|events|-1]), events[|events|-1]);
    }
  }

  // ----- replay -----

  lemma RecordStep(u: Setup, hash: string -> string, q: Queue, e: Event, id: string)
    requires id in q.records
    ensures id in NextQueue(u, hash, q, e).records && NextQueue(u, hash, q, e).records[id] == q.records[id]
  {
    hide Next;
  }

  lemma {:induction false} RecordIsForever(u: Setup, hash: string -> string, events: seq<Event>, more: seq<Event>, id: string)
    requires id in QueueAfter(u, hash, events).records
    ensures id in QueueAfter(u, hash, events + more).records
    ensures QueueAfter(u, hash, events + more).records[id] == QueueAfter(u, hash, events).records[id]
    decreases |more|
  {
    hide NextQueue;
    if more == [] {
      assert events + more == events;
    } else {
      var n := |more| - 1;
      RecordIsForever(u, hash, events, more[..n], id);
      RecordStep(u, hash, QueueAfter(u, hash, events + more[..n]), more[n], id);
      assert events + more == (events + more[..n]) + [more[n]];
      assert (events + more)[..|events + more| - 1] == events + more[..n];
    }
  }

  /** The first accepted request under a key creates its job; a request may be accepted only if it has a key and a digest. */
  lemma FirstCreates(u: Setup, hash: string -> string, events: seq<Event>, r: Request, now: int, later: int)
    requires RecordId(hash, r) !in QueueAfter(u, hash, events).records && FileOf(r.job.id) !in QueueAfter(u, hash, events).system.jobs
    ensures var q := QueueAfter(u, hash, events);
            var creation, after := CreateIn(hash, q, r, now, later), QueueAfter(u, hash, events + [Create(r, now, later)]);
            if r.key == "" || r.digest == "" then creation.outcome == Rejected && after == q
            else
              && creation.outcome == Fresh(r.job.(createdAt := now, updatedAt := now))
              && after.system.jobs == q.system.jobs[FileOf(r.job.id) := r.job.(createdAt := now, updatedAt := now)]
              && after.records == q.records[RecordId(hash, r) := Record(r.fingerprint, r.route, r.key, r.digest, r.job.id, later)]
              && after.system.workers == q.system.workers
              && RecordId(hash, r) in after.records && after.records[RecordId(hash, r)].digest == r.digest
              && after.records[RecordId(hash, r)].jobId == r.job.id && |after.system.jobs| == |q.system.jobs| + 1
  {
    assert (events + [Create(r, now, later)])[..|events|] == events;
  }

  /**
   * From then on, whatever else happens: the same key with the same digest always answers with that same job
   * and creates nothing; with another digest it is a conflict, and changes nothing either.
   */
  lemma ReplayAnswersTheFirstJob(u: Setup, hash: string -> string, events: seq<Event>, more: seq<Event>, first: Request, again: Request,
                                 now: int, later: int, retryNow: int, retryLater: int)
    requires RecordId(hash, first) !in QueueAfter(u, hash, events).records && FileOf(first.job.id) !in QueueAfter(u, hash, events).system.jobs
    requires first.key != "" && first.digest != ""
    requires (again.fingerprint, again.route, again.key) == (first.fingerprint, first.route, first.key) && again.digest != ""
    ensures var q := QueueAfter(u, hash, events + [Create(first, now, later)] + more);
            var creation := CreateIn(hash, q, again, retryNow, retryLater);
            && creation.jobs == q.system.jobs && creation.records == q.records
            && (if again.digest == first.digest then creation.outcome.Replayed? && FileOf(creation.outcome.job.id) == FileOf(first.job.id)
                else creation.outcome == Conflict)
  {
    var start := events + [Create(first, now, later)];
    FirstCreates(u, hash, events, first, now, later);
    RecordIsForever(u, hash, start, more, RecordId(hash, first));
    AlwaysPaired(u, hash, start + more);
    NamesAreTrue(u, hash, start + more);
  }

  predicate TrueNames(jobs: Jobs) { forall name :: name in jobs ==> FileOf(jobs[name].id) == name }

  lemma NameStep(u: Setup, hash: string -> string, q: Queue, e: Event)
    requires TrueNames(q.system.jobs)
    ensures TrueNames(NextQueue(u, hash, q, e).system.jobs)
  {
    hide Next;
    if e.Other? && !e.step.Enqueue? {
      SameNames(u, q.system, e.step);
      forall name | name in q.system.jobs ensures FileOf(Next(u, q.system, e.step).jobs[name].id) == name {
        var change := ChangeOf(u, q.system, e.step, name);
      }
    }
  }

  lemma {:induction false} NamesAreTrue(u: Setup, hash: string -> string, events: seq<Event>)
    ensures TrueNames(QueueAfter(u, hash, events).system.jobs)
    decreases |events|
  {
    hide NextQueue;
    if events != [] {
      NamesAreTrue(u, hash, events[..|events|-1]);
      NameStep(u, hash, QueueAfter(u, hash, events[..|events|-1]), events[|events|-1]);
    }
  }

  // ----- different keys -----

  lemma SplitAtNul(a: string, x: string, b: string, y: string)
    requires '\0' !in a && '\0' !in b && a + "\0" + x == b + "\0" + y
    ensures a == b && x == y
  {
    var s, t := a + "\0" + x, b + "\0" + y;
    assert s[|a|] == '\0' && t[|b|] == '\0';
    assert forall i :: 0 <= i < |a| ==> s[i] == a[i] && a[i] in a;
    assert forall i :: 0 <= i < |b| ==> t[i] == b[i] && b[i] in b;
    assert a == s[..|a|] && b == t[..|b|] && x == s[|a|+1..] && y == t[|b|+1..];
  }

  /** Two principals, routes or keys never share a record, as long as principals and routes hold no NUL. */
  lemma DifferentKeysDifferentRecords(hash: string -> string, a: Request, b: Request)
    requires forall x, y :: hash(x) == hash(y) ==> x == y
    requires '\0' !in a.fingerprint && '\0' !in a.route && '\0' !in b.fingerprint && '\0' !in b.route
    ensures RecordId(hash, a) == RecordId(hash, b) <==> (a.fingerprint, a.route, a.key) == (b.fingerprint, b.route, b.key)
  {
    if RecordId(hash, a) == RecordId(hash, b) {
      assert KeyText(a.fingerprint, a.route, a.key) == KeyText(b.fingerprint, b.route, b.key);
      var ra, rb := a.route + "\0" + a.key, b.route + "\0" + b.key;
      assert KeyText(a.fingerprint, a.route, a.key) == a.fingerprint + "\0" + ra;
      assert KeyText(b.fingerprint, b.route, b.key) == b.fingerprint + "\0" + rb;
      SplitAtNul(a.fingerprint, ra, b.fingerprint, rb);
      SplitAtNul(a.route, a.key, b.route, b.key);
    }
  }

  /** With a NUL in a principal two different triples do share one: the separator is not escaped. */
  lemma NulConfusesKeys(hash: string -> string, a: Request, b: Request)
    requires (a.fingerprint, a.route, a.key) == ("p\0q", "r", "k") && (b.fingerprint, b.route, b.key) == ("p", "q\0r", "k")
    ensures (a.fingerprint, a.route, a.key) != (b.fingerprint, b.route, b.key) && RecordId(hash, a) == RecordId(hash, b)
  {
    assert KeyText("p\0q", "r", "k") == KeyText("p", "q\0r", "k");
  }

  // ----- interrupted creations -----

  /** Whether a creation that gets as far as its files leaves its job behind, whatever it answers. */
  predicate LeavesJob(io: CreateIO) { io.jobWritten && (io.recordWritten || !io.jobRemoved) }

  /**
   * Two creations under one key, each interrupted anywhere or not at all and the second under a new identifier,
   * leave two jobs exactly when each leaves its job and the second does not read a record of the first: because
   * none was written, or because it cannot be read.
   */
  lemma RetryDuplicatesExactly(hash: string -> string, jobs: Jobs, records: map<string, Record>, first: Request, again: Request,
                               now: int, later: int, retryNow: int, retryLater: int, io: CreateIO, retry: CreateIO)
    requires RecordId(hash, first) !in records && first.key != "" && first.digest != ""
    requires (again.fingerprint, again.route, again.key, again.digest) == (first.fingerprint, first.route, first.key, first.digest)
    requires FileOf(first.job.id) !in jobs && FileOf(again.job.id) !in jobs && FileOf(first.job.id) != FileOf(again.job.id)
    ensures var one := CreateOf(hash, jobs, records, first, now, later, io);
            var two := CreateOf(hash, one.jobs, one.records, again, retryNow, retryLater, retry);
            ({FileOf(first.job.id), FileOf(again.job.id)} <= two.jobs.Keys)
              == (LeavesJob(io) && LeavesJob(retry) && !(io.recordWritten && retry.recordReadable))
  {
    hide FileOf, KeyText;
  }

  /** A faultless retry duplicates what an interruption between the two files left behind, and nothing else. */
  lemma InterruptedCreationDuplicates(hash: string -> string, jobs: Jobs, records: map<string, Record>, first: Request, again: Request,
                                 now: int, later: int, io: CreateIO)
    requires RecordId(hash, first) !in records && first.key != "" && first.digest != ""
    requires (again.fingerprint, again.route, again.key, again.digest) == (first.fingerprint, first.route, first.key, first.digest)
    requires FileOf(first.job.id) !in jobs && FileOf(again.job.id) !in jobs && FileOf(first.job.id) != FileOf(again.job.id)
    ensures var one := CreateOf(hash, jobs, records, first, now, later, io);
            var two := CreateOf(hash, one.jobs, one.records, again, now, later, FAULTLESS);
            ({FileOf(first.job.id), FileOf(again.job.id)} <= two.jobs.Keys) == (io.jobWritten && !io.recordWritten && !io.jobRemoved)
  {
    hide CreateOf, FileOf, KeyText;
    RetryDuplicatesExactly(hash, jobs, records, first, again, now, later, now, later, io, FAULTLESS);
  }
}
