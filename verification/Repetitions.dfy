/**
 * Which outcomes the experiment cache keeps, and what that does to repetitions: the points at which the
 * engine departs from docs/determinism.md (internal/experiment/engine.go, internal/store/experiment_cache.go).
 */
module Repetitions {
  import opened Ordering
  import opened WorldDiff
  import opened Interventions
  import opened ExperimentCache
  import opened Engine
  import opened Causality

  function WorldOf(u: Universe, p: Plan): Setup { SetupOf(u.blobs, p.base, UsesGood(p), p.selected) }

  /** What process number `n` would do if it ran this plan. */
  function OutcomeAt(u: Universe, p: Plan, n: nat): RunOutcome { u.run(n, RequestOf(p, WorldOf(u, p))) }

  /** The plan will be run: nothing is cached for it and its world can be set up. */
  predicate WillRun(u: Universe, s: Session, p: Plan) {
    LoadOf(s.files, KeyOf(u, p)).found.None? && WorldOf(u, p).failure.None?
  }

  /** The guards a record passes on its way into the cache. */
  predicate Storable(u: Universe, p: Plan, outcome: RunOutcome) {
    outcome.Observed? && !outcome.timedOut && ValidDigest(KeyOf(u, p)) && u.entrySize(RecordOf(p, outcome)) <= MAX_CACHE_BYTES
  }

  /** What the documentation asks for before a result is cached. */
  predicate FullyObserved(outcome: RunOutcome) { outcome.Observed? && !outcome.timedOut && !outcome.cancelled }

  // ----- what is stored -----

  /** After a run there is a record to be found if and only if its outcome passes the guards, and then it is that outcome's. */
  lemma RecordIsStoredIff(u: Universe, s: Session, p: Plan)
    requires WillRun(u, s, p)
    ensures var after, outcome := RunWorldOf(u, s, p).session, OutcomeAt(u, p, s.runs);
            && after.runs == s.runs + 1
            && LoadOf(after.files, KeyOf(u, p)).found == if Storable(u, p, outcome) then Some(RecordOf(p, outcome)) else None
  {
    var loaded := LoadOf(s.files, KeyOf(u, p));
    var outcome := OutcomeAt(u, p, s.runs);
    var r := RecordOf(p, outcome);
    if outcome.Observed? && !outcome.timedOut {
      if SaveOf(loaded.files, KeyOf(u, p), r, u.entrySize(r)).ok {
        SaveKeepsBoundAndEntry(loaded.files, KeyOf(u, p), r, u.entrySize(r));
      }
    }
  }

  /**
   * An outcome that was not fully observed is stored exactly when it was cancelled, came with a process result,
   * and passes the guards: time-outs and missing results are kept out, cancellation is not.
   */
  lemma UnobservedIsStoredIff(u: Universe, s: Session, p: Plan)
    requires WillRun(u, s, p) && !FullyObserved(OutcomeAt(u, p, s.runs))
    ensures var outcome := OutcomeAt(u, p, s.runs);
            LoadOf(RunWorldOf(u, s, p).session.files, KeyOf(u, p)).found.Some? == (outcome.Observed? && outcome.cancelled && Storable(u, p, outcome))
  {
    hide RunWorldOf, LoadOf, KeyOf;
    RecordIsStoredIff(u, s, p);
  }

  /** One such case: a cancelled run with an accepted key and size becomes the cached verdict. */
  lemma CancelledVerdictIsCached(u: Universe, s: Session, p: Plan, passed: bool)
    requires WillRun(u, s, p) && OutcomeAt(u, p, s.runs) == Observed(passed, false, true)
    requires ValidDigest(KeyOf(u, p)) && u.entrySize(RecordOf(p, Observed(passed, false, true))) <= MAX_CACHE_BYTES
    ensures LoadOf(RunWorldOf(u, s, p).session.files, KeyOf(u, p)).found == Some(RecordOf(p, Observed(passed, false, true)))
  {
    hide RunWorldOf, LoadOf;
    RecordIsStoredIff(u, s, p);
  }

  /** Every run that is not cancelled is decided by its request alone. */
  ghost predicate DecidedUnlessCancelled(u: Universe, v: Verdicts) {
    forall n, r :: (v(r).Observed? ==> !v(r).cancelled)
      && (u.run(n, r) == v(r) || (u.run(n, r).Observed? && u.run(n, r).cancelled))
  }

  lemma RunKeepsCoherenceIff(u: Universe, v: Verdicts, s: Session, p: Plan)
    requires CollisionFree(u) && WellPlanned(p) && Coherent(u, v, p.maxOutputBytes, s.files) && WillRun(u, s, p)
    ensures var outcome := OutcomeAt(u, p, s.runs);
            Coherent(u, v, p.maxOutputBytes, RunWorldOf(u, s, p).session.files)
            == (Storable(u, p, outcome) ==> PlanVerdict(u, v, p) == Some(outcome.passed))
  {
    var loaded := LoadOf(s.files, KeyOf(u, p));
    LoadKeepsCoherence(u, v, p.maxOutputBytes, s.files, KeyOf(u, p));
    InputVerdictIsPlanVerdict(u, v, p);
    var outcome := OutcomeAt(u, p, s.runs);
    if outcome.Observed? && !outcome.timedOut {
      var r := RecordOf(p, outcome);
      SaveKeepsCoherence(u, v, p.maxOutputBytes, loaded.files, CacheInputOf(p), r, u.entrySize(r));
    }
  }

  /**
   * Only the storing of cancelled runs can spoil a truthful cache: any other run keeps it truthful, and a stored
   * cancelled run does so only by having ended, by chance, with the verdict of the whole run.
   */
  lemma OnlyCancellationSpoilsTheCache(u: Universe, v: Verdicts, s: Session, p: Plan)
    requires DecidedUnlessCancelled(u, v) && CollisionFree(u) && WellPlanned(p)
    requires Coherent(u, v, p.maxOutputBytes, s.files) && WillRun(u, s, p)
    ensures var outcome := OutcomeAt(u, p, s.runs);
            var after := RunWorldOf(u, s, p).session;
            && (!(Storable(u, p, outcome) && outcome.cancelled) ==> Coherent(u, v, p.maxOutputBytes, after.files))
            && (Storable(u, p, outcome) && outcome.cancelled ==>
                  (Coherent(u, v, p.maxOutputBytes, after.files) <==> PlanVerdict(u, v, p) == Some(outcome.passed)))
  {
    hide RunWorldOf, Coherent, CollisionFree, WellPlanned, SetupOf;
    RunKeepsCoherenceIff(u, v, s, p);
  }

  // ----- repetitions -----

  /**
   * Once a record is stored, repetitions do not repeat: no further process is started and every one agrees
   * with the first, so a flaky command passes for a stable one, against the documented need for stable outcomes.
   */
  lemma {:induction false} RepetitionsReuseTheFirst(u: Universe, s: Session, p: Plan, expected: bool, n: nat)
    requires LoadOf(s.files, KeyOf(u, p)).found.Some?
    ensures var cached := LoadOf(s.files, KeyOf(u, p)).found.value;
            var series := RepeatOf(StepOf(u, p), s, expected, n);
            && series.session == s && series.error.None?
            && (forall r :: r in series.records ==> r.passed == cached.passed && r.cacheHit)
            && (series.steady <==> n == 0 || cached.passed == expected)
    decreases n
  {
    if n > 0 {
      var ran := RunWorldOf(u, s, p);
      assert ran == StepOf(u, p)(s) && ran.session == s;
      RepetitionsReuseTheFirst(u, s, p, expected, n - 1);
    }
  }

  /** The second of two runs starts a process exactly when the outcome of the first does not pass the guards. */
  lemma SecondRunIsRealIff(u: Universe, s: Session, p: Plan)
    requires WillRun(u, s, p)
    ensures RunWorldOf(u, RunWorldOf(u, s, p).session, p).session.runs
         == if Storable(u, p, OutcomeAt(u, p, s.runs)) then s.runs + 1 else s.runs + 2
  {
    RecordIsStoredIff(u, s, p);
    var first := RunWorldOf(u, s, p).session;
    if !Storable(u, p, OutcomeAt(u, p, s.runs)) {
      RecordIsStoredIff(u, first, p);
    }
  }

  /** No process numbered from `from` up to `to` ends with an outcome that would be stored. */
  predicate NoneStorable(u: Universe, p: Plan, from: nat, to: int) {
    forall k: nat :: from <= k < to ==> !Storable(u, p, OutcomeAt(u, p, k))
  }

  lemma SeriesStep(u: Universe, s: Session, p: Plan, expected: bool, n: nat)
    requires n > 0
    ensures var ran, series := RunWorldOf(u, s, p), RepeatOf(StepOf(u, p), s, expected, n);
            if ran.error.Some? || ran.passed != expected then series.session == ran.session && |series.records| == 1
            else
              var rest := RepeatOf(StepOf(u, p), ran.session, expected, n - 1);
              series.session == rest.session && |series.records| == 1 + |rest.records|
  {
    hide RunWorldOf;
    assert StepOf(u, p)(s) == RunWorldOf(u, s, p);
  }

  /**
   * A series starts a process for each of its records if and only if no outcome but its last passes the guards of
   * the cache. With outcomes that are stored, that is a series of one.
   */
  lemma {:induction false} SeriesIsRealIff(u: Universe, s: Session, p: Plan, expected: bool, n: nat)
    requires WillRun(u, s, p)
    ensures var series := RepeatOf(StepOf(u, p), s, expected, n);
            series.session.runs == s.runs + |series.records| <==> NoneStorable(u, p, s.runs, s.runs + |series.records| - 1)
    decreases n
  {
    hide RunWorldOf, LoadOf, RepeatOf, StepOf, Storable, OutcomeAt;
    if n > 0 {
      var ran := RunWorldOf(u, s, p);
      RecordIsStoredIff(u, s, p);
      SeriesStep(u, s, p, expected, n);
      if ran.error.None? && ran.passed == expected {
        var rest := RepeatOf(StepOf(u, p), ran.session, expected, n - 1);
        if Storable(u, p, OutcomeAt(u, p, s.runs)) {
          RepetitionsReuseTheFirst(u, ran.session, p, expected, n - 1);
        } else {
          SeriesIsRealIff(u, ran.session, p, expected, n - 1);
        }
      }
    } else {
      NoSeries(u, s, p, expected);
    }
  }

  lemma NoSeries(u: Universe, s: Session, p: Plan, expected: bool)
    ensures RepeatOf(StepOf(u, p), s, expected, 0) == Series(s, [], true, None)
  {}
}
