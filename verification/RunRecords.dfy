/**
 * What the records of an analysis show when nothing at all is assumed of the runs: they may be flaky, time out,
 * be cancelled, or come from any cache (internal/experiment/engine.go).
 */
module RunRecords {
  import opened Ordering
  import opened Sequences
  import opened DeltaDebugging
  import opened FileTree
  import opened WorldDiff
  import opened Interventions
  import opened ExperimentCache
  import opened Engine
  import opened Evidence

  // ----- the certificate without assumptions -----

  /** The record of a run of this plan: same base world, same source of factors, same factors. */
  predicate Names(p: Plan, r: Experiment) {
    r.baseId == p.base.id && r.sourceId == p.source.id && r.factorIds == p.ids
  }

  lemma EveryRunIsNamed(u: Universe, t: Settings, index: map<string, Factor>, all: seq<string>)
    ensures AllLawful(u, t, index, all, (s: Session) => true, (p: Plan, r: Experiment) => Names(p, r))
  {
    forall p, s: Session
      ensures var ran := StepOf(u, p)(s); ran.error.None? ==> Names(p, ran.record) && ran.record.passed == ran.passed
    {
      hide LoadOf, SetupOf, SaveOf, KeyOf;
    }
  }

  /** Every PROVEN analysis holds the certificate for the factors it names, whatever its runs do and its cache holds. */
  lemma {:induction false} ProvenIsCertified(u: Universe, s: Session, t: Settings, all: seq<Factor>, factors: seq<Factor>, boundaries: set<Boundary>)
    requires Injective(u.name) && Compared(u.name, t.good, t.bad, t.maxFactors, all, factors, boundaries)
    requires AnalyzeOf(u, s, t, factors, boundaries).analysis.status == Proven
    ensures var a := AnalyzeOf(u, s, t, factors, boundaries).analysis;
            Certificate(t, factors, (p: Plan, r: Experiment) => Names(p, r), a.experiments, a.causalFactors)
  {
    hide AnalyzeOf, Certificate, AllLawful, Compared, Names;
    FactorsAreStrictlyOrdered(u.name, t.good, t.bad, t.maxFactors, all, factors, boundaries);
    EveryRunIsNamed(u, t, IndexOf(factors), IdsOf(factors));
    ProvenHasCertificate(u, s, t, factors, boundaries, (s: Session) => true, (p: Plan, r: Experiment) => Names(p, r));
  }

  /** A record answered from the cache says so; any other tells of the process that was started: its verdict and time-out, or its error. */
  lemma RecordTells(u: Universe, s: Session, p: Plan)
    ensures var ran, found := RunWorldOf(u, s, p), LoadOf(s.files, KeyOf(u, p)).found;
            var world := SetupOf(u.blobs, p.base, UsesGood(p), p.selected);
            if found.Some? then
              && ran.record.cacheHit && ran.session.runs == s.runs && ran.session.done == s.done
              && ran.record.hasResult == found.value.hasResult && ran.record.passed == found.value.passed == ran.passed
            else if world.failure.Some? then ran.error == Some(SetupFailed(world.failure.value)) && ran.session.runs == s.runs && ran.session.done == s.done
            else
              && !ran.record.cacheHit && ran.session.runs == s.runs + 1
              && match u.run(s.runs, RequestOf(p, world))
                 case NoResult(message) =>
                   !ran.record.hasResult && ran.record.error == message && ran.error == Some(NoProcessResult(message)) && ran.session.done == s.done
                 case Observed(passed, timedOut, cancelled) =>
                   && ran.record.hasResult && ran.record.error == "" && ran.record.passed == passed == ran.passed
                   && ran.record.timedOut == timedOut && ran.error.None? && (ran.session.done <==> s.done || cancelled)
  {
    hide SetupOf, SaveOf;
  }

  // ----- the kind of a record -----

  /** A baseline and an intervention never share a key. */
  ghost predicate KindsApart(u: Universe) {
    forall a, b :: u.digest(a) == u.digest(b) ==> a.kind == b.kind
  }

  /** Whatever can be found under a key is of the kind the key was made for. */
  ghost predicate KindsKept(u: Universe, files: Files<Experiment>) {
    forall ci :: LoadOf(files, u.digest(ci)).found.Some? ==> LoadOf(files, u.digest(ci)).found.value.kind == ci.kind
  }

  lemma LoadKeepsKinds(u: Universe, files: Files<Experiment>, key: string)
    requires KindsKept(u, files)
    ensures KindsKept(u, LoadOf(files, key).files)
  {
    var after := LoadOf(files, key).files;
    forall ci | LoadOf(after, u.digest(ci)).found.Some? ensures LoadOf(after, u.digest(ci)).found.value.kind == ci.kind {
      assert LoadOf(files, u.digest(ci)).found == LoadOf(after, u.digest(ci)).found;
    }
  }

  lemma SaveKeepsKinds(u: Universe, files: Files<Experiment>, ci: CacheInput, r: Experiment, size: nat)
    requires KindsApart(u) && KindsKept(u, files) && r.kind == ci.kind
    ensures KindsKept(u, SaveOf(files, u.digest(ci), r, size).files)
  {
    var saved := SaveOf(files, u.digest(ci), r, size);
    if saved.ok {
      SaveKeepsBoundAndEntry(files, u.digest(ci), r, size);
      forall other | LoadOf(saved.files, u.digest(other)).found.Some?
        ensures LoadOf(saved.files, u.digest(other)).found.value.kind == other.kind
      {
        if u.digest(other) != u.digest(ci) {
          assert LoadOf(files, u.digest(other)).found == LoadOf(saved.files, u.digest(other)).found;
        }
      }
    }
  }

  predicate NamesKind(p: Plan, r: Experiment) { Names(p, r) && r.kind == p.kind }

  lemma RunKeepsKinds(u: Universe, s: Session, p: Plan)
    requires KindsApart(u) && KindsKept(u, s.files)
    ensures var ran := RunWorldOf(u, s, p);
            KindsKept(u, ran.session.files) && (ran.error.None? ==> NamesKind(p, ran.record) && ran.record.passed == ran.passed)
  {
    hide SetupOf, SaveOf, KindsKept, LoadOf;
    var loaded := LoadOf(s.files, KeyOf(u, p));
    LoadKeepsKinds(u, s.files, KeyOf(u, p));
    if loaded.found.Some? {
      KindOfFound(u, s.files, CacheInputOf(p));
    } else {
      var world := SetupOf(u.blobs, p.base, UsesGood(p), p.selected);
      if world.failure.None? {
        var outcome := u.run(s.runs, RequestOf(p, world));
        SaveKeepsKinds(u, loaded.files, CacheInputOf(p), RecordOf(p, outcome), u.entrySize(RecordOf(p, outcome)));
      }
    }
  }

  lemma KindOfFound(u: Universe, files: Files<Experiment>, ci: CacheInput)
    requires KindsKept(u, files) && LoadOf(files, u.digest(ci)).found.Some?
    ensures LoadOf(files, u.digest(ci)).found.value.kind == ci.kind
  {}

  /** With a cache that keeps kinds apart -- an empty one does -- the certificate's records are of the right kind as well. */
  lemma {:induction false} ProvenIsCertifiedByKind(u: Universe, s: Session, t: Settings, all: seq<Factor>, factors: seq<Factor>, boundaries: set<Boundary>)
    requires KindsApart(u) && KindsKept(u, s.files)
    requires Injective(u.name) && Compared(u.name, t.good, t.bad, t.maxFactors, all, factors, boundaries)
    requires AnalyzeOf(u, s, t, factors, boundaries).analysis.status == Proven
    ensures var a := AnalyzeOf(u, s, t, factors, boundaries).analysis;
            Certificate(t, factors, (p: Plan, r: Experiment) => NamesKind(p, r), a.experiments, a.causalFactors)
  {
    hide AnalyzeOf, Certificate, Compared, NamesKind, KindsKept, KindsApart, RunWorldOf;
    FactorsAreStrictlyOrdered(u.name, t.good, t.bad, t.maxFactors, all, factors, boundaries);
    var inv := (s: Session) => KindsKept(u, s.files);
    var fit := (p: Plan, r: Experiment) => NamesKind(p, r);
    forall p, s: Session | KindsKept(u, s.files)
      ensures var ran := StepOf(u, p)(s);
              KindsKept(u, ran.session.files) && (ran.error.None? ==> NamesKind(p, ran.record) && ran.record.passed == ran.passed)
    {
      RunKeepsKinds(u, s, p);
    }
    assert AllLawful(u, t, IndexOf(factors), IdsOf(factors), inv, fit);
    ProvenHasCertificate(u, s, t, factors, boundaries, inv, fit);
  }

  // ----- forward runs -----

  /** A run on the bad world with these factors taken from the good one. */
  predicate IsForward(t: Settings, r: Experiment, ids: seq<string>) {
    r.baseId == t.bad.id && r.sourceId == t.good.id && r.factorIds == ids
  }

  ghost predicate NoneForward(t: Settings, es: seq<Experiment>, ids: seq<string>) {
    forall r :: r in es ==> !IsForward(t, r, ids)
  }

  /** Failed runs included, a record names its plan, or no factors at all. */
  lemma {:induction false} SeriesIsNamed(u: Universe, p: Plan, s: Session, expected: bool, n: nat)
    ensures forall r :: r in RepeatOf(StepOf(u, p), s, expected, n).records ==> Names(p, r) || r.factorIds == []
    decreases n
  {
    hide LoadOf, SetupOf, SaveOf, KeyOf;
    if n > 0 {
      var ran := StepOf(u, p)(s);
      assert Names(p, ran.record) || ran.record.factorIds == [];
      if ran.error.None? && ran.passed == expected { SeriesIsNamed(u, p, ran.session, expected, n - 1); }
    }
  }

  lemma OtherPlansAreNotForward(u: Universe, t: Settings, p: Plan, s: Session, expected: bool, n: nat, ids: seq<string>)
    requires ids != [] && !(p.base.id == t.bad.id && p.source.id == t.good.id && p.ids == ids)
    ensures NoneForward(t, RepeatOf(StepOf(u, p), s, expected, n).records, ids)
  {
    hide RepeatOf, StepOf;
    SeriesIsNamed(u, p, s, expected, n);
  }

  lemma NoneForwardConcat(t: Settings, a: seq<Experiment>, b: seq<Experiment>, ids: seq<string>)
    requires NoneForward(t, a, ids) && NoneForward(t, b, ids)
    ensures NoneForward(t, a + b, ids)
  {}

  lemma {:induction false} MinimalityIsNotForward(u: Universe, t: Settings, index: map<string, Factor>, s: Session, ids: seq<string>, i: nat, made: nat,
                                                  whole: seq<string>)
    requires i <= |ids| <= |whole|
    ensures NoneForward(t, MinimalityOf(TrialOf(u, t, index), t, s, ids, i, made).records, whole)
    decreases |ids| - i
  {
    hide RepeatOf, StepOf, SelectedOf, IsForward;
    if i < |ids| && made + |t.good.arguments| < t.maxExperiments {
      if Without(ids, i) == [] {
        MinimalityIsNotForward(u, t, index, s, ids, i + 1, made, whole);
      } else {
        var p := ForwardPlan(t, index, Without(ids, i));
        OtherPlansAreNotForward(u, t, p, s, true, t.repetitions, whole);
        var series := TrialOf(u, t, index)(s, Without(ids, i));
        if series.error.None? && !series.steady {
          MinimalityIsNotForward(u, t, index, series.session, ids, i + 1, made + |series.records|, whole);
          NoneForwardConcat(t, series.records,
                            MinimalityOf(TrialOf(u, t, index), t, series.session, ids, i + 1, made + |series.records|).records, whole);
        }
      }
    }
  }

  lemma ConclusionIsNotForward(u: Universe, s: Session, t: Settings, a: Analysis, ids: seq<string>, whole: seq<string>)
    requires t.good.id != t.bad.id && NoneForward(t, a.experiments, whole) && |ids| <= |whole| && whole != []
    ensures NoneForward(t, ConcludeOf(u, s, t, a, ids).analysis.experiments, whole)
  {
    hide RepeatOf, StepOf, MinimalityOf, TrialOf, IndexOf, NoneForward, SortBy, IsForward;
    var index := IndexOf(a.factors);
    OtherPlansAreNotForward(u, t, ReversePlan(t, index, ids), s, false, t.repetitions, whole);
    var reverse := RepeatOf(StepOf(u, ReversePlan(t, index, ids)), s, false, t.repetitions);
    NoneForwardConcat(t, a.experiments, reverse.records, whole);
    MinimalityIsNotForward(u, t, index, reverse.session, ids, 0, 0, whole);
    NoneForwardConcat(t, a.experiments + reverse.records, MinimalityOf(TrialOf(u, t, index), t, reverse.session, ids, 0, 0).records, whole);
  }

  lemma SearchIsNotForward(u: Universe, s: Session, t: Settings, a: Analysis)
    requires NoneForward(t, a.experiments, IdsOf(a.factors)) && a.factors != []
    ensures NoneForward(t, SearchOf(u, s, t, a).probe.state.experiments, IdsOf(a.factors))
    ensures |SearchOf(u, s, t, a).current| <= |IdsOf(a.factors)|
  {
    hide RepeatOf, StepOf, IndexOf, SelectedOf, Search, IsForward;
    var index, all := IndexOf(a.factors), IdsOf(a.factors);
    var test := TestOf(u, t, index);
    var keeps := (lab: Lab, calls: seq<Call>) => NoneForward(t, lab.experiments, all);
    forall lab: Lab, calls: seq<Call>, c: seq<string> | keeps(lab, calls) && 0 < |c| < |all| && Subsequence(c, all)
      ensures keeps(test(lab, c).0, calls + [Call(c, test(lab, c).1)])
    {
      OtherPlansAreNotForward(u, t, ForwardPlan(t, index, c), lab.session, true, t.repetitions, all);
      NoneForwardConcat(t, lab.experiments, TrialOf(u, t, index)(lab.session, c).records, all);
    }
    MinimizeKeeps(test, keeps, all, t.maxExperiments - |a.experiments|, Lab(s, a.experiments));
    MinimizeLaw(test, all, t.maxExperiments - |a.experiments|, Lab(s, a.experiments));
    SubsequenceElements(SearchOf(u, s, t, a).current, all);
  }

  /** No analysis, however it ends, ever runs the bad world with all the factors: the good baseline has to stand in for that. */
  lemma {:induction false} AllFactorsAreNeverRun(u: Universe, s: Session, t: Settings, factors: seq<Factor>, boundaries: set<Boundary>)
    requires t.good.id != t.bad.id && factors != []
    ensures NoneForward(t, AnalyzeOf(u, s, t, factors, boundaries).analysis.experiments, IdsOf(factors))
  {
    hide RepeatOf, StepOf, SearchOf, ConcludeOf, SortBy, IsForward;
    var all := IdsOf(factors);
    var started := StartedAnalysis(t, factors, boundaries);
    OtherPlansAreNotForward(u, t, BaselinePlan(t, t.good), s, true, t.repetitions, all);
    var good := RepeatOf(StepOf(u, BaselinePlan(t, t.good)), s, true, t.repetitions);
    OtherPlansAreNotForward(u, t, BaselinePlan(t, t.bad), good.session, false, t.repetitions, all);
    var bad := RepeatOf(StepOf(u, BaselinePlan(t, t.bad)), good.session, false, t.repetitions);
    NoneForwardConcat(t, good.records, bad.records, all);
    var a := started.(experiments := good.records + bad.records);
    SearchIsNotForward(u, bad.session, t, a);
    var m := SearchOf(u, bad.session, t, a);
    ConclusionIsNotForward(u, m.probe.state.session, t, a.(experiments := m.probe.state.experiments), m.current, all);
  }

  /**
   * A PROVEN analysis holds a forward run of the set it names if and only if that set is not all the factors.
   */
  lemma {:induction false} ForwardRunIff(u: Universe, s: Session, t: Settings, all: seq<Factor>, factors: seq<Factor>, boundaries: set<Boundary>)
    requires t.good.id != t.bad.id && t.repetitions >= 1
    requires Injective(u.name) && Compared(u.name, t.good, t.bad, t.maxFactors, all, factors, boundaries)
    requires AnalyzeOf(u, s, t, factors, boundaries).analysis.status == Proven
    ensures var a := AnalyzeOf(u, s, t, factors, boundaries).analysis;
            (exists r :: r in a.experiments && IsForward(t, r, a.causalFactors)) <==> a.causalFactors != IdsOf(factors)
  {
    hide AnalyzeOf, Compared, IndexOf, SelectedOf;
    var a := AnalyzeOf(u, s, t, factors, boundaries).analysis;
    var fit := (p: Plan, r: Experiment) => Names(p, r);
    ProvenIsCertified(u, s, t, all, factors, boundaries);
    if a.causalFactors == IdsOf(factors) {
      AllFactorsAreNeverRun(u, s, t, factors, boundaries);
    } else {
      var lo: nat :| SeriesShown(fit, ForwardPlan(t, IndexOf(factors), a.causalFactors), a.experiments, lo, t.repetitions, true);
      assert Shows(fit, ForwardPlan(t, IndexOf(factors), a.causalFactors), a.experiments[lo], true);
      assert IsForward(t, a.experiments[lo], a.causalFactors);
    }
  }

  /** One differing factor: the whole search makes no run. */
  lemma SingleFactorIsUntested(u: Universe, s: Session, t: Settings, a: Analysis)
    requires |a.factors| == 1
    ensures SearchOf(u, s, t, a) == Minimized([a.factors[0].id], 0, Probe(Lab(s, a.experiments), []), None)
  {
    assert IdsOf(a.factors) == [a.factors[0].id];
    SingleItemIsUntested(TestOf(u, t, IndexOf(a.factors)), a.factors[0].id, t.maxExperiments - |a.experiments|, Lab(s, a.experiments));
  }
}
