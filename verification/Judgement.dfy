/**
 * What an analysis answers, and when: for any runs, and in full if a run is decided by the world it is started in
 * (internal/experiment/engine.go).
 */
module Judgement {
  import opened Ordering
  import opened Sequences
  import opened DeltaDebugging
  import opened DecidedSearch
  import opened FileTree
  import opened WorldDiff
  import opened Interventions
  import opened ExperimentCache
  import opened Engine
  import opened Evidence
  import opened Causality

  // ----- endings, for any runs -----

  /** The parts of an answer that go together. */
  predicate Consistent(f: Finished) {
    var a := f.analysis;
    && (a.limitation.None? <==> a.status == Proven)
    && (a.status == Supported <==>
          a.limitation.Some? && (a.limitation.value in {ReverseDidNotReproduce, SmallerSetSuffices} || a.limitation.value.MinimalityIncomplete?))
    && (a.forwardVerified <==> a.status == Proven) && (a.reverseVerified <==> a.status == Proven) && (a.minimalInModel <==> a.status == Proven)
    && (a.status == Unproven ==> a.causalFactors == [])
    && (f.interrupted <==> a.limitation == Some(Cancelled)) && (f.interrupted ==> f.session.done)
    && (f.session.done && a.limitation.Some? ==>
          a.limitation.value !in {GoodBaselineUnstable, BadBaselineUnstable, ReverseFailed}
          && !a.limitation.value.MinimizationStopped? && !a.limitation.value.MinimalityIncomplete?)
  }

  predicate Untouched(a: Analysis) {
    a.status == Unproven && a.limitation == None && a.causalFactors == [] && !a.forwardVerified && !a.reverseVerified && !a.minimalInModel
  }

  lemma SortNothing()
    ensures SortBy([], StringLess) == []
  {}

  lemma EndingIsConsistent(s: Session, a: Analysis, limitation: Limitation)
    requires Untouched(a) && limitation !in {Cancelled, ReverseDidNotReproduce, SmallerSetSuffices} && !limitation.MinimalityIncomplete?
    ensures Consistent(Finished(s, Failed(s.done, a, limitation), s.done))
    ensures limitation.NoDifferences? ==> Consistent(Finished(s, Limited(a, limitation), false))
    ensures s.done ==> Consistent(Finished(s, Limited(a, Cancelled), true))
  {
    SortNothing();
  }

  lemma ConclusionIsConsistent(u: Universe, s: Session, t: Settings, a: Analysis, minimized: seq<string>)
    requires Untouched(a)
    ensures var f := ConcludeOf(u, s, t, a, minimized); Consistent(f) && f.analysis.limitation != Some(NoDifferences)
  {
    hide RepeatOf, StepOf, MinimalityOf, TrialOf, IndexOf, SortBy;
    SortNothing();
  }

  lemma SearchIsConsistent(u: Universe, s: Session, t: Settings, a: Analysis)
    requires Untouched(a)
    ensures var f := SearchPhaseOf(u, s, t, a); Consistent(f) && f.analysis.limitation != Some(NoDifferences)
  {
    hide SearchOf, ConcludeOf, SortBy;
    SortNothing();
    var m := SearchOf(u, s, t, a);
    ConclusionIsConsistent(u, m.probe.state.session, t, a.(experiments := m.probe.state.experiments), m.current);
  }

  /**
   * Whatever the runs do: an analysis has no limitation exactly if it is PROVEN, with all three verifications; it names no
   * factors if it is UNPROVEN; it is interrupted exactly if it was cancelled, and a failure while the context is done is that;
   * and "no differences" means there are none.
   */
  lemma AnswersAreConsistent(u: Universe, s: Session, t: Settings, factors: seq<Factor>, boundaries: set<Boundary>)
    ensures var f := AnalyzeOf(u, s, t, factors, boundaries);
            && Consistent(f) && (f.analysis.limitation == Some(NoDifferences) ==> factors == [])
            && (s.done ==> f.analysis.limitation == Some(Cancelled) && f.analysis.experiments == [] && f.session == s)
  {
    hide RepeatOf, StepOf, SearchPhaseOf, SortBy;
    SortNothing();
    var a := StartedAnalysis(t, factors, boundaries);
    var good := RepeatOf(StepOf(u, BaselinePlan(t, t.good)), s, true, t.repetitions);
    var bad := RepeatOf(StepOf(u, BaselinePlan(t, t.bad)), good.session, false, t.repetitions);
    EndingIsConsistent(good.session, a.(experiments := good.records), GoodBaselineUnstable);
    EndingIsConsistent(bad.session, a.(experiments := good.records + bad.records), BadBaselineUnstable);
    EndingIsConsistent(bad.session, a.(experiments := good.records + bad.records), NoDifferences);
    SearchIsConsistent(u, bad.session, t, a.(experiments := good.records + bad.records));
  }

  // ----- decided runs -----

  /** What a run of the plan comes to: a verdict, or the error's text. */
  function AnswerTo(u: Universe, v: Verdicts, p: Plan): Outcome {
    var world := SetupOf(u.blobs, p.base, UsesGood(p), p.selected);
    if world.failure.Some? then Errored("workspace setup failed")
    else match v(RequestOf(p, world))
      case Observed(passed, _, _) => Verdict(passed)
      case NoResult(message) => Errored(message)
  }

  lemma AnswersAreVerdicts(u: Universe, v: Verdicts, p: Plan)
    ensures AnswerTo(u, v, p).Verdict? <==> PlanVerdict(u, v, p).Some?
    ensures AnswerTo(u, v, p).Verdict? ==> PlanVerdict(u, v, p) == Some(AnswerTo(u, v, p).passes)
  {}

  /** The context is not done and the cache holds only true records. */
  ghost predicate Settled(u: Universe, v: Verdicts, t: Settings, s: Session) {
    !s.done && Coherent(u, v, t.maxOutputBytes, s.files)
  }

  lemma SettledIsNotDone(u: Universe, v: Verdicts, t: Settings, s: Session)
    requires Settled(u, v, t, s)
    ensures !s.done
  {}

  ghost predicate Trusted(u: Universe, v: Verdicts, t: Settings, factors: seq<Factor>) {
    && Deterministic(u, v) && CollisionFree(u) && WellFormed(t.good) && WellFormed(t.bad)
    && StrictlyOrdered(factors, IdBefore) && t.repetitions >= 1
  }

  ghost predicate RunnablePlan(t: Settings, p: Plan) { WellPlanned(p) && p.maxOutputBytes == t.maxOutputBytes }

  lemma PlansAreRunnable(u: Universe, v: Verdicts, t: Settings, factors: seq<Factor>)
    requires Trusted(u, v, t, factors)
    ensures RunnablePlan(t, BaselinePlan(t, t.good)) && RunnablePlan(t, BaselinePlan(t, t.bad))
    ensures forall ids | Subsequence(ids, IdsOf(factors)) ::
              RunnablePlan(t, ForwardPlan(t, IndexOf(factors), ids)) && RunnablePlan(t, ReversePlan(t, IndexOf(factors), ids))
  {
    forall ids | Subsequence(ids, IdsOf(factors))
      ensures RunnablePlan(t, ForwardPlan(t, IndexOf(factors), ids)) && RunnablePlan(t, ReversePlan(t, IndexOf(factors), ids))
    {
      SelectionIsOrdered(factors, ids);
    }
  }

  predicate Gives(e: Option<RunError>, passed: bool, o: Outcome) {
    match o
    case Errored(message) => e.Some? && ErrorText(e.value) == message
    case Verdict(passes) => e.None? && passed == passes
  }

  lemma RunIsDecided(u: Universe, v: Verdicts, t: Settings, s: Session, p: Plan)
    requires Deterministic(u, v) && CollisionFree(u) && RunnablePlan(t, p) && Settled(u, v, t, s)
    ensures var ran := RunWorldOf(u, s, p); Settled(u, v, t, ran.session) && Gives(ran.error, ran.passed, AnswerTo(u, v, p))
  {
    hide Coherent, CollisionFree, WellPlanned, SetupOf, LoadOf, SaveOf, KeyOf;
    CachedRunIsTrue(u, v, s, p);
    AnswersAreVerdicts(u, v, p);
  }

  /** A decided series ends after one run, unless it is as expected. */
  lemma {:induction false} SeriesIsDecided(u: Universe, v: Verdicts, t: Settings, s: Session, p: Plan, expected: bool, n: nat)
    requires Deterministic(u, v) && CollisionFree(u) && RunnablePlan(t, p) && Settled(u, v, t, s) && n >= 1
    ensures var r := RepeatOf(StepOf(u, p), s, expected, n);
            && Settled(u, v, t, r.session) && (r.steady <==> AnswerTo(u, v, p) == Verdict(expected))
            && (r.error.Some? <==> AnswerTo(u, v, p).Errored?) && (r.error.Some? ==> ErrorText(r.error.value) == AnswerTo(u, v, p).message)
            && |r.records| == if AnswerTo(u, v, p) == Verdict(expected) then n else 1
    decreases n
  {
    hide Settled, CollisionFree, Deterministic, RunnablePlan, AnswerTo, RunWorldOf;
    RunIsDecided(u, v, t, s, p);
    var ran := StepOf(u, p)(s);
    assert ran == RunWorldOf(u, s, p);
    if n > 1 && AnswerTo(u, v, p) == Verdict(expected) { SeriesIsDecided(u, v, t, ran.session, p, expected, n - 1); }
  }

  // ----- the search -----

  function Forward(u: Universe, v: Verdicts, t: Settings, factors: seq<Factor>): Answer {
    (ids: seq<string>) => AnswerTo(u, v, ForwardPlan(t, IndexOf(factors), ids))
  }

  /** The runs behind these calls: as many as there are repetitions for a passing set, one for any other. */
  ghost function Spent(calls: seq<Call>, repetitions: nat): nat
    decreases |calls|
  {
    if calls == [] then 0
    else Spent(calls[..|calls|-1], repetitions) + if calls[|calls|-1].outcome == Verdict(true) then repetitions else 1
  }

  /** The search on the answers alone, with what the baselines leave of the budget. */
  ghost function Found(u: Universe, v: Verdicts, t: Settings, factors: seq<Factor>): Minimized<()> {
    Minimize(Pure(Forward(u, v, t, factors)), IdsOf(factors), t.maxExperiments - 2 * t.repetitions, ())
  }

  lemma TestIsDecided(u: Universe, v: Verdicts, t: Settings, factors: seq<Factor>, lab: Lab, c: seq<string>)
    requires Trusted(u, v, t, factors) && Settled(u, v, t, lab.session) && Subsequence(c, IdsOf(factors))
    ensures var (after, outcome) := TestCandidate(u, t, IndexOf(factors), lab, c);
            && Settled(u, v, t, after.session) && outcome == Forward(u, v, t, factors)(c)
            && |after.experiments| == |lab.experiments| + if outcome == Verdict(true) then t.repetitions else 1
  {
    hide Settled, AnswerTo, RunnablePlan, IndexOf, RepeatOf, StepOf;
    PlansAreRunnable(u, v, t, factors);
    SeriesIsDecided(u, v, t, lab.session, ForwardPlan(t, IndexOf(factors), c), true, t.repetitions);
  }

  ghost predicate Accounted(u: Universe, v: Verdicts, t: Settings, f: Answer, before: nat, lab: Lab, calls: seq<Call>) {
    && Settled(u, v, t, lab.session) && |lab.experiments| == before + Spent(calls, t.repetitions)
    && forall k :: 0 <= k < |calls| ==> calls[k].outcome == f(calls[k].candidate)
  }

  lemma AccountMore(u: Universe, v: Verdicts, t: Settings, factors: seq<Factor>, before: nat, lab: Lab, calls: seq<Call>, c: seq<string>)
    requires Trusted(u, v, t, factors) && Accounted(u, v, t, Forward(u, v, t, factors), before, lab, calls) && Subsequence(c, IdsOf(factors))
    ensures var (after, outcome) := TestCandidate(u, t, IndexOf(factors), lab, c);
            Accounted(u, v, t, Forward(u, v, t, factors), before, after, calls + [Call(c, outcome)])
  {
    hide Settled, Trusted, Forward, TestCandidate, IndexOf, IdsOf;
    TestIsDecided(u, v, t, factors, lab, c);
    var (_, outcome) := TestCandidate(u, t, IndexOf(factors), lab, c);
    assert (calls + [Call(c, outcome)])[..|calls|] == calls;
  }

  lemma SearchIsDecided(u: Universe, v: Verdicts, t: Settings, a: Analysis, s: Session)
    requires Trusted(u, v, t, a.factors) && Settled(u, v, t, s) && |a.experiments| == 2 * t.repetitions
    ensures var m := SearchOf(u, s, t, a);
            && BareResult(m) == Found(u, v, t, a.factors)
            && Accounted(u, v, t, Forward(u, v, t, a.factors), |a.experiments|, m.probe.state, m.probe.calls)
  {
    hide Settled, Trusted, Forward, IndexOf, TestCandidate, Search, Subsequence;
    var test, f, ids := TestOf(u, t, IndexOf(a.factors)), Forward(u, v, t, a.factors), IdsOf(a.factors);
    var inv := (lab: Lab) => Settled(u, v, t, lab.session);
    var keeps := (lab: Lab, calls: seq<Call>) => Accounted(u, v, t, f, |a.experiments|, lab, calls);
    forall lab: Lab, c: seq<string> | inv(lab) && 0 < |c| < |ids| && Subsequence(c, ids)
      ensures inv(test(lab, c).0) && test(lab, c).1 == f(c)
    {
      TestIsDecided(u, v, t, a.factors, lab, c);
    }
    forall lab: Lab, calls: seq<Call>, c: seq<string> | keeps(lab, calls) && 0 < |c| < |ids| && Subsequence(c, ids)
      ensures keeps(test(lab, c).0, calls + [Call(c, test(lab, c).1)])
    {
      AccountMore(u, v, t, a.factors, |a.experiments|, lab, calls, c);
    }
    var budget, lab := t.maxExperiments - |a.experiments|, Lab(s, a.experiments);
    MinimizeIsPure(test, inv, f, ids, budget, lab);
    MinimizeKeeps(test, keeps, ids, budget, lab);
  }

  // ----- minimality -----

  /** Minimality of a set all whose one-smaller sets fail depends on the budget alone. */
  lemma {:induction false} MinimalityIsDecided(u: Universe, v: Verdicts, t: Settings, factors: seq<Factor>, s: Session, c: seq<string>, i: nat, made: nat)
    requires Trusted(u, v, t, factors) && Settled(u, v, t, s) && Subsequence(c, IdsOf(factors)) && i <= |c|
    requires forall j :: i <= j < |c| && Without(c, j) != [] ==> Forward(u, v, t, factors)(Without(c, j)) == Verdict(false)
    requires |c| == 1 ==> i == made
    ensures var r := MinimalityOf(TrialOf(u, t, IndexOf(factors)), t, s, c, i, made);
            && !r.session.done
            && if i < |c| && made + |c| - i - 1 + |t.good.arguments| >= t.maxExperiments
               then r.error == Some(CheckBudgetExhausted) else r.error.None? && r.minimal
    decreases |c| - i
  {
    hide AnswerTo, Settled, Trusted, RunnablePlan, RepeatOf, StepOf, IndexOf, IdsOf;
    SettledIsNotDone(u, v, t, s);
    if i < |c| && made + |t.good.arguments| < t.maxExperiments {
      if Without(c, i) == [] {
        assert |c| == 1;
        assert MinimalityOf(TrialOf(u, t, IndexOf(factors)), t, s, c, i, made) == Checked(s, [], true, None);
      } else {
        WithoutIsSubsequence(c, i);
        SubsequenceIsTransitive(Without(c, i), c, IdsOf(factors));
        var series := TrialOf(u, t, IndexOf(factors))(s, Without(c, i));
        TrialFails(u, v, t, factors, s, Without(c, i));
        MinimalityIsDecided(u, v, t, factors, series.session, c, i + 1, made + 1);
      }
    }
  }

  lemma TrialFails(u: Universe, v: Verdicts, t: Settings, factors: seq<Factor>, s: Session, c: seq<string>)
    requires Trusted(u, v, t, factors) && Settled(u, v, t, s) && Subsequence(c, IdsOf(factors))
    requires Forward(u, v, t, factors)(c) == Verdict(false)
    ensures var r := TrialOf(u, t, IndexOf(factors))(s, c); Settled(u, v, t, r.session) && !r.steady && r.error.None? && |r.records| == 1
  {
    hide AnswerTo, Settled, RunnablePlan, RepeatOf, StepOf, IndexOf, IdsOf;
    PlansAreRunnable(u, v, t, factors);
    SeriesIsDecided(u, v, t, s, ForwardPlan(t, IndexOf(factors), c), true, t.repetitions);
  }

  // ----- the analysis -----

  /** What is left to decide once the set is found, if all its one-smaller sets fail. */
  function Verified(t: Settings, experiments: nat, reverse: Option<bool>, size: nat): Option<Limitation> {
    if experiments + t.repetitions > t.maxExperiments then Some(NoBudgetForReverse)
    else if reverse == None then Some(ReverseFailed)
    else if reverse == Some(true) then Some(ReverseDidNotReproduce)
    else if size - 1 + |t.good.arguments| >= t.maxExperiments then Some(MinimalityIncomplete(CheckBudgetExhausted))
    else None
  }

  ghost predicate SmallerSetsFail(u: Universe, v: Verdicts, t: Settings, factors: seq<Factor>, c: seq<string>) {
    forall j :: 0 <= j < |c| && Without(c, j) != [] ==> Forward(u, v, t, factors)(Without(c, j)) == Verdict(false)
  }

  lemma ConclusionIsDecided(u: Universe, v: Verdicts, t: Settings, a: Analysis, s: Session, c: seq<string>)
    requires Trusted(u, v, t, a.factors) && Settled(u, v, t, s) && Subsequence(c, IdsOf(a.factors)) && c != [] && Untouched(a)
    requires SmallerSetsFail(u, v, t, a.factors, c)
    ensures var x := ConcludeOf(u, s, t, a, c).analysis;
            && x.limitation == Verified(t, |a.experiments|, PlanVerdict(u, v, ReversePlan(t, IndexOf(a.factors), c)), |c|)
            && x.causalFactors == if x.status == Unproven then [] else c
  {
    hide Settled, AnswerTo, RunnablePlan, RepeatOf, StepOf, IndexOf, Forward, TrialOf, MinimalityOf, SortBy, PlanVerdict, Subsequence;
    PlansAreRunnable(u, v, t, a.factors);
    var p := ReversePlan(t, IndexOf(a.factors), c);
    AnswersAreVerdicts(u, v, p);
    SeriesIsDecided(u, v, t, s, p, false, t.repetitions);
    var reverse := RepeatOf(StepOf(u, p), s, false, t.repetitions);
    SettledIsNotDone(u, v, t, reverse.session);
    MinimalityIsDecided(u, v, t, a.factors, reverse.session, c, 0, 0);
    SortNothing();
    IdsAreOrdered(a.factors);
    SortedSubsequence(c, IdsOf(a.factors));
  }

  lemma IdsAreOrdered(factors: seq<Factor>)
    requires StrictlyOrdered(factors, IdBefore)
    ensures StrictlyOrdered(IdsOf(factors), StringLess) && Distinct(IdsOf(factors))
  {
    var ids := IdsOf(factors);
    forall i, j | 0 <= i < j < |ids| ensures ids[i] != ids[j] {
      assert IdBefore(factors[i], factors[j]);
      StringLessIrreflexive(ids[i]);
    }
  }

  /** A search that is not stopped has seen every smaller set of its result fail. */
  lemma FoundIsMinimal(u: Universe, v: Verdicts, t: Settings, factors: seq<Factor>)
    requires StrictlyOrdered(factors, IdBefore) && factors != []
    ensures var m := Found(u, v, t, factors);
            && m.current != [] && Subsequence(m.current, IdsOf(factors))
            && (m.current == IdsOf(factors) || Forward(u, v, t, factors)(m.current) == Verdict(true))
            && (m.stop.None? ==> SmallerSetsFail(u, v, t, factors, m.current))
  {
    hide Forward, Search, IdBefore, StringLess;
    IdsAreOrdered(factors);
    PureSearchFinds(Forward(u, v, t, factors), IdsOf(factors), t.maxExperiments - 2 * t.repetitions);
  }

  /**
   * The answer of an analysis, from the verdicts of the worlds and the budget. `found` is the search on these verdicts,
   * and `Spent` the number of runs behind it.
   */
  lemma {:induction false} AnalysisIsDecided(u: Universe, v: Verdicts, s: Session, t: Settings, factors: seq<Factor>, boundaries: set<Boundary>)
    requires Trusted(u, v, t, factors) && Settled(u, v, t, s)
    ensures var a := AnalyzeOf(u, s, t, factors, boundaries).analysis;
            var found := Found(u, v, t, factors);
            && a.limitation == (
                 if PlanVerdict(u, v, BaselinePlan(t, t.good)) != Some(true) then Some(GoodBaselineUnstable)
                 else if PlanVerdict(u, v, BaselinePlan(t, t.bad)) != Some(false) then Some(BadBaselineUnstable)
                 else if factors == [] then Some(NoDifferences)
                 else if 2 * t.repetitions >= t.maxExperiments then Some(BudgetSpentOnBaselines)
                 else if found.stop.Some? then Some(MinimizationStopped(found.stop.value))
                 else Verified(t, 2 * t.repetitions + Spent(found.probe.calls, t.repetitions),
                               PlanVerdict(u, v, ReversePlan(t, IndexOf(factors), found.current)), |found.current|))
            && a.causalFactors == if a.status == Unproven then [] else found.current
  {
    hide Settled, AnswerTo, RunnablePlan, RepeatOf, StepOf, IndexOf, Forward, Found, Spent, Subsequence, SearchOf, ConcludeOf, SortBy, PlanVerdict,
         SmallerSetsFail, Verified;
    PlansAreRunnable(u, v, t, factors);
    SettledIsNotDone(u, v, t, s);
    SortNothing();
    AnswersAreConsistent(u, s, t, factors, boundaries);
    var p, q := BaselinePlan(t, t.good), BaselinePlan(t, t.bad);
    AnswersAreVerdicts(u, v, p);
    AnswersAreVerdicts(u, v, q);
    SeriesIsDecided(u, v, t, s, p, true, t.repetitions);
    var good := RepeatOf(StepOf(u, p), s, true, t.repetitions);
    SettledIsNotDone(u, v, t, good.session);
    if PlanVerdict(u, v, p) == Some(true) {
      SeriesIsDecided(u, v, t, good.session, q, false, t.repetitions);
      var bad := RepeatOf(StepOf(u, q), good.session, false, t.repetitions);
      SettledIsNotDone(u, v, t, bad.session);
      if PlanVerdict(u, v, q) == Some(false) && factors != [] {
        SearchAnswers(u, v, t, StartedAnalysis(t, factors, boundaries).(experiments := good.records + bad.records), bad.session);
      }
    }
  }

  lemma SearchAnswers(u: Universe, v: Verdicts, t: Settings, a: Analysis, s: Session)
    requires Trusted(u, v, t, a.factors) && Settled(u, v, t, s) && Untouched(a) && a.factors != [] && |a.experiments| == 2 * t.repetitions
    ensures var x := SearchPhaseOf(u, s, t, a).analysis;
            var found := Found(u, v, t, a.factors);
            && x.limitation == (
                 if 2 * t.repetitions >= t.maxExperiments then Some(BudgetSpentOnBaselines)
                 else if found.stop.Some? then Some(MinimizationStopped(found.stop.value))
                 else Verified(t, 2 * t.repetitions + Spent(found.probe.calls, t.repetitions),
                               PlanVerdict(u, v, ReversePlan(t, IndexOf(a.factors), found.current)), |found.current|))
            && x.causalFactors == if x.status == Unproven then [] else found.current
  {
    hide Settled, IndexOf, Forward, Found, Spent, Subsequence, SearchOf, ConcludeOf, SortBy, PlanVerdict, SmallerSetsFail, Verified, Trusted;
    SortNothing();
    SearchIsDecided(u, v, t, a, s);
    TrustedIsOrdered(u, v, t, a.factors);
    FoundIsMinimal(u, v, t, a.factors);
    var m := SearchOf(u, s, t, a);
    SettledIsNotDone(u, v, t, m.probe.state.session);
    if m.stop.None? {
      ConclusionIsDecided(u, v, t, a.(experiments := m.probe.state.experiments), m.probe.state.session, m.current);
    }
  }

  lemma TrustedIsOrdered(u: Universe, v: Verdicts, t: Settings, factors: seq<Factor>)
    requires Trusted(u, v, t, factors)
    ensures StrictlyOrdered(factors, IdBefore)
  {}

  // ----- complete factors and stable baselines -----

  ghost predicate StableBaselines(u: Universe, v: Verdicts, t: Settings) {
    PlanVerdict(u, v, BaselinePlan(t, t.good)) == Some(true) && PlanVerdict(u, v, BaselinePlan(t, t.bad)) == Some(false)
  }

  ghost predicate Sound(u: Universe, v: Verdicts, t: Settings, factors: seq<Factor>) {
    Trusted(u, v, t, factors) && Comparable(t) && Complete(u.name, t.good, t.bad, factors) && factors != [] && StableBaselines(u, v, t)
  }

  /** With complete factors, all of them repair, none do not, and a reverse run of a set is a forward run of the others. */
  lemma SoundVerdicts(u: Universe, v: Verdicts, t: Settings, factors: seq<Factor>)
    requires Sound(u, v, t, factors)
    ensures ForwardVerdict(u, v, t, factors, IdsOf(factors)) == Some(true) && ForwardVerdict(u, v, t, factors, []) == Some(false)
    ensures forall ids | Subsequence(ids, IdsOf(factors)) ::
              PlanVerdict(u, v, ReversePlan(t, IndexOf(factors), ids)) == ForwardVerdict(u, v, t, factors, Others(IdsOf(factors), ids))
  {
    hide IndexOf, Others, ForwardVerdict, PlanVerdict, Complete, Subsequence, WellFormed;
    BaselineIsBuildable(u, v, t, t.good);
    BaselineIsBuildable(u, v, t, t.bad);
    ForwardOfAllIsGood(u, v, t, factors);
    forall ids | Subsequence(ids, IdsOf(factors))
      ensures PlanVerdict(u, v, ReversePlan(t, IndexOf(factors), ids)) == ForwardVerdict(u, v, t, factors, Others(IdsOf(factors), ids))
    {
      ForwardOfOthersIsReverse(u, v, t, factors, ids);
    }
  }

  lemma ForwardIs(u: Universe, v: Verdicts, t: Settings, factors: seq<Factor>, ids: seq<string>)
    ensures forall b :: Forward(u, v, t, factors)(ids) == Verdict(b) <==> ForwardVerdict(u, v, t, factors, ids) == Some(b)
    ensures Forward(u, v, t, factors)(ids).Verdict? <==> ForwardVerdict(u, v, t, factors, ids).Some?
  {
    AnswersAreVerdicts(u, v, ForwardPlan(t, IndexOf(factors), ids));
  }

  lemma {:induction false} SpentBound(calls: seq<Call>, repetitions: nat)
    requires repetitions >= 1
    ensures Spent(calls, repetitions) <= repetitions * |calls|
    decreases |calls|
  {
    if calls != [] {
      SpentBound(calls[..|calls|-1], repetitions);
      assert repetitions * |calls| == repetitions * (|calls| - 1) + repetitions;
    }
  }

  /** Every set of factors gives a verdict. */
  ghost predicate AllDecided(u: Universe, v: Verdicts, t: Settings, factors: seq<Factor>) {
    forall ids | Subsequence(ids, IdsOf(factors)) :: ForwardVerdict(u, v, t, factors, ids).Some?
  }

  lemma AmpleArithmetic(r: nat, n: nat, calls: nat, budget: int)
    requires r >= 1 && 3 * r + 6 * r * n * n <= budget && calls <= 6 * n * n
    ensures budget - 2 * r > 6 * n * n && 3 * r + r * calls <= budget && 2 * r < budget
  {
    assert r * calls <= r * (6 * n * n);
    assert 6 * r * n * n == r * (6 * n * n);
    assert r * (6 * n * n) >= 6 * n * n;
  }

  /** With verdicts for all sets, an ample budget lets the search finish. */
  lemma AmpleSearch(u: Universe, v: Verdicts, t: Settings, factors: seq<Factor>)
    requires StrictlyOrdered(factors, IdBefore) && AllDecided(u, v, t, factors) && t.repetitions >= 1
    requires 3 * t.repetitions + 6 * t.repetitions * |factors| * |factors| <= t.maxExperiments
    ensures var m := Found(u, v, t, factors); m.stop.None? && 3 * t.repetitions + Spent(m.probe.calls, t.repetitions) <= t.maxExperiments
  {
    hide Forward, Search, IdBefore, ForwardVerdict, Subsequence;
    var f, ids, budget := Forward(u, v, t, factors), IdsOf(factors), t.maxExperiments - 2 * t.repetitions;
    var m := Found(u, v, t, factors);
    PureCallsAgree(f, ids, budget);
    OnlyProperListsAreTested(Pure(f), ids, budget, ());
    MinimizeLaw(Pure(f), ids, budget, ());
    MinimizeCallBound(Pure(f), ids, budget, ());
    SpentBound(m.probe.calls, t.repetitions);
    AmpleArithmetic(t.repetitions, |factors|, |m.probe.calls|, t.maxExperiments);
    if m.stop.Some? {
      ForwardIs(u, v, t, factors, m.probe.calls[|m.probe.calls|-1].candidate);
    }
  }

  /**
   * Completeness. With stable baselines, complete factors, a verdict for every set of them and this budget, an analysis ends
   * with a set that repairs the bad world and no set one smaller than which does: PROVEN if the complement of the set does
   * not repair it, and otherwise SUPPORTED.
   */
  lemma {:induction false} AmpleBudgetDecides(u: Universe, v: Verdicts, s: Session, t: Settings, factors: seq<Factor>, boundaries: set<Boundary>)
    requires Sound(u, v, t, factors) && Settled(u, v, t, s) && AllDecided(u, v, t, factors)
    requires 3 * t.repetitions + 6 * t.repetitions * |factors| * |factors| <= t.maxExperiments && |factors| + |t.good.arguments| <= t.maxExperiments
    ensures var a := AnalyzeOf(u, s, t, factors, boundaries).analysis;
            var c := a.causalFactors;
            && c != [] && Subsequence(c, IdsOf(factors))
            && ForwardVerdict(u, v, t, factors, c) == Some(true)
            && (forall i :: 0 <= i < |c| ==> ForwardVerdict(u, v, t, factors, Without(c, i)) == Some(false))
            && a.status == (if ForwardVerdict(u, v, t, factors, Others(IdsOf(factors), c)) == Some(false) then Proven else Supported)
            && a.limitation == if a.status == Proven then None else Some(ReverseDidNotReproduce)
  {
    hide Settled, AnalyzeOf, ForwardVerdict, PlanVerdict, Found, Forward, Spent, IndexOf, Subsequence, Others, Complete, Comparable, Deterministic,
         CollisionFree, WellFormed, StrictlyOrdered;
    var ids := IdsOf(factors);
    AnalysisIsDecided(u, v, s, t, factors, boundaries);
    AnswersAreConsistent(u, s, t, factors, boundaries);
    SoundVerdicts(u, v, t, factors);
    AmpleSearch(u, v, t, factors);
    FoundIsMinimal(u, v, t, factors);
    var c := Found(u, v, t, factors).current;
    SubsequenceElements(c, ids);
    ForwardIs(u, v, t, factors, c);
    OthersAreASubsequence(ids, c);
    var others := ForwardVerdict(u, v, t, factors, Others(ids, c));
    assert others.Some? && (others.value ==> others == Some(true)) && (!others.value ==> others == Some(false));
    forall i | 0 <= i < |c| ensures ForwardVerdict(u, v, t, factors, Without(c, i)) == Some(false) { ForwardIs(u, v, t, factors, Without(c, i)); }
  }

  lemma {:induction false} OthersAreASubsequence(all: seq<string>, some: seq<string>)
    ensures Subsequence(Others(all, some), all)
    decreases |all|
  {
    if all == [] {
      SubsequenceIsReflexive(all);
    } else {
      assert all == [all[0]] + all[1..];
      var rest := Others(all[1..], some);
      OthersAreASubsequence(all[1..], some);
      SubsequenceOfTail(rest, all);
      assert [] + rest == rest;
    }
  }

  /** In particular it ends PROVEN, with a cause, if no set of factors repairs together with its complement. */
  lemma ExclusiveRepairIsProven(u: Universe, v: Verdicts, s: Session, t: Settings, factors: seq<Factor>, boundaries: set<Boundary>)
    requires Sound(u, v, t, factors) && Settled(u, v, t, s) && AllDecided(u, v, t, factors)
    requires 3 * t.repetitions + 6 * t.repetitions * |factors| * |factors| <= t.maxExperiments && |factors| + |t.good.arguments| <= t.maxExperiments
    requires forall ids | Subsequence(ids, IdsOf(factors)) && ForwardVerdict(u, v, t, factors, ids) == Some(true) ::
               ForwardVerdict(u, v, t, factors, Others(IdsOf(factors), ids)) == Some(false)
    ensures var a := AnalyzeOf(u, s, t, factors, boundaries).analysis; a.status == Proven && IsCause(u, v, t, factors, a.causalFactors)
  {
    hide AnalyzeOf, ForwardVerdict, Subsequence, Others, Sound, Settled, AllDecided;
    AmpleBudgetDecides(u, v, s, t, factors, boundaries);
  }

  /** One differing factor: PROVEN exactly if the budget holds three series and exceeds the number of arguments. */
  lemma {:induction false} OneFactorIsProvenIff(u: Universe, v: Verdicts, s: Session, t: Settings, factors: seq<Factor>, boundaries: set<Boundary>)
    requires Sound(u, v, t, factors) && Settled(u, v, t, s) && |factors| == 1
    ensures var a := AnalyzeOf(u, s, t, factors, boundaries).analysis;
            && (a.status == Proven <==> 3 * t.repetitions <= t.maxExperiments && |t.good.arguments| < t.maxExperiments)
            && (a.status == Supported <==> 3 * t.repetitions <= t.maxExperiments <= |t.good.arguments|)
            && a.causalFactors == (if a.status == Unproven then [] else [factors[0].id])
            && a.limitation == if 2 * t.repetitions >= t.maxExperiments then Some(BudgetSpentOnBaselines)
                               else if 3 * t.repetitions > t.maxExperiments then Some(NoBudgetForReverse)
                               else if |t.good.arguments| >= t.maxExperiments then Some(MinimalityIncomplete(CheckBudgetExhausted))
                               else None
  {
    hide Settled, AnalyzeOf, ForwardVerdict, PlanVerdict, Forward, IndexOf, Subsequence, Complete, Comparable, Deterministic, CollisionFree,
         WellFormed, StrictlyOrdered;
    var ids := IdsOf(factors);
    assert ids == [factors[0].id];
    AnalysisIsDecided(u, v, s, t, factors, boundaries);
    AnswersAreConsistent(u, s, t, factors, boundaries);
    SoundVerdicts(u, v, t, factors);
    SingleItemIsUntested(Pure(Forward(u, v, t, factors)), factors[0].id, t.maxExperiments - 2 * t.repetitions, ());
    SubsequenceIsReflexive(ids);
    assert Others(ids, ids) == [];
  }
}
