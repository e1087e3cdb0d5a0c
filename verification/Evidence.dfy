/**
 * What the recorded experiments of a PROVEN analysis show (internal/experiment/engine.go), for every invariant
 * of the session and every notion of a fitting record that single runs respect.
 */
module Evidence {
  import opened Ordering
  import opened Sequences
  import opened DeltaDebugging
  import opened FileTree
  import opened WorldDiff
  import opened Interventions
  import opened ExperimentCache
  import opened Engine

  // ----- laws of single runs, carried through the analysis -----

  /** `inv` is kept by every run of plan `p`, and every run without an error leaves a `fit` record of its verdict. */
  ghost predicate Lawful(u: Universe, p: Plan, inv: Session -> bool, fit: (Plan, Experiment) -> bool) {
    forall s :: inv(s) ==>
      var ran := StepOf(u, p)(s);
      inv(ran.session) && (ran.error.None? ==> fit(p, ran.record) && ran.record.passed == ran.passed)
  }

  ghost predicate Shows(fit: (Plan, Experiment) -> bool, p: Plan, r: Experiment, passed: bool) {
    fit(p, r) && r.passed == passed
  }

  /** `n` consecutive records, from position `lo`, of runs of plan `p` with this verdict. */
  ghost predicate SeriesShown(fit: (Plan, Experiment) -> bool, p: Plan, es: seq<Experiment>, lo: nat, n: nat, passed: bool) {
    lo + n <= |es| && forall i :: lo <= i < lo + n ==> Shows(fit, p, es[i], passed)
  }

  lemma {:induction false} SeriesLaw(u: Universe, p: Plan, inv: Session -> bool, fit: (Plan, Experiment) -> bool, s: Session, expected: bool, n: nat)
    requires Lawful(u, p, inv, fit) && inv(s)
    ensures var series := RepeatOf(StepOf(u, p), s, expected, n);
            && inv(series.session) && |series.records| <= n
            && (series.error.None? && series.steady ==> |series.records| == n && SeriesShown(fit, p, series.records, 0, n, expected))
            && (series.error.None? && !series.steady ==> series.records != [] && Shows(fit, p, series.records[|series.records|-1], !expected))
    decreases n
  {
    if n > 0 {
      var ran := StepOf(u, p)(s);
      if ran.error.None? && ran.passed == expected {
        SeriesLaw(u, p, inv, fit, ran.session, expected, n - 1);
        var rest := RepeatOf(StepOf(u, p), ran.session, expected, n - 1);
        var series := RepeatOf(StepOf(u, p), s, expected, n);
        assert series.records == [ran.record] + rest.records;
      }
    }
  }

  /** The plans an analysis over the factor IDs `all` can run. */
  ghost predicate Runs(t: Settings, index: map<string, Factor>, all: seq<string>, p: Plan) {
    || p == BaselinePlan(t, t.good) || p == BaselinePlan(t, t.bad)
    || (exists ids :: Subsequence(ids, all) && (p == ForwardPlan(t, index, ids) || p == ReversePlan(t, index, ids)))
  }

  ghost predicate AllLawful(u: Universe, t: Settings, index: map<string, Factor>, all: seq<string>, inv: Session -> bool, fit: (Plan, Experiment) -> bool) {
    forall p :: Runs(t, index, all, p) ==> Lawful(u, p, inv, fit)
  }

  // ----- minimality -----

  ghost predicate FailureShown(t: Settings, index: map<string, Factor>, fit: (Plan, Experiment) -> bool, es: seq<Experiment>, ids: seq<string>) {
    exists k :: 0 <= k < |es| && Shows(fit, ForwardPlan(t, index, ids), es[k], false)
  }

  ghost predicate SuccessShown(t: Settings, index: map<string, Factor>, fit: (Plan, Experiment) -> bool, es: seq<Experiment>, ids: seq<string>) {
    exists lo: nat :: SeriesShown(fit, ForwardPlan(t, index, ids), es, lo, t.repetitions, true)
  }

  lemma WithoutIsSubsequence(ids: seq<string>, i: nat)
    requires i < |ids|
    ensures Subsequence(Without(ids, i), ids)
  {
    assert Embeds(Without(ids, i), ids, seq(|ids| - 1, k requires 0 <= k => if k < i then k else k + 1));
  }

  lemma FailureStays(t: Settings, index: map<string, Factor>, fit: (Plan, Experiment) -> bool, before: seq<Experiment>,
                     es: seq<Experiment>, after: seq<Experiment>, ids: seq<string>)
    requires FailureShown(t, index, fit, es, ids)
    ensures FailureShown(t, index, fit, before + es + after, ids)
  {
    var k :| 0 <= k < |es| && Shows(fit, ForwardPlan(t, index, ids), es[k], false);
    assert (before + es + after)[|before| + k] == es[k];
  }

  lemma SuccessStays(t: Settings, index: map<string, Factor>, fit: (Plan, Experiment) -> bool, es: seq<Experiment>, more: seq<Experiment>, ids: seq<string>)
    requires SuccessShown(t, index, fit, es, ids)
    ensures SuccessShown(t, index, fit, es + more, ids)
  {
    var lo: nat :| SeriesShown(fit, ForwardPlan(t, index, ids), es, lo, t.repetitions, true);
    assert SeriesShown(fit, ForwardPlan(t, index, ids), es + more, lo, t.repetitions, true);
  }

  /** Each one-smaller non-empty set, from position `i` on, was seen to fail. */
  ghost predicate FailuresShown(t: Settings, index: map<string, Factor>, fit: (Plan, Experiment) -> bool, es: seq<Experiment>, ids: seq<string>, i: nat) {
    forall j :: i <= j < |ids| && Without(ids, j) != [] ==> FailureShown(t, index, fit, es, Without(ids, j))
  }

  lemma FailuresCombine(t: Settings, index: map<string, Factor>, fit: (Plan, Experiment) -> bool, first: seq<Experiment>,
                        rest: seq<Experiment>, ids: seq<string>, i: nat)
    requires i < |ids| && FailureShown(t, index, fit, first, Without(ids, i)) && FailuresShown(t, index, fit, rest, ids, i + 1)
    ensures FailuresShown(t, index, fit, first + rest, ids, i)
  {
    forall j | i <= j < |ids| && Without(ids, j) != [] ensures FailureShown(t, index, fit, first + rest, Without(ids, j)) {
      if j == i {
        FailureStays(t, index, fit, [], first, rest, Without(ids, i));
        assert [] + first + rest == first + rest;
      } else {
        FailureStays(t, index, fit, first, rest, [], Without(ids, j));
        assert first + rest + [] == first + rest;
      }
    }
  }

  ghost predicate CheckLaw(t: Settings, index: map<string, Factor>, fit: (Plan, Experiment) -> bool, c: Checked, ids: seq<string>, i: nat, made: nat) {
    c.error.None? && c.minimal ==>
      && made + |c.records| <= Max(made, t.maxExperiments - |t.good.arguments| - 1 + t.repetitions)
      && (i < |ids| ==> made + |t.good.arguments| < t.maxExperiments)
      && FailuresShown(t, index, fit, c.records, ids, i)
  }

  lemma {:induction false} MinimalityLaw(u: Universe, t: Settings, index: map<string, Factor>, all: seq<string>, inv: Session -> bool,
                                         fit: (Plan, Experiment) -> bool, s: Session, ids: seq<string>, i: nat, made: nat)
    requires AllLawful(u, t, index, all, inv, fit) && inv(s) && i <= |ids| && Subsequence(ids, all)
    ensures inv(MinimalityOf(TrialOf(u, t, index), t, s, ids, i, made).session)
    ensures CheckLaw(t, index, fit, MinimalityOf(TrialOf(u, t, index), t, s, ids, i, made), ids, i, made)
    decreases |ids| - i
  {
    hide RepeatOf, StepOf, TrialOf, SelectedOf, IndexOf, AllLawful;
    if i < |ids| && made + |t.good.arguments| < t.maxExperiments {
      var subset := Without(ids, i);
      if subset == [] {
        MinimalityLaw(u, t, index, all, inv, fit, s, ids, i + 1, made);
      } else {
        TrialLaw(u, t, index, all, inv, fit, s, ids, i);
        var series := TrialOf(u, t, index)(s, subset);
        if series.error.None? && !series.steady {
          MinimalityLaw(u, t, index, all, inv, fit, series.session, ids, i + 1, made + |series.records|);
          var rest := MinimalityOf(TrialOf(u, t, index), t, series.session, ids, i + 1, made + |series.records|);
          if rest.error.None? && rest.minimal {
            FailuresCombine(t, index, fit, series.records, rest.records, ids, i);
          }
        }
      }
    }
  }

  lemma TrialLaw(u: Universe, t: Settings, index: map<string, Factor>, all: seq<string>, inv: Session -> bool,
                 fit: (Plan, Experiment) -> bool, s: Session, ids: seq<string>, i: nat)
    requires AllLawful(u, t, index, all, inv, fit) && inv(s) && i < |ids| && Subsequence(ids, all)
    ensures var series := TrialOf(u, t, index)(s, Without(ids, i));
            && inv(series.session) && |series.records| <= t.repetitions
            && (series.error.None? && !series.steady ==> FailureShown(t, index, fit, series.records, Without(ids, i)))
  {
    var p := ForwardPlan(t, index, Without(ids, i));
    WithoutIsSubsequence(ids, i);
    SubsequenceIsTransitive(Without(ids, i), ids, all);
    assert Runs(t, index, all, p);
    SeriesLaw(u, p, inv, fit, s, true, t.repetitions);
  }

  // ----- the reverse run and the minimality check -----

  ghost predicate ReverseShown(t: Settings, index: map<string, Factor>, fit: (Plan, Experiment) -> bool, es: seq<Experiment>, ids: seq<string>) {
    exists lo: nat :: SeriesShown(fit, ReversePlan(t, index, ids), es, lo, t.repetitions, false) && lo + t.repetitions <= t.maxExperiments
  }

  /** What the conclusion adds to the experiments `before` when it proves `ids`. */
  ghost predicate Concluded(t: Settings, index: map<string, Factor>, fit: (Plan, Experiment) -> bool, before: seq<Experiment>, es: seq<Experiment>, ids: seq<string>) {
    && before <= es
    && ReverseShown(t, index, fit, es, ids)
    && FailuresShown(t, index, fit, es, ids, 0)
    && |es| <= 2 * t.maxExperiments + t.repetitions - |t.good.arguments| - 1
  }

  lemma FailuresStay(t: Settings, index: map<string, Factor>, fit: (Plan, Experiment) -> bool, before: seq<Experiment>, es: seq<Experiment>, ids: seq<string>)
    requires FailuresShown(t, index, fit, es, ids, 0)
    ensures FailuresShown(t, index, fit, before + es, ids, 0)
  {
    forall j | 0 <= j < |ids| && Without(ids, j) != [] ensures FailureShown(t, index, fit, before + es, Without(ids, j)) {
      FailureStays(t, index, fit, before, es, [], Without(ids, j));
      assert before + es + [] == before + es;
    }
  }

  /** The only way through `ConcludeOf` to PROVEN. */
  lemma ConclusionShape(u: Universe, s: Session, t: Settings, a: Analysis, ids: seq<string>)
    requires a.status == Unproven && ConcludeOf(u, s, t, a, ids).analysis.status == Proven
    ensures var index := IndexOf(a.factors);
            var reverse := RepeatOf(StepOf(u, ReversePlan(t, index, ids)), s, false, t.repetitions);
            var checked := MinimalityOf(TrialOf(u, t, index), t, reverse.session, ids, 0, 0);
            var b := ConcludeOf(u, s, t, a, ids).analysis;
            && |a.experiments| + t.repetitions <= t.maxExperiments
            && reverse.error.None? && reverse.steady && checked.error.None? && checked.minimal
            && b.experiments == a.experiments + reverse.records + checked.records
            && b.causalFactors == SortBy(ids, StringLess)
  {}

  lemma ConclusionLaw(u: Universe, s: Session, t: Settings, a: Analysis, ids: seq<string>, all: seq<string>,
                      inv: Session -> bool, fit: (Plan, Experiment) -> bool)
    requires AllLawful(u, t, IndexOf(a.factors), all, inv, fit) && inv(s) && Subsequence(ids, all) && ids != []
    requires a.status == Unproven && ConcludeOf(u, s, t, a, ids).analysis.status == Proven
    ensures Concluded(t, IndexOf(a.factors), fit, a.experiments, ConcludeOf(u, s, t, a, ids).analysis.experiments, ids)
  {
    ConclusionShape(u, s, t, a, ids);
    var index := IndexOf(a.factors);
    var p := ReversePlan(t, index, ids);
    assert Runs(t, index, all, p);
    SeriesLaw(u, p, inv, fit, s, false, t.repetitions);
    var reverse := RepeatOf(StepOf(u, p), s, false, t.repetitions);
    MinimalityLaw(u, t, index, all, inv, fit, reverse.session, ids, 0, 0);
    var checked := MinimalityOf(TrialOf(u, t, index), t, reverse.session, ids, 0, 0);
    ConclusionShows(t, index, fit, a.experiments, reverse.records, checked, ids);
  }

  lemma ConclusionShows(t: Settings, index: map<string, Factor>, fit: (Plan, Experiment) -> bool, before: seq<Experiment>,
                        reverse: seq<Experiment>, checked: Checked, ids: seq<string>)
    requires |before| + t.repetitions <= t.maxExperiments && |reverse| == t.repetitions && ids != []
    requires SeriesShown(fit, ReversePlan(t, index, ids), reverse, 0, t.repetitions, false)
    requires checked.error.None? && checked.minimal && CheckLaw(t, index, fit, checked, ids, 0, 0)
    ensures Concluded(t, index, fit, before, before + reverse + checked.records, ids)
  {
    var es := before + reverse + checked.records;
    assert SeriesShown(fit, ReversePlan(t, index, ids), es, |before|, t.repetitions, false);
    FailuresStay(t, index, fit, before + reverse, checked.records, ids);
  }

  // ----- the search -----

  ghost predicate SearchKept(t: Settings, index: map<string, Factor>, inv: Session -> bool, fit: (Plan, Experiment) -> bool,
                             before: seq<Experiment>, lab: Lab, calls: seq<Call>) {
    && inv(lab.session) && before <= lab.experiments
    && forall k :: 0 <= k < |calls| && calls[k].outcome == Verdict(true) ==> SuccessShown(t, index, fit, lab.experiments, calls[k].candidate)
  }

  lemma TestKeepsSearch(u: Universe, t: Settings, index: map<string, Factor>, all: seq<string>, inv: Session -> bool,
                        fit: (Plan, Experiment) -> bool, before: seq<Experiment>, lab: Lab, calls: seq<Call>, c: seq<string>)
    requires AllLawful(u, t, index, all, inv, fit) && SearchKept(t, index, inv, fit, before, lab, calls) && Subsequence(c, all)
    ensures var (lab', outcome) := TestCandidate(u, t, index, lab, c);
            SearchKept(t, index, inv, fit, before, lab', calls + [Call(c, outcome)])
  {
    var p := ForwardPlan(t, index, c);
    assert Runs(t, index, all, p);
    SeriesLaw(u, p, inv, fit, lab.session, true, t.repetitions);
    var series := TrialOf(u, t, index)(lab.session, c);
    var (lab', outcome) := TestCandidate(u, t, index, lab, c);
    var calls' := calls + [Call(c, outcome)];
    forall k | 0 <= k < |calls'| && calls'[k].outcome == Verdict(true)
      ensures SuccessShown(t, index, fit, lab'.experiments, calls'[k].candidate)
    {
      if k < |calls| {
        assert calls'[k] == calls[k];
        SuccessStays(t, index, fit, lab.experiments, series.records, calls[k].candidate);
      } else {
        assert SeriesShown(fit, p, lab'.experiments, |lab.experiments|, t.repetitions, true);
      }
    }
  }

  lemma SearchPhaseLaw(u: Universe, s: Session, t: Settings, a: Analysis, inv: Session -> bool, fit: (Plan, Experiment) -> bool)
    requires AllLawful(u, t, IndexOf(a.factors), IdsOf(a.factors), inv, fit) && inv(s)
    ensures var m := SearchOf(u, s, t, a);
            && inv(m.probe.state.session) && a.experiments <= m.probe.state.experiments
            && Subsequence(m.current, IdsOf(a.factors))
            && (m.current != IdsOf(a.factors) ==> SuccessShown(t, IndexOf(a.factors), fit, m.probe.state.experiments, m.current))
  {
    hide IndexOf, SelectedOf, RepeatOf, Search, SuccessShown, AllLawful;
    var index, all := IndexOf(a.factors), IdsOf(a.factors);
    var budget := t.maxExperiments - |a.experiments|;
    var test := TestOf(u, t, index);
    var keeps := (lab: Lab, calls: seq<Call>) => SearchKept(t, index, inv, fit, a.experiments, lab, calls);
    forall lab: Lab, calls: seq<Call>, c: seq<string> | keeps(lab, calls) && c != [] && Subsequence(c, all)
      ensures keeps(test(lab, c).0, calls + [Call(c, test(lab, c).1)])
    {
      TestKeepsSearch(u, t, index, all, inv, fit, a.experiments, lab, calls, c);
    }
    MinimizeKeeps(test, keeps, all, budget, Lab(s, a.experiments));
    MinimizeLaw(test, all, budget, Lab(s, a.experiments));
  }

  // ----- main result for arbitrary runs -----

  /**
   * The certificate behind PROVEN: passing good baselines, failing bad baselines, failing reverse runs
   * of exactly the causal factors, a failing run without each one of them, and passing forward runs of
   * them unless they are all the factors there are, in which case none was made.
   */
  ghost predicate Certificate(t: Settings, factors: seq<Factor>, fit: (Plan, Experiment) -> bool, es: seq<Experiment>, causal: seq<string>) {
    var index, all := IndexOf(factors), IdsOf(factors);
    && causal != [] && Subsequence(causal, all)
    && SeriesShown(fit, BaselinePlan(t, t.good), es, 0, t.repetitions, true)
    && SeriesShown(fit, BaselinePlan(t, t.bad), es, t.repetitions, t.repetitions, false)
    && ReverseShown(t, index, fit, es, causal)
    && FailuresShown(t, index, fit, es, causal, 0)
    && (causal != all ==> SuccessShown(t, index, fit, es, causal))
    && |es| <= 2 * t.maxExperiments + t.repetitions - |t.good.arguments| - 1
  }

  lemma SortedSubsequence(ids: seq<string>, all: seq<string>)
    requires Subsequence(ids, all) && StrictlyOrdered(all, StringLess)
    ensures StrictlyOrdered(ids, StringLess) && SortBy(ids, StringLess) == ids
  {
    var f :| Embeds(ids, all, f);
    StringOrderIsWeak();
    SortOfOrdered(ids, StringLess);
  }

  lemma SeriesInPrefix(fit: (Plan, Experiment) -> bool, p: Plan, es: seq<Experiment>, more: seq<Experiment>, lo: nat, n: nat, passed: bool)
    requires SeriesShown(fit, p, es, lo, n, passed) && es <= more
    ensures SeriesShown(fit, p, more, lo, n, passed)
  {}

  /** Both baselines came out as required, and the rest of the analysis added to them. */
  lemma BaselineLaw(u: Universe, s: Session, t: Settings, inv: Session -> bool, fit: (Plan, Experiment) -> bool, index: map<string, Factor>, all: seq<string>)
    requires AllLawful(u, t, index, all, inv, fit) && inv(s)
    ensures var good := RepeatOf(StepOf(u, BaselinePlan(t, t.good)), s, true, t.repetitions);
            var bad := RepeatOf(StepOf(u, BaselinePlan(t, t.bad)), good.session, false, t.repetitions);
            && inv(bad.session)
            && (good.error.None? && good.steady && bad.error.None? && bad.steady ==>
                 && SeriesShown(fit, BaselinePlan(t, t.good), good.records + bad.records, 0, t.repetitions, true)
                 && SeriesShown(fit, BaselinePlan(t, t.bad), good.records + bad.records, t.repetitions, t.repetitions, false))
  {
    assert Runs(t, index, all, BaselinePlan(t, t.good)) && Runs(t, index, all, BaselinePlan(t, t.bad));
    SeriesLaw(u, BaselinePlan(t, t.good), inv, fit, s, true, t.repetitions);
    var good := RepeatOf(StepOf(u, BaselinePlan(t, t.good)), s, true, t.repetitions);
    SeriesLaw(u, BaselinePlan(t, t.bad), inv, fit, good.session, false, t.repetitions);
  }

  /** The only way through the search phase to PROVEN. */
  lemma SearchShape(u: Universe, t: Settings, a: Analysis, m: Minimized<Lab>)
    requires a.status == Unproven && AfterSearchOf(u, t, a, m).analysis.status == Proven
    ensures m.stop == None && m.current != []
    ensures AfterSearchOf(u, t, a, m)
         == ConcludeOf(u, m.probe.state.session, t, a.(experiments := m.probe.state.experiments), m.current)
  {}

  lemma SearchCertificate(u: Universe, s: Session, t: Settings, a: Analysis, inv: Session -> bool, fit: (Plan, Experiment) -> bool)
    returns (ids: seq<string>)
    requires AllLawful(u, t, IndexOf(a.factors), IdsOf(a.factors), inv, fit) && inv(s)
    requires a.status == Unproven && SearchPhaseOf(u, s, t, a).analysis.status == Proven
    ensures ids != [] && Subsequence(ids, IdsOf(a.factors))
    ensures var b := SearchPhaseOf(u, s, t, a).analysis;
            && b.causalFactors == SortBy(ids, StringLess)
            && (ids != IdsOf(a.factors) ==> SuccessShown(t, IndexOf(a.factors), fit, b.experiments, ids))
            && Concluded(t, IndexOf(a.factors), fit, a.experiments, b.experiments, ids)
  {
    var m := SearchOf(u, s, t, a);
    SearchPhaseLaw(u, s, t, a, inv, fit);
    SearchShape(u, t, a, m);
    ids := m.current;
    FoundCertificate(u, m.probe.state.session, t, a, m.probe.state.experiments, ids, inv, fit);
  }

  /** The conclusion drawn from the set the search found. */
  lemma FoundCertificate(u: Universe, s: Session, t: Settings, a: Analysis, found: seq<Experiment>, ids: seq<string>,
                         inv: Session -> bool, fit: (Plan, Experiment) -> bool)
    requires AllLawful(u, t, IndexOf(a.factors), IdsOf(a.factors), inv, fit) && inv(s)
    requires ids != [] && Subsequence(ids, IdsOf(a.factors)) && a.experiments <= found
    requires ids != IdsOf(a.factors) ==> SuccessShown(t, IndexOf(a.factors), fit, found, ids)
    requires a.status == Unproven && ConcludeOf(u, s, t, a.(experiments := found), ids).analysis.status == Proven
    ensures var b := ConcludeOf(u, s, t, a.(experiments := found), ids).analysis;
            && b.causalFactors == SortBy(ids, StringLess)
            && (ids != IdsOf(a.factors) ==> SuccessShown(t, IndexOf(a.factors), fit, b.experiments, ids))
            && Concluded(t, IndexOf(a.factors), fit, a.experiments, b.experiments, ids)
  {
    var a' := a.(experiments := found);
    ConclusionShape(u, s, t, a', ids);
    ConclusionLaw(u, s, t, a', ids, IdsOf(a.factors), inv, fit);
    var es := ConcludeOf(u, s, t, a', ids).analysis.experiments;
    if ids != IdsOf(a.factors) {
      assert found + es[|found|..] == es;
      SuccessStays(t, IndexOf(a.factors), fit, found, es[|found|..], ids);
    }
  }

  /** Whatever the runs do: an analysis that ends PROVEN holds the certificate for the factors it names. */
  lemma {:induction false} ProvenHasCertificate(u: Universe, s: Session, t: Settings, factors: seq<Factor>, boundaries: set<Boundary>,
                             inv: Session -> bool, fit: (Plan, Experiment) -> bool)
    requires AllLawful(u, t, IndexOf(factors), IdsOf(factors), inv, fit) && inv(s)
    requires StrictlyOrdered(IdsOf(factors), StringLess)
    requires AnalyzeOf(u, s, t, factors, boundaries).analysis.status == Proven
    ensures var a := AnalyzeOf(u, s, t, factors, boundaries).analysis;
            Certificate(t, factors, fit, a.experiments, a.causalFactors)
  {
    BaselineLaw(u, s, t, inv, fit, IndexOf(factors), IdsOf(factors));
    var good := RepeatOf(StepOf(u, BaselinePlan(t, t.good)), s, true, t.repetitions);
    var bad := RepeatOf(StepOf(u, BaselinePlan(t, t.bad)), good.session, false, t.repetitions);
    var started := StartedAnalysis(t, factors, boundaries).(experiments := good.records + bad.records);
    assert AnalyzeOf(u, s, t, factors, boundaries) == SearchPhaseOf(u, bad.session, t, started);
    var ids := SearchCertificate(u, bad.session, t, started, inv, fit);
    var a := SearchPhaseOf(u, bad.session, t, started).analysis;
    SortedSubsequence(ids, IdsOf(factors));
    SeriesInPrefix(fit, BaselinePlan(t, t.good), started.experiments, a.experiments, 0, t.repetitions, true);
    SeriesInPrefix(fit, BaselinePlan(t, t.bad), started.experiments, a.experiments, t.repetitions, t.repetitions, false);
  }
}
