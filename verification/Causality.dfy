/**
 * The meaning of PROVEN when a run depends only on the world it is started in
 * (internal/experiment/engine.go, internal/experiment/cache.go).
 */
module Causality {
  import opened Ordering
  import opened Sequences
  import opened DeltaDebugging
  import opened FileTree
  import opened WorldDiff
  import opened Interventions
  import opened ExperimentCache
  import opened Engine
  import opened Evidence

  type Verdicts = RunRequest -> RunOutcome

  /** Every run is decided by its request alone, and none is cancelled. */
  ghost predicate Deterministic(u: Universe, v: Verdicts) {
    forall n, r :: u.run(n, r) == v(r) && (v(r).Observed? ==> !v(r).cancelled)
  }

  ghost predicate CollisionFree(u: Universe) {
    forall a, b :: u.digest(a) == u.digest(b) ==> a == b
  }

  function VerdictIn(v: Verdicts, r: RunRequest): Option<bool> {
    if v(r).Observed? then Some(v(r).passed) else None
  }

  /** The verdict of a plan without any cache; none if its world cannot be set up or yields no result. */
  function PlanVerdict(u: Universe, v: Verdicts, p: Plan): Option<bool> {
    var world := SetupOf(u.blobs, p.base, UsesGood(p), p.selected);
    if world.failure.Some? then None else VerdictIn(v, RequestOf(p, world))
  }

  // ----- the key determines the world -----

  /** The world described by a cache input. */
  function InputSetup(u: Universe, ci: CacheInput): Setup {
    var built := MaterializeOf(u.blobs, ci.baseWorld.entries);
    ApplyFactors(u.blobs, !ci.baseIsGood, ci.factors, Setup(ci.baseEnvironment, built.tree, built.failure))
  }

  function InputVerdict(u: Universe, v: Verdicts, maxOutputBytes: int, ci: CacheInput): Option<bool> {
    var world := InputSetup(u, ci);
    if world.failure.Some? then None
    else VerdictIn(v, RunRequest(ci.command, world.tree, world.environment, ci.timeoutMS, maxOutputBytes, ci.oracle))
  }

  /** Captured manifests list each path once, and the engine applies factors in ID order. */
  ghost predicate WellPlanned(p: Plan) {
    UniquePaths(p.base.workspace.entries) && StrictlyOrdered(p.selected, IdBefore)
  }

  lemma CacheInputDescribesPlan(u: Universe, p: Plan)
    requires WellPlanned(p)
    ensures InputSetup(u, CacheInputOf(p)) == SetupOf(u.blobs, p.base, UsesGood(p), p.selected)
  {
    var entries := p.base.workspace.entries;
    StringOrderIsWeak();
    SortIsOrdered(entries, PathBefore);
    MaterializeIgnoresOrder(u.blobs, entries, SortBy(entries, PathBefore));
    IdOrderIsWeak();
    SortOfOrdered(p.selected, IdBefore);
  }

  lemma InputVerdictIsPlanVerdict(u: Universe, v: Verdicts, p: Plan)
    requires WellPlanned(p)
    ensures InputVerdict(u, v, p.maxOutputBytes, CacheInputOf(p)) == PlanVerdict(u, v, p)
  {
    CacheInputDescribesPlan(u, p);
  }

  /** Equal keys mean equal runs: same tree, environment, command, timeout and oracle, if the output limit is the same. */
  lemma KeyDeterminesRun(u: Universe, p: Plan, q: Plan)
    requires CollisionFree(u) && WellPlanned(p) && WellPlanned(q) && p.maxOutputBytes == q.maxOutputBytes
    requires KeyOf(u, p) == KeyOf(u, q)
    ensures var a, b := SetupOf(u.blobs, p.base, UsesGood(p), p.selected), SetupOf(u.blobs, q.base, UsesGood(q), q.selected);
            a == b && RequestOf(p, a) == RequestOf(q, b)
  {
    CacheInputDescribesPlan(u, p);
    CacheInputDescribesPlan(u, q);
    assert CacheInputOf(p) == CacheInputOf(q);
  }

  // ----- the cache tells the truth -----

  ghost predicate Truthful(u: Universe, v: Verdicts, maxOutputBytes: int, ci: CacheInput, r: Experiment) {
    r.hasResult && r.kind == ci.kind && InputVerdict(u, v, maxOutputBytes, ci) == Some(r.passed)
  }

  ghost predicate Coherent(u: Universe, v: Verdicts, maxOutputBytes: int, files: Files<Experiment>) {
    forall ci :: LoadOf(files, u.digest(ci)).found.Some? ==>
      Truthful(u, v, maxOutputBytes, ci, LoadOf(files, u.digest(ci)).found.value)
  }

  lemma LoadKeepsCoherence(u: Universe, v: Verdicts, maxOutputBytes: int, files: Files<Experiment>, key: string)
    requires Coherent(u, v, maxOutputBytes, files)
    ensures Coherent(u, v, maxOutputBytes, LoadOf(files, key).files)
  {
    var after := LoadOf(files, key).files;
    forall ci | LoadOf(after, u.digest(ci)).found.Some?
      ensures Truthful(u, v, maxOutputBytes, ci, LoadOf(after, u.digest(ci)).found.value)
    {
      assert LoadOf(files, u.digest(ci)).found == LoadOf(after, u.digest(ci)).found;
    }
  }

  /** A save keeps the cache coherent exactly when the record it stores is true, or is not stored. */
  lemma SaveKeepsCoherence(u: Universe, v: Verdicts, maxOutputBytes: int, files: Files<Experiment>, ci: CacheInput, r: Experiment, size: nat)
    requires CollisionFree(u) && Coherent(u, v, maxOutputBytes, files)
    ensures Coherent(u, v, maxOutputBytes, SaveOf(files, u.digest(ci), r, size).files)
      <==> !SaveOf(files, u.digest(ci), r, size).ok || Truthful(u, v, maxOutputBytes, ci, r)
  {
    var saved := SaveOf(files, u.digest(ci), r, size);
    if saved.ok {
      SaveKeepsBoundAndEntry(files, u.digest(ci), r, size);
      if Truthful(u, v, maxOutputBytes, ci, r) {
        forall other | LoadOf(saved.files, u.digest(other)).found.Some?
          ensures Truthful(u, v, maxOutputBytes, other, LoadOf(saved.files, u.digest(other)).found.value)
        {
          if u.digest(other) != u.digest(ci) {
            assert LoadOf(files, u.digest(other)).found == LoadOf(saved.files, u.digest(other)).found;
          }
        }
      }
    }
  }

  /** A record that fits a plan: of that plan, with a result, and with the plan's true verdict. */
  ghost predicate TrueRecord(u: Universe, v: Verdicts, p: Plan, r: Experiment) {
    && r.hasResult && r.kind == p.kind && r.baseId == p.base.id && r.sourceId == p.source.id && r.factorIds == p.ids
    && PlanVerdict(u, v, p) == Some(r.passed)
  }

  lemma FreshRunIsTrue(u: Universe, v: Verdicts, s: Session, p: Plan)
    requires Deterministic(u, v) && CollisionFree(u) && WellPlanned(p) && Coherent(u, v, p.maxOutputBytes, s.files)
    ensures var ran := RunFresh(u, s, p);
            && Coherent(u, v, p.maxOutputBytes, ran.session.files)
            && (ran.error.None? <==> PlanVerdict(u, v, p).Some?)
            && (ran.error.None? ==> TrueRecord(u, v, p, ran.record) && ran.record.passed == ran.passed)
  {
    InputVerdictIsPlanVerdict(u, v, p);
    var world := SetupOf(u.blobs, p.base, UsesGood(p), p.selected);
    if world.failure.None? {
      var outcome := u.run(s.runs, RequestOf(p, world));
      if outcome.Observed? && !outcome.timedOut {
        var r := RecordOf(p, outcome);
        SaveKeepsCoherence(u, v, p.maxOutputBytes, s.files, CacheInputOf(p), r, u.entrySize(r));
      }
    }
  }

  /** `runWorld` with the cache gives the verdict, or the error, that it gives without one, and keeps the cache truthful. */
  lemma CachedRunIsTrue(u: Universe, v: Verdicts, s: Session, p: Plan)
    requires Deterministic(u, v) && CollisionFree(u) && WellPlanned(p) && Coherent(u, v, p.maxOutputBytes, s.files)
    ensures var ran := RunWorldOf(u, s, p);
            && Coherent(u, v, p.maxOutputBytes, ran.session.files)
            && (ran.error.None? <==> PlanVerdict(u, v, p).Some?)
            && (ran.error.None? ==> TrueRecord(u, v, p, ran.record) && ran.record.passed == ran.passed)
  {
    var loaded := LoadOf(s.files, KeyOf(u, p));
    LoadKeepsCoherence(u, v, p.maxOutputBytes, s.files, KeyOf(u, p));
    if loaded.found.Some? {
      InputVerdictIsPlanVerdict(u, v, p);
      assert Truthful(u, v, p.maxOutputBytes, CacheInputOf(p), loaded.found.value);
    } else {
      FreshRunIsTrue(u, v, s.(files := loaded.files), p);
    }
  }

  // ----- factors by ID -----

  lemma LastIdIsNew(factors: seq<Factor>)
    requires StrictlyOrdered(factors, IdBefore) && factors != []
    ensures forall f :: f in factors[..|factors|-1] ==> f.id != factors[|factors|-1].id
  {
    var n := |factors| - 1;
    StringLessIrreflexive(factors[n].id);
    forall i | 0 <= i < n ensures factors[i].id != factors[n].id {
      assert IdBefore(factors[i], factors[n]);
    }
  }

  lemma {:induction false} IndexIs(factors: seq<Factor>)
    requires StrictlyOrdered(factors, IdBefore)
    ensures forall f :: f in factors ==> f.id in IndexOf(factors) && IndexOf(factors)[f.id] == f
    ensures forall k :: k in IndexOf(factors) ==> IndexOf(factors)[k] in factors && IndexOf(factors)[k].id == k
    decreases |factors|
  {
    if factors != [] {
      var front, last := factors[..|factors|-1], factors[|factors|-1];
      LastIdIsNew(factors);
      IndexIs(front);
      assert IndexOf(factors) == IndexOf(front)[last.id := last];
      assert forall f :: f in factors <==> f in front || f == last;
    }
  }

  lemma {:induction false} SelectedIs(factors: seq<Factor>, ids: seq<string>)
    requires StrictlyOrdered(factors, IdBefore) && forall id :: id in ids ==> id in IdsOf(factors)
    ensures var selected := SelectedOf(IndexOf(factors), ids);
            |selected| == |ids| && forall i :: 0 <= i < |ids| ==> selected[i].id == ids[i] && selected[i] in factors
    decreases |ids|
  {
    hide StrictlyOrdered, IdBefore, IndexOf;
    if ids != [] {
      IndexIs(factors);
      assert ids[0] in ids;
      var k :| 0 <= k < |factors| && IdsOf(factors)[k] == ids[0];
      assert factors[k] in factors && factors[k].id == ids[0];
      SelectedIs(factors, ids[1..]);
    }
  }

  /** A sub-list of the IDs selects its factors in ID order. */
  lemma SelectionIsOrdered(factors: seq<Factor>, ids: seq<string>)
    requires StrictlyOrdered(factors, IdBefore) && Subsequence(ids, IdsOf(factors))
    ensures StrictlyOrdered(SelectedOf(IndexOf(factors), ids), IdBefore)
  {
    SubsequenceElements(ids, IdsOf(factors));
    SelectedIs(factors, ids);
    assert StrictlyOrdered(IdsOf(factors), StringLess);
    SortedSubsequence(ids, IdsOf(factors));
  }

  lemma SelectedElements(factors: seq<Factor>, ids: seq<string>)
    requires StrictlyOrdered(factors, IdBefore) && forall id :: id in ids ==> id in IdsOf(factors)
    ensures forall f :: f in SelectedOf(IndexOf(factors), ids) <==> f in factors && f.id in ids
  {
    SelectedIs(factors, ids);
    IndexIs(factors);
    var selected := SelectedOf(IndexOf(factors), ids);
    forall f | f in factors && f.id in ids ensures f in selected {
      var i :| 0 <= i < |ids| && ids[i] == f.id;
      assert selected[i] in factors && selected[i].id == f.id;
      assert selected[i] == IndexOf(factors)[f.id];
    }
    forall f | f in selected ensures f in factors && f.id in ids {
      var i :| 0 <= i < |selected| && selected[i] == f;
      assert ids[i] in ids;
    }
  }

  /** The IDs of `all` that are not in `some`. */
  function Others(all: seq<string>, some: seq<string>): seq<string> {
    if all == [] then []
    else (if all[0] in some then [] else [all[0]]) + Others(all[1..], some)
  }

  lemma {:induction false} OthersAre(all: seq<string>, some: seq<string>)
    ensures forall id :: id in Others(all, some) <==> id in all && id !in some
    decreases |all|
  {
    if all != [] { OthersAre(all[1..], some); }
  }

  lemma OthersPartition(factors: seq<Factor>, ids: seq<string>)
    requires StrictlyOrdered(factors, IdBefore) && forall id :: id in ids ==> id in IdsOf(factors)
    ensures Partition(factors, SelectedOf(IndexOf(factors), ids), SelectedOf(IndexOf(factors), Others(IdsOf(factors), ids)))
  {
    var all := IdsOf(factors);
    OthersAre(all, ids);
    SelectedElements(factors, ids);
    SelectedElements(factors, Others(all, ids));
    forall f | f in factors ensures f.id in all {
      var i :| 0 <= i < |factors| && factors[i] == f;
      assert all[i] == f.id;
    }
  }

  lemma SelectAll(factors: seq<Factor>)
    requires StrictlyOrdered(factors, IdBefore)
    ensures SelectedOf(IndexOf(factors), IdsOf(factors)) == factors
  {
    SelectedIs(factors, IdsOf(factors));
    IndexIs(factors);
    var selected := SelectedOf(IndexOf(factors), IdsOf(factors));
    forall i | 0 <= i < |factors| ensures selected[i] == factors[i] {
      assert selected[i] == IndexOf(factors)[selected[i].id] && factors[i] in factors;
    }
  }

  // ----- a proven set is a cause -----

  /** What a caller can check of the two captures before asking for an analysis. */
  ghost predicate Comparable(t: Settings) {
    && WellFormed(t.good) && WellFormed(t.bad) && NoDirectoryDiffers(t.good, t.bad)
    && t.good.id != t.bad.id && t.good.timeoutMS == t.bad.timeoutMS && t.good.oracle == t.bad.oracle
    && t.repetitions >= 1
  }

  lemma AnalysisIsLawful(u: Universe, v: Verdicts, t: Settings, factors: seq<Factor>)
    requires Deterministic(u, v) && CollisionFree(u) && WellFormed(t.good) && WellFormed(t.bad)
    requires StrictlyOrdered(factors, IdBefore)
    ensures AllLawful(u, t, IndexOf(factors), IdsOf(factors),
                      (s: Session) => Coherent(u, v, t.maxOutputBytes, s.files), (p: Plan, r: Experiment) => TrueRecord(u, v, p, r))
  {
    var index, all := IndexOf(factors), IdsOf(factors);
    forall p, s: Session | Runs(t, index, all, p) && Coherent(u, v, t.maxOutputBytes, s.files)
      ensures var ran := StepOf(u, p)(s);
              && Coherent(u, v, t.maxOutputBytes, ran.session.files)
              && (ran.error.None? ==> TrueRecord(u, v, p, ran.record) && ran.record.passed == ran.passed)
    {
      if p.kind == Intervention {
        var ids :| Subsequence(ids, all) && (p == ForwardPlan(t, index, ids) || p == ReversePlan(t, index, ids));
        SelectionIsOrdered(factors, ids);
      }
      CachedRunIsTrue(u, v, s, p);
    }
  }

  /** A verdict for the baselines shows that both worlds could be built. */
  lemma BaselineIsBuildable(u: Universe, v: Verdicts, t: Settings, c: Capture)
    requires WellFormed(c) && PlanVerdict(u, v, BaselinePlan(t, c)).Some?
    ensures Buildable(u.blobs, c)
    ensures SetupOf(u.blobs, c, false, []) == Setup(c.environment, TreeIn(u.blobs, c), None)
  {
    MaterializeIsExact(u.blobs, c.workspace.entries);
  }

  /** The verdict of the bad world repaired by the factors `ids`. */
  function ForwardVerdict(u: Universe, v: Verdicts, t: Settings, factors: seq<Factor>, ids: seq<string>): Option<bool> {
    PlanVerdict(u, v, ForwardPlan(t, IndexOf(factors), ids))
  }

  lemma ForwardOfAllIsGood(u: Universe, v: Verdicts, t: Settings, factors: seq<Factor>)
    requires Comparable(t) && Complete(u.name, t.good, t.bad, factors) && StrictlyOrdered(factors, IdBefore)
    requires Buildable(u.blobs, t.good) && Buildable(u.blobs, t.bad)
    ensures ForwardVerdict(u, v, t, factors, IdsOf(factors)) == PlanVerdict(u, v, BaselinePlan(t, t.good))
    ensures ForwardVerdict(u, v, t, factors, []) == PlanVerdict(u, v, BaselinePlan(t, t.bad))
  {
    AllFactorsGiveTheGoodWorld(u.blobs, u.name, t.good, t.bad, factors);
    SelectAll(factors);
    MaterializeIsExact(u.blobs, t.bad.workspace.entries);
  }

  lemma ForwardOfOthersIsReverse(u: Universe, v: Verdicts, t: Settings, factors: seq<Factor>, ids: seq<string>)
    requires Comparable(t) && Complete(u.name, t.good, t.bad, factors) && StrictlyOrdered(factors, IdBefore)
    requires Buildable(u.blobs, t.good) && Buildable(u.blobs, t.bad) && Subsequence(ids, IdsOf(factors))
    ensures ForwardVerdict(u, v, t, factors, Others(IdsOf(factors), ids)) == PlanVerdict(u, v, ReversePlan(t, IndexOf(factors), ids))
  {
    SubsequenceElements(ids, IdsOf(factors));
    OthersPartition(factors, ids);
    ReverseIsForwardOfTheRest(u.blobs, u.name, t.good, t.bad, factors, SelectedOf(IndexOf(factors), ids),
                              SelectedOf(IndexOf(factors), Others(IdsOf(factors), ids)));
  }

  /** `m` takes the keys in `keys` from `into` and all others from `from`. */
  ghost predicate TakenFrom<V>(m: map<string, V>, from: map<string, V>, into: map<string, V>, keys: set<string>) {
    forall k :: var other := if k in keys then into else from; if k in other then k in m && m[k] == other[k] else k !in m
  }

  /**
   * What a forward run starts: the command in the bad world, with the bad capture's timeout and oracle, the variables and paths of
   * the selected factors taken from the good one. A reverse run exchanges the two captures.
   */
  lemma InterventionStarts(u: Universe, t: Settings, factors: seq<Factor>, ids: seq<string>, forward: bool)
    requires Pair(u.blobs, t.good, t.bad) && t.good.id != t.bad.id && FactorsOf(u.name, t.good, t.bad, factors)
    requires StrictlyOrdered(factors, IdBefore) && forall id :: id in ids ==> id in IdsOf(factors)
    ensures var index := IndexOf(factors);
            var p := if forward then ForwardPlan(t, index, ids) else ReversePlan(t, index, ids);
            var base, source := if forward then t.bad else t.good, if forward then t.good else t.bad;
            var world := SetupOf(u.blobs, p.base, UsesGood(p), p.selected);
            var r := RequestOf(p, world);
            && world.failure.None? && r.command == t.command && r.maxOutputBytes == t.maxOutputBytes
            && r.timeoutMS == base.timeoutMS && r.oracle == base.oracle
            && TakenFrom(r.environment, base.environment, source.environment, set f | f in factors && f.id in ids && f.EnvFactor? :: f.key)
            && TakenFrom(r.tree, TreeIn(u.blobs, base), TreeIn(u.blobs, source), set f | f in factors && f.id in ids && f.FileFactor? :: f.key)
  {
    hide SetupOf, IndexOf, SelectedOf, TreeIn, StrictlyOrdered, WellFormed, Buildable, NoDirectoryDiffers, TakenFrom, Mix, EnvKeysOf, PathsOf, AllFactors;
    var p := if forward then ForwardPlan(t, IndexOf(factors), ids) else ReversePlan(t, IndexOf(factors), ids);
    var base, source := if forward then t.bad else t.good, if forward then t.good else t.bad;
    SelectedKeys(factors, ids);
    SelectedElements(factors, ids);
    SetupIsMixed(u.blobs, u.name, t.good, t.bad, forward, p.selected);
    MixIsTaken(base.environment, source.environment, EnvKeysOf(p.selected));
    MixIsTaken(TreeIn(u.blobs, base), TreeIn(u.blobs, source), PathsOf(p.selected));
  }

  lemma MixIsTaken<V>(from: map<string, V>, into: map<string, V>, keys: set<string>)
    ensures TakenFrom(Mix(from, into, keys), from, into, keys)
  {}

  lemma SelectedKeys(factors: seq<Factor>, ids: seq<string>)
    requires StrictlyOrdered(factors, IdBefore) && forall id :: id in ids ==> id in IdsOf(factors)
    ensures EnvKeysOf(SelectedOf(IndexOf(factors), ids)) == set f | f in factors && f.id in ids && f.EnvFactor? :: f.key
    ensures PathsOf(SelectedOf(IndexOf(factors), ids)) == set f | f in factors && f.id in ids && f.FileFactor? :: f.key
  {
    hide IndexOf, SelectedOf, StrictlyOrdered;
    SelectedElements(factors, ids);
  }

  /** `causal` repairs the bad world; everything but `causal` does not; nor does `causal` without any one of its factors. */
  ghost predicate IsCause(u: Universe, v: Verdicts, t: Settings, factors: seq<Factor>, causal: seq<string>) {
    && ForwardVerdict(u, v, t, factors, causal) == Some(true)
    && ForwardVerdict(u, v, t, factors, Others(IdsOf(factors), causal)) == Some(false)
    && forall i :: 0 <= i < |causal| ==> ForwardVerdict(u, v, t, factors, Without(causal, i)) == Some(false)
  }

  /** A certificate of true records over a complete set of factors makes its set a cause. */
  lemma {:induction false} CertifiedIsCause(u: Universe, v: Verdicts, t: Settings, factors: seq<Factor>, es: seq<Experiment>, causal: seq<string>)
    requires Comparable(t) && Complete(u.name, t.good, t.bad, factors) && StrictlyOrdered(factors, IdBefore)
    requires Certificate(t, factors, (p: Plan, r: Experiment) => TrueRecord(u, v, p, r), es, causal)
    ensures IsCause(u, v, t, factors, causal)
  {
    hide SetupOf, SelectedOf, IndexOf, PlanVerdict, Others, Complete, WellFormed;
    var fit := (p: Plan, r: Experiment) => TrueRecord(u, v, p, r);
    var index, all := IndexOf(factors), IdsOf(factors);
    assert Shows(fit, BaselinePlan(t, t.good), es[0], true);
    assert Shows(fit, BaselinePlan(t, t.bad), es[t.repetitions], false);
    BaselineIsBuildable(u, v, t, t.good);
    BaselineIsBuildable(u, v, t, t.bad);
    ForwardOfAllIsGood(u, v, t, factors);
    ForwardOfOthersIsReverse(u, v, t, factors, causal);
    var lo: nat :| SeriesShown(fit, ReversePlan(t, index, causal), es, lo, t.repetitions, false);
    assert Shows(fit, ReversePlan(t, index, causal), es[lo], false);
    if causal != all {
      var from: nat :| SeriesShown(fit, ForwardPlan(t, index, causal), es, from, t.repetitions, true);
      assert Shows(fit, ForwardPlan(t, index, causal), es[from], true);
    }
    forall i | 0 <= i < |causal| ensures ForwardVerdict(u, v, t, factors, Without(causal, i)) == Some(false) {
      if Without(causal, i) != [] {
        assert FailureShown(t, index, fit, es, Without(causal, i));
      }
    }
  }

  /**
   * The product contract. If nothing that differs was excluded or truncated, no differing path is a
   * directory, the captures share timeout and oracle, and runs are decided by their world, then every
   * analysis that ends PROVEN names a cause: a set that repairs the bad world, whose complement does
   * not, and no set one smaller than which does.
   */
  lemma {:induction false} ProvenMeansCause(u: Universe, v: Verdicts, s: Session, t: Settings, all: seq<Factor>, factors: seq<Factor>, boundaries: set<Boundary>)
    requires Deterministic(u, v) && CollisionFree(u) && Injective(u.name) && Coherent(u, v, t.maxOutputBytes, s.files)
    requires Comparable(t) && Compared(u.name, t.good, t.bad, t.maxFactors, all, factors, boundaries) && NothingExcluded(boundaries)
    requires AnalyzeOf(u, s, t, factors, boundaries).analysis.status == Proven
    ensures IsCause(u, v, t, factors, AnalyzeOf(u, s, t, factors, boundaries).analysis.causalFactors)
  {
    hide AnalyzeOf, IsCause, Certificate, AllLawful, Coherent, Deterministic, CollisionFree, Compared, NothingExcluded, StringLess;
    var a := AnalyzeOf(u, s, t, factors, boundaries).analysis;
    FactorsAreStrictlyOrdered(u.name, t.good, t.bad, t.maxFactors, all, factors, boundaries);
    FactorsAreComplete(u.name, t.good, t.bad, t.maxFactors, all, factors, boundaries);
    AnalysisIsLawful(u, v, t, factors);
    ProvenHasCertificate(u, s, t, factors, boundaries,
                         (s: Session) => Coherent(u, v, t.maxOutputBytes, s.files), (p: Plan, r: Experiment) => TrueRecord(u, v, p, r));
    CertifiedIsCause(u, v, t, factors, a.experiments, a.causalFactors);
  }
}
