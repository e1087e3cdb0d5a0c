/**
 * The causal proof engine (internal/experiment/engine.go and internal/experiment/cache.go).
 *
 * A command run is an arbitrary function of the run's number and of the world it was started in,
 * so runs may be flaky, time out, yield no process result or be cut short by cancellation.
 */
module Engine {
  import opened Ordering
  import opened Sequences
  import opened DeltaDebugging
  import opened FileTree
  import opened WorldDiff
  import opened Interventions
  import opened ExperimentCache

  // ----- the world outside -----

  datatype RunRequest = RunRequest(
    command: seq<string>, tree: Tree, environment: map<string, string>, timeoutMS: int, maxOutputBytes: int, oracle: Oracle)

  /** The oracle's verdict on a finished process, or an error without a process. */
  datatype RunOutcome = Observed(passed: bool, timedOut: bool, cancelled: bool) | NoResult(message: string)

  datatype Kind = Baseline | Intervention | NoKind

  datatype CacheInput = CacheInput(
    baseWorld: Manifest, sourceWorld: Manifest, baseEnvironment: map<string, string>, command: seq<string>,
    timeoutMS: int, oracle: Oracle, factors: seq<Factor>, baseIsGood: bool, kind: Kind)

  datatype Experiment = Experiment(
    kind: Kind, baseId: string, sourceId: string, factorIds: seq<string>, hasResult: bool, timedOut: bool,
    passed: bool, cacheHit: bool, error: string)

  /** Stored blobs, the two hashes, the encoded size of a cache entry, and what running a command does. */
  datatype Universe = Universe(
    blobs: Blobs, name: FactorName, digest: CacheInput -> string, entrySize: Experiment -> nat,
    run: (nat, RunRequest) -> RunOutcome)

  /** What outlives one run: the cache, the number of processes started, and whether the context is done. */
  datatype Session = Session(files: Files<Experiment>, runs: nat, done: bool)

  datatype RunError = SetupFailed(failure: Failure) | NoProcessResult(message: string)

  // ----- requests -----

  datatype Request = Request(
    good: Option<Capture>, bad: Option<Capture>, command: seq<string>, repetitions: int, maxExperiments: int,
    maxFactors: int, maxOutputBytes: int)

  datatype Settings = Settings(
    good: Capture, bad: Capture, command: seq<string>, repetitions: nat, maxExperiments: int, maxFactors: int, maxOutputBytes: int)

  function Defaulted(value: int, fallback: nat): nat { if value <= 0 then fallback else value }

  function SettingsOf(r: Request): Settings
    requires r.good.Some? && r.bad.Some?
  {
    Settings(r.good.value, r.bad.value, if |r.command| == 0 then r.bad.value.arguments else r.command,
             Defaulted(r.repetitions, 3), Defaulted(r.maxExperiments, 128), Defaulted(r.maxFactors, 512),
             Defaulted(r.maxOutputBytes, 8 * 1024 * 1024))
  }

  // ----- one run -----

  /** Everything one call of `runWorld` is told. */
  datatype Plan = Plan(
    base: Capture, source: Capture, goodId: string, command: seq<string>, selected: seq<Factor>, ids: seq<string>,
    maxOutputBytes: int, kind: Kind)

  predicate PathBefore(a: Entry, b: Entry) { StringLess(a.path, b.path) }

  function ManifestForCache(m: Manifest): Manifest { Manifest(SortBy(m.entries, PathBefore), m.digest) }

  function CacheInputOf(p: Plan): CacheInput {
    CacheInput(ManifestForCache(p.base.workspace), ManifestForCache(p.source.workspace), p.base.environment, p.command,
               p.base.timeoutMS, p.base.oracle, SortBy(p.selected, IdBefore), p.base.id == p.goodId, p.kind)
  }

  function KeyOf(u: Universe, p: Plan): string { u.digest(CacheInputOf(p)) }

  function UsesGood(p: Plan): bool { p.base.id != p.goodId }

  function RequestOf(p: Plan, world: Setup): RunRequest {
    RunRequest(p.command, world.tree, world.environment, p.base.timeoutMS, p.maxOutputBytes, p.base.oracle)
  }

  function BlankExperiment(): Experiment { Experiment(NoKind, "", "", [], false, false, false, false, "") }

  function RecordOf(p: Plan, outcome: RunOutcome): Experiment {
    match outcome
    case Observed(passed, timedOut, _) => Experiment(p.kind, p.base.id, p.source.id, p.ids, true, timedOut, passed, false, "")
    case NoResult(message) => Experiment(p.kind, p.base.id, p.source.id, p.ids, false, false, false, false, message)
  }

  datatype Ran = Ran(session: Session, record: Experiment, passed: bool, error: Option<RunError>)

  /** The part of `runWorld` after a cache miss. */
  function RunFresh(u: Universe, s: Session, p: Plan): Ran {
    var world := SetupOf(u.blobs, p.base, UsesGood(p), p.selected);
    if world.failure.Some? then Ran(s, BlankExperiment(), false, Some(SetupFailed(world.failure.value)))
    else
      var outcome := u.run(s.runs, RequestOf(p, world));
      var record := RecordOf(p, outcome);
      match outcome
      case NoResult(message) => Ran(s.(runs := s.runs + 1), record, false, Some(NoProcessResult(message)))
      case Observed(passed, timedOut, cancelled) =>
        var files := if timedOut then s.files else SaveOf(s.files, KeyOf(u, p), record, u.entrySize(record)).files;
        Ran(Session(files, s.runs + 1, s.done || cancelled), record, passed, None)
  }

  function RunWorldOf(u: Universe, s: Session, p: Plan): Ran {
    var loaded := LoadOf(s.files, KeyOf(u, p));
    var s' := s.(files := loaded.files);
    match loaded.found
    case Some(cached) =>
      Ran(s', cached.(baseId := p.base.id, sourceId := p.source.id, factorIds := p.ids, cacheHit := true), cached.passed, None)
    case None => RunFresh(u, s', p)
  }

  // ----- repeated runs -----

  datatype Series = Series(session: Session, records: seq<Experiment>, steady: bool, error: Option<RunError>)

  type Step = Session -> Ran

  function StepOf(u: Universe, p: Plan): Step { (s: Session) => RunWorldOf(u, s, p) }

  /** Runs until `n` runs gave the expected verdict, one did not, or one failed to run. */
  function RepeatOf(step: Step, s: Session, expected: bool, n: nat): Series
    decreases n
  {
    if n == 0 then Series(s, [], true, None)
    else
      var ran := step(s);
      if ran.error.Some? then Series(ran.session, [ran.record], false, ran.error)
      else if ran.passed != expected then Series(ran.session, [ran.record], false, None)
      else
        var rest := RepeatOf(step, ran.session, expected, n - 1);
        rest.(records := [ran.record] + rest.records)
  }

  function BaselinePlan(t: Settings, c: Capture): Plan {
    Plan(c, c, c.id, t.command, [], [], t.maxOutputBytes, Baseline)
  }

  /** The factors named by `ids`. */
  function SelectedOf(index: map<string, Factor>, ids: seq<string>): seq<Factor> {
    if ids == [] then []
    else (if ids[0] in index then [index[ids[0]]] else []) + SelectedOf(index, ids[1..])
  }

  function ForwardPlan(t: Settings, index: map<string, Factor>, ids: seq<string>): Plan {
    Plan(t.bad, t.good, t.good.id, t.command, SelectedOf(index, ids), ids, t.maxOutputBytes, Intervention)
  }

  function ReversePlan(t: Settings, index: map<string, Factor>, ids: seq<string>): Plan {
    Plan(t.good, t.bad, t.good.id, t.command, SelectedOf(index, ids), ids, t.maxOutputBytes, Intervention)
  }

  type Trial = (Session, seq<string>) -> Series

  /** The repeated forward intervention with a given candidate set. */
  function TrialOf(u: Universe, t: Settings, index: map<string, Factor>): Trial {
    (s: Session, ids: seq<string>) => RepeatOf(StepOf(u, ForwardPlan(t, index, ids)), s, true, t.repetitions)
  }

  // ----- minimization and minimality -----

  /** The variables the test closure captures. */
  datatype Lab = Lab(session: Session, experiments: seq<Experiment>)

  function ErrorText(e: RunError): string {
    match e
    case SetupFailed(_) => "workspace setup failed"
    case NoProcessResult(message) => message
  }

  function TestCandidate(u: Universe, t: Settings, index: map<string, Factor>, lab: Lab, candidate: seq<string>): (Lab, Outcome) {
    var trial := TrialOf(u, t, index)(lab.session, candidate);
    (Lab(trial.session, lab.experiments + trial.records),
     if trial.error.Some? then Errored(ErrorText(trial.error.value)) else Verdict(trial.steady))
  }

  function TestOf(u: Universe, t: Settings, index: map<string, Factor>): Test<Lab> {
    (lab: Lab, candidate: seq<string>) => TestCandidate(u, t, index, lab, candidate)
  }

  datatype CheckError = CheckBudgetExhausted | CheckRunFailed(error: RunError)
  datatype Checked = Checked(session: Session, records: seq<Experiment>, minimal: bool, error: Option<CheckError>)

  function Without(ids: seq<string>, i: nat): seq<string>
    requires i < |ids|
  {
    ids[..i] + ids[i+1..]
  }

  /** `verifyMinimality` from position `i`, with `made` records already collected. */
  function MinimalityOf(trial: Trial, t: Settings, s: Session, ids: seq<string>, i: nat, made: nat): Checked
    requires i <= |ids|
    decreases |ids| - i
  {
    if i == |ids| then Checked(s, [], true, None)
    else if made + |t.good.arguments| >= t.maxExperiments then Checked(s, [], false, Some(CheckBudgetExhausted))
    else if Without(ids, i) == [] then MinimalityOf(trial, t, s, ids, i + 1, made)
    else
      var series := trial(s, Without(ids, i));
      if series.error.Some? then Checked(series.session, series.records, false, Some(CheckRunFailed(series.error.value)))
      else if series.steady then Checked(series.session, series.records, false, None)
      else
        var rest := MinimalityOf(trial, t, series.session, ids, i + 1, made + |series.records|);
        rest.(records := series.records + rest.records)
  }

  // ----- the analysis -----

  datatype Status = Proven | Supported | Unproven

  datatype Limitation =
    | Cancelled | GoodBaselineUnstable | BadBaselineUnstable | NoDifferences | BudgetSpentOnBaselines
    | MinimizationStopped(stop: Stop) | NoRepair | NoBudgetForReverse | ReverseFailed | ReverseDidNotReproduce
    | MinimalityIncomplete(error: CheckError) | SmallerSetSuffices

  datatype Analysis = Analysis(
    goodId: string, badId: string, factors: seq<Factor>, causalFactors: seq<string>, experiments: seq<Experiment>,
    status: Status, forwardVerified: bool, reverseVerified: bool, minimalInModel: bool, repetitions: int,
    experimentBudget: int, boundaries: set<Boundary>, limitation: Option<Limitation>)

  datatype Finished = Finished(session: Session, analysis: Analysis, interrupted: bool)

  function StartedAnalysis(t: Settings, factors: seq<Factor>, boundaries: set<Boundary>): Analysis {
    Analysis(t.good.id, t.bad.id, factors, [], [], Unproven, false, false, false, t.repetitions, t.maxExperiments, boundaries, None)
  }

  /** `finish`: normalization sorts the causal factors. */
  function Normalized(a: Analysis): Analysis { a.(causalFactors := SortBy(a.causalFactors, StringLess)) }

  function Limited(a: Analysis, limitation: Limitation): Analysis { Normalized(a.(limitation := Some(limitation))) }

  /** An error ends the analysis: as an interruption if the context is done, else with a limitation. */
  function Failed(done: bool, a: Analysis, limitation: Limitation): Analysis {
    Limited(a, if done then Cancelled else limitation)
  }

  function IndexOf(factors: seq<Factor>): map<string, Factor> {
    if factors == [] then map[]
    else IndexOf(factors[..|factors|-1])[factors[|factors|-1].id := factors[|factors|-1]]
  }

  function IdsOf(factors: seq<Factor>): seq<string> {
    seq(|factors|, i requires 0 <= i < |factors| => factors[i].id)
  }

  /** From the minimized set on: reverse verification, minimality, and the final status. */
  function ConcludeOf(u: Universe, s: Session, t: Settings, a: Analysis, minimized: seq<string>): Finished {
    var index := IndexOf(a.factors);
    if |a.experiments| + t.repetitions > t.maxExperiments then Finished(s, Limited(a, NoBudgetForReverse), false)
    else
      var reverse := RepeatOf(StepOf(u, ReversePlan(t, index, minimized)), s, false, t.repetitions);
      var a1 := a.(experiments := a.experiments + reverse.records);
      if reverse.error.Some? then
        Finished(reverse.session, Failed(reverse.session.done, a1, ReverseFailed), reverse.session.done)
      else if !reverse.steady then
        Finished(reverse.session, Limited(a1.(status := Supported, causalFactors := minimized), ReverseDidNotReproduce), false)
      else
        var checked := MinimalityOf(TrialOf(u, t, index), t, reverse.session, minimized, 0, 0);
        var a2 := a1.(experiments := a1.experiments + checked.records);
        if checked.error.Some? then
          if checked.session.done then Finished(checked.session, Limited(a2, Cancelled), true)
          else
            Finished(checked.session,
                     Limited(a2.(status := Supported, causalFactors := minimized), MinimalityIncomplete(checked.error.value)), false)
        else if !checked.minimal then
          Finished(checked.session, Limited(a2.(status := Supported, causalFactors := minimized), SmallerSetSuffices), false)
        else
          Finished(checked.session,
                   Normalized(a2.(status := Proven, causalFactors := minimized, forwardVerified := true,
                                  reverseVerified := true, minimalInModel := true)), false)
  }

  /** What is made of the outcome `m` of the search. */
  function AfterSearchOf(u: Universe, t: Settings, a: Analysis, m: Minimized<Lab>): Finished {
    var s := m.probe.state.session;
    var a' := a.(experiments := m.probe.state.experiments);
    if m.stop.Some? then Finished(s, Failed(s.done, a', MinimizationStopped(m.stop.value)), s.done)
    else if m.current == [] then Finished(s, Limited(a', NoRepair), false)
    else ConcludeOf(u, s, t, a', m.current)
  }

  ghost function SearchOf(u: Universe, s: Session, t: Settings, a: Analysis): Minimized<Lab> {
    Minimize(TestOf(u, t, IndexOf(a.factors)), IdsOf(a.factors), t.maxExperiments - |a.experiments|, Lab(s, a.experiments))
  }

  /** The minimization phase. */
  ghost function SearchPhaseOf(u: Universe, s: Session, t: Settings, a: Analysis): Finished {
    if t.maxExperiments - |a.experiments| <= 0 then Finished(s, Limited(a, BudgetSpentOnBaselines), false)
    else AfterSearchOf(u, t, a, SearchOf(u, s, t, a))
  }

  ghost function AnalyzeOf(u: Universe, s: Session, t: Settings, factors: seq<Factor>, boundaries: set<Boundary>): Finished {
    var a := StartedAnalysis(t, factors, boundaries);
    if s.done then Finished(s, Limited(a, Cancelled), true)
    else
      var good := RepeatOf(StepOf(u, BaselinePlan(t, t.good)), s, true, t.repetitions);
      var a1 := a.(experiments := good.records);
      if good.error.Some? || !good.steady then
        Finished(good.session, Failed(good.session.done, a1, GoodBaselineUnstable), good.session.done)
      else
        var bad := RepeatOf(StepOf(u, BaselinePlan(t, t.bad)), good.session, false, t.repetitions);
        var a2 := a1.(experiments := a1.experiments + bad.records);
        if bad.error.Some? || !bad.steady then
          Finished(bad.session, Failed(bad.session.done, a2, BadBaselineUnstable), bad.session.done)
        else if |factors| == 0 then Finished(bad.session, Limited(a2, NoDifferences), false)
        else SearchPhaseOf(u, bad.session, t, a2)
  }

  /** The parts of an answer that are settled before the first run. */
  predicate SameTerms(a: Analysis, b: Analysis) {
    && a.goodId == b.goodId && a.badId == b.badId && a.factors == b.factors && a.boundaries == b.boundaries
    && a.repetitions == b.repetitions && a.experimentBudget == b.experimentBudget
  }

  lemma EndingsKeepTerms()
    ensures forall a, l :: SameTerms(Limited(a, l), a)
    ensures forall d, a, l :: SameTerms(Failed(d, a, l), a)
    ensures forall a :: SameTerms(Normalized(a), a)
  {
    hide SortBy;
  }

  lemma ConclusionKeepsTerms(u: Universe, s: Session, t: Settings, a: Analysis, minimized: seq<string>)
    ensures SameTerms(ConcludeOf(u, s, t, a, minimized).analysis, a)
  {
    hide RepeatOf, MinimalityOf, SortBy, StepOf, TrialOf, IndexOf, Limited, Failed, Normalized;
    EndingsKeepTerms();
  }

  lemma SearchKeepsTerms(u: Universe, t: Settings, a: Analysis, m: Minimized<Lab>)
    ensures SameTerms(AfterSearchOf(u, t, a, m).analysis, a)
  {
    ConclusionKeepsTerms(u, m.probe.state.session, t, a.(experiments := m.probe.state.experiments), m.current);
  }

  lemma {:induction false} AnalysisKeepsTerms(u: Universe, s: Session, t: Settings, factors: seq<Factor>, boundaries: set<Boundary>)
    ensures var a := AnalyzeOf(u, s, t, factors, boundaries).analysis;
            && a.factors == factors && a.boundaries == boundaries && a.goodId == t.good.id && a.badId == t.bad.id
            && a.repetitions == t.repetitions && a.experimentBudget == t.maxExperiments
  {
    var started := StartedAnalysis(t, factors, boundaries);
    var good := RepeatOf(StepOf(u, BaselinePlan(t, t.good)), s, true, t.repetitions);
    var bad := RepeatOf(StepOf(u, BaselinePlan(t, t.bad)), good.session, false, t.repetitions);
    var a := started.(experiments := good.records + bad.records);
    SearchKeepsTerms(u, t, a, SearchOf(u, bad.session, t, a));
  }

  // ----- unfolding the loops one step -----

  function Prefixed(before: seq<Experiment>, rest: Series): Series {
    rest.(records := before + rest.records)
  }

  lemma RepeatNothing(step: Step, s: Session, expected: bool, before: seq<Experiment>)
    ensures Prefixed(before, RepeatOf(step, s, expected, 0)) == Series(s, before, true, None)
  {
    assert before + [] == before;
  }

  lemma RepeatStep(step: Step, s: Session, expected: bool, n: nat, before: seq<Experiment>)
    requires n > 0
    ensures var ran := step(s);
            Prefixed(before, RepeatOf(step, s, expected, n))
            == if ran.error.Some? then Series(ran.session, before + [ran.record], false, ran.error)
               else if ran.passed != expected then Series(ran.session, before + [ran.record], false, None)
               else Prefixed(before + [ran.record], RepeatOf(step, ran.session, expected, n - 1))
  {
    var ran := step(s);
    var rest := RepeatOf(step, ran.session, expected, n - 1);
    assert before + ([ran.record] + rest.records) == (before + [ran.record]) + rest.records;
  }

  function After(before: seq<Experiment>, rest: Checked): Checked {
    rest.(records := before + rest.records)
  }

  lemma MinimalityStep(trial: Trial, t: Settings, s: Session, ids: seq<string>, i: nat, before: seq<Experiment>)
    requires i < |ids|
    ensures var series := trial(s, Without(ids, i));
            After(before, MinimalityOf(trial, t, s, ids, i, |before|))
            == if |before| + |t.good.arguments| >= t.maxExperiments then Checked(s, before, false, Some(CheckBudgetExhausted))
               else if Without(ids, i) == [] then After(before, MinimalityOf(trial, t, s, ids, i + 1, |before|))
               else if series.error.Some? then Checked(series.session, before + series.records, false, Some(CheckRunFailed(series.error.value)))
               else if series.steady then Checked(series.session, before + series.records, false, None)
               else After(before + series.records, MinimalityOf(trial, t, series.session, ids, i + 1, |before + series.records|))
  {
    var series := trial(s, Without(ids, i));
    var rest := MinimalityOf(trial, t, series.session, ids, i + 1, |before| + |series.records|);
    assert before + (series.records + rest.records) == (before + series.records) + rest.records;
    assert before + [] == before;
  }

  // ----- the program -----

  class Analyzer {
    const u: Universe
    const cache: Cache<Experiment>
    var runs: nat
    var done: bool

    constructor (u: Universe)
      ensures this.u == u && fresh(cache) && SessionNow() == Session(map[], 0, false)
    {
      this.u, runs, done := u, 0, false;
      cache := new Cache();
    }

    ghost function SessionNow(): Session
      reads this, cache
    {
      Session(cache.files, runs, done)
    }

    method RunWorld(p: Plan) returns (record: Experiment, passed: bool, error: Option<RunError>)
      modifies this, cache
      ensures Ran(SessionNow(), record, passed, error) == RunWorldOf(u, old(SessionNow()), p)
    {
      var key := KeyOf(u, p);
      var found := cache.Load(key);
      if found.Some? {
        var cached := found.value;
        return cached.(baseId := p.base.id, sourceId := p.source.id, factorIds := p.ids, cacheHit := true), cached.passed, None;
      }
      var environment, tree, failure := BuildWorld(p);
      if failure.Some? {
        return BlankExperiment(), false, Some(SetupFailed(failure.value));
      }
      var outcome := u.run(runs, RunRequest(p.command, tree, environment, p.base.timeoutMS, p.maxOutputBytes, p.base.oracle));
      runs := runs + 1;
      record := RecordOf(p, outcome);
      match outcome {
        case NoResult(message) =>
          return record, false, Some(NoProcessResult(message));
        case Observed(verdict, timedOut, cancelled) =>
          done := done || cancelled;
          if !timedOut {
            var _ := cache.Save(key, record, u.entrySize(record));
          }
          return record, verdict, None;
      }
    }

    /** Materializes the base world and applies the selected factors to it. */
    method BuildWorld(p: Plan) returns (environment: map<string, string>, tree: Tree, failure: Option<Failure>)
      ensures Setup(environment, tree, failure) == SetupOf(u.blobs, p.base, UsesGood(p), p.selected)
    {
      var root := new Workspace();
      environment := p.base.environment;
      failure := root.Materialize(u.blobs, p.base.workspace.entries);
      tree := root.nodes;
      if failure.Some? {
        return;
      }
      var useGood := p.base.id != p.goodId;
      assert p.selected[0..] == p.selected;
      for i := 0 to |p.selected|
        invariant failure.None? && tree == root.nodes
        invariant ApplyFactors(u.blobs, useGood, p.selected[i..], Setup(environment, root.nodes, None))
               == SetupOf(u.blobs, p.base, useGood, p.selected)
        modifies root
      {
        match p.selected[i] {
          case EnvFactor(_, key, goodValue, badValue) =>
            var value := if useGood then goodValue else badValue;
            if value.Some? {
              environment := environment[key := value.value];
            } else {
              environment := environment - {key};
            }
          case FileFactor(_, path, goodEntry, badEntry) =>
            failure := root.Apply(u.blobs, path, if useGood then goodEntry else badEntry);
            tree := root.nodes;
            if failure.Some? {
              return;
            }
        }
      }
    }

    /** The repetition loop that `verifyBaseline` and `runIntervention` share. */
    method Repeat(p: Plan, expected: bool, repetitions: nat) returns (records: seq<Experiment>, steady: bool, error: Option<RunError>)
      modifies this, cache
      ensures Series(SessionNow(), records, steady, error) == RepeatOf(StepOf(u, p), old(SessionNow()), expected, repetitions)
    {
      hide RunWorldOf, RepeatOf;
      records, steady, error := [], true, None;
      ghost var s := SessionNow();
      for index := 0 to repetitions
        invariant s == SessionNow()
        invariant Prefixed(records, RepeatOf(StepOf(u, p), s, expected, repetitions - index))
               == RepeatOf(StepOf(u, p), old(SessionNow()), expected, repetitions)
      {
        RepeatStep(StepOf(u, p), s, expected, repetitions - index, records);
        var record, passed, failure := RunWorld(p);
        s := SessionNow();
        records := records + [record];
        if failure.Some? {
          return records, false, failure;
        }
        if passed != expected {
          return records, false, None;
        }
      }
      RepeatNothing(StepOf(u, p), s, expected, records);
    }

    method VerifyMinimality(t: Settings, index: map<string, Factor>, minimized: seq<string>)
      returns (minimal: bool, records: seq<Experiment>, error: Option<CheckError>)
      modifies this, cache
      ensures Checked(SessionNow(), records, minimal, error) == MinimalityOf(TrialOf(u, t, index), t, old(SessionNow()), minimized, 0, 0)
    {
      records, minimal, error := [], true, None;
      ghost var s := SessionNow();
      for i := 0 to |minimized|
        invariant s == SessionNow()
        invariant After(records, MinimalityOf(TrialOf(u, t, index), t, s, minimized, i, |records|))
               == MinimalityOf(TrialOf(u, t, index), t, old(SessionNow()), minimized, 0, 0)
      {
        MinimalityStep(TrialOf(u, t, index), t, s, minimized, i, records);
        if |records| + |t.good.arguments| >= t.maxExperiments {
          return false, records, Some(CheckBudgetExhausted);
        }
        var subset := minimized[..i] + minimized[i+1..];
        if |subset| == 0 {
          continue;
        }
        var trial, passes, failure := Repeat(ForwardPlan(t, index, subset), true, t.repetitions);
        s := SessionNow();
        records := records + trial;
        if failure.Some? {
          return false, records, Some(CheckRunFailed(failure.value));
        }
        if passes {
          return false, records, None;
        }
      }
    }

    method IndexFactors(factors: seq<Factor>) returns (index: map<string, Factor>, ids: seq<string>)
      ensures index == IndexOf(factors) && ids == IdsOf(factors)
    {
      index, ids := map[], [];
      for i := 0 to |factors|
        invariant index == IndexOf(factors[..i]) && ids == IdsOf(factors[..i])
      {
        assert factors[..i+1][..i] == factors[..i];
        index := index[factors[i].id := factors[i]];
        ids := ids + [factors[i].id];
      }
      assert factors[..|factors|] == factors;
    }

    ghost function Now(a: Analysis, interrupted: bool): Finished
      reads this, cache
    {
      Finished(SessionNow(), a, interrupted)
    }

    /** The end of `Analyze`, from the reverse verification on. */
    method Conclude(t: Settings, started: Analysis, minimized: seq<string>) returns (analysis: Analysis, interrupted: bool)
      modifies this, cache
      ensures Now(analysis, interrupted) == ConcludeOf(u, old(SessionNow()), t, started, minimized)
    {
      analysis := started;
      var index, _ := IndexFactors(started.factors);
      if |analysis.experiments| + t.repetitions > t.maxExperiments {
        return Limited(analysis, NoBudgetForReverse), false;
      }
      var reverseRecords, reversePasses, error := Repeat(ReversePlan(t, index, minimized), false, t.repetitions);
      analysis := analysis.(experiments := analysis.experiments + reverseRecords);
      if error.Some? {
        return Failed(done, analysis, ReverseFailed), done;
      }
      if !reversePasses {
        analysis := analysis.(status := Supported, causalFactors := minimized);
        return Limited(analysis, ReverseDidNotReproduce), false;
      }
      var minimal, records, checkError := VerifyMinimality(t, index, minimized);
      analysis := analysis.(experiments := analysis.experiments + records);
      if checkError.Some? {
        if done {
          return Limited(analysis, Cancelled), true;
        }
        analysis := analysis.(status := Supported, causalFactors := minimized);
        return Limited(analysis, MinimalityIncomplete(checkError.value)), false;
      }
      if !minimal {
        analysis := analysis.(status := Supported, causalFactors := minimized);
        return Limited(analysis, SmallerSetSuffices), false;
      }
      analysis := analysis.(status := Proven, causalFactors := minimized, forwardVerified := true,
                            reverseVerified := true, minimalInModel := true);
      return Normalized(analysis), false;
    }

    /** The middle of `Analyze`: the closure hands `DDMin` this object's state and takes it back. */
    method SearchPhase(t: Settings, started: Analysis) returns (analysis: Analysis, interrupted: bool)
      modifies this, cache
      ensures Now(analysis, interrupted) == SearchPhaseOf(u, old(SessionNow()), t, started)
    {
      hide ConcludeOf, Limited, Failed, Minimize, TestOf;
      analysis := started;
      var index, allIds := IndexFactors(analysis.factors);
      var remaining := t.maxExperiments - |analysis.experiments|;
      if remaining <= 0 {
        return Limited(analysis, BudgetSpentOnBaselines), false;
      }
      var minimized, _, stop, lab :=
        DDMin(allIds, remaining, Lab(Session(cache.files, runs, done), analysis.experiments), TestOf(u, t, index));
      cache.files, runs, done := lab.session.files, lab.session.runs, lab.session.done;
      analysis := analysis.(experiments := lab.experiments);
      if stop.Some? {
        return Failed(done, analysis, MinimizationStopped(stop.value)), done;
      }
      if |minimized| == 0 {
        return Limited(analysis, NoRepair), false;
      }
      analysis, interrupted := Conclude(t, analysis, minimized);
    }

    /** `Analyze` once the factors are known. */
    method AnalyzeFactors(t: Settings, factors: seq<Factor>, boundaries: set<Boundary>) returns (analysis: Analysis, interrupted: bool)
      modifies this, cache
      ensures Now(analysis, interrupted) == AnalyzeOf(u, old(SessionNow()), t, factors, boundaries)
    {
      analysis := StartedAnalysis(t, factors, boundaries);
      if done {
        return Limited(analysis, Cancelled), true;
      }
      var goodRecords, goodSteady, goodError := Repeat(BaselinePlan(t, t.good), true, t.repetitions);
      analysis := analysis.(experiments := goodRecords);
      if goodError.Some? || !goodSteady {
        return Failed(done, analysis, GoodBaselineUnstable), done;
      }
      var badRecords, badSteady, badError := Repeat(BaselinePlan(t, t.bad), false, t.repetitions);
      analysis := analysis.(experiments := analysis.experiments + badRecords);
      if badError.Some? || !badSteady {
        return Failed(done, analysis, BadBaselineUnstable), done;
      }
      if |factors| == 0 {
        return Limited(analysis, NoDifferences), false;
      }
      analysis, interrupted := SearchPhase(t, analysis);
    }

    /** Without a command the bad capture's is run; a limit that is not positive stands for 3 runs, 128 experiments, 512 factors or 8 MiB. */
    method Analyze(request: Request) returns (result: Option<Analysis>, interrupted: bool, ghost all: seq<Factor>)
      modifies this, cache
      ensures result.None? <==> request.good.None? || request.bad.None?
      ensures result.None? ==> !interrupted && SessionNow() == old(SessionNow())
      ensures result.Some? ==>
        var t, a := SettingsOf(request), result.value;
        && Compared(u.name, t.good, t.bad, t.maxFactors, all, a.factors, a.boundaries)
        && Now(a, interrupted) == AnalyzeOf(u, old(SessionNow()), t, a.factors, a.boundaries)
        && t.good == request.good.value && t.bad == request.bad.value
        && (request.command != [] ==> t.command == request.command) && (request.command == [] ==> t.command == t.bad.arguments)
        && a.repetitions == (if request.repetitions > 0 then request.repetitions else 3) == t.repetitions
        && a.experimentBudget == (if request.maxExperiments > 0 then request.maxExperiments else 128) == t.maxExperiments
        && t.maxFactors == (if request.maxFactors > 0 then request.maxFactors else 512)
        && t.maxOutputBytes == (if request.maxOutputBytes > 0 then request.maxOutputBytes else 8_388_608)
    {
      if request.good.None? || request.bad.None? {
        return None, false, [];
      }
      var t := SettingsOf(request);
      var factors, boundaries;
      factors, boundaries, all := Compare(u.name, t.good, t.bad, t.maxFactors);
      AnalysisKeepsTerms(u, SessionNow(), t, factors, boundaries);
      var analysis;
      analysis, interrupted := AnalyzeFactors(t, factors, boundaries);
      result := Some(analysis);
    }
  }
}
