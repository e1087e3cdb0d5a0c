/** The typed difference of two captured worlds (internal/experiment/compare.go). */
module WorldDiff {
  import opened Ordering
  import opened FileTree

  datatype Oracle = Oracle(kind: string, expectedExitCode: Option<int>, pattern: string, file: string, digest: string)
  datatype Manifest = Manifest(entries: seq<Entry>, digest: string)
  datatype Capture = Capture(
    id: string, arguments: seq<string>, environment: map<string, string>, timeoutMS: int, oracle: Oracle,
    workspace: Manifest, secretNames: set<string>, hostDigest: string, consultedPaths: nat)

  datatype FactorKind = EnvironmentKind | WorkspaceKind
  datatype Factor =
    | EnvFactor(id: string, key: string, goodValue: Option<string>, badValue: Option<string>)
    | FileFactor(id: string, key: string, goodEntry: Option<Entry>, badEntry: Option<Entry>)

  datatype Boundary =
    | SecretDiffers(key: string)
    | UnsupportedDiffers(path: string)
    | HostDiffers
    | ConsultedPathsIncomplete
    | FactorLimit(retained: int, total: int)

  /** `FactorID`: the kind and key, hashed. */
  type FactorName = (FactorKind, string) -> string

  ghost predicate Injective(name: FactorName) {
    forall k1, s1, k2, s2 :: name(k1, s1) == name(k2, s2) ==> k1 == k2 && s1 == s2
  }

  // ----- specification -----

  function Lookup<V>(m: map<string, V>, key: string): Option<V> {
    if key in m then Some(m[key]) else None
  }

  predicate IsRedacted(value: string) { "redacted:hmac:" <= value }

  /** Not eligible for intervention: redacted on either side, or recorded as a secret by either capture. */
  predicate Hidden(good: Capture, bad: Capture, key: string) {
    || (key in good.environment && IsRedacted(good.environment[key]))
    || (key in bad.environment && IsRedacted(bad.environment[key]))
    || key in good.secretNames || key in bad.secretNames
  }

  predicate EnvDiffers(good: Capture, bad: Capture, key: string) {
    Lookup(good.environment, key) != Lookup(bad.environment, key)
  }

  function Entries(c: Capture): map<string, Entry> { EntryMap(c.workspace.entries) }

  predicate EntriesDiffer(good: Option<Entry>, bad: Option<Entry>) {
    !(good.Some? && bad.Some? && good.value.SameAs(bad.value))
  }

  predicate PathDiffers(good: Capture, bad: Capture, path: string) {
    && (path in Entries(good) || path in Entries(bad))
    && EntriesDiffer(Lookup(Entries(good), path), Lookup(Entries(bad), path))
  }

  predicate SupportedPath(good: Capture, bad: Capture, path: string) {
    && (path in Entries(good) ==> Entries(good)[path].Supported())
    && (path in Entries(bad) ==> Entries(bad)[path].Supported())
  }

  function EnvFactorOf(name: FactorName, good: Capture, bad: Capture, key: string): Factor {
    EnvFactor(name(EnvironmentKind, key), key, Lookup(good.environment, key), Lookup(bad.environment, key))
  }

  function FileFactorOf(name: FactorName, good: Capture, bad: Capture, path: string): Factor {
    FileFactor(name(WorkspaceKind, path), path, Lookup(Entries(good), path), Lookup(Entries(bad), path))
  }

  function EnvKeys(good: Capture, bad: Capture): set<string> { good.environment.Keys + bad.environment.Keys }
  function Paths(good: Capture, bad: Capture): set<string> { Entries(good).Keys + Entries(bad).Keys }

  ghost function EnvFactors(name: FactorName, good: Capture, bad: Capture, keys: set<string>): set<Factor> {
    set k | k in keys && EnvDiffers(good, bad, k) && !Hidden(good, bad, k) :: EnvFactorOf(name, good, bad, k)
  }

  ghost function FileFactors(name: FactorName, good: Capture, bad: Capture, paths: set<string>): set<Factor> {
    set p | p in paths && PathDiffers(good, bad, p) && SupportedPath(good, bad, p) :: FileFactorOf(name, good, bad, p)
  }

  /** Every difference that may be intervened on. */
  ghost function AllFactors(name: FactorName, good: Capture, bad: Capture): set<Factor> {
    EnvFactors(name, good, bad, EnvKeys(good, bad)) + FileFactors(name, good, bad, Paths(good, bad))
  }

  ghost function EnvBoundaries(good: Capture, bad: Capture, keys: set<string>): set<Boundary> {
    set k | k in keys && EnvDiffers(good, bad, k) && Hidden(good, bad, k) :: SecretDiffers(k)
  }

  ghost function FileBoundaries(good: Capture, bad: Capture, paths: set<string>): set<Boundary> {
    set p | p in paths && PathDiffers(good, bad, p) && !SupportedPath(good, bad, p) :: UnsupportedDiffers(p)
  }

  /** Every difference that is excluded, and the two standing caveats. */
  ghost function AllBoundaries(good: Capture, bad: Capture): set<Boundary> {
    EnvBoundaries(good, bad, EnvKeys(good, bad)) + FileBoundaries(good, bad, Paths(good, bad))
    + (if good.hostDigest != bad.hostDigest then {HostDiffers} else {})
    + (if good.consultedPaths == 0 || bad.consultedPaths == 0 then {ConsultedPathsIncomplete} else {})
  }

  predicate IdBefore(a: Factor, b: Factor) { StringLess(a.id, b.id) }

  /** `all` lists every factor once, in ID order; `factors` is as much of it as the limit allows. */
  ghost predicate Compared(name: FactorName, good: Capture, bad: Capture, maxFactors: int, all: seq<Factor>,
                           factors: seq<Factor>, boundaries: set<Boundary>)
  {
    && Ordered(all, IdBefore) && Distinct(all)
    && (forall f :: f in all <==> f in AllFactors(name, good, bad))
    && factors == (if 0 < maxFactors < |all| then all[..maxFactors] else all)
    && boundaries == AllBoundaries(good, bad) + if 0 < maxFactors < |all| then {FactorLimit(maxFactors, |all|)} else {}
  }

  // ----- what the difference means -----

  /** Nothing that differs was left out of the factors: decidable from the reported boundaries alone. */
  ghost predicate NothingExcluded(boundaries: set<Boundary>) {
    forall b :: b in boundaries ==> b.HostDiffers? || b.ConsultedPathsIncomplete?
  }

  lemma FactorIds(name: FactorName, good: Capture, bad: Capture)
    requires Injective(name)
    ensures forall f, g :: f in AllFactors(name, good, bad) && g in AllFactors(name, good, bad) && f.id == g.id ==> f == g
  {}

  /** With collision-free IDs the factor list is strictly ordered by ID. */
  lemma FactorsAreStrictlyOrdered(name: FactorName, good: Capture, bad: Capture, maxFactors: int, all: seq<Factor>,
                                  factors: seq<Factor>, boundaries: set<Boundary>)
    requires Injective(name) && Compared(name, good, bad, maxFactors, all, factors, boundaries)
    ensures StrictlyOrdered(factors, IdBefore)
    ensures forall f :: f in factors ==> f in AllFactors(name, good, bad)
  {
    FactorIds(name, good, bad);
    forall i, j | 0 <= i < j < |all| ensures IdBefore(all[i], all[j]) {
      StringLessTotal(all[i].id, all[j].id);
      assert all[i] in all && all[j] in all && all[i] != all[j];
    }
  }

  /**
   * The factors account for every difference exactly when no exclusion or truncation is reported:
   * then two worlds that agree on the factors' keys and paths agree everywhere.
   */
  lemma FactorsAreComplete(name: FactorName, good: Capture, bad: Capture, maxFactors: int, all: seq<Factor>,
                           factors: seq<Factor>, boundaries: set<Boundary>)
    requires Compared(name, good, bad, maxFactors, all, factors, boundaries)
    ensures NothingExcluded(boundaries) <==>
      && (forall k :: EnvDiffers(good, bad, k) ==> EnvFactorOf(name, good, bad, k) in factors)
      && (forall p :: PathDiffers(good, bad, p) ==> FileFactorOf(name, good, bad, p) in factors)
  {
    hide EntryMap, EntriesDiffer, SupportedPath, Ordered;
    if NothingExcluded(boundaries) {
      assert FactorLimit(maxFactors, |all|) !in boundaries;
      forall k | EnvDiffers(good, bad, k) ensures EnvFactorOf(name, good, bad, k) in factors {
        assert k in EnvKeys(good, bad);
        assert SecretDiffers(k) !in boundaries;
        assert EnvFactorOf(name, good, bad, k) in AllFactors(name, good, bad);
      }
      forall p | PathDiffers(good, bad, p) ensures FileFactorOf(name, good, bad, p) in factors {
        assert UnsupportedDiffers(p) !in boundaries;
        assert FileFactorOf(name, good, bad, p) in AllFactors(name, good, bad);
      }
    } else {
      var b :| b in boundaries && !b.HostDiffers? && !b.ConsultedPathsIncomplete?;
      assert forall f :: f in factors ==> f in all;
      if b.FactorLimit? {
        TruncationLosesAFactor(all, maxFactors);
        var f := all[maxFactors];
        assert f in all && f !in factors;
        assert f.EnvFactor? ==> f == EnvFactorOf(name, good, bad, f.key) && EnvDiffers(good, bad, f.key);
        assert f.FileFactor? ==> f == FileFactorOf(name, good, bad, f.key) && PathDiffers(good, bad, f.key);
      } else if b.SecretDiffers? {
        assert EnvDiffers(good, bad, b.key) && Hidden(good, bad, b.key);
        assert EnvFactorOf(name, good, bad, b.key) !in AllFactors(name, good, bad);
      } else {
        assert PathDiffers(good, bad, b.path) && !SupportedPath(good, bad, b.path);
        assert FileFactorOf(name, good, bad, b.path) !in AllFactors(name, good, bad);
      }
    }
  }

  lemma TruncationLosesAFactor(all: seq<Factor>, maxFactors: int)
    requires 0 < maxFactors < |all| && Distinct(all)
    ensures all[maxFactors] !in all[..maxFactors]
  {}

  // ----- the factors and boundaries one by one -----

  /** The value of a variable in a capture, or the entry it lists at a path. */
  predicate HasValue(c: Capture, key: string, value: Option<string>) {
    if value.Some? then key in c.environment && c.environment[key] == value.value else key !in c.environment
  }

  predicate HasEntry(c: Capture, path: string, entry: Option<Entry>) {
    if entry.Some? then entry.value in c.workspace.entries && entry.value.path == path
    else forall e :: e in c.workspace.entries ==> e.path != path
  }

  /**
   * An environment variable is a factor exactly if its values differ, neither is a redacted one, and neither capture records
   * it as a secret.
   */
  lemma EnvironmentFactorsMean(name: FactorName, good: Capture, bad: Capture, maxFactors: int, all: seq<Factor>, factors: seq<Factor>,
                               boundaries: set<Boundary>)
    requires Compared(name, good, bad, maxFactors, all, factors, boundaries)
    ensures forall id, k, g, b :: EnvFactor(id, k, g, b) in all <==>
      && id == name(EnvironmentKind, k) && HasValue(good, k, g) && HasValue(bad, k, b) && g != b
      && (g.Some? ==> !("redacted:hmac:" <= g.value)) && (b.Some? ==> !("redacted:hmac:" <= b.value))
      && k !in good.secretNames && k !in bad.secretNames
    ensures forall f :: f in factors ==> f in all
  {
    hide Ordered, EntryMap;
    forall id, k, g, b
      ensures EnvFactor(id, k, g, b) in all <==>
        && id == name(EnvironmentKind, k) && HasValue(good, k, g) && HasValue(bad, k, b) && g != b
        && (g.Some? ==> !("redacted:hmac:" <= g.value)) && (b.Some? ==> !("redacted:hmac:" <= b.value))
        && k !in good.secretNames && k !in bad.secretNames
    {
      assert EnvFactor(id, k, g, b) in AllFactors(name, good, bad) <==> EnvFactor(id, k, g, b) in EnvFactors(name, good, bad, EnvKeys(good, bad));
    }
  }

  /** A path is a factor exactly if its entries differ in more than their sizes and neither is unsupported. */
  lemma WorkspaceFactorsMean(name: FactorName, good: Capture, bad: Capture, maxFactors: int, all: seq<Factor>, factors: seq<Factor>,
                             boundaries: set<Boundary>)
    requires Compared(name, good, bad, maxFactors, all, factors, boundaries)
    requires UniquePaths(good.workspace.entries) && UniquePaths(bad.workspace.entries)
    ensures forall id, p, g, b :: FileFactor(id, p, g, b) in all <==>
      && id == name(WorkspaceKind, p) && HasEntry(good, p, g) && HasEntry(bad, p, b) && (g.Some? || b.Some?)
      && (g.Some? && b.Some? ==> g.value != b.value.(size := g.value.size))
      && (g.Some? ==> !g.value.kind.Unsupported?) && (b.Some? ==> !b.value.kind.Unsupported?)
  {
    hide Ordered, EntryMap;
    EntryMapIs(good.workspace.entries);
    EntryMapIs(bad.workspace.entries);
    forall id, p, g, b
      ensures FileFactor(id, p, g, b) in all <==>
        && id == name(WorkspaceKind, p) && HasEntry(good, p, g) && HasEntry(bad, p, b) && (g.Some? || b.Some?)
        && (g.Some? && b.Some? ==> g.value != b.value.(size := g.value.size))
        && (g.Some? ==> !g.value.kind.Unsupported?) && (b.Some? ==> !b.value.kind.Unsupported?)
    {
      assert FileFactor(id, p, g, b) in AllFactors(name, good, bad) <==> FileFactor(id, p, g, b) in FileFactors(name, good, bad, Paths(good, bad));
      assert HasEntry(good, p, g) <==> g == Lookup(Entries(good), p);
      assert HasEntry(bad, p, b) <==> b == Lookup(Entries(bad), p);
    }
  }

  /** A variable is reported as a differing secret exactly if its values differ and one of those reasons keeps it from being a factor. */
  lemma SecretBoundariesMean(name: FactorName, good: Capture, bad: Capture, maxFactors: int, all: seq<Factor>, factors: seq<Factor>,
                             boundaries: set<Boundary>, k: string, g: Option<string>, b: Option<string>)
    requires Compared(name, good, bad, maxFactors, all, factors, boundaries) && HasValue(good, k, g) && HasValue(bad, k, b)
    ensures SecretDiffers(k) in boundaries <==>
      (g != b && ((g.Some? && "redacted:hmac:" <= g.value) || (b.Some? && "redacted:hmac:" <= b.value) || k in good.secretNames || k in bad.secretNames))
  {
    hide Ordered, EntryMap, EntriesDiffer, SupportedPath, Distinct, AllFactors;
    assert g == Lookup(good.environment, k) && b == Lookup(bad.environment, k);
    assert SecretDiffers(k) in boundaries <==> SecretDiffers(k) in EnvBoundaries(good, bad, EnvKeys(good, bad));
  }

  /** Each other boundary is reported exactly when it applies. */
  lemma BoundariesMean(name: FactorName, good: Capture, bad: Capture, maxFactors: int, all: seq<Factor>, factors: seq<Factor>,
                       boundaries: set<Boundary>)
    requires Compared(name, good, bad, maxFactors, all, factors, boundaries)
    ensures forall p :: UnsupportedDiffers(p) in boundaries <==> PathDiffers(good, bad, p) && !SupportedPath(good, bad, p)
    ensures HostDiffers in boundaries <==> good.hostDigest != bad.hostDigest
    ensures ConsultedPathsIncomplete in boundaries <==> good.consultedPaths == 0 || bad.consultedPaths == 0
    ensures forall retained, total :: FactorLimit(retained, total) in boundaries <==> 0 < maxFactors < total && retained == maxFactors && total == |all|
  {
    hide Ordered, EntryMap, EntriesDiffer, SupportedPath, Distinct, AllFactors, Hidden, EnvDiffers;
  }

  // ----- the program -----

  /** The first half of `Compare`. */
  method CompareEnvironments(name: FactorName, good: Capture, bad: Capture)
    returns (factors: seq<Factor>, boundaries: set<Boundary>)
    ensures Distinct(factors) && forall f :: f in factors <==> f in EnvFactors(name, good, bad, EnvKeys(good, bad))
    ensures boundaries == EnvBoundaries(good, bad, EnvKeys(good, bad))
  {
    hide EntryMap, StrictlyOrdered, StringLess;
    factors, boundaries := [], {};
    var keys := SortedKeys(EnvKeys(good, bad));
    StrictlyOrderedIsDistinct(keys);
    ghost var seen: set<string> := {};
    for i := 0 to |keys|
      invariant seen == set k | k in keys[..i]
      invariant Distinct(factors) && forall f :: f in factors <==> f in EnvFactors(name, good, bad, seen)
      invariant boundaries == EnvBoundaries(good, bad, seen)
    {
      var key := keys[i];
      assert keys[..i+1] == keys[..i] + [key] && key !in seen;
      seen := seen + {key};
      if Lookup(good.environment, key) == Lookup(bad.environment, key) {
        continue;
      }
      if Hidden(good, bad, key) {
        boundaries := boundaries + {SecretDiffers(key)};
        continue;
      }
      var factor := EnvFactorOf(name, good, bad, key);
      DistinctConcat(factors, [factor]);
      factors := factors + [factor];
    }
    assert seen == EnvKeys(good, bad);
  }

  /** The second half of `Compare`. */
  method CompareWorkspaces(name: FactorName, good: Capture, bad: Capture)
    returns (factors: seq<Factor>, boundaries: set<Boundary>)
    ensures Distinct(factors) && forall f :: f in factors <==> f in FileFactors(name, good, bad, Paths(good, bad))
    ensures boundaries == FileBoundaries(good, bad, Paths(good, bad))
  {
    hide EntryMap, StrictlyOrdered, StringLess, EntriesDiffer, SupportedPath, Lookup;
    factors, boundaries := [], {};
    var paths := SortedKeys(Paths(good, bad));
    StrictlyOrderedIsDistinct(paths);
    ghost var seen: set<string> := {};
    for i := 0 to |paths|
      invariant seen == set p | p in paths[..i]
      invariant Distinct(factors) && forall f :: f in factors <==> f in FileFactors(name, good, bad, seen)
      invariant boundaries == FileBoundaries(good, bad, seen)
    {
      var path := paths[i];
      assert paths[..i+1] == paths[..i] + [path] && path !in seen && path in Paths(good, bad);
      seen := seen + {path};
      if !EntriesDiffer(Lookup(Entries(good), path), Lookup(Entries(bad), path)) {
        continue;
      }
      if !SupportedPath(good, bad, path) {
        boundaries := boundaries + {UnsupportedDiffers(path)};
        continue;
      }
      var factor := FileFactorOf(name, good, bad, path);
      DistinctConcat(factors, [factor]);
      factors := factors + [factor];
    }
    assert seen == Paths(good, bad);
  }

  /** `sort.Slice` by ID. */
  method SortFactors(values: seq<Factor>) returns (sorted: seq<Factor>)
    requires Distinct(values)
    ensures Ordered(sorted, IdBefore) && Distinct(sorted) && forall f :: f in sorted <==> f in values
  {
    IdOrderIsWeak();
    SortIsOrdered(values, IdBefore);
    DistinctPermutes(values, SortBy(values, IdBefore));
    sorted := SortBy(values, IdBefore);
  }

  method Compare(name: FactorName, good: Capture, bad: Capture, maxFactors: int)
    returns (factors: seq<Factor>, boundaries: set<Boundary>, ghost all: seq<Factor>)
    ensures Compared(name, good, bad, maxFactors, all, factors, boundaries)
  {
    var envFactors, envBoundaries := CompareEnvironments(name, good, bad);
    var fileFactors, fileBoundaries := CompareWorkspaces(name, good, bad);
    boundaries := envBoundaries + fileBoundaries;
    if good.hostDigest != bad.hostDigest {
      boundaries := boundaries + {HostDiffers};
    }
    if good.consultedPaths == 0 || bad.consultedPaths == 0 {
      boundaries := boundaries + {ConsultedPathsIncomplete};
    }
    assert forall f :: f in envFactors ==> f.EnvFactor?;
    assert forall f :: f in fileFactors ==> f.FileFactor?;
    DistinctConcat(envFactors, fileFactors);
    factors := SortFactors(envFactors + fileFactors);
    all := factors;
    if maxFactors > 0 && |factors| > maxFactors {
      boundaries := boundaries + {FactorLimit(maxFactors, |factors|)};
      factors := factors[..maxFactors];
    }
  }

  lemma IdOrderIsWeak()
    ensures WeakOrder(IdBefore)
  {
    StringOrderIsWeak();
  }
}
