/**
 * Applying factors to a materialized world (internal/experiment/engine.go, `runWorld`), and what a
 * set of factors amounts to when no directory differs: each factor's key or path is taken from the
 * other world, and nothing else changes.
 */
module Interventions {
  import opened Ordering
  import opened Sequences
  import opened FileTree
  import opened WorldDiff

  datatype Setup = Setup(environment: map<string, string>, tree: Tree, failure: Option<Failure>)

  // ----- specification -----

  function ApplyFactor(blobs: Blobs, useGood: bool, factor: Factor, world: Setup): Setup {
    match factor
    case EnvFactor(_, key, goodValue, badValue) =>
      var value := if useGood then goodValue else badValue;
      world.(environment := if value.Some? then world.environment[key := value.value] else world.environment - {key})
    case FileFactor(_, path, goodEntry, badEntry) =>
      var applied := ApplyTo(blobs, world.tree, path, if useGood then goodEntry else badEntry);
      world.(tree := applied.tree, failure := applied.failure)
  }

  function ApplyFactors(blobs: Blobs, useGood: bool, selected: seq<Factor>, world: Setup): Setup
    decreases |selected|
  {
    if selected == [] || world.failure.Some? then world
    else ApplyFactors(blobs, useGood, selected[1..], ApplyFactor(blobs, useGood, selected[0], world))
  }

  /** The world `runWorld` sets up before it starts the command. */
  function SetupOf(blobs: Blobs, base: Capture, useGood: bool, selected: seq<Factor>): Setup {
    var built := MaterializeOf(blobs, base.workspace.entries);
    ApplyFactors(blobs, useGood, selected, Setup(base.environment, built.tree, built.failure))
  }

  // ----- taking keys from another map -----

  /** `from`, with every key in `keys` as it is in `into`. */
  ghost function Mix<V>(from: map<string, V>, into: map<string, V>, keys: set<string>): (m: map<string, V>)
  {
    map k | k in from.Keys + into.Keys && (if k in keys then k in into else k in from) :: if k in keys then into[k] else from[k]
  }

  ghost predicate AgreeOff<V>(a: map<string, V>, b: map<string, V>, keys: set<string>) {
    forall k :: k !in keys ==> Lookup(a, k) == Lookup(b, k)
  }

  lemma SameLookups<V>(a: map<string, V>, b: map<string, V>)
    requires forall k :: Lookup(a, k) == Lookup(b, k)
    ensures a == b
  {
    forall k ensures k in a <==> k in b { assert Lookup(a, k) == Lookup(b, k); }
    forall k | k in a ensures a[k] == b[k] { assert Lookup(a, k) == Lookup(b, k); }
  }

  lemma MixLookup<V>(from: map<string, V>, into: map<string, V>, keys: set<string>, k: string)
    ensures Lookup(Mix(from, into, keys), k) == if k in keys then Lookup(into, k) else Lookup(from, k)
  {}

  lemma MixNothing<V>(from: map<string, V>, into: map<string, V>)
    ensures Mix(from, into, {}) == from
  {
    forall k ensures Lookup(Mix(from, into, {}), k) == Lookup(from, k) { MixLookup(from, into, {}, k); }
    SameLookups(Mix(from, into, {}), from);
  }

  /** Taking `some` of the differing keys one way is taking the others the opposite way. */
  lemma MixComplement<V>(a: map<string, V>, b: map<string, V>, some: set<string>, others: set<string>)
    requires AgreeOff(a, b, some + others) && some !! others
    ensures Mix(a, b, some) == Mix(b, a, others)
  {
    forall k ensures Lookup(Mix(a, b, some), k) == Lookup(Mix(b, a, others), k) {
      MixLookup(a, b, some, k);
      MixLookup(b, a, others, k);
    }
    SameLookups(Mix(a, b, some), Mix(b, a, others));
  }

  lemma MixOneMore<V>(from: map<string, V>, into: map<string, V>, keys: set<string>, key: string)
    ensures Mix(from, into, keys + {key})
         == if key in into then Mix(from, into, keys)[key := into[key]] else Mix(from, into, keys) - {key}
  {
    var m := if key in into then Mix(from, into, keys)[key := into[key]] else Mix(from, into, keys) - {key};
    forall k ensures Lookup(Mix(from, into, keys + {key}), k) == Lookup(m, k) {
      MixLookup(from, into, keys + {key}, k);
      MixLookup(from, into, keys, k);
    }
    SameLookups(Mix(from, into, keys + {key}), m);
  }

  // ----- pairs of worlds without differing directories -----

  ghost predicate WellFormed(c: Capture) {
    UniquePaths(c.workspace.entries) && ParentsListed(c.workspace.entries)
  }

  ghost predicate Buildable(blobs: Blobs, c: Capture) {
    AllWritable(blobs, c.workspace.entries)
  }

  /** The caller's condition: no path that differs is a directory in either world. */
  ghost predicate NoDirectoryDiffers(good: Capture, bad: Capture) {
    forall p :: PathDiffers(good, bad, p) ==>
      && (p in Entries(good) ==> !Entries(good)[p].kind.Directory?)
      && (p in Entries(bad) ==> !Entries(bad)[p].kind.Directory?)
  }

  ghost predicate Pair(blobs: Blobs, good: Capture, bad: Capture) {
    && WellFormed(good) && WellFormed(bad) && Buildable(blobs, good) && Buildable(blobs, bad)
    && NoDirectoryDiffers(good, bad)
  }

  ghost function TreeIn(blobs: Blobs, c: Capture): Tree
    requires WellFormed(c) && Buildable(blobs, c)
  {
    TreeOf(blobs, c.workspace.entries)
  }

  lemma TreeLookup(blobs: Blobs, c: Capture, p: string)
    requires WellFormed(c) && Buildable(blobs, c)
    ensures p in TreeIn(blobs, c) <==> p in Entries(c)
    ensures p in Entries(c) ==> Entries(c)[p] in c.workspace.entries && Entries(c)[p].path == p && Writable(blobs, Entries(c)[p])
    ensures p in Entries(c) ==> TreeIn(blobs, c)[p] == NodeOf(blobs, Entries(c)[p])
  {
    EntryMapIs(c.workspace.entries);
  }

  lemma ParentIsDirectory(c: Capture, p: string, a: string)
    requires WellFormed(c) && p in Entries(c) && a in Ancestors(p)
    ensures a in Entries(c) && Entries(c)[a].kind.Directory?
  {
    EntryMapIs(c.workspace.entries);
    assert Entries(c)[p] in c.workspace.entries && Entries(c)[p].path == p;
  }

  /** The parents of a differing path are directories that both worlds share. */
  lemma ParentsAreShared(blobs: Blobs, good: Capture, bad: Capture, p: string, a: string)
    requires Pair(blobs, good, bad) && PathDiffers(good, bad, p) && a in Ancestors(p)
    ensures !PathDiffers(good, bad, a)
    ensures a in TreeIn(blobs, good) && TreeIn(blobs, good)[a].Dir?
    ensures a in TreeIn(blobs, bad) && TreeIn(blobs, bad)[a].Dir?
  {
    if p in Entries(good) { ParentIsDirectory(good, p, a); } else { ParentIsDirectory(bad, p, a); }
    assert !PathDiffers(good, bad, a);
    TreeLookup(blobs, good, a);
    TreeLookup(blobs, bad, a);
  }

  lemma NothingBelow(blobs: Blobs, good: Capture, bad: Capture, p: string, q: string)
    requires Pair(blobs, good, bad) && PathDiffers(good, bad, p) && p in Ancestors(q)
    ensures q !in TreeIn(blobs, good) && q !in TreeIn(blobs, bad)
  {
    TreeLookup(blobs, good, q);
    TreeLookup(blobs, bad, q);
    if q in Entries(good) { ParentIsDirectory(good, q, p); }
    if q in Entries(bad) { ParentIsDirectory(bad, q, p); }
  }

  lemma DifferingPathIsExposed(blobs: Blobs, good: Capture, bad: Capture, from: Tree, into: Tree, paths: set<string>, p: string)
    requires Pair(blobs, good, bad) && PathDiffers(good, bad, p)
    requires (from == TreeIn(blobs, good) && into == TreeIn(blobs, bad)) || (from == TreeIn(blobs, bad) && into == TreeIn(blobs, good))
    ensures Exposed(Mix(from, into, paths), p)
  {
    var t := Mix(from, into, paths);
    forall a | a in Ancestors(p) ensures a in t && t[a].Dir? {
      ParentsAreShared(blobs, good, bad, p, a);
    }
    forall q | q in t ensures p !in Ancestors(q) {
      if p in Ancestors(q) { NothingBelow(blobs, good, bad, p, q); }
    }
  }

  lemma TreesAgreeOff(blobs: Blobs, good: Capture, bad: Capture, paths: set<string>)
    requires Pair(blobs, good, bad) && forall p :: PathDiffers(good, bad, p) ==> p in paths
    ensures AgreeOff(TreeIn(blobs, bad), TreeIn(blobs, good), paths)
  {
    forall p | p !in paths ensures Lookup(TreeIn(blobs, bad), p) == Lookup(TreeIn(blobs, good), p) {
      TreeLookup(blobs, good, p);
      TreeLookup(blobs, bad, p);
      assert !PathDiffers(good, bad, p);
    }
  }

  // ----- a set of factors is a mix of the two worlds -----

  ghost function EnvKeysOf(factors: seq<Factor>): set<string> {
    set f | f in factors && f.EnvFactor? :: f.key
  }

  ghost function PathsOf(factors: seq<Factor>): set<string> {
    set f | f in factors && f.FileFactor? :: f.key
  }

  ghost predicate FactorsOf(name: FactorName, good: Capture, bad: Capture, factors: seq<Factor>) {
    forall f :: f in factors ==> f in AllFactors(name, good, bad)
  }

  /** The base world with the keys and paths of `factors` as they are in the other world. */
  ghost function Mixed(blobs: Blobs, base: Capture, source: Capture, factors: seq<Factor>): Setup
    requires WellFormed(base) && WellFormed(source) && Buildable(blobs, base) && Buildable(blobs, source)
  {
    Setup(Mix(base.environment, source.environment, EnvKeysOf(factors)),
          Mix(TreeIn(blobs, base), TreeIn(blobs, source), PathsOf(factors)), None)
  }

  lemma OneFactorMixes(blobs: Blobs, name: FactorName, good: Capture, bad: Capture, useGood: bool, done: seq<Factor>, f: Factor)
    requires Pair(blobs, good, bad) && f in AllFactors(name, good, bad)
    ensures var base, source := if useGood then bad else good, if useGood then good else bad;
            ApplyFactor(blobs, useGood, f, Mixed(blobs, base, source, done)) == Mixed(blobs, base, source, done + [f])
  {
    var base, source := if useGood then bad else good, if useGood then good else bad;
    var world := Mixed(blobs, base, source, done);
    match f
    case EnvFactor(_, key, _, _) =>
      assert EnvKeysOf(done + [f]) == EnvKeysOf(done) + {key} && PathsOf(done + [f]) == PathsOf(done);
      MixOneMore(base.environment, source.environment, EnvKeysOf(done), key);
    case FileFactor(_, path, _, _) =>
      assert EnvKeysOf(done + [f]) == EnvKeysOf(done) && PathsOf(done + [f]) == PathsOf(done) + {path};
      var from, into := TreeIn(blobs, base), TreeIn(blobs, source);
      MixOneMore(from, into, PathsOf(done), path);
      DifferingPathIsExposed(blobs, good, bad, from, into, PathsOf(done), path);
      TreeLookup(blobs, base, path);
      TreeLookup(blobs, source, path);
      ApplyIsUpdate(blobs, world.tree, path, Lookup(Entries(source), path));
  }

  lemma {:induction false} FactorsMix(blobs: Blobs, name: FactorName, good: Capture, bad: Capture, useGood: bool, done: seq<Factor>, todo: seq<Factor>)
    requires Pair(blobs, good, bad) && FactorsOf(name, good, bad, todo)
    ensures var base, source := if useGood then bad else good, if useGood then good else bad;
            ApplyFactors(blobs, useGood, todo, Mixed(blobs, base, source, done)) == Mixed(blobs, base, source, done + todo)
    decreases |todo|
  {
    if todo == [] {
      assert done + todo == done;
    } else {
      assert todo[0] in todo;
      OneFactorMixes(blobs, name, good, bad, useGood, done, todo[0]);
      assert done + todo == (done + [todo[0]]) + todo[1..];
      assert FactorsOf(name, good, bad, todo[1..]);
      FactorsMix(blobs, name, good, bad, useGood, done + [todo[0]], todo[1..]);
    }
  }

  /**
   * When no differing path is a directory, applying any factors, in any order and with repetitions,
   * to either world sets up that world with exactly the factors' keys and paths taken from the other.
   */
  lemma SetupIsMixed(blobs: Blobs, name: FactorName, good: Capture, bad: Capture, useGood: bool, selected: seq<Factor>)
    requires Pair(blobs, good, bad) && FactorsOf(name, good, bad, selected)
    ensures var base, source := if useGood then bad else good, if useGood then good else bad;
            SetupOf(blobs, base, useGood, selected) == Mixed(blobs, base, source, selected)
  {
    var base, source := if useGood then bad else good, if useGood then good else bad;
    MaterializeIsExact(blobs, base.workspace.entries);
    MixNothing(base.environment, source.environment);
    MixNothing(TreeIn(blobs, base), TreeIn(blobs, source));
    assert EnvKeysOf([]) == {} && PathsOf([]) == {};
    assert Mixed(blobs, base, source, []) == Setup(base.environment, TreeIn(blobs, base), None);
    assert [] + selected == selected;
    FactorsMix(blobs, name, good, bad, useGood, [], selected);
  }

  /** Order and repetition of the factors do not matter. */
  lemma FactorsCommute(blobs: Blobs, name: FactorName, good: Capture, bad: Capture, useGood: bool, a: seq<Factor>, b: seq<Factor>)
    requires Pair(blobs, good, bad) && FactorsOf(name, good, bad, a)
    requires forall f :: f in a <==> f in b
    ensures var base := if useGood then bad else good;
            SetupOf(blobs, base, useGood, a) == SetupOf(blobs, base, useGood, b)
  {
    SetupIsMixed(blobs, name, good, bad, useGood, a);
    SetupIsMixed(blobs, name, good, bad, useGood, b);
    assert EnvKeysOf(a) == EnvKeysOf(b) && PathsOf(a) == PathsOf(b);
  }

  /** `factors` account for every difference between the worlds. */
  ghost predicate Complete(name: FactorName, good: Capture, bad: Capture, factors: seq<Factor>) {
    && FactorsOf(name, good, bad, factors)
    && (forall k :: EnvDiffers(good, bad, k) ==> EnvFactorOf(name, good, bad, k) in factors)
    && (forall p :: PathDiffers(good, bad, p) ==> FileFactorOf(name, good, bad, p) in factors)
  }

  ghost predicate Partition(all: seq<Factor>, some: seq<Factor>, others: seq<Factor>) {
    && (forall f :: f in all <==> f in some || f in others)
    && (forall f :: f in some ==> f !in others)
  }

  lemma PartitionedKeys(name: FactorName, good: Capture, bad: Capture, all: seq<Factor>, some: seq<Factor>, others: seq<Factor>)
    requires Complete(name, good, bad, all) && Partition(all, some, others)
    ensures EnvKeysOf(some) !! EnvKeysOf(others) && PathsOf(some) !! PathsOf(others)
    ensures forall k :: EnvDiffers(good, bad, k) ==> k in EnvKeysOf(some) + EnvKeysOf(others)
    ensures forall p :: PathDiffers(good, bad, p) ==> p in PathsOf(some) + PathsOf(others)
  {
    forall f, g | f in some && g in others && f.key == g.key ensures f.EnvFactor? != g.EnvFactor? {
      assert f in all && g in all;
    }
    forall k | EnvDiffers(good, bad, k) ensures k in EnvKeysOf(some) + EnvKeysOf(others) {
      var f := EnvFactorOf(name, good, bad, k);
      assert f in all && f.key == k;
    }
    forall p | PathDiffers(good, bad, p) ensures p in PathsOf(some) + PathsOf(others) {
      var f := FileFactorOf(name, good, bad, p);
      assert f in all && f.key == p;
    }
  }

  /**
   * Breaking the good world with some of the factors is repairing the bad world with all the others.
   * With `some` empty: the whole set turns the bad world into exactly the good one.
   */
  lemma ReverseIsForwardOfTheRest(blobs: Blobs, name: FactorName, good: Capture, bad: Capture,
                                  all: seq<Factor>, some: seq<Factor>, others: seq<Factor>)
    requires Pair(blobs, good, bad) && Complete(name, good, bad, all) && Partition(all, some, others)
    ensures SetupOf(blobs, good, false, some) == SetupOf(blobs, bad, true, others)
  {
    PartitionedKeys(name, good, bad, all, some, others);
    assert FactorsOf(name, good, bad, some) && FactorsOf(name, good, bad, others);
    SetupIsMixed(blobs, name, good, bad, false, some);
    SetupIsMixed(blobs, name, good, bad, true, others);
    var envKeys, paths := EnvKeysOf(some) + EnvKeysOf(others), PathsOf(some) + PathsOf(others);
    assert AgreeOff(good.environment, bad.environment, envKeys) by {
      forall k | k !in envKeys ensures Lookup(good.environment, k) == Lookup(bad.environment, k) {
        assert !EnvDiffers(good, bad, k);
      }
    }
    MixComplement(good.environment, bad.environment, EnvKeysOf(some), EnvKeysOf(others));
    TreesAgreeOff(blobs, good, bad, paths);
    MixComplement(TreeIn(blobs, good), TreeIn(blobs, bad), PathsOf(some), PathsOf(others));
  }

  lemma AllFactorsGiveTheGoodWorld(blobs: Blobs, name: FactorName, good: Capture, bad: Capture, all: seq<Factor>)
    requires Pair(blobs, good, bad) && Complete(name, good, bad, all)
    ensures SetupOf(blobs, bad, true, all) == Setup(good.environment, TreeIn(blobs, good), None) == SetupOf(blobs, good, false, [])
    ensures SetupOf(blobs, good, false, all) == Setup(bad.environment, TreeIn(blobs, bad), None) == SetupOf(blobs, bad, true, [])
  {
    ReverseIsForwardOfTheRest(blobs, name, good, bad, all, [], all);
    ReverseIsForwardOfTheRest(blobs, name, good, bad, all, all, []);
    MaterializeIsExact(blobs, good.workspace.entries);
    MaterializeIsExact(blobs, bad.workspace.entries);
  }
}
