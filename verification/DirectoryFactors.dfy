/**
 * What a set of factors does when differing paths may be directories: `Apply` replaces a directory with all that is
 * below it, and factors are applied in the order of their names (internal/experiment/engine.go,
 * internal/workspace/workspace.go).
 */
module DirectoryFactors {
  import opened Ordering
  import opened FileTree
  import opened WorldDiff
  import opened Interventions

  const MADE_PARENT := Dir(493)

  predicate AtOrAbove(key: string, q: string) { key == q || key in Ancestors(q) }

  /** The position of the last factor at a path or at a directory above it; -1 if there is none. */
  function LastOver(factors: seq<Factor>, q: string): (k: int)
    ensures -1 <= k < |factors|
    ensures k >= 0 ==> factors[k].FileFactor? && AtOrAbove(factors[k].key, q)
  {
    if factors == [] then -1
    else
      var n := |factors| - 1;
      if factors[n].FileFactor? && AtOrAbove(factors[n].key, q) then n else LastOver(factors[..n], q)
  }

  /** A factor after position `k` writes something below a path, and so makes it a directory if it is not there. */
  ghost predicate RemadeAfter(source: Capture, factors: seq<Factor>, k: int, q: string) {
    exists m: nat :: k < m < |factors| && factors[m].FileFactor? && factors[m].key in Entries(source) && q in Ancestors(factors[m].key)
  }

  /** With `done` applied to `base`, a path holds something that is not a directory. */
  predicate Occupied(base: Capture, source: Capture, done: seq<Factor>, a: string) {
    var k := LastOver(done, a);
    if k < 0 then a in Entries(base) && !Entries(base)[a].kind.Directory?
    else done[k].key == a && a in Entries(source) && !Entries(source)[a].kind.Directory?
  }

  ghost predicate Blocked(base: Capture, source: Capture, done: seq<Factor>, key: string) {
    exists a :: a in Ancestors(key) && Occupied(base, source, done, a)
  }

  /** No factor is applied below something that is not a directory at that moment. */
  ghost predicate Unblocked(base: Capture, source: Capture, factors: seq<Factor>) {
    forall i :: 0 <= i < |factors| && factors[i].FileFactor? ==> !Blocked(base, source, factors[..i], factors[i].key)
  }

  /**
   * A path of the source world is as it should be in the end: no factor is at or above it; or the last one is at it; or a
   * directory above it went last, and a later factor below it remakes it as the plain directory that it has to be.
   */
  ghost predicate Restored(source: Capture, factors: seq<Factor>, q: string)
    requires q in Entries(source)
  {
    var k := LastOver(factors, q);
    k < 0 || factors[k].key == q
    || (Entries(source)[q].kind.Directory? && Perm(Entries(source)[q].mode) == 493 && RemadeAfter(source, factors, k, q))
  }

  /** Both captures can be built; nothing is asked of the paths that differ. */
  ghost predicate Worlds(blobs: Blobs, base: Capture, source: Capture) {
    WellFormed(base) && WellFormed(source) && Buildable(blobs, base) && Buildable(blobs, source)
  }

  // ----- the tree after some factors -----

  ghost function KeptNode(blobs: Blobs, base: Capture, source: Capture, done: seq<Factor>, q: string): Option<Node>
    requires Worlds(blobs, base, source)
  {
    var k := LastOver(done, q);
    if k < 0 then Lookup(TreeIn(blobs, base), q)
    else if done[k].key == q then Lookup(TreeIn(blobs, source), q)
    else None
  }

  /** What a path holds after `done`. */
  ghost function NodeAfter(blobs: Blobs, base: Capture, source: Capture, done: seq<Factor>, q: string): Option<Node>
    requires Worlds(blobs, base, source)
  {
    if KeptNode(blobs, base, source, done, q).Some? then KeptNode(blobs, base, source, done, q)
    else if RemadeAfter(source, done, LastOver(done, q), q) then Some(MADE_PARENT)
    else None
  }

  ghost predicate Holds(blobs: Blobs, base: Capture, source: Capture, done: seq<Factor>, tree: Tree)
    requires Worlds(blobs, base, source)
  {
    forall q :: Lookup(tree, q) == NodeAfter(blobs, base, source, done, q)
  }

  lemma LastOverMore(done: seq<Factor>, f: Factor, q: string)
    ensures LastOver(done + [f], q) == if f.FileFactor? && AtOrAbove(f.key, q) then |done| else LastOver(done, q)
  {
    assert (done + [f])[..|done|] == done;
  }

  lemma RemadeMore(source: Capture, done: seq<Factor>, f: Factor, k: int, q: string)
    requires -1 <= k < |done|
    ensures RemadeAfter(source, done + [f], k, q)
       <==> RemadeAfter(source, done, k, q) || (f.FileFactor? && f.key in Entries(source) && q in Ancestors(f.key))
  {
    hide Entries, Ancestors;
    var more := done + [f];
    assert more[|done|] == f;
    if RemadeAfter(source, done, k, q) {
      var m: nat :| k < m < |done| && done[m].FileFactor? && done[m].key in Entries(source) && q in Ancestors(done[m].key);
      assert more[m] == done[m];
    }
    if RemadeAfter(source, more, k, q) {
      var m: nat :| k < m < |more| && more[m].FileFactor? && more[m].key in Entries(source) && q in Ancestors(more[m].key);
      assert m < |done| ==> more[m] == done[m];
    }
  }

  lemma NotRemadeAtEnd(source: Capture, factors: seq<Factor>, q: string)
    ensures !RemadeAfter(source, factors, |factors| - 1, q)
  {}

  /** How one more factor changes what a path holds. */
  lemma NodeAfterMore(blobs: Blobs, base: Capture, source: Capture, done: seq<Factor>, f: Factor, q: string)
    requires Worlds(blobs, base, source)
    ensures NodeAfter(blobs, base, source, done + [f], q) ==
      var before := NodeAfter(blobs, base, source, done, q);
      if f.EnvFactor? then before
      else if f.key == q then Lookup(TreeIn(blobs, source), q)
      else if f.key in Ancestors(q) then None
      else if q in Ancestors(f.key) && f.key in Entries(source) && before.None? then Some(MADE_PARENT)
      else before
  {
    hide LastOver, RemadeAfter, WellFormed, Buildable, TreeIn, Entries, Ancestors;
    var more := done + [f];
    LastOverMore(done, f, q);
    NotRemadeAtEnd(source, more, q);
    RemadeMore(source, done, f, LastOver(done, q), q);
    assert more[|done|] == f;
    var k := LastOver(done, q);
    assert k >= 0 ==> more[k] == done[k];
  }

  /** What applying one entry does to a path, if it succeeds. */
  lemma AppliedAt(blobs: Blobs, tree: Tree, path: string, entry: Option<Entry>, q: string)
    requires ApplyTo(blobs, tree, path, entry).failure.None?
    requires entry.Some? ==> Writable(blobs, entry.value)
    ensures Lookup(ApplyTo(blobs, tree, path, entry).tree, q) ==
      if q == path then (if entry.Some? then Some(NodeOf(blobs, entry.value)) else None)
      else if path in Ancestors(q) then None
      else if q in Ancestors(path) && entry.Some? && q !in tree then Some(MADE_PARENT)
      else Lookup(tree, q)
  {
    hide Safe, LinkTargetOk, Perm;
    if path in Ancestors(q) { AncestorIsShallower(path, q); }
    if q in Ancestors(path) { AncestorIsShallower(q, path); }
  }

  /** A factor whose source entry is the one to apply. */
  ghost predicate Takes(base: Capture, source: Capture, f: Factor, entry: Option<Entry>) {
    f.FileFactor? && (f.key in Entries(base) || f.key in Entries(source)) && entry == Lookup(Entries(source), f.key)
  }

  lemma OccupiedIs(blobs: Blobs, base: Capture, source: Capture, done: seq<Factor>, tree: Tree, a: string)
    requires Worlds(blobs, base, source) && Holds(blobs, base, source, done, tree)
    ensures Occupied(base, source, done, a) <==> a in tree && !tree[a].Dir?
  {
    hide RemadeAfter, LastOver, WellFormed, Buildable, TreeIn, Entries;
    assert Lookup(tree, a) == NodeAfter(blobs, base, source, done, a);
    NodeKinds(blobs, base, a);
    NodeKinds(blobs, source, a);
  }

  lemma NodeKinds(blobs: Blobs, c: Capture, p: string)
    requires WellFormed(c) && Buildable(blobs, c)
    ensures p in TreeIn(blobs, c) <==> p in Entries(c)
    ensures p in Entries(c) ==> (TreeIn(blobs, c)[p].Dir? <==> Entries(c)[p].kind.Directory?) && Writable(blobs, Entries(c)[p]) && Safe(p) && Entries(c)[p].path == p
    ensures p in Entries(c) ==> TreeIn(blobs, c)[p] == NodeOf(blobs, Entries(c)[p])
  {
    TreeLookup(blobs, c, p);
  }

  lemma FactorStep(blobs: Blobs, base: Capture, source: Capture, done: seq<Factor>, f: Factor, tree: Tree, entry: Option<Entry>)
    requires Worlds(blobs, base, source) && Holds(blobs, base, source, done, tree) && Takes(base, source, f, entry)
    ensures ApplyTo(blobs, tree, f.key, entry).failure.Some? <==> Blocked(base, source, done, f.key)
    ensures ApplyTo(blobs, tree, f.key, entry).failure.None? ==>
      Holds(blobs, base, source, done + [f], ApplyTo(blobs, tree, f.key, entry).tree)
  {
    hide Occupied, NodeAfter, TreeIn, Entries, LastOver;
    NodeKinds(blobs, base, f.key);
    NodeKinds(blobs, source, f.key);
    forall a ensures Occupied(base, source, done, a) <==> a in tree && !tree[a].Dir? {
      OccupiedIs(blobs, base, source, done, tree, a);
    }
    BlockedIsFailure(blobs, base, source, done, f, tree, entry);
    if ApplyTo(blobs, tree, f.key, entry).failure.None? {
      forall q ensures Lookup(ApplyTo(blobs, tree, f.key, entry).tree, q) == NodeAfter(blobs, base, source, done + [f], q) {
        NodeAfterMore(blobs, base, source, done, f, q);
        AppliedAt(blobs, tree, f.key, entry, q);
      }
    }
  }

  lemma BlockedIsFailure(blobs: Blobs, base: Capture, source: Capture, done: seq<Factor>, f: Factor, tree: Tree, entry: Option<Entry>)
    requires Safe(f.key) && (entry.Some? ==> Writable(blobs, entry.value) && entry.value.path == f.key)
    requires forall a :: Occupied(base, source, done, a) <==> a in tree && !tree[a].Dir?
    ensures ApplyTo(blobs, tree, f.key, entry).failure.Some? <==> Blocked(base, source, done, f.key)
  {
    hide Occupied, Safe, LinkTargetOk, RemoveExisting, MakeParents, NodeOf, Ancestors;
    assert BlockedByFile(tree, f.key) <==> Blocked(base, source, done, f.key);
  }

  // ----- all the factors -----

  lemma {:induction false} ApplySnoc(blobs: Blobs, useGood: bool, selected: seq<Factor>, f: Factor, world: Setup)
    ensures ApplyFactors(blobs, useGood, selected + [f], world) ==
      var before := ApplyFactors(blobs, useGood, selected, world);
      if before.failure.Some? then before else ApplyFactor(blobs, useGood, f, before)
    decreases |selected|
  {
    hide ApplyFactor;
    if selected == [] {
      assert [] + [f] == [f] && [f][1..] == [];
    } else if world.failure.None? {
      assert (selected + [f])[1..] == selected[1..] + [f];
      ApplySnoc(blobs, useGood, selected[1..], f, ApplyFactor(blobs, useGood, selected[0], world));
    }
  }

  /** The factors name what differs and carry the source's values. */
  ghost predicate Carries(base: Capture, source: Capture, useGood: bool, factors: seq<Factor>) {
    forall f :: f in factors ==>
      if f.EnvFactor? then (if useGood then f.goodValue else f.badValue) == Lookup(source.environment, f.key)
      else Takes(base, source, f, if useGood then f.goodEntry else f.badEntry)
  }

  ghost predicate InStep(blobs: Blobs, base: Capture, source: Capture, done: seq<Factor>, world: Setup)
    requires Worlds(blobs, base, source)
  {
    && (world.failure.None? <==> Unblocked(base, source, done))
    && (world.failure.None? ==>
          Holds(blobs, base, source, done, world.tree) && world.environment == Mix(base.environment, source.environment, EnvKeysOf(done)))
  }

  lemma UnblockedMore(base: Capture, source: Capture, done: seq<Factor>, f: Factor)
    ensures Unblocked(base, source, done + [f]) <==> Unblocked(base, source, done) && (f.FileFactor? ==> !Blocked(base, source, done, f.key))
  {
    hide Blocked;
    var more := done + [f];
    assert more[|done|] == f && more[..|done|] == done;
    forall i | 0 <= i < |done| ensures more[i] == done[i] && more[..i] == done[..i] {}
  }

  lemma EnvKeysMore(done: seq<Factor>, f: Factor)
    ensures EnvKeysOf(done + [f]) == if f.EnvFactor? then EnvKeysOf(done) + {f.key} else EnvKeysOf(done)
  {
    assert f in done + [f];
  }

  lemma OneMoreInStep(blobs: Blobs, base: Capture, source: Capture, useGood: bool, done: seq<Factor>, f: Factor, world: Setup)
    requires Worlds(blobs, base, source) && Carries(base, source, useGood, [f])
    requires InStep(blobs, base, source, done, world) && world.failure.None?
    ensures InStep(blobs, base, source, done + [f], ApplyFactor(blobs, useGood, f, world))
  {
    hide Blocked, Unblocked, NodeAfter, ApplyTo, Mix, EnvKeysOf, Takes, WellFormed, Buildable, Holds;
    assert f in [f];
    UnblockedMore(base, source, done, f);
    EnvKeysMore(done, f);
    match f
    case EnvFactor(_, key, _, _) =>
      MixOneMore(base.environment, source.environment, EnvKeysOf(done), key);
      EnvironmentKeepsTree(blobs, base, source, done, f, world.tree);
    case FileFactor(_, _, goodEntry, badEntry) =>
      FactorStep(blobs, base, source, done, f, world.tree, if useGood then goodEntry else badEntry);
  }

  lemma EnvironmentKeepsTree(blobs: Blobs, base: Capture, source: Capture, done: seq<Factor>, f: Factor, tree: Tree)
    requires Worlds(blobs, base, source) && f.EnvFactor? && Holds(blobs, base, source, done, tree)
    ensures Holds(blobs, base, source, done + [f], tree)
  {
    hide NodeAfter, WellFormed, Buildable;
    forall q ensures Lookup(tree, q) == NodeAfter(blobs, base, source, done + [f], q) {
      NodeAfterMore(blobs, base, source, done, f, q);
    }
  }

  lemma {:induction false} AllInStep(blobs: Blobs, base: Capture, source: Capture, useGood: bool, factors: seq<Factor>)
    requires Worlds(blobs, base, source) && Carries(base, source, useGood, factors)
    ensures InStep(blobs, base, source, factors,
                   ApplyFactors(blobs, useGood, factors, Setup(base.environment, TreeIn(blobs, base), None)))
    decreases |factors|
  {
    hide ApplyFactors, ApplyFactor, InStep, Takes, WellFormed, Buildable, TreeIn;
    var start := Setup(base.environment, TreeIn(blobs, base), None);
    if factors == [] {
      NothingInStep(blobs, base, source, useGood);
    } else {
      var n := |factors| - 1;
      assert factors == factors[..n] + [factors[n]];
      AllInStep(blobs, base, source, useGood, factors[..n]);
      ApplySnoc(blobs, useGood, factors[..n], factors[n], start);
      var before := ApplyFactors(blobs, useGood, factors[..n], start);
      if before.failure.None? {
        OneMoreInStep(blobs, base, source, useGood, factors[..n], factors[n], before);
      } else {
        StillFailed(blobs, base, source, factors[..n], factors[n], before);
      }
    }
  }

  lemma NothingInStep(blobs: Blobs, base: Capture, source: Capture, useGood: bool)
    requires Worlds(blobs, base, source)
    ensures InStep(blobs, base, source, [], ApplyFactors(blobs, useGood, [], Setup(base.environment, TreeIn(blobs, base), None)))
  {
    hide TreeIn, WellFormed, Buildable, Mix;
    MixNothing(base.environment, source.environment);
    assert EnvKeysOf([]) == {};
  }

  lemma StillFailed(blobs: Blobs, base: Capture, source: Capture, done: seq<Factor>, f: Factor, world: Setup)
    requires Worlds(blobs, base, source) && InStep(blobs, base, source, done, world) && world.failure.Some?
    ensures InStep(blobs, base, source, done + [f], world)
  {
    hide Unblocked, Holds, WellFormed, Buildable;
    UnblockedMore(base, source, done, f);
  }

  // ----- when the whole set turns one world into the other -----

  lemma SamePathSameNode(blobs: Blobs, good: Capture, bad: Capture, q: string)
    requires Worlds(blobs, good, bad) && !PathDiffers(good, bad, q)
    ensures Lookup(TreeIn(blobs, good), q) == Lookup(TreeIn(blobs, bad), q)
  {
    TreeLookup(blobs, good, q);
    TreeLookup(blobs, bad, q);
  }

  lemma PathAtEnd(blobs: Blobs, base: Capture, source: Capture, factors: seq<Factor>, q: string)
    requires Worlds(blobs, base, source)
    requires Lookup(TreeIn(blobs, base), q) == Lookup(TreeIn(blobs, source), q) || exists f :: f in factors && f.FileFactor? && f.key == q
    ensures NodeAfter(blobs, base, source, factors, q) == Lookup(TreeIn(blobs, source), q)
       <==> (q in Entries(source) ==> Restored(source, factors, q))
  {
    hide TreeIn, Entries;
    NodeKinds(blobs, source, q);
    if RemadeAfter(source, factors, LastOver(factors, q), q) && q !in Entries(source) {
      var m: nat :| LastOver(factors, q) < m < |factors| && factors[m].FileFactor? && factors[m].key in Entries(source) && q in Ancestors(factors[m].key);
      ParentIsDirectory(source, factors[m].key, q);
    }
    if exists f :: f in factors && f.FileFactor? && f.key == q {
      var f :| f in factors && f.FileFactor? && f.key == q;
      LastOverIsThere(factors, f, q);
    }
  }

  lemma {:induction false} LastOverIsThere(factors: seq<Factor>, f: Factor, q: string)
    requires f in factors && f.FileFactor? && AtOrAbove(f.key, q)
    ensures LastOver(factors, q) >= 0
    decreases |factors|
  {
    hide AtOrAbove;
    var n := |factors| - 1;
    if !(factors[n].FileFactor? && AtOrAbove(factors[n].key, q)) {
      assert factors == factors[..n] + [factors[n]];
      LastOverIsThere(factors[..n], f, q);
    }
  }

  lemma CompleteCarries(name: FactorName, good: Capture, bad: Capture, useGood: bool, all: seq<Factor>)
    requires Complete(name, good, bad, all)
    ensures Carries(if useGood then bad else good, if useGood then good else bad, useGood, all)
  {
    hide EntryMap;
    forall f | f in all ensures f in AllFactors(name, good, bad) {}
  }

  /** The whole sequence of factors restores the other world: what a caller can decide from the captures and the factor list. */
  ghost predicate Restoring(base: Capture, source: Capture, all: seq<Factor>) {
    Unblocked(base, source, all) && forall q :: q in Entries(source) ==> Restored(source, all, q)
  }

  /**
   * All factors together turn one world into the other, in tree and environment, if and only if no factor is applied
   * below something that is not a directory and every path of the other world is restored after the last replacement
   * of a directory above it. Differing directories are allowed; the order of the factors is the one given.
   */
  lemma {:induction false} AllFactorsRestoreIff(blobs: Blobs, name: FactorName, good: Capture, bad: Capture, useGood: bool, all: seq<Factor>)
    requires Worlds(blobs, good, bad) && Complete(name, good, bad, all)
    ensures var base, source := if useGood then bad else good, if useGood then good else bad;
            SetupOf(blobs, base, useGood, all) == Setup(source.environment, TreeIn(blobs, source), None) <==> Restoring(base, source, all)
  {
    hide ApplyFactors, NodeAfter, Unblocked, Restored, TreeIn, Entries, Mix, Carries, Complete;
    var base, source := if useGood then bad else good, if useGood then good else bad;
    MaterializeIsExact(blobs, base.workspace.entries);
    assert MaterializeOf(blobs, base.workspace.entries) == Applied(TreeIn(blobs, base), None) by { TreeIsBuilt(blobs, base); }
    CompleteCarries(name, good, bad, useGood, all);
    AllInStep(blobs, base, source, useGood, all);
    EnvironmentAtEnd(name, good, bad, useGood, all);
    var world := SetupOf(blobs, base, useGood, all);
    if world.failure.None? {
      forall q ensures Lookup(world.tree, q) == Lookup(TreeIn(blobs, source), q) <==> (q in Entries(source) ==> Restored(source, all, q)) {
        PathHasFactor(blobs, name, good, bad, useGood, all, q);
        PathAtEnd(blobs, base, source, all, q);
      }
      if forall q :: q in Entries(source) ==> Restored(source, all, q) {
        SameLookups(world.tree, TreeIn(blobs, source));
      }
    }
  }

  lemma TreeIsBuilt(blobs: Blobs, c: Capture)
    requires WellFormed(c) && Buildable(blobs, c)
    ensures MaterializeOf(blobs, c.workspace.entries) == Applied(TreeIn(blobs, c), None)
  {
    MaterializeIsExact(blobs, c.workspace.entries);
  }

  lemma PathHasFactor(blobs: Blobs, name: FactorName, good: Capture, bad: Capture, useGood: bool, all: seq<Factor>, q: string)
    requires Worlds(blobs, good, bad) && Complete(name, good, bad, all)
    ensures Lookup(TreeIn(blobs, good), q) == Lookup(TreeIn(blobs, bad), q) || exists f :: f in all && f.FileFactor? && f.key == q
  {
    hide TreeIn, AllFactors;
    if PathDiffers(good, bad, q) {
      assert FileFactorOf(name, good, bad, q) in all;
    } else {
      SamePathSameNode(blobs, good, bad, q);
    }
  }

  lemma EnvironmentAtEnd(name: FactorName, good: Capture, bad: Capture, useGood: bool, all: seq<Factor>)
    requires Complete(name, good, bad, all)
    ensures var base, source := if useGood then bad else good, if useGood then good else bad;
            Mix(base.environment, source.environment, EnvKeysOf(all)) == source.environment
  {
    hide AllFactors, PathDiffers;
    var base, source := if useGood then bad else good, if useGood then good else bad;
    forall k | k !in EnvKeysOf(all) ensures Lookup(base.environment, k) == Lookup(source.environment, k) {
      if EnvDiffers(good, bad, k) { assert EnvFactorOf(name, good, bad, k) in all; }
    }
    MixComplement(base.environment, source.environment, EnvKeysOf(all), {});
    MixNothing(source.environment, base.environment);
  }

  // ----- where it fails -----

  /**
   * A directory that differs, say in its mode, takes its whole contents with it: with an unchanged file
   * below such a directory, applying all factors never gives the other world.
   */
  lemma DifferingDirectoryLosesItsContents(blobs: Blobs, name: FactorName, good: Capture, bad: Capture, useGood: bool, all: seq<Factor>, p: string, q: string)
    requires Worlds(blobs, good, bad) && Complete(name, good, bad, all)
    requires PathDiffers(good, bad, p) && p in Ancestors(q)
    requires q in Entries(good) && q in Entries(bad) && !PathDiffers(good, bad, q) && !Entries(good)[q].kind.Directory?
    ensures var base, source := if useGood then bad else good, if useGood then good else bad;
            SetupOf(blobs, base, useGood, all) != Setup(source.environment, TreeIn(blobs, source), None)
  {
    hide SetupOf, TreeIn, Unblocked, WellFormed, Buildable;
    var base, source := if useGood then bad else good, if useGood then good else bad;
    AllFactorsRestoreIff(blobs, name, good, bad, useGood, all);
    assert FileFactorOf(name, good, bad, p) in all;
    LastOverIsThere(all, FileFactorOf(name, good, bad, p), q);
    assert all[LastOver(all, q)] in AllFactors(name, good, bad);
    assert !Restored(source, all, q);
  }

  /** A world with one directory, of this mode, and one file in it. */
  function Small(id: string, mode: nat, oracle: Oracle): Capture {
    Capture(id, [], map[], 0, oracle,
            Manifest([Entry("d", Directory, mode, 0, "", "", ""), Entry("d/f", RegularFile, 420, 0, "x", "x", "")], ""), {}, "", 1)
  }

  lemma OneLetter(s: string)
    requires |s| == 1 && s[0] != '/'
    ensures SplitSlash(s) == [s]
  {
    assert s[1..] == "" && SplitSlash("") == [""] && [s[0]] + "" == s;
  }

  lemma SmallAncestors()
    ensures Ancestors("d") == {} && Ancestors("d/f") == {"d"}
    ensures Safe("d") && Safe("d/f")
  {
    assert "d/f"[1] == '/' && "d/f"[..1] == "d";
    assert SplitSlash("") == [""];
    assert "d"[1..] == "" && "f"[1..] == "" && "d/f"[1..] == "/f" && "/f"[1..] == "f";
    OneLetter("d");
    OneLetter("f");
    assert SplitSlash("/f") == ["", "f"];
    assert SplitSlash("d/f") == ["d", "f"];
  }

  lemma SmallEntries(id: string, mode: nat, oracle: Oracle)
    ensures var c := Small(id, mode, oracle);
            && c.workspace.entries[0].path == "d" && c.workspace.entries[1].path == "d/f"
            && Entries(c) == map["d" := c.workspace.entries[0], "d/f" := c.workspace.entries[1]]
  {
    var es := Small(id, mode, oracle).workspace.entries;
    assert es[..1] == [es[0]] && [es[0]][..0] == [];
    assert EntryMap([es[0]]) == map["d" := es[0]];
  }

  lemma SmallIsBuildable(blobs: Blobs, id: string, mode: nat, oracle: Oracle)
    requires "x" in blobs
    ensures WellFormed(Small(id, mode, oracle)) && Buildable(blobs, Small(id, mode, oracle))
  {
    hide Safe, Ancestors;
    SmallAncestors();
    var c := Small(id, mode, oracle);
    assert c.workspace.entries[0] in c.workspace.entries;
  }

  /**
   * The smallest case: one directory whose mode was 0755 and is 0700, with one unchanged file in it. The directory
   * is the only factor, and applying it does not give the good world.
   */
  lemma ModeChangeLosesTheFile(blobs: Blobs, name: FactorName, oracle: Oracle)
    requires "x" in blobs
    ensures var good, bad := Small("good", 448, oracle), Small("bad", 493, oracle);
            var all := [FileFactorOf(name, good, bad, "d")];
            && Worlds(blobs, good, bad) && Complete(name, good, bad, all)
            && SetupOf(blobs, bad, true, all) != Setup(good.environment, TreeIn(blobs, good), None)
  {
    hide SetupOf, WellFormed, Buildable, EntryMap, TreeIn, Safe, Ancestors;
    var good, bad := Small("good", 448, oracle), Small("bad", 493, oracle);
    var all := [FileFactorOf(name, good, bad, "d")];
    SmallAncestors();
    SmallEntries("good", 448, oracle);
    SmallEntries("bad", 493, oracle);
    SmallIsBuildable(blobs, "good", 448, oracle);
    SmallIsBuildable(blobs, "bad", 493, oracle);
    SmallDifference(name, oracle);
    DifferingDirectoryLosesItsContents(blobs, name, good, bad, true, all, "d", "d/f");
  }

  lemma SmallDifference(name: FactorName, oracle: Oracle)
    ensures var good, bad := Small("good", 448, oracle), Small("bad", 493, oracle);
            && Complete(name, good, bad, [FileFactorOf(name, good, bad, "d")])
            && PathDiffers(good, bad, "d") && !PathDiffers(good, bad, "d/f")
  {
    hide EntryMap;
    var good, bad := Small("good", 448, oracle), Small("bad", 493, oracle);
    SmallEntries("good", 448, oracle);
    SmallEntries("bad", 493, oracle);
    assert "d" in Paths(good, bad);
    assert FileFactorOf(name, good, bad, "d") in FileFactors(name, good, bad, Paths(good, bad));
  }
}
