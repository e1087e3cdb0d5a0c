/** The bounded memo table of experiment records (internal/store/experiment_cache.go). */
module ExperimentCache {
  import opened Ordering

  const MAX_CACHE_BYTES := 64 * 1024 * 1024

  /** A cache file: what it decodes to, and its length in bytes. */
  datatype CacheFile<R> =
    | Stored(key: string, complete: bool, record: R, size: nat)
    | Undecodable(size: nat)

  /** The cache directory, by file name without the `.json` suffix. */
  type Files<R> = map<string, CacheFile<R>>

  datatype Loaded<R> = Loaded(files: Files<R>, found: Option<R>)
  datatype Saved<R> = Saved(files: Files<R>, ok: bool)

  predicate HexDigit(c: char) { '0' <= c <= '9' || 'a' <= c <= 'f' || 'A' <= c <= 'F' }

  predicate ValidDigest(key: string) {
    |key| == 64 && forall c :: c in key ==> HexDigit(c)
  }

  // ----- specification -----

  predicate Usable<R>(file: CacheFile<R>, key: string) {
    file.Stored? && file.key == key && file.complete
  }

  function LoadOf<R>(files: Files<R>, key: string): Loaded<R> {
    if !ValidDigest(key) || key !in files then Loaded(files, None)
    else if Usable(files[key], key) then Loaded(files, Some(files[key].record))
    else Loaded(files - {key}, None)
  }

  /** Bytes held by those of `names` that are still present. */
  function TotalOf<R>(files: Files<R>, names: seq<string>): nat {
    if names == [] then 0
    else (if names[0] in files then files[names[0]].size else 0) + TotalOf(files, names[1..])
  }

  /** Removes files in name order, sparing `preserve`, for as long as more than the limit is held. */
  function Evict<R>(files: Files<R>, names: seq<string>, preserve: string, total: int): Files<R>
    decreases |names|
  {
    if names == [] then files
    else if total <= MAX_CACHE_BYTES || names[0] == preserve || names[0] !in files then Evict(files, names[1..], preserve, total)
    else Evict(files - {names[0]}, names[1..], preserve, total - files[names[0]].size)
  }

  /** Writes the entry, then prunes in file-name order, sparing it. */
  function SaveOf<R>(files: Files<R>, key: string, record: R, size: nat): Saved<R> {
    if !ValidDigest(key) || size > MAX_CACHE_BYTES then Saved(files, false)
    else
      var written := files[key := Stored(key, true, record, size)];
      var names := SortedSet(written.Keys);
      Saved(Evict(written, names, key, TotalOf(written, names)), true)
  }

  function TotalBytes<R>(files: Files<R>): nat { TotalOf(files, SortedSet(files.Keys)) }

  // ----- properties -----

  lemma {:induction false} TotalWithout<R>(files: Files<R>, names: seq<string>, k: string)
    requires k in files && Distinct(names)
    ensures TotalOf(files - {k}, names) == TotalOf(files, names) - if k in names then files[k].size else 0
    decreases |names|
  {
    if names != [] {
      TotalWithout(files, names[1..], k);
      assert names[0] == k ==> k !in names[1..];
    }
  }

  lemma {:induction false} TotalOfOne<R>(files: Files<R>, names: seq<string>, k: string)
    requires Distinct(names) && k in files && forall n :: n in names && n in files ==> n == k
    ensures TotalOf(files, names) <= files[k].size
    decreases |names|
  {
    if names != [] {
      if names[0] == k {
        assert k !in names[1..];
        TotalOfNone(files, names[1..]);
      } else {
        assert names[0] in names;
        TotalOfOne(files, names[1..], k);
      }
    }
  }

  lemma {:induction false} TotalOfNone<R>(files: Files<R>, names: seq<string>)
    requires forall n :: n in names ==> n !in files
    ensures TotalOf(files, names) == 0
    decreases |names|
  {
    if names != [] {
      assert names[0] in names;
      TotalOfNone(files, names[1..]);
    }
  }

  /** One pass: nothing is altered, and either the limit is met or all of `todo` but `preserve` is gone. */
  lemma {:induction false} EvictLaw<R>(files: Files<R>, all: seq<string>, todo: seq<string>, preserve: string, total: int)
    requires Distinct(all) && Distinct(todo) && (forall n :: n in todo ==> n in all)
    requires total == TotalOf(files, all)
    ensures var after := Evict(files, todo, preserve, total);
            && (forall k :: k in after ==> k in files && after[k] == files[k])
            && (forall k :: k in files && k !in todo ==> k in after)
            && (preserve in files ==> preserve in after)
            && (TotalOf(after, all) <= MAX_CACHE_BYTES || forall k :: k in after && k in todo ==> k == preserve)
    decreases |todo|
  {
    if todo != [] {
      var name := todo[0];
      assert name in todo && name !in todo[1..];
      if total <= MAX_CACHE_BYTES || name == preserve || name !in files {
        EvictLaw(files, all, todo[1..], preserve, total);
        if total <= MAX_CACHE_BYTES { EvictIdle(files, todo[1..], preserve, total); }
      } else {
        TotalWithout(files, all, name);
        EvictLaw(files - {name}, all, todo[1..], preserve, total - files[name].size);
      }
    }
  }

  lemma {:induction false} EvictIdle<R>(files: Files<R>, todo: seq<string>, preserve: string, total: int)
    requires total <= MAX_CACHE_BYTES
    ensures Evict(files, todo, preserve, total) == files
    decreases |todo|
  {
    if todo != [] { EvictIdle(files, todo[1..], preserve, total); }
  }

  /** Evicting down to one file that fits always reaches the limit. */
  lemma EvictFits<R>(files: Files<R>, names: seq<string>, preserve: string)
    requires Lists(names, files.Keys) && preserve in files && files[preserve].size <= MAX_CACHE_BYTES
    ensures var after := Evict(files, names, preserve, TotalOf(files, names));
            && TotalOf(after, names) <= MAX_CACHE_BYTES && preserve in after
            && (forall k :: k in after ==> k in files && after[k] == files[k])
  {
    var after := Evict(files, names, preserve, TotalOf(files, names));
    StrictlyOrderedIsDistinct(names);
    EvictLaw(files, names, names, preserve, TotalOf(files, names));
    if TotalOf(after, names) > MAX_CACHE_BYTES {
      TotalOfOne(after, names, preserve);
      assert false;
    }
  }

  /** Names of absent files add nothing to the total. */
  lemma {:induction false} TotalOfPresent<R>(files: Files<R>, names: seq<string>, present: seq<string>)
    requires StrictlyOrdered(names, StringLess) && StrictlyOrdered(present, StringLess)
    requires forall k :: k in present <==> k in names && k in files
    ensures TotalOf(files, names) == TotalOf(files, present)
    decreases |names|
  {
    if names == [] {
      assert forall i :: 0 <= i < |present| ==> present[i] in present;
    } else {
      var name, rest := names[0], names[1..];
      assert names == [name] + rest;
      StrictlyOrderedIsDistinct(names);
      if name in files {
        FirstIsLeast(names, present);
        StrictlyOrderedIsDistinct(present);
        assert present == [name] + present[1..];
        forall k ensures k in present[1..] <==> k in rest && k in files {
          assert k in present <==> k == name || k in present[1..];
          assert k in names <==> k == name || k in rest;
          assert name !in present[1..] && name !in rest;
        }
        TotalOfPresent(files, rest, present[1..]);
      } else {
        TotalOfPresent(files, rest, present);
      }
    }
  }

  lemma FirstIsLeast(names: seq<string>, present: seq<string>)
    requires StrictlyOrdered(names, StringLess) && StrictlyOrdered(present, StringLess)
    requires names != [] && names[0] in present && forall k :: k in present ==> k in names
    ensures present[0] == names[0]
  {
    var i :| 0 <= i < |present| && present[i] == names[0];
    assert present[0] in names;
    var j :| 0 <= j < |names| && names[j] == present[0];
    if i > 0 && j > 0 { StringLessTransitive(names[0], present[0], names[0]); StringLessIrreflexive(names[0]); }
    if i > 0 && j == 0 { StringLessIrreflexive(names[0]); }
  }

  /**
   * After a successful save the cache holds at most 64 MiB, the new entry is there to be loaded, and
   * every other surviving file is untouched. The fallback that would delete the new entry is unreachable.
   */
  lemma SaveKeepsBoundAndEntry<R>(files: Files<R>, key: string, record: R, size: nat)
    requires SaveOf(files, key, record, size).ok
    ensures var after := SaveOf(files, key, record, size).files;
            && TotalBytes(after) <= 67_108_864
            && LoadOf(after, key) == Loaded(after, Some(record))
            && (forall k :: k in after && k != key ==> k in files && after[k] == files[k])
  {
    var written := files[key := Stored(key, true, record, size)];
    var names := SortedSet(written.Keys);
    var after := SaveOf(files, key, record, size).files;
    EvictFits(written, names, key);
    TotalOfPresent(after, names, SortedSet(after.Keys));
  }

  /** An entry is saved exactly if its key is 64 hexadecimal digits and it takes at most 64 MiB. */
  lemma SavedIff<R>(files: Files<R>, key: string, record: R, size: nat)
    ensures SaveOf(files, key, record, size).ok <==>
      |key| == 64 && size <= 67_108_864 && forall c :: c in key ==> '0' <= c <= '9' || 'a' <= c <= 'f' || 'A' <= c <= 'F'
    ensures !SaveOf(files, key, record, size).ok ==> SaveOf(files, key, record, size).files == files
  {}

  /** Exactly a complete record stored under its own key of 64 hexadecimal digits is found; any other file under such a key is removed. */
  lemma FoundIff<R>(files: Files<R>, key: string, record: R)
    ensures var hex := |key| == 64 && forall c :: c in key ==> '0' <= c <= '9' || 'a' <= c <= 'f' || 'A' <= c <= 'F';
            var loaded := LoadOf(files, key);
            && (loaded.found == Some(record) <==> hex && key in files && exists size :: files[key] == Stored(key, true, record, size))
            && (forall k :: k in loaded.files <==> k in files && (k != key || !hex || loaded.found.Some?))
            && (forall k :: k in loaded.files ==> loaded.files[k] == files[k])
  {
    if key in files && files[key].Stored? { assert files[key] == Stored(files[key].key, files[key].complete, files[key].record, files[key].size); }
  }

  /** `gone` is the last file evicted, and the others without it would not have met the limit. */
  ghost predicate NeededLast<R>(before: Files<R>, after: Files<R>, gone: string, kept: nat) {
    && gone in before && gone !in after && kept + before[gone].size > 67_108_864
    && forall k :: k in before && k !in after ==> k == gone || StringLess(k, gone)
  }

  lemma {:induction false} EvictNeeded<R>(files: Files<R>, all: seq<string>, todo: seq<string>, preserve: string, total: int) returns (gone: string)
    requires Distinct(all) && StrictlyOrdered(todo, StringLess) && (forall n :: n in todo ==> n in all)
    requires total == TotalOf(files, all)
    ensures var after := Evict(files, todo, preserve, total);
            after == files || (gone in todo && NeededLast(files, after, gone, TotalOf(after, all)))
    decreases |todo|
  {
    gone := "";
    if todo != [] {
      var name, rest := todo[0], todo[1..];
      assert name in todo;
      if total <= MAX_CACHE_BYTES || name == preserve || name !in files {
        gone := EvictNeeded(files, all, rest, preserve, total);
      } else {
        TotalWithout(files, all, name);
        gone := EvictNeeded(files - {name}, all, rest, preserve, total - files[name].size);
        var after := Evict(files - {name}, rest, preserve, total - files[name].size);
        if after == files - {name} {
          gone := name;
        } else {
          var i :| 0 <= i < |rest| && rest[i] == gone;
          assert StringLess(todo[0], todo[i+1]);
        }
      }
    }
  }

  /** A save evicts nothing from a cache within 64 MiB, and otherwise no file more than it takes to get there. */
  lemma SaveEvictsOnlyAsNeeded<R>(files: Files<R>, key: string, record: R, size: nat)
    requires SaveOf(files, key, record, size).ok
    ensures var before, after := files[key := Stored(key, true, record, size)], SaveOf(files, key, record, size).files;
            after == before || exists gone :: NeededLast(before, after, gone, TotalBytes(after))
  {
    hide Evict, TotalOf, NeededLast, StringLess;
    var before, after := files[key := Stored(key, true, record, size)], SaveOf(files, key, record, size).files;
    var names := SortedSet(before.Keys);
    StrictlyOrderedIsDistinct(names);
    EvictLaw(before, names, names, key, TotalOf(before, names));
    TotalOfPresent(after, names, SortedSet(after.Keys));
    var gone := EvictNeeded(before, names, names, key, TotalOf(before, names));
    assert after == Evict(before, names, key, TotalOf(before, names));
    assert TotalBytes(after) == TotalOf(after, names);
    assert after == before || NeededLast(before, after, gone, TotalBytes(after));
  }

  /** Eviction goes by key order: whatever was evicted precedes every other file that survived. */
  lemma {:induction false} EvictionIsInOrder<R>(files: Files<R>, todo: seq<string>, preserve: string, total: int, gone: string, kept: string)
    requires StrictlyOrdered(todo, StringLess) && gone in todo && kept in todo && gone in files && kept != preserve
    requires gone !in Evict(files, todo, preserve, total) && kept in Evict(files, todo, preserve, total)
    ensures StringLess(gone, kept)
    decreases |todo|
  {
    StrictlyOrderedIsDistinct(todo);
    var name := todo[0];
    assert name !in todo[1..];
    if total <= MAX_CACHE_BYTES {
      EvictIdle(files, todo, preserve, total);
      assert false;
    } else if name == gone {
      var i :| 0 <= i < |todo| && todo[i] == kept;
      assert i > 0;
    } else if name == kept {
      if kept in files {
        EvictKeepsOut(files - {kept}, todo[1..], preserve, total - files[kept].size, kept);
      } else {
        EvictKeepsOut(files, todo, preserve, total, kept);
      }
      assert false;
    } else {
      EvictionIsInOrder(if name == preserve || name !in files then files else files - {name}, todo[1..], preserve,
                        if name == preserve || name !in files then total else total - files[name].size, gone, kept);
    }
  }

  lemma {:induction false} EvictKeepsOut<R>(files: Files<R>, todo: seq<string>, preserve: string, total: int, k: string)
    requires k !in files
    ensures k !in Evict(files, todo, preserve, total)
    decreases |todo|
  {
    if todo != [] {
      if total <= MAX_CACHE_BYTES || todo[0] == preserve || todo[0] !in files {
        EvictKeepsOut(files, todo[1..], preserve, total, k);
      } else {
        EvictKeepsOut(files - {todo[0]}, todo[1..], preserve, total - files[todo[0]].size, k);
      }
    }
  }

  lemma EvictOne<R>(files: Files<R>, paths: seq<string>, i: nat, preserve: string, total: int)
    requires Distinct(paths) && i < |paths| && paths[i] in files && total == TotalOf(files, paths)
    ensures total <= MAX_CACHE_BYTES || paths[i] == preserve ==>
      Evict(files, paths[i..], preserve, total) == Evict(files, paths[i+1..], preserve, total)
    ensures total > MAX_CACHE_BYTES && paths[i] != preserve ==>
      && Evict(files, paths[i..], preserve, total)
         == Evict(files - {paths[i]}, paths[i+1..], preserve, total - files[paths[i]].size)
      && TotalOf(files - {paths[i]}, paths) == total - files[paths[i]].size
  {
    TotalWithout(files, paths, paths[i]);
    assert paths[i..][0] == paths[i] && paths[i..][1..] == paths[i+1..];
  }

  // ----- the program -----

  class Cache<R(==)> {
    var files: Files<R>

    constructor ()
      ensures files == map[]
    {
      files := map[];
    }

    method Load(key: string) returns (found: Option<R>)
      modifies this
      ensures Loaded(files, found) == LoadOf(old(files), key)
    {
      found := None;
      if !ValidDigest(key) || key !in files {
        return;
      }
      var entry := files[key];
      if entry.Undecodable? || entry.key != key || !entry.complete {
        files := files - {key};
        return;
      }
      found := Some(entry.record);
    }

    method Save(key: string, record: R, size: nat) returns (ok: bool)
      modifies this
      ensures Saved(files, ok) == SaveOf(old(files), key, record, size)
    {
      if !ValidDigest(key) || size > MAX_CACHE_BYTES {
        return false;
      }
      files := files[key := Stored(key, true, record, size)];
      ghost var names;
      ok, names := Prune(key);
      SortedSetIsUnique(names, old(files)[key := Stored(key, true, record, size)].Keys);
    }

    method TotalSize(paths: seq<string>) returns (total: int)
      requires forall k :: k in paths ==> k in files
      ensures total == TotalOf(files, paths)
    {
      total := 0;
      for i := 0 to |paths|
        invariant total + TotalOf(files, paths[i..]) == TotalOf(files, paths)
      {
        assert paths[i] in paths;
        total := total + files[paths[i]].size;
      }
    }

    /** The pruning loop: removes files in order until the limit is met. */
    method EvictInOrder(preserve: string, paths: seq<string>, held: int) returns (total: int)
      requires Lists(paths, files.Keys) && held == TotalOf(files, paths)
      modifies this
      ensures files == Evict(old(files), paths, preserve, held) && total == TotalOf(files, paths)
    {
      total := held;
      StrictlyOrderedIsDistinct(paths);
      assert paths[0..] == paths;
      for i := 0 to |paths|
        invariant Evict(files, paths[i..], preserve, total) == Evict(old(files), paths, preserve, held)
        invariant total == TotalOf(files, paths)
        invariant forall j :: i <= j < |paths| ==> paths[j] in files
      {
        EvictOne(files, paths, i, preserve, total);
        if total <= MAX_CACHE_BYTES || paths[i] == preserve {
          continue;
        }
        total := total - files[paths[i]].size;
        files := files - {paths[i]};
      }
    }

    method Prune(preserve: string) returns (ok: bool, ghost names: seq<string>)
      requires preserve in files && files[preserve].size <= MAX_CACHE_BYTES
      modifies this
      ensures Lists(names, old(files).Keys)
      ensures ok && files == Evict(old(files), names, preserve, TotalOf(old(files), names))
    {
      var paths := SortedKeys(files.Keys);
      names := paths;
      var total := TotalSize(paths);
      EvictFits(files, paths, preserve);
      total := EvictInOrder(preserve, paths, total);
      if total > MAX_CACHE_BYTES {
        assert false;
      }
      ok := true;
    }
  }
}
