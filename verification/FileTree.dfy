/**
 * Workspaces (internal/workspace/workspace.go) on an abstract filesystem: a map from
 * slash-separated relative paths to nodes. The root directory is implicit.
 */
module FileTree {
  import opened Ordering

  datatype Node = File(perm: nat, content: string) | Dir(perm: nat) | Link(target: string)
  type Tree = map<string, Node>

  datatype EntryKind = RegularFile | Directory | Symlink | Unsupported
  datatype Entry = Entry(path: string, kind: EntryKind, mode: nat, size: nat, digest: string, blobDigest: string, linkTarget: string)
  {
    predicate Supported() { !kind.Unsupported? }

    /** The source's `Equal`: everything but the recorded size. */
    predicate SameAs(other: Entry) {
      && path == other.path && kind == other.kind && mode == other.mode
      && digest == other.digest && blobDigest == other.blobDigest && linkTarget == other.linkTarget
    }
  }

  type Blobs = map<string, string>

  datatype Failure = UnsafePath | BadLinkTarget | NotADirectory | BlobMissing | UnsupportedType
  datatype Applied = Applied(tree: Tree, failure: Option<Failure>)

  // ----- paths -----

  function SplitSlash(s: string): (parts: seq<string>)
    ensures parts != []
  {
    if s == "" then [""]
    else
      var rest := SplitSlash(s[1..]);
      if s[0] == '/' then [""] + rest else [[s[0]] + rest[0]] + rest[1..]
  }

  /** A relative path that `filepath.Clean` leaves alone and that stays below the root. */
  predicate Safe(path: string) {
    && path != "" && '\\' !in path
    && forall part :: part in SplitSlash(path) ==> part != "" && part != "." && part != ".."
  }

  /** The proper ancestor directories of a path, below the root. */
  function Ancestors(path: string): set<string> {
    set i | 0 <= i < |path| && path[i] == '/' :: path[..i]
  }

  /** `strings.Count(path, "/")`. */
  function Depth(path: string): nat {
    if path == "" then 0
    else Depth(path[..|path|-1]) + if path[|path|-1] == '/' then 1 else 0
  }

  lemma {:induction false} DepthOfPrefix(path: string, i: nat)
    requires i <= |path|
    ensures Depth(path[..i]) <= Depth(path)
    ensures i < |path| && path[i] == '/' ==> Depth(path[..i]) < Depth(path)
    decreases |path|
  {
    if i < |path| {
      var shorter := path[..|path|-1];
      DepthOfPrefix(shorter, i);
      assert shorter[..i] == path[..i];
    } else {
      assert path[..i] == path;
    }
  }

  lemma AncestorIsShallower(a: string, path: string)
    requires a in Ancestors(path)
    ensures Depth(a) < Depth(path) && a != path
  {
    var i :| 0 <= i < |path| && path[i] == '/' && a == path[..i];
    DepthOfPrefix(path, i);
  }

  /** Walks a link target from directory depth `depth`; false once it climbs above the root. */
  predicate StaysInside(depth: nat, parts: seq<string>)
    decreases |parts|
  {
    if parts == [] then true
    else if parts[0] == "" || parts[0] == "." then StaysInside(depth, parts[1..])
    else if parts[0] == ".." then depth > 0 && StaysInside(depth - 1, parts[1..])
    else StaysInside(depth + 1, parts[1..])
  }

  predicate LinkTargetOk(path: string, target: string) {
    && target != "" && target[0] != '/' && '\\' !in target
    && StaysInside(Depth(path), SplitSlash(target))
  }

  lemma {:induction false} DepthFromFront(s: string)
    requires s != ""
    ensures Depth(s) == (if s[0] == '/' then 1 else 0) + Depth(s[1..])
    decreases |s|
  {
    if |s| > 1 {
      var shorter := s[..|s|-1];
      DepthFromFront(shorter);
      assert shorter[1..] == s[1..][..|s|-2];
    } else {
      assert s[..0] == "" && s[1..] == "";
    }
  }

  lemma {:induction false} DepthIsParts(path: string)
    ensures |SplitSlash(path)| == Depth(path) + 1
    decreases |path|
  {
    if path != "" {
      DepthFromFront(path);
      DepthIsParts(path[1..]);
    }
  }

  // ----- applying one entry -----

  function Perm(mode: nat): nat { mode % 512 }

  predicate BlockedByFile(tree: Tree, path: string) {
    exists a :: a in tree && a in Ancestors(path) && !tree[a].Dir?
  }

  /** `removeExisting`: a directory goes with everything below it. */
  function RemoveExisting(tree: Tree, path: string): Tree {
    map q | q in tree && q != path && path !in Ancestors(q) :: tree[q]
  }

  /** `os.MkdirAll` on the parent directory, mode 0755. */
  function MakeParents(tree: Tree, path: string): Tree {
    map q | q in tree.Keys + Ancestors(path) :: if q in tree then tree[q] else Dir(493)
  }

  /** Whether `Apply` can write this entry wherever it is put. */
  predicate Writable(blobs: Blobs, entry: Entry) {
    && Safe(entry.path) && entry.Supported()
    && (entry.kind.Symlink? ==> LinkTargetOk(entry.path, entry.linkTarget))
    && (entry.kind.RegularFile? ==> entry.blobDigest in blobs)
  }

  function NodeOf(blobs: Blobs, entry: Entry): Node
    requires entry.Supported() && (entry.kind.RegularFile? ==> entry.blobDigest in blobs)
  {
    match entry.kind
    case RegularFile => File(Perm(entry.mode), blobs[entry.blobDigest])
    case Directory => Dir(Perm(entry.mode))
    case Symlink => Link(entry.linkTarget)
  }

  function ApplyTo(blobs: Blobs, tree: Tree, path: string, entry: Option<Entry>): Applied {
    if !Safe(path) then Applied(tree, Some(UnsafePath))
    else if entry.Some? && entry.value.kind.Symlink? && !LinkTargetOk(path, entry.value.linkTarget) then
      Applied(tree, Some(BadLinkTarget))
    else if BlockedByFile(tree, path) then Applied(tree, Some(NotADirectory))
    else
      var cleared := RemoveExisting(tree, path);
      if entry.None? then Applied(cleared, None)
      else
        var ready := MakeParents(cleared, path);
        match entry.value.kind
        case Unsupported => Applied(ready, Some(UnsupportedType))
        case RegularFile =>
          if entry.value.blobDigest !in blobs then Applied(ready, Some(BlobMissing))
          else Applied(ready[path := NodeOf(blobs, entry.value)], None)
        case _ => Applied(ready[path := NodeOf(blobs, entry.value)], None)
  }

  // ----- building a whole manifest -----

  predicate EntryBefore(a: Entry, b: Entry) {
    Depth(a.path) < Depth(b.path) || (Depth(a.path) == Depth(b.path) && StringLess(a.path, b.path))
  }

  function ApplyEach(blobs: Blobs, tree: Tree, entries: seq<Entry>): Applied
    decreases |entries|
  {
    if entries == [] then Applied(tree, None)
    else
      var first := ApplyTo(blobs, tree, entries[0].path, Some(entries[0]));
      if first.failure.Some? then first else ApplyEach(blobs, first.tree, entries[1..])
  }

  function MaterializeOf(blobs: Blobs, entries: seq<Entry>): Applied {
    ApplyEach(blobs, map[], SortBy(entries, EntryBefore))
  }

  // ----- well-formed manifests -----

  ghost predicate UniquePaths(entries: seq<Entry>) {
    forall i, j :: 0 <= i < j < |entries| ==> entries[i].path != entries[j].path
  }

  /** Every proper ancestor of an entry is listed, as a directory: what a scan of a real tree yields. */
  ghost predicate ParentsListed(entries: seq<Entry>) {
    forall e, a :: e in entries && a in Ancestors(e.path) ==>
      exists d :: d in entries && d.path == a && d.kind.Directory?
  }

  ghost predicate AllWritable(blobs: Blobs, entries: seq<Entry>) {
    forall e :: e in entries ==> Writable(blobs, e)
  }

  /** `EntryMap`. */
  function EntryMap(entries: seq<Entry>): map<string, Entry> {
    if entries == [] then map[]
    else EntryMap(entries[..|entries|-1])[entries[|entries|-1].path := entries[|entries|-1]]
  }

  lemma {:induction false} EntryMapIs(entries: seq<Entry>)
    requires UniquePaths(entries)
    ensures forall e :: e in entries ==> e.path in EntryMap(entries) && EntryMap(entries)[e.path] == e
    ensures forall p :: p in EntryMap(entries) ==> EntryMap(entries)[p] in entries && EntryMap(entries)[p].path == p
    decreases |entries|
  {
    if entries != [] {
      var front := entries[..|entries|-1];
      EntryMapIs(front);
      assert entries == front + [entries[|entries|-1]];
    }
  }

  /** The tree a manifest describes. */
  ghost function TreeOf(blobs: Blobs, entries: seq<Entry>): Tree
    requires AllWritable(blobs, entries) && UniquePaths(entries)
  {
    EntryMapIs(entries);
    map p | p in EntryMap(entries) :: NodeOf(blobs, EntryMap(entries)[p])
  }

  // ----- what applying does -----

  /** Where every parent is a directory and nothing lies below, `Apply` is a plain map update. */
  ghost predicate Exposed(tree: Tree, path: string) {
    && (forall a :: a in Ancestors(path) ==> a in tree && tree[a].Dir?)
    && (forall q :: q in tree ==> path !in Ancestors(q))
  }

  lemma ApplyIsUpdate(blobs: Blobs, tree: Tree, path: string, entry: Option<Entry>)
    requires Safe(path) && Exposed(tree, path)
    requires entry.Some? ==> Writable(blobs, entry.value) && entry.value.path == path
    ensures ApplyTo(blobs, tree, path, entry)
         == Applied(if entry.Some? then tree[path := NodeOf(blobs, entry.value)] else tree - {path}, None)
  {
    assert RemoveExisting(tree, path) == tree - {path};
    if entry.Some? {
      var ready := MakeParents(tree - {path}, path);
      forall a | a in Ancestors(path) ensures a != path { AncestorIsShallower(a, path); }
      assert ready == tree - {path};
      assert ready[path := NodeOf(blobs, entry.value)] == tree[path := NodeOf(blobs, entry.value)];
    }
  }

  /** Otherwise it is not: it fails, or adds parents that were missing, or takes away what lies below the path. */
  lemma ApplyIsUpdateOnlyWhenExposed(blobs: Blobs, tree: Tree, path: string, entry: Entry)
    requires Writable(blobs, entry) && entry.path == path
    ensures ApplyTo(blobs, tree, path, Some(entry)) == Applied(tree[path := NodeOf(blobs, entry)], None) <==> Exposed(tree, path)
  {
    var after := ApplyTo(blobs, tree, path, Some(entry));
    if Exposed(tree, path) {
      ApplyIsUpdate(blobs, tree, path, Some(entry));
    } else if after == Applied(tree[path := NodeOf(blobs, entry)], None) {
      forall a | a in Ancestors(path) ensures a in tree && tree[a].Dir? {
        AncestorIsShallower(a, path);
        assert a in after.tree;
      }
      forall q | q in tree ensures path !in Ancestors(q) {
        assert q in after.tree;
        if path in Ancestors(q) {
          AncestorIsShallower(path, q);
          GoneBelow(blobs, tree, path, Some(entry), q);
        }
      }
    }
  }

  /** Whatever it writes, `Apply` leaves nothing below its path. */
  lemma GoneBelow(blobs: Blobs, tree: Tree, path: string, entry: Option<Entry>, q: string)
    requires ApplyTo(blobs, tree, path, entry).failure.None? && path in Ancestors(q)
    ensures q !in ApplyTo(blobs, tree, path, entry).tree
  {
    AncestorIsShallower(path, q);
    if q in Ancestors(path) { AncestorIsShallower(q, path); }
  }

  lemma ApplyFails(blobs: Blobs, tree: Tree, entry: Entry)
    ensures !Writable(blobs, entry) ==> ApplyTo(blobs, tree, entry.path, Some(entry)).failure.Some?
  {}

  lemma EntryOrderIsWeak()
    ensures WeakOrder(EntryBefore)
  {
    StringOrderIsWeak();
  }

  /** `tree` holds exactly the nodes of `entries`. */
  ghost predicate Describes(blobs: Blobs, tree: Tree, entries: seq<Entry>) {
    && (forall e :: e in entries ==> Writable(blobs, e) && e.path in tree && tree[e.path] == NodeOf(blobs, e))
    && (forall p :: p in tree ==> exists e :: e in entries && e.path == p)
  }

  ghost predicate DepthOrdered(entries: seq<Entry>) {
    forall i, j :: 0 <= i < j < |entries| ==> Depth(entries[i].path) <= Depth(entries[j].path)
  }

  lemma NextIsExposed(blobs: Blobs, tree: Tree, entries: seq<Entry>, k: nat)
    requires k < |entries| && UniquePaths(entries) && ParentsListed(entries) && DepthOrdered(entries)
    requires Describes(blobs, tree, entries[..k])
    ensures Exposed(tree, entries[k].path) && entries[k].path !in tree
  {
    var e := entries[k];
    forall a | a in Ancestors(e.path) ensures a in tree && tree[a].Dir? {
      assert e in entries;
      var d :| d in entries && d.path == a && d.kind.Directory?;
      var i :| 0 <= i < |entries| && entries[i] == d;
      AncestorIsShallower(a, e.path);
      assert i < k && entries[..k][i] == d;
      assert d in entries[..k];
    }
    forall q | q in tree ensures e.path !in Ancestors(q) && q != e.path {
      var d :| d in entries[..k] && d.path == q;
      var i :| 0 <= i < k && entries[i] == d;
      if e.path in Ancestors(q) { AncestorIsShallower(e.path, q); }
    }
  }

  lemma DescribesNext(blobs: Blobs, tree: Tree, entries: seq<Entry>, k: nat)
    requires k < |entries| && UniquePaths(entries) && Describes(blobs, tree, entries[..k]) && Writable(blobs, entries[k])
    ensures Describes(blobs, tree[entries[k].path := NodeOf(blobs, entries[k])], entries[..k+1])
  {
    var e := entries[k];
    var next := tree[e.path := NodeOf(blobs, e)];
    assert entries[..k+1] == entries[..k] + [e];
    forall d | d in entries[..k] ensures d.path != e.path && next[d.path] == NodeOf(blobs, d) {
      var i :| 0 <= i < k && entries[i] == d;
    }
    forall p | p in next ensures exists d :: d in entries[..k+1] && d.path == p {
      if p == e.path {
        assert e in entries[..k+1];
      } else {
        var d :| d in entries[..k] && d.path == p;
        assert d in entries[..k+1];
      }
    }
  }

  lemma {:induction false} ApplyEachBuilds(blobs: Blobs, tree: Tree, entries: seq<Entry>, k: nat)
    requires k <= |entries| && UniquePaths(entries) && ParentsListed(entries) && DepthOrdered(entries)
    requires Describes(blobs, tree, entries[..k])
    ensures ApplyEach(blobs, tree, entries[k..]).failure.None? <==> AllWritable(blobs, entries[k..])
    ensures AllWritable(blobs, entries[k..]) ==> Describes(blobs, ApplyEach(blobs, tree, entries[k..]).tree, entries)
    decreases |entries| - k
  {
    if k == |entries| {
      assert entries[..k] == entries;
    } else {
      var e := entries[k];
      assert entries[k..][0] == e && entries[k..][1..] == entries[k+1..];
      assert entries[k..] == [e] + entries[k+1..];
      ApplyFails(blobs, tree, e);
      if Writable(blobs, e) {
        NextIsExposed(blobs, tree, entries, k);
        ApplyIsUpdate(blobs, tree, e.path, Some(e));
        DescribesNext(blobs, tree, entries, k);
        ApplyEachBuilds(blobs, tree[e.path := NodeOf(blobs, e)], entries, k + 1);
      } else {
        assert e in entries[k..];
      }
    }
  }

  lemma DescribesIsTree(blobs: Blobs, tree: Tree, entries: seq<Entry>)
    requires UniquePaths(entries) && AllWritable(blobs, entries) && Describes(blobs, tree, entries)
    ensures tree == TreeOf(blobs, entries)
  {
    EntryMapIs(entries);
    var m := EntryMap(entries);
    forall p | p in tree ensures p in m && tree[p] == NodeOf(blobs, m[p]) {
      var e :| e in entries && e.path == p;
    }
  }

  /** Path uniqueness does not depend on the order of the entries. */
  lemma UniquePathsPermute(s: seq<Entry>, t: seq<Entry>)
    requires UniquePaths(s) && multiset(s) == multiset(t)
    ensures UniquePaths(t)
  {
    DistinctPermutes(s, t);
    forall i, j | 0 <= i < j < |t| ensures t[i].path != t[j].path {
      assert t[i] in s && t[j] in s;
      var k :| 0 <= k < |s| && s[k] == t[i];
      var l :| 0 <= l < |s| && s[l] == t[j];
      assert k != l;
    }
  }

  lemma SortedManifest(entries: seq<Entry>)
    requires UniquePaths(entries)
    ensures var sorted := SortBy(entries, EntryBefore);
            && multiset(sorted) == multiset(entries) && UniquePaths(sorted) && DepthOrdered(sorted)
            && (forall e :: e in sorted <==> e in entries)
  {
    EntryOrderIsWeak();
    SortIsOrdered(entries, EntryBefore);
    var sorted := SortBy(entries, EntryBefore);
    UniquePathsPermute(entries, sorted);
    SameElements(sorted, entries);
  }

  /**
   * `Materialize` on an empty root succeeds exactly when every entry can be written, and then builds
   * exactly the manifest's tree, whatever order the entries were listed in.
   */
  lemma MaterializeIsExact(blobs: Blobs, entries: seq<Entry>)
    requires UniquePaths(entries) && ParentsListed(entries)
    ensures MaterializeOf(blobs, entries).failure.None? <==> AllWritable(blobs, entries)
    ensures AllWritable(blobs, entries) ==> MaterializeOf(blobs, entries) == Applied(TreeOf(blobs, entries), None)
  {
    var sorted := SortBy(entries, EntryBefore);
    SortedManifest(entries);
    assert sorted[..0] == [] && sorted[0..] == sorted;
    ApplyEachBuilds(blobs, map[], sorted, 0);
    if AllWritable(blobs, entries) {
      var tree := MaterializeOf(blobs, entries).tree;
      assert Describes(blobs, tree, entries);
      DescribesIsTree(blobs, tree, entries);
    }
  }

  // ----- what is written, in full -----

  /** What a path must hold for an entry: its kind, the nine permission bits of its mode, and its content or target. */
  predicate WrittenAs(blobs: Blobs, node: Node, e: Entry) {
    && (e.kind.RegularFile? ==> e.blobDigest in blobs && node == File(e.mode % 512, blobs[e.blobDigest]))
    && (e.kind.Directory? ==> node == Dir(e.mode % 512))
    && (e.kind.Symlink? ==> node == Link(e.linkTarget))
    && !e.kind.Unsupported?
  }

  /**
   * One successful application: the path holds its entry or nothing; what was below it is gone; missing parents are
   * directories with mode 0755; everything else is as it was.
   */
  lemma ApplyWritesExactly(blobs: Blobs, tree: Tree, path: string, entry: Option<Entry>)
    requires ApplyTo(blobs, tree, path, entry).failure.None?
    ensures var after := ApplyTo(blobs, tree, path, entry).tree;
            && (entry.None? ==> path !in after)
            && (entry.Some? ==> path in after && WrittenAs(blobs, after[path], entry.value))
            && (forall q :: q != path ==> (q in after <==> (q in tree && path !in Ancestors(q)) || (entry.Some? && q in Ancestors(path))))
            && (forall q :: q in after && q != path ==> after[q] == if q in tree && path !in Ancestors(q) then tree[q] else Dir(493))
  {
    hide Safe, LinkTargetOk;
    forall q | q in Ancestors(path) ensures q != path && path !in Ancestors(q) {
      AncestorIsShallower(q, path);
      if path in Ancestors(q) { AncestorIsShallower(path, q); }
    }
  }

  /** It fails exactly for an unsafe path, a link out of the workspace, a parent that is no directory, an unknown kind or a missing blob. */
  lemma ApplyFailsExactly(blobs: Blobs, tree: Tree, path: string, entry: Option<Entry>)
    ensures ApplyTo(blobs, tree, path, entry).failure.None?
       <==> && Safe(path) && (forall a :: a in tree && a in Ancestors(path) ==> tree[a].Dir?)
            && (entry.Some? ==>
                 && !entry.value.kind.Unsupported? && (entry.value.kind.Symlink? ==> LinkTargetOk(path, entry.value.linkTarget))
                 && (entry.value.kind.RegularFile? ==> entry.value.blobDigest in blobs))
  {
    hide Safe, LinkTargetOk, Ancestors;
  }

  /**
   * A successful materialization, in full: every entry's path holds its kind, permission bits, and content or target,
   * and there is no other path.
   */
  lemma MaterializeWritesExactly(blobs: Blobs, entries: seq<Entry>)
    requires UniquePaths(entries) && ParentsListed(entries) && MaterializeOf(blobs, entries).failure.None?
    ensures var tree := MaterializeOf(blobs, entries).tree;
            && (forall e :: e in entries ==> e.path in tree && WrittenAs(blobs, tree[e.path], e))
            && (forall p :: p in tree ==> exists e :: e in entries && e.path == p)
  {
    hide Safe, LinkTargetOk, MaterializeOf;
    MaterializeIsExact(blobs, entries);
    EntryMapIs(entries);
    forall e | e in entries ensures WrittenAs(blobs, TreeOf(blobs, entries)[e.path], e) {
      assert Writable(blobs, e);
    }
  }

  /** The number of parts that lead up, and the number that lead down. */
  function Ups(parts: seq<string>): nat {
    if parts == [] then 0 else Ups(parts[..|parts|-1]) + if parts[|parts|-1] == ".." then 1 else 0
  }

  function Downs(parts: seq<string>): nat {
    if parts == [] then 0 else Downs(parts[..|parts|-1]) + if parts[|parts|-1] in {"", ".", ".."} then 0 else 1
  }

  lemma {:induction false} CountFromFront(parts: seq<string>)
    requires parts != []
    ensures Ups(parts) == (if parts[0] == ".." then 1 else 0) + Ups(parts[1..])
    ensures Downs(parts) == (if parts[0] in {"", ".", ".."} then 0 else 1) + Downs(parts[1..])
    decreases |parts|
  {
    var n := |parts| - 1;
    if n > 0 {
      CountFromFront(parts[..n]);
      assert parts[..n][1..] == parts[1..][..n-1] && parts[1..][n-1] == parts[n];
    } else {
      assert parts[..0] == [] && parts[1..] == [];
    }
  }

  /** A walk stays inside exactly when no beginning of it leads up more often than it and the start lead down. */
  lemma {:induction false} StaysInsideIff(depth: nat, parts: seq<string>)
    ensures StaysInside(depth, parts) <==> forall k :: 0 <= k <= |parts| ==> Ups(parts[..k]) <= depth + Downs(parts[..k])
    decreases |parts|
  {
    if parts != [] {
      var first := parts[0];
      forall k | 1 <= k <= |parts|
        ensures Ups(parts[..k]) == (if first == ".." then 1 else 0) + Ups(parts[1..][..k-1])
        ensures Downs(parts[..k]) == (if first in {"", ".", ".."} then 0 else 1) + Downs(parts[1..][..k-1])
      {
        CountFromFront(parts[..k]);
        assert parts[..k][1..] == parts[1..][..k-1];
      }
      assert parts[..0] == [];
      if first == ".." && depth == 0 {
        assert Ups(parts[..1]) == 1 + Ups(parts[1..][..0]);
        assert parts[1..][..0] == [];
      } else {
        var next: nat := if first == ".." then depth - 1 else if first in {"", "."} then depth else depth + 1;
        StaysInsideIff(next, parts[1..]);
        ShiftWalk(depth, next, parts);
      }
    }
  }

  /** No beginning leads up `height` levels more than it leads down. */
  predicate StaysBelow(parts: seq<string>, height: nat) {
    forall k :: 0 <= k <= |parts| ==> Ups(parts[..k]) < height + Downs(parts[..k])
  }

  /** A link may point to a relative target without backslashes that never leads up as many levels as the link's path has parts. */
  lemma LinkTargetOkIff(path: string, target: string)
    ensures LinkTargetOk(path, target) <==>
      target != "" && target[0] != '/' && '\\' !in target && StaysBelow(SplitSlash(target), |SplitSlash(path)|)
  {
    DepthIsParts(path);
    StaysInsideIff(Depth(path), SplitSlash(target));
  }

  lemma ShiftWalk(depth: nat, next: nat, parts: seq<string>)
    requires parts != []
    requires next == if parts[0] == ".." then depth - 1 else if parts[0] in {"", "."} then depth else depth + 1
    requires forall k :: 1 <= k <= |parts| ==>
      && Ups(parts[..k]) == (if parts[0] == ".." then 1 else 0) + Ups(parts[1..][..k-1])
      && Downs(parts[..k]) == (if parts[0] in {"", ".", ".."} then 0 else 1) + Downs(parts[1..][..k-1])
    ensures (forall k :: 0 <= k <= |parts[1..]| ==> Ups(parts[1..][..k]) <= next + Downs(parts[1..][..k]))
       <==> (forall k :: 0 <= k <= |parts| ==> Ups(parts[..k]) <= depth + Downs(parts[..k]))
  {
    var rest := parts[1..];
    assert parts[..0] == [] && Ups([]) == 0;
    if forall k :: 0 <= k <= |rest| ==> Ups(rest[..k]) <= next + Downs(rest[..k]) {
      forall k | 0 <= k <= |parts| ensures Ups(parts[..k]) <= depth + Downs(parts[..k]) {
        if k > 0 { assert Ups(rest[..k-1]) <= next + Downs(rest[..k-1]); }
      }
    }
    if forall k :: 0 <= k <= |parts| ==> Ups(parts[..k]) <= depth + Downs(parts[..k]) {
      forall k | 0 <= k <= |rest| ensures Ups(rest[..k]) <= next + Downs(rest[..k]) {
        assert Ups(parts[..k+1]) <= depth + Downs(parts[..k+1]);
        assert rest[..k] == rest[..(k+1)-1];
      }
    }
  }

  /** Listing the same entries in another order builds the same tree, or fails the same way. */
  lemma MaterializeIgnoresOrder(blobs: Blobs, s: seq<Entry>, t: seq<Entry>)
    requires UniquePaths(s) && multiset(s) == multiset(t)
    ensures MaterializeOf(blobs, s) == MaterializeOf(blobs, t)
  {
    UniquePathsPermute(s, t);
    SortedManifest(s);
    SortedManifest(t);
    EntryOrderIsWeak();
    SortIsOrdered(s, EntryBefore);
    SortIsOrdered(t, EntryBefore);
    var a, b := SortBy(s, EntryBefore), SortBy(t, EntryBefore);
    forall x, y | x in a && y in a && x != y ensures EntryBefore(x, y) || EntryBefore(y, x) {
      StringLessTotal(x.path, y.path);
      var i :| 0 <= i < |a| && a[i] == x;
      var j :| 0 <= j < |a| && a[j] == y;
      assert x.path != y.path;
    }
    OrderedIsUnique(a, b, EntryBefore);
  }

  // ----- the program -----

  class Workspace {
    var nodes: Tree

    constructor ()
      ensures nodes == map[]
    {
      nodes := map[];
    }

    method Apply(blobs: Blobs, path: string, entry: Option<Entry>) returns (failure: Option<Failure>)
      modifies this
      ensures Applied(nodes, failure) == ApplyTo(blobs, old(nodes), path, entry)
    {
      if !Safe(path) {
        return Some(UnsafePath);
      }
      if entry.Some? && entry.value.kind.Symlink? && !LinkTargetOk(path, entry.value.linkTarget) {
        return Some(BadLinkTarget);
      }
      if BlockedByFile(nodes, path) {
        return Some(NotADirectory);
      }
      nodes := RemoveExisting(nodes, path);
      if entry.None? {
        return None;
      }
      nodes := MakeParents(nodes, path);
      match entry.value.kind {
        case Directory =>
          nodes := nodes[path := Dir(Perm(entry.value.mode))];
        case Symlink =>
          nodes := nodes[path := Link(entry.value.linkTarget)];
        case RegularFile =>
          if entry.value.blobDigest !in blobs {
            return Some(BlobMissing);
          }
          nodes := nodes[path := File(Perm(entry.value.mode), blobs[entry.value.blobDigest])];
        case Unsupported =>
          return Some(UnsupportedType);
      }
      return None;
    }

    method Materialize(blobs: Blobs, manifest: seq<Entry>) returns (failure: Option<Failure>)
      requires nodes == map[]
      modifies this
      ensures Applied(nodes, failure) == MaterializeOf(blobs, manifest)
    {
      var entries := SortBy(manifest, EntryBefore);
      failure := None;
      for i := 0 to |entries|
        invariant failure == None
        invariant ApplyEach(blobs, nodes, entries[i..]) == MaterializeOf(blobs, manifest)
      {
        failure := Apply(blobs, entries[i].path, Some(entries[i]));
        if failure.Some? {
          return;
        }
      }
    }
  }
}
