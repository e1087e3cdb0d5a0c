/** Archiving a stopped hub and restoring it (scripts/hub-backup.py, `collect` and `extract_verified`). */
module Backup {
  import opened Ordering
  import FileTree

  type Bytes = seq<bv8>
  type Path = seq<string>

  /** A directory lists its entries by name, as the sort in `collect` puts them. */
  datatype Node = File(content: Bytes) | Dir(entries: seq<Entry>) | Special
  datatype Entry = Entry(name: string, node: Node)

  datatype Summary = Summary(bytes: nat, digest: string)
  type Manifest = map<string, Summary>

  /** A content digest, and the manifest as text. */
  datatype Codec = Codec(digest: Bytes -> string, encode: Manifest -> Bytes, decode: Bytes -> Option<Manifest>)

  /** One archive member as the reader sees it; `size` is the declared one. */
  datatype Member = Member(name: string, regular: bool, size: int, content: Bytes)

  const MEMBER_BYTES := 16 * 1024 * 1024
  const MANIFEST_BYTES := 4 * 1024 * 1024
  const CONFIG_BYTES := 65536
  const CONFIG := "config.json"
  const MANIFEST := "manifest.json"

  // ----- member names -----

  function Join(parts: Path): string {
    if parts == [] then "" else if |parts| == 1 then parts[0] else parts[0] + "/" + Join(parts[1..])
  }

  function NonEmpty(parts: Path): Path {
    if parts == [] then [] else (if parts[0] == "" then [] else [parts[0]]) + NonEmpty(parts[1..])
  }

  function Parts(name: string): Path { NonEmpty(FileTree.SplitSlash(name)) }

  predicate PlainName(name: string) { name != "" && '/' !in name && name != "." && name != ".." }

  predicate PlainPath(path: Path) { path != [] && forall part :: part in path ==> PlainName(part) }

  lemma {:induction false} SplitHead(a: string, rest: string)
    requires '/' !in a
    ensures FileTree.SplitSlash(a + "/" + rest) == [a] + FileTree.SplitSlash(rest)
    decreases |a|
  {
    var s := a + "/" + rest;
    if a == "" {
      assert s == "/" + rest && s[1..] == rest;
    } else {
      assert s[1..] == a[1..] + "/" + rest && s[0] == a[0];
      SplitHead(a[1..], rest);
      assert a == [a[0]] + a[1..];
    }
  }

  lemma {:induction false} SplitPlain(a: string)
    requires '/' !in a
    ensures FileTree.SplitSlash(a) == [a]
    decreases |a|
  {
    if a != "" {
      SplitPlain(a[1..]);
      assert a == [a[0]] + a[1..];
    }
  }

  lemma {:induction false} SplitOfJoin(path: Path)
    requires PlainPath(path)
    ensures FileTree.SplitSlash(Join(path)) == path && NonEmpty(path) == path
    decreases |path|
  {
    assert PlainName(path[0]);
    assert path == [path[0]] + path[1..];
    if |path| == 1 {
      SplitPlain(path[0]);
      assert path[1..] == [];
    } else {
      assert PlainPath(path[1..]);
      SplitHead(path[0], Join(path[1..]));
      SplitOfJoin(path[1..]);
    }
  }

  lemma {:induction false} BackslashOfJoin(path: Path)
    requires path != []
    ensures '\\' in Join(path) <==> exists part :: part in path && '\\' in part
    decreases |path|
  {
    if |path| > 1 {
      BackslashOfJoin(path[1..]);
      assert path == [path[0]] + path[1..];
    }
  }

  lemma {:induction false} SplitHasNoSlash(s: string)
    ensures forall part, ch :: part in FileTree.SplitSlash(s) && ch in part ==> ch != '/' && ch in s
    decreases |s|
  {
    if s != "" { SplitHasNoSlash(s[1..]); }
  }

  lemma JoinHead(first: string, rest: Path)
    ensures Join([first] + rest) == if rest == [] then first else first + "/" + Join(rest)
  {
    assert ([first] + rest)[1..] == rest;
  }

  lemma Associative(a: string, b: string, c: string)
    ensures (a + b) + c == a + (b + c)
  {}

  lemma JoinMore(ch: char, rest: Path)
    requires rest != []
    ensures Join([""] + rest) == "/" + Join(rest)
    ensures Join([[ch] + rest[0]] + rest[1..]) == [ch] + Join(rest)
  {
    hide Join;
    JoinHead("", rest);
    var tail := "/" + Join(rest[1..]);
    JoinHead([ch] + rest[0], rest[1..]);
    JoinHead(rest[0], rest[1..]);
    assert [rest[0]] + rest[1..] == rest;
    Associative([ch] + rest[0], "/", Join(rest[1..]));
    Associative(rest[0], "/", Join(rest[1..]));
    Associative([ch], rest[0], tail);
    Associative("", "/", Join(rest));
  }

  lemma {:induction false} JoinOfSplit(s: string)
    ensures Join(FileTree.SplitSlash(s)) == s
    decreases |s|
  {
    if s != "" {
      hide Join;
      JoinOfSplit(s[1..]);
      JoinMore(s[0], FileTree.SplitSlash(s[1..]));
      assert s == [s[0]] + s[1..];
    }
  }

  /** The relative paths a workspace accepts: plain names joined by slashes, without backslashes. */
  lemma SafeIff(path: string)
    ensures FileTree.Safe(path) <==> '\\' !in path && exists names :: PlainPath(names) && Join(names) == path
  {
    var parts := FileTree.SplitSlash(path);
    JoinOfSplit(path);
    SplitHasNoSlash(path);
    if FileTree.Safe(path) { assert PlainPath(parts); }
    if exists names :: PlainPath(names) && Join(names) == path {
      var names :| PlainPath(names) && Join(names) == path;
      SplitOfJoin(names);
      forall part | part in parts ensures part != "" && part != "." && part != ".." { assert PlainName(part); }
    }
  }

  // ----- what there is to archive -----

  predicate IsLock(prefix: Path, name: string) {
    (prefix == ["data"] && name == ".hub.lock") || (prefix == ["audit"] && name == ".audit.lock")
  }

  datatype Stored = Stored(path: Path, content: Bytes)

  /** Every regular file below a directory, except the process lock of its root. */
  function Listed(entries: seq<Entry>, prefix: Path): seq<Stored>
    decreases entries, 1
  {
    if entries == [] then [] else ListedEntry(entries[0], prefix) + Listed(entries[1..], prefix)
  }

  function ListedEntry(e: Entry, prefix: Path): seq<Stored>
    decreases e, 0
  {
    if IsLock(prefix, e.name) then []
    else match e.node
      case File(content) => [Stored(prefix + [e.name], content)]
      case Dir(children) => Listed(children, prefix + [e.name])
      case Special => []
  }

  /** A file system never lists one name twice in a directory, nor an empty name. */
  predicate Listing(entries: seq<Entry>)
    decreases entries
  {
    entries == [] ||
    (&& entries[0].name != "" && (forall e :: e in entries[1..] ==> e.name != entries[0].name)
     && (entries[0].node.Dir? ==> Listing(entries[0].node.entries)) && Listing(entries[1..]))
  }

  function SummaryFor(c: Codec, content: Bytes): Summary { Summary(|content|, c.digest(content)) }

  function MemberFor(s: Stored): Member { Member(Join(s.path), true, |s.content|, s.content) }

  function MembersFor(stored: seq<Stored>): seq<Member> {
    if stored == [] then [] else MembersFor(stored[..|stored|-1]) + [MemberFor(stored[|stored|-1])]
  }

  function Total(stored: seq<Stored>): nat {
    if stored == [] then 0 else Total(stored[..|stored|-1]) + |stored[|stored|-1].content|
  }

  function ManifestFor(c: Codec, stored: seq<Stored>): Manifest {
    if stored == [] then map[]
    else
      var last := stored[|stored|-1];
      ManifestFor(c, stored[..|stored|-1])[Join(last.path) := SummaryFor(c, last.content)]
  }

  function FilesFor(stored: seq<Stored>): map<Path, Bytes> {
    if stored == [] then map[] else FilesFor(stored[..|stored|-1])[stored[|stored|-1].path := stored[|stored|-1].content]
  }

  // ----- collecting -----

  datatype Limits = Limits(bytes: int, files: int, entries: int)
  datatype Collected = Collected(stored: seq<Stored>, limits: Limits)

  function Min(a: int, b: int): int { if a < b then a else b }

  /** `collect` of one directory: it may not be too deep, nor have more entries than are left. */
  function CollectDir(entries: seq<Entry>, prefix: Path, st: Collected): Option<Collected>
    decreases entries, 1
  {
    if |prefix| > 3 || (entries != [] && |entries| > st.limits.entries) then None else CollectEntries(entries, prefix, st)
  }

  function CollectEntries(entries: seq<Entry>, prefix: Path, st: Collected): Option<Collected>
    decreases entries, 0
  {
    if entries == [] then Some(st)
    else
      var e := entries[0];
      var counted := st.(limits := st.limits.(entries := st.limits.entries - 1));
      if counted.limits.entries < 0 || '/' in e.name || e.name == "." || e.name == ".." then None
      else if IsLock(prefix, e.name) then CollectEntries(entries[1..], prefix, counted)
      else match e.node
        case Dir(children) =>
          var below := CollectDir(children, prefix + [e.name], counted);
          if below.None? then None else CollectEntries(entries[1..], prefix, below.value)
        case File(content) =>
          if counted.limits.files <= 0 || |content| > Min(MEMBER_BYTES, counted.limits.bytes) then None
          else CollectEntries(entries[1..], prefix, WithFile(counted, prefix + [e.name], content))
        case Special => None
  }

  function WithFile(st: Collected, path: Path, content: Bytes): Collected {
    Collected(st.stored + [Stored(path, content)], st.limits.(bytes := st.limits.bytes - |content|, files := st.limits.files - 1))
  }

  /** The files in a backup of a configuration and the two trees, or none if it is refused. */
  function BackupOf(config: Bytes, data: seq<Entry>, audit: seq<Entry>, maxBytes: int, maxFiles: int): Option<seq<Stored>> {
    if |config| > Min(CONFIG_BYTES, maxBytes) then None
    else
      var start := Collected([Stored([CONFIG], config)], Limits(maxBytes - |config|, maxFiles - 1, maxFiles + 256));
      var one := CollectDir(data, ["data"], start);
      if one.None? then None
      else
        var two := CollectDir(audit, ["audit"], one.value);
        if two.None? then None else Some(two.value.stored)
  }

  /** The archive of a backup: its members, and the manifest last. */
  function ArchiveOf(c: Codec, config: Bytes, data: seq<Entry>, audit: seq<Entry>, maxBytes: int, maxFiles: int): Option<seq<Member>> {
    var stored := BackupOf(config, data, audit, maxBytes, maxFiles);
    if stored.None? then None
    else
      var text := c.encode(ManifestFor(c, stored.value));
      if |text| > MANIFEST_BYTES then None else Some(MembersFor(stored.value) + [Member(MANIFEST, true, |text|, text)])
  }

  // ----- the same, as the script does it -----

  class Collector {
    var stored: seq<Stored>
    var limits: Limits

    constructor (stored: seq<Stored>, limits: Limits)
      ensures this.stored == stored && this.limits == limits
    {
      this.stored, this.limits := stored, limits;
    }

    method Collect(entries: seq<Entry>, prefix: Path) returns (ok: bool)
      modifies this
      ensures ok ==> CollectDir(entries, prefix, old(Collected(stored, limits))) == Some(Collected(stored, limits))
      ensures !ok ==> CollectDir(entries, prefix, old(Collected(stored, limits))).None?
      decreases entries
    {
      hide IsLock;
      if |prefix| > 3 {
        return false;
      }
      if entries != [] && |entries| > limits.entries {
        return false;
      }
      ghost var before := Collected(stored, limits);
      for i := 0 to |entries|
        invariant CollectEntries(entries, prefix, before) == CollectEntries(entries[i..], prefix, Collected(stored, limits))
      {
        var e := entries[i];
        assert entries[i..][0] == e && entries[i..][1..] == entries[i+1..];
        limits := limits.(entries := limits.entries - 1);
        if limits.entries < 0 {
          return false;
        }
        if '/' in e.name || e.name == "." || e.name == ".." {
          return false;
        }
        if !IsLock(prefix, e.name) {
          match e.node
          case Dir(children) =>
            var below := Collect(children, prefix + [e.name]);
            if !below {
              return false;
            }
          case File(content) =>
            if limits.files <= 0 || |content| > Min(MEMBER_BYTES, limits.bytes) {
              return false;
            }
            stored := stored + [Stored(prefix + [e.name], content)];
            limits := limits.(bytes := limits.bytes - |content|, files := limits.files - 1);
          case Special => return false;
        }
      }
      ok := true;
    }
  }

  // ----- what collecting promises -----

  predicate StoredOk(s: Stored, prefix: Path) {
    && prefix < s.path && |s.path| <= 4 && |s.content| <= MEMBER_BYTES
    && (forall k :: |prefix| <= k < |s.path| ==> PlainName(s.path[k]))
    && !(|s.path| == |prefix| + 1 && IsLock(prefix, s.path[|prefix|]))
  }

  /** No stored path is a prefix of another. */
  predicate Apart(a: Stored, b: Stored) { !(a.path <= b.path) && !(b.path <= a.path) }

  predicate AllApart(stored: seq<Stored>) {
    forall i, j :: 0 <= i < j < |stored| ==> Apart(stored[i], stored[j])
  }

  ghost predicate AllOk(stored: seq<Stored>, prefix: Path) { forall s :: s in stored ==> StoredOk(s, prefix) }

  lemma TotalConcat(a: seq<Stored>, b: seq<Stored>)
    ensures Total(a + b) == Total(a) + Total(b)
    decreases |b|
  {
    if b == [] {
      assert a + b == a;
    } else {
      assert (a + b)[..|a + b|-1] == a + b[..|b|-1];
      TotalConcat(a, b[..|b|-1]);
    }
  }

  /** `after` is `before` with `more` archived and paid for. */
  ghost predicate Archives(before: Collected, after: Collected, more: seq<Stored>, prefix: Path) {
    && after.stored == before.stored + more && AllOk(more, prefix)
    && after.limits.files == before.limits.files - |more| && after.limits.bytes == before.limits.bytes - Total(more)
    && (more != [] ==> after.limits.files >= 0 && after.limits.bytes >= 0)
  }

  lemma ArchivesBoth(a: Collected, b: Collected, c: Collected, x: seq<Stored>, y: seq<Stored>, prefix: Path)
    requires Archives(a, b, x, prefix) && Archives(b, c, y, prefix)
    ensures Archives(a, c, x + y, prefix)
  {
    TotalConcat(x, y);
    assert a.stored + x + y == a.stored + (x + y);
  }

  lemma Deeper(more: seq<Stored>, prefix: Path, name: string)
    requires AllOk(more, prefix + [name]) && PlainName(name)
    ensures AllOk(more, prefix)
  {
    forall s | s in more ensures StoredOk(s, prefix) {
      assert StoredOk(s, prefix + [name]);
      assert s.path[|prefix|] == (prefix + [name])[|prefix|] == name;
    }
  }

  lemma DeeperArchives(before: Collected, after: Collected, more: seq<Stored>, prefix: Path, name: string)
    requires Archives(before, after, more, prefix + [name]) && PlainName(name)
    ensures Archives(before, after, more, prefix)
  {
    Deeper(more, prefix, name);
  }

  lemma OneFileArchives(st: Collected, prefix: Path, name: string, content: Bytes)
    requires |prefix| <= 3 && PlainName(name) && !IsLock(prefix, name)
    requires st.limits.files > 0 && |content| <= Min(MEMBER_BYTES, st.limits.bytes)
    ensures Archives(st, WithFile(st, prefix + [name], content), [Stored(prefix + [name], content)], prefix)
  {
    var s := Stored(prefix + [name], content);
    assert StoredOk(s, prefix);
    assert [s][..0] == [];
    assert Total([s]) == Total([]) + |content|;
  }

  /** What is collected is exactly what is there, within the limits; and whatever is collected is readable again. */
  lemma {:induction false} CollectIsListed(entries: seq<Entry>, prefix: Path, st: Collected)
    requires Listing(entries) && |prefix| <= 3 && CollectEntries(entries, prefix, st).Some?
    ensures Archives(st, CollectEntries(entries, prefix, st).value, Listed(entries, prefix), prefix)
    decreases entries
  {
    hide Archives, AllOk, StoredOk, Total, WithFile;
    if entries == [] {
      NothingArchives(st, prefix);
    } else {
      var e := entries[0];
      var counted := st.(limits := st.limits.(entries := st.limits.entries - 1));
      var rest := Listed(entries[1..], prefix);
      if IsLock(prefix, e.name) {
        CollectIsListed(entries[1..], prefix, counted);
        assert [] + rest == rest;
        CountedArchives(st, counted, CollectEntries(entries, prefix, st).value, rest, prefix);
      } else if e.node.Dir? {
        var below := CollectDir(e.node.entries, prefix + [e.name], counted);
        CollectIsListed(e.node.entries, prefix + [e.name], counted);
        var more := Listed(e.node.entries, prefix + [e.name]);
        DeeperArchives(counted, below.value, more, prefix, e.name);
        CollectIsListed(entries[1..], prefix, below.value);
        ArchivesBoth(counted, below.value, CollectEntries(entries, prefix, st).value, more, rest, prefix);
        CountedArchives(st, counted, CollectEntries(entries, prefix, st).value, more + rest, prefix);
      } else {
        var one := WithFile(counted, prefix + [e.name], e.node.content);
        OneFileArchives(counted, prefix, e.name, e.node.content);
        CollectIsListed(entries[1..], prefix, one);
        var s := [Stored(prefix + [e.name], e.node.content)];
        ArchivesBoth(counted, one, CollectEntries(entries, prefix, st).value, s, rest, prefix);
        CountedArchives(st, counted, CollectEntries(entries, prefix, st).value, s + rest, prefix);
      }
    }
  }

  lemma NothingArchives(st: Collected, prefix: Path)
    ensures Archives(st, st, [], prefix)
  {
    assert st.stored + [] == st.stored;
  }

  lemma CountedArchives(st: Collected, counted: Collected, after: Collected, more: seq<Stored>, prefix: Path)
    requires counted == st.(limits := st.limits.(entries := st.limits.entries - 1)) && Archives(counted, after, more, prefix)
    ensures Archives(st, after, more, prefix)
  {}

  // ----- different files have unrelated paths -----

  lemma {:induction false} EntryUnder(e: Entry, prefix: Path)
    ensures forall s :: s in ListedEntry(e, prefix) ==> prefix < s.path && s.path[|prefix|] == e.name
    decreases e, 0
  {
    if e.node.Dir? {
      ListedUnder(e.node.entries, prefix + [e.name]);
      forall s | s in Listed(e.node.entries, prefix + [e.name]) ensures prefix < s.path && s.path[|prefix|] == e.name {
        assert (prefix + [e.name])[|prefix|] == e.name;
      }
    }
  }

  lemma {:induction false} ListedUnder(entries: seq<Entry>, prefix: Path)
    ensures forall s :: s in Listed(entries, prefix) ==> prefix < s.path && exists e :: e in entries && s.path[|prefix|] == e.name
    decreases entries, 1
  {
    if entries != [] {
      ListedUnder(entries[1..], prefix);
      EntryUnder(entries[0], prefix);
      forall s | s in Listed(entries, prefix) ensures prefix < s.path && exists e :: e in entries && s.path[|prefix|] == e.name {
        if s in Listed(entries[1..], prefix) {
          var f :| f in entries[1..] && s.path[|prefix|] == f.name;
          assert f in entries;
        } else {
          assert entries[0] in entries;
        }
      }
    }
  }

  lemma ApartConcat(a: seq<Stored>, b: seq<Stored>)
    requires AllApart(a) && AllApart(b) && forall x, y :: x in a && y in b ==> Apart(x, y)
    ensures AllApart(a + b)
  {
    forall i, j | 0 <= i < j < |a + b| ensures Apart((a + b)[i], (a + b)[j]) {
      if i < |a| && |a| <= j { assert a[i] in a && b[j - |a|] in b; }
    }
  }

  lemma DifferentNamesApart(prefix: Path, x: Stored, y: Stored)
    requires prefix < x.path && prefix < y.path && x.path[|prefix|] != y.path[|prefix|]
    ensures Apart(x, y)
  {}

  lemma {:induction false} ListedIsApart(entries: seq<Entry>, prefix: Path)
    requires Listing(entries)
    ensures AllApart(Listed(entries, prefix))
    decreases entries
  {
    hide Apart;
    if entries != [] {
      var e := entries[0];
      ListedIsApart(entries[1..], prefix);
      if e.node.Dir? { ListedIsApart(e.node.entries, prefix + [e.name]); }
      EntryUnder(e, prefix);
      ListedUnder(entries[1..], prefix);
      forall x, y | x in ListedEntry(e, prefix) && y in Listed(entries[1..], prefix) ensures Apart(x, y) {
        DifferentNamesApart(prefix, x, y);
      }
      ApartConcat(ListedEntry(e, prefix), Listed(entries[1..], prefix));
    }
  }

  /** The files a backup of a configuration and two trees should hold. */
  function Everything(config: Bytes, data: seq<Entry>, audit: seq<Entry>): seq<Stored> {
    [Stored([CONFIG], config)] + Listed(data, ["data"]) + Listed(audit, ["audit"])
  }

  /** A list that the reader of archives will find in order. */
  ghost predicate Restorable(stored: seq<Stored>, maxBytes: int, maxFiles: int) {
    && AllApart(stored) && |stored| <= maxFiles && Total(stored) <= maxBytes
    && (forall s :: s in stored ==> RestorableFile(s))
  }

  ghost predicate RestorableFile(s: Stored) {
    && PlainPath(s.path) && |s.content| <= MEMBER_BYTES
    && (s.path == [CONFIG] ||
        (2 <= |s.path| <= 4 && s.path[0] in {"data", "audit"} && s.path != ["data", ".hub.lock"] && s.path != ["audit", ".audit.lock"]))
  }

  lemma TreeIsRestorable(s: Stored, root: string)
    requires StoredOk(s, [root]) && root in {"data", "audit"}
    ensures RestorableFile(s)
  {
    assert s.path[0] == [root][0] == root;
    forall part | part in s.path ensures PlainName(part) {
      var k :| 0 <= k < |s.path| && s.path[k] == part;
      if k == 0 { assert PlainName(root); }
    }
    if |s.path| == 2 { assert s.path == [root, s.path[1]]; }
  }

  /** A successful backup holds everything, within the limits that the reader applies. */
  lemma BackupHoldsEverything(config: Bytes, data: seq<Entry>, audit: seq<Entry>, maxBytes: int, maxFiles: int)
    requires Listing(data) && Listing(audit) && maxFiles >= 1
    requires BackupOf(config, data, audit, maxBytes, maxFiles).Some?
    ensures BackupOf(config, data, audit, maxBytes, maxFiles).value == Everything(config, data, audit)
    ensures Restorable(Everything(config, data, audit), maxBytes, maxFiles)
  {
    hide Listed, CollectEntries, StoredOk, RestorableFile;
    var first := [Stored([CONFIG], config)];
    var start := Collected(first, Limits(maxBytes - |config|, maxFiles - 1, maxFiles + 256));
    var one := CollectDir(data, ["data"], start).value;
    var two := CollectDir(audit, ["audit"], one).value;
    CollectIsListed(data, ["data"], start);
    CollectIsListed(audit, ["audit"], one);
    var x, y := Listed(data, ["data"]), Listed(audit, ["audit"]);
    assert two.stored == Everything(config, data, audit);
    assert first[..0] == [] && Total(first) == |config|;
    TotalConcat(first, x);
    TotalConcat(first + x, y);
    RootsApart(config, data, audit);
    ConfigIsRestorable(config);
    forall s | s in first + x + y ensures RestorableFile(s) {
      if s in x { TreeIsRestorable(s, "data"); } else if s in y { TreeIsRestorable(s, "audit"); }
    }
  }

  lemma ConfigIsRestorable(config: Bytes)
    requires |config| <= CONFIG_BYTES
    ensures RestorableFile(Stored([CONFIG], config))
  {}

  lemma RootsApart(config: Bytes, data: seq<Entry>, audit: seq<Entry>)
    requires Listing(data) && Listing(audit)
    ensures AllApart(Everything(config, data, audit))
  {
    hide Listed, Apart;
    var first, x, y := [Stored([CONFIG], config)], Listed(data, ["data"]), Listed(audit, ["audit"]);
    ListedIsApart(data, ["data"]);
    ListedIsApart(audit, ["audit"]);
    ListedUnder(data, ["data"]);
    ListedUnder(audit, ["audit"]);
    forall a, b | (a in first && b in x) || (a in first && b in y) || (a in x && b in y) ensures Apart(a, b) {
      HeadsApart(a, b);
    }
    ApartConcat(first, x);
    ApartConcat(first + x, y);
  }

  lemma HeadsApart(a: Stored, b: Stored)
    requires a.path != [] && b.path != [] && a.path[0] != b.path[0]
    ensures Apart(a, b)
  {}
}
