/** Which files a backup takes, and when it succeeds (scripts/hub-backup.py, `collect` and `backup`). */
module BackupLimits {
  import opened Ordering
  import opened Backup

  // ----- which files -----

  /** Following the names of `path` leads to this file. */
  predicate HasFile(entries: seq<Entry>, path: Path, content: Bytes)
    decreases entries, 1
  {
    entries != [] && (IsFile(entries[0], path, content) || HasFile(entries[1..], path, content))
  }

  predicate IsFile(e: Entry, path: Path, content: Bytes)
    decreases e, 0
  {
    path != [] && e.name == path[0] &&
    match e.node
    case File(x) => |path| == 1 && x == content
    case Dir(children) => HasFile(children, path[1..], content)
    case Special => false
  }

  predicate Takes(entries: seq<Entry>, prefix: Path, s: Stored) {
    && |prefix| < |s.path| && prefix <= s.path && !IsLock(prefix, s.path[|prefix|])
    && HasFile(entries, s.path[|prefix|..], s.content)
  }

  lemma {:induction false} ListedEntryIff(e: Entry, prefix: Path, s: Stored)
    requires prefix != []
    ensures s in ListedEntry(e, prefix) <==>
      |prefix| < |s.path| && prefix <= s.path && !IsLock(prefix, e.name) && IsFile(e, s.path[|prefix|..], s.content)
    decreases e, 0
  {
    var deeper := prefix + [e.name];
    if e.node.Dir? {
      ListedIff(e.node.entries, deeper, s);
      if |prefix| < |s.path| && prefix <= s.path {
        assert s.path[|prefix|..][1..] == s.path[|deeper|..];
        assert deeper <= s.path <==> s.path[|prefix|] == e.name;
        NothingBelowIsFile(e.node.entries, s.content);
      }
    } else if |prefix| < |s.path| && prefix <= s.path && |s.path| == |prefix| + 1 {
      assert s.path == prefix + [s.path[|prefix|]];
    }
  }

  lemma {:induction false} NothingBelowIsFile(entries: seq<Entry>, content: Bytes)
    ensures !HasFile(entries, [], content)
    decreases entries
  {
    if entries != [] { NothingBelowIsFile(entries[1..], content); }
  }

  lemma {:induction false} ListedIff(entries: seq<Entry>, prefix: Path, s: Stored)
    requires prefix != []
    ensures s in Listed(entries, prefix) <==> Takes(entries, prefix, s)
    decreases entries, 1
  {
    if entries != [] {
      ListedEntryIff(entries[0], prefix, s);
      ListedIff(entries[1..], prefix, s);
      if |prefix| < |s.path| && prefix <= s.path {
        var below := s.path[|prefix|..];
        assert below[0] == s.path[|prefix|];
        assert HasFile(entries, below, s.content) <==> IsFile(entries[0], below, s.content) || HasFile(entries[1..], below, s.content);
      }
    }
  }

  /** A backup holds the configuration and every regular file of the two trees but the lock at the root of each. */
  lemma EverythingIff(config: Bytes, data: seq<Entry>, audit: seq<Entry>, s: Stored)
    ensures s in Everything(config, data, audit) <==>
      || s == Stored(["config.json"], config)
      || (|s.path| > 1 && s.path[0] == "data" && s.path[1] != ".hub.lock" && HasFile(data, s.path[1..], s.content))
      || (|s.path| > 1 && s.path[0] == "audit" && s.path[1] != ".audit.lock" && HasFile(audit, s.path[1..], s.content))
  {
    hide Listed, HasFile;
    ListedIff(data, ["data"], s);
    ListedIff(audit, ["audit"], s);
  }

  // ----- when it succeeds -----

  /** Nothing in it has to be refused: names are plain, files within 16 MiB, directories at most three deep, and nothing special. */
  predicate Tidy(entries: seq<Entry>, prefix: Path)
    decreases entries, 1
  {
    |prefix| <= 3 && (entries == [] || (TidyEntry(entries[0], prefix) && Tidy(entries[1..], prefix)))
  }

  predicate TidyEntry(e: Entry, prefix: Path)
    decreases e, 0
  {
    && '/' !in e.name && e.name != "." && e.name != ".."
    && (IsLock(prefix, e.name) ||
        match e.node
        case File(content) => |content| <= 16_777_216
        case Dir(children) => Tidy(children, prefix + [e.name])
        case Special => false)
  }

  /** How many names are listed, those of the locks and of the directories included. */
  function Names(entries: seq<Entry>, prefix: Path): (n: nat)
    decreases entries, 1
  {
    if entries == [] then 0 else 1 + NamesBelow(entries[0], prefix) + Names(entries[1..], prefix)
  }

  function NamesBelow(e: Entry, prefix: Path): (n: nat)
    decreases e, 0
  {
    if e.node.Dir? && !IsLock(prefix, e.name) then Names(e.node.entries, prefix + [e.name]) else 0
  }

  lemma {:induction false} EveryNameCounts(entries: seq<Entry>, prefix: Path)
    ensures |entries| <= Names(entries, prefix)
    decreases |entries|
  {
    if entries != [] { EveryNameCounts(entries[1..], prefix); }
  }

  predicate Roomy(l: Limits) { l.bytes >= 0 && l.files >= 0 && l.entries >= 0 }

  /** What is left once this much is taken. */
  function Left(l: Limits, stored: seq<Stored>, names: nat): Limits { Limits(l.bytes - Total(stored), l.files - |stored|, l.entries - names) }

  lemma LeftTwice(l: Limits, x: seq<Stored>, m: nat, y: seq<Stored>, n: nat)
    ensures Left(Left(l, x, m), y, n) == Left(l, x + y, m + n)
  {
    TotalConcat(x, y);
  }

  /** What one entry adds, its name aside. */
  function EntryCollected(e: Entry, prefix: Path, counted: Collected): Option<Collected> {
    if counted.limits.entries < 0 then None
    else if IsLock(prefix, e.name) then Some(counted)
    else match e.node
      case Dir(children) => CollectDir(children, prefix + [e.name], counted)
      case File(content) =>
        if counted.limits.files <= 0 || |content| > Min(MEMBER_BYTES, counted.limits.bytes) then None
        else Some(WithFile(counted, prefix + [e.name], content))
      case Special => None
  }

  lemma {:induction false} EntrySucceedsIff(e: Entry, prefix: Path, counted: Collected)
    requires |prefix| <= 3 && counted.limits.bytes >= 0 && counted.limits.files >= 0 && counted.limits.entries >= -1
    requires '/' !in e.name && e.name != "." && e.name != ".."
    ensures var left := Left(counted.limits, ListedEntry(e, prefix), NamesBelow(e, prefix));
            && (EntryCollected(e, prefix, counted).Some? <==> TidyEntry(e, prefix) && Roomy(left))
            && (EntryCollected(e, prefix, counted).Some? ==> EntryCollected(e, prefix, counted).value.limits == left)
    decreases e, 0
  {
    if counted.limits.entries >= 0 && !IsLock(prefix, e.name) {
      match e.node
      case Dir(children) =>
        EveryNameCounts(children, prefix + [e.name]);
        if |prefix| < 3 { CollectSucceedsIff(children, prefix + [e.name], counted); }
      case File(content) => TotalOfOneFile(Stored(prefix + [e.name], content));
      case Special =>
    }
  }

  lemma TotalOfOneFile(s: Stored)
    ensures Total([s]) == |s.content|
  {
    assert [s][..0] == [];
  }

  lemma {:induction false} CollectSucceedsIff(entries: seq<Entry>, prefix: Path, st: Collected)
    requires |prefix| <= 3 && Roomy(st.limits)
    ensures var left := Left(st.limits, Listed(entries, prefix), Names(entries, prefix));
            && (CollectEntries(entries, prefix, st).Some? <==> Tidy(entries, prefix) && Roomy(left))
            && (CollectEntries(entries, prefix, st).Some? ==> CollectEntries(entries, prefix, st).value.limits == left)
    decreases entries, 1
  {
    if entries != [] {
      var e, rest := entries[0], entries[1..];
      var counted := st.(limits := st.limits.(entries := st.limits.entries - 1));
      if '/' !in e.name && e.name != "." && e.name != ".." { EntrySucceedsIff(e, prefix, counted); }
      var next := EntryCollected(e, prefix, counted);
      LeftTwice(st.limits, ListedEntry(e, prefix), 1 + NamesBelow(e, prefix), Listed(rest, prefix), Names(rest, prefix));
      if TidyEntry(e, prefix) && next.Some? { CollectSucceedsIff(rest, prefix, next.value); }
    }
  }

  lemma DirectorySucceedsIff(entries: seq<Entry>, prefix: Path, st: Collected)
    requires |prefix| <= 3 && Roomy(st.limits)
    ensures var left := Left(st.limits, Listed(entries, prefix), Names(entries, prefix));
            && (CollectDir(entries, prefix, st).Some? <==> Tidy(entries, prefix) && Roomy(left))
            && (CollectDir(entries, prefix, st).Some? ==> CollectDir(entries, prefix, st).value.limits == left)
  {
    EveryNameCounts(entries, prefix);
    CollectSucceedsIff(entries, prefix, st);
  }

  /**
   * A backup succeeds exactly if the configuration has at most 64 KiB, both trees are tidy, everything together keeps to the limits of
   * files and bytes, and the trees list at most 256 names more than the files allowed.
   */
  lemma BackupSucceedsIff(config: Bytes, data: seq<Entry>, audit: seq<Entry>, maxBytes: int, maxFiles: int)
    requires maxFiles >= 1
    ensures BackupOf(config, data, audit, maxBytes, maxFiles).Some? <==>
      && |config| <= 65536 && Tidy(data, ["data"]) && Tidy(audit, ["audit"])
      && Total(Everything(config, data, audit)) <= maxBytes && |Everything(config, data, audit)| <= maxFiles
      && Names(data, ["data"]) + Names(audit, ["audit"]) <= maxFiles + 256
  {
    hide Tidy, Names, Listed, CollectDir, Total;
    var first, x, y := [Stored([CONFIG], config)], Listed(data, ["data"]), Listed(audit, ["audit"]);
    TotalOfOneFile(first[0]);
    TotalConcat(first, x);
    TotalConcat(first + x, y);
    if |config| <= Min(CONFIG_BYTES, maxBytes) {
      var start := Collected(first, Limits(maxBytes - |config|, maxFiles - 1, maxFiles + 256));
      DirectorySucceedsIff(data, ["data"], start);
      if CollectDir(data, ["data"], start).Some? { DirectorySucceedsIff(audit, ["audit"], CollectDir(data, ["data"], start).value); }
    }
  }
}
