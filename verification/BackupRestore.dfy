/** Reading an archive back, member by member (scripts/hub-backup.py, `safe_member` and `extract_verified`). */
module BackupRestore {
  import opened Ordering
  import opened Backup
  import FileTree

  // ----- specification -----

  predicate SafeMember(name: string) {
    var parts := Parts(name);
    && parts != [] && name[0] != '/' && '\\' !in name && "." !in FileTree.SplitSlash(name) && ".." !in FileTree.SplitSlash(name)
    && (name == MANIFEST || name == CONFIG || (parts[0] in {"data", "audit"} && 2 <= |parts| <= 4))
    && name != "data/.hub.lock" && name != "audit/.audit.lock"
  }

  datatype Extraction = Extraction(seen: Manifest, manifest: Option<Manifest>, total: int, files: map<Path, Bytes>)

  const Nothing := Extraction(map[], None, 0, map[])

  /** A new file cannot be created where a file or a directory is, nor below a file. */
  predicate Clashes(files: map<Path, Bytes>, path: Path) { exists p :: p in files && (p <= path || path <= p) }

  function LimitFor(name: string): int { if name == MANIFEST then MANIFEST_BYTES else MEMBER_BYTES }

  predicate Rejects(st: Extraction, m: Member, maxBytes: int, maxFiles: int) {
    || !m.regular || m.name in st.seen || (m.name == MANIFEST && st.manifest.Some?)
    || m.size < 0 || m.size > LimitFor(m.name)
    || (m.name != MANIFEST && (|st.seen| >= maxFiles || st.total + m.size > maxBytes))
    || |m.content| != m.size
  }

  function ExtractStep(c: Codec, st: Extraction, m: Member, maxBytes: int, maxFiles: int): Option<Extraction> {
    if m.name == "" || !SafeMember(m.name) || Rejects(st, m, maxBytes, maxFiles) then None
    else if m.name == MANIFEST then
      if c.decode(m.content).None? then None else Some(st.(manifest := c.decode(m.content)))
    else if Clashes(st.files, Parts(m.name)) then None
    else Some(st.(seen := st.seen[m.name := SummaryFor(c, m.content)], total := st.total + |m.content|,
                  files := st.files[Parts(m.name) := m.content]))
  }

  function ExtractAll(c: Codec, members: seq<Member>, maxBytes: int, maxFiles: int): Option<Extraction> {
    if members == [] then Some(Nothing)
    else
      var before := ExtractAll(c, members[..|members|-1], maxBytes, maxFiles);
      if before.None? then None else ExtractStep(c, before.value, members[|members|-1], maxBytes, maxFiles)
  }

  predicate Matches(st: Extraction) { st.manifest == Some(st.seen) && CONFIG in st.seen }

  /** The restored files, or none if the archive is refused. */
  function RestoreOf(c: Codec, members: seq<Member>, maxBytes: int, maxFiles: int): Option<map<Path, Bytes>> {
    var st := ExtractAll(c, members, maxBytes, maxFiles);
    if st.Some? && Matches(st.value) then Some(st.value.files) else None
  }

  // ----- the same, as the script does it -----

  method ExtractVerified(c: Codec, members: seq<Member>, maxBytes: int, maxFiles: int) returns (files: Option<map<Path, Bytes>>)
    ensures files == RestoreOf(c, members, maxBytes, maxFiles)
  {
    hide SafeMember, Clashes;
    var seen: Manifest := map[];
    var manifest: Option<Manifest> := None;
    var total := 0;
    var target: map<Path, Bytes> := map[];
    for i := 0 to |members|
      invariant ExtractAll(c, members[..i], maxBytes, maxFiles) == Some(Extraction(seen, manifest, total, target))
    {
      var m := members[i];
      assert members[..i+1][..i] == members[..i];
      if m.name == "" || !SafeMember(m.name) || Rejects(Extraction(seen, manifest, total, target), m, maxBytes, maxFiles) {
        FailureIsFinal(c, members, i + 1, maxBytes, maxFiles);
        return None;
      }
      if m.name == MANIFEST {
        manifest := c.decode(m.content);
        if manifest.None? {
          FailureIsFinal(c, members, i + 1, maxBytes, maxFiles);
          return None;
        }
      } else {
        var clash := Exists(target, Parts(m.name));
        if clash {
          FailureIsFinal(c, members, i + 1, maxBytes, maxFiles);
          return None;
        }
        target := target[Parts(m.name) := m.content];
        seen := seen[m.name := SummaryFor(c, m.content)];
        total := total + |m.content|;
      }
    }
    assert members[..|members|] == members;
    if manifest != Some(seen) || CONFIG !in seen {
      return None;
    }
    return Some(target);
  }

  method Exists(files: map<Path, Bytes>, path: Path) returns (clash: bool)
    ensures clash == Clashes(files, path)
  {
    var rest := files.Keys;
    while rest != {}
      invariant rest <= files.Keys && forall p :: p in files && p !in rest ==> !(p <= path || path <= p)
      decreases rest
    {
      var p :| p in rest;
      rest := rest - {p};
      if p <= path || path <= p {
        return true;
      }
    }
    return false;
  }

  lemma {:induction false} FailureIsFinal(c: Codec, members: seq<Member>, i: nat, maxBytes: int, maxFiles: int)
    requires i <= |members| && ExtractAll(c, members[..i], maxBytes, maxFiles).None?
    ensures ExtractAll(c, members, maxBytes, maxFiles).None?
    decreases |members|
  {
    if i == |members| {
      assert members[..i] == members;
    } else {
      assert members[..|members|-1][..i] == members[..i];
      FailureIsFinal(c, members[..|members|-1], i, maxBytes, maxFiles);
    }
  }

  // ----- whatever is accepted agrees with its manifest -----

  /** Every name seen is a restored file with that size and digest, and every restored file has a name. */
  ghost predicate Faithful(c: Codec, st: Extraction) {
    && (forall name :: name in st.seen ==> Parts(name) in st.files && st.seen[name] == SummaryFor(c, st.files[Parts(name)]))
    && (forall path :: path in st.files ==> exists name :: name in st.seen && Parts(name) == path)
  }

  lemma FaithfulStep(c: Codec, st: Extraction, m: Member, maxBytes: int, maxFiles: int)
    requires Faithful(c, st) && ExtractStep(c, st, m, maxBytes, maxFiles).Some?
    requires |st.seen| <= maxFiles && st.total <= maxBytes
    ensures var after := ExtractStep(c, st, m, maxBytes, maxFiles).value;
            Faithful(c, after) && |after.seen| <= maxFiles && after.total <= maxBytes
  {
    hide SafeMember, Parts;
    if m.name != MANIFEST {
      var after := ExtractStep(c, st, m, maxBytes, maxFiles).value;
      forall name | name in st.seen ensures Parts(name) != Parts(m.name) {
        assert Parts(name) in st.files;
      }
      forall path | path in after.files ensures exists name :: name in after.seen && Parts(name) == path {
        if path == Parts(m.name) {
          assert m.name in after.seen;
        } else {
          var name :| name in st.seen && Parts(name) == path;
          assert name in after.seen;
        }
      }
    }
  }

  lemma {:induction false} FaithfulAlways(c: Codec, members: seq<Member>, maxBytes: int, maxFiles: int)
    requires maxBytes >= 0 && maxFiles >= 0 && ExtractAll(c, members, maxBytes, maxFiles).Some?
    ensures var st := ExtractAll(c, members, maxBytes, maxFiles).value;
            Faithful(c, st) && |st.seen| <= maxFiles && st.total <= maxBytes
    decreases |members|
  {
    hide ExtractStep, Faithful;
    if members == [] {
      NothingIsFaithful(c);
    } else {
      var n := |members| - 1;
      FaithfulAlways(c, members[..n], maxBytes, maxFiles);
      FaithfulStep(c, ExtractAll(c, members[..n], maxBytes, maxFiles).value, members[n], maxBytes, maxFiles);
    }
  }

  lemma NothingIsFaithful(c: Codec)
    ensures Faithful(c, Nothing)
  {}

  /** An accepted archive restores exactly the files of its manifest, whoever made it, and within the limits. */
  lemma {:induction false} AcceptedMatchesManifest(c: Codec, members: seq<Member>, maxBytes: int, maxFiles: int)
    requires maxBytes >= 0 && maxFiles >= 0 && RestoreOf(c, members, maxBytes, maxFiles).Some?
    ensures var st := ExtractAll(c, members, maxBytes, maxFiles).value;
            && st.manifest.Some? && CONFIG in st.manifest.value && |st.manifest.value| <= maxFiles
            && st.files == RestoreOf(c, members, maxBytes, maxFiles).value
            && Faithful(c, st.(seen := st.manifest.value))
  {
    FaithfulAlways(c, members, maxBytes, maxFiles);
  }

  // ----- whatever is accepted is safe to write -----

  lemma {:induction false} NonEmptyAre(parts: Path)
    ensures forall part :: part in NonEmpty(parts) <==> part in parts && part != ""
    decreases |parts|
  {
    if parts != [] { NonEmptyAre(parts[1..]); }
  }

  /** The configuration, or a file two to four names deep in one of the two trees, no name of which leads elsewhere. */
  predicate SafePlace(path: Path) {
    && (path == ["config.json"] || (2 <= |path| <= 4 && (path[0] == "data" || path[0] == "audit")))
    && forall part :: part in path ==> part != "" && part != "." && part != ".." && '/' !in part && '\\' !in part
  }

  lemma SafeMembersGoToSafePlaces(name: string)
    requires name != "" && SafeMember(name) && name != MANIFEST
    ensures SafePlace(Parts(name))
  {
    hide FileTree.SplitSlash, NonEmpty;
    SplitHasNoSlash(name);
    NonEmptyAre(FileTree.SplitSlash(name));
    if name == CONFIG {
      SplitPlain(CONFIG);
      assert Parts(name) == [CONFIG] by { NonEmptyOne(CONFIG); }
    }
    assert "" !in Parts(name);
  }

  lemma NonEmptyOne(a: string)
    requires a != ""
    ensures NonEmpty([a]) == [a]
  {
    assert [a][1..] == [];
  }

  /** Whoever made the archive: every restored file has at most 16 MiB and a safe place. */
  lemma {:induction false} RestoredIsSafe(c: Codec, members: seq<Member>, maxBytes: int, maxFiles: int)
    requires ExtractAll(c, members, maxBytes, maxFiles).Some?
    ensures var files := ExtractAll(c, members, maxBytes, maxFiles).value.files;
            forall path :: path in files ==> SafePlace(path) && |files[path]| <= 16_777_216
    decreases |members|
  {
    hide SafeMember, Parts, SafePlace, Clashes;
    if members != [] {
      var m := members[|members|-1];
      RestoredIsSafe(c, members[..|members|-1], maxBytes, maxFiles);
      if m.name != MANIFEST { SafeMembersGoToSafePlaces(m.name); }
    }
  }

  // ----- the round trip -----

  predicate Portable(s: Stored) { forall part :: part in s.path ==> '\\' !in part }

  lemma JoinFacts(path: Path)
    requires PlainPath(path)
    ensures var name := Join(path);
            FileTree.SplitSlash(name) == Parts(name) == path && name != "" && name[0] != '/' && "." !in FileTree.SplitSlash(name) && ".." !in FileTree.SplitSlash(name)
  {
    SplitOfJoin(path);
    var name := Join(path);
    assert PlainName(path[0]);
    assert FileTree.SplitSlash("") == [""];
    assert FileTree.SplitSlash(name)[0] == path[0] && path[0] != "";
    assert !PlainName(".") && !PlainName("..");
  }

  /** Different paths have different names. */
  lemma JoinIsInjective(a: Path, b: Path)
    requires PlainPath(a) && PlainPath(b)
    ensures Join(a) == Join(b) <==> a == b
  {
    SplitOfJoin(a);
    SplitOfJoin(b);
  }

  lemma JoinTwo(a: string, b: string)
    ensures Join([a, b]) == a + "/" + b
  {
    assert [a, b][1..] == [b];
  }

  lemma ConstantNames()
    ensures PlainPath([CONFIG]) && PlainPath([MANIFEST]) && PlainPath(["data", ".hub.lock"]) && PlainPath(["audit", ".audit.lock"])
  {
    hide Join;
  }

  lemma SpecialNames(path: Path)
    requires PlainPath(path)
    ensures Join(path) == CONFIG <==> path == [CONFIG]
    ensures Join(path) == MANIFEST <==> path == [MANIFEST]
    ensures Join(path) == "data/.hub.lock" <==> path == ["data", ".hub.lock"]
    ensures Join(path) == "audit/.audit.lock" <==> path == ["audit", ".audit.lock"]
  {
    hide PlainPath, Join;
    ConstantNames();
    JoinTwo("data", ".hub.lock");
    JoinTwo("audit", ".audit.lock");
    JoinOne(CONFIG);
    JoinOne(MANIFEST);
    assert "data" + "/" + ".hub.lock" == "data/.hub.lock" && "audit" + "/" + ".audit.lock" == "audit/.audit.lock";
    JoinIsInjective(path, [CONFIG]);
    JoinIsInjective(path, [MANIFEST]);
    JoinIsInjective(path, ["data", ".hub.lock"]);
    JoinIsInjective(path, ["audit", ".audit.lock"]);
  }

  lemma JoinOne(a: string)
    ensures Join([a]) == a
  {}

  lemma {:induction false} NameOf(s: Stored)
    requires RestorableFile(s)
    ensures s.path != []
    ensures var name := Join(s.path);
            && Parts(name) == s.path && name != "" && name != MANIFEST && (name == CONFIG <==> s.path == [CONFIG])
            && (SafeMember(name) <==> Portable(s))
  {
    hide Join, FileTree.SplitSlash, NonEmpty, Parts, PlainName;
    JoinFacts(s.path);
    SpecialNames(s.path);
    BackslashOfJoin(s.path);
  }

  lemma {:induction false} KeysOf(c: Codec, stored: seq<Stored>)
    ensures forall name :: name in ManifestFor(c, stored) <==> exists s :: s in stored && Join(s.path) == name
    ensures forall path :: path in FilesFor(stored) <==> exists s :: s in stored && s.path == path
    ensures |ManifestFor(c, stored)| <= |stored|
    decreases |stored|
  {
    if stored != [] {
      var n := |stored| - 1;
      assert stored == stored[..n] + [stored[n]];
      KeysOf(c, stored[..n]);
    }
  }

  lemma NameIsNew(c: Codec, stored: seq<Stored>, s: Stored)
    requires RestorableFile(s) && forall t :: t in stored ==> RestorableFile(t) && Apart(t, s)
    ensures s.path != [] && Join(s.path) !in ManifestFor(c, stored)
  {
    hide SafeMember, Parts, RestorableFile, Apart, Portable, Join, ManifestFor;
    FileFacts(s);
    NameOf(s);
    KeysOf(c, stored);
    forall t | t in stored ensures Join(t.path) != Join(s.path) {
      NameOf(t);
      ApartPaths(t, s);
    }
  }

  lemma PathIsFree(c: Codec, stored: seq<Stored>, s: Stored)
    requires forall t :: t in stored ==> Apart(t, s)
    ensures !Clashes(FilesFor(stored), s.path)
  {
    hide Apart, FilesFor;
    KeysOf(c, stored);
    forall p | p in FilesFor(stored) ensures !(p <= s.path || s.path <= p) {
      var t :| t in stored && t.path == p;
      ApartPaths(t, s);
    }
  }

  lemma OneMoreFits(stored: seq<Stored>, s: Stored, maxBytes: int, maxFiles: int)
    requires Restorable(stored + [s], maxBytes, maxFiles)
    ensures |stored| < maxFiles && Total(stored) + |s.content| <= maxBytes && RestorableFile(s)
  {
    hide AllApart, RestorableFile;
    assert (stored + [s])[..|stored|] == stored && s in stored + [s];
  }

  /** One stored file more is accepted exactly when it has no backslash in its path. */
  lemma NextIsAccepted(c: Codec, stored: seq<Stored>, s: Stored, maxBytes: int, maxFiles: int)
    requires Restorable(stored + [s], maxBytes, maxFiles)
    requires forall t :: t in stored ==> RestorableFile(t) && Apart(t, s)
    ensures s.path != []
    ensures var before := Extraction(ManifestFor(c, stored), None, Total(stored), FilesFor(stored));
            ExtractStep(c, before, MemberFor(s), maxBytes, maxFiles) ==
              if !Portable(s) then None
              else Some(Extraction(ManifestFor(c, stored)[Join(s.path) := SummaryFor(c, s.content)], None, Total(stored) + |s.content|,
                                   FilesFor(stored)[s.path := s.content]))
  {
    hide SafeMember, Parts, RestorableFile, Apart, Portable, Clashes, Restorable, Join, ManifestFor, FilesFor, Total;
    OneMoreFits(stored, s, maxBytes, maxFiles);
    FileFacts(s);
    NameOf(s);
    KeysOf(c, stored);
    NameIsNew(c, stored, s);
    PathIsFree(c, stored, s);
  }

  lemma ApartPaths(t: Stored, s: Stored)
    requires Apart(t, s)
    ensures t.path != s.path && !(t.path <= s.path) && !(s.path <= t.path)
  {}

  lemma FileFacts(s: Stored)
    requires RestorableFile(s)
    ensures s.path != [] && |s.content| <= MEMBER_BYTES
  {}

  lemma RestorableFront(stored: seq<Stored>, maxBytes: int, maxFiles: int)
    requires stored != [] && Restorable(stored, maxBytes, maxFiles)
    ensures Restorable(stored[..|stored|-1], maxBytes, maxFiles)
    ensures forall t :: t in stored[..|stored|-1] ==> RestorableFile(t) && Apart(t, stored[|stored|-1])
  {
    hide RestorableFile, Apart;
    var n := |stored| - 1;
    assert stored == stored[..n] + [stored[n]];
  }

  /** Nothing restored overwrites anything else: every stored file is there with its own content, and no other. */
  lemma {:induction false} FilesAreTheStored(stored: seq<Stored>)
    requires AllApart(stored)
    ensures forall s :: s in stored ==> s.path in FilesFor(stored) && FilesFor(stored)[s.path] == s.content
    ensures forall path :: path in FilesFor(stored) ==> exists s :: s in stored && s.path == path
    decreases |stored|
  {
    if stored != [] {
      var n := |stored| - 1;
      assert stored == stored[..n] + [stored[n]];
      FilesAreTheStored(stored[..n]);
      forall s | s in stored[..n] ensures s.path != stored[n].path {
        var i :| 0 <= i < n && stored[..n][i] == s;
        ApartPaths(stored[i], stored[n]);
      }
    }
  }

  predicate AllPortable(stored: seq<Stored>) { forall s :: s in stored ==> Portable(s) }

  lemma {:induction false} ExtractsWhatIsStored(c: Codec, stored: seq<Stored>, maxBytes: int, maxFiles: int)
    requires Restorable(stored, maxBytes, maxFiles)
    ensures ExtractAll(c, MembersFor(stored), maxBytes, maxFiles) ==
      if AllPortable(stored) then Some(Extraction(ManifestFor(c, stored), None, Total(stored), FilesFor(stored))) else None
    decreases |stored|
  {
    hide ExtractStep, Restorable, Portable;
    if stored != [] {
      var n := |stored| - 1;
      assert stored == stored[..n] + [stored[n]];
      RestorableFront(stored, maxBytes, maxFiles);
      ExtractsWhatIsStored(c, stored[..n], maxBytes, maxFiles);
      NextIsAccepted(c, stored[..n], stored[n], maxBytes, maxFiles);
      assert MembersFor(stored)[..n] == MembersFor(stored[..n]) by { MembersLength(stored[..n]); }
      MembersLength(stored);
      assert AllPortable(stored) <==> AllPortable(stored[..n]) && Portable(stored[n]);
    }
  }

  lemma {:induction false} MembersLength(stored: seq<Stored>)
    ensures |MembersFor(stored)| == |stored|
    decreases |stored|
  {
    if stored != [] { MembersLength(stored[..|stored|-1]); }
  }

  lemma ManifestIsRead(c: Codec, stored: seq<Stored>)
    requires stored != [] && |c.encode(ManifestFor(c, stored))| <= MANIFEST_BYTES && Stored([CONFIG], stored[0].content) == stored[0]
    requires forall s :: s in stored ==> RestorableFile(s)
    requires c.decode(c.encode(ManifestFor(c, stored))) == Some(ManifestFor(c, stored))
    ensures CONFIG in ManifestFor(c, stored)
    ensures SafeMember(MANIFEST) && MANIFEST !in ManifestFor(c, stored)
  {
    hide RestorableFile, Parts;
    KeysOf(c, stored);
    assert stored[0] in stored && Join(stored[0].path) == CONFIG;
    if MANIFEST in ManifestFor(c, stored) {
      var s :| s in stored && Join(s.path) == MANIFEST;
      NameOf(s);
    }
    ManifestIsSafe();
  }

  lemma ManifestIsSafe()
    ensures SafeMember(MANIFEST)
  {
    hide Join, FileTree.SplitSlash, NonEmpty, Parts, PlainName;
    ConstantNames();
    JoinOne(MANIFEST);
    JoinFacts([MANIFEST]);
  }

  /**
   * A backup that succeeds, restored under the same limits, gives back exactly the files it was made from --
   * every byte, nothing more -- if and only if no path in it has a backslash. Otherwise it is refused.
   */
  lemma {:induction false} RoundTrip(c: Codec, config: Bytes, data: seq<Entry>, audit: seq<Entry>, maxBytes: int, maxFiles: int, members: seq<Member>)
    requires forall m :: c.decode(c.encode(m)) == Some(m)
    requires Listing(data) && Listing(audit) && maxBytes >= 1 && maxFiles >= 1
    requires ArchiveOf(c, config, data, audit, maxBytes, maxFiles) == Some(members)
    ensures RestoreOf(c, members, maxBytes, maxFiles) ==
      if AllPortable(Everything(config, data, audit)) then Some(FilesFor(Everything(config, data, audit))) else None
  {
    hide ExtractStep, Everything, SafeMember, AllPortable, BackupOf, RestorableFile;
    var stored := Everything(config, data, audit);
    BackupHoldsEverything(config, data, audit, maxBytes, maxFiles);
    ExtractsWhatIsStored(c, stored, maxBytes, maxFiles);
    EverythingStartsWithConfig(config, data, audit);
    ManifestIsRead(c, stored);
    var n := |members| - 1;
    assert members[..n] == MembersFor(stored);
    if AllPortable(stored) {
      ManifestStep(c, Extraction(ManifestFor(c, stored), None, Total(stored), FilesFor(stored)), members[n], maxBytes, maxFiles);
    }
  }

  lemma EverythingStartsWithConfig(config: Bytes, data: seq<Entry>, audit: seq<Entry>)
    ensures Everything(config, data, audit) != [] && Everything(config, data, audit)[0] == Stored([CONFIG], config)
  {}

  lemma ManifestStep(c: Codec, st: Extraction, m: Member, maxBytes: int, maxFiles: int)
    requires m.name == MANIFEST && m.regular && m.size == |m.content| <= MANIFEST_BYTES && SafeMember(MANIFEST)
    requires MANIFEST !in st.seen && st.manifest.None? && c.decode(m.content).Some?
    ensures ExtractStep(c, st, m, maxBytes, maxFiles) == Some(st.(manifest := c.decode(m.content)))
  {}
}
