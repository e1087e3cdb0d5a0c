/** Opening and verifying an audit directory (internal/hub/audit.go), on a disk that can fail. */
module AuditRecovery {
  import opened Ordering
  import opened AuditChain
  import opened AuditStore
  import opened AuditSteps
  import opened AuditLog

  // ----- verifying the chain -----

  /** The scan of one segment: every entry continues the one before it. */
  method ScanEntries(c: Codec, es: seq<Entry>, sequence: nat, previous: string) returns (ok: bool, last: nat, hash: string)
    ensures ok <==> Chain(c, es, sequence, previous)
    ensures ok ==> last == sequence + |es| && hash == EndHash(es, previous)
  {
    last, hash := sequence, previous;
    for i := 0 to |es|
      invariant Chain(c, es[..i], sequence, previous) && last == sequence + i && hash == EndHash(es[..i], previous)
    {
      assert es == es[..i] + es[i..] && es[..i+1] == es[..i] + [es[i]] && [es[i]][1..] == [];
      ChainConcat(c, es[..i], es[i..], sequence, previous);
      ChainConcat(c, es[..i], [es[i]], sequence, previous);
      if !GoodEntry(c, es[i], last, hash) {
        return false, last, hash;
      }
      last, hash := es[i].sequence, es[i].hash;
    }
    assert es[..|es|] == es;
    ok := true;
  }

  method VerifySegment(c: Codec, disk: Disk, g: Segment, keep: set<FileName>, sequence: nat, previous: string)
    returns (ok: bool, ghost faulted: bool)
    requires forall n :: n in keep && n.SegmentFile? ==> n.start <= sequence
    modifies disk`clock, disk`failures
    ensures ok ==> SegmentOk(c, disk.files, g, sequence, previous)
    ensures !ok && !faulted ==> !SegmentOk(c, disk.files, g, sequence, previous)
    ensures if faulted then !ok && disk.failures > old(disk.failures) else disk.failures == old(disk.failures)
  {
    if g.name != SegmentFile(sequence + 1) || g.name in keep || g.createdAt == 0 {
      return false, false;
    }
    var readable := disk.Touch();
    if !readable {
      return false, true;
    }
    if g.name !in disk.files || !disk.files[g.name].Lines? || Bytes(c, disk.files[g.name].entries) > SEGMENT_BYTES
       || disk.files[g.name].entries == [] || disk.files[g.name].torn != 0 {
      return false, false;
    }
    var last, hash;
    ok, last, hash := ScanEntries(c, disk.files[g.name].entries, sequence, previous);
    ok, faulted := ok && last == g.lastSequence && hash == g.lastHash, false;
  }

  /** The chain of segments, carrying the entry number and the hash reached so far. */
  method VerifySegments(c: Codec, disk: Disk, s: State) returns (ok: bool, keep: set<FileName>, ghost faulted: bool)
    modifies disk`clock, disk`failures
    ensures ok ==> SegmentsOk(c, disk.files, s.segments, s.anchorSequence, s.anchorHash, s.headSequence, s.headHash) && keep == Keep(s)
    ensures !ok && !faulted ==> !SegmentsOk(c, disk.files, s.segments, s.anchorSequence, s.anchorHash, s.headSequence, s.headHash)
    ensures if faulted then !ok && disk.failures > old(disk.failures) else disk.failures == old(disk.failures)
  {
    hide SegmentOk;
    var sequence, previous := s.anchorSequence, s.anchorHash;
    keep := {StateFile, LockFile};
    faulted := false;
    for i := 0 to |s.segments|
      invariant keep == {StateFile, LockFile} + NamesOf(s.segments[..i])
      invariant disk.failures == old(disk.failures) && !faulted
      invariant forall n :: n in keep && n.SegmentFile? ==> n.start <= sequence
      invariant SegmentsOk(c, disk.files, s.segments, s.anchorSequence, s.anchorHash, s.headSequence, s.headHash)
           <==> SegmentsOk(c, disk.files, s.segments[i..], sequence, previous, s.headSequence, s.headHash)
    {
      var g := s.segments[i];
      assert s.segments[i..][0] == g && s.segments[i..][1..] == s.segments[i+1..];
      ok, faulted := VerifySegment(c, disk, g, keep, sequence, previous);
      if !ok {
        return;
      }
      AdvancesPast(c, disk.files, g, sequence, previous);
      NamesOfMore(s.segments, i);
      keep, sequence, previous := keep + {g.name}, g.lastSequence, g.lastHash;
    }
    assert s.segments[..|s.segments|] == s.segments && s.segments[|s.segments|..] == [];
    ok := sequence == s.headSequence && previous == s.headHash;
  }

  lemma AdvancesPast(c: Codec, files: Files, g: Segment, sequence: nat, previous: string)
    requires SegmentOk(c, files, g, sequence, previous)
    ensures g.name == SegmentFile(sequence + 1) && g.lastSequence > sequence
  {}

  lemma NamesOfMore(segments: seq<Segment>, i: nat)
    requires i < |segments|
    ensures NamesOf(segments[..i+1]) == NamesOf(segments[..i]) + {segments[i].name}
  {
    assert segments[..i+1] == segments[..i] + [segments[i]];
    assert segments[i] in segments[..i+1];
    forall g | g in segments[..i] ensures g in segments[..i+1] {}
  }

  // ----- removing leftovers -----

  /** `after` is `before` without some of the files that are neither kept nor foreign. */
  ghost predicate Swept(before: Files, after: Files, keep: set<FileName>, anchor: nat) {
    && after.Keys <= before.Keys && (forall n :: n in after ==> after[n] == before[n])
    && (forall n :: n in before && n !in after ==> n !in keep && Leftover(n, anchor))
  }

  /** The sweep stops at the first file it does not recognise. */
  method Sweep(disk: Disk, keep: set<FileName>, anchor: nat) returns (ok: bool, ghost faulted: bool)
    modifies disk
    ensures Swept(old(disk.files), disk.files, keep, anchor)
    ensures ok ==> disk.files.Keys <= keep
    ensures !ok && !faulted ==> exists n :: n in disk.files && n !in keep && !Leftover(n, anchor)
    ensures if faulted then !ok && disk.failures > old(disk.failures) else disk.failures == old(disk.failures)
  {
    ghost var before := disk.files;
    var names := disk.files.Keys;
    faulted := false;
    while names != {}
      invariant Swept(before, disk.files, keep, anchor)
      invariant disk.failures == old(disk.failures) && !faulted
      invariant forall n :: n in disk.files && n !in names ==> n in keep
      invariant forall n :: n in names ==> n in disk.files
      decreases |names|
    {
      var n :| n in names;
      names := names - {n};
      if n !in keep {
        if !Leftover(n, anchor) {
          return false, false;
        }
        ok := disk.Remove(n);
        if !ok {
          return false, true;
        }
      }
    }
    ok := true;
  }

  /** A sweep changes nothing about what the directory loads as. */
  lemma SweepKeepsLoad(c: Codec, before: Files, after: Files, s: State)
    requires Swept(before, after, Keep(s), s.anchorSequence) && |before| <= MAX_DIRECTORY_ENTRIES
    requires StateFile in before && before[StateFile] == StateContent(s)
    ensures LoadOf(c, after) == LoadOf(c, before)
  {
    SubsetSize(after.Keys, before.Keys);
    assert forall g :: g in s.segments ==> g.name in Keep(s);
    forall x: Files, y: Files | (x == before && y == after) || (x == after && y == before)
      ensures Intact(c, x, s) ==> Intact(c, y, s)
    {
      if Intact(c, x, s) {
        SegmentsChain(c, x, s.segments, s.anchorSequence, s.anchorHash, s.headSequence, s.headHash);
        SegmentsFrame(c, x, y, s.segments, s.anchorSequence, s.anchorHash, s.headSequence, s.headHash);
      }
    }
    assert Restrict(after, Keep(s)) == Restrict(before, Keep(s));
  }

  // ----- opening -----

  /**
   * `loadAndVerify`. Without a failing operation it decides exactly `LoadOf`; and whatever fails, and
   * wherever it stops, the directory still loads as it did before.
   */
  method LoadAndVerify(c: Codec, disk: Disk) returns (ok: bool, state: State, ghost faulted: bool)
    modifies disk
    ensures LoadOf(c, disk.files) == LoadOf(c, old(disk.files))
    ensures ok ==> LoadOf(c, disk.files) == Opened(state, disk.files)
    ensures !ok && !faulted ==> LoadOf(c, disk.files) == Refused
    ensures forall n :: n in old(disk.files) && (n == LockFile || n == StateFile) ==> n in disk.files
    ensures if faulted then !ok && disk.failures > old(disk.failures) else disk.failures == old(disk.failures)
  {
    hide SegmentsOk, Leftover;
    state := State(0, 0, "", 0, "", []);
    var readable := disk.Touch();
    if !readable {
      return false, state, true;
    }
    if StateFile !in disk.files || !disk.files[StateFile].StateContent? {
      return false, state, false;
    }
    state := disk.files[StateFile].state;
    if !StateOk(state) {
      return false, state, false;
    }
    var keep;
    ok, keep, faulted := VerifySegments(c, disk, state);
    if !ok {
      return;
    }
    var listed := disk.Touch();
    if !listed {
      return false, state, true;
    }
    if |disk.files| > MAX_DIRECTORY_ENTRIES {
      return false, state, false;
    }
    ghost var before := disk.files;
    ok, faulted := Sweep(disk, keep, state.anchorSequence);
    SweepKeepsLoad(c, before, disk.files, state);
    if ok {
      SweptIsOpened(c, before, disk.files, state);
    }
  }

  lemma SweptIsOpened(c: Codec, before: Files, after: Files, s: State)
    requires StateOk(s) && SegmentsOk(c, before, s.segments, s.anchorSequence, s.anchorHash, s.headSequence, s.headHash)
    requires Swept(before, after, Keep(s), s.anchorSequence) && |before| <= MAX_DIRECTORY_ENTRIES
    requires StateFile in before && before[StateFile] == StateContent(s) && after.Keys <= Keep(s)
    ensures LoadOf(c, after) == Opened(s, after)
  {
    SweepKeepsLoad(c, before, after, s);
    forall n | n in before ensures n in Keep(s) || Leftover(n, s.anchorSequence) {}
    assert Restrict(before, Keep(s)) == after;
  }

  const InitialState := State(1, 0, "", 0, "", [])

  /** The directory holds nothing, or only the lock. */
  predicate Empty(files: Files) { files.Keys <= {LockFile} }

  predicate RetentionOk(days: int) { days == 0 || 1 <= days <= 30 }

  /** What opening decides when every operation succeeds: an intact directory opens, an empty one is initialized. */
  predicate Opens(c: Codec, files: Files) {
    if StateFile in files then LoadOf(c, WithLock(files)).Opened? else Empty(files)
  }

  /**
   * `OpenAudit`, up to the state it adopts: a directory with a checkpoint is loaded, an empty one gets its
   * first checkpoint, and anything else without a checkpoint is refused. Without a failing operation it succeeds
   * exactly when the retention is allowed and the directory is intact or empty.
   */
  method OpenDirectory(c: Codec, disk: Disk, retentionDays: int) returns (ok: bool, state: State, retention: int, ghost faulted: bool)
    requires WellFormedDigest(c)
    modifies disk
    ensures StateFile in old(disk.files) ==> StateFile in disk.files
    ensures StateFile in old(disk.files) ==>
      LoadOf(c, disk.files) == LoadOf(c, old(disk.files)) || LoadOf(c, disk.files) == LoadOf(c, WithLock(old(disk.files)))
    ensures StateFile !in old(disk.files) && !Empty(old(disk.files)) ==>
      !ok && (disk.files == old(disk.files) || disk.files == WithLock(old(disk.files)))
    ensures StateFile !in old(disk.files) && Empty(old(disk.files)) && ok ==> state == InitialState
    ensures ok ==>
      && retention == RetentionOf(retentionDays)
      && LoadOf(c, disk.files) == Opened(state, disk.files) && LockFile in disk.files
      && (StateFile in old(disk.files) ==> LoadOf(c, disk.files) == LoadOf(c, WithLock(old(disk.files))))
    ensures ok ==> RetentionOk(retentionDays) && Opens(c, old(disk.files))
    ensures !ok && !faulted ==> !(RetentionOk(retentionDays) && Opens(c, old(disk.files)))
    ensures if faulted then !ok && disk.failures > old(disk.failures) else disk.failures == old(disk.failures)
  {
    hide Intact, Restrict;
    state, retention, faulted := InitialState, RetentionOf(retentionDays), false;
    if !RetentionOk(retentionDays) {
      return false, state, retention, false;
    }
    ok := disk.Touch();
    if !ok {
      return false, state, retention, true;
    }
    ok := disk.Lock();
    if !ok {
      return false, state, retention, true;
    }
    if StateFile !in disk.files {
      ok := disk.Touch();
      if !ok {
        return false, state, retention, true;
      }
      if !Empty(disk.files) {
        return false, state, retention, false;
      }
      assert disk.files == map[LockFile := disk.files[LockFile]];
      InitialOpens(c, disk.files[LockFile]);
      ghost var renamed, temp;
      ok, renamed, temp := disk.AtomicWriteState(InitialState);
      if !ok {
        return false, state, retention, true;
      }
    }
    ok, state, faulted := LoadAndVerify(c, disk);
  }

  /** The first checkpoint stands for the empty history. */
  lemma InitialOpens(c: Codec, lock: Content)
    requires WellFormedDigest(c)
    ensures var files := map[LockFile := lock][StateFile := StateContent(InitialState)];
            LoadOf(c, files) == Opened(InitialState, files) && Clean(c, files, InitialState, [])
  {
    var files: Files := map[LockFile := lock][StateFile := StateContent(InitialState)];
    assert files.Keys == {LockFile, StateFile};
    assert Genuine(c, []);
    assert Represents(c, files, InitialState, []);
    RepresentedOpens(c, files, InitialState, []);
    assert Restrict(files, Keep(InitialState)) == files;
  }

  /** `VerifyAudit`: it accepts, without a failing operation, exactly the intact directories with the head the caller expects. */
  method VerifyAudit(c: Codec, disk: Disk, expectedHead: string) returns (ok: bool, status: State, ghost faulted: bool)
    requires WellFormedDigest(c)
    modifies disk
    ensures StateFile !in old(disk.files) ==> !ok && disk.files == old(disk.files)
    ensures ok ==>
      && LoadOf(c, WithLock(old(disk.files))) == LoadOf(c, disk.files) == Opened(status, disk.files)
      && (expectedHead == "" || status.headHash == expectedHead)
    ensures !ok && !faulted && StateFile in old(disk.files) ==>
      var loaded := LoadOf(c, WithLock(old(disk.files)));
      loaded == Refused || (expectedHead != "" && loaded.state.headHash != expectedHead)
    ensures if faulted then !ok && disk.failures > old(disk.failures) else disk.failures == old(disk.failures)
  {
    status, faulted := InitialState, false;
    var there := disk.Touch();
    if !there {
      return false, status, true;
    }
    if StateFile !in disk.files {
      return false, status, false;
    }
    var retention;
    ok, status, retention, faulted := OpenDirectory(c, disk, 7);
    if ok && expectedHead != "" && status.headHash != expectedHead {
      ok := false;
    }
  }

  /** A directory that loads as one that represents a history represents it too. */
  lemma SameLoadRepresents(c: Codec, files: Files, after: Files, s: State, history: seq<Entry>)
    requires WellFormedDigest(c) && Represents(c, files, s, history)
    requires LoadOf(c, after) == LoadOf(c, files)
    ensures Represents(c, after, s, history)
    ensures LoadOf(c, after) == Opened(s, after) ==> Clean(c, after, s, history)
  {
    RepresentedOpens(c, files, s, history);
    var kept := Restrict(files, Keep(s));
    assert kept == Restrict(after, Keep(s));
    SegmentsChain(c, files, s.segments, s.anchorSequence, s.anchorHash, s.headSequence, s.headHash);
    forall n | n in files && n in Keep(s) ensures n in after && after[n] == files[n] {
      assert n in kept;
    }
    assert forall g :: g in s.segments ==> g.name in Keep(s);
    SegmentsFrame(c, files, after, s.segments, s.anchorSequence, s.anchorHash, s.headSequence, s.headHash);
  }
}
