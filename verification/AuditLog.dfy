/**
 * The running audit log (internal/hub/audit.go) over a disk on which every operation can fail.
 *
 * A crash is a failing operation: the program stops at its first failure, so the states a crash can
 * leave behind are those in which some operation failed with some part of its effect done.
 */
module AuditLog {
  import opened Ordering
  import opened AuditChain
  import opened AuditStore
  import opened AuditSteps

  /** Whether an operation succeeds; if not, whether some (`reached > 0`) or how much of it was done. */
  datatype Fate = Fate(succeeds: bool, reached: nat, tempId: nat)

  function WithLock(files: Files): Files { if LockFile in files then files else files[LockFile := Junk] }

  class Disk {
    const fate: nat -> Fate
    var clock: nat
    var files: Files
    /** How many operations have failed. */
    ghost var failures: nat

    constructor (fate: nat -> Fate, files: Files)
      ensures this.fate == fate && this.files == files
    {
      this.fate, clock, this.files, failures := fate, 0, files, 0;
    }

    method Draw() returns (f: Fate)
      modifies `clock, `failures
      ensures failures == old(failures) + if f.succeeds then 0 else 1
    {
      f := fate(clock);
      clock := clock + 1;
      if !f.succeeds { failures := failures + 1; }
    }

    /** `os.CreateTemp`, writing, syncing and closing: a temporary file with a new name, if it was created. */
    method WriteTemp(content: Content) returns (ok: bool, name: FileName, created: bool)
      modifies this
      ensures name.Temp? && (created ==> name !in old(files))
      ensures ok ==> created && files == old(files)[name := content]
      ensures !ok ==> files == if created then old(files)[name := Junk] else old(files)
      ensures if ok then failures == old(failures) else failures > old(failures)
    {
      var f := Draw();
      name := Temp(f.tempId);
      created := name !in files && (f.succeeds || f.reached > 0);
      ok := created && f.succeeds;
      if ok {
        files := files[name := content];
      } else if created {
        files := files[name := Junk];
      }
      if f.succeeds && !ok { failures := failures + 1; }
    }

    method Rename(from: FileName, to: FileName) returns (ok: bool, ghost done: bool)
      requires from in files && from != to
      modifies this
      ensures ok ==> done
      ensures files == if done then (old(files) - {from})[to := old(files)[from]] else old(files)
      ensures if ok then failures == old(failures) else failures > old(failures)
    {
      var f := Draw();
      if f.succeeds || f.reached > 0 {
        files := (files - {from})[to := files[from]];
        done := true;
      } else {
        done := false;
      }
      ok := f.succeeds;
    }

    /** `acquireLock`, with the lock file created when it is not there. */
    method Lock() returns (ok: bool)
      modifies this
      ensures files == old(files) || files == WithLock(old(files))
      ensures ok ==> files == WithLock(old(files))
      ensures if ok then failures == old(failures) else failures > old(failures)
    {
      var f := Draw();
      if f.succeeds || f.reached > 0 {
        files := WithLock(files);
      }
      ok := f.succeeds;
    }

    /** `os.Remove`; a missing file counts as removed. */
    method Remove(name: FileName) returns (ok: bool)
      modifies this
      ensures files == old(files) || files == old(files) - {name}
      ensures ok ==> name !in files
      ensures if ok then failures == old(failures) else failures > old(failures)
    {
      var f := Draw();
      if f.succeeds || f.reached > 0 {
        files := files - {name};
      }
      ok := f.succeeds;
    }

    /** `O_CREATE | O_EXCL`. */
    method Create(name: FileName) returns (ok: bool)
      modifies this
      ensures ok ==> name !in old(files) && files == old(files)[name := Lines([], 0)]
      ensures !ok ==> files == old(files) || (name !in old(files) && files == old(files)[name := Lines([], 0)])
      ensures if ok then failures == old(failures) else failures > old(failures) || name in old(files)
    {
      var f := Draw();
      if name in files {
        return false;
      }
      if f.succeeds || f.reached > 0 {
        files := files[name := Lines([], 0)];
      }
      ok := f.succeeds;
    }

    /** Appending one line, syncing and closing: on failure some bytes of it may be there, or all of them. */
    method AppendLine(c: Codec, name: FileName, e: Entry) returns (ok: bool)
      requires name in files && files[name].Lines? && files[name].torn == 0
      modifies this
      ensures ok ==> files == old(files)[name := Lines(old(files)[name].entries + [e], 0)]
      ensures !ok ==>
        || files == old(files)
        || files == old(files)[name := Lines(old(files)[name].entries + [e], 0)]
        || exists torn: nat :: torn > 0 && files == old(files)[name := Lines(old(files)[name].entries, torn)]
      ensures if ok then failures == old(failures) else failures > old(failures)
    {
      var f := Draw();
      var es := files[name].entries;
      if f.succeeds || f.reached >= c.size(e) {
        files := files[name := Lines(es + [e], 0)];
      } else if f.reached > 0 {
        files := files[name := Lines(es, f.reached)];
      }
      ok := f.succeeds;
    }

    /** An operation with no effect on the files: `Lstat`, opening, syncing the directory. */
    method Touch() returns (ok: bool)
      modifies `clock, `failures
      ensures if ok then failures == old(failures) else failures > old(failures)
    {
      var f := Draw();
      ok := f.succeeds;
    }

    /** `atomicWrite` of the state file; `temp` is the one file it may leave behind. */
    method AtomicWriteState(s: State) returns (ok: bool, ghost renamed: bool, ghost temp: FileName)
      modifies this
      ensures ok ==> renamed
      ensures renamed ==> files == old(files)[StateFile := StateContent(s)]
      ensures !renamed ==> files == old(files) || LeavesTemp(old(files), files, temp)
      ensures if ok then failures == old(failures) else failures > old(failures)
    {
      renamed := false;
      var name, created;
      ok, name, created := WriteTemp(StateContent(s));
      temp := name;
      if !ok {
        if created {
          var _ := Remove(name);
        }
        return;
      }
      ok, renamed := Rename(name, StateFile);
      if !ok {
        if name in files {
          var _ := Remove(name);
        }
        return;
      }
      ok := Touch();
    }
  }

  /** `after` is `before` and one new temporary file. */
  ghost predicate LeavesTemp(before: Files, after: Files, temp: FileName) {
    temp.Temp? && temp !in before && temp in after && after - {temp} == before
  }

  const DAY := 86_400_000_000_000

  function RetentionOf(days: int): int { if days == 0 then 7 * DAY else days * DAY }

  datatype AppendError = LogClosed | FaultLatched | InvalidEvent | EventTooLarge | StorageFailure

  function NextEntry(c: Codec, s: State, event: Event, now: int): Entry {
    var e := Entry(s.headSequence + 1, now, s.headHash, event, "");
    e.(hash := HashOf(c, e))
  }

  function LastName(s: State): FileName
    requires s.segments != []
  {
    s.segments[|s.segments|-1].name
  }

  /** A new segment starts when there is none, the last one is full, or the last one has expired. */
  predicate NeedsSegment(c: Codec, files: Files, s: State, e: Entry, cutoff: int) {
    || s.segments == [] || LastName(s) !in files || !files[LastName(s)].Lines?
    || Bytes(c, files[LastName(s)].entries) + c.size(e) > SEGMENT_BYTES
    || s.segments[|s.segments|-1].createdAt <= cutoff
  }

  /** The checkpoint a successful `Append` commits. */
  function AppendedState(c: Codec, files: Files, s: State, e: Entry, cutoff: int, pruneCutoff: int): State {
    PrunedOf(Extended(s, e, NeedsSegment(c, files, s, e, cutoff)), pruneCutoff).0
  }

  /** Everything the log and its disk hold. */
  datatype Snapshot = Snapshot(files: Files, state: State, history: seq<Entry>, onDisk: State, fault: bool, dirty: bool)

  predicate Unmoved(before: Snapshot, after: Snapshot) { before == after }

  /** After a purge: the checkpoint on disk is the old one or the pruned one, never in between. */
  ghost predicate PurgeOutcome(s: State, after: Snapshot, cutoff: int) {
    var next := PrunedOf(s, cutoff).0;
    && !after.dirty && (after.onDisk == s || after.onDisk == next) && (!after.fault ==> after.state == next)
  }

  lemma CleanFacts(c: Codec, files: Files, s: State, history: seq<Entry>)
    requires Represents(c, files, s, history) && files.Keys <= Keep(s)
    ensures Clean(c, files, s, history) && Tracks(c, files, s, history)
    ensures StateFile in files && files[StateFile] == StateContent(s) && LockFile in files
    ensures |s.segments| <= MAX_SEGMENTS && |files| <= MAX_DIRECTORY_ENTRIES
  {}

  /** A purge that did not replace the state file left at most a temporary file. */
  lemma StillRepresents(c: Codec, files: Files, after: Files, s: State, history: seq<Entry>, temp: FileName)
    requires Clean(c, files, s, history)
    requires after == files || LeavesTemp(files, after, temp)
    ensures Represents(c, after, s, history)
  {
    if after != files {
      forall n | n in after ensures n in Keep(s) + {temp} { if n != temp { assert n in after - {temp}; } }
      FewFiles(after, s, {temp});
      TempKeeps(c, files, after, s, history, temp);
    }
  }

  lemma PruneNames(c: Codec, files: Files, s: State, history: seq<Entry>, cutoff: int)
    requires Tracks(c, files, s, history) && files.Keys <= Keep(s)
    ensures var (next, removed) := PrunedOf(s, cutoff);
            && (forall n :: n in files ==> n in Keep(next) || n in removed)
            && (forall n :: n in removed ==> Leftover(n, next.anchorSequence))
  {
    PruningTracks(c, files, s, history, cutoff);
    var (next, removed) := PrunedOf(s, cutoff);
    forall n | n in files && n != StateFile && n != LockFile ensures n in Keep(next) || n in removed {
      var g :| g in s.segments && g.name == n;
    }
  }

  lemma NextEntryIsGood(c: Codec, files: Files, s: State, history: seq<Entry>, event: Event, now: int)
    requires Tracks(c, files, s, history) && now != 0 && ValidEvent(event) && c.size(NextEntry(c, s, event, now)) <= MAX_LINE
    ensures GoodEntry(c, NextEntry(c, s, event, now), |history|, EndHash(history, ""))
  {}

  lemma LastSegmentIsThere(c: Codec, files: Files, s: State, history: seq<Entry>)
    requires Tracks(c, files, s, history) && s.segments != []
    ensures LastName(s) in files && files[LastName(s)].Lines? && files[LastName(s)].torn == 0
    ensures LastName(s).SegmentFile? && LastName(s).start > s.anchorSequence
  {
    var mid, midHash := LastSegment(c, files, s, history);
  }

  lemma NextNameIsNew(c: Codec, files: Files, s: State, history: seq<Entry>)
    requires Tracks(c, files, s, history) && files.Keys <= Keep(s)
    ensures SegmentFile(|history| + 1) !in files
  {
    SegmentsChain(c, files, s.segments, s.anchorSequence, s.anchorHash, s.headSequence, s.headHash);
  }

  /** The file the entry goes to. */
  function TargetOf(s: State, e: Entry, newSegment: bool): FileName
    requires newSegment || s.segments != []
  {
    if newSegment then SegmentFile(e.sequence) else LastName(s)
  }

  function WrittenFiles(files: Files, s: State, e: Entry, newSegment: bool): Files
    requires newSegment || (s.segments != [] && LastName(s) in files && files[LastName(s)].Lines?)
  {
    files[TargetOf(s, e, newSegment) := Lines((if newSegment then [] else files[LastName(s)].entries) + [e], 0)]
  }

  /** The target holds more than the checkpoint `s` says, and everything else the checkpoint needs is as it was. */
  ghost predicate Ahead(files: Files, after: Files, s: State, e: Entry, newSegment: bool) {
    && (newSegment || s.segments != [])
    && StateFile in after && LockFile in after && after[StateFile] == StateContent(s) && TargetOf(s, e, newSegment) in after
    && (!newSegment ==>
         && LastName(s) in files && files[LastName(s)].Lines?
         && (after[LastName(s)] == Lines(files[LastName(s)].entries + [e], 0)
             || exists torn: nat :: torn > 0 && after[LastName(s)] == Lines(files[LastName(s)].entries, torn)))
    && (forall n :: n in files && n.SegmentFile? && n != TargetOf(s, e, newSegment) ==> n in after && after[n] == files[n])
  }

  /**
   * After an append that got as far as the disk. The log may be latched with the directory as good as before or
   * with the next checkpoint; the directory is refused exactly while its segments are ahead of the old checkpoint,
   * that is, from the first byte of the line until the state file is replaced.
   */
  ghost predicate AppendOutcome(before: Snapshot, after: Snapshot, e: Entry, newSegment: bool, next: State) {
    && (|| (after.onDisk == before.onDisk && after.history == before.history)
        || (after.onDisk == next && after.history == before.history + [e] && !after.dirty))
    && (!after.fault ==> after.state == next && after.history == before.history + [e])
    && (after.dirty ==> after.fault)
    && (after.dirty <==> Ahead(before.files, after.files, before.state, e, newSegment))
  }

  lemma AheadIsRefused(c: Codec, files: Files, after: Files, s: State, history: seq<Entry>, e: Entry, newSegment: bool)
    requires Tracks(c, files, s, history) && e.sequence == |history| + 1 && Ahead(files, after, s, e, newSegment)
    ensures LoadOf(c, after) == Refused
  {
    if newSegment {
      UncommittedSegmentIsRefused(c, files, after, s, history);
    } else {
      SegmentsChain(c, files, s.segments, s.anchorSequence, s.anchorHash, s.headSequence, s.headHash);
      if after[LastName(s)] == Lines(files[LastName(s)].entries + [e], 0) {
        TouchedSegmentIsRefused(c, files, after, s, history, e, 0);
      } else {
        var torn: nat :| torn > 0 && after[LastName(s)] == Lines(files[LastName(s)].entries, torn);
        TouchedSegmentIsRefused(c, files, after, s, history, e, torn);
      }
    }
  }

  lemma RepresentedIsNotAhead(c: Codec, files: Files, after: Files, s: State, history: seq<Entry>, e: Entry, newSegment: bool,
                              next: State, more: seq<Entry>)
    requires WellFormedDigest(c) && Tracks(c, files, s, history) && e.sequence == |history| + 1 && Represents(c, after, next, more)
    ensures !Ahead(files, after, s, e, newSegment)
  {
    if Ahead(files, after, s, e, newSegment) {
      AheadIsRefused(c, files, after, s, history, e, newSegment);
      RepresentedOpens(c, after, next, more);
    }
  }

  lemma WrittenTracks(c: Codec, files: Files, s: State, history: seq<Entry>, e: Entry, newSegment: bool)
    requires Tracks(c, files, s, history) && GoodEntry(c, e, |history|, EndHash(history, ""))
    requires newSegment || (s.segments != [] && LastName(s) in files && files[LastName(s)].Lines?
                            && Bytes(c, files[LastName(s)].entries) + c.size(e) <= SEGMENT_BYTES)
    ensures Tracks(c, WrittenFiles(files, s, e, newSegment), Extended(s, e, newSegment), history + [e])
  {
    if newSegment {
      assert [] + [e] == [e];
      NewSegmentTracks(c, files, s, history, e);
    } else {
      ExtendedSegmentTracks(c, files, s, history, e);
    }
  }

  /** Writing the line, then pruning, leaves only names that the next checkpoint keeps or drops. */
  lemma NamesAfterAppend(c: Codec, files: Files, s: State, e: Entry, newSegment: bool, pruneCutoff: int, history: seq<Entry>)
    requires Tracks(c, files, s, history) && files.Keys <= Keep(s) && e.sequence == |history| + 1
    requires newSegment || (s.segments != [] && LastName(s) in files && files[LastName(s)].Lines?)
    requires Tracks(c, WrittenFiles(files, s, e, newSegment), Extended(s, e, newSegment), history + [e])
    ensures var (next, removed) := PrunedOf(Extended(s, e, newSegment), pruneCutoff);
            && Tracks(c, WrittenFiles(files, s, e, newSegment), next, history + [e]) && |next.segments| <= MAX_SEGMENTS
            && (forall n :: n in WrittenFiles(files, s, e, newSegment) ==> n in Keep(next) || n in removed)
            && (forall n :: n in removed ==> Leftover(n, next.anchorSequence))
  {
    var after, x := WrittenFiles(files, s, e, newSegment), Extended(s, e, newSegment);
    PruningTracks(c, after, x, history + [e], pruneCutoff);
    var (next, removed) := PrunedOf(x, pruneCutoff);
    forall n | n in after ensures n in Keep(next) || n in removed {
      ExtendedNames(s, e, newSegment);
      if n != StateFile && n != LockFile {
        assert n in NamesOf(x.segments);
        var g :| g in x.segments && g.name == n;
      }
    }
  }

  lemma ExtendedNames(s: State, e: Entry, newSegment: bool)
    requires newSegment || s.segments != []
    ensures NamesOf(Extended(s, e, newSegment).segments) == NamesOf(s.segments) + {TargetOf(s, e, newSegment)}
  {
    var x := Extended(s, e, newSegment).segments;
    if newSegment {
      assert x == s.segments + [Segment(SegmentFile(e.sequence), e.time, e.sequence, e.hash)];
      forall g | g in s.segments ensures g in x {}
      assert x[|s.segments|] in x;
    } else {
      var n := |s.segments| - 1;
      forall g | g in s.segments ensures g.name in NamesOf(x) {
        var i :| 0 <= i < |s.segments| && s.segments[i] == g;
        assert x[i] in x && x[i].name == g.name;
      }
      forall g | g in x ensures g.name in NamesOf(s.segments) {
        var i :| 0 <= i < |x| && x[i] == g;
        assert s.segments[i] in s.segments && s.segments[i].name == g.name;
      }
      assert s.segments[n] in s.segments;
    }
  }

  class Log {
    const c: Codec
    const disk: Disk
    var state: State
    var retention: int
    var fault: bool
    var closed: bool
    /** Every entry whose append is committed on disk; the checkpoint there; and whether a segment is ahead of it. */
    ghost var history: seq<Entry>
    ghost var onDisk: State
    ghost var dirty: bool

    ghost predicate Valid()
      reads this, disk
    {
      && WellFormedDigest(c)
      && (dirty ==> StateFile in disk.files && LoadOf(c, disk.files) == Refused)
      && (!dirty ==> Represents(c, disk.files, onDisk, history))
      && (!fault ==> !dirty && onDisk == state && disk.files.Keys <= Keep(state))
    }

    constructor Adopt(c: Codec, disk: Disk, state: State, retention: int, ghost history: seq<Entry>)
      requires WellFormedDigest(c) && Clean(c, disk.files, state, history)
      ensures Valid() && this.c == c && this.disk == disk && this.state == state && this.retention == retention
      ensures !fault && !closed && !dirty && this.history == history && onDisk == state
    {
      this.c, this.disk, this.state, this.retention := c, disk, state, retention;
      fault, closed := false, false;
      this.history, onDisk, dirty := history, state, false;
    }

    ghost function Snap(): Snapshot
      reads this, disk
    {
      Snapshot(disk.files, state, history, onDisk, fault, dirty)
    }

    method Close() returns (ok: bool)
      requires Valid()
      modifies `closed, disk`clock, disk`failures
      ensures Valid() && closed && Snap() == old(Snap()) && (old(closed) ==> ok)
      ensures if ok then disk.failures == old(disk.failures) else disk.failures > old(disk.failures)
    {
      if closed {
        return true;
      }
      closed := true;
      ok := disk.Touch();
    }

    method SetRetention(days: int)
      requires Valid()
      modifies `retention
      ensures Valid() && retention == RetentionOf(days) && Snap() == old(Snap())
    {
      retention := RetentionOf(days);
    }

    /** `commit`: the checkpoint is replaced atomically, then the pruned segments go. */
    method Commit(next: State, removed: seq<FileName>, ghost h: seq<Entry>) returns (ok: bool, ghost renamed: bool, ghost temp: FileName)
      requires Tracks(c, disk.files, next, h) && |next.segments| <= MAX_SEGMENTS
      requires StateFile in disk.files && LockFile in disk.files && |disk.files| <= MAX_DIRECTORY_ENTRIES
      requires forall n :: n in disk.files ==> n in Keep(next) || n in removed
      requires forall n :: n in removed ==> Leftover(n, next.anchorSequence)
      modifies this`state, disk
      ensures ok ==> renamed && disk.files.Keys <= Keep(next)
      ensures renamed ==> Represents(c, disk.files, next, h)
      ensures !renamed ==> disk.files == old(disk.files) || LeavesTemp(old(disk.files), disk.files, temp)
      ensures ok ==> state == next
      ensures if ok then disk.failures == old(disk.failures) else disk.failures > old(disk.failures)
    {
      RenameCommits(c, disk.files, next, h, removed);
      ok, renamed, temp := disk.AtomicWriteState(next);
      if !ok {
        return;
      }
      state := next;
      ok := RemovePruned(next, removed, h);
    }

    method RemovePruned(next: State, removed: seq<FileName>, ghost h: seq<Entry>) returns (ok: bool)
      requires Represents(c, disk.files, next, h)
      requires forall n :: n in disk.files ==> n in Keep(next) || n in removed
      requires forall n :: n in removed ==> Leftover(n, next.anchorSequence)
      modifies disk
      ensures Represents(c, disk.files, next, h)
      ensures ok ==> disk.files.Keys <= Keep(next)
      ensures if ok then disk.failures == old(disk.failures) else disk.failures > old(disk.failures)
    {
      hide *;
      for i := 0 to |removed|
        invariant Represents(c, disk.files, next, h)
        invariant forall n :: n in disk.files ==> n in Keep(next) || n in removed[i..]
        invariant disk.failures == old(disk.failures)
      {
        RemovalKeeps(c, disk.files, next, h, removed[i]);
        ok := disk.Remove(removed[i]);
        if !ok {
          return;
        }
      }
      ok := disk.Touch();
    }

    /** Drops expired whole segments: afterwards the directory opens, with the checkpoint before or after. */
    method PurgeExpired(now: int) returns (error: Option<AppendError>)
      requires Valid()
      modifies this, disk
      ensures Valid() && history == old(history) && closed == old(closed) && retention == old(retention)
      ensures error == if old(closed) then Some(LogClosed) else if old(fault) then Some(FaultLatched)
                       else if fault then Some(StorageFailure) else None
      ensures old(closed) || old(fault) ==> Unmoved(old(Snap()), Snap())
      ensures !old(closed) && !old(fault) ==> PurgeOutcome(old(state), Snap(), now - retention)
      ensures if error == Some(StorageFailure) then disk.failures > old(disk.failures) else disk.failures == old(disk.failures)
    {
      if closed {
        return Some(LogClosed);
      }
      if fault {
        return Some(FaultLatched);
      }
      error := Purge(now);
    }

    method Purge(now: int) returns (error: Option<AppendError>)
      requires Valid() && !fault && !closed
      modifies this, disk
      ensures Valid() && history == old(history) && !closed && retention == old(retention)
      ensures error == if fault then Some(StorageFailure) else None
      ensures PurgeOutcome(old(state), Snap(), now - retention)
      ensures if error == Some(StorageFailure) then disk.failures > old(disk.failures) else disk.failures == old(disk.failures)
    {
      hide Represents, Tracks, Committed, Clean, PrunedOf, Keep, Leftover;
      var (next, removed) := PrunedOf(state, now - retention);
      ghost var files, before := disk.files, state;
      CleanFacts(c, files, before, history);
      PruningTracks(c, files, state, history, now - retention);
      if |removed| == 0 {
        NothingPruned(state, now - retention);
        return None;
      }
      PruneNames(c, files, before, history, now - retention);
      FewFiles(files, before, {});
      ghost var renamed, temp;
      var ok;
      ok, renamed, temp := Commit(next, removed, history);
      if renamed {
        onDisk := next;
      } else {
        StillRepresents(c, files, disk.files, before, history, temp);
      }
      if !ok {
        fault := true;
        return Some(StorageFailure);
      }
      return None;
    }

    /** Opens or creates the target and appends the line to it. */
    method WriteEntry(e: Entry, newSegment: bool) returns (ok: bool)
      requires Valid() && !fault && GoodEntry(c, e, |history|, EndHash(history, ""))
      requires newSegment || state.segments != []
      modifies `dirty, disk
      ensures dirty ==> Ahead(old(disk.files), disk.files, state, e, newSegment) && StateFile in disk.files && LoadOf(c, disk.files) == Refused
      ensures !dirty ==> disk.files == old(disk.files) && !ok
      ensures ok ==>
        && (newSegment || (LastName(state) in old(disk.files) && old(disk.files)[LastName(state)].Lines?))
        && disk.files == WrittenFiles(old(disk.files), state, e, newSegment)
      ensures if ok then disk.failures == old(disk.failures) else disk.failures > old(disk.failures)
    {
      hide LoadOf, HashOf, ValidEvent, Bytes, Chain, SegmentsOk, Retained;
      ghost var files := disk.files;
      if newSegment {
        NextNameIsNew(c, files, state, history);
        ok := disk.Create(SegmentFile(e.sequence));
      } else {
        LastSegmentIsThere(c, files, state, history);
        ok := disk.Touch();
      }
      if ok {
        ok := disk.AppendLine(c, TargetOf(state, e, newSegment), e);
      }
      if disk.files != files || ok {
        dirty := true;
        AheadIsRefused(c, files, disk.files, state, history, e, newSegment);
      }
    }

    /** The end of `Append`: the checkpoint over what was written. */
    method CommitAppend(e: Entry, newSegment: bool, next: State, removed: seq<FileName>, pruneCutoff: int, ghost files: Files)
      returns (ok: bool)
      requires WellFormedDigest(c) && dirty && Tracks(c, files, state, history) && files.Keys <= Keep(state)
      requires |state.segments| <= MAX_SEGMENTS && GoodEntry(c, e, |history|, EndHash(history, ""))
      requires newSegment || (state.segments != [] && LastName(state) in files && files[LastName(state)].Lines?
                              && Bytes(c, files[LastName(state)].entries) + c.size(e) <= SEGMENT_BYTES)
      requires disk.files == WrittenFiles(files, state, e, newSegment) && Ahead(files, disk.files, state, e, newSegment)
      requires (next, removed) == PrunedOf(Extended(state, e, newSegment), pruneCutoff)
      modifies this`state, this`history, this`onDisk, this`dirty, disk
      ensures !dirty ==> onDisk == next && history == old(history) + [e] && Represents(c, disk.files, next, history)
      ensures dirty ==> !ok && onDisk == old(onDisk) && history == old(history) && StateFile in disk.files && LoadOf(c, disk.files) == Refused
      ensures dirty ==> Ahead(files, disk.files, old(state), e, newSegment)
      ensures ok ==> !dirty && state == next && disk.files.Keys <= Keep(next)
      ensures if ok then disk.failures == old(disk.failures) else disk.failures > old(disk.failures)
    {
      hide Represents, Tracks, Committed, LoadOf, Extended, PrunedOf, HashOf, ValidEvent, NamesOf, Leftover;
      ghost var before, written := state, disk.files;
      WrittenTracks(c, files, state, history, e, newSegment);
      NamesAfterAppend(c, files, state, e, newSegment, pruneCutoff, history);
      assert written.Keys <= Keep(before) + {TargetOf(before, e, newSegment)};
      FewFiles(written, before, {TargetOf(before, e, newSegment)});
      ghost var renamed, temp;
      ok, renamed, temp := Commit(next, removed, history + [e]);
      if renamed {
        history, onDisk, dirty := history + [e], next, false;
      } else {
        assert Ahead(files, disk.files, before, e, newSegment) by {
          if disk.files != written {
            forall n | n in written ensures n in disk.files && disk.files[n] == written[n] { assert n in disk.files - {temp}; }
          }
        }
        AheadIsRefused(c, files, disk.files, before, history, e, newSegment);
      }
    }

    /**
     * One entry more. On success the directory and the log hold the next checkpoint. On a storage failure,
     * at whatever operation and however much of it was done, the log is latched and the directory opens
     * with the old checkpoint, or with the next one, or is refused; refused exactly when a segment was
     * touched and the new state file was not yet in place.
     */
    method Append(event: Event, now: int, nowAgain: int, nowPruning: int) returns (error: Option<AppendError>)
      requires Valid() && now != 0
      modifies this, disk
      ensures Valid() && closed == old(closed) && retention == old(retention)
      ensures var e := NextEntry(c, old(state), event, now);
              error == if old(closed) then Some(LogClosed) else if old(fault) then Some(FaultLatched)
                       else if !ValidEvent(event) then Some(InvalidEvent) else if c.size(e) > MAX_LINE then Some(EventTooLarge)
                       else if fault then Some(StorageFailure) else None
      ensures error.Some? && error != Some(StorageFailure) ==> Unmoved(old(Snap()), Snap())
      ensures error.None? || error == Some(StorageFailure) ==>
        var e := NextEntry(c, old(state), event, now);
        AppendOutcome(old(Snap()), Snap(), e, NeedsSegment(c, old(disk.files), old(state), e, nowAgain - retention),
                      AppendedState(c, old(disk.files), old(state), e, nowAgain - retention, nowPruning - retention))
      ensures if error == Some(StorageFailure) then disk.failures > old(disk.failures) else disk.failures == old(disk.failures)
    {
      hide Represents, LoadOf, Extended, PrunedOf, Keep, HashOf, NeedsSegment;
      if closed {
        return Some(LogClosed);
      }
      if fault {
        return Some(FaultLatched);
      }
      if !ValidEvent(event) {
        return Some(InvalidEvent);
      }
      var e := NextEntry(c, state, event, now);
      if c.size(e) > MAX_LINE {
        return Some(EventTooLarge);
      }
      CleanFacts(c, disk.files, state, history);
      NextEntryIsGood(c, disk.files, state, history, event, now);
      error := AppendEntry(e, nowAgain - retention, nowPruning - retention);
    }

    /** The part of `Append` that works on the disk. */
    method AppendEntry(e: Entry, cutoff: int, pruneCutoff: int) returns (error: Option<AppendError>)
      requires Valid() && !fault && !closed && GoodEntry(c, e, |history|, EndHash(history, ""))
      modifies this, disk
      ensures Valid() && !closed && retention == old(retention)
      ensures error == if fault then Some(StorageFailure) else None
      ensures AppendOutcome(old(Snap()), Snap(), e, NeedsSegment(c, old(disk.files), old(state), e, cutoff),
                            AppendedState(c, old(disk.files), old(state), e, cutoff, pruneCutoff))
      ensures if error == Some(StorageFailure) then disk.failures > old(disk.failures) else disk.failures == old(disk.failures)
    {
      hide Represents, Tracks, Committed, Clean, LoadOf, Extended, PrunedOf, Keep, HashOf, ValidEvent, Ahead, WrittenFiles;
      ghost var files, before, was := disk.files, state, history;
      CleanFacts(c, files, before, history);
      var newSegment := |state.segments| == 0;
      if !newSegment {
        LastSegmentIsThere(c, files, state, history);
        var ok := disk.Touch();
        if !ok {
          fault := true;
          RepresentedIsNotAhead(c, files, disk.files, before, was, e, NeedsSegment(c, files, before, e, cutoff), onDisk, history);
          return Some(StorageFailure);
        }
        newSegment := Bytes(c, disk.files[LastName(state)].entries) + c.size(e) > SEGMENT_BYTES
          || state.segments[|state.segments|-1].createdAt <= cutoff;
      }
      assert newSegment == NeedsSegment(c, files, before, e, cutoff);
      var written := WriteEntry(e, newSegment);
      if !written {
        fault := true;
        if !dirty { RepresentedIsNotAhead(c, files, disk.files, before, was, e, newSegment, onDisk, history); }
        return Some(StorageFailure);
      }
      var (next, removed) := PrunedOf(Extended(state, e, newSegment), pruneCutoff);
      var ok := CommitAppend(e, newSegment, next, removed, pruneCutoff, files);
      if !dirty { RepresentedIsNotAhead(c, files, disk.files, before, was, e, newSegment, onDisk, history); }
      if !ok {
        fault := true;
        return Some(StorageFailure);
      }
      return None;
    }
  }
}
