/** Whole lives of an audit directory: any calls, failures, crashes and restarts (internal/hub/audit.go). */
module AuditRuns {
  import opened Ordering
  import opened AuditChain
  import opened AuditStore
  import opened AuditSteps
  import opened AuditLog
  import opened AuditRecovery
  import opened AuditRetention

  /**
   * Every accepted event is in the history with its time, once and in order; besides them there are only events whose
   * append reported a failure.
   */
  ghost predicate Recorded(commands: seq<Command>, accepted: seq<bool>, before: seq<Entry>, after: seq<Entry>)
    requires |commands| == |accepted|
    decreases |commands|
  {
    if commands == [] then after == before
    else
      var n := |commands| - 1;
      || (!accepted[n] && Recorded(commands[..n], accepted[..n], before, after))
      || (commands[n].AppendEvent? && after != [] && after[|after|-1].event == commands[n].event && after[|after|-1].time == commands[n].now
          && Recorded(commands[..n], accepted[..n], before, after[..|after|-1]))
  }

  ghost predicate AllAccepted(commands: seq<Command>, accepted: seq<bool>)
    requires |commands| == |accepted|
  {
    forall i :: 0 <= i < |commands| && commands[i].AppendEvent? ==> accepted[i]
  }

  lemma RecordedNothing(commands: seq<Command>, accepted: seq<bool>, k: Command, before: seq<Entry>, after: seq<Entry>)
    requires |commands| == |accepted| && Recorded(commands, accepted, before, after)
    ensures Recorded(commands + [k], accepted + [false], before, after)
  {
    assert (commands + [k])[..|commands|] == commands && (accepted + [false])[..|commands|] == accepted;
  }

  lemma RecordedEntry(commands: seq<Command>, accepted: seq<bool>, k: Command, ok: bool, before: seq<Entry>, after: seq<Entry>, e: Entry)
    requires |commands| == |accepted| && Recorded(commands, accepted, before, after)
    requires k.AppendEvent? && e.event == k.event && e.time == k.now
    ensures Recorded(commands + [k], accepted + [ok], before, after + [e])
  {
    assert (commands + [k])[..|commands|] == commands && (accepted + [ok])[..|commands|] == accepted;
    assert (after + [e])[..|after|] == after;
  }

  lemma AcceptedSoFar(commands: seq<Command>, accepted: seq<bool>, k: Command, ok: bool)
    requires |commands| == |accepted|
    ensures AllAccepted(commands + [k], accepted + [ok]) <==> AllAccepted(commands, accepted) && (k.AppendEvent? ==> ok)
  {
    var all, oks := commands + [k], accepted + [ok];
    if AllAccepted(all, oks) {
      forall i | 0 <= i < |commands| && commands[i].AppendEvent? ensures accepted[i] { assert all[i] == commands[i] && oks[i] == accepted[i]; }
      assert all[|commands|] == k && oks[|commands|] == ok;
    }
  }

  /** It has a checkpoint and is refused. */
  predicate Stuck(c: Codec, files: Files) { StateFile in files && LoadOf(c, files) == Refused }

  lemma UnmovedMoves(c: Codec, retention: int, k: Command, m: Moment)
    ensures Moved(c, retention, k, m, m)
  {}

  /** What an append of the log comes to as a move of the checkpoint. */
  lemma AppendMoves(c: Codec, before: Snapshot, after: Snapshot, retention: int, k: Command)
    requires k.AppendEvent? && before.onDisk == before.state && Represents(c, before.files, before.state, before.history)
    requires var e := NextEntry(c, before.state, k.event, k.now);
             AppendOutcome(before, after, e, NeedsSegment(c, before.files, before.state, e, k.nowAgain - retention),
                           AppendedState(c, before.files, before.state, e, k.nowAgain - retention, k.nowPruning - retention))
    ensures Moved(c, retention, k, Moment(before.onDisk, before.history), Moment(after.onDisk, after.history))
    ensures after.dirty ==> after.onDisk == before.onDisk && after.history == before.history
    ensures after.history == before.history || after.history == before.history + [NextEntry(c, before.state, k.event, k.now)]
    ensures !after.fault ==> after.history == before.history + [NextEntry(c, before.state, k.event, k.now)]
  {
    hide Tracks, Committed, Starts, NeedsSegment, PrunedOf, Extended, HashOf, Ahead;
    var e := NextEntry(c, before.state, k.event, k.now);
    StartsIff(c, before.files, before.state, before.history, e, k.nowAgain - retention);
  }

  /** And a purge. */
  lemma PurgeMoves(c: Codec, s: State, history: seq<Entry>, after: Snapshot, retention: int, k: Command)
    requires k.PurgeAt? && PurgeOutcome(s, after, k.now - retention) && after.history == history
    ensures Moved(c, retention, k, Moment(s, history), Moment(after.onDisk, after.history)) && !after.dirty
  {
    assert history + [] == history;
  }

  /** Whether the log is open once these commands are done, if nothing fails: opened with 0 to 30 days, and not closed since. */
  predicate OpenAfter(commands: seq<Command>)
    decreases |commands|
  {
    commands != [] &&
    match commands[|commands|-1]
    case Restart(days) => 0 <= days <= 30
    case CloseLog => false
    case _ => OpenAfter(commands[..|commands|-1])
  }

  lemma OpenMore(commands: seq<Command>, k: Command)
    ensures OpenAfter(commands + [k]) == OpensWith(OpenAfter(commands), k)
  {
    assert (commands + [k])[..|commands|] == commands;
  }

  predicate OpensWith(before: bool, k: Command) {
    if k.Restart? then 0 <= k.retentionDays <= 30 else before && !k.CloseLog?
  }

  /** An event that is well-formed and whose line has at most 4096 bytes. */
  predicate Acceptable(c: Codec, s: State, k: Command) {
    k.AppendEvent? && ValidEvent(k.event) && c.size(NextEntry(c, s, k.event, k.now)) <= 4096
  }

  /** Exactly the acceptable events that reach an open log are accepted. */
  predicate AcceptedAsDue(c: Codec, commands: seq<Command>, accepted: seq<bool>, moments: seq<Moment>)
    requires |commands| == |accepted| && |moments| == |commands| + 1
  {
    forall i :: 0 <= i < |commands| ==> (accepted[i] <==> OpenAfter(commands[..i]) && Acceptable(c, moments[i].state, commands[i]))
  }

  lemma DueMore(c: Codec, commands: seq<Command>, accepted: seq<bool>, moments: seq<Moment>, k: Command, ok: bool, n: Moment)
    requires |commands| == |accepted| && |moments| == |commands| + 1
    ensures AcceptedAsDue(c, commands + [k], accepted + [ok], moments + [n])
       <==> AcceptedAsDue(c, commands, accepted, moments) && (ok <==> OpenAfter(commands) && Acceptable(c, moments[|commands|].state, k))
  {
    hide OpenAfter, Acceptable;
    var ks, oks, ms := commands + [k], accepted + [ok], moments + [n];
    assert forall i :: 0 <= i < |commands| ==> ks[..i] == commands[..i] && ks[i] == commands[i] && oks[i] == accepted[i] && ms[i] == moments[i];
    assert ks[..|commands|] == commands;
    if AcceptedAsDue(c, ks, oks, ms) {
      assert oks[|commands|] <==> OpenAfter(ks[..|commands|]) && Acceptable(c, ms[|commands|].state, ks[|commands|]);
      forall i | 0 <= i < |commands| ensures accepted[i] <==> OpenAfter(commands[..i]) && Acceptable(c, moments[i].state, commands[i]) {
        assert oks[i] <==> OpenAfter(ks[..i]) && Acceptable(c, ms[i].state, ks[i]);
      }
    }
  }

  /** One process: the open log, if there is one, and the checkpoint and history its directory stands for. */
  class Hub {
    const c: Codec
    const disk: Disk
    var log: Log?
    ghost var state: State
    ghost var history: seq<Entry>

    ghost predicate Valid()
      reads this, disk, log
    {
      && WellFormedDigest(c) && Genuine(c, history) && Shaped(Moment(state, history))
      && (log != null ==> log.c == c && log.disk == disk && log.Valid() && log.history == history && log.onDisk == state)
      && (Represents(c, disk.files, state, history) || Stuck(c, disk.files))
    }

    ghost function Now(): Moment
      reads this
    {
      Moment(state, history)
    }

    /** The directory stands and nothing has gone wrong since it was opened. */
    ghost predicate Ready()
      reads this, disk, log
    {
      Represents(c, disk.files, state, history) && (log != null ==> !log.fault)
    }

    ghost predicate Open()
      reads this, log
    {
      log != null && !log.closed
    }

    ghost function Retention(): int
      reads this, log
    {
      if log == null then 0 else log.retention
    }

    constructor (c: Codec, disk: Disk, s: State, ghost history: seq<Entry>)
      requires WellFormedDigest(c) && Represents(c, disk.files, s, history)
      ensures Valid() && this.c == c && this.disk == disk && Now() == Moment(s, history) && log == null && Ready()
    {
      this.c, this.disk, log, state, this.history := c, disk, null, s, history;
      RepresentedIsShaped(c, disk.files, s, history);
    }

    /** Whatever was open is gone; the directory is opened again, or not. */
    method Reopen(retentionDays: int)
      requires Valid()
      modifies this, disk
      ensures Valid() && Now() == old(Now())
      ensures Represents(c, old(disk.files), state, history) ==> Represents(c, disk.files, state, history)
      ensures log != null ==> fresh(log) && log.retention == RetentionOf(retentionDays) && !log.fault && !log.closed
      ensures disk.failures >= old(disk.failures)
      ensures disk.failures == old(disk.failures) && Represents(c, old(disk.files), state, history) ==> (log != null <==> 0 <= retentionDays <= 30)
    {
      hide Represents, Clean, LoadOf, Genuine, Shaped;
      log := null;
      ghost var before := disk.files;
      ghost var standing := Represents(c, before, state, history);
      if standing { RepresentedHasFiles(c, before, state, history); }
      var ok, loaded, retention, _ := OpenDirectory(c, disk, retentionDays);
      if standing {
        SameLoadRepresents(c, before, disk.files, state, history);
        RepresentedOpens(c, before, state, history);
        assert Opens(c, before);
      } else {
        StaysStuck(c, before, disk.files);
      }
      if ok {
        log := new Log.Adopt(c, disk, loaded, retention, history);
      }
    }

    /** Takes over what the open log has committed. */
    ghost method Follow()
      requires log != null && log.c == c && log.disk == disk && log.Valid() && WellFormedDigest(c)
      requires Genuine(c, history) && Shaped(Moment(state, history))
      requires log.dirty ==> log.history == history && log.onDisk == state
      modifies `state, `history
      ensures Valid() && Now() == Moment(log.onDisk, log.history)
      ensures !log.dirty ==> Represents(c, disk.files, state, history)
    {
      hide Represents, LoadOf, Genuine, Shaped;
      if !log.dirty {
        RepresentedHasFiles(c, disk.files, log.onDisk, log.history);
        RepresentedIsShaped(c, disk.files, log.onDisk, log.history);
      }
      state, history := log.onDisk, log.history;
    }

    method DoAppend(k: Command) returns (accepted: bool, ghost entry: Option<Entry>)
      requires Valid() && k.AppendEvent? && k.now != 0 && log != null
      modifies this, disk, log
      ensures Valid() && log == old(log) && Retention() == old(Retention())
      ensures history == if entry.Some? then old(history) + [entry.value] else old(history)
      ensures entry.Some? ==> entry.value.event == k.event && entry.value.time == k.now
      ensures accepted ==> entry.Some? && Represents(c, disk.files, state, history)
      ensures Moved(c, old(Retention()), k, old(Now()), Now())
      ensures disk.failures >= old(disk.failures) && log.closed == old(log.closed)
      ensures disk.failures == old(disk.failures) && old(Ready()) ==> Ready() && (accepted <==> old(Open()) && Acceptable(c, old(state), k))
    {
      hide Represents, Clean, LoadOf, WellFormedDigest, Genuine, Shaped, Moved, PrunedOf, Extended, Ahead, NeedsSegment, AppendOutcome;
      ghost var before := log.Snap();
      UnmovedMoves(c, log.retention, k, Now());
      ghost var retention := log.retention;
      var error := log.Append(k.event, k.now, k.nowAgain, k.nowPruning);
      accepted := error == None;
      if error.None? || error == Some(StorageFailure) { AppendMoves(c, before, log.Snap(), retention, k); }
      entry := if log.history != history then Some(NextEntry(c, before.state, k.event, k.now)) else None;
      Follow();
    }

    method DoPurge(k: Command)
      requires Valid() && k.PurgeAt? && log != null
      modifies this, disk, log
      ensures Valid() && log == old(log) && Retention() == old(Retention()) && history == old(history)
      ensures Represents(c, old(disk.files), old(state), history) ==> Represents(c, disk.files, state, history)
      ensures Moved(c, old(Retention()), k, old(Now()), Now())
      ensures disk.failures >= old(disk.failures) && log.closed == old(log.closed)
      ensures disk.failures == old(disk.failures) && old(Ready()) ==> Ready()
    {
      hide Represents, Clean, LoadOf, WellFormedDigest, Genuine, Shaped, Moved, PrunedOf, PurgeOutcome;
      ghost var before := log.Snap();
      UnmovedMoves(c, log.retention, k, Now());
      ghost var retention := log.retention;
      var error := log.PurgeExpired(k.now);
      if error.None? || error == Some(StorageFailure) { PurgeMoves(c, before.state, before.history, log.Snap(), retention, k); }
      Follow();
    }

    /** One command. */
    method Do(k: Command) returns (accepted: bool, ghost entry: Option<Entry>)
      requires Valid() && (k.AppendEvent? ==> k.now != 0)
      modifies this, disk, log
      ensures Valid() && (log == old(log) || log == null || fresh(log))
      ensures history == if entry.Some? then old(history) + [entry.value] else old(history)
      ensures entry.Some? ==> k.AppendEvent? && entry.value.event == k.event && entry.value.time == k.now
      ensures accepted ==> entry.Some?
      ensures Represents(c, old(disk.files), old(state), old(history)) && (k.AppendEvent? ==> accepted) ==> Represents(c, disk.files, state, history)
      ensures if old(log) == null then Now() == old(Now()) else Moved(c, old(Retention()), k, old(Now()), Now())
      ensures log != null ==> Retention() == (if k.Restart? then RetentionOf(k.retentionDays) else if k.Retain? then RetentionOf(k.days) else old(Retention()))
      ensures !k.Restart? ==> log == old(log)
      ensures disk.failures >= old(disk.failures)
      ensures disk.failures == old(disk.failures) && old(Ready()) ==>
        Ready() && Open() == OpensWith(old(Open()), k) && (accepted <==> old(Open()) && Acceptable(c, old(state), k))
    {
      hide Represents, Clean, LoadOf, WellFormedDigest, Genuine, Shaped, Moved;
      accepted, entry := false, None;
      UnmovedMoves(c, Retention(), k, Now());
      if k.Restart? {
        Reopen(k.retentionDays);
      } else if log != null {
        match k
        case AppendEvent(_, _, _, _) => accepted, entry := DoAppend(k);
        case PurgeAt(_) => DoPurge(k);
        case Retain(days) => log.SetRetention(days);
        case CloseLog => var _ := log.Close();
        case Restart(_) =>
      }
    }
  }

  lemma AtFirst(c: Codec, files: Files, s: State, history: seq<Entry>)
    requires Represents(c, files, s, history)
    ensures Recorded([], [], history, history) && Genuine(c, history)
  {}

  lemma RepresentedHasFiles(c: Codec, files: Files, s: State, history: seq<Entry>)
    requires Represents(c, files, s, history)
    ensures StateFile in files && LockFile in files && WithLock(files) == files && Genuine(c, history)
  {}

  /** Once refused, refused for good: no attempt to open it changes that. */
  lemma StaysStuck(c: Codec, before: Files, after: Files)
    requires Stuck(c, before) && StateFile in after
    requires LoadOf(c, after) == LoadOf(c, before) || LoadOf(c, after) == LoadOf(c, WithLock(before))
    ensures Stuck(c, after)
  {
    var locked := WithLock(before);
    if LoadOf(c, locked).Opened? {
      var s := locked[StateFile].state;
      SubsetSize(before.Keys, locked.Keys);
      SegmentsChain(c, locked, s.segments, s.anchorSequence, s.anchorHash, s.headSequence, s.headHash);
      SegmentsFrame(c, locked, before, s.segments, s.anchorSequence, s.anchorHash, s.headSequence, s.headHash);
      assert Intact(c, before, s);
    }
  }

  lemma MomentsMore(c: Codec, commands: seq<Command>, moments: seq<Moment>, k: Command, n: Moment)
    requires Moments(c, commands, moments) && Shaped(n) && Moved(c, RetentionAfter(commands), k, moments[|commands|], n)
    ensures Moments(c, commands + [k], moments + [n])
  {
    hide Shaped, Moved, RetentionAfter;
    var ks, ms := commands + [k], moments + [n];
    forall i | 0 <= i < |ks| ensures Moved(c, RetentionAfter(ks[..i]), ks[i], ms[i], ms[i+1]) {
      assert ks[..i] == commands[..i];
      if i == |commands| { assert commands[..i] == commands; }
    }
  }

  /**
   * Over any life of the directory -- any commands, any pattern of failing or half-done disk operations,
   * any crashes and restarts -- the directory either still stands for a genuine chain that holds every
   * accepted event in order, or is refused; it is refused only after an append that was not accepted. The
   * checkpoints on the way are those that `Moments` allows, from which follows how long entries are retained.
   * If no operation fails, exactly the acceptable events that reach an open log are accepted.
   */
  method Live(c: Codec, disk: Disk, s: State, commands: seq<Command>, ghost before: seq<Entry>)
    returns (accepted: seq<bool>, ghost history: seq<Entry>, ghost moments: seq<Moment>)
    requires WellFormedDigest(c) && Represents(c, disk.files, s, before)
    requires forall k :: k in commands && k.AppendEvent? ==> k.now != 0
    modifies disk
    ensures |accepted| == |commands| && Recorded(commands, accepted, before, history) && Genuine(c, history)
    ensures Moments(c, commands, moments) && moments[0] == Moment(s, before) && moments[|commands|].history == history
    ensures Represents(c, disk.files, moments[|commands|].state, history) || Stuck(c, disk.files)
    ensures AllAccepted(commands, accepted) ==> Represents(c, disk.files, moments[|commands|].state, history)
    ensures disk.failures == old(disk.failures) ==>
      && Represents(c, disk.files, moments[|commands|].state, history)
      && AcceptedAsDue(c, commands, accepted, moments)
  {
    hide Represents, LoadOf, Stuck, Recorded, AllAccepted, WellFormedDigest, Moments, Moved, Shaped, Acceptable, OpenAfter, OpensWith, AcceptedAsDue;
    AtFirst(c, disk.files, s, before);
    var hub := new Hub(c, disk, s, before);
    accepted, moments := [], [Moment(s, before)];
    NoMoments(c, Moment(s, before));
    NothingIsDue(c, Moment(s, before));
    assert commands[..0] == [];
    for i := 0 to |commands|
      invariant hub.Valid() && hub.c == c && hub.disk == disk && fresh(hub) && (hub.log != null ==> fresh(hub.log))
      invariant hub.log != null ==> hub.Retention() == RetentionAfter(commands[..i])
      invariant |accepted| == i && Recorded(commands[..i], accepted, before, hub.history)
      invariant |moments| == i + 1 && moments[0] == Moment(s, before) && moments[i] == hub.Now() && Moments(c, commands[..i], moments)
      invariant AllAccepted(commands[..i], accepted) ==> Represents(c, disk.files, hub.state, hub.history)
      invariant disk.failures >= old(disk.failures)
      invariant disk.failures == old(disk.failures) ==>
        hub.Ready() && hub.Open() == OpenAfter(commands[..i]) && AcceptedAsDue(c, commands[..i], accepted, moments)
    {
      ghost var was := hub.Now();
      var ok, entry := hub.Do(commands[i]);
      assert commands[..i+1] == commands[..i] + [commands[i]];
      RetentionMore(commands[..i], commands[i]);
      OpenMore(commands[..i], commands[i]);
      UnmovedMoves(c, RetentionAfter(commands[..i]), commands[i], was);
      MomentsMore(c, commands[..i], moments, commands[i], hub.Now());
      DueMore(c, commands[..i], accepted, moments, commands[i], ok, hub.Now());
      moments := moments + [hub.Now()];
      AcceptedSoFar(commands[..i], accepted, commands[i], ok);
      if entry.Some? {
        RecordedEntry(commands[..i], accepted, commands[i], ok, before, was.history, entry.value);
      } else {
        RecordedNothing(commands[..i], accepted, commands[i], before, was.history);
      }
      accepted := accepted + [ok];
    }
    assert commands[..|commands|] == commands;
    history := hub.history;
  }

  lemma NothingIsDue(c: Codec, m: Moment)
    ensures !OpenAfter([]) && AcceptedAsDue(c, [], [], [m])
  {}

  lemma NoMoments(c: Codec, m: Moment)
    requires Shaped(m)
    ensures Moments(c, [], [m])
  {}

  lemma RetentionMore(commands: seq<Command>, k: Command)
    ensures RetentionAfter(commands + [k]) == if k.Restart? then RetentionOf(k.retentionDays) else if k.Retain? then RetentionOf(k.days)
                                              else RetentionAfter(commands)
  {
    assert (commands + [k])[..|commands|] == commands;
  }

  /**
   * The external check: the head hash of a log, saved after any life of it, and any directory at all, perhaps
   * rewritten by an administrator. If the directory is then verified against that head, what it retains is
   * the end of the log's history, entry for entry, unless two entries at hand have the same hash.
   */
  method VerifyAgainstLife(c: Codec, disk: Disk, s: State, commands: seq<Command>, ghost before: seq<Entry>, presented: Disk, savedHead: string)
    returns (ok: bool, status: State, accepted: seq<bool>, ghost history: seq<Entry>)
    requires WellFormedDigest(c) && Represents(c, disk.files, s, before) && disk != presented
    requires forall k :: k in commands && k.AppendEvent? ==> k.now != 0
    modifies disk, presented
    ensures |accepted| == |commands| && Recorded(commands, accepted, before, history)
    ensures ok ==> LoadOf(c, presented.files).Opened?
    ensures ok && history != [] && savedHead == EndHash(history, "") && NoCollisions(c, Accepted(c, presented.files), history) ==>
      && |Accepted(c, presented.files)| <= |history|
      && Accepted(c, presented.files) == history[|history|-|Accepted(c, presented.files)|..]
  {
    hide Represents, LoadOf, Recorded, NoCollisions;
    ghost var moments;
    accepted, history, moments := Live(c, disk, s, commands, before);
    ghost var faulted;
    ok, status, faulted := VerifyAudit(c, presented, savedHead);
    HistoryHash(c, history, |history|);
    assert history[..|history|] == history;
    if ok && history != [] && savedHead == EndHash(history, "") && NoCollisions(c, Accepted(c, presented.files), history) {
      AcceptedIsEndOfHistory(c, presented.files, history);
    }
  }
}
