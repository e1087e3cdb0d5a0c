/**
 * How long an entry of the audit log is retained (internal/hub/audit.go): when segments start, when they go, and what
 * that means for an entry over a whole life of the directory.
 */
module AuditRetention {
  import opened Ordering
  import opened AuditChain
  import opened AuditStore
  import opened AuditSteps
  import opened AuditLog

  /** What can be asked of the log; `Restart` is also what follows a crash. */
  datatype Command =
    | AppendEvent(event: Event, now: int, nowAgain: int, nowPruning: int)
    | PurgeAt(now: int)
    | Retain(days: int)
    | CloseLog
    | Restart(retentionDays: int)

  /** The committed checkpoint and the history it stands for. */
  datatype Moment = Moment(state: State, history: seq<Entry>)

  /** The retention of an open log in nanoseconds: the days it was opened with or last told, seven when these are zero. */
  function RetentionAfter(commands: seq<Command>): int
    decreases |commands|
  {
    if commands == [] then 0
    else match commands[|commands|-1]
      case Restart(days) => (if days == 0 then 7 else days) * 86_400_000_000_000
      case Retain(days) => (if days == 0 then 7 else days) * 86_400_000_000_000
      case _ => RetentionAfter(commands[..|commands|-1])
  }

  // ----- the shape of a checkpoint -----

  /** The segments are numbered by their first entries and follow each other without a gap. */
  predicate Contiguous(segments: seq<Segment>, sequence: nat, head: nat)
    decreases |segments|
  {
    if segments == [] then sequence == head
    else segments[0].name == SegmentFile(sequence + 1) && sequence < segments[0].lastSequence
         && Contiguous(segments[1..], segments[0].lastSequence, head)
  }

  predicate Shaped(m: Moment) {
    m.state.headSequence == |m.history| && Contiguous(m.state.segments, m.state.anchorSequence, |m.history|)
  }

  lemma {:induction false} SegmentsAreContiguous(c: Codec, files: Files, segments: seq<Segment>, sequence: nat, previous: string, head: nat, headHash: string)
    requires SegmentsOk(c, files, segments, sequence, previous, head, headHash)
    ensures Contiguous(segments, sequence, head)
    decreases |segments|
  {
    if segments != [] { SegmentsAreContiguous(c, files, segments[1..], segments[0].lastSequence, segments[0].lastHash, head, headHash); }
  }

  lemma RepresentedIsShaped(c: Codec, files: Files, s: State, history: seq<Entry>)
    requires Represents(c, files, s, history)
    ensures Shaped(Moment(s, history))
  {
    SegmentsAreContiguous(c, files, s.segments, s.anchorSequence, s.anchorHash, s.headSequence, s.headHash);
  }

  predicate Contains(g: Segment, q: nat) { g.name.SegmentFile? && g.name.start <= q <= g.lastSequence }

  /** A number between anchor and head lies in one of the segments. */
  lemma {:induction false} SomeSegmentContains(segments: seq<Segment>, sequence: nat, head: nat, q: nat) returns (j: nat)
    requires Contiguous(segments, sequence, head) && sequence < q <= head
    ensures j < |segments| && Contains(segments[j], q)
    decreases |segments|
  {
    if q <= segments[0].lastSequence {
      j := 0;
    } else {
      j := SomeSegmentContains(segments[1..], segments[0].lastSequence, head, q);
      j := j + 1;
    }
  }

  lemma {:induction false} LaterSegmentsEndLater(segments: seq<Segment>, sequence: nat, head: nat, i: nat, j: nat)
    requires Contiguous(segments, sequence, head) && i <= j < |segments|
    ensures sequence < segments[i].lastSequence <= segments[j].lastSequence
    ensures i < j ==> segments[j].name.SegmentFile? && segments[i].lastSequence < segments[j].name.start
    decreases |segments|
  {
    if i > 0 {
      LaterSegmentsEndLater(segments[1..], segments[0].lastSequence, head, i - 1, j - 1);
    } else if j > 0 {
      LaterSegmentsEndLater(segments[1..], segments[0].lastSequence, head, 0, j - 1);
      if j > 1 { LaterSegmentsEndLater(segments[1..], segments[0].lastSequence, head, 0, j - 1); }
    }
  }

  // ----- when a segment starts -----

  /**
   * A new segment starts exactly when there is none, when the line would take the last one over 256 KiB, or when the
   * last one has expired. Its bytes are those of the entries from its first one on.
   */
  predicate Starts(c: Codec, m: Moment, e: Entry, cutoff: int) {
    m.state.segments == [] ||
    (var last := m.state.segments[|m.state.segments|-1];
     || last.createdAt <= cutoff
     || (last.name.SegmentFile? && 1 <= last.name.start <= |m.history| + 1 && Bytes(c, m.history[last.name.start-1..]) + c.size(e) > 262144))
  }

  lemma LastSegmentHolds(c: Codec, files: Files, s: State, history: seq<Entry>)
    requires Tracks(c, files, s, history) && s.segments != []
    ensures var last := s.segments[|s.segments|-1];
            && last.name.SegmentFile? && 1 <= last.name.start <= |history|
            && last.name in files && files[last.name].Lines? && files[last.name].entries == history[last.name.start-1..]
  {
    hide Genuine, Bytes, Chain;
    var mid, midHash := LastSegment(c, files, s, history);
    var last := s.segments[|s.segments|-1];
    var front, es := Retained(files, s.segments[..|s.segments|-1]), files[last.name].entries;
    assert history[s.anchorSequence..] == front + es;
    assert history == history[..s.anchorSequence] + (front + es);
    assert history[mid..] == es;
  }

  lemma StartsIff(c: Codec, files: Files, s: State, history: seq<Entry>, e: Entry, cutoff: int)
    requires Tracks(c, files, s, history)
    ensures NeedsSegment(c, files, s, e, cutoff) <==> Starts(c, Moment(s, history), e, cutoff)
  {
    hide Tracks, Bytes;
    if s.segments != [] { LastSegmentHolds(c, files, s, history); }
  }

  // ----- one command -----

  /** The checkpoint that a command is about to prune, with the time up to which segments have expired. */
  datatype Pending = Pending(state: State, cutoff: int, added: seq<Entry>)

  function ToPrune(c: Codec, retention: int, k: Command, m: Moment): Option<Pending> {
    match k
    case AppendEvent(event, now, nowAgain, nowPruning) =>
      var e := NextEntry(c, m.state, event, now);
      Some(Pending(Extended(m.state, e, Starts(c, m, e, nowAgain - retention)), nowPruning - retention, [e]))
    case PurgeAt(now) => Some(Pending(m.state, now - retention, []))
    case _ => None
  }

  /** A command leaves the checkpoint as it is, or commits the pruned one. */
  predicate Moved(c: Codec, retention: int, k: Command, m: Moment, n: Moment) {
    n == m ||
    (var p := ToPrune(c, retention, k, m);
     p.Some? && n == Moment(PrunedOf(p.value.state, p.value.cutoff).0, m.history + p.value.added))
  }

  /** The checkpoints after each command. */
  ghost predicate Moments(c: Codec, commands: seq<Command>, moments: seq<Moment>) {
    && |moments| == |commands| + 1 && (forall i :: 0 <= i < |moments| ==> Shaped(moments[i]))
    && forall i :: 0 <= i < |commands| ==> Moved(c, RetentionAfter(commands[..i]), commands[i], moments[i], moments[i+1])
  }

  // ----- how long an entry stays -----

  /** Wherever an entry lies, its segment is one of the last 16 and has not expired. */
  predicate Protected(s: State, cutoff: int, q: nat) {
    forall j :: 0 <= j < |s.segments| && Contains(s.segments[j], q) ==> |s.segments| - j <= 16 && s.segments[j].createdAt > cutoff
  }

  lemma {:induction false} ContiguousSnoc(front: seq<Segment>, g: Segment, sequence: nat, mid: nat)
    requires Contiguous(front, sequence, mid) && g.name == SegmentFile(mid + 1) && mid < g.lastSequence
    ensures Contiguous(front + [g], sequence, g.lastSequence)
    decreases |front|
  {
    if front == [] {
      assert front + [g] == [g] && [g][1..] == [];
    } else {
      assert (front + [g])[0] == front[0] && (front + [g])[1..] == front[1..] + [g];
      ContiguousSnoc(front[1..], g, front[0].lastSequence, mid);
    }
  }

  lemma {:induction false} ContiguousFront(segments: seq<Segment>, sequence: nat, head: nat) returns (mid: nat)
    requires Contiguous(segments, sequence, head) && segments != []
    ensures Contiguous(segments[..|segments|-1], sequence, mid)
    ensures segments[|segments|-1].name == SegmentFile(mid + 1) && mid < segments[|segments|-1].lastSequence == head
    decreases |segments|
  {
    if |segments| == 1 {
      assert segments[..0] == [] && segments[1..] == [];
      mid := sequence;
    } else {
      mid := ContiguousFront(segments[1..], segments[0].lastSequence, head);
      assert segments[..|segments|-1][1..] == segments[1..][..|segments|-2];
    }
  }

  lemma ExtendedIsContiguous(m: Moment, e: Entry, newSegment: bool)
    requires Shaped(m) && e.sequence == |m.history| + 1 && (newSegment || m.state.segments != [])
    ensures Contiguous(Extended(m.state, e, newSegment).segments, m.state.anchorSequence, |m.history| + 1)
  {
    if newSegment {
      ContiguousSnoc(m.state.segments, Segment(SegmentFile(e.sequence), e.time, e.sequence, e.hash), m.state.anchorSequence, |m.history|);
    } else {
      var n := |m.state.segments| - 1;
      var mid := ContiguousFront(m.state.segments, m.state.anchorSequence, |m.history|);
      ContiguousSnoc(m.state.segments[..n], m.state.segments[n].(lastSequence := e.sequence, lastHash := e.hash), m.state.anchorSequence, mid);
    }
  }

  /** Pruning keeps every protected entry. */
  lemma PruningKeeps(s: State, cutoff: int, head: nat, q: nat)
    requires Contiguous(s.segments, s.anchorSequence, head) && s.anchorSequence < q <= head && Protected(s, cutoff, q)
    ensures PrunedOf(s, cutoff).0.anchorSequence < q
  {
    PruningIsExact(s, cutoff);
    var t := PrunedOf(s, cutoff).0;
    var k := |s.segments| - |t.segments|;
    if k > 0 && q <= s.segments[k-1].lastSequence {
      var j := SomeSegmentContains(s.segments, s.anchorSequence, head, q);
      if j >= k { LaterSegmentsEndLater(s.segments, s.anchorSequence, head, k - 1, j); }
      assert false;
    }
  }

  lemma StepKeepsEntry(c: Codec, retention: int, k: Command, m: Moment, n: Moment, q: nat)
    requires Shaped(m) && Moved(c, retention, k, m, n) && m.state.anchorSequence < q <= |m.history|
    requires ToPrune(c, retention, k, m).Some? ==> Protected(ToPrune(c, retention, k, m).value.state, ToPrune(c, retention, k, m).value.cutoff, q)
    ensures n.state.anchorSequence < q && |m.history| <= |n.history|
  {
    hide PrunedOf, Protected, Contiguous, Starts, HashOf;
    if n != m {
      var p := ToPrune(c, retention, k, m).value;
      if k.AppendEvent? {
        var e := NextEntry(c, m.state, k.event, k.now);
        var newSegment := Starts(c, m, e, k.nowAgain - retention);
        assert newSegment || m.state.segments != [] by { NoSegmentStarts(c, m, e, k.nowAgain - retention); }
        ExtendedIsContiguous(m, e, newSegment);
        PruningKeeps(p.state, p.cutoff, |m.history| + 1, q);
      } else {
        PruningKeeps(p.state, p.cutoff, |m.history|, q);
      }
    }
  }

  lemma NoSegmentStarts(c: Codec, m: Moment, e: Entry, cutoff: int)
    ensures m.state.segments == [] ==> Starts(c, m, e, cutoff)
  {}

  /** A new entry is retained by the append that writes it unless its segment had expired by then. */
  lemma NewEntryIsRetained(c: Codec, retention: int, k: Command, m: Moment, n: Moment)
    requires Shaped(m) && k.AppendEvent? && n != m && Moved(c, retention, k, m, n)
    requires var p := ToPrune(c, retention, k, m).value; Protected(p.state, p.cutoff, |m.history| + 1)
    ensures n.state.anchorSequence < |n.history| == |m.history| + 1
  {
    hide PrunedOf, Protected, Contiguous, Starts, HashOf;
    var p := ToPrune(c, retention, k, m).value;
    var e := NextEntry(c, m.state, k.event, k.now);
    var newSegment := Starts(c, m, e, k.nowAgain - retention);
    assert newSegment || m.state.segments != [] by { NoSegmentStarts(c, m, e, k.nowAgain - retention); }
    ExtendedIsContiguous(m, e, newSegment);
    assert m.state.anchorSequence <= |m.history| by { AnchorIsBefore(m.state.segments, m.state.anchorSequence, |m.history|); }
    PruningKeeps(p.state, p.cutoff, |m.history| + 1, |m.history| + 1);
  }

  lemma {:induction false} AnchorIsBefore(segments: seq<Segment>, sequence: nat, head: nat)
    requires Contiguous(segments, sequence, head)
    ensures sequence <= head
    decreases |segments|
  {
    if segments != [] { AnchorIsBefore(segments[1..], segments[0].lastSequence, head); }
  }

  /**
   * An entry retained at some moment stays retained through any life of the directory, failures and restarts included, as
   * long as at every pruning its segment is one of the last 16 and has not expired.
   */
  lemma {:induction false} EntryStaysRetained(c: Codec, commands: seq<Command>, moments: seq<Moment>, q: nat, from: nat, n: nat)
    requires Moments(c, commands, moments) && from <= n <= |commands|
    requires moments[from].state.anchorSequence < q <= |moments[from].history|
    requires forall i :: from <= i < n && ToPrune(c, RetentionAfter(commands[..i]), commands[i], moments[i]).Some? ==>
      var p := ToPrune(c, RetentionAfter(commands[..i]), commands[i], moments[i]).value; Protected(p.state, p.cutoff, q)
    ensures moments[n].state.anchorSequence < q <= |moments[n].history|
    decreases n
  {
    hide Moved, ToPrune, Protected, RetentionAfter, Shaped;
    if n > from {
      EntryStaysRetained(c, commands, moments, q, from, n - 1);
      StepKeepsEntry(c, RetentionAfter(commands[..n-1]), commands[n-1], moments[n-1], moments[n], q);
    }
  }
}
