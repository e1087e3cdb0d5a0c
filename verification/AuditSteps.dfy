/** What appending, pruning and committing do to an audit directory (internal/hub/audit.go). */
module AuditSteps {
  import opened Ordering
  import opened AuditChain
  import opened AuditStore

  // ----- specification -----

  /** The checkpoint once `e` is written, before pruning. */
  function Extended(s: State, e: Entry, newSegment: bool): State
    requires !newSegment ==> s.segments != []
  {
    var segments :=
      if newSegment then s.segments + [Segment(SegmentFile(e.sequence), e.time, e.sequence, e.hash)]
      else
        var n := |s.segments| - 1;
        s.segments[..n] + [s.segments[n].(lastSequence := e.sequence, lastHash := e.hash)];
    s.(segments := segments, headSequence := e.sequence, headHash := e.hash)
  }

  /** `pruned`: whole segments go from the front while there are too many or the first has expired. */
  function PrunedOf(s: State, cutoff: int): (State, seq<FileName>)
    decreases |s.segments|
  {
    if s.segments != [] && (|s.segments| > MAX_SEGMENTS || s.segments[0].createdAt <= cutoff) then
      var g := s.segments[0];
      var (t, removed) := PrunedOf(s.(anchorSequence := g.lastSequence, anchorHash := g.lastHash, segments := s.segments[1..]), cutoff);
      (t, [g.name] + removed)
    else (s, [])
  }

  // ----- pruning -----

  lemma DropFirst(c: Codec, files: Files, s: State, history: seq<Entry>)
    requires Tracks(c, files, s, history) && s.segments != []
    ensures var g := s.segments[0];
            && Tracks(c, files, s.(anchorSequence := g.lastSequence, anchorHash := g.lastHash, segments := s.segments[1..]), history)
            && g.name.SegmentFile? && g.name.start <= g.lastSequence && s.anchorSequence < g.lastSequence
  {
    hide GoodEntry, Bytes, Genuine;
    var g := s.segments[0];
    var es := files[g.name].entries;
    var rest := Retained(files, s.segments[1..]);
    SegmentsChain(c, files, s.segments[1..], g.lastSequence, g.lastHash, s.headSequence, s.headHash);
    assert history[s.anchorSequence..] == es + rest;
    assert history == history[..s.anchorSequence] + (es + rest);
    assert history[g.lastSequence..] == rest;
    assert history[..g.lastSequence] == history[..s.anchorSequence] + es;
  }

  /** Pruning drops a whole-segment prefix: the same history, the same head, a later anchor, at most 16 segments. */
  lemma {:induction false} PruningTracks(c: Codec, files: Files, s: State, history: seq<Entry>, cutoff: int)
    requires Tracks(c, files, s, history)
    ensures var (t, removed) := PrunedOf(s, cutoff);
            && Tracks(c, files, t, history) && |t.segments| <= MAX_SEGMENTS
            && s.anchorSequence <= t.anchorSequence && t.headSequence == s.headSequence && t.headHash == s.headHash
            && (forall g :: g in t.segments ==> g in s.segments)
            && (forall n :: n in removed ==> n.SegmentFile? && n.start <= t.anchorSequence)
            && (forall g :: g in s.segments ==> g.name in removed || g in t.segments)
            && (t.segments == [] || t.segments[0].createdAt > cutoff)
    decreases |s.segments|
  {
    if s.segments != [] && (|s.segments| > MAX_SEGMENTS || s.segments[0].createdAt <= cutoff) {
      var g := s.segments[0];
      DropFirst(c, files, s, history);
      var s' := s.(anchorSequence := g.lastSequence, anchorHash := g.lastHash, segments := s.segments[1..]);
      PruningTracks(c, files, s', history, cutoff);
    }
  }

  /**
   * Pruning, exactly: segments go from the front, each because more than 16 were left or because it had expired; what
   * is left is at most 16 segments of which the first has not expired; the anchor is the end of the last one dropped.
   */
  lemma {:induction false} PruningIsExact(s: State, cutoff: int)
    ensures var (t, removed) := PrunedOf(s, cutoff);
            var k := |s.segments| - |t.segments|;
            && 0 <= k && t.segments == s.segments[k..] && |removed| == k
            && (forall i :: 0 <= i < k ==> removed[i] == s.segments[i].name)
            && (forall i :: 0 <= i < k ==> |s.segments| - i > 16 || s.segments[i].createdAt <= cutoff)
            && |t.segments| <= 16 && (t.segments != [] ==> t.segments[0].createdAt > cutoff)
            && t.anchorSequence == (if k == 0 then s.anchorSequence else s.segments[k-1].lastSequence)
            && t.anchorHash == (if k == 0 then s.anchorHash else s.segments[k-1].lastHash)
            && t.version == s.version && t.headSequence == s.headSequence && t.headHash == s.headHash
    decreases |s.segments|
  {
    if s.segments != [] && (|s.segments| > MAX_SEGMENTS || s.segments[0].createdAt <= cutoff) {
      var g := s.segments[0];
      var s' := s.(anchorSequence := g.lastSequence, anchorHash := g.lastHash, segments := s.segments[1..]);
      PruningIsExact(s', cutoff);
      var t := PrunedOf(s', cutoff).0;
      var k := |s'.segments| - |t.segments|;
      assert s.segments[1..][k..] == s.segments[k+1..];
    }
  }

  /** The checkpoint over one more entry, field by field. */
  lemma ExtendedExactly(s: State, e: Entry, newSegment: bool)
    requires newSegment || s.segments != []
    ensures var x, n := Extended(s, e, newSegment), |s.segments|;
            && x.version == s.version && x.anchorSequence == s.anchorSequence && x.anchorHash == s.anchorHash
            && x.headSequence == e.sequence && x.headHash == e.hash
            && |x.segments| == (if newSegment then n + 1 else n) && n <= |x.segments|
            && (forall i :: 0 <= i < n && (newSegment || i < n - 1) ==> x.segments[i] == s.segments[i])
            && (var last := x.segments[|x.segments|-1];
                last.lastSequence == e.sequence && last.lastHash == e.hash
                && if newSegment then last.name == SegmentFile(e.sequence) && last.createdAt == e.time
                   else last.name == s.segments[n-1].name && last.createdAt == s.segments[n-1].createdAt)
  {}

  lemma NothingPruned(s: State, cutoff: int)
    requires PrunedOf(s, cutoff).1 == []
    ensures PrunedOf(s, cutoff).0 == s
  {}

  // ----- writing one line -----

  lemma {:induction false} SegmentsConcat(c: Codec, files: Files, front: seq<Segment>, g: Segment, sequence: nat, previous: string, head: nat, headHash: string)
    ensures SegmentsOk(c, files, front + [g], sequence, previous, head, headHash)
       <==> exists mid: nat, midHash: string ::
              SegmentsOk(c, files, front, sequence, previous, mid, midHash) && SegmentOk(c, files, g, mid, midHash)
              && g.lastSequence == head && g.lastHash == headHash
    decreases |front|
  {
    if front == [] {
      assert front + [g] == [g];
      assert [g][1..] == [];
      if SegmentsOk(c, files, [g], sequence, previous, head, headHash) {
        assert SegmentsOk(c, files, front, sequence, previous, sequence, previous);
      }
    } else {
      assert (front + [g])[0] == front[0] && (front + [g])[1..] == front[1..] + [g];
      SegmentsConcat(c, files, front[1..], g, front[0].lastSequence, front[0].lastHash, head, headHash);
      if SegmentsOk(c, files, front + [g], sequence, previous, head, headHash) {
        var mid: nat, midHash: string :|
          SegmentsOk(c, files, front[1..], front[0].lastSequence, front[0].lastHash, mid, midHash) && SegmentOk(c, files, g, mid, midHash)
          && g.lastSequence == head && g.lastHash == headHash;
        assert SegmentsOk(c, files, front, sequence, previous, mid, midHash);
      }
    }
  }

  lemma {:induction false} RetainedConcat(files: Files, a: seq<Segment>, b: seq<Segment>)
    ensures Retained(files, a + b) == Retained(files, a) + Retained(files, b)
    decreases |a|
  {
    if a == [] {
      assert a + b == b;
    } else {
      assert (a + b)[1..] == a[1..] + b;
      RetainedConcat(files, a[1..], b);
    }
  }

  /** The last segment stands after everything the segments before it hold. */
  lemma LastSegment(c: Codec, files: Files, s: State, history: seq<Entry>) returns (mid: nat, midHash: string)
    requires Tracks(c, files, s, history) && s.segments != []
    ensures var n := |s.segments| - 1;
            && SegmentsOk(c, files, s.segments[..n], s.anchorSequence, s.anchorHash, mid, midHash)
            && SegmentOk(c, files, s.segments[n], mid, midHash)
            && mid == s.anchorSequence + |Retained(files, s.segments[..n])|
            && s.segments[n].lastSequence == s.headSequence && s.segments[n].lastHash == s.headHash
            && (forall g :: g in s.segments[..n] ==> g.name in files && g.name != s.segments[n].name)
            && Retained(files, s.segments) == Retained(files, s.segments[..n]) + files[s.segments[n].name].entries
  {
    var n := |s.segments| - 1;
    var front, last := s.segments[..n], s.segments[n];
    assert s.segments == front + [last];
    SegmentsConcat(c, files, front, last, s.anchorSequence, s.anchorHash, s.headSequence, s.headHash);
    mid, midHash :|
      SegmentsOk(c, files, front, s.anchorSequence, s.anchorHash, mid, midHash) && SegmentOk(c, files, last, mid, midHash)
      && last.lastSequence == s.headSequence && last.lastHash == s.headHash;
    SegmentsChain(c, files, front, s.anchorSequence, s.anchorHash, mid, midHash);
    RetainedConcat(files, front, [last]);
    assert [last][1..] == [];
    assert Retained(files, [last]) == files[last.name].entries;
  }

  /** A segment that stands after `front`, alone, extends both the segment chain and what is retained. */
  lemma SegmentAdded(c: Codec, files: Files, front: seq<Segment>, g: Segment, sequence: nat, previous: string, mid: nat, midHash: string)
    requires SegmentsOk(c, files, front, sequence, previous, mid, midHash) && SegmentOk(c, files, g, mid, midHash)
    ensures SegmentsOk(c, files, front + [g], sequence, previous, g.lastSequence, g.lastHash)
    ensures Retained(files, front + [g]) == Retained(files, front) + files[g.name].entries
  {
    SegmentsConcat(c, files, front, g, sequence, previous, g.lastSequence, g.lastHash);
    RetainedConcat(files, front, [g]);
    assert [g][1..] == [];
    assert Retained(files, [g]) == files[g.name].entries;
  }

  lemma TracksMore(c: Codec, files: Files, s: State, history: seq<Entry>, e: Entry, newSegment: bool, segments: seq<Segment>)
    requires s.version == 1 && s.anchorSequence <= |history| && s.anchorHash == EndHash(history[..s.anchorSequence], "")
    requires Genuine(c, history) && GoodEntry(c, e, |history|, EndHash(history, ""))
    requires !newSegment ==> s.segments != []
    requires segments == Extended(s, e, newSegment).segments
    requires SegmentsOk(c, files, segments, s.anchorSequence, s.anchorHash, e.sequence, e.hash)
    requires Retained(files, segments) == history[s.anchorSequence..] + [e]
    ensures Tracks(c, files, Extended(s, e, newSegment), history + [e])
  {
    GenuineExtends(c, history, e);
    assert (history + [e])[s.anchorSequence..] == history[s.anchorSequence..] + [e];
    assert (history + [e])[..s.anchorSequence] == history[..s.anchorSequence];
  }

  lemma OneEntrySegment(c: Codec, files: Files, g: Segment, sequence: nat, previous: string, e: Entry)
    requires GoodEntry(c, e, sequence, previous) && g == Segment(SegmentFile(e.sequence), e.time, e.sequence, e.hash)
    requires g.name in files && files[g.name] == Lines([e], 0)
    ensures SegmentOk(c, files, g, sequence, previous)
  {
    hide HashOf, ValidEvent;
    OneLine(c, e);
    assert Chain(c, [e], sequence, previous) by { assert [e][1..] == []; }
    assert EndHash([e], previous) == e.hash;
  }

  lemma NewSegmentTracks(c: Codec, files: Files, s: State, history: seq<Entry>, e: Entry)
    requires Tracks(c, files, s, history) && GoodEntry(c, e, |history|, EndHash(history, ""))
    ensures Tracks(c, files[SegmentFile(e.sequence) := Lines([e], 0)], Extended(s, e, true), history + [e])
  {
    hide SegmentOk, HashOf, ValidEvent, Genuine, Retained;
    var after := files[SegmentFile(e.sequence) := Lines([e], 0)];
    var g := Segment(SegmentFile(e.sequence), e.time, e.sequence, e.hash);
    SegmentsChain(c, files, s.segments, s.anchorSequence, s.anchorHash, s.headSequence, s.headHash);
    SegmentsFrame(c, files, after, s.segments, s.anchorSequence, s.anchorHash, s.headSequence, s.headHash);
    OneEntrySegment(c, after, g, s.headSequence, s.headHash, e);
    SegmentAdded(c, after, s.segments, g, s.anchorSequence, s.anchorHash, s.headSequence, s.headHash);
    TracksMore(c, after, s, history, e, true, s.segments + [g]);
  }

  lemma OneLine(c: Codec, e: Entry)
    ensures Bytes(c, [e]) == c.size(e)
  {
    assert [e][..0] == [];
    assert Bytes(c, []) == 0;
  }

  lemma BytesOfMore(c: Codec, es: seq<Entry>, e: Entry)
    ensures Bytes(c, es + [e]) == Bytes(c, es) + c.size(e)
  {
    assert (es + [e])[..|es|] == es;
  }

  lemma LongerSegment(c: Codec, files: Files, last: Segment, mid: nat, midHash: string, e: Entry)
    requires SegmentOk(c, files, last, mid, midHash) && GoodEntry(c, e, last.lastSequence, last.lastHash)
    requires Bytes(c, files[last.name].entries) + c.size(e) <= SEGMENT_BYTES
    ensures SegmentOk(c, files[last.name := Lines(files[last.name].entries + [e], 0)],
                      last.(lastSequence := e.sequence, lastHash := e.hash), mid, midHash)
  {
    hide HashOf, ValidEvent;
    var es := files[last.name].entries;
    BytesOfMore(c, es, e);
    ChainConcat(c, es, [e], mid, midHash);
    assert Chain(c, [e], mid + |es|, EndHash(es, midHash)) by { assert [e][1..] == []; }
  }

  lemma ExtendedSegmentTracks(c: Codec, files: Files, s: State, history: seq<Entry>, e: Entry)
    requires Tracks(c, files, s, history) && s.segments != [] && GoodEntry(c, e, |history|, EndHash(history, ""))
    requires var name := s.segments[|s.segments|-1].name;
             name in files && files[name].Lines? && Bytes(c, files[name].entries) + c.size(e) <= SEGMENT_BYTES
    ensures var name := s.segments[|s.segments|-1].name;
            Tracks(c, files[name := Lines(files[name].entries + [e], 0)], Extended(s, e, false), history + [e])
  {
    hide HashOf, ValidEvent, Genuine, Bytes, Chain;
    var n := |s.segments| - 1;
    var front, last := s.segments[..n], s.segments[n];
    var es := files[last.name].entries;
    var after := files[last.name := Lines(es + [e], 0)];
    var mid, midHash := LastSegment(c, files, s, history);
    SegmentsFrame(c, files, after, front, s.anchorSequence, s.anchorHash, mid, midHash);
    LongerSegment(c, files, last, mid, midHash, e);
    var g := last.(lastSequence := e.sequence, lastHash := e.hash);
    SegmentAdded(c, after, front, g, s.anchorSequence, s.anchorHash, mid, midHash);
    assert Retained(files, front) + (es + [e]) == history[s.anchorSequence..] + [e];
    TracksMore(c, after, s, history, e, false, front + [g]);
  }

  // ----- a touched segment without its checkpoint -----

  /** A segment file past the committed head is never a leftover: the directory is refused. */
  lemma UncommittedSegmentIsRefused(c: Codec, files: Files, after: Files, s: State, history: seq<Entry>)
    requires Tracks(c, files, s, history) && StateFile in after && after[StateFile] == StateContent(s)
    requires SegmentFile(|history| + 1) in after
    ensures LoadOf(c, after) == Refused
  {
    SegmentsChain(c, files, s.segments, s.anchorSequence, s.anchorHash, s.headSequence, s.headHash);
    var name := SegmentFile(|history| + 1);
    assert name !in Keep(s);
  }

  /** A last segment with a torn line, or one whole line more than the checkpoint says, is refused. */
  lemma TouchedSegmentIsRefused(c: Codec, files: Files, after: Files, s: State, history: seq<Entry>, e: Entry, torn: nat)
    requires Tracks(c, files, s, history) && s.segments != [] && StateFile in after && after[StateFile] == StateContent(s)
    requires forall g :: g in s.segments[..|s.segments|-1] && g.name in files && g.name != s.segments[|s.segments|-1].name ==> g.name in after && after[g.name] == files[g.name]
    requires var name := s.segments[|s.segments|-1].name;
             && name in files && files[name].Lines? && name in after
             && (after[name] == Lines(files[name].entries + [e], 0) || (torn > 0 && after[name] == Lines(files[name].entries, torn)))
    ensures LoadOf(c, after) == Refused
  {
    var n := |s.segments| - 1;
    var front, last := s.segments[..n], s.segments[n];
    assert s.segments == front + [last];
    var mid, midHash := LastSegment(c, files, s, history);
    SegmentsConcat(c, after, front, last, s.anchorSequence, s.anchorHash, s.headSequence, s.headHash);
    SegmentsFrame(c, files, after, front, s.anchorSequence, s.anchorHash, mid, midHash);
    forall mid': nat, midHash': string | SegmentsOk(c, after, front, s.anchorSequence, s.anchorHash, mid', midHash')
      ensures !SegmentOk(c, after, last, mid', midHash')
    {
      SegmentsChain(c, after, front, s.anchorSequence, s.anchorHash, mid', midHash');
    }
  }

  // ----- how many files there can be -----

  lemma FewFiles(files: Files, s: State, more: set<FileName>)
    requires |s.segments| <= MAX_SEGMENTS && files.Keys <= Keep(s) + more && |more| <= 20
    ensures |files| <= MAX_DIRECTORY_ENTRIES
  {
    NamesSize(s.segments);
    SubsetSize(files.Keys, Keep(s) + more);
    assert |Keep(s) + more| <= |Keep(s)| + |more|;
    assert |Keep(s)| <= 2 + |NamesOf(s.segments)|;
  }

  // ----- what does not disturb a directory -----

  lemma TracksFrame(c: Codec, files: Files, after: Files, s: State, history: seq<Entry>)
    requires Tracks(c, files, s, history)
    requires forall n :: n in files && n.SegmentFile? && n.start > s.anchorSequence ==> n in after && after[n] == files[n]
    ensures Tracks(c, after, s, history)
  {
    SegmentsChain(c, files, s.segments, s.anchorSequence, s.anchorHash, s.headSequence, s.headHash);
    SegmentsFrame(c, files, after, s.segments, s.anchorSequence, s.anchorHash, s.headSequence, s.headHash);
  }

  /** Removing a leftover changes nothing that matters. */
  lemma RemovalKeeps(c: Codec, files: Files, s: State, history: seq<Entry>, n: FileName)
    requires Represents(c, files, s, history) && Leftover(n, s.anchorSequence)
    ensures Represents(c, files - {n}, s, history)
  {
    TracksFrame(c, files, files - {n}, s, history);
    SubsetSize((files - {n}).Keys, files.Keys);
  }

  /** Nor does one more temporary file. */
  lemma TempKeeps(c: Codec, files: Files, after: Files, s: State, history: seq<Entry>, t: FileName)
    requires Represents(c, files, s, history) && t.Temp? && t in after && after - {t} == files
    requires |after| <= MAX_DIRECTORY_ENTRIES
    ensures Represents(c, after, s, history)
  {
    forall n | n in files ensures n in after && after[n] == files[n] { assert n in after - {t}; }
    forall n | n in after ensures n in Keep(s) || Leftover(n, s.anchorSequence) {
      if n != t { assert n in after - {t}; }
    }
    TracksFrame(c, files, after, s, history);
  }

  /** Renaming the new state file over the old one commits the checkpoint it holds. */
  lemma RenameCommits(c: Codec, files: Files, s: State, history: seq<Entry>, removed: seq<FileName>)
    requires Tracks(c, files, s, history) && |s.segments| <= MAX_SEGMENTS
    requires StateFile in files && LockFile in files && |files| <= MAX_DIRECTORY_ENTRIES
    requires forall n :: n in files ==> n in Keep(s) || n in removed
    requires forall n :: n in removed ==> Leftover(n, s.anchorSequence)
    ensures Represents(c, files[StateFile := StateContent(s)], s, history)
  {
    var after := files[StateFile := StateContent(s)];
    assert after.Keys == files.Keys;
    TracksFrame(c, files, after, s, history);
  }
}
