/**
 * The audit directory (internal/hub/audit.go): numbered segment files of entries, and a state file
 * that commits which segments are retained, after which anchor, up to which head.
 */
module AuditStore {
  import opened Ordering
  import opened AuditChain

  const SEGMENT_BYTES := 256 * 1024
  const MAX_SEGMENTS := 16
  const MAX_DIRECTORY_ENTRIES := 40

  datatype FileName = StateFile | LockFile | Temp(id: nat) | SegmentFile(start: nat) | Foreign(name: string)

  datatype Segment = Segment(name: FileName, createdAt: int, lastSequence: nat, lastHash: string)
  datatype State = State(version: nat, anchorSequence: nat, anchorHash: string, headSequence: nat, headHash: string, segments: seq<Segment>)

  /** A segment file is whole lines, then `torn` bytes of a line without its newline. */
  datatype Content = StateContent(state: State) | Lines(entries: seq<Entry>, torn: nat) | Junk
  type Files = map<FileName, Content>

  function Bytes(c: Codec, es: seq<Entry>): nat {
    if es == [] then 0 else Bytes(c, es[..|es|-1]) + c.size(es[|es|-1])
  }

  // ----- loading and verifying -----

  function NamesOf(segments: seq<Segment>): set<FileName> { set s | s in segments :: s.name }

  function Keep(s: State): set<FileName> { {StateFile, LockFile} + NamesOf(s.segments) }

  /** A leftover that recovery recognises: a temporary file, or a segment pruned behind the anchor. */
  predicate Leftover(name: FileName, anchor: nat) {
    name.Temp? || (name.SegmentFile? && name.start <= anchor)
  }

  predicate StateOk(s: State) {
    && s.version == 1 && |s.segments| <= MAX_SEGMENTS && s.anchorSequence <= s.headSequence
    && ValidHash(s.anchorSequence, s.anchorHash) && ValidHash(s.headSequence, s.headHash)
  }

  predicate SegmentOk(c: Codec, files: Files, g: Segment, sequence: nat, previous: string) {
    && g.name == SegmentFile(sequence + 1) && g.createdAt != 0
    && g.name in files && files[g.name].Lines? && files[g.name].torn == 0 && files[g.name].entries != []
    && Bytes(c, files[g.name].entries) <= SEGMENT_BYTES
    && Chain(c, files[g.name].entries, sequence, previous)
    && g.lastSequence == sequence + |files[g.name].entries|
    && g.lastHash == EndHash(files[g.name].entries, previous)
  }

  /** Every segment is intact and continues the one before it, from entry number `sequence` on. */
  predicate SegmentsOk(c: Codec, files: Files, segments: seq<Segment>, sequence: nat, previous: string, headSequence: nat, headHash: string)
    decreases |segments|
  {
    if segments == [] then sequence == headSequence && previous == headHash
    else
      && SegmentOk(c, files, segments[0], sequence, previous)
      && SegmentsOk(c, files, segments[1..], segments[0].lastSequence, segments[0].lastHash, headSequence, headHash)
  }

  function Restrict(files: Files, names: set<FileName>): Files { map n | n in files && n in names :: files[n] }

  predicate Intact(c: Codec, files: Files, s: State) {
    && StateOk(s)
    && SegmentsOk(c, files, s.segments, s.anchorSequence, s.anchorHash, s.headSequence, s.headHash)
    && |files| <= MAX_DIRECTORY_ENTRIES
    && forall n :: n in files ==> n in Keep(s) || Leftover(n, s.anchorSequence)
  }

  datatype Loaded = Refused | Opened(state: State, files: Files)

  /** `loadAndVerify` without I/O errors: the committed state, and the directory with leftovers removed. */
  function LoadOf(c: Codec, files: Files): Loaded {
    if StateFile in files && files[StateFile].StateContent? && Intact(c, files, files[StateFile].state)
    then Opened(files[StateFile].state, Restrict(files, Keep(files[StateFile].state)))
    else Refused
  }

  /** The entries the directory retains. */
  function Retained(files: Files, segments: seq<Segment>): seq<Entry> {
    if segments == [] then []
    else (if segments[0].name in files && files[segments[0].name].Lines? then files[segments[0].name].entries else [])
         + Retained(files, segments[1..])
  }

  // ----- reading the segment chain -----

  lemma {:induction false} SegmentsChain(c: Codec, files: Files, segments: seq<Segment>, sequence: nat, previous: string, head: nat, headHash: string)
    requires SegmentsOk(c, files, segments, sequence, previous, head, headHash)
    ensures Chain(c, Retained(files, segments), sequence, previous)
    ensures head == sequence + |Retained(files, segments)| && headHash == EndHash(Retained(files, segments), previous)
    ensures segments != [] ==> Retained(files, segments) != []
    ensures forall g :: g in segments ==> g.name.SegmentFile? && sequence < g.name.start <= head && g.name in files
    decreases |segments|
  {
    if segments != [] {
      var g := segments[0];
      var es := files[g.name].entries;
      SegmentsChain(c, files, segments[1..], g.lastSequence, g.lastHash, head, headHash);
      ChainConcat(c, es, Retained(files, segments[1..]), sequence, previous);
    }
  }

  /** Only the retained segments are read. */
  lemma {:induction false} SegmentsFrame(c: Codec, files: Files, other: Files, segments: seq<Segment>, sequence: nat, previous: string, head: nat, headHash: string)
    requires SegmentsOk(c, files, segments, sequence, previous, head, headHash)
    requires forall g :: g in segments ==> g.name in files && g.name in other && other[g.name] == files[g.name]
    ensures SegmentsOk(c, other, segments, sequence, previous, head, headHash)
    ensures Retained(other, segments) == Retained(files, segments)
    decreases |segments|
  {
    if segments != [] {
      assert segments[0] in segments;
      SegmentsFrame(c, files, other, segments[1..], segments[0].lastSequence, segments[0].lastHash, head, headHash);
    }
  }

  /** A consistent chain of segments over a history, whatever the state file on disk says. */
  ghost predicate Tracks(c: Codec, files: Files, s: State, history: seq<Entry>) {
    && s.version == 1 && Genuine(c, history)
    && s.anchorSequence <= |history| == s.headSequence
    && s.anchorHash == EndHash(history[..s.anchorSequence], "") && s.headHash == EndHash(history, "")
    && SegmentsOk(c, files, s.segments, s.anchorSequence, s.anchorHash, s.headSequence, s.headHash)
    && Retained(files, s.segments) == history[s.anchorSequence..]
  }

  /** The checkpoint is committed, and besides what it keeps there are only recognised leftovers. */
  ghost predicate Committed(files: Files, s: State) {
    && StateFile in files && files[StateFile] == StateContent(s) && LockFile in files && |s.segments| <= MAX_SEGMENTS
    && |files| <= MAX_DIRECTORY_ENTRIES
    && forall n :: n in files ==> n in Keep(s) || Leftover(n, s.anchorSequence)
  }

  /** The directory stands for the whole history of appended entries, of which it retains what follows the anchor. */
  ghost predicate Represents(c: Codec, files: Files, s: State, history: seq<Entry>) {
    Tracks(c, files, s, history) && Committed(files, s)
  }

  /** Represented, with nothing left over. */
  ghost predicate Clean(c: Codec, files: Files, s: State, history: seq<Entry>) {
    Represents(c, files, s, history) && files.Keys <= Keep(s)
  }

  lemma HistoryHash(c: Codec, history: seq<Entry>, i: nat)
    requires WellFormedDigest(c) && Genuine(c, history) && i <= |history|
    ensures ValidHash(i, EndHash(history[..i], ""))
  {
    if i > 0 {
      ChainSplit(c, history, i, 0, "");
      ChainLast(c, history[..i], 0, "");
    }
  }

  /** A directory that represents a history is accepted, with its checkpoint and without its leftovers. */
  lemma RepresentedOpens(c: Codec, files: Files, s: State, history: seq<Entry>)
    requires WellFormedDigest(c) && Represents(c, files, s, history)
    ensures LoadOf(c, files) == Opened(s, Restrict(files, Keep(s)))
  {
    HistoryHash(c, history, s.anchorSequence);
    HistoryHash(c, history, |history|);
    assert history[..|history|] == history;
  }

  /** Recovery changes nothing that matters, and nothing at all in a clean directory: reopening is the identity. */
  lemma ReopenIsIdentity(c: Codec, files: Files, s: State, history: seq<Entry>)
    requires WellFormedDigest(c) && Represents(c, files, s, history)
    ensures LoadOf(c, files).Opened?
    ensures Clean(c, LoadOf(c, files).files, s, history)
    ensures LoadOf(c, LoadOf(c, files).files) == Opened(s, LoadOf(c, files).files)
    ensures files.Keys <= Keep(s) ==> LoadOf(c, files).files == files
  {
    hide Chain, SegmentOk, Genuine, Bytes;
    RepresentedOpens(c, files, s, history);
    var kept := Restrict(files, Keep(s));
    assert kept.Keys <= files.Keys;
    SubsetSize(kept.Keys, files.Keys);
    SegmentsChain(c, files, s.segments, s.anchorSequence, s.anchorHash, s.headSequence, s.headHash);
    assert forall g :: g in s.segments ==> g.name in Keep(s);
    SegmentsFrame(c, files, kept, s.segments, s.anchorSequence, s.anchorHash, s.headSequence, s.headHash);
    RepresentedOpens(c, kept, s, history);
    assert Restrict(kept, Keep(s)) == kept;
  }

  lemma {:induction false} NamesSize(segments: seq<Segment>)
    ensures |NamesOf(segments)| <= |segments|
    decreases |segments|
  {
    if segments != [] {
      NamesSize(segments[1..]);
      assert NamesOf(segments) == NamesOf(segments[1..]) + {segments[0].name};
    } else {
      assert NamesOf(segments) == {};
    }
  }

  // ----- what an accepted directory is, in numbers -----

  /** Segment `i` starts after everything before it and holds between one line and 256 KiB of them, all whole. */
  predicate Orderly(c: Codec, files: Files, s: State, i: nat)
    requires i < |s.segments|
  {
    var g, first := s.segments[i], if i == 0 then s.anchorSequence else s.segments[i-1].lastSequence;
    && g.name == SegmentFile(first + 1) && g.createdAt != 0 && g.name in files && files[g.name].Lines? && files[g.name].torn == 0
    && files[g.name].entries != [] && Bytes(c, files[g.name].entries) <= 262144
    && g.lastSequence == first + |files[g.name].entries| && g.lastHash == files[g.name].entries[|files[g.name].entries|-1].hash
  }

  predicate AllOrderly(c: Codec, files: Files, s: State) { forall i :: 0 <= i < |s.segments| ==> Orderly(c, files, s, i) }

  /** The checkpoint after its first segment. */
  function PastFirst(s: State): State
    requires s.segments != []
  {
    s.(anchorSequence := s.segments[0].lastSequence, anchorHash := s.segments[0].lastHash, segments := s.segments[1..])
  }

  lemma AllOrderlyStep(c: Codec, files: Files, s: State)
    requires s.segments != []
    ensures AllOrderly(c, files, s) <==> Orderly(c, files, s, 0) && AllOrderly(c, files, PastFirst(s))
  {
    hide Bytes;
    var t := PastFirst(s);
    forall i | 0 <= i < |t.segments| ensures Orderly(c, files, t, i) <==> Orderly(c, files, s, i + 1) {}
    if AllOrderly(c, files, s) {
      forall i | 0 <= i < |t.segments| ensures Orderly(c, files, t, i) { assert Orderly(c, files, s, i + 1); }
    } else if Orderly(c, files, s, 0) {
      var i :| 0 <= i < |s.segments| && !Orderly(c, files, s, i);
      assert !Orderly(c, files, t, i - 1);
    }
  }

  /** Where the last segment ends, or the anchor if there is none. */
  predicate EndsAtHead(s: State) {
    if s.segments == [] then s.headSequence == s.anchorSequence && s.headHash == s.anchorHash
    else var last := s.segments[|s.segments|-1]; s.headSequence == last.lastSequence && s.headHash == last.lastHash
  }

  lemma {:induction false} SegmentsIff(c: Codec, files: Files, s: State)
    ensures SegmentsOk(c, files, s.segments, s.anchorSequence, s.anchorHash, s.headSequence, s.headHash)
       <==> AllOrderly(c, files, s) && EndsAtHead(s) && Chain(c, Retained(files, s.segments), s.anchorSequence, s.anchorHash)
    decreases |s.segments|
  {
    hide Bytes, GoodEntry, AllOrderly, Chain;
    if s.segments == [] {
      EmptyIsOrderly(c, files, s);
    } else {
      var g, t := s.segments[0], PastFirst(s);
      SegmentsIff(c, files, t);
      AllOrderlyStep(c, files, s);
      if Orderly(c, files, s, 0) {
        ChainConcat(c, files[g.name].entries, Retained(files, t.segments), s.anchorSequence, s.anchorHash);
      }
    }
  }

  lemma EmptyIsOrderly(c: Codec, files: Files, s: State)
    requires s.segments == []
    ensures AllOrderly(c, files, s) && Chain(c, Retained(files, []), s.anchorSequence, s.anchorHash)
  {}

  predicate HashForm(sequence: nat, hash: string) {
    if sequence == 0 then hash == "" else |hash| == 64 && forall ch :: ch in hash ==> '0' <= ch <= '9' || 'a' <= ch <= 'f'
  }

  /**
   * A directory is accepted exactly if its state file is of version 1 with at most 16 segments, orderly, whose entries are one
   * chain from the anchor to the head, and there are at most 40 files, each the state, the lock, one of those segments, a temporary
   * file or a segment at or before the anchor.
   */
  lemma LoadedIff(c: Codec, files: Files)
    ensures LoadOf(c, files).Opened? <==>
      && StateFile in files && files[StateFile].StateContent?
      && var s := files[StateFile].state;
         && s.version == 1 && |s.segments| <= 16 && |files| <= 40 && s.anchorSequence <= s.headSequence
         && HashForm(s.anchorSequence, s.anchorHash) && HashForm(s.headSequence, s.headHash)
         && AllOrderly(c, files, s) && EndsAtHead(s) && Chain(c, Retained(files, s.segments), s.anchorSequence, s.anchorHash)
         && forall n :: n in files ==>
              n == StateFile || n == LockFile || n.Temp? || (n.SegmentFile? && n.start <= s.anchorSequence) || exists g :: g in s.segments && g.name == n
  {
    hide AllOrderly, SegmentsOk, Chain, EndsAtHead, Retained;
    if StateFile in files && files[StateFile].StateContent? { SegmentsIff(c, files, files[StateFile].state); }
  }

  // ----- what an accepted directory pins -----

  function Accepted(c: Codec, files: Files): seq<Entry>
    requires LoadOf(c, files).Opened?
  {
    Retained(files, LoadOf(c, files).state.segments)
  }

  /** What is accepted is a chain from its anchor to its head. */
  lemma AcceptedIsChain(c: Codec, files: Files)
    requires LoadOf(c, files).Opened?
    ensures var s, r := LoadOf(c, files).state, Accepted(c, files);
            && Chain(c, r, s.anchorSequence, s.anchorHash) && s.headSequence == s.anchorSequence + |r|
            && s.headHash == EndHash(r, s.anchorHash) && (s.segments != [] ==> r != [])
  {
    var s := LoadOf(c, files).state;
    SegmentsChain(c, files, s.segments, s.anchorSequence, s.anchorHash, s.headSequence, s.headHash);
  }

  /**
   * Two accepted directories with the same head hash agree on every entry retained in both, whoever
   * wrote them: counted from the head, entry by entry.
   */
  lemma HeadPinsHistory(c: Codec, a: Files, b: Files, k: nat)
    requires LoadOf(c, a).Opened? && LoadOf(c, b).Opened? && NoCollisions(c, Accepted(c, a), Accepted(c, b))
    requires LoadOf(c, a).state.headHash == LoadOf(c, b).state.headHash
    requires k < |Accepted(c, a)| && k < |Accepted(c, b)|
    ensures Accepted(c, a)[|Accepted(c, a)|-1-k] == Accepted(c, b)[|Accepted(c, b)|-1-k]
  {
    hide *;
    AcceptedIsChain(c, a);
    AcceptedIsChain(c, b);
    var s, t := LoadOf(c, a).state, LoadOf(c, b).state;
    SameHeadSameEntries(c, Accepted(c, a), Accepted(c, b), s.anchorSequence, s.anchorHash, t.anchorSequence, t.anchorHash, k);
  }

  /** If the anchors match too, and each directory retains something, they retain exactly the same entries. */
  lemma HeadAndAnchorPinEverything(c: Codec, a: Files, b: Files)
    requires LoadOf(c, a).Opened? && LoadOf(c, b).Opened? && NoCollisions(c, Accepted(c, a), Accepted(c, b))
    requires LoadOf(c, a).state.headHash == LoadOf(c, b).state.headHash
    requires LoadOf(c, a).state.anchorSequence == LoadOf(c, b).state.anchorSequence
    requires LoadOf(c, a).state.segments != [] && LoadOf(c, b).state.segments != []
    ensures Accepted(c, a) == Accepted(c, b)
  {
    hide Intact, Retained, SegmentsOk, NoCollisions, GoodEntry, Accepted, LoadOf, Chain;
    AcceptedIsChain(c, a);
    AcceptedIsChain(c, b);
    var s, t := LoadOf(c, a).state, LoadOf(c, b).state;
    var ra, rb := Accepted(c, a), Accepted(c, b);
    SameHeadSameLast(c, ra, rb, s.anchorSequence, s.anchorHash, t.anchorSequence, t.anchorHash);
    forall i | 0 <= i < |ra| ensures ra[i] == rb[i] {
      HeadPinsHistory(c, a, b, |ra| - 1 - i);
    }
  }

  /** A directory accepted with the head hash of a genuine log retains entries of that log's history, in their places. */
  lemma AcceptedHeadIsGenuine(c: Codec, files: Files, history: seq<Entry>, i: nat)
    requires Genuine(c, history) && LoadOf(c, files).Opened? && NoCollisions(c, Accepted(c, files), history)
    requires LoadOf(c, files).state.headHash == EndHash(history, "")
    requires i < |Accepted(c, files)| && i < |history|
    ensures LoadOf(c, files).state.headSequence == |history|
    ensures Accepted(c, files)[|Accepted(c, files)|-1-i] == history[|history|-1-i]
  {
    hide Intact, Retained, SegmentsOk, NoCollisions, GoodEntry, Accepted, LoadOf, Chain;
    AcceptedIsChain(c, files);
    var s, r := LoadOf(c, files).state, Accepted(c, files);
    SameHeadSameLast(c, r, history, s.anchorSequence, s.anchorHash, 0, "");
    SameHeadSameEntries(c, r, history, s.anchorSequence, s.anchorHash, 0, "", i);
  }

  /**
   * A directory accepted with the head hash of a genuine log, whoever wrote it, retains exactly the end of that
   * log's history.
   */
  lemma AcceptedIsEndOfHistory(c: Codec, files: Files, history: seq<Entry>)
    requires Genuine(c, history) && history != [] && LoadOf(c, files).Opened? && NoCollisions(c, Accepted(c, files), history)
    requires LoadOf(c, files).state.headHash == EndHash(history, "")
    ensures |Accepted(c, files)| <= |history|
    ensures Accepted(c, files) == history[|history|-|Accepted(c, files)|..]
  {
    hide Intact, Retained, SegmentsOk, NoCollisions, GoodEntry, Accepted, LoadOf, Chain, Genuine;
    var r := Accepted(c, files);
    AcceptedIsChain(c, files);
    if r != [] {
      AcceptedHeadIsGenuine(c, files, history, 0);
      forall k | 0 <= k < |r| ensures r[k] == history[|history|-|r|+k] {
        AcceptedHeadIsGenuine(c, files, history, |r| - 1 - k);
      }
    }
  }
}
