/** The entries of the hub's audit log and their hash chain (internal/hub/audit.go). */
module AuditChain {

  datatype Event = Event(actor: string, kind: string, workspace: string, credentialId: string, action: string, outcome: string, reportId: string)
  datatype Entry = Entry(sequence: nat, time: int, previous: string, event: Event, hash: string)

  /** The digest of an entry whose hash field is empty, and the length of an encoded line with its newline. */
  datatype Codec = Codec(digest: Entry -> string, size: Entry -> nat)

  const MAX_LINE := 4096

  predicate PlainField(value: string) {
    |value| <= 128 && '\n' !in value && '\r' !in value && '\0' !in value
  }

  predicate ValidEvent(e: Event) {
    && PlainField(e.actor) && PlainField(e.kind) && PlainField(e.workspace) && PlainField(e.credentialId)
    && PlainField(e.action) && PlainField(e.outcome) && PlainField(e.reportId)
    && e.actor != "" && e.action != "" && e.outcome != ""
  }

  function HashOf(c: Codec, e: Entry): string { c.digest(e.(hash := "")) }

  predicate LowerHex(ch: char) { '0' <= ch <= '9' || 'a' <= ch <= 'f' }

  /** No hash before the first entry; afterwards 64 lower-case hexadecimal digits. */
  predicate ValidHash(sequence: nat, hash: string) {
    if sequence == 0 then hash == "" else |hash| == 64 && forall ch :: ch in hash ==> LowerHex(ch)
  }

  ghost predicate WellFormedDigest(c: Codec) {
    forall e :: ValidHash(1, c.digest(e))
  }

  /** No entry of `a` has the hash of a different entry of `b`. */
  ghost predicate NoCollisions(c: Codec, a: seq<Entry>, b: seq<Entry>) {
    forall x, y :: x in a && y in b && HashOf(c, x) == HashOf(c, y) ==> x.(hash := "") == y.(hash := "")
  }

  predicate GoodEntry(c: Codec, e: Entry, sequence: nat, previous: string) {
    && e.sequence == sequence + 1 && e.previous == previous && e.time != 0 && e.hash == HashOf(c, e)
    && ValidEvent(e.event) && c.size(e) <= MAX_LINE
  }

  function EndHash(es: seq<Entry>, previous: string): string {
    if es == [] then previous else es[|es|-1].hash
  }

  /** `es` continues the chain after entry number `sequence` with hash `previous`. */
  predicate Chain(c: Codec, es: seq<Entry>, sequence: nat, previous: string)
    decreases |es|
  {
    es == [] || (GoodEntry(c, es[0], sequence, previous) && Chain(c, es[1..], sequence + 1, es[0].hash))
  }

  /** A chain from the very first entry. */
  predicate Genuine(c: Codec, history: seq<Entry>) { Chain(c, history, 0, "") }

  /** One link of a chain, in numbers: consecutive, linked by hash, its own hash right, at most 4096 bytes, and plain fields of at most 128. */
  predicate Link(c: Codec, es: seq<Entry>, sequence: nat, previous: string, i: nat)
    requires i < |es|
  {
    var e := es[i];
    && e.sequence == sequence + i + 1 && e.previous == (if i == 0 then previous else es[i-1].hash)
    && e.hash == c.digest(e.(hash := "")) && e.time != 0 && c.size(e) <= 4096
    && e.event.actor != "" && e.event.action != "" && e.event.outcome != ""
    && forall field :: field in [e.event.actor, e.event.kind, e.event.workspace, e.event.credentialId, e.event.action, e.event.outcome, e.event.reportId] ==>
         |field| <= 128 && '\n' !in field && '\r' !in field && '\0' !in field
  }

  lemma FirstLink(c: Codec, es: seq<Entry>, sequence: nat, previous: string)
    requires es != []
    ensures GoodEntry(c, es[0], sequence, previous) <==> Link(c, es, sequence, previous, 0)
  {}

  /** A chain is a list of such entries. */
  lemma {:induction false} ChainIff(c: Codec, es: seq<Entry>, sequence: nat, previous: string)
    ensures Chain(c, es, sequence, previous) <==> forall i :: 0 <= i < |es| ==> Link(c, es, sequence, previous, i)
    decreases |es|
  {
    if es != [] {
      var rest, next, hash := es[1..], sequence + 1, es[0].hash;
      FirstLink(c, es, sequence, previous);
      ChainIff(c, rest, next, hash);
      forall i | 0 <= i < |rest| ensures Link(c, rest, next, hash, i) <==> Link(c, es, sequence, previous, i + 1) {
        assert rest[i] == es[i+1];
      }
      if forall i :: 0 <= i < |es| ==> Link(c, es, sequence, previous, i) {
        forall i | 0 <= i < |rest| ensures Link(c, rest, next, hash, i) { assert Link(c, es, sequence, previous, i + 1); }
      } else if Link(c, es, sequence, previous, 0) {
        var i :| 0 <= i < |es| && !Link(c, es, sequence, previous, i);
        assert !Link(c, rest, next, hash, i - 1);
      }
    }
  }

  lemma {:induction false} ChainConcat(c: Codec, a: seq<Entry>, b: seq<Entry>, sequence: nat, previous: string)
    ensures Chain(c, a + b, sequence, previous)
       <==> Chain(c, a, sequence, previous) && Chain(c, b, sequence + |a|, EndHash(a, previous))
    decreases |a|
  {
    if a == [] {
      assert a + b == b;
    } else {
      assert (a + b)[1..] == a[1..] + b;
      ChainConcat(c, a[1..], b, sequence + 1, a[0].hash);
    }
  }

  lemma GenuineExtends(c: Codec, history: seq<Entry>, e: Entry)
    requires Genuine(c, history) && GoodEntry(c, e, |history|, EndHash(history, ""))
    ensures Genuine(c, history + [e]) && EndHash(history + [e], "") == e.hash
  {
    ChainConcat(c, history, [e], 0, "");
  }

  lemma ChainSplit(c: Codec, es: seq<Entry>, i: nat, sequence: nat, previous: string)
    requires i <= |es| && Chain(c, es, sequence, previous)
    ensures Chain(c, es[..i], sequence, previous) && Chain(c, es[i..], sequence + i, EndHash(es[..i], previous))
  {
    assert es == es[..i] + es[i..];
    ChainConcat(c, es[..i], es[i..], sequence, previous);
  }

  lemma ChainLast(c: Codec, es: seq<Entry>, sequence: nat, previous: string)
    requires es != [] && Chain(c, es, sequence, previous)
    ensures var n := |es| - 1;
            && Chain(c, es[..n], sequence, previous)
            && GoodEntry(c, es[n], sequence + n, EndHash(es[..n], previous))
  {
    var n := |es| - 1;
    ChainSplit(c, es, n, sequence, previous);
    assert es[n..] == [es[n]];
  }

  // ----- a head hash pins what leads to it -----

  lemma SameHeadSameLast(c: Codec, a: seq<Entry>, b: seq<Entry>, sa: nat, pa: string, sb: nat, pb: string)
    requires NoCollisions(c, a, b) && Chain(c, a, sa, pa) && Chain(c, b, sb, pb) && a != [] && b != []
    requires EndHash(a, pa) == EndHash(b, pb)
    ensures a[|a|-1] == b[|b|-1] && sa + |a| == sb + |b|
    ensures EndHash(a[..|a|-1], pa) == EndHash(b[..|b|-1], pb)
  {
    ChainLast(c, a, sa, pa);
    ChainLast(c, b, sb, pb);
    var x, y := a[|a|-1], b[|b|-1];
    assert x.(hash := "") == y.(hash := "");
  }

  lemma NoCollisionsInFront(c: Codec, a: seq<Entry>, b: seq<Entry>)
    requires NoCollisions(c, a, b) && a != [] && b != []
    ensures NoCollisions(c, a[..|a|-1], b[..|b|-1])
  {
    hide HashOf;
    assert forall x :: x in a[..|a|-1] ==> x in a;
    assert forall y :: y in b[..|b|-1] ==> y in b;
  }

  /** Two chains that end in the same hash agree, counted from the end, for as long as both last. */
  lemma {:induction false} SameHeadSameEntries(c: Codec, a: seq<Entry>, b: seq<Entry>, sa: nat, pa: string, sb: nat, pb: string, k: nat)
    requires NoCollisions(c, a, b) && Chain(c, a, sa, pa) && Chain(c, b, sb, pb)
    requires EndHash(a, pa) == EndHash(b, pb) && k < |a| && k < |b|
    ensures a[|a|-1-k] == b[|b|-1-k]
    decreases k
  {
    hide NoCollisions, GoodEntry;
    SameHeadSameLast(c, a, b, sa, pa, sb, pb);
    if k > 0 {
      NoCollisionsInFront(c, a, b);
      ChainLast(c, a, sa, pa);
      ChainLast(c, b, sb, pb);
      SameHeadSameEntries(c, a[..|a|-1], b[..|b|-1], sa, pa, sb, pb, k - 1);
    }
  }
}
