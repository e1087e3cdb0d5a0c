/**
 * Delta debugging (internal/experiment/ddmin.go).
 *
 * The test passed to `DDMin` is a closure over mutable variables; here it is a function that
 * takes the value of those variables and returns their next value with the outcome. Nothing
 * is assumed of it: it may change its mind, fail, or depend on every earlier call.
 */
module DeltaDebugging {
  import opened Ordering
  import opened Sequences

  datatype Outcome = Verdict(passes: bool) | Errored(message: string)
  datatype Stop = BudgetExhausted | TestFailed(message: string)
  datatype Call = Call(candidate: seq<string>, outcome: Outcome)

  type Test<!S> = (S, seq<string>) -> (S, Outcome)

  /** The closure's variables and every call made so far. */
  datatype Probe<S> = Probe(state: S, calls: seq<Call>)

  /** `since` is the number of calls made when `current` was last replaced. */
  datatype Minimized<S> = Minimized(current: seq<string>, since: nat, probe: Probe<S>, stop: Option<Stop>)

  datatype Sweep<S> =
    | Accepted(candidate: seq<string>, probe: Probe<S>)
    | Rejected(probe: Probe<S>)
    | Halted(stop: Stop, probe: Probe<S>)

  // ----- specification -----

  ghost function Ask<S>(test: Test<S>, p: Probe<S>, candidate: seq<string>): (q: Probe<S>)
    ensures |q.calls| == |p.calls| + 1
  {
    var (state, outcome) := test(p.state, candidate);
    Probe(state, p.calls + [Call(candidate, outcome)])
  }

  /** Tries the non-empty candidates in order until one passes, one errs, or the budget is gone. */
  ghost function TryEach<S>(test: Test<S>, candidates: seq<seq<string>>, budget: int, p: Probe<S>): (s: Sweep<S>)
    ensures s.Accepted? ==> s.candidate in candidates && s.candidate != []
    decreases |candidates|
  {
    if candidates == [] then Rejected(p)
    else if candidates[0] == [] then TryEach(test, candidates[1..], budget, p)
    else if |p.calls| >= budget then Halted(BudgetExhausted, p)
    else
      var q := Ask(test, p, candidates[0]);
      match q.calls[|p.calls|].outcome
      case Errored(message) => Halted(TestFailed(message), q)
      case Verdict(passes) =>
        if passes then Accepted(candidates[0], q) else TryEach(test, candidates[1..], budget, q)
  }

  function Size(base: nat, extra: nat): nat { base + if extra > 0 then 1 else 0 }
  function Less(extra: nat): nat { if extra > 0 then extra - 1 else 0 }

  /** The length of `parts` pieces of `base` items, the first `extra` of them one item longer. */
  ghost function Total(parts: nat, base: nat, extra: nat): nat {
    if parts == 0 then 0 else Size(base, extra) + Total(parts - 1, base, Less(extra))
  }

  lemma {:induction false} TotalIs(parts: nat, base: nat, extra: nat)
    requires extra <= parts
    ensures Total(parts, base, extra) == parts * base + extra
    decreases parts
  {
    if parts > 0 {
      TotalIs(parts - 1, base, Less(extra));
      assert parts * base == (parts - 1) * base + base;
    }
  }

  /** `parts` consecutive pieces, the first `extra` of them one item longer than `base`. */
  function Chunks(items: seq<string>, parts: nat, base: nat, extra: nat): (chunks: seq<seq<string>>)
    requires |items| == Total(parts, base, extra)
    ensures |chunks| == parts
    decreases parts
  {
    if parts == 0 then []
    else [items[..Size(base, extra)]] + Chunks(items[Size(base, extra)..], parts - 1, base, Less(extra))
  }

  function Parts(items: seq<string>, n: nat): nat {
    if n > |items| then |items| else n
  }

  function SplitOf(items: seq<string>, n: nat): (chunks: seq<seq<string>>)
    requires items != [] && n > 0
    ensures |chunks| == Parts(items, n)
  {
    var parts := Parts(items, n);
    SplitArithmetic(|items|, parts);
    Chunks(items, parts, |items| / parts, |items| % parts)
  }

  lemma SplitArithmetic(length: nat, parts: nat)
    requires 0 < parts <= length
    ensures length == Total(parts, length / parts, length % parts)
    ensures length / parts >= 1 && length % parts < parts
    ensures parts == length ==> length / parts == 1 && length % parts == 0
  {
    TotalIs(parts, length / parts, length % parts);
  }

  /** Removes from `all`, front to back, the occurrences counted in `counts`. */
  function Subtract(all: seq<string>, counts: multiset<string>): seq<string> {
    if all == [] then []
    else if counts[all[0]] > 0 then Subtract(all[1..], counts - multiset{all[0]})
    else [all[0]] + Subtract(all[1..], counts)
  }

  function Complements(current: seq<string>, chunks: seq<seq<string>>): seq<seq<string>> {
    seq(|chunks|, i requires 0 <= i < |chunks| => Subtract(current, multiset(chunks[i])))
  }

  function Max(a: int, b: int): int { if a > b then a else b }
  function Min(a: int, b: int): int { if a < b then a else b }

  /** One round of the loop: the chunks of `current`, then what is left without each of them. */
  ghost function Round<S>(test: Test<S>, current: seq<string>, n: nat, budget: int, p: Probe<S>): (s: Sweep<S>)
    requires |current| >= 2 && n >= 2
    ensures s.Accepted? ==> 0 < |s.candidate| < |current|
  {
    ChunksAreShorter(current, n);
    var chunks := SplitOf(current, n);
    var s := TryEach(test, chunks, budget, p);
    if s.Rejected? then TryEach(test, Complements(current, chunks), budget, s.probe) else s
  }

  /** The search loop with `current` split `n` ways. */
  ghost function Search<S>(test: Test<S>, current: seq<string>, n: nat, since: nat, budget: int, p: Probe<S>): Minimized<S>
    requires n >= 2
    decreases |current|, |current| - n
  {
    if |current| < 2 then Minimized(current, since, p, None)
    else if |p.calls| >= budget then Minimized(current, since, p, Some(BudgetExhausted))
    else
      match Round(test, current, n, budget, p)
      case Halted(stop, q) => Minimized(current, since, q, Some(stop))
      case Accepted(smaller, q) => Search(test, smaller, Max(2, n - 1), |q.calls|, budget, q)
      case Rejected(q) =>
        if n >= |current| then Minimized(current, since, q, None)
        else Search(test, current, Min(|current|, n * 2), since, budget, q)
  }

  ghost function Minimize<S>(test: Test<S>, items: seq<string>, budget: int, state: S): Minimized<S> {
    Search(test, items, 2, 0, budget, Probe(state, []))
  }

  // ----- splitting and subtracting -----

  function Flatten(chunks: seq<seq<string>>): seq<string> {
    if chunks == [] then [] else chunks[0] + Flatten(chunks[1..])
  }

  lemma {:induction false} ChunksFlatten(items: seq<string>, parts: nat, base: nat, extra: nat)
    requires |items| == Total(parts, base, extra)
    ensures Flatten(Chunks(items, parts, base, extra)) == items
    decreases parts
  {
    if parts > 0 {
      var size := Size(base, extra);
      ChunksFlatten(items[size..], parts - 1, base, Less(extra));
      assert items == items[..size] + items[size..];
      assert Chunks(items, parts, base, extra)[1..] == Chunks(items[size..], parts - 1, base, Less(extra));
    }
  }

  lemma {:induction false} ChunkSizes(items: seq<string>, parts: nat, base: nat, extra: nat)
    requires |items| == Total(parts, base, extra)
    ensures forall c :: c in Chunks(items, parts, base, extra) ==> base <= |c| <= base + 1
    decreases parts
  {
    if parts > 0 { ChunkSizes(items[Size(base, extra)..], parts - 1, base, Less(extra)); }
  }

  lemma {:induction false} UnitChunks(items: seq<string>)
    ensures |items| == Total(|items|, 1, 0)
    ensures forall i :: 0 <= i < |items| ==> Chunks(items, |items|, 1, 0)[i] == [items[i]]
    decreases |items|
  {
    if items != [] {
      UnitChunks(items[1..]);
      assert Chunks(items, |items|, 1, 0) == [items[..1]] + Chunks(items[1..], |items| - 1, 1, 0);
    }
  }

  /** `split` partitions the list into even, non-empty pieces; asked for too many, it cuts single items. */
  lemma {:induction false} SplitIsPartition(items: seq<string>, n: nat)
    requires items != [] && n > 0
    ensures Flatten(SplitOf(items, n)) == items
    ensures |SplitOf(items, n)| == Min(n, |items|)
    ensures forall c :: c in SplitOf(items, n) ==> |items| / Parts(items, n) <= |c| <= |items| / Parts(items, n) + 1
    ensures forall c :: c in SplitOf(items, n) ==> c != []
    ensures n >= |items| ==> forall i :: 0 <= i < |items| ==> SplitOf(items, n)[i] == [items[i]]
  {
    var parts := Parts(items, n);
    SplitArithmetic(|items|, parts);
    ChunksFlatten(items, parts, |items| / parts, |items| % parts);
    ChunkSizes(items, parts, |items| / parts, |items| % parts);
    if n >= |items| { UnitChunks(items); }
  }

  lemma {:induction false} ChunkOfFlatten(chunks: seq<seq<string>>, k: nat)
    requires k < |chunks|
    ensures exists lo: nat, hi: nat :: lo <= hi <= |Flatten(chunks)| && Flatten(chunks)[lo..hi] == chunks[k]
    ensures |chunks| >= 2 && (forall c :: c in chunks ==> c != []) ==> |chunks[k]| < |Flatten(chunks)|
    decreases |chunks|
  {
    var whole := Flatten(chunks);
    if k == 0 {
      assert whole[0..|chunks[0]|] == chunks[0];
      if |chunks| >= 2 { assert chunks[1..][0] == chunks[1] && chunks[1] in chunks; }
    } else {
      ChunkOfFlatten(chunks[1..], k - 1);
      var lo: nat, hi: nat :| lo <= hi <= |Flatten(chunks[1..])| && Flatten(chunks[1..])[lo..hi] == chunks[1..][k-1];
      var shift := |chunks[0]|;
      assert whole[shift + lo .. shift + hi] == chunks[k];
      assert chunks[0] in chunks;
    }
  }

  lemma ChunkIsShorter(items: seq<string>, n: nat, k: nat)
    requires |items| >= 2 && n >= 2 && k < |SplitOf(items, n)|
    ensures 0 < |SplitOf(items, n)[k]| < |items| && Subsequence(SplitOf(items, n)[k], items)
    ensures |Subtract(items, multiset(SplitOf(items, n)[k]))| == |items| - |SplitOf(items, n)[k]|
    ensures Subsequence(Subtract(items, multiset(SplitOf(items, n)[k])), items)
  {
    hide SplitOf, Flatten, Subtract;
    var chunks := SplitOf(items, n);
    SplitIsPartition(items, n);
    ChunkOfFlatten(chunks, k);
    var lo: nat, hi: nat :| lo <= hi <= |items| && items[lo..hi] == chunks[k];
    SegmentIsSubsequence(items, lo, hi);
    SubtractSegment(items, lo, hi);
    assert chunks[k] in chunks;
  }

  lemma ChunksAreShorter(items: seq<string>, n: nat)
    requires |items| >= 2 && n >= 2
    ensures forall c :: c in SplitOf(items, n) ==> 0 < |c| < |items| && Subsequence(c, items)
    ensures forall c :: c in Complements(items, SplitOf(items, n)) ==> 0 < |c| < |items| && Subsequence(c, items)
  {
    forall k | 0 <= k < |SplitOf(items, n)|
      ensures 0 < |SplitOf(items, n)[k]| < |items| && Subsequence(SplitOf(items, n)[k], items)
      ensures 0 < |Complements(items, SplitOf(items, n))[k]| < |items|
      ensures Subsequence(Complements(items, SplitOf(items, n))[k], items)
    {
      ChunkIsShorter(items, n, k);
    }
  }

  lemma {:induction false} SubtractIsDifference(all: seq<string>, counts: multiset<string>)
    ensures multiset(Subtract(all, counts)) == multiset(all) - counts
    ensures Subsequence(Subtract(all, counts), all)
    decreases |all|
  {
    if all == [] {
      SubsequenceIsReflexive(all);
    } else {
      assert all == [all[0]] + all[1..];
      if counts[all[0]] > 0 {
        SubtractIsDifference(all[1..], counts - multiset{all[0]});
        SubsequenceOfTail(Subtract(all, counts), all);
      } else {
        SubtractIsDifference(all[1..], counts);
        SubsequenceOfTail(Subtract(all[1..], counts), all);
      }
    }
  }

  lemma SubsequenceIsDistinct(a: seq<string>, b: seq<string>)
    requires Subsequence(a, b) && Distinct(b)
    ensures Distinct(a)
  {
    var f :| Embeds(a, b, f);
  }

  lemma SubtractSegment(all: seq<string>, lo: nat, hi: nat)
    requires lo <= hi <= |all|
    ensures |Subtract(all, multiset(all[lo..hi]))| == |all| - (hi - lo)
    ensures Subsequence(Subtract(all, multiset(all[lo..hi])), all)
  {
    var m := multiset(all[lo..hi]);
    SubtractIsDifference(all, m);
    assert all == all[..lo] + all[lo..hi] + all[hi..];
    assert m <= multiset(all);
    assert |multiset(Subtract(all, m))| == |multiset(all)| - |m|;
  }

  /** With no repeated item, subtracting one item deletes exactly its position. */
  lemma {:induction false} SubtractOne(all: seq<string>, i: nat)
    requires i < |all| && Distinct(all)
    ensures Subtract(all, multiset{all[i]}) == all[..i] + all[i+1..]
    decreases |all|
  {
    if i == 0 {
      assert multiset{all[0]} - multiset{all[0]} == multiset{};
      SubtractNothing(all[1..]);
      assert all[..0] == [];
    } else {
      var rest := all[1..];
      assert rest[i-1] == all[i] && all[0] != all[i];
      SubtractOne(rest, i - 1);
      calc {
        Subtract(all, multiset{all[i]});
        [all[0]] + Subtract(rest, multiset{all[i]});
        [all[0]] + (rest[..i-1] + rest[i..]);
        { assert all[..i] == [all[0]] + rest[..i-1] && all[i+1..] == rest[i..]; }
        all[..i] + all[i+1..];
      }
    }
  }

  lemma {:induction false} SubtractNothing(all: seq<string>)
    ensures Subtract(all, multiset{}) == all
    decreases |all|
  {
    if all != [] { SubtractNothing(all[1..]); }
  }

  // ----- one sweep over the candidates -----

  ghost predicate Tested(calls: seq<Call>, from: nat, candidate: seq<string>, passes: bool) {
    exists k :: from <= k < |calls| && calls[k] == Call(candidate, Verdict(passes))
  }

  ghost predicate LastCall(calls: seq<Call>, call: Call) {
    calls != [] && calls[|calls|-1] == call
  }

  /** The budget is spent, or the last of the calls made after the first `from` erred. */
  ghost predicate StoppedBy(stop: Stop, calls: seq<Call>, from: nat, budget: int) {
    match stop
    case BudgetExhausted => |calls| >= budget
    case TestFailed(message) => |calls| > from && calls[|calls|-1].outcome == Errored(message)
  }

  lemma {:induction false} SweepLaw<S>(test: Test<S>, candidates: seq<seq<string>>, budget: int, p: Probe<S>)
    ensures p.calls <= TryEach(test, candidates, budget, p).probe.calls
    ensures |TryEach(test, candidates, budget, p).probe.calls| <= |p.calls| + |candidates|
    ensures |TryEach(test, candidates, budget, p).probe.calls| <= Max(|p.calls|, budget)
    ensures var s := TryEach(test, candidates, budget, p);
            && (s.Accepted? ==> |p.calls| < |s.probe.calls| && LastCall(s.probe.calls, Call(s.candidate, Verdict(true))))
            && (s.Rejected? ==> forall c :: c in candidates && c != [] ==> Tested(s.probe.calls, |p.calls|, c, false))
            && (s.Halted? ==> StoppedBy(s.stop, s.probe.calls, |p.calls|, budget))
    decreases |candidates|
  {
    if candidates != [] {
      if candidates[0] == [] {
        SweepLaw(test, candidates[1..], budget, p);
      } else if |p.calls| < budget {
        var q := Ask(test, p, candidates[0]);
        if q.calls[|p.calls|].outcome == Verdict(false) {
          SweepLaw(test, candidates[1..], budget, q);
          var s := TryEach(test, candidates, budget, p);
          if s.Rejected? {
            assert s.probe.calls[|p.calls|] == Call(candidates[0], Verdict(false));
            forall c | c in candidates && c != [] ensures Tested(s.probe.calls, |p.calls|, c, false) {
              if c != candidates[0] { assert c in candidates[1..]; assert Tested(s.probe.calls, |q.calls|, c, false); }
            }
          }
        }
      }
    }
  }

  // ----- the whole search -----

  /** Every list one item shorter was tested after `current` was adopted, and failed. */
  ghost predicate OneMinimal<S>(m: Minimized<S>) {
    forall i :: 0 <= i < |m.current| ==>
      Tested(m.probe.calls, m.since, Subtract(m.current, multiset{m.current[i]}), false)
  }

  /** What holds of a search that started from `current` at probe `p`, whatever the test does. */
  ghost predicate SearchLaw<S>(m: Minimized<S>, current: seq<string>, since: nat, budget: int, p: Probe<S>) {
    && p.calls <= m.probe.calls
    && |m.probe.calls| <= Max(|p.calls|, budget)
    && Subsequence(m.current, current) && (current != [] ==> m.current != [])
    && ((m.current == current && m.since == since)
        || (|p.calls| < m.since <= |m.probe.calls|
            && m.probe.calls[m.since-1] == Call(m.current, Verdict(true))))
    && (m.stop.None? && |m.current| >= 2 ==> OneMinimal(m))
    && (m.stop.Some? ==> |m.current| >= 2 && StoppedBy(m.stop.value, m.probe.calls, |p.calls|, budget))
  }

  /** A search resumed from a smaller accepted list obeys the law of the search it belongs to. */
  lemma ResumedSearch<S>(m: Minimized<S>, current: seq<string>, since: nat, budget: int, p: Probe<S>,
                         smaller: seq<string>, q: Probe<S>)
    requires p.calls <= q.calls && |p.calls| < |q.calls| <= Max(|p.calls|, budget)
    requires smaller != [] && Subsequence(smaller, current)
    requires LastCall(q.calls, Call(smaller, Verdict(true)))
    requires SearchLaw(m, smaller, |q.calls|, budget, q)
    ensures SearchLaw(m, current, since, budget, p)
  {
    SubsequenceIsTransitive(m.current, smaller, current);
    if m.current == smaller && m.since == |q.calls| {
      assert m.probe.calls[|q.calls|-1] == q.calls[|q.calls|-1];
    }
  }

  /** The last round leaves single items as chunks, so every one-smaller list was among its complements. */
  lemma LastRound<S>(test: Test<S>, current: seq<string>, n: nat, since: nat, budget: int, q: Probe<S>)
    requires |current| >= 2 && n >= |current| && since <= |q.calls|
    requires TryEach(test, Complements(current, SplitOf(current, n)), budget, q).Rejected?
    ensures OneMinimal(Minimized(current, since, TryEach(test, Complements(current, SplitOf(current, n)), budget, q).probe, None))
  {
    var chunks := SplitOf(current, n);
    var rests := Complements(current, chunks);
    var r := TryEach(test, rests, budget, q).probe;
    SweepLaw(test, rests, budget, q);
    SplitIsPartition(current, n);
    ChunksAreShorter(current, n);
    forall i | 0 <= i < |current| ensures Tested(r.calls, since, Subtract(current, multiset{current[i]}), false) {
      assert chunks[i] == [current[i]] && multiset([current[i]]) == multiset{current[i]};
      assert rests[i] == Subtract(current, multiset{current[i]}) && rests[i] in rests;
      assert Tested(r.calls, |q.calls|, rests[i], false);
    }
  }

  /** What a round that ended in `s` has done. */
  ghost predicate RoundOf<S>(s: Sweep<S>, current: seq<string>, budget: int, p: Probe<S>) {
    && p.calls <= s.probe.calls
    && |s.probe.calls| <= Max(|p.calls|, budget)
    && |s.probe.calls| <= |p.calls| + 2 * |current|
    && (s.Accepted? ==> 0 < |s.candidate| < |current| && Subsequence(s.candidate, current)
                        && |p.calls| < |s.probe.calls| && LastCall(s.probe.calls, Call(s.candidate, Verdict(true))))
    && (s.Halted? ==> StoppedBy(s.stop, s.probe.calls, |p.calls|, budget))
  }

  lemma PieceIsShorter(items: seq<string>, n: nat, c: seq<string>)
    requires |items| >= 2 && n >= 2
    requires c in SplitOf(items, n) || c in Complements(items, SplitOf(items, n))
    ensures 0 < |c| < |items| && Subsequence(c, items)
  {
    ChunksAreShorter(items, n);
  }

  lemma SplitCount(items: seq<string>, n: nat)
    requires items != [] && n > 0
    ensures |SplitOf(items, n)| <= |items|
    ensures |Complements(items, SplitOf(items, n))| == |SplitOf(items, n)|
  {}

  lemma RoundLaw<S>(test: Test<S>, current: seq<string>, n: nat, budget: int, p: Probe<S>)
    requires |current| >= 2 && n >= 2
    ensures RoundOf(Round(test, current, n, budget, p), current, budget, p)
  {
    var chunks := SplitOf(current, n);
    var rests := Complements(current, chunks);
    SplitCount(current, n);
    var first := TryEach(test, chunks, budget, p);
    SweepLaw(test, chunks, budget, p);
    if first.Rejected? {
      var second := TryEach(test, rests, budget, first.probe);
      assert Round(test, current, n, budget, p) == second;
      SweepLaw(test, rests, budget, first.probe);
      if second.Accepted? { PieceIsShorter(current, n, second.candidate); }
    } else {
      assert Round(test, current, n, budget, p) == first;
      if first.Accepted? { PieceIsShorter(current, n, first.candidate); }
    }
  }

  lemma FinalRound<S>(test: Test<S>, current: seq<string>, n: nat, since: nat, budget: int, p: Probe<S>)
    requires |current| >= 2 && n >= |current| && since <= |p.calls|
    requires Round(test, current, n, budget, p).Rejected?
    ensures OneMinimal(Minimized(current, since, Round(test, current, n, budget, p).probe, None))
  {
    SweepLaw(test, SplitOf(current, n), budget, p);
    LastRound(test, current, n, since, budget, TryEach(test, SplitOf(current, n), budget, p).probe);
  }

  lemma ContinuedSearch<S>(m: Minimized<S>, current: seq<string>, since: nat, budget: int, p: Probe<S>, q: Probe<S>)
    requires p.calls <= q.calls && |q.calls| <= Max(|p.calls|, budget)
    requires SearchLaw(m, current, since, budget, q)
    ensures SearchLaw(m, current, since, budget, p)
  {}

  lemma StoppedSearch<S>(m: Minimized<S>, budget: int, p: Probe<S>)
    requires p.calls <= m.probe.calls && |m.probe.calls| <= Max(|p.calls|, budget)
    requires m.stop.None? ==> |m.current| < 2 || OneMinimal(m)
    requires m.stop.Some? ==> |m.current| >= 2 && StoppedBy(m.stop.value, m.probe.calls, |p.calls|, budget)
    ensures SearchLaw(m, m.current, m.since, budget, p)
  {
    SubsequenceIsReflexive(m.current);
  }

  lemma {:induction false} SearchObeysLaw<S>(test: Test<S>, current: seq<string>, n: nat, since: nat, budget: int, p: Probe<S>)
    requires n >= 2 && since <= |p.calls|
    ensures SearchLaw(Search(test, current, n, since, budget, p), current, since, budget, p)
    decreases |current|, |current| - n
  {
    var m := Search(test, current, n, since, budget, p);
    if |current| < 2 || |p.calls| >= budget {
      StoppedSearch(m, budget, p);
    } else {
      RoundLaw(test, current, n, budget, p);
      var s := Round(test, current, n, budget, p);
      var q := s.probe;
      if s.Halted? {
        StoppedSearch(m, budget, p);
      } else if s.Accepted? {
        SearchObeysLaw(test, s.candidate, Max(2, n - 1), |q.calls|, budget, q);
        ResumedSearch(m, current, since, budget, p, s.candidate, q);
      } else if n < |current| {
        SearchObeysLaw(test, current, Min(|current|, n * 2), since, budget, q);
        ContinuedSearch(m, current, since, budget, p, q);
      } else {
        FinalRound(test, current, n, since, budget, p);
        StoppedSearch(m, budget, p);
      }
    }
  }

  // ----- what a test keeps -----

  /** Every test of a non-empty proper sub-list of `items` keeps `keeps` true. */
  ghost predicate KeptByTest<S(!new)>(test: Test<S>, keeps: (S, seq<Call>) -> bool, items: seq<string>) {
    forall s, calls, c :: keeps(s, calls) && 0 < |c| < |items| && Subsequence(c, items) ==>
      keeps(test(s, c).0, calls + [Call(c, test(s, c).1)])
  }

  lemma {:induction false} SweepKeeps<S(!new)>(test: Test<S>, keeps: (S, seq<Call>) -> bool, items: seq<string>,
                                               candidates: seq<seq<string>>, budget: int, p: Probe<S>)
    requires KeptByTest(test, keeps, items) && keeps(p.state, p.calls)
    requires forall c :: c in candidates ==> |c| < |items| && Subsequence(c, items)
    ensures var q := TryEach(test, candidates, budget, p).probe; keeps(q.state, q.calls)
    decreases |candidates|
  {
    if candidates != [] {
      var c := candidates[0];
      assert c in candidates;
      if c == [] {
        SweepKeeps(test, keeps, items, candidates[1..], budget, p);
      } else if |p.calls| < budget {
        var q := Ask(test, p, c);
        assert keeps(q.state, q.calls);
        if q.calls[|p.calls|].outcome == Verdict(false) { SweepKeeps(test, keeps, items, candidates[1..], budget, q); }
      }
    }
  }

  lemma RoundKeeps<S(!new)>(test: Test<S>, keeps: (S, seq<Call>) -> bool, items: seq<string>,
                            current: seq<string>, n: nat, budget: int, p: Probe<S>)
    requires |current| >= 2 && n >= 2 && KeptByTest(test, keeps, items) && keeps(p.state, p.calls) && Subsequence(current, items)
    ensures var q := Round(test, current, n, budget, p).probe; keeps(q.state, q.calls)
    ensures Round(test, current, n, budget, p).Accepted? ==> Subsequence(Round(test, current, n, budget, p).candidate, items)
  {
    var chunks := SplitOf(current, n);
    var rests := Complements(current, chunks);
    SubsequenceElements(current, items);
    forall c | c in chunks || c in rests ensures |c| < |items| && Subsequence(c, items) {
      PieceIsShorter(current, n, c);
      SubsequenceIsTransitive(c, current, items);
    }
    SweepKeeps(test, keeps, items, chunks, budget, p);
    var first := TryEach(test, chunks, budget, p);
    if first.Rejected? { SweepKeeps(test, keeps, items, rests, budget, first.probe); }
  }

  /** Whatever every single test keeps true of the closure's variables and the call log, the search keeps. */
  lemma {:induction false} SearchKeeps<S(!new)>(test: Test<S>, keeps: (S, seq<Call>) -> bool, items: seq<string>,
                                                current: seq<string>, n: nat, since: nat, budget: int, p: Probe<S>)
    requires n >= 2 && KeptByTest(test, keeps, items) && keeps(p.state, p.calls) && Subsequence(current, items)
    ensures var q := Search(test, current, n, since, budget, p).probe; keeps(q.state, q.calls)
    decreases |current|, |current| - n
  {
    if |current| >= 2 && |p.calls| < budget {
      RoundKeeps(test, keeps, items, current, n, budget, p);
      match Round(test, current, n, budget, p)
      case Halted(_, _) =>
      case Accepted(smaller, q) => SearchKeeps(test, keeps, items, smaller, Max(2, n - 1), |q.calls|, budget, q);
      case Rejected(q) =>
        if n < |current| { SearchKeeps(test, keeps, items, current, Min(|current|, n * 2), since, budget, q); }
    }
  }

  lemma MinimizeKeeps<S(!new)>(test: Test<S>, keeps: (S, seq<Call>) -> bool, items: seq<string>, budget: int, state: S)
    requires KeptByTest(test, keeps, items) && keeps(state, [])
    ensures var q := Minimize(test, items, budget, state).probe; keeps(q.state, q.calls)
  {
    SubsequenceIsReflexive(items);
    SearchKeeps(test, keeps, items, items, 2, 0, budget, Probe(state, []));
  }

  // ----- main results -----

  /**
   * For every test, however inconsistent: the result is a non-empty sub-list, either the untouched
   * input or a list that was tested and passed, and an error-free result of two or more items has
   * had every one-smaller list tested, later, with a failing verdict.
   */
  lemma MinimizeLaw<S>(test: Test<S>, items: seq<string>, budget: int, state: S)
    ensures SearchLaw(Minimize(test, items, budget, state), items, 0, budget, Probe(state, []))
  {
    SearchObeysLaw(test, items, 2, 0, budget, Probe(state, []));
  }

  ghost predicate Answers<S(!new)>(test: Test<S>, f: seq<string> -> bool) {
    forall s, c :: test(s, c).1 == Verdict(f(c))
  }

  ghost predicate Agrees(calls: seq<Call>, f: seq<string> -> bool) {
    forall k :: 0 <= k < |calls| ==> calls[k].outcome == Verdict(f(calls[k].candidate))
  }

  lemma CallsAgree<S(!new)>(test: Test<S>, f: seq<string> -> bool, items: seq<string>, budget: int, state: S)
    requires Answers(test, f)
    ensures Agrees(Minimize(test, items, budget, state).probe.calls, f)
  {
    MinimizeKeeps(test, (s: S, calls: seq<Call>) => Agrees(calls, f), items, budget, state);
  }

  /**
   * A deterministic test that accepts the whole list: an error-free search of distinct items ends in a
   * list that passes, and that no longer passes without any one of its items (if it has at least two).
   */
  lemma MinimizeIsOneMinimal<S(!new)>(test: Test<S>, f: seq<string> -> bool, items: seq<string>, budget: int, state: S)
    requires Answers(test, f) && f(items) && Distinct(items) && items != []
    requires Minimize(test, items, budget, state).stop == None
    ensures var c := Minimize(test, items, budget, state).current;
            && c != [] && Subsequence(c, items) && f(c)
            && (|c| >= 2 ==> forall i :: 0 <= i < |c| ==> !f(c[..i] + c[i+1..]))
  {
    var m := Minimize(test, items, budget, state);
    var c := m.current;
    MinimizeLaw(test, items, budget, state);
    CallsAgree(test, f, items, budget, state);
    SubsequenceIsDistinct(c, items);
    if |c| >= 2 {
      forall i | 0 <= i < |c| ensures !f(c[..i] + c[i+1..]) {
        SubtractOne(c, i);
        assert Tested(m.probe.calls, m.since, Subtract(c, multiset{c[i]}), false);
      }
    }
  }

  ghost predicate ProperCalls(calls: seq<Call>, items: seq<string>) {
    forall k :: 0 <= k < |calls| ==> 0 < |calls[k].candidate| < |items| && Subsequence(calls[k].candidate, items)
  }

  /** For every test: neither the whole list nor the empty one is ever tested. */
  lemma OnlyProperListsAreTested<S(!new)>(test: Test<S>, items: seq<string>, budget: int, state: S)
    ensures ProperCalls(Minimize(test, items, budget, state).probe.calls, items)
  {
    MinimizeKeeps(test, (s: S, calls: seq<Call>) => ProperCalls(calls, items), items, budget, state);
  }

  /** A single item is never tested at all. */
  lemma SingleItemIsUntested<S>(test: Test<S>, item: string, budget: int, state: S)
    ensures Minimize(test, [item], budget, state) == Minimized([item], 0, Probe(state, []), None)
  {}

  // ----- how many calls a search can make -----

  /** Twice the list plus the room left to split finer: it falls in every round. */
  ghost function Rank(size: nat, n: nat, limit: nat): int { 2 * size + limit - n }

  lemma {:induction false} SearchCallBound<S>(test: Test<S>, current: seq<string>, n: nat, since: nat, budget: int, p: Probe<S>, limit: nat)
    requires 2 <= n <= limit && |current| <= limit
    ensures |Search(test, current, n, since, budget, p).probe.calls| <= |p.calls| + 2 * limit * Rank(|current|, n, limit)
    decreases |current|, |current| - n
  {
    var rank := Rank(|current|, n, limit);
    FewerRounds(limit, 0, rank + 1);
    if |current| >= 2 && |p.calls| < budget {
      RoundLaw(test, current, n, budget, p);
      FewerRounds(limit, 0, rank);
      match Round(test, current, n, budget, p)
      case Halted(_, _) =>
      case Accepted(smaller, q) =>
        SearchCallBound(test, smaller, Max(2, n - 1), |q.calls|, budget, q, limit);
        FewerRounds(limit, Rank(|smaller|, Max(2, n - 1), limit), rank);
      case Rejected(q) =>
        if n < |current| {
          SearchCallBound(test, current, Min(|current|, n * 2), since, budget, q, limit);
          FewerRounds(limit, Rank(|current|, Min(|current|, n * 2), limit), rank);
        }
    }
  }

  lemma FewerRounds(limit: nat, fewer: int, rounds: int)
    requires 0 <= fewer < rounds
    ensures 2 * limit * fewer + 2 * limit <= 2 * limit * rounds
  {
    StrictlyFewer(2 * limit, fewer, rounds);
  }

  lemma {:induction false} StrictlyFewer(a: nat, fewer: int, rounds: int)
    requires 0 <= fewer < rounds
    ensures a * fewer + a <= a * rounds
    decreases rounds
  {
    assert a * rounds == a * (rounds - 1) + a;
    if fewer < rounds - 1 { StrictlyFewer(a, fewer, rounds - 1); }
  }

  lemma CallBoundArithmetic(l: nat)
    ensures 2 * l * Rank(l, 2, l) == 6 * l * l - 4 * l
  {}

  /** With no help from the budget, at most 6 |items|^2 tests; with that budget it is never the budget that stops it. */
  lemma MinimizeCallBound<S>(test: Test<S>, items: seq<string>, budget: int, state: S)
    ensures |Minimize(test, items, budget, state).probe.calls| <= 6 * |items| * |items|
    ensures budget > 6 * |items| * |items| ==> Minimize(test, items, budget, state).stop != Some(BudgetExhausted)
  {
    MinimizeLaw(test, items, budget, state);
    if |items| >= 2 {
      SearchCallBound(test, items, 2, 0, budget, Probe(state, []), |items|);
      CallBoundArithmetic(|items|);
    }
  }

  // ----- a single cause -----

  function TwoTo(k: nat): nat { if k == 0 then 1 else 2 * TwoTo(k - 1) }

  lemma Halves(current: seq<string>) returns (a: seq<string>, b: seq<string>)
    requires |current| >= 2
    ensures SplitOf(current, 2) == [a, b] && current == a + b && a != [] && b != []
    ensures |a| <= (|current| + 1) / 2 && |b| <= (|current| + 1) / 2
  {
    hide SplitOf;
    SplitIsPartition(current, 2);
    var chunks := SplitOf(current, 2);
    assert Parts(current, 2) == 2 && |chunks| == 2;
    a, b := chunks[0], chunks[1];
    assert a in chunks && b in chunks;
    assert chunks[1..] == [b] && [b][1..] == [];
    assert Flatten(chunks) == a + (b + Flatten([]));
    HalvesAreSmall(current, a, b);
  }

  /** Of two lists the first that holds the deciding item is accepted. */
  lemma TryTwo<S(!new)>(test: Test<S>, x: string, a: seq<string>, b: seq<string>, budget: int, p: Probe<S>)
    requires Answers(test, (c: seq<string>) => x in c) && a != [] && b != [] && (x in a || x in b) && |p.calls| + 2 <= budget
    ensures var s := TryEach(test, [a, b], budget, p); s.Accepted? && x in s.candidate && s.candidate in [a, b] && |s.probe.calls| <= |p.calls| + 2
  {
    assert [a, b][1..] == [b] && [b][0] == b;
    var q := Ask(test, p, a);
    assert q.calls[|p.calls|].outcome == Verdict(x in a);
    if x !in a {
      assert TryEach(test, [a, b], budget, p) == TryEach(test, [b], budget, q);
      var r := Ask(test, q, b);
      assert r.calls[|q.calls|].outcome == Verdict(x in b);
    }
  }

  /** Halving: one of the two chunks holds the cause, and it passes. */
  lemma HalvingRound<S(!new)>(test: Test<S>, x: string, current: seq<string>, budget: int, p: Probe<S>)
    requires Answers(test, (c: seq<string>) => x in c) && |current| >= 2 && x in current && |p.calls| + 2 <= budget
    ensures var s := Round(test, current, 2, budget, p);
            s.Accepted? && x in s.candidate && |s.candidate| <= (|current| + 1) / 2 && |s.probe.calls| <= |p.calls| + 2
  {
    hide SplitOf, Subtract, TryEach, Answers;
    var a, b := Halves(current);
    TryTwo(test, x, a, b, budget, p);
  }

  lemma HalvesAreSmall(current: seq<string>, a: seq<string>, b: seq<string>)
    requires current == a + (b + []) && |current| / 2 <= |a| <= |current| / 2 + 1 && |current| / 2 <= |b| <= |current| / 2 + 1
    ensures |a| <= (|current| + 1) / 2 && |b| <= (|current| + 1) / 2
  {}

  /** If one item decides, the search halves its way to it: two tests for each halving. */
  lemma {:induction false} SingleCauseIsHalved<S(!new)>(test: Test<S>, x: string, current: seq<string>, since: nat, budget: int, p: Probe<S>, k: nat)
    requires Answers(test, (c: seq<string>) => x in c) && x in current && |current| <= TwoTo(k) && |p.calls| + 2 * k <= budget
    ensures var m := Search(test, current, 2, since, budget, p);
            m.current == [x] && m.stop.None? && |m.probe.calls| <= |p.calls| + 2 * k
    decreases k
  {
    hide Round;
    if |current| >= 2 {
      HalvingRound(test, x, current, budget, p);
      var s := Round(test, current, 2, budget, p);
      SingleCauseIsHalved(test, x, s.candidate, |s.probe.calls|, budget, s.probe, k - 1);
    }
  }

  /** With a single cause among at most 2^k items, 2k tests find it. */
  lemma SingleCauseIsFoundFast<S(!new)>(test: Test<S>, x: string, items: seq<string>, budget: int, state: S, k: nat)
    requires Answers(test, (c: seq<string>) => x in c) && x in items && |items| <= TwoTo(k) && 2 * k <= budget
    ensures var m := Minimize(test, items, budget, state); m.current == [x] && m.stop.None? && |m.probe.calls| <= 2 * k
  {
    SingleCauseIsHalved(test, x, items, 0, budget, Probe(state, []), k);
  }

  // ----- the program -----

  method Split(items: seq<string>, n: nat) returns (result: seq<seq<string>>)
    requires items != [] && n > 0
    ensures result == SplitOf(items, n)
  {
    var parts := n;
    if parts > |items| {
      parts := |items|;
    }
    SplitArithmetic(|items|, parts);
    result := Cut(items, parts, |items| / parts, |items| % parts);
  }

  lemma CutStep(items: seq<string>, start: nat, left: nat, base: nat, extra: nat, done: seq<seq<string>>)
    requires start <= |items| && left > 0 && |items| - start == Total(left, base, extra)
    ensures var end := start + Size(base, extra);
            && end <= |items| && |items| - end == Total(left - 1, base, Less(extra))
            && (done + [items[start..end]]) + Chunks(items[end..], left - 1, base, Less(extra))
            == done + Chunks(items[start..], left, base, extra)
  {
    var end := start + Size(base, extra);
    assert items[start..][..Size(base, extra)] == items[start..end];
    assert items[start..][Size(base, extra)..] == items[end..];
  }

  method Cut(items: seq<string>, parts: nat, base: nat, remainder: nat) returns (result: seq<seq<string>>)
    requires |items| == Total(parts, base, remainder)
    ensures result == Chunks(items, parts, base, remainder)
  {
    result := [];
    var start := 0;
    var index := 0;
    ghost var extra: nat := remainder;
    while index < parts
      invariant 0 <= index <= parts && 0 <= start <= |items|
      invariant extra == if index < remainder then remainder - index else 0
      invariant |items| - start == Total(parts - index, base, extra)
      invariant result + Chunks(items[start..], parts - index, base, extra) == Chunks(items, parts, base, remainder)
    {
      var size := base;
      if index < remainder {
        size := size + 1;
      }
      var end := start + size;
      CutStep(items, start, parts - index, base, extra, result);
      result := result + [items[start..end]];
      start := end;
      index := index + 1;
      extra := Less(extra);
    }
  }

  method SubtractItems(all: seq<string>, subset: seq<string>) returns (result: seq<string>)
    ensures result == Subtract(all, multiset(subset))
  {
    var counts: multiset<string> := multiset{};
    for i := 0 to |subset|
      invariant counts == multiset(subset[..i])
    {
      counts := counts[subset[i] := counts[subset[i]] + 1];
      assert subset[..i+1] == subset[..i] + [subset[i]];
    }
    assert subset[..|subset|] == subset;
    result := [];
    for i := 0 to |all|
      invariant result + Subtract(all[i..], counts) == Subtract(all, multiset(subset))
    {
      if counts[all[i]] > 0 {
        counts := counts - multiset{all[i]};
      } else {
        result := result + [all[i]];
      }
    }
  }

  /** How a sweep ended, as the program's variables record it. */
  ghost function SweepOf<S>(reduced: bool, candidate: seq<string>, stop: Option<Stop>, p: Probe<S>): Sweep<S> {
    if stop.Some? then Halted(stop.value, p) else if reduced then Accepted(candidate, p) else Rejected(p)
  }

  /** The first inner loop of `DDMin`. */
  method TryChunks<S>(chunks: seq<seq<string>>, budget: int, made: nat, init: S, test: Test<S>, ghost log: seq<Call>)
    returns (reduced: bool, chunk: seq<string>, experiments: nat, stop: Option<Stop>, state: S, ghost calls: seq<Call>)
    requires made == |log| && forall c :: c in chunks ==> c != []
    ensures experiments == |calls|
    ensures SweepOf(reduced, chunk, stop, Probe(state, calls)) == TryEach(test, chunks, budget, Probe(init, log))
  {
    reduced, chunk, experiments, stop, state, calls := false, [], made, None, init, log;
    for i := 0 to |chunks|
      invariant experiments == |calls|
      invariant TryEach(test, chunks[i..], budget, Probe(state, calls)) == TryEach(test, chunks, budget, Probe(init, log))
    {
      chunk := chunks[i];
      assert chunk in chunks;
      if experiments >= budget {
        stop := Some(BudgetExhausted);
        return;
      }
      experiments := experiments + 1;
      var (next, outcome) := test(state, chunk);
      state, calls := next, calls + [Call(chunk, outcome)];
      if outcome.Errored? {
        stop := Some(TestFailed(outcome.message));
        return;
      }
      if outcome.passes {
        reduced := true;
        return;
      }
    }
  }

  /** The second inner loop of `DDMin`. */
  method TryComplements<S>(current: seq<string>, chunks: seq<seq<string>>, budget: int, made: nat, init: S, test: Test<S>, ghost log: seq<Call>)
    returns (reduced: bool, complement: seq<string>, experiments: nat, stop: Option<Stop>, state: S, ghost calls: seq<Call>)
    requires made == |log|
    ensures experiments == |calls|
    ensures SweepOf(reduced, complement, stop, Probe(state, calls))
         == TryEach(test, Complements(current, chunks), budget, Probe(init, log))
  {
    reduced, complement, experiments, stop, state, calls := false, [], made, None, init, log;
    ghost var rests := Complements(current, chunks);
    for i := 0 to |chunks|
      invariant experiments == |calls|
      invariant TryEach(test, rests[i..], budget, Probe(state, calls)) == TryEach(test, rests, budget, Probe(init, log))
    {
      complement := SubtractItems(current, chunks[i]);
      assert rests[i] == complement;
      if |complement| == 0 {
        continue;
      }
      if experiments >= budget {
        stop := Some(BudgetExhausted);
        return;
      }
      experiments := experiments + 1;
      var (next, outcome) := test(state, complement);
      state, calls := next, calls + [Call(complement, outcome)];
      if outcome.Errored? {
        stop := Some(TestFailed(outcome.message));
        return;
      }
      if outcome.passes {
        reduced := true;
        return;
      }
    }
  }

  method DDMin<S>(items: seq<string>, budget: int, init: S, test: Test<S>)
    returns (current: seq<string>, experiments: nat, stop: Option<Stop>, state: S)
    ensures var m := Minimize(test, items, budget, init);
            && current == m.current && experiments == |m.probe.calls| && stop == m.stop && state == m.probe.state
  {
    current, experiments, stop, state := items, 0, None, init;
    if |current| == 0 {
      return;
    }
    ghost var calls: seq<Call> := [];
    ghost var since: nat := 0;
    var n := 2;
    while |current| >= 2
      invariant n >= 2 && experiments == |calls| && stop == None
      invariant Search(test, current, n, since, budget, Probe(state, calls)) == Minimize(test, items, budget, init)
      decreases |current|, |current| - n
    {
      if experiments >= budget {
        stop := Some(BudgetExhausted);
        return;
      }
      ghost var round := Round(test, current, n, budget, Probe(state, calls));
      var chunks := Split(current, n);
      SplitIsPartition(current, n);
      var reduced, smaller;
      reduced, smaller, experiments, stop, state, calls := TryChunks(chunks, budget, experiments, state, test, calls);
      if stop.None? && !reduced {
        reduced, smaller, experiments, stop, state, calls := TryComplements(current, chunks, budget, experiments, state, test, calls);
      }
      assert round == SweepOf(reduced, smaller, stop, Probe(state, calls));
      if stop.Some? {
        return;
      }
      if reduced {
        current, n, since := smaller, Max(2, n - 1), |calls|;
        continue;
      }
      if n >= |current| {
        break;
      }
      n := Min(|current|, n * 2);
    }
  }
}
