/**
 * Delta debugging with a test that has variables but always gives the same answer to the same list
 * (internal/experiment/ddmin.go): the search is the one of the answers alone.
 */
module DecidedSearch {
  import opened Ordering
  import opened Sequences
  import opened DeltaDebugging

  type Answer = seq<string> -> Outcome

  /** The test without variables that gives these answers. */
  function Pure(f: Answer): Test<()> { (s: (), c: seq<string>) => ((), f(c)) }

  /** As long as `inv` holds of its variables, the test answers `f` to every non-empty proper sub-list and keeps `inv`. */
  ghost predicate Decided<S(!new)>(test: Test<S>, inv: S -> bool, f: Answer, items: seq<string>) {
    forall s, c :: inv(s) && 0 < |c| < |items| && Subsequence(c, items) ==> inv(test(s, c).0) && test(s, c).1 == f(c)
  }

  ghost function Bare<S>(p: Probe<S>): Probe<()> { Probe((), p.calls) }

  ghost function BareSweep<S>(s: Sweep<S>): Sweep<()> {
    match s
    case Accepted(candidate, p) => Accepted(candidate, Bare(p))
    case Rejected(p) => Rejected(Bare(p))
    case Halted(stop, p) => Halted(stop, Bare(p))
  }

  ghost function BareResult<S>(m: Minimized<S>): Minimized<()> { Minimized(m.current, m.since, Bare(m.probe), m.stop) }

  lemma {:induction false} SweepIsPure<S(!new)>(test: Test<S>, inv: S -> bool, f: Answer, items: seq<string>,
                                                candidates: seq<seq<string>>, budget: int, p: Probe<S>)
    requires Decided(test, inv, f, items) && inv(p.state)
    requires forall c :: c in candidates ==> |c| < |items| && Subsequence(c, items)
    ensures BareSweep(TryEach(test, candidates, budget, p)) == TryEach(Pure(f), candidates, budget, Bare(p))
    ensures inv(TryEach(test, candidates, budget, p).probe.state)
    decreases |candidates|
  {
    if candidates != [] {
      var c := candidates[0];
      assert c in candidates;
      if c == [] {
        SweepIsPure(test, inv, f, items, candidates[1..], budget, p);
      } else if |p.calls| < budget {
        var q := Ask(test, p, c);
        assert Bare(q) == Ask(Pure(f), Bare(p), c);
        if q.calls[|p.calls|].outcome == Verdict(false) { SweepIsPure(test, inv, f, items, candidates[1..], budget, q); }
      }
    }
  }

  lemma RoundIsPure<S(!new)>(test: Test<S>, inv: S -> bool, f: Answer, items: seq<string>,
                             current: seq<string>, n: nat, budget: int, p: Probe<S>)
    requires |current| >= 2 && n >= 2 && Decided(test, inv, f, items) && inv(p.state) && Subsequence(current, items)
    ensures BareSweep(Round(test, current, n, budget, p)) == Round(Pure(f), current, n, budget, Bare(p))
    ensures inv(Round(test, current, n, budget, p).probe.state)
    ensures Round(test, current, n, budget, p).Accepted? ==> Subsequence(Round(test, current, n, budget, p).candidate, items)
  {
    var chunks := SplitOf(current, n);
    var rests := Complements(current, chunks);
    SubsequenceElements(current, items);
    forall c | c in chunks || c in rests ensures |c| < |items| && Subsequence(c, items) {
      PieceIsShorter(current, n, c);
      SubsequenceIsTransitive(c, current, items);
    }
    SweepIsPure(test, inv, f, items, chunks, budget, p);
    var first := TryEach(test, chunks, budget, p);
    if first.Rejected? { SweepIsPure(test, inv, f, items, rests, budget, first.probe); }
  }

  lemma {:induction false} SearchIsPure<S(!new)>(test: Test<S>, inv: S -> bool, f: Answer, items: seq<string>,
                                                 current: seq<string>, n: nat, since: nat, budget: int, p: Probe<S>)
    requires n >= 2 && Decided(test, inv, f, items) && inv(p.state) && Subsequence(current, items)
    ensures BareResult(Search(test, current, n, since, budget, p)) == Search(Pure(f), current, n, since, budget, Bare(p))
    decreases |current|, |current| - n
  {
    hide Round, Decided;
    if |current| >= 2 && |p.calls| < budget {
      RoundIsPure(test, inv, f, items, current, n, budget, p);
      match Round(test, current, n, budget, p)
      case Halted(_, _) =>
      case Accepted(smaller, q) => SearchIsPure(test, inv, f, items, smaller, Max(2, n - 1), |q.calls|, budget, q);
      case Rejected(q) =>
        if n < |current| { SearchIsPure(test, inv, f, items, current, Min(|current|, n * 2), since, budget, q); }
    }
  }

  /** The variables of a decided test change nothing about the search. */
  lemma MinimizeIsPure<S(!new)>(test: Test<S>, inv: S -> bool, f: Answer, items: seq<string>, budget: int, state: S)
    requires Decided(test, inv, f, items) && inv(state)
    ensures BareResult(Minimize(test, items, budget, state)) == Minimize(Pure(f), items, budget, ())
  {
    SubsequenceIsReflexive(items);
    SearchIsPure(test, inv, f, items, items, 2, 0, budget, Probe(state, []));
  }

  ghost predicate Agreeing(calls: seq<Call>, f: Answer) {
    forall k :: 0 <= k < |calls| ==> calls[k].outcome == f(calls[k].candidate)
  }

  lemma PureCallsAgree(f: Answer, items: seq<string>, budget: int)
    ensures Agreeing(Minimize(Pure(f), items, budget, ()).probe.calls, f)
  {
    hide Search;
    MinimizeKeeps(Pure(f), (s: (), calls: seq<Call>) => Agreeing(calls, f), items, budget, ());
  }

  /** No smaller list than `c` passes, or even errs, but perhaps the empty one. */
  ghost predicate SmallerFail(f: Answer, c: seq<string>) {
    forall i :: 0 <= i < |c| && |c| > 1 ==> f(c[..i] + c[i+1..]) == Verdict(false)
  }

  lemma FailsWithout(f: Answer, m: Minimized<()>, i: nat)
    requires Agreeing(m.probe.calls, f) && Distinct(m.current) && i < |m.current|
    requires Tested(m.probe.calls, m.since, Subtract(m.current, multiset{m.current[i]}), false)
    ensures f(m.current[..i] + m.current[i+1..]) == Verdict(false)
  {
    SubtractOne(m.current, i);
  }

  /** The list found on the answers alone: all of the items or one that passes, and if nothing stopped the search, no smaller one does. */
  lemma PureSearchFinds(f: Answer, items: seq<string>, budget: int)
    requires Distinct(items) && items != []
    ensures var m := Minimize(Pure(f), items, budget, ());
            && m.current != [] && Subsequence(m.current, items)
            && (m.current == items || f(m.current) == Verdict(true))
            && (m.stop.None? ==> SmallerFail(f, m.current))
  {
    hide Search, Subtract, Subsequence, Tested;
    PureCallsAgree(f, items, budget);
    MinimizeLaw(Pure(f), items, budget, ());
    var m := Minimize(Pure(f), items, budget, ());
    SubsequenceIsDistinct(m.current, items);
    if m.stop.None? && |m.current| > 1 {
      forall i | 0 <= i < |m.current| ensures f(m.current[..i] + m.current[i+1..]) == Verdict(false) { FailsWithout(f, m, i); }
    }
  }
}
