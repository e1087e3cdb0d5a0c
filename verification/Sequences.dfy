/** Order-preserving sub-lists, as delta debugging produces them. */
module Sequences {

  /** `f` lists, in increasing order, the positions of `b` that make up `a`. */
  ghost predicate Embeds<T>(a: seq<T>, b: seq<T>, f: seq<nat>) {
    && |f| == |a|
    && (forall i :: 0 <= i < |f| ==> f[i] < |b| && a[i] == b[f[i]])
    && (forall i, j :: 0 <= i < j < |f| ==> f[i] < f[j])
  }

  ghost predicate Subsequence<T>(a: seq<T>, b: seq<T>) {
    exists f :: Embeds(a, b, f)
  }

  lemma SegmentIsSubsequence<T>(s: seq<T>, lo: nat, hi: nat)
    requires lo <= hi <= |s|
    ensures Subsequence(s[lo..hi], s)
  {
    assert Embeds(s[lo..hi], s, seq(hi - lo, i requires 0 <= i => lo + i));
  }

  lemma SubsequenceIsReflexive<T>(s: seq<T>)
    ensures Subsequence(s, s)
  {
    SegmentIsSubsequence(s, 0, |s|);
    assert s[0..|s|] == s;
  }

  lemma SubsequenceIsTransitive<T>(a: seq<T>, b: seq<T>, c: seq<T>)
    requires Subsequence(a, b) && Subsequence(b, c)
    ensures Subsequence(a, c)
  {
    var f :| Embeds(a, b, f);
    var g :| Embeds(b, c, g);
    assert Embeds(a, c, seq(|a|, i requires 0 <= i < |a| => g[f[i]]));
  }

  lemma SubsequenceOfTail<T>(a: seq<T>, b: seq<T>)
    requires b != [] && Subsequence(a, b[1..])
    ensures Subsequence(a, b)
    ensures Subsequence([b[0]] + a, b)
  {
    var f :| Embeds(a, b[1..], f);
    var g := seq(|a|, i requires 0 <= i < |a| => f[i] + 1);
    assert Embeds(a, b, g);
    var h := seq(|a| + 1, i requires 0 <= i < |a| + 1 => if i == 0 then 0 else f[i-1] + 1);
    assert Embeds([b[0]] + a, b, h);
  }

  lemma SubsequenceElements<T>(a: seq<T>, b: seq<T>)
    requires Subsequence(a, b)
    ensures |a| <= |b|
    ensures forall x :: x in a ==> x in b
  {
    var f :| Embeds(a, b, f);
    if |a| > 0 { IncreasingBound(f, |a| - 1); }
    forall x | x in a ensures x in b {
      var i :| 0 <= i < |a| && a[i] == x;
      assert b[f[i]] == x;
    }
  }

  lemma {:induction false} IncreasingBound(f: seq<nat>, k: nat)
    requires k < |f| && forall i, j :: 0 <= i < j < |f| ==> f[i] < f[j]
    ensures f[k] >= k
    decreases k
  {
    if k > 0 { IncreasingBound(f, k - 1); }
  }
}
