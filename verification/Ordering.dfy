/** Strings compared as Go's `sort.Strings` does, and the library sort as a function. */
module Ordering {

  datatype Option<+T> = None | Some(value: T)

  predicate StringLess(a: string, b: string)
    decreases |a|
  {
    if b == "" then false
    else if a == "" then true
    else a[0] < b[0] || (a[0] == b[0] && StringLess(a[1..], b[1..]))
  }

  /** The order of strings: at the first position where they differ, the one that ends or has the smaller character comes first. */
  lemma {:induction false} StringLessMeans(a: string, b: string)
    ensures StringLess(a, b) <==> exists k :: 0 <= k <= |a| && k < |b| && a[..k] == b[..k] && (k == |a| || a[k] < b[k])
    decreases |a|
  {
    if b == "" {
    } else if a == "" {
      assert a[..0] == b[..0];
    } else {
      var x, y := a[1..], b[1..];
      StringLessMeans(x, y);
      if a[0] == b[0] && StringLess(x, y) {
        var k :| 0 <= k <= |x| && k < |y| && x[..k] == y[..k] && (k == |x| || x[k] < y[k]);
        assert a[..k+1] == [a[0]] + x[..k] && b[..k+1] == [b[0]] + y[..k];
      }
      if a[0] < b[0] { assert a[..0] == b[..0]; }
      forall k | 0 <= k <= |a| && k < |b| && a[..k] == b[..k] && (k == |a| || a[k] < b[k]) ensures StringLess(a, b) {
        if k > 0 {
          assert a[..k][0] == b[..k][0];
          assert x[..k-1] == a[..k][1..] && y[..k-1] == b[..k][1..];
        }
      }
    }
  }

  lemma {:induction false} StringLessTotal(a: string, b: string)
    ensures a == b || StringLess(a, b) || StringLess(b, a)
    decreases |a|
  {
    if a != "" && b != "" && a[0] == b[0] {
      StringLessTotal(a[1..], b[1..]);
      assert a == [a[0]] + a[1..] && b == [b[0]] + b[1..];
    }
  }

  lemma {:induction false} StringLessTransitive(a: string, b: string, c: string)
    requires StringLess(a, b) && StringLess(b, c)
    ensures StringLess(a, c)
    decreases |a|
  {
    if a != "" && a[0] == b[0] == c[0] {
      StringLessTransitive(a[1..], b[1..], c[1..]);
    }
  }

  lemma {:induction false} StringLessIrreflexive(a: string)
    ensures !StringLess(a, a)
    decreases |a|
  {
    if a != "" {
      StringLessIrreflexive(a[1..]);
    }
  }

  /** A strict weak order: what `sort.Slice` demands of its comparison. */
  ghost predicate WeakOrder<T(!new)>(less: (T, T) -> bool) {
    && (forall a, b :: less(a, b) ==> !less(b, a))
    && (forall a, b, c :: less(a, c) ==> less(a, b) || less(b, c))
  }

  lemma NotLessTransitive<T(!new)>(a: T, b: T, c: T, less: (T, T) -> bool)
    requires WeakOrder(less) && !less(a, b) && !less(b, c)
    ensures !less(a, c)
  {}

  lemma StringOrderIsWeak()
    ensures WeakOrder(StringLess)
  {
    forall a, b | StringLess(a, b) ensures !StringLess(b, a) {
      if StringLess(b, a) { StringLessTransitive(a, b, a); StringLessIrreflexive(a); }
    }
    forall a, b, c | StringLess(a, c) ensures StringLess(a, b) || StringLess(b, c) {
      StringLessTotal(a, b);
      if StringLess(b, a) { StringLessTransitive(b, a, c); }
    }
  }

  ghost predicate Ordered<T>(s: seq<T>, less: (T, T) -> bool) {
    forall i, j :: 0 <= i < j < |s| ==> !less(s[j], s[i])
  }

  ghost predicate StrictlyOrdered<T>(s: seq<T>, less: (T, T) -> bool) {
    forall i, j :: 0 <= i < j < |s| ==> less(s[i], s[j])
  }

  ghost predicate Distinct<T>(s: seq<T>) {
    forall i, j :: 0 <= i < j < |s| ==> s[i] != s[j]
  }

  function Insert<T>(x: T, s: seq<T>, less: (T, T) -> bool): seq<T> {
    if s != [] && less(s[0], x) then [s[0]] + Insert(x, s[1..], less) else [x] + s
  }

  /** The library's `sort.Slice`, as a function of the slice and the comparison. */
  function SortBy<T>(s: seq<T>, less: (T, T) -> bool): seq<T> {
    if s == [] then [] else Insert(s[0], SortBy(s[1..], less), less)
  }

  lemma {:induction false} InsertAdds<T>(x: T, s: seq<T>, less: (T, T) -> bool)
    ensures multiset(Insert(x, s, less)) == multiset(s) + multiset{x}
    ensures forall y :: y in Insert(x, s, less) ==> y == x || y in s
    decreases |s|
  {
    if s != [] && less(s[0], x) {
      InsertAdds(x, s[1..], less);
      assert s == [s[0]] + s[1..];
    }
  }

  lemma OrderedCons<T>(first: T, rest: seq<T>, less: (T, T) -> bool)
    requires Ordered(rest, less) && forall y :: y in rest ==> !less(y, first)
    ensures Ordered([first] + rest, less)
  {}

  lemma HeadIsFirst<T>(s: seq<T>, less: (T, T) -> bool)
    requires s != [] && Ordered(s, less)
    ensures forall y :: y in s[1..] ==> !less(y, s[0])
  {}

  lemma {:induction false} InsertIsOrdered<T(!new)>(x: T, s: seq<T>, less: (T, T) -> bool)
    requires WeakOrder(less) && Ordered(s, less)
    ensures Ordered(Insert(x, s, less), less)
    ensures multiset(Insert(x, s, less)) == multiset(s) + multiset{x}
    decreases |s|
  {
    InsertAdds(x, s, less);
    if s != [] && less(s[0], x) {
      InsertIsOrdered(x, s[1..], less);
      InsertAdds(x, s[1..], less);
      HeadIsFirst(s, less);
      OrderedCons(s[0], Insert(x, s[1..], less), less);
    } else if s != [] {
      HeadIsFirst(s, less);
      forall y | y in s ensures !less(y, x) {
        if y != s[0] {
          assert y in s[1..];
          NotLessTransitive(y, s[0], x, less);
        }
      }
      OrderedCons(x, s, less);
    }
  }

  lemma {:induction false} SortIsOrdered<T(!new)>(s: seq<T>, less: (T, T) -> bool)
    requires WeakOrder(less)
    ensures Ordered(SortBy(s, less), less)
    ensures multiset(SortBy(s, less)) == multiset(s)
    ensures |SortBy(s, less)| == |s|
    decreases |s|
  {
    if s != [] {
      SortIsOrdered(s[1..], less);
      InsertIsOrdered(s[0], SortBy(s[1..], less), less);
      assert s == [s[0]] + s[1..];
      assert |multiset(SortBy(s, less))| == |multiset(s)|;
    }
  }

  /** Sorting what is already in strict order changes nothing. */
  lemma {:induction false} SortOfOrdered<T>(s: seq<T>, less: (T, T) -> bool)
    requires StrictlyOrdered(s, less)
    requires forall a, b | a in s && b in s :: less(a, b) ==> !less(b, a)
    ensures SortBy(s, less) == s
    decreases |s|
  {
    if s != [] {
      SortOfOrdered(s[1..], less);
      if |s| > 1 { assert s[1..][0] == s[1] && less(s[0], s[1]); }
      assert s == [s[0]] + s[1..];
    }
  }

  /** The least element of a sequence, by position, leads every ordered arrangement of it. */
  lemma OrderedHeadsAgree<T>(s: seq<T>, t: seq<T>, less: (T, T) -> bool)
    requires Ordered(s, less) && Ordered(t, less) && multiset(s) == multiset(t) && s != []
    requires forall a, b | a in s && b in s && a != b :: less(a, b) || less(b, a)
    ensures t != [] && s[0] == t[0]
  {
    assert s[0] in multiset(t);
    var i :| 0 <= i < |t| && t[i] == s[0];
    assert t[0] in multiset(s);
    var j :| 0 <= j < |s| && s[j] == t[0];
    assert s[0] in s && t[0] in s;
  }

  lemma TailsAgree<T>(s: seq<T>, t: seq<T>)
    requires s != [] && t != [] && s[0] == t[0] && multiset(s) == multiset(t)
    ensures multiset(s[1..]) == multiset(t[1..])
  {
    assert s == [s[0]] + s[1..] && t == [t[0]] + t[1..];
    assert multiset(s[1..]) == multiset(s) - multiset{s[0]};
    assert multiset(t[1..]) == multiset(t) - multiset{t[0]};
  }

  lemma TailIsOrdered<T>(s: seq<T>, less: (T, T) -> bool)
    requires s != [] && Ordered(s, less)
    ensures Ordered(s[1..], less)
  {}

  /** Two ordered arrangements of the same elements are the same list. */
  lemma {:induction false} OrderedIsUnique<T>(s: seq<T>, t: seq<T>, less: (T, T) -> bool)
    requires Ordered(s, less) && Ordered(t, less) && multiset(s) == multiset(t)
    requires forall a, b | a in s && b in s && a != b :: less(a, b) || less(b, a)
    ensures s == t
    decreases |s|
  {
    if s == [] {
      assert |multiset(t)| == 0;
    } else {
      OrderedHeadsAgree(s, t, less);
      TailsAgree(s, t);
      TailIsOrdered(s, less);
      TailIsOrdered(t, less);
      assert forall x :: x in s[1..] ==> x in s;
      OrderedIsUnique(s[1..], t[1..], less);
      assert s == [s[0]] + s[1..] && t == [t[0]] + t[1..];
    }
  }

  // ----- permutations -----

  lemma SameElements<T>(s: seq<T>, t: seq<T>)
    requires multiset(s) == multiset(t)
    ensures forall x :: x in s <==> x in t
  {
    forall x ensures x in s <==> x in t {
      assert x in s <==> x in multiset(s);
      assert x in t <==> x in multiset(t);
    }
  }

  lemma TwiceInSequence<T>(t: seq<T>, i: nat, j: nat)
    requires i < j < |t| && t[i] == t[j]
    ensures multiset(t)[t[i]] >= 2
  {
    assert t == t[..j] + [t[j]] + t[j+1..];
    assert t[i] in t[..j];
    assert t[i] in multiset(t[..j]);
  }

  lemma OnceInSequence<T>(s: seq<T>, k: nat)
    requires k < |s| && Distinct(s)
    ensures multiset(s)[s[k]] == 1
  {
    assert s == s[..k] + [s[k]] + s[k+1..];
    assert s[k] !in s[..k] && s[k] !in s[k+1..];
    assert s[k] !in multiset(s[..k]) && s[k] !in multiset(s[k+1..]);
  }

  lemma DistinctConcat<T>(s: seq<T>, t: seq<T>)
    requires Distinct(s) && Distinct(t) && forall x :: x in s ==> x !in t
    ensures Distinct(s + t)
  {
    forall i, j | 0 <= i < |s| && 0 <= j < |t| ensures s[i] != t[j] {
      assert s[i] in s;
    }
  }

  lemma DistinctPermutes<T>(s: seq<T>, t: seq<T>)
    requires Distinct(s) && multiset(s) == multiset(t)
    ensures Distinct(t)
    ensures forall x :: x in s <==> x in t
  {
    SameElements(s, t);
    forall i, j | 0 <= i < j < |t| ensures t[i] != t[j] {
      if t[i] == t[j] {
        assert t[i] in s;
        var k :| 0 <= k < |s| && s[k] == t[i];
        TwiceInSequence(t, i, j);
        OnceInSequence(s, k);
        assert false;
      }
    }
  }

  // ----- sizes of sets -----

  lemma {:induction false} SubsetSize<T>(a: set<T>, b: set<T>)
    requires a <= b
    ensures |a| <= |b|
    decreases a
  {
    if a != {} {
      var x :| x in a;
      SubsetSize(a - {x}, b - {x});
    }
  }

  // ----- sets of strings, listed in order -----

  predicate IsLeast(k: string, s: set<string>) {
    k in s && forall j | j in s :: j == k || StringLess(k, j)
  }

  lemma {:induction false} LeastExists(s: set<string>)
    requires s != {}
    ensures exists k :: IsLeast(k, s)
    decreases s
  {
    var a :| a in s;
    if s == {a} {
      assert IsLeast(a, s);
    } else {
      LeastExists(s - {a});
      var b :| IsLeast(b, s - {a});
      StringLessTotal(a, b);
      if StringLess(a, b) {
        forall j | j in s ensures j == a || StringLess(a, j) {
          if j != a && j != b { StringLessTransitive(a, b, j); }
        }
        assert IsLeast(a, s);
      } else {
        assert IsLeast(b, s);
      }
    }
  }

  lemma LeastIsUnique(s: set<string>)
    ensures forall a, b :: IsLeast(a, s) && IsLeast(b, s) ==> a == b
  {
    forall a, b | IsLeast(a, s) && IsLeast(b, s) ensures a == b {
      if a != b { StringLessTransitive(a, b, a); StringLessIrreflexive(a); }
    }
  }

  /** `listing` is the set in increasing order. */
  ghost predicate Lists(listing: seq<string>, s: set<string>) {
    StrictlyOrdered(listing, StringLess) && forall k :: k in listing <==> k in s
  }

  /** The elements of a set in increasing order. */
  function SortedSet(s: set<string>): (listing: seq<string>)
    ensures Lists(listing, s)
    decreases s
  {
    if s == {} then []
    else
      LeastExists(s);
      LeastIsUnique(s);
      var k :| k in s && IsLeast(k, s);
      [k] + SortedSet(s - {k})
  }

  lemma StrictlyOrderedIsDistinct(names: seq<string>)
    requires StrictlyOrdered(names, StringLess)
    ensures Distinct(names)
  {
    forall i, j | 0 <= i < j < |names| ensures names[i] != names[j] {
      StringLessIrreflexive(names[i]);
    }
  }

  /** A strictly increasing list is determined by its elements. */
  lemma SortedSetIsUnique(listing: seq<string>, s: set<string>)
    requires Lists(listing, s)
    ensures listing == SortedSet(s)
  {
    var other := SortedSet(s);
    StringOrderIsWeak();
    StrictlyOrderedIsDistinct(listing);
    StrictlyOrderedIsDistinct(other);
    SameMultiset(listing, other);
    forall a, b | a in listing && b in listing && a != b ensures StringLess(a, b) || StringLess(b, a) {
      StringLessTotal(a, b);
    }
    OrderedIsUnique(listing, other, StringLess);
  }

  lemma SameMultiset<T>(s: seq<T>, t: seq<T>)
    requires Distinct(s) && Distinct(t) && forall x :: x in s <==> x in t
    ensures multiset(s) == multiset(t)
  {
    forall x ensures multiset(s)[x] == multiset(t)[x] {
      assert x in s <==> x in multiset(s);
      assert x in t <==> x in multiset(t);
      if x in s {
        var i :| 0 <= i < |s| && s[i] == x;
        var j :| 0 <= j < |t| && t[j] == x;
        OnceInSequence(s, i);
        OnceInSequence(t, j);
      }
    }
  }

  /** The keys of a map, gathered and sorted. */
  method SortedKeys(values: set<string>) returns (result: seq<string>)
    ensures Lists(result, values)
  {
    result := [];
    var rest := values;
    while rest != {}
      invariant rest <= values && Distinct(result)
      invariant forall k :: k in result <==> k in values - rest
      decreases rest
    {
      var key :| key in rest;
      assert key !in result;
      result := result + [key];
      rest := rest - {key};
    }
    StringOrderIsWeak();
    SortIsOrdered(result, StringLess);
    DistinctPermutes(result, SortBy(result, StringLess));
    result := SortBy(result, StringLess);
    forall i, j | 0 <= i < j < |result| ensures StringLess(result[i], result[j]) {
      StringLessTotal(result[i], result[j]);
    }
  }
}
