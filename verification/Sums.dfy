/** Sums of an integer measure over a sequence, and sizes of sets. */
module Sums {

  function Sum<T>(s: seq<T>, f: T -> int): int {
    if s == [] then 0 else Sum(s[..|s|-1], f) + f(s[|s|-1])
  }

  lemma SumOfAppend<T>(s: seq<T>, x: T, f: T -> int)
    ensures Sum(s + [x], f) == Sum(s, f) + f(x)
  {
    assert (s + [x])[..|s|] == s;
  }

  lemma {:induction false} SumOfConcat<T>(a: seq<T>, b: seq<T>, f: T -> int)
    ensures Sum(a + b, f) == Sum(a, f) + Sum(b, f)
  {
    if b == [] {
      assert a + b == a;
    } else {
      var n := |b| - 1;
      assert a + b == (a + b[..n]) + [b[n]];
      SumOfAppend(a + b[..n], b[n], f);
      SumOfConcat(a, b[..n], f);
    }
  }

  lemma SumAround<T>(before: seq<T>, x: T, after: seq<T>, f: T -> int)
    ensures Sum((before + [x]) + after, f) == Sum(before + after, f) + f(x)
  {
    SumOfAppend(before, x, f);
    SumOfConcat(before + [x], after, f);
    SumOfConcat(before, after, f);
  }

  lemma Split<T>(s: seq<T>, i: nat)
    requires i < |s|
    ensures s == (s[..i] + [s[i]]) + s[i+1..]
  {
  }

  lemma SumOfRemoval<T>(s: seq<T>, i: nat, f: T -> int)
    requires i < |s|
    ensures Sum(s, f) == Sum(s[..i] + s[i+1..], f) + f(s[i])
  {
    Split(s, i);
    SumAround(s[..i], s[i], s[i+1..], f);
  }

  lemma MultisetAround<T>(before: seq<T>, x: T, after: seq<T>)
    ensures multiset((before + [x]) + after) == multiset(before + after) + multiset{x}
  {
  }

  lemma MultisetWithout<T>(s: seq<T>, i: nat)
    requires i < |s|
    ensures multiset(s) == multiset(s[..i] + s[i+1..]) + multiset{s[i]}
  {
    Split(s, i);
    MultisetAround(s[..i], s[i], s[i+1..]);
  }

  lemma CancelOne<T>(a: multiset<T>, b: multiset<T>, x: T)
    requires a + multiset{x} == b + multiset{x}
    ensures a == b
  {
    assert a == (a + multiset{x}) - multiset{x};
    assert b == (b + multiset{x}) - multiset{x};
  }

  lemma RemoveFromBoth<T>(a: seq<T>, b: seq<T>) returns (j: nat)
    requires multiset(a) == multiset(b) && |a| > 0
    ensures j < |b| && b[j] == a[0]
    ensures multiset(a[..0] + a[1..]) == multiset(b[..j] + b[j+1..])
  {
    assert a[0] in multiset(a);
    assert a[0] in multiset(b);
    j :| 0 <= j < |b| && b[j] == a[0];
    MultisetWithout(a, 0);
    MultisetWithout(b, j);
    CancelOne(multiset(a[..0] + a[1..]), multiset(b[..j] + b[j+1..]), a[0]);
  }

  lemma {:induction false} SumOfPermutation<T>(a: seq<T>, b: seq<T>, f: T -> int)
    requires multiset(a) == multiset(b)
    ensures Sum(a, f) == Sum(b, f)
    decreases |a|
  {
    if a == [] {
      assert |b| == |multiset(b)| == 0;
    } else {
      var j := RemoveFromBoth(a, b);
      SumOfPermutation(a[..0] + a[1..], b[..j] + b[j+1..], f);
      SumOfRemoval(a, 0, f);
      SumOfRemoval(b, j, f);
    }
  }

  lemma {:induction false} SumNotNegative<T>(s: seq<T>, f: T -> int)
    requires forall i :: 0 <= i < |s| ==> f(s[i]) >= 0
    ensures Sum(s, f) >= 0
  {
    if s == [] {
    } else {
      SumNotNegative(s[..|s|-1], f);
    }
  }

  // A prefix of non-negative terms sums to no more than the whole, nor does a single term.
  lemma PrefixAtMost<T>(s: seq<T>, k: nat, f: T -> int)
    requires k <= |s|
    requires forall i :: 0 <= i < |s| ==> f(s[i]) >= 0
    ensures 0 <= Sum(s[..k], f) <= Sum(s, f)
    ensures k < |s| ==> f(s[k]) <= Sum(s, f)
  {
    SumNotNegative(s[..k], f);
    SumNotNegative(s[k..], f);
    assert s == s[..k] + s[k..];
    SumOfConcat(s[..k], s[k..], f);
    if k < |s| {
      SumNotNegative(s[..k] + s[k+1..], f);
      SumOfRemoval(s, k, f);
    }
  }

  lemma {:induction false} SumAgrees<S, T>(a: seq<S>, f: S -> int, b: seq<T>, g: T -> int)
    requires |a| == |b|
    requires forall i :: 0 <= i < |a| ==> f(a[i]) == g(b[i])
    ensures Sum(a, f) == Sum(b, g)
  {
    if a == [] {
    } else {
      SumAgrees(a[..|a|-1], f, b[..|b|-1], g);
    }
  }

  lemma SumOfUpdate<T>(s: seq<T>, i: nat, x: T, f: T -> int)
    requires i < |s|
    ensures Sum(s[i := x], f) == Sum(s, f) - f(s[i]) + f(x)
  {
    SumOfRemoval(s, i, f);
    SumOfRemoval(s[i := x], i, f);
    assert s[i := x][..i] == s[..i] && s[i := x][i+1..] == s[i+1..];
  }

  lemma {:induction false} SubsetSize<T>(a: set<T>, b: set<T>)
    requires a <= b
    ensures |a| <= |b|
  {
    if a != {} {
      var x :| x in a;
      SubsetSize(a - {x}, b - {x});
    }
  }

  lemma AtMostOneElement<T>(s: set<T>)
    requires forall x, y :: x in s && y in s ==> x == y
    ensures |s| <= 1
  {
    if s != {} {
      var x :| x in s;
      assert s == {x};
    }
  }
}
