/** `Array.prototype.filter` over sequences, and what it keeps. */
module Seqs {

  /** `r` is `s` with some elements dropped; order is kept. */
  ghost predicate IsSubsequence<T>(r: seq<T>, s: seq<T>)
    decreases |s|
  {
    if r == [] then true
    else if s == [] then false
    else (r[0] == s[0] && IsSubsequence(r[1..], s[1..])) || IsSubsequence(r, s[1..])
  }

  /**
   * The elements of `s` that satisfy `p`, in their order in `s`: every one of
   * them, each as often as it occurs in `s`, and nothing else.
   */
  function Filter<T(!new)>(s: seq<T>, p: T -> bool): (r: seq<T>)
    ensures |r| <= |s|
    ensures forall i :: 0 <= i < |r| ==> p(r[i])
    ensures forall x :: x in r ==> x in s
  {
    if s == [] then []
    else
      var rest := Filter(s[1..], p);
      assert s == [s[0]] + s[1..];
      if p(s[0]) then [s[0]] + rest else rest
  }

  /** What `Filter` keeps, counted: each element passing `p` as often as in `s`, in the order of `s`. */
  lemma {:induction false} FilterKeeps<T(!new)>(s: seq<T>, p: T -> bool)
    ensures forall x :: multiset(Filter(s, p))[x] == if p(x) then multiset(s)[x] else 0
    ensures IsSubsequence(Filter(s, p), s)
    ensures forall x :: x in s && p(x) ==> x in Filter(s, p)
  {
    if s != [] {
      FilterKeeps(s[1..], p);
      assert s == [s[0]] + s[1..];
      var r := Filter(s, p);
      var rest := Filter(s[1..], p);
      if p(s[0]) {
        assert r == [s[0]] + rest;
        assert r[1..] == rest;
      } else {
        assert r == rest;
        SubsequenceOfTail(r, s);
      }
    }
  }

  lemma {:induction false} SubsequenceOfTail<T>(r: seq<T>, s: seq<T>)
    requires s != [] && IsSubsequence(r, s[1..])
    ensures IsSubsequence(r, s)
  {
  }

  lemma {:induction false} FilterConcat<T(!new)>(a: seq<T>, b: seq<T>, p: T -> bool)
    ensures Filter(a + b, p) == Filter(a, p) + Filter(b, p)
  {
    if a == [] {
      assert a + b == b;
    } else {
      var ab := a + b;
      assert ab[0] == a[0] && ab[1..] == a[1..] + b;
      FilterConcat(a[1..], b, p);
      var head := if p(a[0]) then [a[0]] else [];
      assert Filter(ab, p) == head + Filter(ab[1..], p);
      assert Filter(a, p) == head + Filter(a[1..], p);
    }
  }

  /** An element that passes the test survives the filter. */
  lemma {:induction false} FilterContains<T(!new)>(s: seq<T>, p: T -> bool, x: T)
    requires x in s && p(x)
    ensures x in Filter(s, p)
  {
    if s[0] != x {
      FilterContains(s[1..], p, x);
    }
  }

  /** Filtering with a test every element passes changes nothing. */
  lemma {:induction false} FilterKeepsAll<T(!new)>(s: seq<T>, p: T -> bool)
    requires forall i :: 0 <= i < |s| ==> p(s[i])
    ensures Filter(s, p) == s
  {
    if s != [] {
      FilterKeepsAll(s[1..], p);
    }
  }

  /** An element the test rejects can be taken out before filtering. */
  lemma {:induction false} FilterSkipsOne<T(!new)>(before: seq<T>, x: T, after: seq<T>, p: T -> bool)
    requires !p(x)
    ensures Filter(before + [x] + after, p) == Filter(before + after, p)
  {
    FilterAround(before, x, after, p);
    FilterConcat(before, after, p);
  }

  /** An element the test accepts stays between the filtered sides. */
  lemma {:induction false} FilterKeepsOne<T(!new)>(before: seq<T>, x: T, after: seq<T>, p: T -> bool)
    requires p(x)
    ensures Filter(before + [x] + after, p) == Filter(before, p) + [x] + Filter(after, p)
    ensures Filter(before + after, p) == Filter(before, p) + Filter(after, p)
  {
    FilterAround(before, x, after, p);
    FilterConcat(before, after, p);
  }

  lemma {:induction false} FilterAround<T(!new)>(before: seq<T>, x: T, after: seq<T>, p: T -> bool)
    ensures Filter(before + [x] + after, p) == Filter(before, p) + Filter([x], p) + Filter(after, p)
    ensures Filter([x], p) == if p(x) then [x] else []
  {
    FilterConcat(before + [x], after, p);
    FilterConcat(before, [x], p);
    assert [x][1..] == [];
  }
}
