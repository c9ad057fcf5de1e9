/**
 * Sequence vocabulary shared by the article index: JavaScript's
 * `Array.prototype.filter`, occurrence counts, first-occurrence order and
 * the subsequence relation used to say "in list order".
 */
module Seqs {

  /** `a` is obtained from `b` by deleting elements, keeping the rest in order. */
  predicate IsSubsequence<T(==)>(a: seq<T>, b: seq<T>)
    decreases |b|
  {
    if a == [] then true
    else if b == [] then false
    else (a[0] == b[0] && IsSubsequence(a[1..], b[1..])) || IsSubsequence(a, b[1..])
  }

  /** No element occurs twice. */
  predicate NoDuplicates<T(==)>(s: seq<T>) {
    forall i, j :: 0 <= i < j < |s| ==> s[i] != s[j]
  }

  /** `s.filter(f)`: the elements that satisfy `f`, in their original order. */
  function Filter<T(==)>(s: seq<T>, f: T -> bool): (r: seq<T>)
    ensures |r| <= |s|
    ensures forall x :: x in r ==> x in s && f(x)
    ensures forall x :: x in s && f(x) ==> x in r
    ensures IsSubsequence(r, s)
    ensures forall x :: x in s ==> Count(r, x) == if f(x) then Count(s, x) else 0
  {
    if s == [] then []
    else
      assert s == [s[0]] + s[1..];
      CountCons(s[0], s[1..]);
      var rest := Filter(s[1..], f);
      if f(s[0]) then
        assert ([s[0]] + rest)[1..] == rest;
        assert s[0] !in s[1..] ==> Count(rest, s[0]) == 0;
        CountCons(s[0], rest);
        [s[0]] + rest
      else rest
  }

  /** Filtering a concatenation filters each part. */
  lemma {:induction false} FilterConcat<T>(a: seq<T>, b: seq<T>, f: T -> bool)
    ensures Filter(a + b, f) == Filter(a, f) + Filter(b, f)
  {
    if a == [] {
      assert a + b == b;
    } else {
      assert (a + b)[0] == a[0];
      assert (a + b)[1..] == a[1..] + b;
      FilterConcat(a[1..], b, f);
    }
  }

  /** Every prefix of a subsequence of `b` is itself a subsequence of `b`. */
  lemma {:induction false} SubsequencePrefix<T>(a: seq<T>, b: seq<T>, k: nat)
    requires IsSubsequence(a, b) && k <= |a|
    ensures IsSubsequence(a[..k], b)
    decreases |b|
  {
    if k == 0 {
      assert a[..k] == [];
    } else if a[0] == b[0] && IsSubsequence(a[1..], b[1..]) {
      SubsequencePrefix(a[1..], b[1..], k - 1);
      assert a[..k][0] == a[0];
      assert a[..k][1..] == a[1..][..k - 1];
    } else {
      SubsequencePrefix(a, b[1..], k);
    }
  }

  /** The number of occurrences of `x` in `s`. */
  function Count<T(==)>(s: seq<T>, x: T): (n: nat)
    ensures n <= |s|
    ensures n == 0 <==> x !in s
  {
    if s == [] then 0
    else
      assert s == s[..|s| - 1] + [s[|s| - 1]];
      Count(s[..|s| - 1], x) + (if s[|s| - 1] == x then 1 else 0)
  }

  lemma {:induction false} CountConcat<T>(a: seq<T>, b: seq<T>, x: T)
    ensures Count(a + b, x) == Count(a, x) + Count(b, x)
  {
    if b == [] {
      assert a + b == a;
    } else {
      assert (a + b)[..|a + b| - 1] == a + b[..|b| - 1];
      CountConcat(a, b[..|b| - 1], x);
    }
  }

  /** Counting in a list with a head element added in front. */
  lemma CountCons<T>(h: T, t: seq<T>)
    ensures forall x :: Count([h] + t, x) == (if h == x then 1 else 0) + Count(t, x)
  {
    forall x
      ensures Count([h] + t, x) == (if h == x then 1 else 0) + Count(t, x)
    {
      CountConcat([h], t, x);
      assert [h][..0] == [];
    }
  }

  /** Without duplicates, an element occurs once if present and never otherwise. */
  lemma {:induction false} CountWithoutDuplicates<T>(s: seq<T>, x: T)
    requires NoDuplicates(s)
    ensures Count(s, x) == if x in s then 1 else 0
  {
    if s != [] {
      var init, last := s[..|s| - 1], s[|s| - 1];
      assert s == init + [last];
      assert NoDuplicates(init);
      assert last !in init;
      CountWithoutDuplicates(init, x);
    }
  }

  /**
   * The distinct elements of `s`, each at the place of its first occurrence
   * (the key order of a JavaScript `Map` filled by scanning `s`).
   */
  function FirstOccurrences<T(==)>(s: seq<T>): (d: seq<T>)
    ensures NoDuplicates(d)
    ensures forall x :: x in d ==> x in s
    ensures forall x :: x in s ==> x in d
  {
    if s == [] then []
    else
      var d, last := FirstOccurrences(s[..|s| - 1]), s[|s| - 1];
      assert s == s[..|s| - 1] + [last];
      if last in s[..|s| - 1] then d else d + [last]
  }

  /** The index of the first occurrence of `x` in `s`. */
  function FirstIndex<T(==)>(s: seq<T>, x: T): (k: nat)
    requires x in s
    ensures k < |s| && s[k] == x
    ensures forall j :: 0 <= j < k ==> s[j] != x
  {
    if s[0] == x then 0 else 1 + FirstIndex(s[1..], x)
  }

  /** Appending elements does not move the first occurrence of an element already present. */
  lemma FirstIndexAppend<T>(a: seq<T>, b: seq<T>, x: T)
    requires x in a
    ensures FirstIndex(a + b, x) == FirstIndex(a, x)
  {
    assert (a + b)[FirstIndex(a, x)] == x;
  }

  /** `FirstOccurrences(s)` lists its elements in the order of their first occurrence in `s`. */
  lemma {:induction false} FirstOccurrencesOrdered<T>(s: seq<T>)
    ensures forall i, j :: 0 <= i < j < |FirstOccurrences(s)| ==>
      FirstIndex(s, FirstOccurrences(s)[i]) < FirstIndex(s, FirstOccurrences(s)[j])
  {
    if s != [] {
      var init, last := s[..|s| - 1], s[|s| - 1];
      var d, d0 := FirstOccurrences(s), FirstOccurrences(init);
      assert s == init + [last];
      FirstOccurrencesOrdered(init);
      forall x | x in init
        ensures FirstIndex(s, x) == FirstIndex(init, x)
      {
        FirstIndexAppend(init, [last], x);
      }
      if last !in init {
        assert d == d0 + [last];
        assert FirstIndex(s, last) == |init|;
      }
    }
  }
}
