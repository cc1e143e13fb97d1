/**
 The array built-ins the hooks are written with, over Dafny sequences:
 `Array.prototype.filter`, `Array.prototype.find`, `flatMap`, and the
 `[...new Set(xs)]` idiom that drops repeated elements.
 */
module Sequences {

  /** `undefined` / `null` versus a present value. */
  datatype Option<T> = None | Some(value: T)

  /** `r` occurs in `s` in the same order, possibly with elements of `s` skipped. */
  ghost predicate IsSubseq<T>(r: seq<T>, s: seq<T>)
    decreases |s|
  {
    if r == [] then true
    else if s == [] then false
    else (r[0] == s[0] && IsSubseq(r[1..], s[1..])) || IsSubseq(r, s[1..])
  }

  /** Every sequence is a subsequence of itself. */
  lemma {:induction false} IsSubseqRefl<T>(s: seq<T>)
    ensures IsSubseq(s, s)
    decreases |s|
  {
    if s != [] {
      IsSubseqRefl(s[1..]);
    }
  }

  /** No element occurs twice. */
  ghost predicate NoDuplicates<T>(s: seq<T>)
  {
    forall i, j :: 0 <= i < j < |s| ==> s[i] != s[j]
  }

  /**
   `s.filter(p)`: the elements of `s` that satisfy `p`, each as often as it
   occurs in `s`, and nothing else.
   */
  function Filter<T(!new)>(s: seq<T>, p: T -> bool): (r: seq<T>)
    ensures |r| <= |s|
    ensures forall x :: x in r <==> x in s && p(x)
    ensures forall x :: multiset(r)[x] == if p(x) then multiset(s)[x] else 0
  {
    if s == [] then []
    else
      assert s == [s[0]] + s[1..];
      if p(s[0]) then [s[0]] + Filter(s[1..], p) else Filter(s[1..], p)
  }

  /** What `filter` keeps, it keeps in the order of `s`. */
  lemma {:induction false} FilterIsSubseq<T(!new)>(s: seq<T>, p: T -> bool)
    ensures IsSubseq(Filter(s, p), s)
  {
    if s != [] {
      FilterIsSubseq(s[1..], p);
      var r := Filter(s, p);
      if p(s[0]) {
        assert r[0] == s[0] && r[1..] == Filter(s[1..], p);
      } else {
        assert r == Filter(s[1..], p);
        if r != [] {
          assert IsSubseq(r, s[1..]);
        }
      }
    }
  }

  /**
   Filtering by `p` and by its negation `q` splits `s`: every occurrence of
   every element ends up in exactly one of the two results.
   */
  lemma FilterComplement<T(!new)>(s: seq<T>, p: T -> bool, q: T -> bool)
    requires forall x :: q(x) == !p(x)
    ensures multiset(Filter(s, p)) + multiset(Filter(s, q)) == multiset(s)
    ensures |Filter(s, p)| + |Filter(s, q)| == |s|
    ensures forall x :: x in Filter(s, p) ==> x !in Filter(s, q)
  {
    var a, b := Filter(s, p), Filter(s, q);
    assert forall x :: (multiset(a) + multiset(b))[x] == multiset(s)[x];
    assert multiset(a) + multiset(b) == multiset(s);
    calc {
      |a| + |b|;
      |multiset(a)| + |multiset(b)|;
      |multiset(a) + multiset(b)|;
      |multiset(s)|;
      |s|;
    }
  }

  /** The index of the first occurrence of `x` in `s`. */
  function FirstIndex<T(==)>(s: seq<T>, x: T): (i: nat)
    requires x in s
    ensures i < |s| && s[i] == x && x !in s[..i]
  {
    if s[0] == x then 0
    else
      assert x in s[1..];
      var k := FirstIndex(s[1..], x);
      assert s[..k + 1] == [s[0]] + s[1..][..k];
      k + 1
  }

  /** Appending to `s` does not move the first occurrence of what `s` already holds. */
  lemma FirstIndexPrefix<T>(s: seq<T>, t: seq<T>, x: T)
    requires x in s
    ensures x in s + t && FirstIndex(s + t, x) == FirstIndex(s, x)
  {
    var i, j := FirstIndex(s + t, x), FirstIndex(s, x);
    assert (s + t)[j] == x;
  }

  /**
   `[...new Set(s)]`: a `Set` remembers insertion order and ignores an
   element it already holds, so each element is kept at its first occurrence.
   */
  function Dedup<T(==,!new)>(s: seq<T>): (r: seq<T>)
    ensures NoDuplicates(r)
    ensures forall x :: x in r <==> x in s
  {
    if s == [] then []
    else
      var d := Dedup(s[..|s| - 1]);
      assert s == s[..|s| - 1] + [s[|s| - 1]];
      if s[|s| - 1] in d then d else d + [s[|s| - 1]]
  }

  /**
   The elements of `Dedup(s)` appear in the order in which they first occur
   in `s`; together with the contract of `Dedup` this fixes its result.
   */
  lemma {:induction false} DedupFirstOccurrenceOrder<T(!new)>(s: seq<T>)
    ensures forall i, j :: 0 <= i < j < |Dedup(s)| ==>
      FirstIndex(s, Dedup(s)[i]) < FirstIndex(s, Dedup(s)[j])
  {
    if s != [] {
      var n := |s|;
      var front, last := s[..n - 1], s[n - 1];
      assert s == front + [last];
      DedupFirstOccurrenceOrder(front);
      var d, r := Dedup(front), Dedup(s);
      forall k | 0 <= k < |d|
        ensures FirstIndex(s, d[k]) == FirstIndex(front, d[k]) < n - 1
      {
        FirstIndexPrefix(front, [last], d[k]);
      }
      if last !in d {
        assert r == d + [last];
        assert last !in front;
        assert FirstIndex(s, last) == n - 1;
      } else {
        assert r == d;
      }
    }
  }

  /** The position of the first element of `s` that satisfies `p`, if any. */
  function FindIndex<T>(s: seq<T>, p: T -> bool): (r: Option<nat>)
    ensures r.None? <==> forall x :: x in s ==> !p(x)
    ensures r.Some? ==> r.value < |s| && p(s[r.value]) && forall j :: 0 <= j < r.value ==> !p(s[j])
  {
    if s == [] then None
    else if p(s[0]) then Some(0)
    else
      assert forall x :: x in s ==> x == s[0] || x in s[1..];
      match FindIndex(s[1..], p)
      case None => None
      case Some(k) => Some(k + 1)
  }

  /** `s.find(p)`: the first element that satisfies `p`, or nothing. */
  function Find<T>(s: seq<T>, p: T -> bool): (r: Option<T>)
    ensures r.None? <==> forall x :: x in s ==> !p(x)
    ensures r.Some? ==> exists i :: 0 <= i < |s| && s[i] == r.value && p(s[i]) &&
                                   (forall j :: 0 <= j < i ==> !p(s[j]))
  {
    match FindIndex(s, p)
    case None => None
    case Some(i) => Some(s[i])
  }
}
