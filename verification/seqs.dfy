/** Order-preserving de-duplication of a list, as done with a `seen` set and
    an output list that is appended to. */
module Seqs {

  /** No element occurs twice. */
  predicate NoDup<T(==)>(s: seq<T>) {
    forall i, j :: 0 <= i < j < |s| ==> s[i] != s[j]
  }

  /** Strictly ascending positions. */
  predicate Ascending(p: seq<nat>) {
    forall k, l :: 0 <= k < l < |p| ==> p[k] < p[l]
  }

  /** Scan `s` from the left and keep an element unless an equal one has
      already been kept: the result has no duplicates and holds exactly the
      elements of `s`. */
  function Distinct<T(==)>(s: seq<T>): (r: seq<T>)
    ensures NoDup(r)
    ensures forall i :: 0 <= i < |s| ==> s[i] in r
    ensures forall k :: 0 <= k < |r| ==> r[k] in s
    ensures |r| <= |s|
  {
    if s == [] then []
    else
      var d := Distinct(s[..|s| - 1]);
      if s[|s| - 1] in d then d else d + [s[|s| - 1]]
  }

  /** The positions at which an element occurs for the first time, in
      ascending order: an independent description of what de-duplication
      keeps (see FirstPositionsAreFirsts). */
  function FirstPositions<T(==)>(s: seq<T>): (p: seq<nat>)
    ensures Ascending(p)
    ensures forall k :: 0 <= k < |p| ==> p[k] < |s|
  {
    if s == [] then []
    else
      var n := |s| - 1;
      var q := FirstPositions(s[..n]);
      if s[n] in s[..n] then q else q + [n]
  }

  /** Position `i` holds the first occurrence of its element. */
  predicate IsFirst<T(==)>(s: seq<T>, i: nat)
    requires i < |s|
  {
    forall j :: 0 <= j < i ==> s[j] != s[i]
  }

  lemma {:induction false} FirstPositionsAreFirsts<T>(s: seq<T>)
    ensures forall i :: 0 <= i < |s| ==> (i in FirstPositions(s) <==> IsFirst(s, i))
  {
    if s != [] {
      var n := |s| - 1;
      var front := s[..n];
      FirstPositionsAreFirsts(front);
      forall i | 0 <= i < n
        ensures IsFirst(s, i) == IsFirst(front, i)
      {
        assert forall j :: 0 <= j <= i ==> s[j] == front[j];
      }
      assert IsFirst(s, n) <==> s[n] !in front by {
        if s[n] in front {
          var j :| 0 <= j < n && front[j] == s[n];
          assert s[j] == s[n];
        }
      }
      forall i | 0 <= i < n
        ensures i in FirstPositions(s) <==> i in FirstPositions(front)
      {
      }
    }
  }

  /** De-duplication keeps exactly the first occurrences, in the order of `s`:
      the result is the subsequence of `s` at its first-occurrence positions. */
  lemma {:induction false} DistinctIsFirstOccurrences<T>(s: seq<T>)
    ensures |Distinct(s)| == |FirstPositions(s)|
    ensures forall k :: 0 <= k < |Distinct(s)| ==> Distinct(s)[k] == s[FirstPositions(s)[k]]
  {
    if s != [] {
      var n := |s| - 1;
      var p := s[..n];
      DistinctIsFirstOccurrences(p);
      var d, q := Distinct(p), FirstPositions(p);
      assert s[n] in d <==> s[n] in p;
      forall k | 0 <= k < |q|
        ensures d[k] == s[q[k]]
      {
        assert p[q[k]] == s[q[k]];
      }
      if s[n] in p {
        assert Distinct(s) == d && FirstPositions(s) == q;
      } else {
        assert Distinct(s) == d + [s[n]] && FirstPositions(s) == q + [n];
      }
    }
  }

  /** De-duplicating a list without duplicates changes nothing; in
      particular de-duplication is idempotent. */
  lemma {:induction false} DistinctOfNoDup<T>(s: seq<T>)
    requires NoDup(s)
    ensures Distinct(s) == s
  {
    if s != [] {
      var n := |s| - 1;
      DistinctOfNoDup(s[..n]);
      assert s[n] !in s[..n];
      assert s == s[..n] + [s[n]];
    }
  }

  /** Appending one element: the step a left-to-right de-duplication loop takes. */
  lemma DistinctSnoc<T>(s: seq<T>, x: T)
    ensures Distinct(s + [x]) == if x in Distinct(s) then Distinct(s) else Distinct(s) + [x]
  {
    assert (s + [x])[..|s + [x]| - 1] == s;
  }

  /** `f` applied to every element, the results concatenated in order: the
      list a loop builds by appending what each element contributes. */
  function ConcatMap<A, B>(s: seq<A>, f: A -> seq<B>): seq<B> {
    if s == [] then [] else ConcatMap(s[..|s| - 1], f) + f(s[|s| - 1])
  }

  lemma {:induction false} ConcatMapAppend<A, B>(a: seq<A>, b: seq<A>, f: A -> seq<B>)
    ensures ConcatMap(a + b, f) == ConcatMap(a, f) + ConcatMap(b, f)
  {
    if b == [] {
      assert a + b == a;
    } else {
      var n := |b| - 1;
      ConcatMapAppend(a, b[..n], f);
      var ab := a + b;
      assert ab[..|ab| - 1] == a + b[..n];
      assert ab[|ab| - 1] == b[n];
    }
  }

  lemma ConcatMapSnoc<A, B>(s: seq<A>, x: A, f: A -> seq<B>)
    ensures ConcatMap(s + [x], f) == ConcatMap(s, f) + f(x)
  {
    assert (s + [x])[..|s|] == s;
  }
}
