/** Facts about sequences shared by the rest of the model. */
module Seqs {

  /** No element occurs twice. */
  predicate NoDup<T(==)>(s: seq<T>) {
    forall i, j :: 0 <= i < j < |s| ==> s[i] != s[j]
  }

  /** `a` is `b` with some elements left out, the rest in their order. */
  predicate IsSubseq<T(==)>(a: seq<T>, b: seq<T>)
    decreases |b|
  {
    if a == [] then true
    else if b == [] then false
    else if a[0] == b[0] then IsSubseq(a[1..], b[1..])
    else IsSubseq(a, b[1..])
  }

  /** The position of the first occurrence of `x` in `s`. */
  function FirstIndex<T(==)>(s: seq<T>, x: T): (i: nat)
    requires x in s
    ensures i < |s| && s[i] == x && x !in s[..i]
  {
    if s[0] == x then 0
    else
      var k := FirstIndex(s[1..], x);
      assert s[..k + 1] == [s[0]] + s[1..][..k];
      k + 1
  }

  /** The first occurrence of `x` is the only position holding `x` with no `x` before it. */
  lemma FirstIndexUnique<T>(s: seq<T>, x: T, i: nat)
    requires i < |s| && s[i] == x && x !in s[..i]
    ensures FirstIndex(s, x) == i
  {
    var k := FirstIndex(s, x);
    assert forall m :: 0 <= m < i ==> s[..i][m] == s[m];
    assert forall m :: 0 <= m < k ==> s[..k][m] == s[m];
  }

  /**
   * The distinct elements of `s` in the order of their first occurrence: the
   * sequence that spreading a JavaScript `Set` built from `s` yields.
   */
  function Dedup<T(==, !new)>(s: seq<T>): (r: seq<T>)
    ensures NoDup(r)
    ensures forall x :: x in r <==> x in s
  {
    if s == [] then []
    else
      var front := s[..|s| - 1];
      assert s == front + [s[|s| - 1]];
      var d := Dedup(front);
      if s[|s| - 1] in d then d else d + [s[|s| - 1]]
  }

  /** A sequence without repeated elements is its own deduplication. */
  lemma {:induction false} DedupOfDistinct<T(!new)>(s: seq<T>)
    requires NoDup(s)
    ensures Dedup(s) == s
  {
    if s != [] {
      var front := s[..|s| - 1];
      assert NoDup(front);
      DedupOfDistinct(front);
      assert s[|s| - 1] !in front;
      assert s == front + [s[|s| - 1]];
    }
  }

  /** Deduplication keeps the elements in the order of their first occurrence in the input. */
  lemma {:induction false} DedupKeepsFirstOccurrenceOrder<T(!new)>(s: seq<T>, i: nat, j: nat)
    requires i < j < |Dedup(s)|
    ensures FirstIndex(s, Dedup(s)[i]) < FirstIndex(s, Dedup(s)[j])
  {
    var front := s[..|s| - 1];
    var y := s[|s| - 1];
    assert s == front + [y];
    var d := Dedup(front);
    var x := Dedup(s)[i];
    assert x in d;
    var fx := FirstIndex(front, x);
    assert front[..fx] == s[..fx];
    FirstIndexUnique(s, x, fx);
    if j < |d| {
      var z := Dedup(s)[j];
      DedupKeepsFirstOccurrenceOrder(front, i, j);
      var fz := FirstIndex(front, z);
      assert front[..fz] == s[..fz];
      FirstIndexUnique(s, z, fz);
    } else {
      assert Dedup(s) == d + [y] && Dedup(s)[j] == y;
      assert y !in front && s[..|front|] == front;
      FirstIndexUnique(s, y, |front|);
    }
  }

  /** Deduplicating one more element appends it if it is new. */
  lemma DedupSnoc<T(!new)>(s: seq<T>, x: T)
    ensures Dedup(s + [x]) == if x in Dedup(s) then Dedup(s) else Dedup(s) + [x]
  {
    assert (s + [x])[..|s|] == s;
  }

  /** Deduplicating two elements. */
  lemma DedupPair<T(!new)>(a: T, b: T)
    ensures Dedup([a, b]) == if a == b then [a] else [a, b]
  {
    assert [a, b][..1] == [a];
    assert [a][..0] == [];
    assert Dedup([a]) == [a];
  }

  /** A subsequence stays one when the larger sequence grows, and when both grow by the same element. */
  lemma {:induction false} IsSubseqSnoc<T>(a: seq<T>, b: seq<T>, x: T)
    requires IsSubseq(a, b)
    ensures IsSubseq(a, b + [x]) && IsSubseq(a + [x], b + [x])
    decreases |b|
  {
    if b == [] {
      assert a == [];
      assert ([x] + [])[1..] == [];
    } else {
      assert (b + [x])[1..] == b[1..] + [x];
      if a == [] {
        IsSubseqSnoc(a, b[1..], x);
        assert a + [x] == [x];
      } else if a[0] == b[0] {
        IsSubseqSnoc(a[1..], b[1..], x);
        assert (a + [x])[1..] == a[1..] + [x];
      } else {
        IsSubseqSnoc(a, b[1..], x);
      }
    }
  }

  /** Sum of a sequence of integers. */
  function Sum(s: seq<int>): int {
    if s == [] then 0 else s[0] + Sum(s[1..])
  }
}
