/** Sorting a list of strings ascending, as Python's `list.sort()` does:
    an insertion sort as the reference definition, and an in-place sort
    over an array proved to produce the same sequence. */
module Sorting {
  import opened Strings

  ghost predicate Sorted(s: seq<string>)
  {
    forall i, j :: 0 <= i < j < |s| ==> LessEq(s[i], s[j])
  }

  /** Places `x` in front of the first element it does not exceed. */
  function Insert(x: string, s: seq<string>): seq<string>
  {
    if s == [] then [x]
    else if LessEq(x, s[0]) then [x] + s
    else [s[0]] + Insert(x, s[1..])
  }

  /** The reference ascending sort. */
  function SortStrings(s: seq<string>): (r: seq<string>)
    ensures multiset(r) == multiset(s)
  {
    if s == [] then []
    else
      InsertPermutes(s[0], SortStrings(s[1..]));
      assert s == [s[0]] + s[1..];
      Insert(s[0], SortStrings(s[1..]))
  }

  lemma {:induction false} InsertPermutes(x: string, s: seq<string>)
    ensures multiset(Insert(x, s)) == multiset(s) + multiset{x}
  {
    if s != [] && !LessEq(x, s[0]) {
      InsertPermutes(x, s[1..]);
      assert s == [s[0]] + s[1..];
    }
  }

  lemma {:induction false} InsertSorted(x: string, s: seq<string>)
    requires Sorted(s)
    ensures Sorted(Insert(x, s))
  {
    if s == [] {
    } else if LessEq(x, s[0]) {
      forall k | 0 < k < |s| ensures LessEq(x, s[k]) {
        LessEqTransitive(x, s[0], s[k]);
      }
    } else {
      InsertSorted(x, s[1..]);
      InsertPermutes(x, s[1..]);
      LessEqTotal(x, s[0]);
      var r := Insert(x, s[1..]);
      forall k | 0 <= k < |r| ensures LessEq(s[0], r[k]) {
        assert r[k] in multiset(r);
        if r[k] != x {
          assert r[k] in multiset(s[1..]);
          var j :| 0 <= j < |s[1..]| && s[1..][j] == r[k];
          assert s[j + 1] == r[k];
        }
      }
      var t := [s[0]] + r;
      forall p, q | 0 <= p < q < |t| ensures LessEq(t[p], t[q]) {
        if p > 0 { assert t[p] == r[p - 1] && t[q] == r[q - 1]; }
        else { assert t[q] == r[q - 1]; }
      }
    }
  }

  /** The reference sort yields an ascending permutation of its input. */
  lemma {:induction false} SortStringsCorrect(s: seq<string>)
    ensures Sorted(SortStrings(s))
    ensures multiset(SortStrings(s)) == multiset(s)
  {
    if s != [] {
      SortStringsCorrect(s[1..]);
      InsertSorted(s[0], SortStrings(s[1..]));
      InsertPermutes(s[0], SortStrings(s[1..]));
      assert s == [s[0]] + s[1..];
    }
  }

  lemma SortedTail(s: seq<string>)
    requires Sorted(s) && s != []
    ensures Sorted(s[1..])
  {
    forall i, j | 0 <= i < j < |s[1..]| ensures LessEq(s[1..][i], s[1..][j]) {
      assert s[1..][i] == s[i + 1] && s[1..][j] == s[j + 1];
    }
  }

  lemma TailMultiset(s: seq<string>)
    requires s != []
    ensures multiset(s[1..]) == multiset(s) - multiset{s[0]}
  {
    assert s == [s[0]] + s[1..];
  }

  /** The first element of an ascending sequence is below every element. */
  lemma SortedHeadLeast(s: seq<string>, x: string)
    requires Sorted(s) && x in multiset(s)
    ensures |s| > 0 && LessEq(s[0], x)
  {
    var i :| 0 <= i < |s| && s[i] == x;
    if i == 0 { LessEqReflexive(x); }
  }

  /** Two ascending sequences holding the same strings are equal: the sorted
      result is determined by the input alone. */
  lemma {:induction false} SortedUnique(a: seq<string>, b: seq<string>)
    requires Sorted(a) && Sorted(b)
    requires multiset(a) == multiset(b)
    ensures a == b
  {
    if a != [] {
      assert a[0] in multiset(a);
      SortedHeadLeast(b, a[0]);
      SortedHeadLeast(a, b[0]);
      LessEqAntisymmetric(a[0], b[0]);
      TailMultiset(a);
      TailMultiset(b);
      SortedTail(a);
      SortedTail(b);
      SortedUnique(a[1..], b[1..]);
      assert a == [a[0]] + a[1..] && b == [b[0]] + b[1..];
    } else {
      assert |b| == |multiset(b)| == 0;
    }
  }

  /** Any ascending permutation of `s` is the reference sort of `s`. */
  lemma SortedPermutationIsSortStrings(s: seq<string>, r: seq<string>)
    requires Sorted(r) && multiset(r) == multiset(s)
    ensures r == SortStrings(s)
  {
    SortStringsCorrect(s);
    SortedUnique(r, SortStrings(s));
  }

  /** Every pair of `s[..i+1]` is in order, except possibly pairs that
      involve position `j`. */
  ghost predicate SortedExcept(s: seq<string>, j: int, i: int)
    requires i < |s|
  {
    forall p, q :: 0 <= p < q <= i && p != j && q != j ==> LessEq(s[p], s[q])
  }

  /** `s[j]` is at most every element after it up to `s[i]`. */
  ghost predicate BelowRest(s: seq<string>, j: nat, i: int)
    requires j < |s| && i < |s|
  {
    forall q :: j < q <= i ==> LessEq(s[j], s[q])
  }

  /** Swapping an out-of-order `s[j-1]` and `s[j]` moves the gap one place left. */
  lemma SwapStep(s: seq<string>, j: nat, i: nat)
    requires 0 < j <= i < |s|
    requires SortedExcept(s, j, i) && BelowRest(s, j, i)
    requires !LessEq(s[j - 1], s[j])
    ensures SortedExcept(s[j - 1 := s[j]][j := s[j - 1]], j - 1, i)
    ensures BelowRest(s[j - 1 := s[j]][j := s[j - 1]], j - 1, i)
  {
    var t := s[j - 1 := s[j]][j := s[j - 1]];
    LessEqTotal(s[j - 1], s[j]);
    forall q | j - 1 < q <= i ensures LessEq(t[j - 1], t[q]) {
      if q > j { LessEqTransitive(s[j], s[j - 1], s[q]); }
    }
  }

  /** Once the gap reaches the front, or sits after a smaller element, the
      prefix `s[..i+1]` is sorted. */
  lemma GapClosed(s: seq<string>, j: nat, i: nat)
    requires j <= i < |s|
    requires SortedExcept(s, j, i) && BelowRest(s, j, i)
    requires j > 0 ==> LessEq(s[j - 1], s[j])
    ensures forall p, q :: 0 <= p < q <= i ==> LessEq(s[p], s[q])
  {
    forall p, q | 0 <= p < q <= i ensures LessEq(s[p], s[q]) {
      if q == j && p < j - 1 {
        LessEqTransitive(s[p], s[j - 1], s[j]);
      }
    }
  }

  /** Moves `a[i]` left past every larger element, so that a sorted prefix
      `a[..i]` becomes a sorted prefix `a[..i+1]`. */
  method InsertInPlace(a: array<string>, i: nat)
    requires i < a.Length
    requires forall p, q :: 0 <= p < q < i ==> LessEq(a[p], a[q])
    modifies a
    ensures forall p, q :: 0 <= p < q <= i ==> LessEq(a[p], a[q])
    ensures multiset(a[..]) == multiset(old(a[..]))
    ensures a[i + 1..] == old(a[i + 1..])
  {
    var j := i;
    while j > 0 && !LessEq(a[j - 1], a[j])
      invariant 0 <= j <= i
      invariant SortedExcept(a[..], j, i) && BelowRest(a[..], j, i)
      invariant multiset(a[..]) == multiset(old(a[..]))
      invariant a[i + 1..] == old(a[i + 1..])
    {
      SwapStep(a[..], j, i);
      ghost var s := a[..];
      a[j - 1], a[j] := a[j], a[j - 1];
      assert a[..] == s[j - 1 := s[j]][j := s[j - 1]];
      j := j - 1;
    }
    GapClosed(a[..], j, i);
  }

  /** `paths.sort()`: rearranges the array into ascending order. */
  method SortInPlace(a: array<string>)
    modifies a
    ensures Sorted(a[..])
    ensures multiset(a[..]) == multiset(old(a[..]))
    ensures a[..] == SortStrings(old(a[..]))
  {
    var i := 0;
    while i < a.Length
      invariant 0 <= i <= a.Length
      invariant forall p, q :: 0 <= p < q < i ==> LessEq(a[p], a[q])
      invariant multiset(a[..]) == multiset(old(a[..]))
    {
      InsertInPlace(a, i);
      i := i + 1;
    }
    SortedPermutationIsSortStrings(old(a[..]), a[..]);
  }
}
