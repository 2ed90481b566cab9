/**
 * Order statistics over sample vectors: a reference sort (insertion sort as a
 * function), the facts that pin it down, and the in-place selection that the
 * median uses (`std::nth_element`).
 */
module OrderStatistics {

  /** Non-decreasing order. */
  predicate Sorted(s: seq<real>) {
    forall i, j :: 0 <= i < j < |s| ==> s[i] <= s[j]
  }

  /** Inserts `x` into a sorted sequence at its place. */
  function Insert(x: real, s: seq<real>): (r: seq<real>)
    requires Sorted(s)
    ensures |r| == |s| + 1
    ensures r[0] == if s == [] || x <= s[0] then x else s[0]
    ensures Sorted(r)
    ensures multiset(r) == multiset(s) + multiset{x}
  {
    if s == [] then [x]
    else if x <= s[0] then [x] + s
    else
      assert s == [s[0]] + s[1..];
      [s[0]] + Insert(x, s[1..])
  }

  /** The sample vector in non-decreasing order: the reference for every order statistic. */
  function Sort(s: seq<real>): (r: seq<real>)
    ensures |r| == |s|
    ensures Sorted(r)
    ensures multiset(r) == multiset(s)
  {
    if s == [] then []
    else
      assert s == [s[0]] + s[1..];
      Insert(s[0], Sort(s[1..]))
  }

  /** In a sorted sequence the first entry is at most, and the last at least, every entry. */
  lemma SortedEnds(a: seq<real>, x: real)
    requires Sorted(a)
    requires x in multiset(a)
    ensures a[0] <= x <= a[|a| - 1]
  {
    var k :| 0 <= k < |a| && a[k] == x;
    assert a[0] <= a[k] <= a[|a| - 1];
  }

  /** Dropping the first entry keeps a sequence sorted and removes one copy of it from the multiset. */
  lemma SortedTail(a: seq<real>)
    requires Sorted(a) && a != []
    ensures Sorted(a[1..])
    ensures multiset(a[1..]) == multiset(a) - multiset{a[0]}
  {
    assert a == [a[0]] + a[1..];
  }

  /** Two sorted arrangements of the same multiset are the same sequence. */
  lemma {:induction false} SortedUnique(a: seq<real>, b: seq<real>)
    requires Sorted(a) && Sorted(b)
    requires multiset(a) == multiset(b)
    ensures a == b
  {
    assert |a| == |b| by { assert |multiset(a)| == |multiset(b)|; }
    if a != [] {
      assert a[0] in multiset(a) && b[0] in multiset(b);
      SortedEnds(b, a[0]);
      SortedEnds(a, b[0]);
      assert a[0] == b[0];
      SortedTail(a);
      SortedTail(b);
      SortedUnique(a[1..], b[1..]);
      assert a == [a[0]] + a[1..] && b == [b[0]] + b[1..];
    }
  }

  /** The sorted order, and so every order statistic, depends only on the multiset of samples. */
  lemma SortIsPermutationInvariant(a: seq<real>, b: seq<real>)
    requires multiset(a) == multiset(b)
    ensures Sort(a) == Sort(b)
  {
    SortedUnique(Sort(a), Sort(b));
  }

  /** A sequence is sorted exactly when sorting leaves it as it is. */
  lemma SortFixesSorted(s: seq<real>)
    ensures Sorted(s) <==> Sort(s) == s
  {
    if Sorted(s) {
      SortedUnique(Sort(s), s);
    }
  }

  /** Every entry of `Sort(s)` is an entry of `s`. */
  lemma SortEntryIn(s: seq<real>, q: nat)
    requires q < |s|
    ensures Sort(s)[q] in s
  {
    assert Sort(s)[q] in multiset(Sort(s));
  }

  /** A sorted prefix whose entries bound the rest from below, followed by the sorted rest, is sorted. */
  lemma SortedConcat(lo: seq<real>, hi: seq<real>)
    requires Sorted(lo)
    requires forall p, q :: 0 <= p < |lo| && 0 <= q < |hi| ==> lo[p] <= hi[q]
    ensures Sorted(lo + Sort(hi))
  {
    var t := lo + Sort(hi);
    forall p, q | 0 <= p < |lo| && 0 <= q < |hi|
      ensures lo[p] <= Sort(hi)[q]
    {
      SortEntryIn(hi, q);
    }
    forall i, j | 0 <= i < j < |t|
      ensures t[i] <= t[j]
    {
      if j < |lo| {
      } else if i < |lo| {
        assert t[j] == Sort(hi)[j - |lo|];
      } else {
        assert t[i] == Sort(hi)[i - |lo|] && t[j] == Sort(hi)[j - |lo|];
      }
    }
  }

  /**
   * If the first k+1 entries of `s` are in order and none exceeds a later entry,
   * then `s[k]` is the k-th order statistic of any permutation of `s`.
   */
  lemma SelectedIsOrderStatistic(orig: seq<real>, s: seq<real>, k: nat)
    requires multiset(s) == multiset(orig)
    requires k < |s|
    requires forall p, q :: 0 <= p < q < k + 1 ==> s[p] <= s[q]
    requires forall p, q :: 0 <= p < k + 1 <= q < |s| ==> s[p] <= s[q]
    ensures |Sort(orig)| == |s| && Sort(orig)[k] == s[k]
  {
    var lo, hi := s[..k + 1], s[k + 1..];
    assert s == lo + hi;
    forall p, q | 0 <= p < |lo| && 0 <= q < |hi|
      ensures lo[p] <= hi[q]
    {
      assert lo[p] == s[p] && hi[q] == s[k + 1 + q];
    }
    SortedConcat(lo, hi);
    var t := lo + Sort(hi);
    assert multiset(t) == multiset(lo) + multiset(hi) == multiset(s);
    SortedUnique(Sort(orig), t);
    assert t[k] == lo[k] == s[k];
  }

  /** The one step of selection that puts the least remaining entry at position `i`. */
  lemma SelectionStep(before: seq<real>, after: seq<real>, i: nat, m: nat)
    requires i <= m < |before| && |after| == |before|
    requires forall p, q :: 0 <= p < q < i ==> before[p] <= before[q]
    requires forall p, q :: 0 <= p < i <= q < |before| ==> before[p] <= before[q]
    requires forall q :: i <= q < |before| ==> before[m] <= before[q]
    requires after == before[i := before[m]][m := before[i]]
    ensures forall p, q :: 0 <= p < q < i + 1 ==> after[p] <= after[q]
    ensures forall p, q :: 0 <= p < i + 1 <= q < |after| ==> after[p] <= after[q]
  {
    forall q | i < q < |after|
      ensures after[q] == before[q] || after[q] == before[i]
    {
    }
    forall p | 0 <= p < i
      ensures after[p] == before[p]
    {
    }
  }

  /** Exchanges two entries. */
  method Swap(a: array<real>, i: nat, j: nat)
    requires i < a.Length && j < a.Length
    modifies a
    ensures a[..] == old(a[..])[i := old(a[j])][j := old(a[i])]
    ensures multiset(a[..]) == multiset(old(a[..]))
  {
    a[i], a[j] := a[j], a[i];
  }

  /** Index of a least entry of `a[from..]`. */
  method IndexOfLeast(a: array<real>, from: nat) returns (m: nat)
    requires from < a.Length
    ensures from <= m < a.Length
    ensures forall q :: from <= q < a.Length ==> a[m] <= a[q]
  {
    m := from;
    var j := from + 1;
    while j < a.Length
      invariant from <= m < a.Length && from + 1 <= j <= a.Length
      invariant forall q :: from <= q < j ==> a[m] <= a[q]
    {
      if a[j] < a[m] {
        m := j;
      }
      j := j + 1;
    }
  }

  /**
   * `std::nth_element(a.begin(), a.begin() + k, a.end())`: reorders `a` so that
   * `a[k]` is the entry that would be there if `a` were sorted, nothing before it
   * is greater and nothing after it is smaller. Done here by selecting the least
   * remaining entry into positions 0..k in turn.
   */
  method NthElement(a: array<real>, k: nat)
    requires k < a.Length
    modifies a
    ensures multiset(a[..]) == multiset(old(a[..]))
    ensures a[k] == Sort(old(a[..]))[k]
    ensures forall p :: 0 <= p < k ==> a[p] <= a[k]
    ensures forall q :: k < q < a.Length ==> a[k] <= a[q]
  {
    var i := 0;
    while i <= k
      invariant 0 <= i <= k + 1
      invariant multiset(a[..]) == multiset(old(a[..]))
      invariant forall p, q :: 0 <= p < q < i ==> a[p] <= a[q]
      invariant forall p, q :: 0 <= p < i <= q < a.Length ==> a[p] <= a[q]
    {
      var m := IndexOfLeast(a, i);
      ghost var before := a[..];
      Swap(a, i, m);
      SelectionStep(before, a[..], i, m);
      i := i + 1;
    }
    SelectedIsOrderStatistic(old(a[..]), a[..], k);
  }
}
