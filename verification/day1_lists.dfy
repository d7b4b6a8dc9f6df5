/**
 Day 1: two lists of location ids. Part 1 sorts both lists, pairs them up
 position by position (the longer list's surplus is ignored) and adds the
 distances; part 2 weighs every id of the left list by how often it occurs
 in the right list.
 */
module ListMetrics {

  // ---------------------------------------------------------------------
  // Sorting.
  // ---------------------------------------------------------------------

  predicate SortedAsc(s: seq<int>) {
    forall i, j :: 0 <= i < j < |s| ==> s[i] <= s[j]
  }

  /** `x` put into its place in the sorted `s`. */
  function Insert(x: int, s: seq<int>): (t: seq<int>)
    requires SortedAsc(s)
    ensures SortedAsc(t) && multiset(t) == multiset(s) + multiset{x}
    ensures |t| == |s| + 1
  {
    if |s| == 0 then [x]
    else if x <= s[0] then [x] + s
    else
      var rest := Insert(x, s[1..]);
      assert s == [s[0]] + s[1..];
      BelowAll(s[0], x, s[1..], rest);
      ConsSorted(s[0], rest);
      [s[0]] + rest
  }

  /** A lower bound of `tail` and of `x` bounds every element of a permutation of them. */
  lemma BelowAll(h: int, x: int, tail: seq<int>, rest: seq<int>)
    requires h <= x && forall k :: 0 <= k < |tail| ==> h <= tail[k]
    requires multiset(rest) == multiset(tail) + multiset{x}
    ensures forall k :: 0 <= k < |rest| ==> h <= rest[k]
  {
    forall k | 0 <= k < |rest|
      ensures h <= rest[k]
    {
      assert rest[k] in multiset(tail) + multiset{x};
    }
  }

  lemma ConsSorted(h: int, t: seq<int>)
    requires SortedAsc(t) && forall k :: 0 <= k < |t| ==> h <= t[k]
    ensures SortedAsc([h] + t)
  {
  }

  /**
   A sorted permutation of `s`: what the library sort yields. Any two
   sorted permutations agree (SortedPermutationUnique), so the choice of
   algorithm here does not matter.
   */
  function Sort(s: seq<int>): (t: seq<int>)
    ensures SortedAsc(t) && multiset(t) == multiset(s)
    ensures |t| == |s|
  {
    if |s| == 0 then []
    else
      assert s == [s[0]] + s[1..];
      Insert(s[0], Sort(s[1..]))
  }

  /** The smallest element of a non-empty sorted sequence comes first. */
  lemma SortedHeadIsLeast(s: seq<int>, x: int)
    requires SortedAsc(s) && x in multiset(s)
    ensures |s| > 0 && s[0] <= x
  {
    var k :| 0 <= k < |s| && s[k] == x;
  }

  /** Two sorted sequences with the same elements are equal. */
  lemma {:induction false} SortedPermutationUnique(a: seq<int>, b: seq<int>)
    requires SortedAsc(a) && SortedAsc(b) && multiset(a) == multiset(b)
    ensures a == b
    decreases |a|
  {
    if |a| > 0 {
      assert a[0] in multiset(b);
      SortedHeadIsLeast(b, a[0]);
      assert b[0] in multiset(a);
      SortedHeadIsLeast(a, b[0]);
      assert a[0] == b[0];
      assert a == [a[0]] + a[1..] && b == [b[0]] + b[1..];
      assert multiset(a) == multiset{a[0]} + multiset(a[1..]);
      assert multiset(b) == multiset{a[0]} + multiset(b[1..]);
      forall y
        ensures multiset(a[1..])[y] == multiset(b[1..])[y]
      {
        assert multiset(a)[y] == multiset(b)[y];
      }
      assert multiset(a[1..]) == multiset(b[1..]);
      SortedPermutationUnique(a[1..], b[1..]);
    } else {
      assert |multiset(b)| == 0;
    }
  }

  /** Sorting depends only on the elements, not on their order. */
  lemma SortPermutationInvariant(s: seq<int>, t: seq<int>)
    requires multiset(s) == multiset(t)
    ensures Sort(s) == Sort(t)
  {
    SortedPermutationUnique(Sort(s), Sort(t));
  }

  /** A sorted sequence with the elements of `s` is what sorting `s` yields. */
  lemma SortIs(s: seq<int>, t: seq<int>)
    requires SortedAsc(t) && multiset(s) == multiset(t)
    ensures Sort(s) == t
  {
    SortedPermutationUnique(Sort(s), t);
  }

  // ---------------------------------------------------------------------
  // Part 1: the sum of distances between the sorted lists.
  // ---------------------------------------------------------------------

  function Abs(x: int): nat {
    if x < 0 then -x else x
  }

  function Min(x: nat, y: nat): nat {
    if x <= y then x else y
  }

  /** The distances of the pairs zipped from `a` and `b`: as many as the shorter one has elements. */
  function PairDistances(a: seq<int>, b: seq<int>): (d: seq<int>)
    ensures |d| == Min(|a|, |b|)
    ensures forall i :: 0 <= i < |d| ==> d[i] == Abs(a[i] - b[i])
  {
    seq(Min(|a|, |b|), i requires 0 <= i < Min(|a|, |b|) => Abs(a[i] - b[i]))
  }

  function Sum(s: seq<int>): int {
    if |s| == 0 then 0 else Sum(s[..|s| - 1]) + s[|s| - 1]
  }

  predicate AllNonNegative(s: seq<int>) {
    forall i :: 0 <= i < |s| ==> s[i] >= 0
  }

  /** A sum of non-negative terms is zero exactly when every term is. */
  lemma {:induction false} SumOfNonNegatives(s: seq<int>)
    requires AllNonNegative(s)
    ensures Sum(s) >= 0
    ensures Sum(s) == 0 <==> forall i :: 0 <= i < |s| ==> s[i] == 0
  {
    if |s| > 0 {
      var init := s[..|s| - 1];
      assert forall i :: 0 <= i < |init| ==> init[i] == s[i];
      SumOfNonNegatives(init);
    }
  }

  /**
   Part 1's answer: both lists sorted, zipped, and the absolute
   differences added up. It is never negative.
   */
  function SortedDistance(a: seq<int>, b: seq<int>): (n: int)
    ensures n >= 0
  {
    var d := PairDistances(Sort(a), Sort(b));
    SumOfNonNegatives(d);
    Sum(d)
  }

  /** Reordering either list does not change the answer, since both are sorted first. */
  lemma SortedDistancePermutation(a: seq<int>, a': seq<int>, b: seq<int>, b': seq<int>)
    requires multiset(a) == multiset(a') && multiset(b) == multiset(b')
    ensures SortedDistance(a, b) == SortedDistance(a', b')
  {
    SortPermutationInvariant(a, a');
    SortPermutationInvariant(b, b');
  }

  /** The answer is symmetric in the two lists. */
  lemma SortedDistanceSymmetric(a: seq<int>, b: seq<int>)
    ensures SortedDistance(a, b) == SortedDistance(b, a)
  {
    var d, e := PairDistances(Sort(a), Sort(b)), PairDistances(Sort(b), Sort(a));
    assert forall i :: 0 <= i < |d| ==> d[i] == e[i];
    assert d == e;
  }

  /** A prefix of a sorted sequence is its own sorted permutation. */
  lemma SortedPrefix(s: seq<int>, k: nat)
    requires SortedAsc(s) && k <= |s|
    ensures Sort(s[..k]) == s[..k]
  {
    assert SortedAsc(s[..k]);
    SortIs(s[..k], s[..k]);
  }

  /** Zipping ignores everything past the shorter sequence's length. */
  lemma PairDistancesPrefix(x: seq<int>, y: seq<int>, k: nat)
    requires k == Min(|x|, |y|)
    ensures PairDistances(x, y) == PairDistances(x[..k], y[..k])
  {
    var d, e := PairDistances(x, y), PairDistances(x[..k], y[..k]);
    assert |d| == k == |e|;
    forall i | 0 <= i < k
      ensures d[i] == e[i]
    {
      assert x[..k][i] == x[i] && y[..k][i] == y[i];
    }
  }

  /**
   Only the first min(|a|, |b|) elements of each sorted list are paired:
   the answer is the one for those two prefixes, which are already sorted.
   */
  lemma SortedDistanceTruncates(a: seq<int>, b: seq<int>)
    ensures var k := Min(|a|, |b|); SortedDistance(a, b) == SortedDistance(Sort(a)[..k], Sort(b)[..k])
  {
    var k := Min(|a|, |b|);
    SortedPrefix(Sort(a), k);
    SortedPrefix(Sort(b), k);
    PairDistancesPrefix(Sort(a), Sort(b), k);
  }

  /** Lists of the same length are zero apart exactly when they hold the same elements. */
  lemma SortedDistanceZero(a: seq<int>, b: seq<int>)
    requires |a| == |b|
    ensures SortedDistance(a, b) == 0 <==> multiset(a) == multiset(b)
  {
    if multiset(a) == multiset(b) {
      SameElementsNoDistance(a, b);
    }
    if SortedDistance(a, b) == 0 {
      NoDistanceSameElements(a, b);
    }
  }

  /** Lists holding the same elements sort to the same list, so every pair is zero apart. */
  lemma SameElementsNoDistance(a: seq<int>, b: seq<int>)
    requires multiset(a) == multiset(b)
    ensures SortedDistance(a, b) == 0
  {
    var d := PairDistances(Sort(a), Sort(b));
    SumOfNonNegatives(d);
    SortPermutationInvariant(a, b);
    assert forall i :: 0 <= i < |d| ==> d[i] == 0;
  }

  /** Equally long lists at distance zero sort to the same list, so they hold the same elements. */
  lemma NoDistanceSameElements(a: seq<int>, b: seq<int>)
    requires |a| == |b| && SortedDistance(a, b) == 0
    ensures multiset(a) == multiset(b)
  {
    var sa, sb := Sort(a), Sort(b);
    var d := PairDistances(sa, sb);
    SumOfNonNegatives(d);
    assert forall i :: 0 <= i < |sa| ==> d[i] == 0 && sa[i] == sb[i];
    assert sa == sb;
  }

  /** The loop: sort, then add the distances pair by pair until the shorter list runs out. */
  method DistanceSumOfSortedElements(listA: seq<int>, listB: seq<int>) returns (total: int)
    ensures total == SortedDistance(listA, listB)
  {
    var sortedA, sortedB := Sort(listA), Sort(listB);
    var d := PairDistances(sortedA, sortedB);
    total := 0;
    var i := 0;
    while i < Min(|sortedA|, |sortedB|)
      invariant 0 <= i <= |d|
      invariant total == Sum(d[..i])
    {
      assert d[..i + 1][..i] == d[..i];
      total := total + Abs(sortedA[i] - sortedB[i]);
      i := i + 1;
    }
    assert d[..i] == d;
  }

  // ---------------------------------------------------------------------
  // Part 2: the similarity score.
  // ---------------------------------------------------------------------

  /** How often `x` occurs in `s`; zero when it does not. */
  function Occurrences(s: seq<int>, x: int): nat {
    multiset(s)[x]
  }

  /** Part 2's answer: each id of `left` weighted by its number of occurrences in `right`. */
  function Similarity(left: seq<int>, right: seq<int>): int {
    if |left| == 0 then 0
    else Similarity(left[..|left| - 1], right) + left[|left| - 1] * Occurrences(right, left[|left| - 1])
  }

  /** The score of two concatenated left lists is the sum of their scores. */
  lemma {:induction false} SimilarityAppend(a: seq<int>, b: seq<int>, right: seq<int>)
    ensures Similarity(a + b, right) == Similarity(a, right) + Similarity(b, right)
    decreases |b|
  {
    if |b| == 0 {
      assert a + b == a;
    } else {
      var init := b[..|b| - 1];
      assert (a + b)[..|a + b| - 1] == a + init;
      SimilarityAppend(a, init, right);
    }
  }

  /** A sequence holding `x` splits around one of its occurrences. */
  lemma SplitAround(s: seq<int>, x: int) returns (before: seq<int>, after: seq<int>)
    requires x in multiset(s)
    ensures s == before + [x] + after
    ensures multiset(before + after) == multiset(s) - multiset{x}
  {
    var k :| 0 <= k < |s| && s[k] == x;
    before, after := s[..k], s[k + 1..];
    assert s == before + [x] + after;
  }

  /** An id spliced into the left list adds its own weight to the score. */
  lemma SimilaritySplice(before: seq<int>, x: int, after: seq<int>, right: seq<int>)
    ensures Similarity(before + [x] + after, right) == Similarity(before + after, right) + x * Occurrences(right, x)
  {
    SimilarityAppend(before, after, right);
    SimilarityAppend(before + [x], after, right);
    SimilarityAppend(before, [x], right);
    assert Similarity([x], right) == x * Occurrences(right, x) by {
      assert [x][..0] == [];
    }
  }

  /** The score depends only on the two lists' elements with their multiplicities, not on their order. */
  lemma {:induction false} SimilarityPermutation(left: seq<int>, left': seq<int>, right: seq<int>, right': seq<int>)
    requires multiset(left) == multiset(left') && multiset(right) == multiset(right')
    ensures Similarity(left, right) == Similarity(left', right')
    decreases |left|
  {
    if |left| == 0 {
      assert |multiset(left')| == 0;
      SimilarityRight(left', right, right');
    } else {
      var x := left[|left| - 1];
      var init := left[..|left| - 1];
      assert left == init + [x];
      assert multiset(init) == multiset(left) - multiset{x};
      var before, after := SplitAround(left', x);
      SimilarityPermutation(init, before + after, right, right');
      SimilaritySplice(before, x, after, right');
    }
  }

  /** Only the multiset of the right list matters. */
  lemma {:induction false} SimilarityRight(left: seq<int>, right: seq<int>, right': seq<int>)
    requires multiset(right) == multiset(right')
    ensures Similarity(left, right) == Similarity(left, right')
  {
    if |left| > 0 {
      SimilarityRight(left[..|left| - 1], right, right');
    }
  }

  /** The count of `x` read from a counter, zero for an id it has not seen. */
  function Lookup(counts: map<int, nat>, x: int): nat {
    if x in counts then counts[x] else 0
  }

  /** The counter of the right list, then the weighted sum over the left list. */
  method SimilarityScore(left: seq<int>, right: seq<int>) returns (score: int)
    ensures score == Similarity(left, right)
  {
    var counts: map<int, nat> := map[];
    var j := 0;
    while j < |right|
      invariant 0 <= j <= |right|
      invariant forall x :: Lookup(counts, x) == Occurrences(right[..j], x)
    {
      var y := right[j];
      assert right[..j + 1] == right[..j] + [y];
      var counted := counts[y := Lookup(counts, y) + 1];
      forall x
        ensures Lookup(counted, x) == Occurrences(right[..j + 1], x)
      {
        assert Lookup(counts, x) == Occurrences(right[..j], x);
      }
      counts := counted;
      j := j + 1;
    }
    assert right[..j] == right;
    score := 0;
    var i := 0;
    while i < |left|
      invariant 0 <= i <= |left|
      invariant score == Similarity(left[..i], right)
    {
      assert left[..i + 1][..i] == left[..i];
      score := score + left[i] * Lookup(counts, left[i]);
      i := i + 1;
    }
    assert left[..i] == left;
  }
}
