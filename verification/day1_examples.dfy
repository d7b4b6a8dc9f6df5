/**
 Worked lists for day 1: the distances the repository's tests expect, the
 embedded lists of the standalone script, and the similarity score of the
 same lists.
 */
module ListExamples {
  import opened ListMetrics

  /** With the sorted permutations in hand, the answer is the sum of their zipped distances. */
  lemma DistanceViaSorted(a: seq<int>, b: seq<int>, sa: seq<int>, sb: seq<int>)
    requires Sort(a) == sa && Sort(b) == sb
    ensures SortedDistance(a, b) == Sum(PairDistances(sa, sb))
  {
  }

  /** Lists that are already sorted are zipped as they stand. */
  lemma DistanceOfSortedLists(a: seq<int>, b: seq<int>)
    requires SortedAsc(a) && SortedAsc(b)
    ensures SortedDistance(a, b) == Sum(PairDistances(a, b))
  {
    SortIs(a, a);
    SortIs(b, b);
  }

  lemma SumStep(s: seq<int>, k: nat)
    requires k < |s|
    ensures Sum(s[..k + 1]) == Sum(s[..k]) + s[k]
  {
    assert s[..k + 1][..k] == s[..k];
  }

  lemma SumOfTwo(s: seq<int>)
    requires |s| == 2
    ensures Sum(s) == s[0] + s[1]
  {
    SumStep(s, 0);
    SumStep(s, 1);
    assert s[..2] == s;
  }

  lemma SumOfSix(s: seq<int>)
    requires |s| == 6
    ensures Sum(s) == s[0] + s[1] + s[2] + s[3] + s[4] + s[5]
  {
    SumStep(s, 0);
    SumStep(s, 1);
    SumStep(s, 2);
    SumStep(s, 3);
    SumStep(s, 4);
    SumStep(s, 5);
    assert s[..6] == s;
  }

  lemma SameElementsLeft(a: seq<int>)
    requires a == [3, 4, 2, 1, 3, 3]
    ensures multiset(a) == multiset([1, 2, 3, 3, 3, 4])
  {
  }

  lemma SameElementsRight(b: seq<int>)
    requires b == [4, 3, 5, 3, 9, 3]
    ensures multiset(b) == multiset([3, 3, 3, 4, 5, 9])
  {
  }

  /** The sorted permutation of the embedded left list. */
  lemma SortedLeft(a: seq<int>)
    requires a == [3, 4, 2, 1, 3, 3]
    ensures Sort(a) == [1, 2, 3, 3, 3, 4]
  {
    SameElementsLeft(a);
    SortIs(a, [1, 2, 3, 3, 3, 4]);
  }

  /** The sorted permutation of the embedded right list. */
  lemma SortedRight(b: seq<int>)
    requires b == [4, 3, 5, 3, 9, 3]
    ensures Sort(b) == [3, 3, 3, 4, 5, 9]
  {
    SameElementsRight(b);
    SortIs(b, [3, 3, 3, 4, 5, 9]);
  }

  /** The lists embedded in the standalone script, also the tests' basic example, are 11 apart. */
  lemma EmbeddedLists(a: seq<int>, b: seq<int>)
    requires a == [3, 4, 2, 1, 3, 3] && b == [4, 3, 5, 3, 9, 3]
    ensures SortedDistance(a, b) == 11
  {
    var d := PairDistances([1, 2, 3, 3, 3, 4], [3, 3, 3, 4, 5, 9]);
    assert d[0] == 2 && d[1] == 1 && d[2] == 0 && d[3] == 1 && d[4] == 2 && d[5] == 5;
    SumOfSix(d);
    SortedLeft(a);
    SortedRight(b);
    DistanceViaSorted(a, b, [1, 2, 3, 3, 3, 4], [3, 3, 3, 4, 5, 9]);
  }

  lemma SimpleCase(a: seq<int>, b: seq<int>)
    requires a == [1, 2] && b == [3, 4]
    ensures SortedDistance(a, b) == 4
  {
    assert a[0] == 1 && a[1] == 2 && b[0] == 3 && b[1] == 4;
    assert SortedAsc(a) && SortedAsc(b);
    var d := PairDistances(a, b);
    assert d[0] == 2 && d[1] == 2;
    SumOfTwo(d);
    DistanceOfSortedLists(a, b);
  }

  lemma SingleElement(a: seq<int>, b: seq<int>)
    requires a == [5] && b == [3]
    ensures SortedDistance(a, b) == 2
  {
    var d := PairDistances(a, b);
    assert d[0] == 2 && d[..0] == [];
    assert Sum(d) == 2;
    DistanceOfSortedLists(a, b);
  }

  /** The third element of the longer list has no partner and is ignored. */
  lemma DifferentLengths(a: seq<int>, b: seq<int>)
    requires a == [1, 2, 3] && b == [4, 5]
    ensures SortedDistance(a, b) == 6
  {
    assert a[0] == 1 && a[1] == 2 && a[2] == 3 && b[0] == 4 && b[1] == 5;
    assert SortedAsc(a) && SortedAsc(b);
    var d := PairDistances(a, b);
    assert d[0] == 3 && d[1] == 3;
    SumOfTwo(d);
    DistanceOfSortedLists(a, b);
  }

  /** Identical lists, and empty ones, are zero apart. */
  lemma IdenticalAndEmpty(a: seq<int>)
    requires a == [1, 2, 3]
    ensures SortedDistance(a, a) == 0 && SortedDistance([], []) == 0
  {
    SortedDistanceZero(a, a);
    SortedDistanceZero([], []);
  }

  lemma SimilarityStep(left: seq<int>, right: seq<int>, k: nat)
    requires k < |left|
    ensures Similarity(left[..k + 1], right) == Similarity(left[..k], right) + left[k] * Occurrences(right, left[k])
  {
    assert left[..k + 1][..k] == left[..k];
  }

  /** The score of a left list of six ids, written out. */
  lemma SimilarityOfSix(left: seq<int>, right: seq<int>)
    requires |left| == 6
    ensures Similarity(left, right)
         == left[0] * Occurrences(right, left[0]) + left[1] * Occurrences(right, left[1])
          + left[2] * Occurrences(right, left[2]) + left[3] * Occurrences(right, left[3])
          + left[4] * Occurrences(right, left[4]) + left[5] * Occurrences(right, left[5])
  {
    SimilarityStep(left, right, 0);
    SimilarityStep(left, right, 1);
    SimilarityStep(left, right, 2);
    SimilarityStep(left, right, 3);
    SimilarityStep(left, right, 4);
    SimilarityStep(left, right, 5);
    assert left[..6] == left;
  }

  /** The similarity score of the embedded lists: each 3 counts three times over, the 4 once, 2 and 1 not at all. */
  lemma EmbeddedSimilarity(a: seq<int>, b: seq<int>)
    requires a == [3, 4, 2, 1, 3, 3] && b == [4, 3, 5, 3, 9, 3]
    ensures Similarity(a, b) == 31
  {
    assert Occurrences(b, 3) == 3 && Occurrences(b, 4) == 1 && Occurrences(b, 2) == 0 && Occurrences(b, 1) == 0;
    SimilarityOfSix(a, b);
  }
}
