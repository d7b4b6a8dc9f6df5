/**
 Worked reports for day 2: the verdicts and counts the repository's tests
 list for the six sample reports, and the dampener's edge cases.
 */
module ReportExamples {
  import opened Reports

  /** A report with a step that is not a rise of one to three and one that is not such a fall is unsafe. */
  lemma UnsafeAt(r: seq<int>, up: nat, down: nat)
    requires up + 1 < |r| && !(1 <= r[up + 1] - r[up] <= 3)
    requires down + 1 < |r| && !(-3 <= r[down + 1] - r[down] <= -1)
    ensures !Safe(r)
  {
  }

  /** The two sample reports that move steadily are safe. */
  lemma SteadySamples(r: seq<int>, t: seq<int>)
    requires r == [7, 6, 4, 2, 1] && t == [1, 3, 6, 7, 9]
    ensures Safe(r) && Safe(t)
  {
    assert StepsWithin(r, -3, -1);
    assert StepsWithin(t, 1, 3);
  }

  /** The four other sample reports are unsafe. */
  lemma UnsteadySamples(p: seq<int>, q: seq<int>, r: seq<int>, t: seq<int>)
    requires p == [1, 2, 7, 8, 9] && q == [9, 7, 6, 2, 1]
    requires r == [1, 3, 2, 4, 5] && t == [8, 6, 4, 4, 1]
    ensures !Safe(p) && !Safe(q) && !Safe(r) && !Safe(t)
  {
    UnsafeAt(p, 1, 0);
    UnsafeAt(q, 0, 2);
    UnsafeAt(r, 1, 0);
    EqualNeighboursUnsafe(t, 2);
  }

  /** Removing the offending level repairs two of the sample reports. */
  lemma SampleRepairs(r: seq<int>, t: seq<int>)
    requires r == [1, 3, 2, 4, 5] && t == [8, 6, 4, 4, 1]
    ensures SafeByOne(r) && SafeByOne(t)
  {
    assert StepsWithin(Without(r, 1), 1, 3);
    assert StepsWithin(Without(t, 2), -3, -1);
  }

  /** No single removal repairs `[1,2,7,8,9]`: every shortened report still has a jump of five or six. */
  lemma LargeRiseUnrepairable(r: seq<int>)
    requires r == [1, 2, 7, 8, 9]
    ensures !SafeByOne(r)
  {
    UnsafeAt(r, 1, 0);
    forall i | 0 <= i < |r|
      ensures !Safe(Without(r, i))
    {
      var s := Without(r, i);
      if i <= 1 {
        UnsafeAt(s, 0, 0);
      } else {
        UnsafeAt(s, 1, 0);
      }
    }
  }

  /** No single removal repairs `[9,7,6,2,1]`: every shortened report still falls by four or five. */
  lemma LargeFallUnrepairable(r: seq<int>)
    requires r == [9, 7, 6, 2, 1]
    ensures !SafeByOne(r)
  {
    UnsafeAt(r, 0, 2);
    forall i | 0 <= i < |r|
      ensures !Safe(Without(r, i))
    {
      var s := Without(r, i);
      if i == 0 {
        UnsafeAt(s, 0, 1);
      } else if i == 1 {
        UnsafeAt(s, 0, 1);
      } else if i == 2 {
        UnsafeAt(s, 0, 1);
      } else if i == 3 {
        UnsafeAt(s, 0, 2);
      } else {
        UnsafeAt(s, 0, 2);
      }
    }
  }

  /** The six sample reports. */
  function Sample(): seq<seq<int>> {
    [[7, 6, 4, 2, 1], [1, 2, 7, 8, 9], [9, 7, 6, 2, 1], [1, 3, 2, 4, 5], [8, 6, 4, 4, 1], [1, 3, 6, 7, 9]]
  }

  /** The tally of six reports counts the ones that pass. */
  lemma TallyOfSix(a: seq<int>, b: seq<int>, c: seq<int>, d: seq<int>, e: seq<int>, f: seq<int>, dampened: bool)
    ensures Tally([a, b, c, d, e, f], dampened)
         == (if Passes(a, dampened) then 1 else 0) + (if Passes(b, dampened) then 1 else 0)
          + (if Passes(c, dampened) then 1 else 0) + (if Passes(d, dampened) then 1 else 0)
          + (if Passes(e, dampened) then 1 else 0) + (if Passes(f, dampened) then 1 else 0)
  {
    assert [a, b, c, d, e, f][..5] == [a, b, c, d, e];
    assert [a, b, c, d, e][..4] == [a, b, c, d];
    assert [a, b, c, d][..3] == [a, b, c];
    assert [a, b, c][..2] == [a, b];
    assert [a, b][..1] == [a];
    assert [a][..0] == [];
    assert Tally([a], dampened) == (if Passes(a, dampened) then 1 else 0);
    assert Tally([a, b], dampened) == Tally([a], dampened) + (if Passes(b, dampened) then 1 else 0);
    assert Tally([a, b, c], dampened) == Tally([a, b], dampened) + (if Passes(c, dampened) then 1 else 0);
    assert Tally([a, b, c, d], dampened) == Tally([a, b, c], dampened) + (if Passes(d, dampened) then 1 else 0);
    assert Tally([a, b, c, d, e], dampened) == Tally([a, b, c, d], dampened) + (if Passes(e, dampened) then 1 else 0);
  }

  /** Two sample reports are safe, and four pass with the dampener. */
  lemma SampleCounts(rs: seq<seq<int>>)
    requires rs == Sample()
    ensures Tally(rs, false) == 2
    ensures Tally(rs, true) == 4
  {
    SteadySamples([7, 6, 4, 2, 1], [1, 3, 6, 7, 9]);
    UnsteadySamples([1, 2, 7, 8, 9], [9, 7, 6, 2, 1], [1, 3, 2, 4, 5], [8, 6, 4, 4, 1]);
    SampleRepairs([1, 3, 2, 4, 5], [8, 6, 4, 4, 1]);
    LargeRiseUnrepairable([1, 2, 7, 8, 9]);
    LargeFallUnrepairable([9, 7, 6, 2, 1]);
    TallyOfSix([7, 6, 4, 2, 1], [1, 2, 7, 8, 9], [9, 7, 6, 2, 1], [1, 3, 2, 4, 5], [8, 6, 4, 4, 1], [1, 3, 6, 7, 9], false);
    TallyOfSix([7, 6, 4, 2, 1], [1, 2, 7, 8, 9], [9, 7, 6, 2, 1], [1, 3, 2, 4, 5], [8, 6, 4, 4, 1], [1, 3, 6, 7, 9], true);
  }

  /** Every report of one or two levels passes the dampener. */
  lemma ShortReports()
    ensures SafeByOne([1]) && SafeByOne([1, 2]) && SafeByOne([2, 1])
  {
    ShortReportSafeByOne([1]);
    ShortReportSafeByOne([1, 2]);
    ShortReportSafeByOne([2, 1]);
  }

  /** Removing the `5` repairs both of these reports. */
  lemma RepairedByRemoval(r: seq<int>, t: seq<int>)
    requires r == [1, 5, 2, 3] && t == [1, 2, 5, 3, 4]
    ensures SafeByOne(r) && SafeByOne(t)
  {
    assert StepsWithin(Without(r, 1), 1, 3);
    assert StepsWithin(Without(t, 2), 1, 3);
  }

  lemma ZigZagUnrepairable(r: seq<int>)
    requires r == [1, 5, 2, 6]
    ensures !SafeByOne(r)
  {
    UnsafeAt(r, 0, 0);
    forall i | 0 <= i < |r|
      ensures !Safe(Without(r, i))
    {
      var s := Without(r, i);
      if i == 0 {
        UnsafeAt(s, 0, 1);
      } else if i == 1 {
        UnsafeAt(s, 1, 0);
      } else if i == 2 {
        UnsafeAt(s, 0, 0);
      } else {
        UnsafeAt(s, 0, 0);
      }
    }
  }

  lemma RepeatedRunUnrepairable(r: seq<int>)
    requires r == [1, 2, 3, 1, 2, 3]
    ensures !SafeByOne(r)
  {
    UnsafeAt(r, 2, 0);
    forall i | 0 <= i < |r|
      ensures !Safe(Without(r, i))
    {
      var s := Without(r, i);
      if i == 0 {
        UnsafeAt(s, 1, 0);
      } else if i == 1 {
        UnsafeAt(s, 1, 0);
      } else if i == 2 {
        UnsafeAt(s, 1, 0);
      } else if i == 3 {
        UnsafeAt(s, 2, 0);
      } else if i == 4 {
        UnsafeAt(s, 2, 0);
      } else {
        UnsafeAt(s, 2, 0);
      }
    }
  }
}
