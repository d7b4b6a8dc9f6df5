/**
 Day 2: safety of reactor reports. A report is a list of levels; it is
 safe when it is short, or when its levels all rise or all fall by steps
 of one to three. The dampened verdict also accepts a report that becomes
 safe once a single level is removed. The two counting loops tally the
 reports that pass each verdict.
 */
module Reports {

  function Abs(x: int): nat {
    if x < 0 then -x else x
  }

  /** Every step from one level to the next lies in [lo, hi]. */
  predicate StepsWithin(r: seq<int>, lo: int, hi: int) {
    forall k :: 0 <= k < |r| - 1 ==> lo <= r[k + 1] - r[k] <= hi
  }

  /**
   The safety rule: fewer than two levels, or all levels rising by one to
   three at each step, or all falling by one to three at each step.
   */
  predicate Safe(r: seq<int>) {
    |r| < 2 || StepsWithin(r, 1, 3) || StepsWithin(r, -3, -1)
  }

  /** The report with the level at index `i` removed. */
  function Without(r: seq<int>, i: nat): (s: seq<int>)
    requires i < |r|
    ensures |s| == |r| - 1
    ensures forall k :: 0 <= k < i ==> s[k] == r[k]
    ensures forall k :: i <= k < |s| ==> s[k] == r[k + 1]
  {
    r[..i] + r[i + 1..]
  }

  /** The dampened rule: safe, or safe once one level is removed. */
  predicate SafeByOne(r: seq<int>) {
    Safe(r) || exists i :: 0 <= i < |r| && Safe(Without(r, i))
  }

  // ---------------------------------------------------------------------
  // The checks as the code makes them: two monotonicity scans, then a
  // scan of the step sizes.
  // ---------------------------------------------------------------------

  /** No level is above the next one. */
  predicate NonDecreasing(r: seq<int>) {
    forall k :: 0 <= k < |r| - 1 ==> r[k] <= r[k + 1]
  }

  /** No level is below the next one. */
  predicate NonIncreasing(r: seq<int>) {
    forall k :: 0 <= k < |r| - 1 ==> r[k] >= r[k + 1]
  }

  /** Every step changes the level by one to three, up or down. */
  predicate GentleSteps(r: seq<int>) {
    forall k :: 0 <= k < |r| - 1 ==> 1 <= Abs(r[k] - r[k + 1]) <= 3
  }

  /**
   The code's three scans decide the safety rule: a monotone report whose
   steps all have size one to three moves in one direction by one to three.
   */
  lemma MonotoneGentleIsSafe(r: seq<int>)
    ensures Safe(r) <==> |r| < 2 || ((NonDecreasing(r) || NonIncreasing(r)) && GentleSteps(r))
  {
    if |r| >= 2 {
      if StepsWithin(r, 1, 3) || StepsWithin(r, -3, -1) {
        assert GentleSteps(r);
      }
      if NonDecreasing(r) && GentleSteps(r) {
        assert StepsWithin(r, 1, 3);
      }
      if NonIncreasing(r) && GentleSteps(r) {
        assert StepsWithin(r, -3, -1);
      }
    }
  }

  /** The first scan of the safety check: whether no level is above the next one. */
  method ScanNonDecreasing(report: seq<int>) returns (increasing: bool)
    ensures increasing <==> NonDecreasing(report)
  {
    increasing := true;
    var i := 0;
    while i < |report| - 1
      invariant 0 <= i <= |report|
      invariant increasing <==> forall k :: 0 <= k < i && k < |report| - 1 ==> report[k] <= report[k + 1]
    {
      if report[i] > report[i + 1] {
        increasing := false;
      }
      i := i + 1;
    }
  }

  /** The second scan of the safety check: whether no level is below the next one. */
  method ScanNonIncreasing(report: seq<int>) returns (decreasing: bool)
    ensures decreasing <==> NonIncreasing(report)
  {
    decreasing := true;
    var i := 0;
    while i < |report| - 1
      invariant 0 <= i <= |report|
      invariant decreasing <==> forall k :: 0 <= k < i && k < |report| - 1 ==> report[k] >= report[k + 1]
    {
      if report[i] < report[i + 1] {
        decreasing := false;
      }
      i := i + 1;
    }
  }

  /**
   The safety check: short reports pass; otherwise the report must be
   monotone, and a step of the wrong size ends the last scan early.
   */
  method IsSafeReport(report: seq<int>) returns (safe: bool)
    ensures |report| < 2 ==> safe
    ensures safe <==> Safe(report)
  {
    if |report| < 2 {
      return true;
    }
    var increasing := ScanNonDecreasing(report);
    var decreasing := ScanNonIncreasing(report);
    if !(increasing || decreasing) {
      MonotoneGentleIsSafe(report);
      return false;
    }
    var i := 0;
    while i < |report| - 1
      invariant 0 <= i <= |report| - 1
      invariant forall k :: 0 <= k < i ==> 1 <= Abs(report[k] - report[k + 1]) <= 3
    {
      var delta := Abs(report[i] - report[i + 1]);
      if delta < 1 || delta > 3 {
        assert !GentleSteps(report);
        MonotoneGentleIsSafe(report);
        return false;
      }
      i := i + 1;
    }
    assert GentleSteps(report);
    MonotoneGentleIsSafe(report);
    return true;
  }

  /**
   The dampened check: a short or safe report passes at once; otherwise
   each single removal is tried in turn, stopping at the first that is safe.
   */
  method IsSafeByOneReport(report: seq<int>) returns (safe: bool)
    ensures safe <==> SafeByOne(report)
  {
    if |report| < 2 {
      return true;
    }
    var whole := IsSafeReport(report);
    if whole {
      return true;
    }
    var i := 0;
    while i < |report|
      invariant 0 <= i <= |report|
      invariant forall k :: 0 <= k < i ==> !Safe(Without(report, k))
    {
      var modified := report[..i] + report[i + 1..];
      var ok := IsSafeReport(modified);
      if ok {
        assert Safe(Without(report, i));
        return true;
      }
      i := i + 1;
    }
    return false;
  }

  // ---------------------------------------------------------------------
  // What the verdicts imply.
  // ---------------------------------------------------------------------

  /** A safe report is strictly monotone: every later level is above, or every one below. */
  lemma {:induction false} SafeIsStrictlyMonotone(r: seq<int>)
    requires Safe(r)
    ensures (forall i, j :: 0 <= i < j < |r| ==> r[i] < r[j])
         || (forall i, j :: 0 <= i < j < |r| ==> r[i] > r[j])
  {
    if StepsWithin(r, 1, 3) {
      forall i, j | 0 <= i < j < |r|
        ensures r[i] < r[j]
      {
        RisesBetween(r, i, j);
      }
    } else if StepsWithin(r, -3, -1) {
      forall i, j | 0 <= i < j < |r|
        ensures r[i] > r[j]
      {
        FallsBetween(r, i, j);
      }
    } else {
      assert |r| < 2;
    }
  }

  lemma {:induction false} RisesBetween(r: seq<int>, i: nat, j: nat)
    requires StepsWithin(r, 1, 3) && i < j < |r|
    ensures r[i] < r[j]
    decreases j - i
  {
    assert r[j - 1] < r[j];
    if i < j - 1 {
      RisesBetween(r, i, j - 1);
    }
  }

  lemma {:induction false} FallsBetween(r: seq<int>, i: nat, j: nat)
    requires StepsWithin(r, -3, -1) && i < j < |r|
    ensures r[i] > r[j]
    decreases j - i
  {
    assert r[j - 1] > r[j];
    if i < j - 1 {
      FallsBetween(r, i, j - 1);
    }
  }

  /** Two equal neighbouring levels make a report unsafe. */
  lemma EqualNeighboursUnsafe(r: seq<int>, k: nat)
    requires k + 1 < |r| && r[k] == r[k + 1]
    ensures !Safe(r)
  {
    assert !(1 <= r[k + 1] - r[k]) && !(r[k + 1] - r[k] <= -1);
  }

  /** Removing the first level of a safe report leaves it safe. */
  lemma SafeWithoutFirst(r: seq<int>)
    requires Safe(r) && |r| >= 1
    ensures Safe(Without(r, 0))
  {
    var s := Without(r, 0);
    if |s| >= 2 {
      if StepsWithin(r, 1, 3) {
        assert forall k :: 0 <= k < |s| - 1 ==> s[k + 1] - s[k] == r[k + 2] - r[k + 1];
        assert StepsWithin(s, 1, 3);
      } else {
        assert forall k :: 0 <= k < |s| - 1 ==> s[k + 1] - s[k] == r[k + 2] - r[k + 1];
        assert StepsWithin(s, -3, -1);
      }
    }
  }

  /**
   The dampened rule needs no separate "already safe" case for a
   non-empty report: some single removal is safe exactly when the report
   is safe or can be made so.
   */
  lemma SafeByOneIsSomeRemoval(r: seq<int>)
    requires |r| >= 1
    ensures SafeByOne(r) <==> exists i :: 0 <= i < |r| && Safe(Without(r, i))
  {
    if Safe(r) {
      SafeWithoutFirst(r);
    }
  }

  /** Every report of at most two levels passes the dampened rule. */
  lemma ShortReportSafeByOne(r: seq<int>)
    requires |r| <= 2
    ensures SafeByOne(r)
  {
    if |r| == 2 {
      assert |Without(r, 0)| == 1;
      assert Safe(Without(r, 0));
    }
  }

  // ---------------------------------------------------------------------
  // Counting.
  // ---------------------------------------------------------------------

  /** The verdict one counting loop applies: the plain rule or the dampened one. */
  predicate Passes(r: seq<int>, dampened: bool) {
    if dampened then SafeByOne(r) else Safe(r)
  }

  /** How many of the reports pass, counting from the first to the last. */
  function Tally(rs: seq<seq<int>>, dampened: bool): (n: nat)
    ensures n <= |rs|
  {
    if |rs| == 0 then 0
    else Tally(rs[..|rs| - 1], dampened) + (if Passes(rs[|rs| - 1], dampened) then 1 else 0)
  }

  /** The indices of the reports that pass. */
  ghost function Passing(rs: seq<seq<int>>, dampened: bool): set<nat> {
    set k: nat | k < |rs| && Passes(rs[k], dampened)
  }

  /** The tally is the number of reports that pass. */
  lemma {:induction false} TallyCountsPassing(rs: seq<seq<int>>, dampened: bool)
    ensures Tally(rs, dampened) == |Passing(rs, dampened)|
  {
    if |rs| > 0 {
      var front := rs[..|rs| - 1];
      TallyCountsPassing(front, dampened);
      var last: nat := |rs| - 1;
      if Passes(rs[last], dampened) {
        assert Passing(rs, dampened) == Passing(front, dampened) + {last};
      } else {
        assert Passing(rs, dampened) == Passing(front, dampened);
      }
    } else {
      assert Passing(rs, dampened) == {};
    }
  }

  /** Fewer reports pass the plain rule than the dampened one, and no more than there are. */
  lemma {:induction false} TallyOrdered(rs: seq<seq<int>>)
    ensures Tally(rs, false) <= Tally(rs, true) <= |rs|
  {
    if |rs| > 0 {
      TallyOrdered(rs[..|rs| - 1]);
    }
  }

  /** The counting loop of part 1. */
  method CountSafeReports(reports: seq<seq<int>>) returns (count: nat)
    ensures count == Tally(reports, false)
    ensures count == |Passing(reports, false)|
  {
    count := 0;
    var i := 0;
    while i < |reports|
      invariant 0 <= i <= |reports|
      invariant count == Tally(reports[..i], false)
    {
      var safe := IsSafeReport(reports[i]);
      assert reports[..i + 1][..i] == reports[..i];
      if safe {
        count := count + 1;
      }
      i := i + 1;
    }
    assert reports[..i] == reports;
    TallyCountsPassing(reports, false);
  }

  /** The counting loop of part 2. */
  method CountSafeReportsByOne(reports: seq<seq<int>>) returns (count: nat)
    ensures count == Tally(reports, true)
    ensures count == |Passing(reports, true)|
  {
    count := 0;
    var i := 0;
    while i < |reports|
      invariant 0 <= i <= |reports|
      invariant count == Tally(reports[..i], true)
    {
      var safe := IsSafeByOneReport(reports[i]);
      assert reports[..i + 1][..i] == reports[..i];
      if safe {
        count := count + 1;
      }
      i := i + 1;
    }
    assert reports[..i] == reports;
    TallyCountsPassing(reports, true);
  }
}
