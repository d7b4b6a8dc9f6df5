/**
 Day 3, part 2: the `do()` / `don't()` filter. Starting enabled, the filter
 copies characters one at a time until it reads `don't()`, which it drops
 and which disables it; while disabled it drops everything up to and
 including the next `do()`, which enables it again. Part 2 runs the part 1
 scanner over the filtered text.
 */
module DoFilter {
  import opened MemoryScanner

  /**
   The characters the filter keeps from cursor `i` on, when it arrives
   there enabled (`enabled`) or disabled. Every step moves the cursor as
   `ReadString` leaves it.
   */
  function FilterFrom(m: string, i: nat, enabled: bool): (out: string)
    ensures i <= |m| ==> |out| <= |m| - i
    ensures i >= |m| ==> out == ""
    decreases |m| - i
  {
    if i >= |m| then ""
    else if enabled then
      var dont := ReadString(m, "don't()", i);
      if dont.value then FilterFrom(m, dont.next, false)
      else [m[i]] + FilterFrom(m, dont.next, true)
    else
      var go := ReadString(m, "do()", i);
      FilterFrom(m, go.next, go.value)
  }

  /** The text part 2 scans: the whole memory filtered from the enabled state. */
  function ExtractDo(m: string): string {
    FilterFrom(m, 0, true)
  }

  /** Part 2's answer: the multiplication sum of the pairs found in the filtered text. */
  function EnabledMultiplicationSum(m: string): nat {
    MultiplicationSum(ScanFrom(ExtractDo(m), 0))
  }

  /**
   The filter loop, with the cursor and the state as loop variables; the
   result is what `FilterFrom` describes.
   */
  method ExtractDoInstructions(m: string) returns (result: string)
    ensures result == ExtractDo(m)
    ensures |result| <= |m|
  {
    result := "";
    var i: nat := 0;
    var doState := true;
    while i < |m|
      invariant result + FilterFrom(m, i, doState) == ExtractDo(m)
      invariant i <= |m| ==> |result| <= i
      decreases |m| - i
    {
      if doState {
        var dont := ReadString(m, "don't()", i);
        if dont.value {
          doState := false;
          i := dont.next;
        } else {
          result := result + [m[i]];
          i := dont.next;
        }
      } else {
        var go := ReadString(m, "do()", i);
        i := go.next;
        if go.value {
          doState := true;
        }
      }
    }
  }

  // ---------------------------------------------------------------------
  // What the filter keeps.
  // ---------------------------------------------------------------------

  /** `a` can be obtained from `b` by deleting characters. */
  predicate SubsequenceOf(a: string, b: string)
    decreases |b|
  {
    if |a| == 0 then true
    else if |b| == 0 then false
    else (a[0] == b[0] && SubsequenceOf(a[1..], b[1..])) || SubsequenceOf(a, b[1..])
  }

  lemma {:induction false} SubsequenceOfSelf(a: string)
    ensures SubsequenceOf(a, a)
    decreases |a|
  {
    if |a| > 0 {
      SubsequenceOfSelf(a[1..]);
    }
  }

  /** Deleting a prefix of the larger text keeps a subsequence a subsequence. */
  lemma {:induction false} SubsequenceOfSuffix(a: string, b: string, n: nat)
    requires n <= |b| && SubsequenceOf(a, b[n..])
    ensures SubsequenceOf(a, b)
    decreases n
  {
    if n > 0 {
      assert b[1..][n - 1..] == b[n..];
      SubsequenceOfSuffix(a, b[1..], n - 1);
      if |a| > 0 {
        assert SubsequenceOf(a, b[1..]);
      }
    }
  }

  /** The filter only deletes: its output is a subsequence of the text it reads. */
  lemma {:induction false} FilterIsSubsequence(m: string, i: nat, enabled: bool)
    requires i <= |m|
    ensures SubsequenceOf(FilterFrom(m, i, enabled), m[i..])
    decreases |m| - i
  {
    if i < |m| {
      var next := if enabled then ReadString(m, "don't()", i).next else ReadString(m, "do()", i).next;
      var state := if enabled then !ReadString(m, "don't()", i).value else ReadString(m, "do()", i).value;
      var n: nat := next;
      FilterIsSubsequence(m, n, state);
      assert m[i..][n - i..] == m[n..];
      if enabled && state {
        assert n == i + 1;
        assert m[i..][0] == m[i] && m[i..][1..] == m[i + 1..];
      } else {
        SubsequenceOfSuffix(FilterFrom(m, i, enabled), m[i..], n - i);
      }
    }
  }

  /** No `don't()` starts at or after index `i` of `m`. */
  predicate NoDontFrom(m: string, i: nat) {
    forall j :: i <= j < |m| ==> !OccursAt(m, "don't()", j)
  }

  /** No `do()` starts at or after index `i` of `m`. */
  predicate NoDoFrom(m: string, i: nat) {
    forall j :: i <= j < |m| ==> !OccursAt(m, "do()", j)
  }

  /** Arriving enabled with no `don't()` ahead, the filter keeps everything. */
  lemma {:induction false} EnabledKeepsAll(m: string, i: nat)
    requires i <= |m| && NoDontFrom(m, i)
    ensures FilterFrom(m, i, true) == m[i..]
    decreases |m| - i
  {
    if i < |m| {
      assert !OccursAt(m, "don't()", i);
      EnabledKeepsAll(m, i + 1);
      assert m[i..] == [m[i]] + m[i + 1..];
    }
  }

  /** Arriving disabled with no `do()` ahead, the filter keeps nothing. */
  lemma {:induction false} DisabledDropsAll(m: string, i: nat)
    requires NoDoFrom(m, i)
    ensures FilterFrom(m, i, false) == ""
    decreases |m| - i
  {
    if i < |m| {
      assert !OccursAt(m, "do()", i);
      DisabledDropsAll(m, i + 1);
    }
  }

  /** A `don't()` read while enabled is dropped, and the filter goes on disabled after it. */
  lemma DontDisables(m: string, i: nat)
    requires OccursAt(m, "don't()", i)
    ensures FilterFrom(m, i, true) == FilterFrom(m, i + 7, false)
  {
    assert ReadString(m, "don't()", i) == Read(true, i + 7);
  }

  /** A `do()` read while disabled is dropped, and the filter goes on enabled after it. */
  lemma DoEnables(m: string, i: nat)
    requires OccursAt(m, "do()", i)
    ensures FilterFrom(m, i, false) == FilterFrom(m, i + 4, true)
  {
    assert ReadString(m, "do()", i) == Read(true, i + 4);
  }

  /** Arriving enabled, the filter copies a stretch in which no `don't()` starts. */
  lemma {:induction false} EnabledCopies(m: string, i: nat, j: nat)
    requires i <= j <= |m|
    requires forall k :: i <= k < j ==> !OccursAt(m, "don't()", k)
    ensures FilterFrom(m, i, true) == m[i..j] + FilterFrom(m, j, true)
    decreases j - i
  {
    if i < j {
      assert !OccursAt(m, "don't()", i);
      var rest := FilterFrom(m, j, true);
      calc {
        FilterFrom(m, i, true);
        [m[i]] + FilterFrom(m, i + 1, true);
        { EnabledCopies(m, i + 1, j); }
        [m[i]] + (m[i + 1..j] + rest);
        ([m[i]] + m[i + 1..j]) + rest;
        { assert m[i..j] == [m[i]] + m[i + 1..j]; }
        m[i..j] + rest;
      }
    }
  }

  /** Arriving disabled, the filter drops a stretch in which no `do()` starts. */
  lemma {:induction false} DisabledSkips(m: string, i: nat, j: nat)
    requires i <= j <= |m|
    requires forall k :: i <= k < j ==> !OccursAt(m, "do()", k)
    ensures FilterFrom(m, i, false) == FilterFrom(m, j, false)
    decreases j - i
  {
    if i < j {
      assert !OccursAt(m, "do()", i);
      DisabledSkips(m, i + 1, j);
    }
  }

  /** Arriving enabled, a `do()` is copied through as text like any other characters. */
  lemma DoCopiedThrough(m: string, i: nat)
    requires OccursAt(m, "do()", i)
    ensures FilterFrom(m, i, true) == "do()" + FilterFrom(m, i + 4, true)
  {
    assert m[i + 1] == "do()"[1] && m[i + 2] == "do()"[2] && m[i + 3] == "do()"[3];
    assert m[i + 1] != "don't()"[0] && m[i + 2] != "don't()"[0] && m[i + 3] != "don't()"[0];
    assert m[i + 2] != "don't()"[2];
    EnabledCopies(m, i, i + 4);
    assert m[i..i + 4] == "do()";
  }

  /** Without any `don't()`, the filter is the identity and part 2 agrees with part 1. */
  lemma NoDontMeansNoFilter(m: string)
    requires NoDontFrom(m, 0)
    ensures ExtractDo(m) == m
    ensures EnabledMultiplicationSum(m) == MultiplicationSum(ScanFrom(m, 0))
  {
    EnabledKeepsAll(m, 0);
    assert m[0..] == m;
  }
}
