/**
 Worked inputs for the day 3 scanner and filter: the edge cases and sums
 the repository's tests list, and inputs where scanning as written differs
 from a reading that looks for every `mul(a,b)` substring.
 */
module ScannerExamples {
  import opened MemoryScanner
  import opened DoFilter

  /** Text without any `(` from cursor `i` on records nothing from any later cursor. */
  lemma NoParenNoPairs(m: string, i: nat)
    requires i <= |m| && '(' !in m[i..]
    ensures forall j :: i <= j ==> ScanFrom(m, j) == []
  {
    NoOpenerWithoutParen(m, i);
    forall j | i <= j
      ensures ScanFrom(m, j) == []
    {
      if j < |m| {
        SkipNoOpener(m, j, |m|);
      }
    }
  }

  /** Without a `(` from cursor `i` on, no `mul(` starts there. */
  lemma NoOpenerWithoutParen(m: string, i: nat)
    requires i <= |m| && '(' !in m[i..]
    ensures forall k :: i <= k < |m| ==> !OccursAt(m, "mul(", k)
  {
    assert "mul("[3] == '(';
    assert m[i..] == m[i..|m|];
    AbsentCharNoOccurrence(m, "mul(", 3, i, |m|);
  }

  /** A one-digit operand has that digit's value. */
  lemma SingleDigit(m: string, k: nat)
    requires k < |m| && IsDigit(m[k])
    ensures Operand(m, k, k + 1) == DigitValue(m[k])
  {
    var ds := m[k..k + 1];
    assert ds[0] == m[k];
    assert Decimal(ds[..0]) == 0;
  }

  lemma RejectedInputs()
    ensures ScanFrom("", 0) == []
    ensures ScanFrom("nomulhere", 0) == []
    ensures ScanFrom("mul[1,2]", 0) == []
  {
    NoParenNoPairs("nomulhere", 0);
    NoParenNoPairs("mul[1,2]", 0);
  }

  lemma UnclosedRejected(m: string)
    requires m == "mul(1,2]"
    ensures ScanFrom(m, 0) == []
  {
    assert m[7] == ']';
    assert !ReadString(m, ")", 7).value;
    SingleDigit(m, 4);
    OpenerPhase(m, 0);
    FirstOperandPhase(m, 4, 4, 5);
    CommaPhase(m, 5, 1);
    SecondOperandPhase(m, 6, 6, 7, 1);
    assert Attempt(m, 0) == Step(None, 8);
    ScanStep(m, 0);
  }

  lemma MissingOperandRejected(m: string)
    requires m == "mul(1)"
    ensures ScanFrom(m, 0) == []
  {
    assert m[5] == ')';
    assert !ReadString(m, ",", 5).value;
    OpenerPhase(m, 0);
    FirstOperandPhase(m, 4, 4, 5);
    assert Attempt(m, 0) == Step(None, 6);
    ScanStep(m, 0);
  }

  /** A third argument: the `)` read fails at the second `,` and no `(` follows. */
  lemma ExtraArgumentRejected(m: string)
    requires m == "mul(1,2,3)"
    ensures ScanFrom(m, 0) == []
  {
    assert m[7] == ',';
    assert !ReadString(m, ")", 7).value;
    SingleDigit(m, 4);
    OpenerPhase(m, 0);
    FirstOperandPhase(m, 4, 4, 5);
    CommaPhase(m, 5, 1);
    SecondOperandPhase(m, 6, 6, 7, 1);
    assert Attempt(m, 0) == Step(None, 8);
    ScanStep(m, 0);
    assert m[8..] == "3)";
    NoParenNoPairs(m, 8);
  }

  /**
   No first argument: the number read skips the `,` and takes the 2, and
   the `,` read then fails at the `)`.
   */
  lemma EmptyFirstArgumentRejected(m: string)
    requires m == "mul(,2)"
    ensures ScanFrom(m, 0) == []
  {
    assert m[4] == ',' && m[6] == ')';
    assert !ReadString(m, ",", 6).value;
    OpenerPhase(m, 0);
    FirstOperandPhase(m, 4, 5, 6);
    assert Attempt(m, 0) == Step(None, 7);
    ScanStep(m, 0);
  }

  /** No second argument: the number read finds no digit before the end. */
  lemma EmptySecondArgumentRejected(m: string)
    requires m == "mul(1,)"
    ensures ScanFrom(m, 0) == []
  {
    assert m[6] == ')';
    assert NoDigitIn(m, 6, 7);
    assert ReadNumber(m, 6).value.None?;
    OpenerPhase(m, 0);
    FirstOperandPhase(m, 4, 4, 5);
    CommaPhase(m, 5, 1);
    assert Attempt(m, 0) == Step(None, 7);
    ScanStep(m, 0);
  }

  /** A first operand of four digits: the number stops after three and the fourth is not the `,`. */
  lemma OverlongFirstOperand(m: string, i: nat)
    requires OccursAt(m, "mul(", i) && i + 8 <= |m| && AllDigitsIn(m, i + 4, i + 8)
    ensures Attempt(m, i) == Step(None, i + 8)
  {
    assert IsDigit(m[i + 7]);
    assert DigitRun(m, i + 4, 3) == 3;
    OpenerPhase(m, i);
  }

  /** A second operand of four digits: the number stops after three and the fourth is not the `)`. */
  lemma OverlongSecondOperand(m: string, i: nat, e1: nat)
    requires OccursAt(m, "mul(", i) && i + 4 < e1 && e1 - (i + 4) <= 3 && e1 + 5 <= |m|
    requires AllDigitsIn(m, i + 4, e1) && m[e1] == ','
    requires AllDigitsIn(m, e1 + 1, e1 + 5)
    ensures Attempt(m, i) == Step(None, e1 + 5)
  {
    assert IsDigit(m[e1 + 4]);
    assert !ReadString(m, ")", e1 + 4).value;
    assert DigitRun(m, e1 + 1, 3) == 3;
    var a := Operand(m, i + 4, e1);
    OpenerPhase(m, i);
    FirstOperandPhase(m, i + 4, i + 4, e1);
    CommaPhase(m, e1, a);
  }

  lemma LongFirstOperandRejected(m: string)
    requires m == "mul(1234,2)"
    ensures ScanFrom(m, 0) == []
  {
    OverlongFirstOperand(m, 0);
    ScanStep(m, 0);
    assert m[8..] == ",2)";
    NoParenNoPairs(m, 8);
  }

  lemma LongSecondOperandRejected(m: string)
    requires m == "mul(1,2345)"
    ensures ScanFrom(m, 0) == []
  {
    OverlongSecondOperand(m, 0, 5);
    ScanStep(m, 0);
    assert m[10..] == ")";
    NoParenNoPairs(m, 10);
  }

  /** A single well-formed instruction filling the text from `i` on is recorded alone. */
  lemma SoleInstruction(m: string, i: nat, p: MulPair)
    requires p.left <= 999 && p.right <= 999
    requires i <= |m| && m[i..] == Render(p)
    ensures ScanFrom(m, i) == [p]
  {
    assert RenderAll([p]) == Render(p) + RenderAll([]);
    RenderAllRoundTrip(m, i, [p]);
  }

  /**
   Two instructions with text between them that holds no `m` are both
   recorded: the scan moves over that text one character at a time.
   */
  lemma {:induction false} PairsAround(m: string, p: MulPair, noise: string, q: MulPair)
    requires p.left <= 999 && p.right <= 999 && q.left <= 999 && q.right <= 999
    requires 'm' !in noise
    requires m == Render(p) + noise + Render(q)
    ensures ScanFrom(m, 0) == [p, q]
  {
    var i := |Render(p)|;
    var j := i + |noise|;
    assert m[0..] == Render(p) + (noise + Render(q));
    SplitSuffix(m, 0, Render(p), noise + Render(q));
    RenderedIsRecorded(m, 0, p);
    ScanStep(m, 0);
    SplitSuffix(m, i, noise, Render(q));
    AbsentCharNoOccurrence(m, "mul(", 0, i, j);
    SkipNoOpener(m, i, j);
    SoleInstruction(m, j, q);
  }

  lemma SmallPairsRendered()
    ensures Render(MulPair(1, 2)) == "mul(1,2)" && Render(MulPair(3, 4)) == "mul(3,4)"
  {
  }

  /** Two instructions, back to back and with other text between them, give both pairs. */
  lemma TwoInstructions(m: string, t: string)
    requires m == "mul(1,2)mul(3,4)" && t == "mul(1,2)invalidmul(3,4)"
    ensures ScanFrom(m, 0) == [MulPair(1, 2), MulPair(3, 4)]
    ensures ScanFrom(t, 0) == [MulPair(1, 2), MulPair(3, 4)]
  {
    SmallPairsRendered();
    BackToBackLayout(m);
    PairsAround(m, MulPair(1, 2), "", MulPair(3, 4));
    NoiseBetweenLayout(t);
    PairsAround(t, MulPair(1, 2), "invalid", MulPair(3, 4));
  }

  lemma BackToBackLayout(m: string)
    requires m == "mul(1,2)mul(3,4)"
    ensures m == "mul(1,2)" + "" + "mul(3,4)"
  {
  }

  lemma NoiseBetweenLayout(t: string)
    requires t == "mul(1,2)invalidmul(3,4)"
    ensures t == "mul(1,2)" + "invalid" + "mul(3,4)"
  {
  }

  lemma ZeroOperandSum(m: string)
    requires m == "mul(0,5)"
    ensures MultiplicationSum(ScanFrom(m, 0)) == 0
  {
    assert MultiplicationSum([MulPair(0, 5)]) == 0;
    assert Render(MulPair(0, 5)) == "mul(0,5)";
    assert m[0..] == m;
    SoleInstruction(m, 0, MulPair(0, 5));
  }

  lemma ThreeDigitSum(m: string)
    requires m == "mul(100,100)"
    ensures MultiplicationSum(ScanFrom(m, 0)) == 10000
  {
    assert MultiplicationSum([MulPair(100, 100)]) == 10000;
    assert Numeral(100) == "100";
    assert Render(MulPair(100, 100)) == "mul(100,100)";
    assert m[0..] == m;
    SoleInstruction(m, 0, MulPair(100, 100));
  }

  lemma ThreeDigitOperands(m: string)
    requires m == "mul(123,456)"
    ensures ScanFrom(m, 0) == [MulPair(123, 456)]
  {
    assert Numeral(123) == "123" && Numeral(456) == "456";
    assert Render(MulPair(123, 456)) == "mul(123,456)";
    assert m[0..] == m;
    SoleInstruction(m, 0, MulPair(123, 456));
  }

  lemma SmallSums(m: string, t: string)
    requires m == "mul(1,1)" && t == "mul(10,10)"
    ensures MultiplicationSum(ScanFrom(m, 0)) == 1
    ensures MultiplicationSum(ScanFrom(t, 0)) == 100
  {
    assert MultiplicationSum([MulPair(1, 1)]) == 1;
    assert MultiplicationSum([MulPair(10, 10)]) == 100;
    assert Numeral(10) == "10";
    assert Render(MulPair(1, 1)) == "mul(1,1)" && Render(MulPair(10, 10)) == "mul(10,10)";
    assert m[0..] == m && t[0..] == t;
    SoleInstruction(m, 0, MulPair(1, 1));
    SoleInstruction(t, 0, MulPair(10, 10));
  }

  /** `ReadNumber` skips the `x`, so an operand may be preceded by non-digits. */
  lemma SkippedPrefixAccepted(m: string)
    requires m == "mul(x1,2)"
    ensures ScanFrom(m, 0) == [MulPair(1, 2)]
  {
    SingleDigit(m, 5);
    SingleDigit(m, 7);
    ShapeIsRecorded(m, 0, 5, 6, 7, 8);
    ScanStep(m, 0);
  }

  /**
   The second `ReadNumber` skips `mul(` and takes the 2; the `)` read then
   fails at the `,` and scanning resumes after it, so the well-formed
   `mul(2,3)` starting at index 6 is never recorded.
   */
  lemma NestedInstructionMissed(m: string)
    requires m == "mul(1,mul(2,3)"
    ensures OccursAt(m, "mul(2,3)", 6)
    ensures ScanFrom(m, 0) == []
  {
    NestedAttempt(m);
    ScanStep(m, 0);
    assert m[12..] == "3)";
    NoParenNoPairs(m, 12);
  }

  /** The one iteration at index 0 of the text above, which ends at index 12 with nothing recorded. */
  lemma NestedAttempt(m: string)
    requires m == "mul(1,mul(2,3)"
    ensures Attempt(m, 0) == Step(None, 12)
  {
    NestedOpening(m);
    NestedSecond(m);
  }

  /** `mul(1,` is read: the first operand is 1. */
  lemma NestedOpening(m: string)
    requires m == "mul(1,mul(2,3)"
    ensures Attempt(m, 0) == Iterate(m, 6, ExpectSecond(1))
  {
    SingleDigit(m, 4);
    OpenerPhase(m, 0);
    FirstOperandPhase(m, 4, 4, 5);
    CommaPhase(m, 5, 1);
  }

  /** The second number read skips `mul(` and takes the `2`; the `,` after it is no `)`. */
  lemma NestedSecond(m: string)
    requires m == "mul(1,mul(2,3)"
    ensures Iterate(m, 6, ExpectSecond(1)) == Step(None, 12)
  {
    SecondOperandPhase(m, 6, 10, 11, 1);
    CloseMissing(m, 11, 1, Operand(m, 10, 11));
  }

  /**
   Part 2 filters first and scans afterwards, so text on both sides of a
   disabled stretch is joined: here part 1 finds nothing, yet the filtered
   text is `mul(1,2)` and part 2 counts it.
   */
  lemma SplicedAcrossDisabledText(m: string)
    requires m == "mul(1don't()do(),2)"
    ensures ScanFrom(m, 0) == []
    ensures ExtractDo(m) == "mul(1,2)"
    ensures EnabledMultiplicationSum(m) == 2
  {
    SplicedScan(m);
    SplicedFilter(m);
    var f := ExtractDo(m);
    assert Render(MulPair(1, 2)) == "mul(1,2)";
    assert f[0..] == f;
    SoleInstruction(f, 0, MulPair(1, 2));
    assert MultiplicationSum([MulPair(1, 2)]) == 2;
  }

  /** Part 1 on the text above: the `,` read fails at the `d`, and no `m` follows. */
  lemma SplicedScan(m: string)
    requires m == "mul(1don't()do(),2)"
    ensures ScanFrom(m, 0) == []
  {
    assert m[6..|m|] == "on't()do(),2)";
    AbsentCharNoOccurrence(m, "mul(", 0, 6, |m|);
    SkipNoOpener(m, 6, |m|);
    SplicedAttempt(m);
    ScanStep(m, 0);
  }

  lemma SplicedAttempt(m: string)
    requires m == "mul(1don't()do(),2)"
    ensures Attempt(m, 0) == Step(None, 6)
  {
    assert m[5] == 'd';
    assert !ReadString(m, ",", 5).value;
    OpenerPhase(m, 0);
    FirstOperandPhase(m, 4, 4, 5);
  }

  /** The filter on the text above keeps `mul(1`, drops `don't()do()`, and keeps `,2)`. */
  lemma SplicedFilter(m: string)
    requires m == "mul(1don't()do(),2)"
    ensures ExtractDo(m) == "mul(1,2)"
  {
    assert m[0..8] == "mul(1don";
    AbsentCharNoOccurrence(m, "don't()", 3, 0, 8);
    EnabledCopies(m, 0, 5);
    DontDisables(m, 5);
    DoEnables(m, 12);
    EnabledKeepsAll(m, 16);
    assert m[0..5] == "mul(1" && m[16..] == ",2)";
  }

  /** The repository's one-instruction case: `mul(1,2)` is recorded, and sums to 2. */
  lemma SingleInstruction(m: string)
    requires m == "mul(1,2)"
    ensures ScanFrom(m, 0) == [MulPair(1, 2)]
    ensures MultiplicationSum(ScanFrom(m, 0)) == 2
  {
    SmallPairsRendered();
    assert m[0..] == m;
    SoleInstruction(m, 0, MulPair(1, 2));
    assert MultiplicationSum([MulPair(1, 2)]) == 2;
  }

  /** Texts without any instruction sum to 0. */
  lemma NoInstructionSums()
    ensures MultiplicationSum(ScanFrom("", 0)) == 0
    ensures MultiplicationSum(ScanFrom("nomulhere", 0)) == 0
  {
    RejectedInputs();
  }

  /**
   The sample corrupted memory the repository's tests use,
   `xmul(2,4)%&mul[3,7]!@^do_not_mul(5,5)+mul(32,64]then(mul(11,8)mul(8,5))`,
   written as the pieces the scan moves through.
   */
  function SampleMemory(): string {
    "x" + ("mul(2,4)" + ("%&" + ("m" + ("ul[" + ("3,7]!@^do_not_" + SampleTail())))))
  }

  /** A well-formed instruction at the head of the text from `i` is what the iteration there records. */
  lemma RenderedAhead(m: string, i: nat, p: MulPair, rest: string)
    requires p.left <= 999 && p.right <= 999
    requires i <= |m| && m[i..] == Render(p) + rest
    ensures Attempt(m, i) == Step(Some(p), i + |Render(p)|)
    ensures m[i + |Render(p)|..] == rest
  {
    SplitSuffix(m, i, Render(p), rest);
    RenderedIsRecorded(m, i, p);
  }

  /** No `mul(` starts in text without an `m`. */
  lemma NoiseAhead(m: string, i: nat, noise: string, rest: string)
    requires 'm' !in noise
    requires i <= |m| && m[i..] == noise + rest
    ensures forall k :: i <= k < i + |noise| ==> !OccursAt(m, "mul(", k)
    ensures m[i + |noise|..] == rest
  {
    var j := i + |noise|;
    SplitSuffix(m, i, noise, rest);
    assert m[i..j] == noise;
    AbsentCharNoOccurrence(m, "mul(", 0, i, j);
  }

  /** `mul[` is not an opener. */
  lemma BracketAhead(m: string, i: nat, rest: string)
    requires i <= |m| && m[i..] == "m" + ("ul[" + rest)
    ensures !OccursAt(m, "mul(", i)
    ensures m[i + 1..] == "ul[" + rest
  {
    SplitSuffix(m, i, "m", "ul[" + rest);
    SplitSuffix(m, i + 1, "ul[", rest);
    assert m[i + 3] == m[i + 1..i + 4][2] == '[';
    assert m[i + 3] != "mul("[3];
  }

  /** `mul(32,64]` fails at its `]`, and the iteration ends just after it. */
  lemma UnclosedAhead(m: string, i: nat, rest: string)
    requires i <= |m| && m[i..] == "mul(32,64]" + rest
    ensures Attempt(m, i) == Step(None, i + 10)
    ensures m[i + 10..] == rest
  {
    var w := "mul(32,64]";
    SplitSuffix(m, i, w, rest);
    assert m[i..i + 4] == "mul(";
    SliceOccurs(m, "mul(", i);
    OpenerPhase(m, i);
    assert m[i + 4] == w[4] && m[i + 5] == w[5] && m[i + 6] == w[6];
    FirstOperandPhase(m, i + 4, i + 4, i + 6);
    CommaPhase(m, i + 6, Operand(m, i + 4, i + 6));
    assert m[i + 7] == w[7] && m[i + 8] == w[8] && m[i + 9] == w[9];
    SecondOperandPhase(m, i + 7, i + 7, i + 9, Operand(m, i + 4, i + 6));
    CloseMissing(m, i + 9, Operand(m, i + 4, i + 6), Operand(m, i + 7, i + 9));
  }

  /** The sample's text after the `mul(5,5)` that ends `do_not_mul(5,5)` begins. */
  function SampleTail(): string {
    "mul(5,5)" + ("+" + ("mul(32,64]" + ("then(" + ("mul(11,8)" + ("mul(8,5)" + ")")))))
  }

  /** `x`, then `mul(2,4)`. */
  lemma SampleOpening(m: string)
    requires m == SampleMemory()
    ensures forall k :: 0 <= k < 1 ==> !OccursAt(m, "mul(", k)
    ensures Attempt(m, 1) == Step(Some(MulPair(2, 4)), 9)
    ensures m[9..] == "%&" + ("m" + ("ul[" + ("3,7]!@^do_not_" + SampleTail())))
  {
    var rest := "%&" + ("m" + ("ul[" + ("3,7]!@^do_not_" + SampleTail())));
    assert m[0..] == "x" + ("mul(2,4)" + rest);
    NoiseAhead(m, 0, "x", "mul(2,4)" + rest);
    assert Render(MulPair(2, 4)) == "mul(2,4)";
    RenderedAhead(m, 1, MulPair(2, 4), rest);
  }

  /** `%&mul[3,7]!@^do_not_` holds no `mul(`. */
  lemma SampleBrackets(m: string)
    requires 9 <= |m| && m[9..] == "%&" + ("m" + ("ul[" + ("3,7]!@^do_not_" + SampleTail())))
    ensures forall k :: 9 <= k < 29 ==> !OccursAt(m, "mul(", k)
    ensures m[29..] == SampleTail()
  {
    var tail := SampleTail();
    NoiseAhead(m, 9, "%&", "m" + ("ul[" + ("3,7]!@^do_not_" + tail)));
    BracketAhead(m, 11, "3,7]!@^do_not_" + tail);
    NoiseAhead(m, 12, "ul[", "3,7]!@^do_not_" + tail);
    NoiseAhead(m, 15, "3,7]!@^do_not_", tail);
  }

  /** `mul(5,5)`, then `+`. */
  lemma SampleInsideWord(m: string)
    requires 29 <= |m| && m[29..] == SampleTail()
    ensures Attempt(m, 29) == Step(Some(MulPair(5, 5)), 37)
    ensures forall k :: 37 <= k < 38 ==> !OccursAt(m, "mul(", k)
    ensures m[38..] == "mul(32,64]" + ("then(" + ("mul(11,8)" + ("mul(8,5)" + ")")))
  {
    assert Render(MulPair(5, 5)) == "mul(5,5)";
    RenderedAhead(m, 29, MulPair(5, 5), "+" + ("mul(32,64]" + ("then(" + ("mul(11,8)" + ("mul(8,5)" + ")")))));
    NoiseAhead(m, 37, "+", "mul(32,64]" + ("then(" + ("mul(11,8)" + ("mul(8,5)" + ")"))));
  }

  /** `mul(32,64]` rejected, then `then(`. */
  lemma SampleUnclosed(m: string)
    requires 38 <= |m| && m[38..] == "mul(32,64]" + ("then(" + ("mul(11,8)" + ("mul(8,5)" + ")")))
    ensures Attempt(m, 38) == Step(None, 48)
    ensures forall k :: 48 <= k < 53 ==> !OccursAt(m, "mul(", k)
    ensures m[53..] == "mul(11,8)" + ("mul(8,5)" + ")")
  {
    UnclosedAhead(m, 38, "then(" + ("mul(11,8)" + ("mul(8,5)" + ")")));
    NoiseAhead(m, 48, "then(", "mul(11,8)" + ("mul(8,5)" + ")"));
  }

  /** `mul(11,8)`, `mul(8,5)`, and the final `)`. */
  lemma SampleClosing(m: string)
    requires 53 <= |m| && m[53..] == "mul(11,8)" + ("mul(8,5)" + ")")
    ensures Attempt(m, 53) == Step(Some(MulPair(11, 8)), 62)
    ensures Attempt(m, 62) == Step(Some(MulPair(8, 5)), 70)
    ensures |m| == 71 && forall k :: 70 <= k < 71 ==> !OccursAt(m, "mul(", k)
  {
    assert Numeral(11) == "11";
    assert Render(MulPair(11, 8)) == "mul(11,8)" && Render(MulPair(8, 5)) == "mul(8,5)";
    RenderedAhead(m, 53, MulPair(11, 8), "mul(8,5)" + ")");
    RenderedAhead(m, 62, MulPair(8, 5), ")");
    NoiseAhead(m, 70, ")", "");
  }

  /** An iteration that records `p` and ends at `j`: the scan lists `p`, then goes on from `j`. */
  lemma ScanRecords(m: string, i: nat, p: MulPair, j: nat)
    requires i < |m| && Attempt(m, i) == Step(Some(p), j)
    ensures ScanFrom(m, i) == [p] + ScanFrom(m, j)
  {
    ScanStep(m, i);
  }

  /** An iteration that records nothing and ends at `j`: the scan goes on from `j`. */
  lemma ScanFails(m: string, i: nat, j: nat)
    requires i < |m| && Attempt(m, i) == Step(None, j)
    ensures ScanFrom(m, i) == ScanFrom(m, j)
  {
    ScanStep(m, i);
  }

  /** The scan over the sample's first 29 characters. */
  lemma SampleChainFront(m: string)
    requires |m| == 71
    requires forall k :: 0 <= k < 1 ==> !OccursAt(m, "mul(", k)
    requires Attempt(m, 1) == Step(Some(MulPair(2, 4)), 9)
    requires forall k :: 9 <= k < 29 ==> !OccursAt(m, "mul(", k)
    ensures ScanFrom(m, 0) == [MulPair(2, 4)] + ScanFrom(m, 29)
  {
    SkipNoOpener(m, 0, 1);
    ScanRecords(m, 1, MulPair(2, 4), 9);
    SkipNoOpener(m, 9, 29);
  }

  /** The scan over the sample from index 29 to index 53. */
  lemma SampleChainMiddle(m: string)
    requires |m| == 71
    requires Attempt(m, 29) == Step(Some(MulPair(5, 5)), 37)
    requires forall k :: 37 <= k < 38 ==> !OccursAt(m, "mul(", k)
    requires Attempt(m, 38) == Step(None, 48)
    requires forall k :: 48 <= k < 53 ==> !OccursAt(m, "mul(", k)
    ensures ScanFrom(m, 29) == [MulPair(5, 5)] + ScanFrom(m, 53)
  {
    ScanRecords(m, 29, MulPair(5, 5), 37);
    SkipNoOpener(m, 37, 38);
    ScanFails(m, 38, 48);
    SkipNoOpener(m, 48, 53);
  }

  /** The scan over the sample from index 53 to the end. */
  lemma SampleChainBack(m: string)
    requires |m| == 71
    requires Attempt(m, 53) == Step(Some(MulPair(11, 8)), 62)
    requires Attempt(m, 62) == Step(Some(MulPair(8, 5)), 70)
    requires forall k :: 70 <= k < 71 ==> !OccursAt(m, "mul(", k)
    ensures ScanFrom(m, 53) == [MulPair(11, 8), MulPair(8, 5)]
  {
    ScanRecords(m, 53, MulPair(11, 8), 62);
    ScanRecords(m, 62, MulPair(8, 5), 70);
    SkipNoOpener(m, 70, 71);
  }

  /** What each iteration over the sample finds, read off the sample's pieces. */
  lemma SampleFacts(m: string)
    requires m == SampleMemory()
    ensures |m| == 71
    ensures forall k :: 0 <= k < 1 ==> !OccursAt(m, "mul(", k)
    ensures Attempt(m, 1) == Step(Some(MulPair(2, 4)), 9)
    ensures forall k :: 9 <= k < 29 ==> !OccursAt(m, "mul(", k)
    ensures Attempt(m, 29) == Step(Some(MulPair(5, 5)), 37)
    ensures forall k :: 37 <= k < 38 ==> !OccursAt(m, "mul(", k)
    ensures Attempt(m, 38) == Step(None, 48)
    ensures forall k :: 48 <= k < 53 ==> !OccursAt(m, "mul(", k)
    ensures Attempt(m, 53) == Step(Some(MulPair(11, 8)), 62)
    ensures Attempt(m, 62) == Step(Some(MulPair(8, 5)), 70)
    ensures forall k :: 70 <= k < 71 ==> !OccursAt(m, "mul(", k)
  {
    SampleOpening(m);
    SampleBrackets(m);
    SampleInsideWord(m);
    SampleUnclosed(m);
    SampleClosing(m);
  }

  /**
   The scan records the `mul(5,5)` at the end of `do_not_mul(5,5)` like
   any other instruction, so Part 1 on the sample sums to 161.
   */
  lemma SampleScan(m: string)
    requires m == SampleMemory()
    ensures ScanFrom(m, 0) == [MulPair(2, 4), MulPair(5, 5), MulPair(11, 8), MulPair(8, 5)]
    ensures MultiplicationSum(ScanFrom(m, 0)) == 161
  {
    SampleFacts(m);
    SampleChainFront(m);
    SampleChainMiddle(m);
    SampleChainBack(m);
    SampleSum();
  }

  /** 2*4 + 5*5 + 11*8 + 8*5. */
  lemma SampleSum()
    ensures MultiplicationSum([MulPair(2, 4), MulPair(5, 5), MulPair(11, 8), MulPair(8, 5)]) == 161
  {
    MultiplicationSumAppend([MulPair(2, 4)], [MulPair(5, 5), MulPair(11, 8), MulPair(8, 5)]);
    MultiplicationSumAppend([MulPair(5, 5)], [MulPair(11, 8), MulPair(8, 5)]);
    MultiplicationSumAppend([MulPair(11, 8)], [MulPair(8, 5)]);
  }

  /**
   The part 2 sample memory,
   `xmul(2,4)&mul[3,7]!^don't()_mul(5,5)+mul(32,64](mul(11,8)undo()?mul(8,5))`,
   written as the pieces the filter moves through.
   */
  function DisabledSample(): string {
    FilterHead() + ("don't()" + (DisabledStretch() + ("do()" + FilterTail())))
  }

  /** The 20 characters before the sample's `don't()`. */
  function FilterHead(): string {
    "x" + ("mul(2,4)" + ("&" + ("m" + ("ul[" + "3,7]!^"))))
  }

  /** What the sample's `don't()` disables, up to the `do()` that ends `undo()`. */
  function DisabledStretch(): string {
    "_mul(5,5)+mul(32,64](mul(11,8)un"
  }

  /** The 10 characters after the `do()`. */
  function FilterTail(): string {
    "?" + ("mul(8,5)" + ")")
  }

  /** The filter copies the head, in which no `don't()` starts. */
  lemma DisabledSampleHead(m: string)
    requires m == DisabledSample()
    ensures FilterFrom(m, 0, true) == FilterHead() + FilterFrom(m, 20, true)
    ensures m[20..] == "don't()" + (DisabledStretch() + ("do()" + FilterTail()))
  {
    var rest := "don't()" + (DisabledStretch() + ("do()" + FilterTail()));
    assert m[0..] == FilterHead() + rest;
    SplitSuffix(m, 0, FilterHead(), rest);
    assert 'd' !in FilterHead();
    AbsentCharNoOccurrence(m, "don't()", 0, 0, 20);
    EnabledCopies(m, 0, 20);
  }

  /**
   `don't()` disables the filter, the stretch up to `undo()` is dropped, and
   the `do()` at the end of `undo()` enables it again.
   */
  lemma DisabledSampleMiddle(m: string)
    requires 20 <= |m| && m[20..] == "don't()" + (DisabledStretch() + ("do()" + FilterTail()))
    ensures FilterFrom(m, 20, true) == FilterFrom(m, 63, true)
    ensures m[63..] == FilterTail()
  {
    SplitSuffix(m, 20, "don't()", DisabledStretch() + ("do()" + FilterTail()));
    SliceOccurs(m, "don't()", 20);
    DontDisables(m, 20);
    DisabledStretchSkipped(m);
  }

  /** The stretch after `don't()` holds no `do()` and is dropped; the `do()` after it enables again. */
  lemma DisabledStretchSkipped(m: string)
    requires 27 <= |m| && m[27..] == DisabledStretch() + ("do()" + FilterTail())
    ensures FilterFrom(m, 27, false) == FilterFrom(m, 63, true)
    ensures m[63..] == FilterTail()
  {
    SplitSuffix(m, 27, DisabledStretch(), "do()" + FilterTail());
    assert 'd' !in DisabledStretch();
    AbsentCharNoOccurrence(m, "do()", 0, 27, 59);
    DisabledSkips(m, 27, 59);
    DoAfterStretch(m);
  }

  lemma DoAfterStretch(m: string)
    requires 59 <= |m| && m[59..] == "do()" + FilterTail()
    ensures FilterFrom(m, 59, false) == FilterFrom(m, 63, true)
    ensures m[63..] == FilterTail()
  {
    SplitSuffix(m, 59, "do()", FilterTail());
    SliceOccurs(m, "do()", 59);
    DoEnables(m, 59);
  }

  /** The tail holds no `don't()`, so the filter copies it. */
  lemma DisabledSampleTail(m: string)
    requires 63 <= |m| && m[63..] == FilterTail()
    ensures FilterFrom(m, 63, true) == FilterTail()
  {
    assert m[63..|m|] == m[63..];
    assert 'd' !in FilterTail();
    AbsentCharNoOccurrence(m, "don't()", 0, 63, |m|);
    EnabledKeepsAll(m, 63);
  }

  /** The text part 2 scans on the sample: the head and the tail, joined. */
  function FilteredText(): string {
    "x" + ("mul(2,4)" + ("&" + ("m" + ("ul[" + ("3,7]!^" + FilterTail())))))
  }

  lemma Reassociate(a: string, b: string, c: string)
    ensures (a + b) + c == a + (b + c)
  {
  }

  /** The filter keeps the head and the tail of the part 2 sample and drops the rest. */
  lemma DisabledSampleFilter(m: string)
    requires m == DisabledSample()
    ensures ExtractDo(m) == FilteredText()
  {
    DisabledSampleHead(m);
    DisabledSampleMiddle(m);
    DisabledSampleTail(m);
    var t := FilterTail();
    Reassociate("x", "mul(2,4)" + ("&" + ("m" + ("ul[" + "3,7]!^"))), t);
    Reassociate("mul(2,4)", "&" + ("m" + ("ul[" + "3,7]!^")), t);
    Reassociate("&", "m" + ("ul[" + "3,7]!^"), t);
    Reassociate("m", "ul[" + "3,7]!^", t);
    Reassociate("ul[", "3,7]!^", t);
  }

  /** `x`, then `mul(2,4)`. */
  lemma FilteredFront(f: string)
    requires f == FilteredText()
    ensures forall k :: 0 <= k < 1 ==> !OccursAt(f, "mul(", k)
    ensures Attempt(f, 1) == Step(Some(MulPair(2, 4)), 9)
    ensures f[9..] == "&" + ("m" + ("ul[" + ("3,7]!^" + FilterTail())))
  {
    var rest := "&" + ("m" + ("ul[" + ("3,7]!^" + FilterTail())));
    assert f[0..] == "x" + ("mul(2,4)" + rest);
    NoiseAhead(f, 0, "x", "mul(2,4)" + rest);
    assert Render(MulPair(2, 4)) == "mul(2,4)";
    RenderedAhead(f, 1, MulPair(2, 4), rest);
  }

  /** `&mul[3,7]!^?` holds no `mul(`. */
  lemma FilteredMiddle(f: string)
    requires 9 <= |f| && f[9..] == "&" + ("m" + ("ul[" + ("3,7]!^" + FilterTail())))
    ensures forall k :: 9 <= k < 21 ==> !OccursAt(f, "mul(", k)
    ensures f[21..] == "mul(8,5)" + ")"
  {
    var tail := FilterTail();
    NoiseAhead(f, 9, "&", "m" + ("ul[" + ("3,7]!^" + tail)));
    BracketAhead(f, 10, "3,7]!^" + tail);
    NoiseAhead(f, 11, "ul[", "3,7]!^" + tail);
    NoiseAhead(f, 14, "3,7]!^", tail);
    NoiseAhead(f, 20, "?", "mul(8,5)" + ")");
  }

  /** `mul(8,5)`, then the final `)`. */
  lemma FilteredBack(f: string)
    requires 21 <= |f| && f[21..] == "mul(8,5)" + ")"
    ensures Attempt(f, 21) == Step(Some(MulPair(8, 5)), 29)
    ensures |f| == 30 && forall k :: 29 <= k < 30 ==> !OccursAt(f, "mul(", k)
  {
    assert Render(MulPair(8, 5)) == "mul(8,5)";
    RenderedAhead(f, 21, MulPair(8, 5), ")");
    NoiseAhead(f, 29, ")", "");
  }

  /** The scan over the filtered sample, from what each iteration finds. */
  lemma FilteredChain(f: string)
    requires |f| == 30
    requires forall k :: 0 <= k < 1 ==> !OccursAt(f, "mul(", k)
    requires Attempt(f, 1) == Step(Some(MulPair(2, 4)), 9)
    requires forall k :: 9 <= k < 21 ==> !OccursAt(f, "mul(", k)
    requires Attempt(f, 21) == Step(Some(MulPair(8, 5)), 29)
    requires forall k :: 29 <= k < 30 ==> !OccursAt(f, "mul(", k)
    ensures ScanFrom(f, 0) == [MulPair(2, 4), MulPair(8, 5)]
  {
    SkipNoOpener(f, 0, 1);
    ScanRecords(f, 1, MulPair(2, 4), 9);
    SkipNoOpener(f, 9, 21);
    ScanRecords(f, 21, MulPair(8, 5), 29);
    SkipNoOpener(f, 29, 30);
  }

  /** Part 2 on the sample: only `mul(2,4)` and `mul(8,5)` survive the filter, and they sum to 48. */
  lemma DisabledSampleSum(m: string)
    requires m == DisabledSample()
    ensures ScanFrom(ExtractDo(m), 0) == [MulPair(2, 4), MulPair(8, 5)]
    ensures EnabledMultiplicationSum(m) == 48
  {
    DisabledSampleFilter(m);
    var f := ExtractDo(m);
    FilteredFront(f);
    FilteredMiddle(f);
    FilteredBack(f);
    FilteredChain(f);
    MultiplicationSumAppend([MulPair(2, 4)], [MulPair(8, 5)]);
  }
}
