/**
 Day 3, part 1: the cursor-based scanner for `mul(a,b)` instructions in
 corrupted memory. Two primitives, `ReadString` and `ReadNumber`, return
 what they read together with the index where the next read starts;
 `Attempt` is one iteration of the scanning loop and `ScanFrom` the whole
 scan from a cursor. `FindValidMulInstructions` is the loop itself.
 */
module MemoryScanner {

  datatype Option<T> = None | Some(value: T)

  /** What a cursor primitive read, and where the next read starts. */
  datatype Read<T> = Read(value: T, next: nat)

  /** The operands of one recognised `mul(a,b)` instruction. */
  datatype MulPair = MulPair(left: nat, right: nat)

  /** One iteration of the scanning loop: the pair it recorded, if any. */
  datatype Step = Step(pair: Option<MulPair>, next: nat)

  predicate IsDigit(c: char) {
    '0' <= c <= '9'
  }

  /** `s` occurs in `m` starting at index `i` (character by character). */
  predicate OccursAt(m: string, s: string, i: nat) {
    i + |s| <= |m| && forall k :: 0 <= k < |s| ==> m[i + k] == s[k]
  }

  /** No character of `m` in the index range [lo, hi) is a digit. */
  predicate NoDigitIn(m: string, lo: nat, hi: nat) {
    forall j :: lo <= j < hi && j < |m| ==> !IsDigit(m[j])
  }

  /** Every character of `m` in the index range [lo, hi) is a digit. */
  predicate AllDigitsIn(m: string, lo: nat, hi: nat)
    requires lo <= hi <= |m|
  {
    forall j :: lo <= j < hi ==> IsDigit(m[j])
  }

  function DigitValue(c: char): nat
    requires IsDigit(c)
  {
    c as nat - '0' as nat
  }

  /** The value of a decimal numeral, most significant digit first. */
  function Decimal(ds: string): nat
    requires forall j :: 0 <= j < |ds| ==> IsDigit(ds[j])
  {
    if |ds| == 0 then 0 else Decimal(ds[..|ds| - 1]) * 10 + DigitValue(ds[|ds| - 1])
  }

  lemma {:induction false} DecimalBound(ds: string)
    requires forall j :: 0 <= j < |ds| ==> IsDigit(ds[j])
    ensures |ds| <= 3 ==> Decimal(ds) <= 999
    ensures |ds| <= 2 ==> Decimal(ds) <= 99
    ensures |ds| <= 1 ==> Decimal(ds) <= 9
  {
    if |ds| > 0 {
      DecimalBound(ds[..|ds| - 1]);
    }
  }

  /**
   Checks whether `s` occurs at index `i`; on a match the cursor moves past
   it, otherwise (also when fewer than |s| characters remain) by one.
   */
  function ReadString(m: string, s: string, i: nat): (r: Read<bool>)
    ensures r.value <==> OccursAt(m, s, i)
    ensures r.value ==> r.next == i + |s|
    ensures !r.value ==> r.next == i + 1
    ensures i < |m| ==> r.next <= |m|
  {
    if i + |s| > |m| then Read(false, i + 1)
    else if m[i..i + |s|] == s then Read(true, i + |s|)
    else Read(false, i + 1)
  }

  /** How many digits follow index `k`, reading at most `limit` of them. */
  function DigitRun(m: string, k: nat, limit: nat): (n: nat)
    requires k <= |m|
    ensures n <= limit && k + n <= |m|
    ensures AllDigitsIn(m, k, k + n)
    ensures n < limit && k + n < |m| ==> !IsDigit(m[k + n])
    decreases limit
  {
    if limit == 0 || k >= |m| || !IsDigit(m[k]) then 0 else 1 + DigitRun(m, k + 1, limit - 1)
  }

  /**
   Reads the up-to-three digits starting at the digit m[k]. The branch that
   returns `None` with the cursor moved by four is kept as written; the
   contract shows it is never taken.
   */
  function NumberAt(m: string, k: nat): (r: Read<Option<nat>>)
    requires k < |m| && IsDigit(m[k])
    ensures r.value.Some? && r.value.value <= 999
    ensures k < r.next <= k + 3 && r.next <= |m|
  {
    var n := DigitRun(m, k, 3);
    var digits := m[k..k + n];
    assert forall j :: 0 <= j < |digits| ==> IsDigit(digits[j]);
    DecimalBound(digits);
    var pastFour: nat := k + 4;
    if n > 0 && 0 <= Decimal(digits) <= 999 then Read(Some(Decimal(digits)), k + n)
    else assert false; Read(None, pastFour)
  }

  /**
   Skips non-digits from `i`, then reads the number that starts at the first
   digit. When no digit remains it reads nothing, and the cursor ends at the
   end of `m` (or stays at `i` if `i` is already past the end).
   */
  function ReadNumber(m: string, i: nat): (r: Read<Option<nat>>)
    ensures i <= r.next
    ensures r.value.None? <==> NoDigitIn(m, i, |m|)
    ensures r.value.None? ==> r.next == if i <= |m| then |m| else i
    ensures r.value.Some? ==> i < r.next <= |m| && r.value.value <= 999
    decreases |m| - i
  {
    if i < |m| && !IsDigit(m[i]) then ReadNumber(m, i + 1)
    else if i >= |m| then Read(None, i)
    else NumberAt(m, i)
  }

  /**
   What `ReadNumber` reads: after the non-digits m[i..k] it takes the digit
   run m[k..next], which is three digits long or ends at a non-digit or at
   the end of `m`, and returns its decimal value.
   */
  lemma {:induction false} ReadNumberSpan(m: string, i: nat) returns (k: nat)
    requires ReadNumber(m, i).value.Some?
    ensures var r := ReadNumber(m, i);
            && i <= k < r.next <= |m| && r.next - k <= 3
            && NoDigitIn(m, i, k) && AllDigitsIn(m, k, r.next)
            && (r.next - k == 3 || r.next == |m| || !IsDigit(m[r.next]))
            && r.value.value == Decimal(m[k..r.next])
    decreases |m| - i
  {
    if i < |m| && !IsDigit(m[i]) {
      k := ReadNumberSpan(m, i + 1);
    } else {
      k := i;
    }
  }

  /**
   Where an iteration of the scanning loop stands: which read comes next,
   and the operands read so far.
   */
  datatype Phase =
    | ExpectOpener
    | ExpectFirst
    | ExpectComma(a: nat)
    | ExpectSecond(a: nat)
    | ExpectClose(a: nat, b: nat)

  /** How many reads an iteration in phase `ph` has left, minus one. */
  function ReadsLeft(ph: Phase): nat {
    match ph
    case ExpectOpener => 4
    case ExpectFirst => 3
    case ExpectComma(_) => 2
    case ExpectSecond(_) => 1
    case ExpectClose(_, _) => 0
  }

  /** The fewest characters the rest of a successful iteration consumes. */
  function MinLength(ph: Phase): nat {
    match ph
    case ExpectOpener => 8
    case ExpectFirst => 4
    case ExpectComma(_) => 3
    case ExpectSecond(_) => 2
    case ExpectClose(_, _) => 1
  }

  predicate OperandsSoFarInRange(ph: Phase) {
    match ph
    case ExpectComma(a) => a <= 999
    case ExpectSecond(a) => a <= 999
    case ExpectClose(a, b) => a <= 999 && b <= 999
    case _ => true
  }

  /**
   The rest of one iteration of the scanning loop from phase `ph` at cursor
   `i`: each read either succeeds and the iteration moves on to the next
   read, or fails and the iteration ends with the cursor where that read
   left it. A pair is recorded only when the closing `)` is read.
   */
  function Iterate(m: string, i: nat, ph: Phase): (st: Step)
    ensures i <= st.next
    ensures (ph.ExpectOpener? || ph.ExpectComma? || ph.ExpectClose?) ==> i < st.next
    ensures st.pair.Some? ==> i + MinLength(ph) <= st.next <= |m|
    ensures st.pair.Some? && OperandsSoFarInRange(ph) ==> st.pair.value.left <= 999 && st.pair.value.right <= 999
    ensures st.pair.Some? && ph.ExpectClose? ==> st.pair.value == MulPair(ph.a, ph.b)
    decreases ReadsLeft(ph)
  {
    match ph
    case ExpectOpener =>
      var opener := ReadString(m, "mul(", i);
      if opener.value then Iterate(m, opener.next, ExpectFirst) else Step(None, opener.next)
    case ExpectFirst =>
      var first := ReadNumber(m, i);
      if first.value.Some? then Iterate(m, first.next, ExpectComma(first.value.value)) else Step(None, first.next)
    case ExpectComma(a) =>
      var comma := ReadString(m, ",", i);
      if comma.value then Iterate(m, comma.next, ExpectSecond(a)) else Step(None, comma.next)
    case ExpectSecond(a) =>
      var second := ReadNumber(m, i);
      if second.value.Some? then Iterate(m, second.next, ExpectClose(a, second.value.value)) else Step(None, second.next)
    case ExpectClose(a, b) =>
      var close := ReadString(m, ")", i);
      if close.value then Step(Some(MulPair(a, b)), close.next) else Step(None, close.next)
  }

  /** One whole iteration of the scanning loop, starting at cursor `i`. */
  function Attempt(m: string, i: nat): (st: Step)
    ensures i < st.next
    ensures st.pair.Some? ==> OccursAt(m, "mul(", i) && i + 8 <= st.next <= |m|
    ensures st.pair.Some? ==> st.pair.value.left <= 999 && st.pair.value.right <= 999
  {
    Iterate(m, i, ExpectOpener)
  }

  predicate OperandsInRange(ps: seq<MulPair>) {
    forall k :: 0 <= k < |ps| ==> ps[k].left <= 999 && ps[k].right <= 999
  }

  /** The pairs the scanning loop records from cursor `i` to the end. */
  function ScanFrom(m: string, i: nat): (ps: seq<MulPair>)
    ensures OperandsInRange(ps)
    ensures i <= |m| ==> 8 * |ps| <= |m| - i
    decreases |m| - i
  {
    if i >= |m| then []
    else
      var st := Attempt(m, i);
      var rest := ScanFrom(m, st.next);
      match st.pair
      case Some(p) => [p] + rest
      case None => rest
  }

  /** Unfolds the scan by one iteration of the loop. */
  lemma ScanStep(m: string, i: nat)
    requires i < |m|
    ensures ScanFrom(m, i) == PairsOf(Attempt(m, i)) + ScanFrom(m, Attempt(m, i).next)
  {
  }

  /** Where no `mul(` starts, an iteration fails at once and moves the cursor by one. */
  lemma {:induction false} SkipNoOpener(m: string, i: nat, j: nat)
    requires i <= j <= |m|
    requires forall k :: i <= k < j ==> !OccursAt(m, "mul(", k)
    ensures ScanFrom(m, i) == ScanFrom(m, j)
    decreases j - i
  {
    if i < j {
      assert Attempt(m, i) == Step(None, i + 1) by {
        assert !OccursAt(m, "mul(", i);
      }
      SkipNoOpener(m, i + 1, j);
    }
  }

  /**
   `s` cannot start at any index `k` whose character `k + p` lies in a
   stretch m[i..j] that lacks the character s[p].
   */
  lemma AbsentCharNoOccurrence(m: string, s: string, p: nat, i: nat, j: nat)
    requires p < |s| && i <= j <= |m| && s[p] !in m[i..j]
    ensures forall k :: i <= k && k + p < j ==> !OccursAt(m, s, k)
    ensures j == |m| ==> forall k :: i <= k ==> !OccursAt(m, s, k)
  {
    forall k | i <= k && (k + p < j || j == |m|)
      ensures !OccursAt(m, s, k)
    {
      if k + p < j {
        assert m[i..j][k + p - i] == m[k + p];
        assert m[k + p] != s[p];
      } else {
        assert |m| < k + |s|;
      }
    }
  }

  /** The pair an iteration recorded, as a sequence of zero or one pairs. */
  function PairsOf(st: Step): seq<MulPair> {
    match st.pair
    case Some(p) => [p]
    case None => []
  }

  /**
   One iteration of the scanning loop: try to read `mul(`, a number, `,`, a
   number and `)` in turn, and record the two numbers only when all five
   reads succeed. The cursor ends where the last read left it.
   */
  method TryInstruction(m: string, i: nat) returns (st: Step)
    ensures st == Attempt(m, i)
  {
    var opener := ReadString(m, "mul(", i);
    st := Step(None, opener.next);
    if opener.value {
      var first := ReadNumber(m, opener.next);
      st := Step(None, first.next);
      if first.value.Some? {
        var a := first.value.value;
        var comma := ReadString(m, ",", first.next);
        st := Step(None, comma.next);
        if comma.value {
          var second := ReadNumber(m, comma.next);
          st := Step(None, second.next);
          if second.value.Some? {
            var b := second.value.value;
            var close := ReadString(m, ")", second.next);
            st := Step(None, close.next);
            if close.value {
              st := Step(Some(MulPair(a, b)), close.next);
            }
            assert Iterate(m, second.next, ExpectClose(a, b)) == st;
          }
          assert Iterate(m, comma.next, ExpectSecond(a)) == st;
        }
        assert Iterate(m, first.next, ExpectComma(a)) == st;
      }
      assert Iterate(m, opener.next, ExpectFirst) == st;
    }
  }

  /** The scanning loop: iterations from cursor 0 until the cursor passes the end. */
  method FindValidMulInstructions(m: string) returns (ps: seq<MulPair>)
    ensures ps == ScanFrom(m, 0)
    ensures OperandsInRange(ps)
  {
    ps := [];
    var i: nat := 0;
    while i < |m|
      invariant ps + ScanFrom(m, i) == ScanFrom(m, 0)
      decreases |m| - i
    {
      ScanStep(m, i);
      var st := TryInstruction(m, i);
      ps := ps + PairsOf(st);
      i := st.next;
    }
  }

  /** Sum of left * right over the recorded pairs. */
  function MultiplicationSum(ps: seq<MulPair>): (total: nat)
  {
    if |ps| == 0 then 0 else ps[0].left * ps[0].right + MultiplicationSum(ps[1..])
  }

  lemma {:induction false} MultiplicationSumAppend(ps: seq<MulPair>, qs: seq<MulPair>)
    ensures MultiplicationSum(ps + qs) == MultiplicationSum(ps) + MultiplicationSum(qs)
    decreases |ps|
  {
    if |ps| == 0 {
      assert ps + qs == qs;
    } else {
      assert (ps + qs)[0] == ps[0];
      assert (ps + qs)[1..] == ps[1..] + qs;
      MultiplicationSumAppend(ps[1..], qs);
    }
  }

  /** Each recorded product is at most 999 * 999, so the sum grows at most that much per pair. */
  lemma {:induction false} MultiplicationSumBound(ps: seq<MulPair>)
    requires OperandsInRange(ps)
    ensures MultiplicationSum(ps) <= 998001 * |ps|
    decreases |ps|
  {
    if |ps| > 0 {
      var a, b := ps[0].left, ps[0].right;
      assert a * b <= 999 * b <= 999 * 999;
      assert OperandsInRange(ps[1..]);
      MultiplicationSumBound(ps[1..]);
    }
  }

  // ---------------------------------------------------------------------
  // The grammar a recorded instruction follows, independent of the cursor
  // arithmetic: `mul(`, a first operand, `,`, a second operand, `)`, where
  // each operand is a run of 1-3 digits that may be preceded by any number
  // of non-digits (the characters `ReadNumber` skips).
  // ---------------------------------------------------------------------

  /** The value of the digit run m[k..e]. */
  function Operand(m: string, k: nat, e: nat): nat
    requires k <= e <= |m| && AllDigitsIn(m, k, e)
  {
    Decimal(m[k..e])
  }

  /** [k1, e1) and [k2, e2) are the two digit runs of a `mul(` instruction at `i`. */
  predicate MulShape(m: string, i: nat, k1: nat, e1: nat, k2: nat, e2: nat) {
    && i + 4 <= k1 < e1 < k2 < e2 < |m|
    && OccursAt(m, "mul(", i)
    && NoDigitIn(m, i + 4, k1) && AllDigitsIn(m, k1, e1) && e1 - k1 <= 3 && m[e1] == ','
    && NoDigitIn(m, e1 + 1, k2) && AllDigitsIn(m, k2, e2) && e2 - k2 <= 3 && m[e2] == ')'
  }

  lemma {:induction false} DigitRunIs(m: string, k: nat, e: nat, limit: nat)
    requires k <= e < |m| && AllDigitsIn(m, k, e) && !IsDigit(m[e]) && e - k <= limit
    ensures DigitRun(m, k, limit) == e - k
    decreases limit
  {
    if k < e {
      DigitRunIs(m, k + 1, e, limit - 1);
    }
  }

  /** A number whose digit run [k, e) is followed by a non-digit is read whole. */
  lemma {:induction false} NumberIsRead(m: string, i: nat, k: nat, e: nat)
    requires i <= k < e < |m| && e - k <= 3
    requires NoDigitIn(m, i, k) && AllDigitsIn(m, k, e) && !IsDigit(m[e])
    ensures ReadNumber(m, i) == Read(Some(Operand(m, k, e)), e)
    decreases k - i
  {
    if i < k {
      NumberIsRead(m, i + 1, k, e);
    } else {
      DigitRunIs(m, k, e, 3);
    }
  }

  /** Soundness: a recorded pair comes from text of the instruction's shape. */
  lemma RecordedHasShape(m: string, i: nat) returns (k1: nat, e1: nat, k2: nat, e2: nat)
    requires Attempt(m, i).pair.Some?
    ensures MulShape(m, i, k1, e1, k2, e2)
    ensures Attempt(m, i) == Step(Some(MulPair(Operand(m, k1, e1), Operand(m, k2, e2))), e2 + 1)
  {
    OpenerRead(m, i);
    FirstNumberRead(m, i + 4);
    var first := ReadNumber(m, i + 4);
    var a := first.value.value;
    e1 := first.next;
    CommaRead(m, e1, a);
    SecondNumberRead(m, e1 + 1, a);
    var second := ReadNumber(m, e1 + 1);
    var b := second.value.value;
    e2 := second.next;
    CloseRead(m, e2, a, b);
    k1 := ReadNumberSpan(m, i + 4);
    k2 := ReadNumberSpan(m, e1 + 1);
  }

  /** An iteration that records a pair has read `mul(` first. */
  lemma OpenerRead(m: string, i: nat)
    requires Attempt(m, i).pair.Some?
    ensures OccursAt(m, "mul(", i)
    ensures Attempt(m, i) == Iterate(m, i + 4, ExpectFirst)
  {
  }

  /** An iteration that records a pair reads a number as its first operand. */
  lemma FirstNumberRead(m: string, j: nat)
    requires Iterate(m, j, ExpectFirst).pair.Some?
    ensures ReadNumber(m, j).value.Some?
    ensures Iterate(m, j, ExpectFirst) == Iterate(m, ReadNumber(m, j).next, ExpectComma(ReadNumber(m, j).value.value))
  {
  }

  /** An iteration that records a pair reads `,` after the first operand. */
  lemma CommaRead(m: string, j: nat, a: nat)
    requires Iterate(m, j, ExpectComma(a)).pair.Some?
    ensures j < |m| && m[j] == ','
    ensures Iterate(m, j, ExpectComma(a)) == Iterate(m, j + 1, ExpectSecond(a))
  {
    var comma := ReadString(m, ",", j);
    assert comma.value;
    assert m[j] == ","[0];
  }

  /** An iteration that records a pair reads a number as its second operand. */
  lemma SecondNumberRead(m: string, j: nat, a: nat)
    requires Iterate(m, j, ExpectSecond(a)).pair.Some?
    ensures ReadNumber(m, j).value.Some?
    ensures Iterate(m, j, ExpectSecond(a)) == Iterate(m, ReadNumber(m, j).next, ExpectClose(a, ReadNumber(m, j).value.value))
  {
  }

  /** An iteration that records a pair reads `)` after the second operand. */
  lemma CloseRead(m: string, j: nat, a: nat, b: nat)
    requires Iterate(m, j, ExpectClose(a, b)).pair.Some?
    ensures j < |m| && m[j] == ')'
    ensures Iterate(m, j, ExpectClose(a, b)) == Step(Some(MulPair(a, b)), j + 1)
  {
    assert OccursAt(m, ")", j);
  }

  /** Completeness: text of the instruction's shape at `i` is recorded there. */
  lemma ShapeIsRecorded(m: string, i: nat, k1: nat, e1: nat, k2: nat, e2: nat)
    requires MulShape(m, i, k1, e1, k2, e2)
    ensures Attempt(m, i) == Step(Some(MulPair(Operand(m, k1, e1), Operand(m, k2, e2))), e2 + 1)
  {
    var a, b := Operand(m, k1, e1), Operand(m, k2, e2);
    OpenerPhase(m, i);
    FirstOperandPhase(m, i + 4, k1, e1);
    CommaPhase(m, e1, a);
    SecondOperandPhase(m, e1 + 1, k2, e2, a);
    ClosePhase(m, e2, a, b);
  }

  /** When `mul(` occurs at `i`, an iteration reads it and moves on to the first operand. */
  lemma OpenerPhase(m: string, i: nat)
    requires OccursAt(m, "mul(", i)
    ensures Attempt(m, i) == Iterate(m, i + 4, ExpectFirst)
  {
    assert ReadString(m, "mul(", i) == Read(true, i + 4);
  }

  /** A digit run [k, e) after non-digits from `j`, ended by a non-digit, is the first operand. */
  lemma FirstOperandPhase(m: string, j: nat, k: nat, e: nat)
    requires j <= k < e < |m| && e - k <= 3
    requires NoDigitIn(m, j, k) && AllDigitsIn(m, k, e) && !IsDigit(m[e])
    ensures Iterate(m, j, ExpectFirst) == Iterate(m, e, ExpectComma(Operand(m, k, e)))
  {
    NumberIsRead(m, j, k, e);
  }

  /** A `,` at `j` is read and the iteration moves on to the second operand. */
  lemma CommaPhase(m: string, j: nat, a: nat)
    requires j < |m| && m[j] == ','
    ensures Iterate(m, j, ExpectComma(a)) == Iterate(m, j + 1, ExpectSecond(a))
  {
    assert OccursAt(m, ",", j);
  }

  /** A digit run [k, e) after non-digits from `j`, ended by a non-digit, is the second operand. */
  lemma SecondOperandPhase(m: string, j: nat, k: nat, e: nat, a: nat)
    requires j <= k < e < |m| && e - k <= 3
    requires NoDigitIn(m, j, k) && AllDigitsIn(m, k, e) && !IsDigit(m[e])
    ensures Iterate(m, j, ExpectSecond(a)) == Iterate(m, e, ExpectClose(a, Operand(m, k, e)))
  {
    NumberIsRead(m, j, k, e);
  }

  /** A `)` at `j` is read and the iteration records the pair. */
  lemma ClosePhase(m: string, j: nat, a: nat, b: nat)
    requires j < |m| && m[j] == ')'
    ensures Iterate(m, j, ExpectClose(a, b)) == Step(Some(MulPair(a, b)), j + 1)
  {
    assert OccursAt(m, ")", j);
  }

  /** Anything but a `)` at `j` ends the iteration one character on, with nothing recorded. */
  lemma CloseMissing(m: string, j: nat, a: nat, b: nat)
    requires j < |m| ==> m[j] != ')'
    ensures Iterate(m, j, ExpectClose(a, b)) == Step(None, j + 1)
  {
    if j < |m| {
      assert m[j + 0] != ")"[0];
    }
  }

  // ---------------------------------------------------------------------
  // Round trip: writing pairs out as `mul(a,b)` text and scanning that text
  // gives the pairs back.
  // ---------------------------------------------------------------------

  function DigitChar(d: nat): (c: char)
    requires d < 10
    ensures IsDigit(c) && DigitValue(c) == d
  {
    ('0' as nat + d) as char
  }

  /** The shortest decimal numeral of `n`, as Python's `str` writes it. */
  function Numeral(n: nat): (ds: string)
    ensures 1 <= |ds|
    ensures forall j :: 0 <= j < |ds| ==> IsDigit(ds[j])
    ensures Decimal(ds) == n
    ensures n <= 999 ==> |ds| <= 3
    ensures n <= 99 ==> |ds| <= 2
  {
    if n < 10 then [DigitChar(n)]
    else
      var ds := Numeral(n / 10) + [DigitChar(n % 10)];
      assert ds[..|ds| - 1] == Numeral(n / 10);
      ds
  }

  /** The text of one well-formed instruction. */
  function Render(p: MulPair): string {
    "mul(" + Numeral(p.left) + "," + Numeral(p.right) + ")"
  }

  /** The text of a run of well-formed instructions, back to back. */
  function RenderAll(ps: seq<MulPair>): string {
    if |ps| == 0 then "" else Render(ps[0]) + RenderAll(ps[1..])
  }

  lemma SliceOccurs(m: string, s: string, i: nat)
    requires i + |s| <= |m| && m[i..i + |s|] == s
    ensures OccursAt(m, s, i)
  {
    forall k | 0 <= k < |s|
      ensures m[i + k] == s[k]
    {
      assert m[i..i + |s|][k] == m[i + k];
    }
  }

  /** Digit strings `a` and `b` laid out as `mul(a,b)` at `i` give the instruction's shape. */
  lemma LayoutShape(m: string, i: nat, a: string, b: string)
    requires 1 <= |a| <= 3 && 1 <= |b| <= 3
    requires forall j :: 0 <= j < |a| ==> IsDigit(a[j])
    requires forall j :: 0 <= j < |b| ==> IsDigit(b[j])
    requires OccursAt(m, "mul(" + a + "," + b + ")", i)
    ensures MulShape(m, i, i + 4, i + 4 + |a|, i + 5 + |a|, i + 5 + |a| + |b|)
    ensures m[i + 4..i + 4 + |a|] == a && m[i + 5 + |a|..i + 5 + |a| + |b|] == b
  {
    var t := "mul(" + a + "," + b + ")";
    var k1, e1, k2, e2 := i + 4, i + 4 + |a|, i + 5 + |a|, i + 5 + |a| + |b|;
    forall j | 0 <= j < 4 ensures m[i + j] == "mul("[j] {
      assert t[j] == "mul("[j];
    }
    forall j | 0 <= j < |a| ensures m[k1..e1][j] == a[j] {
      assert t[4 + j] == a[j];
      assert m[k1..e1][j] == m[i + (4 + j)];
    }
    forall j | 0 <= j < |b| ensures m[k2..e2][j] == b[j] {
      assert t[5 + |a| + j] == b[j];
      assert m[k2..e2][j] == m[i + (5 + |a| + j)];
    }
    assert m[e1] == t[4 + |a|];
    assert m[e2] == t[5 + |a| + |b|];
  }

  /** Text rendered from a pair has the instruction's shape, with the pair's operands. */
  lemma RenderedShape(m: string, i: nat, p: MulPair) returns (k1: nat, e1: nat, k2: nat, e2: nat)
    requires p.left <= 999 && p.right <= 999
    requires i + |Render(p)| <= |m| && m[i..i + |Render(p)|] == Render(p)
    ensures MulShape(m, i, k1, e1, k2, e2) && e2 + 1 == i + |Render(p)|
    ensures Operand(m, k1, e1) == p.left && Operand(m, k2, e2) == p.right
  {
    var a, b := Numeral(p.left), Numeral(p.right);
    SliceOccurs(m, Render(p), i);
    LayoutShape(m, i, a, b);
    k1, e1, k2, e2 := i + 4, i + 4 + |a|, i + 5 + |a|, i + 5 + |a| + |b|;
  }

  /** A rendered instruction at `i` is recorded, and scanning resumes right after it. */
  lemma RenderedIsRecorded(m: string, i: nat, p: MulPair)
    requires p.left <= 999 && p.right <= 999
    requires i + |Render(p)| <= |m| && m[i..i + |Render(p)|] == Render(p)
    ensures Attempt(m, i) == Step(Some(p), i + |Render(p)|)
  {
    var k1, e1, k2, e2 := RenderedShape(m, i, p);
    ShapeIsRecorded(m, i, k1, e1, k2, e2);
  }

  /**
   Round trip: scanning text that consists, from cursor `i` to its end, of
   well-formed instructions records exactly their pairs.
   */
  lemma {:induction false} RenderAllRoundTrip(m: string, i: nat, ps: seq<MulPair>)
    requires OperandsInRange(ps)
    requires i <= |m| && m[i..] == RenderAll(ps)
    ensures ScanFrom(m, i) == ps
    decreases |ps|
  {
    if |ps| > 0 {
      var r := Render(ps[0]);
      SplitSuffix(m, i, r, RenderAll(ps[1..]));
      RenderedIsRecorded(m, i, ps[0]);
      assert OperandsInRange(ps[1..]);
      RenderAllRoundTrip(m, i + |r|, ps[1..]);
      ScanStep(m, i);
      assert ps == [ps[0]] + ps[1..];
    }
  }

  /** When the text from `i` on is `a + b`, `a` sits at `i` and `b` follows it. */
  lemma SplitSuffix(m: string, i: nat, a: string, b: string)
    requires i <= |m| && m[i..] == a + b
    ensures i + |a| <= |m| && m[i..i + |a|] == a && m[i + |a|..] == b
  {
    assert |m[i..]| == |a| + |b|;
    forall k | 0 <= k < |a|
      ensures m[i..i + |a|][k] == a[k]
    {
      assert m[i..][k] == (a + b)[k];
    }
    forall k | 0 <= k < |b|
      ensures m[i + |a|..][k] == b[k]
    {
      assert m[i..][|a| + k] == (a + b)[|a| + k];
    }
  }

  /** Scanning the text of well-formed instructions gives back their pairs. */
  lemma ScanRenderAll(ps: seq<MulPair>)
    requires OperandsInRange(ps)
    ensures ScanFrom(RenderAll(ps), 0) == ps
  {
    RenderAllRoundTrip(RenderAll(ps), 0, ps);
  }
}
