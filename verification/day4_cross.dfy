/**
 Day 4, part 2: X-shaped `MAS` crosses. Every interior cell of the padded
 grid is the centre of a 3×3 block; the block is compared with four
 kernels in turn, `.` in a kernel matching any character, and the centre
 is recorded with the first kernel that fits.
 */
module CrossSearch {
  import opened WordGrid

  datatype Option<T> = None | Some(value: T)

  /**
   The four kernels, in the order they are tried: the two `M`s on top, at
   the bottom, on the left, on the right, with the two `S`s opposite.
   */
  const Kernels: seq<seq<string>> := [
    ["M.M", ".A.", "S.S"],
    ["S.S", ".A.", "M.M"],
    ["M.S", ".A.", "M.S"],
    ["S.M", ".A.", "S.M"]
  ]

  /** One recorded cross: its centre and the kernel that fitted there. */
  datatype Cross = Cross(row: nat, col: nat, kernel: seq<string>)

  /** (row, col) is neither in the first or last row nor in the first or last column. */
  predicate Interior(rows: nat, cols: nat, row: nat, col: nat) {
    1 <= row < rows - 1 && 1 <= col < cols - 1
  }

  /** Kernel `k` at position (i, j) is a wildcard or the letter of the block around (row, col). */
  predicate Agrees(g: seq<string>, cols: nat, row: nat, col: nat, k: nat, i: nat, j: nat)
    requires Rectangular(g, cols) && Interior(|g|, cols, row, col) && k < |Kernels| && i < 3 && j < 3
  {
    KernelShape(k);
    Kernels[k][i][j] == '.' || g[row - 1 + i][col - 1 + j] == Kernels[k][i][j]
  }

  /** Kernel `k` fits the block centred on (row, col). */
  predicate Fits(g: seq<string>, cols: nat, row: nat, col: nat, k: nat)
    requires Rectangular(g, cols) && Interior(|g|, cols, row, col) && k < |Kernels|
  {
    forall i, j :: 0 <= i < 3 && 0 <= j < 3 ==> Agrees(g, cols, row, col, k, i, j)
  }

  /** The first kernel from index `k` on that fits, if any. */
  function FirstFit(g: seq<string>, cols: nat, row: nat, col: nat, k: nat): (r: Option<nat>)
    requires Rectangular(g, cols) && Interior(|g|, cols, row, col) && k <= |Kernels|
    ensures r.Some? ==> k <= r.value < |Kernels| && Fits(g, cols, row, col, r.value)
    ensures r.Some? ==> forall e :: k <= e < r.value ==> !Fits(g, cols, row, col, e)
    ensures r.None? ==> forall e :: k <= e < |Kernels| ==> !Fits(g, cols, row, col, e)
    decreases |Kernels| - k
  {
    if k == |Kernels| then None
    else if Fits(g, cols, row, col, k) then Some(k)
    else FirstFit(g, cols, row, col, k + 1)
  }

  /** What the search records at the centre (row, col): at most one cross. */
  function CentreHit(g: seq<string>, cols: nat, row: nat, col: nat): seq<Cross>
    requires Rectangular(g, cols) && Interior(|g|, cols, row, col)
  {
    match FirstFit(g, cols, row, col, 0)
    case Some(k) => [Cross(row, col, Kernels[k])]
    case None => []
  }

  /** What the search records in row `row` at the columns 1 .. c - 1. */
  function RowCrosses(g: seq<string>, cols: nat, row: nat, c: nat): (hits: seq<Cross>)
    requires Rectangular(g, cols) && 1 <= row < |g| - 1 && c < cols
    ensures |hits| <= if c > 1 then c - 1 else 0
  {
    if c <= 1 then []
    else RowCrosses(g, cols, row, c - 1) + CentreHit(g, cols, row, c - 1)
  }

  /** What the search records in the rows 1 .. r - 1. */
  function GridCrosses(g: seq<string>, cols: nat, r: nat): seq<Cross>
    requires Rectangular(g, cols) && r < |g|
  {
    if r <= 1 || cols < 1 then []
    else GridCrosses(g, cols, r - 1) + RowCrosses(g, cols, r - 1, cols - 1)
  }

  /**
   The whole search: only interior cells are centres. A grid with no rows,
   or whose first row is empty, yields nothing.
   */
  function FindXMas(grid: seq<string>): (occ: seq<Cross>)
    ensures |grid| == 0 || |grid[0]| == 0 ==> occ == []
  {
    if |grid| == 0 || |grid[0]| == 0 then []
    else GridCrosses(Pad(grid), MaxLen(grid), |grid| - 1)
  }

  // ---------------------------------------------------------------------
  // What a fitting kernel means.
  // ---------------------------------------------------------------------

  /** One diagonal of a cross reads `MAS` or `SAM` through the centre: one end `M`, the other `S`. */
  predicate MasEnds(a: char, b: char) {
    (a == 'M' && b == 'S') || (a == 'S' && b == 'M')
  }

  /**
   The cross the puzzle asks for: an `A` at (row, col) on both of whose
   diagonals `MAS` reads in one direction or the other.
   */
  predicate XMas(g: seq<string>, cols: nat, row: nat, col: nat)
    requires Rectangular(g, cols) && Interior(|g|, cols, row, col)
  {
    && g[row][col] == 'A'
    && MasEnds(g[row - 1][col - 1], g[row + 1][col + 1])
    && MasEnds(g[row - 1][col + 1], g[row + 1][col - 1])
  }

  /** Every kernel is 3×3, with `A` in the middle and wildcards at the four edge midpoints. */
  lemma KernelShape(k: nat)
    requires k < |Kernels|
    ensures |Kernels[k]| == 3 && |Kernels[k][0]| == 3 && |Kernels[k][1]| == 3 && |Kernels[k][2]| == 3
    ensures Kernels[k][1][1] == 'A'
    ensures Kernels[k][0][1] == '.' && Kernels[k][1][0] == '.' && Kernels[k][1][2] == '.' && Kernels[k][2][1] == '.'
    ensures Kernels[k][0][0] != '.' && Kernels[k][0][2] != '.' && Kernels[k][2][0] != '.' && Kernels[k][2][2] != '.'
  {
  }

  /** A kernel fits exactly when the centre is `A` and the corners hold the kernel's corner letters. */
  lemma FitsCorners(g: seq<string>, cols: nat, row: nat, col: nat, k: nat)
    requires Rectangular(g, cols) && Interior(|g|, cols, row, col) && k < |Kernels|
    ensures Fits(g, cols, row, col, k)
        <==> g[row][col] == 'A'
             && g[row - 1][col - 1] == Kernels[k][0][0] && g[row - 1][col + 1] == Kernels[k][0][2]
             && g[row + 1][col - 1] == Kernels[k][2][0] && g[row + 1][col + 1] == Kernels[k][2][2]
  {
    KernelShape(k);
    if Fits(g, cols, row, col, k) {
      assert Agrees(g, cols, row, col, k, 1, 1);
      assert Agrees(g, cols, row, col, k, 0, 0) && Agrees(g, cols, row, col, k, 0, 2);
      assert Agrees(g, cols, row, col, k, 2, 0) && Agrees(g, cols, row, col, k, 2, 2);
    }
  }

  /** Some kernel fits exactly when the block is the cross the puzzle asks for. */
  lemma KernelsDecideXMas(g: seq<string>, cols: nat, row: nat, col: nat)
    requires Rectangular(g, cols) && Interior(|g|, cols, row, col)
    ensures (exists k :: 0 <= k < |Kernels| && Fits(g, cols, row, col, k)) <==> XMas(g, cols, row, col)
  {
    FitsCorners(g, cols, row, col, 0);
    FitsCorners(g, cols, row, col, 1);
    FitsCorners(g, cols, row, col, 2);
    FitsCorners(g, cols, row, col, 3);
    if XMas(g, cols, row, col) {
      var tl, tr := g[row - 1][col - 1], g[row - 1][col + 1];
      if tl == 'M' && tr == 'M' {
        assert Fits(g, cols, row, col, 0);
      } else if tl == 'S' && tr == 'S' {
        assert Fits(g, cols, row, col, 1);
      } else if tl == 'M' {
        assert Fits(g, cols, row, col, 2);
      } else {
        assert Fits(g, cols, row, col, 3);
      }
    }
  }

  /** A centre records a cross exactly when the block there is one. */
  lemma CentreHitMeans(g: seq<string>, cols: nat, row: nat, col: nat)
    requires Rectangular(g, cols) && Interior(|g|, cols, row, col)
    ensures |CentreHit(g, cols, row, col)| == 1 <==> XMas(g, cols, row, col)
    ensures |CentreHit(g, cols, row, col)| <= 1
  {
    KernelsDecideXMas(g, cols, row, col);
    var r := FirstFit(g, cols, row, col, 0);
    if r.None? {
      assert forall e :: 0 <= e < |Kernels| ==> !Fits(g, cols, row, col, e);
    }
  }

  // ---------------------------------------------------------------------
  // What the search records.
  // ---------------------------------------------------------------------

  /** `x` is a centre the search records: interior, a cross, with the first kernel that fits. */
  predicate Recorded(g: seq<string>, cols: nat, x: Cross)
    requires Rectangular(g, cols)
  {
    && Interior(|g|, cols, x.row, x.col)
    && XMas(g, cols, x.row, x.col)
    && FirstFit(g, cols, x.row, x.col, 0).Some?
    && x.kernel == Kernels[FirstFit(g, cols, x.row, x.col, 0).value]
  }

  lemma CentreHitMembers(g: seq<string>, cols: nat, row: nat, col: nat, x: Cross)
    requires Rectangular(g, cols) && Interior(|g|, cols, row, col)
    ensures x in CentreHit(g, cols, row, col) <==> x.row == row && x.col == col && Recorded(g, cols, x)
  {
    CentreHitMeans(g, cols, row, col);
  }

  lemma {:induction false} RowCrossesMembers(g: seq<string>, cols: nat, row: nat, c: nat, x: Cross)
    requires Rectangular(g, cols) && 1 <= row < |g| - 1 && c < cols
    ensures x in RowCrosses(g, cols, row, c) <==> x.row == row && x.col < c && Recorded(g, cols, x)
  {
    if c > 1 {
      var before, last := RowCrosses(g, cols, row, c - 1), CentreHit(g, cols, row, c - 1);
      assert RowCrosses(g, cols, row, c) == before + last;
      RowCrossesMembers(g, cols, row, c - 1, x);
      CentreHitMembers(g, cols, row, c - 1, x);
    }
  }

  lemma WholeRowCrossesMembers(g: seq<string>, cols: nat, row: nat, x: Cross)
    requires Rectangular(g, cols) && 1 <= row < |g| - 1 && cols >= 1
    ensures x in RowCrosses(g, cols, row, cols - 1) <==> x.row == row && Recorded(g, cols, x)
  {
    RowCrossesMembers(g, cols, row, cols - 1, x);
  }

  lemma {:induction false} GridCrossesMembers(g: seq<string>, cols: nat, r: nat, x: Cross)
    requires Rectangular(g, cols) && r < |g|
    ensures x in GridCrosses(g, cols, r) <==> x.row < r && Recorded(g, cols, x)
  {
    if r > 1 && cols >= 1 {
      var before, last := GridCrosses(g, cols, r - 1), RowCrosses(g, cols, r - 1, cols - 1);
      assert GridCrosses(g, cols, r) == before + last;
      GridCrossesMembers(g, cols, r - 1, x);
      WholeRowCrossesMembers(g, cols, r - 1, x);
      if x.row < r - 1 {
        assert x in GridCrosses(g, cols, r) <==> x in before;
      } else {
        assert x !in before;
        assert x in GridCrosses(g, cols, r) <==> x in last;
      }
    }
  }

  /** No centre is recorded twice. */
  predicate CentresDistinct(s: seq<Cross>) {
    forall i, j :: 0 <= i < j < |s| ==> (s[i].row, s[i].col) != (s[j].row, s[j].col)
  }

  lemma CentresDistinctJoin(a: seq<Cross>, b: seq<Cross>)
    requires CentresDistinct(a) && CentresDistinct(b)
    requires forall i, j :: 0 <= i < |a| && 0 <= j < |b| ==> (a[i].row, a[i].col) != (b[j].row, b[j].col)
    ensures CentresDistinct(a + b)
  {
    forall i, j | 0 <= i < j < |a + b|
      ensures ((a + b)[i].row, (a + b)[i].col) != ((a + b)[j].row, (a + b)[j].col)
    {
      if i < |a| && j >= |a| {
        assert (a + b)[i] == a[i] && (a + b)[j] == b[j - |a|];
      }
    }
  }

  lemma EarlierColumn(g: seq<string>, cols: nat, row: nat, c: nat, s: seq<Cross>, k: nat)
    requires Rectangular(g, cols) && 1 <= row < |g| - 1 && c < cols
    requires s == RowCrosses(g, cols, row, c) && k < |s|
    ensures s[k].col < c
  {
    RowCrossesMembers(g, cols, row, c, s[k]);
  }

  lemma AtColumn(g: seq<string>, cols: nat, row: nat, col: nat, s: seq<Cross>, k: nat)
    requires Rectangular(g, cols) && Interior(|g|, cols, row, col)
    requires s == CentreHit(g, cols, row, col) && k < |s|
    ensures s[k].col == col
  {
    CentreHitMembers(g, cols, row, col, s[k]);
  }

  lemma EarlierRow(g: seq<string>, cols: nat, r: nat, s: seq<Cross>, k: nat)
    requires Rectangular(g, cols) && r < |g|
    requires s == GridCrosses(g, cols, r) && k < |s|
    ensures s[k].row < r
  {
    GridCrossesMembers(g, cols, r, s[k]);
  }

  lemma AtRow(g: seq<string>, cols: nat, row: nat, s: seq<Cross>, k: nat)
    requires Rectangular(g, cols) && 1 <= row < |g| - 1 && cols >= 1
    requires s == RowCrosses(g, cols, row, cols - 1) && k < |s|
    ensures s[k].row == row
  {
    WholeRowCrossesMembers(g, cols, row, s[k]);
  }

  lemma {:induction false} RowCrossesDistinct(g: seq<string>, cols: nat, row: nat, c: nat)
    requires Rectangular(g, cols) && 1 <= row < |g| - 1 && c < cols
    ensures CentresDistinct(RowCrosses(g, cols, row, c))
  {
    if c > 1 {
      RowCrossesDistinct(g, cols, row, c - 1);
      var a, b := RowCrosses(g, cols, row, c - 1), CentreHit(g, cols, row, c - 1);
      CentreHitMeans(g, cols, row, c - 1);
      forall i, j | 0 <= i < |a| && 0 <= j < |b|
        ensures (a[i].row, a[i].col) != (b[j].row, b[j].col)
      {
        EarlierColumn(g, cols, row, c - 1, a, i);
        AtColumn(g, cols, row, c - 1, b, j);
      }
      CentresDistinctJoin(a, b);
    }
  }

  /** Appending the crosses of row `r - 1` keeps the centres distinct. */
  lemma GridCrossesDistinctStep(g: seq<string>, cols: nat, r: nat)
    requires Rectangular(g, cols) && 1 < r < |g| && cols >= 1
    requires CentresDistinct(GridCrosses(g, cols, r - 1))
    ensures CentresDistinct(GridCrosses(g, cols, r))
  {
    var a, b := GridCrosses(g, cols, r - 1), RowCrosses(g, cols, r - 1, cols - 1);
    WholeRowDistinct(g, cols, r - 1, b);
    CentresApart(g, cols, r, a, b);
    RowsJoinDistinct(g, cols, r, a, b);
  }

  lemma WholeRowDistinct(g: seq<string>, cols: nat, row: nat, b: seq<Cross>)
    requires Rectangular(g, cols) && 1 <= row < |g| - 1 && cols >= 1
    requires b == RowCrosses(g, cols, row, cols - 1)
    ensures CentresDistinct(b)
  {
    RowCrossesDistinct(g, cols, row, cols - 1);
  }

  /** Rows with distinct centres, no centre shared between them, join into a grid with distinct centres. */
  lemma RowsJoinDistinct(g: seq<string>, cols: nat, r: nat, a: seq<Cross>, b: seq<Cross>)
    requires Rectangular(g, cols) && 1 < r < |g| && cols >= 1
    requires a == GridCrosses(g, cols, r - 1) && b == RowCrosses(g, cols, r - 1, cols - 1)
    requires CentresDistinct(a) && CentresDistinct(b)
    requires forall i, j :: 0 <= i < |a| && 0 <= j < |b| ==> (a[i].row, a[i].col) != (b[j].row, b[j].col)
    ensures CentresDistinct(GridCrosses(g, cols, r))
  {
    CentresDistinctJoin(a, b);
    assert GridCrosses(g, cols, r) == a + b;
  }

  /** No centre found in the first `r - 1` rows is a centre of row `r - 1`. */
  lemma CentresApart(g: seq<string>, cols: nat, r: nat, a: seq<Cross>, b: seq<Cross>)
    requires Rectangular(g, cols) && 1 < r < |g| && cols >= 1
    requires a == GridCrosses(g, cols, r - 1) && b == RowCrosses(g, cols, r - 1, cols - 1)
    ensures forall i, j :: 0 <= i < |a| && 0 <= j < |b| ==> (a[i].row, a[i].col) != (b[j].row, b[j].col)
  {
    forall i, j | 0 <= i < |a| && 0 <= j < |b|
      ensures (a[i].row, a[i].col) != (b[j].row, b[j].col)
    {
      EarlierRow(g, cols, r - 1, a, i);
      AtRow(g, cols, r - 1, b, j);
    }
  }

  lemma {:induction false} GridCrossesDistinct(g: seq<string>, cols: nat, r: nat)
    requires Rectangular(g, cols) && r < |g|
    ensures CentresDistinct(GridCrosses(g, cols, r))
  {
    if r > 1 && cols >= 1 {
      GridCrossesDistinct(g, cols, r - 1);
      GridCrossesDistinctStep(g, cols, r);
    }
  }

  /** The number of interior cells of a `rows` × `cols` grid. */
  function InteriorCells(rows: nat, cols: nat): nat {
    (if rows > 2 then rows - 2 else 0) * (if cols > 2 then cols - 2 else 0)
  }

  lemma InteriorCellsStep(rows: nat, cols: nat)
    requires rows >= 2
    ensures InteriorCells(rows + 1, cols) == InteriorCells(rows, cols) + (if cols > 2 then cols - 2 else 0)
  {
    var w := if cols > 2 then cols - 2 else 0;
    assert InteriorCells(rows + 1, cols) == (rows - 1) * w;
    assert InteriorCells(rows, cols) == (rows - 2) * w;
    assert (rows - 1) * w == (rows - 2) * w + w;
  }

  /** At most one cross per interior cell of the rows searched so far. */
  lemma {:induction false} GridCrossesBound(g: seq<string>, cols: nat, r: nat)
    requires Rectangular(g, cols) && r < |g|
    ensures |GridCrosses(g, cols, r)| <= InteriorCells(r + 1, cols)
  {
    if r > 1 && cols >= 1 {
      GridCrossesBound(g, cols, r - 1);
      InteriorCellsStep(r, cols);
      assert GridCrosses(g, cols, r) == GridCrosses(g, cols, r - 1) + RowCrosses(g, cols, r - 1, cols - 1);
    } else if r == 1 {
      assert InteriorCells(r + 1, cols) == 0;
    }
  }

  /**
   Soundness and completeness: for a grid with a non-empty first row, the
   search records exactly the interior crosses of the padded grid, one
   per centre, so no more than there are interior cells.
   */
  lemma FindXMasExactly(grid: seq<string>, x: Cross)
    requires |grid| > 0 && |grid[0]| > 0
    ensures x in FindXMas(grid) <==> Recorded(Pad(grid), MaxLen(grid), x)
    ensures CentresDistinct(FindXMas(grid))
    ensures |FindXMas(grid)| <= InteriorCells(|grid|, MaxLen(grid))
  {
    WholeGridCrosses(Pad(grid), MaxLen(grid), x);
  }

  /** The whole-grid search over a rectangular grid, stated once for every grid. */
  lemma WholeGridCrosses(g: seq<string>, cols: nat, x: Cross)
    requires Rectangular(g, cols) && |g| > 0
    ensures x in GridCrosses(g, cols, |g| - 1) <==> Recorded(g, cols, x)
    ensures CentresDistinct(GridCrosses(g, cols, |g| - 1))
    ensures |GridCrosses(g, cols, |g| - 1)| <= InteriorCells(|g|, cols)
  {
    var r := |g| - 1;
    GridCrossesMembers(g, cols, r, x);
    GridCrossesDistinct(g, cols, r);
    GridCrossesBound(g, cols, r);
    assert r + 1 == |g|;
  }

  /** A grid with fewer than three rows or columns has no interior, hence no cross. */
  lemma SmallGridNoCross(grid: seq<string>)
    requires |grid| < 3 || MaxLen(grid) < 3
    ensures FindXMas(grid) == []
  {
    if |grid| > 0 && |grid[0]| > 0 {
      FindXMasExactly(grid, Cross(0, 0, []));
    }
  }

  // ---------------------------------------------------------------------
  // The loops.
  // ---------------------------------------------------------------------

  /** The comparison of the block with one kernel; a mismatch ends both loops. */
  method KernelMatches(g: seq<string>, cols: nat, row: nat, col: nat, k: nat) returns (fits: bool)
    requires Rectangular(g, cols) && Interior(|g|, cols, row, col) && k < |Kernels|
    ensures fits == Fits(g, cols, row, col, k)
  {
    KernelShape(k);
    var kernel := Kernels[k];
    fits := true;
    var i := 0;
    while i < 3
      invariant 0 <= i <= 3 && fits
      invariant forall a, b :: 0 <= a < i && 0 <= b < 3 ==> Agrees(g, cols, row, col, k, a, b)
    {
      var j := 0;
      while j < 3
        invariant 0 <= j <= 3 && fits
        invariant forall b :: 0 <= b < j ==> Agrees(g, cols, row, col, k, i, b)
      {
        if kernel[i][j] != '.' && g[row - 1 + i][col - 1 + j] != kernel[i][j] {
          assert !Agrees(g, cols, row, col, k, i, j);
          fits := false;
          break;
        }
        j := j + 1;
      }
      if !fits {
        break;
      }
      i := i + 1;
    }
  }

  /** The kernel loop at one centre: the first kernel that fits is recorded, and the loop stops. */
  method CentreCrosses(g: seq<string>, cols: nat, row: nat, col: nat) returns (hit: seq<Cross>)
    requires Rectangular(g, cols) && Interior(|g|, cols, row, col)
    ensures hit == CentreHit(g, cols, row, col)
  {
    hit := [];
    var k := 0;
    while k < |Kernels|
      invariant 0 <= k <= |Kernels|
      invariant FirstFit(g, cols, row, col, 0) == FirstFit(g, cols, row, col, k)
      invariant hit == []
    {
      var fits := KernelMatches(g, cols, row, col, k);
      if fits {
        hit := [Cross(row, col, Kernels[k])];
        return;
      }
      k := k + 1;
    }
  }

  /** The column loop over the interior of one row. */
  method RowCrossOccurrences(g: seq<string>, cols: nat, row: nat) returns (found: seq<Cross>)
    requires Rectangular(g, cols) && 1 <= row < |g| - 1 && cols >= 2
    ensures found == RowCrosses(g, cols, row, cols - 1)
  {
    found := [];
    var col := 1;
    while col < cols - 1
      invariant 1 <= col <= cols - 1
      invariant found == RowCrosses(g, cols, row, col)
    {
      var here := CentreCrosses(g, cols, row, col);
      assert RowCrosses(g, cols, row, col + 1) == found + here;
      found := found + here;
      col := col + 1;
    }
  }

  /** One pass of the row loop: the crosses of row `row` are appended. */
  method AppendRowCrosses(g: seq<string>, cols: nat, row: nat, occ: seq<Cross>) returns (occ': seq<Cross>)
    requires Rectangular(g, cols) && 1 <= row < |g| - 1 && cols >= 1
    requires occ == GridCrosses(g, cols, row)
    ensures occ' == GridCrosses(g, cols, row + 1)
  {
    if cols < 2 {
      occ' := occ;
    } else {
      var found := RowCrossOccurrences(g, cols, row);
      occ' := occ + found;
    }
  }

  /** The row loop over the interior of a rectangular grid. */
  method GridCrossOccurrences(g: seq<string>, cols: nat) returns (occ: seq<Cross>)
    requires Rectangular(g, cols) && |g| >= 2 && cols >= 1
    ensures occ == GridCrosses(g, cols, |g| - 1)
  {
    occ := [];
    var row := 1;
    while row < |g| - 1
      invariant 1 <= row <= |g| - 1
      invariant occ == GridCrosses(g, cols, row)
    {
      occ := AppendRowCrosses(g, cols, row, occ);
      row := row + 1;
    }
  }

  /** The search loops: interior rows, then interior columns, then kernels. */
  method FindXMasPatterns(grid: seq<string>) returns (occ: seq<Cross>)
    ensures occ == FindXMas(grid)
  {
    if |grid| == 0 || |grid[0]| == 0 {
      return [];
    }
    if |grid| < 2 {
      SmallGridNoCross(grid);
      return [];
    }
    occ := GridCrossOccurrences(Pad(grid), MaxLen(grid));
  }

  /** The count is the number of crosses found, at most one per interior cell. */
  method CountXMasInGrid(grid: seq<string>) returns (count: nat)
    ensures count == |FindXMas(grid)|
    ensures count <= InteriorCells(|grid|, MaxLen(grid))
  {
    var occ := FindXMasPatterns(grid);
    count := |occ|;
    if |grid| > 0 && |grid[0]| > 0 {
      FindXMasExactly(grid, Cross(0, 0, []));
    }
  }
}
