/**
 Worked grids for day 4: the counts the repository's tests list for small
 grids, for both searches.
 */
module WordSearchExamples {
  import opened WordGrid
  import opened XmasSearch
  import opened CrossSearch

  /** One direction at one cell contributes one occurrence exactly when the word reads there. */
  lemma HitCount(g: seq<string>, cols: nat, row: nat, col: nat, d: (int, int))
    requires Rectangular(g, cols) && row < |g| && col < cols && IsStep(d.0, d.1)
    ensures |Hit(g, cols, row, col, d)| == if SpellsAt(g, cols, row, col, d.0, d.1) then 1 else 0
  {
  }

  /** In a grid of one row only the two horizontal directions can stay on the grid. */
  lemma SingleRowCell(g: seq<string>, cols: nat, col: nat)
    requires Rectangular(g, cols) && |g| == 1 && col < cols
    ensures |CellHits(g, cols, 0, col, |Directions|)|
         == (if SpellsAt(g, cols, 0, col, 0, -1) then 1 else 0) + (if SpellsAt(g, cols, 0, col, 0, 1) then 1 else 0)
  {
    var ds := Directions;
    assert ds[3] == (0, -1) && ds[4] == (0, 1);
    HitCount(g, cols, 0, col, ds[3]);
    HitCount(g, cols, 0, col, ds[4]);
    assert |CellHits(g, cols, 0, col, 3)| == 0 by {
      HitCount(g, cols, 0, col, ds[0]);
      HitCount(g, cols, 0, col, ds[1]);
      HitCount(g, cols, 0, col, ds[2]);
      assert CellHits(g, cols, 0, col, 3) == CellHits(g, cols, 0, col, 2) + Hit(g, cols, 0, col, ds[2]);
      assert CellHits(g, cols, 0, col, 2) == CellHits(g, cols, 0, col, 1) + Hit(g, cols, 0, col, ds[1]);
      assert CellHits(g, cols, 0, col, 1) == CellHits(g, cols, 0, col, 0) + Hit(g, cols, 0, col, ds[0]);
    }
    assert CellHits(g, cols, 0, col, 5) == CellHits(g, cols, 0, col, 4) + Hit(g, cols, 0, col, ds[4]);
    assert CellHits(g, cols, 0, col, 4) == CellHits(g, cols, 0, col, 3) + Hit(g, cols, 0, col, ds[3]);
    assert |CellHits(g, cols, 0, col, 8)| == |CellHits(g, cols, 0, col, 5)| by {
      HitCount(g, cols, 0, col, ds[5]);
      HitCount(g, cols, 0, col, ds[6]);
      HitCount(g, cols, 0, col, ds[7]);
      assert CellHits(g, cols, 0, col, 8) == CellHits(g, cols, 0, col, 7) + Hit(g, cols, 0, col, ds[7]);
      assert CellHits(g, cols, 0, col, 7) == CellHits(g, cols, 0, col, 6) + Hit(g, cols, 0, col, ds[6]);
      assert CellHits(g, cols, 0, col, 6) == CellHits(g, cols, 0, col, 5) + Hit(g, cols, 0, col, ds[5]);
    }
  }

  /** In a one-row grid, a cell where the word reads in neither horizontal direction adds nothing. */
  lemma SingleRowMiss(g: seq<string>, cols: nat, c: nat)
    requires Rectangular(g, cols) && |g| == 1 && 0 < c <= cols
    requires !SpellsAt(g, cols, 0, c - 1, 0, -1) && !SpellsAt(g, cols, 0, c - 1, 0, 1)
    ensures |RowHits(g, cols, 0, c)| == |RowHits(g, cols, 0, c - 1)|
  {
    SingleRowCell(g, cols, c - 1);
  }

  /** In a one-row grid, a cell where the word reads in exactly one horizontal direction adds one occurrence. */
  lemma SingleRowHit(g: seq<string>, cols: nat, c: nat)
    requires Rectangular(g, cols) && |g| == 1 && 0 < c <= cols
    requires SpellsAt(g, cols, 0, c - 1, 0, -1) != SpellsAt(g, cols, 0, c - 1, 0, 1)
    ensures |RowHits(g, cols, 0, c)| == |RowHits(g, cols, 0, c - 1)| + 1
  {
    SingleRowCell(g, cols, c - 1);
  }

  /** A grid without rows, or whose first row is empty, has no occurrence of either pattern. */
  lemma EmptyGrids()
    ensures FindXmas([]) == [] && FindXmas([""]) == [] && FindXmas(["", "XMAS"]) == []
    ensures FindXMas([]) == [] && FindXMas([""]) == [] && FindXMas(["", "M.S"]) == []
  {
  }

  /** A one-row grid of four cells whose word reads leftwards from the last cell holds exactly that occurrence. */
  lemma BackwardsRowShape(g: seq<string>)
    requires |g| == 1 && Rectangular(g, 4) && SpellsAt(g, 4, 0, 3, 0, -1)
    ensures |FindXmas(g)| == 1
  {
    PadRectangular(g, 4);
    assert FindXmas(g) == GridHits(g, 4, 1);
    BackwardsRowCount(g);
    assert GridHits(g, 4, 1) == GridHits(g, 4, 0) + RowHits(g, 4, 0, 4);
  }

  /** Only the last of the four cells starts an occurrence. */
  lemma BackwardsRowCount(g: seq<string>)
    requires |g| == 1 && Rectangular(g, 4) && SpellsAt(g, 4, 0, 3, 0, -1)
    ensures |RowHits(g, 4, 0, 4)| == 1
  {
    SingleRowMiss(g, 4, 1);
    SingleRowMiss(g, 4, 2);
    SingleRowMiss(g, 4, 3);
    SingleRowHit(g, 4, 4);
  }

  /** `XMAS` read backwards along one row is found once, from its `X` leftwards. */
  lemma BackwardsInRow(row: string)
    requires row == "SAMX"
    ensures |FindXmas([row])| == 1
  {
    assert row[0] == 'S' && row[1] == 'A' && row[2] == 'M' && row[3] == 'X';
    BackwardsRowShape([row]);
  }

  /** A one-row grid of eight cells spelling the word twice rightwards holds exactly those two occurrences. */
  lemma DoubledRowShape(g: seq<string>)
    requires |g| == 1 && Rectangular(g, 8) && SpellsAt(g, 8, 0, 0, 0, 1) && SpellsAt(g, 8, 0, 4, 0, 1)
    ensures |FindXmas(g)| == 2
  {
    PadRectangular(g, 8);
    assert FindXmas(g) == GridHits(g, 8, 1);
    SingleRowHit(g, 8, 1);
    SingleRowMiss(g, 8, 2);
    SingleRowMiss(g, 8, 3);
    SingleRowMiss(g, 8, 4);
    SingleRowHit(g, 8, 5);
    SingleRowMiss(g, 8, 6);
    SingleRowMiss(g, 8, 7);
    SingleRowMiss(g, 8, 8);
    assert GridHits(g, 8, 1) == GridHits(g, 8, 0) + RowHits(g, 8, 0, 8);
  }

  /** Two copies of `XMAS` side by side are two occurrences. */
  lemma TwiceInRow(row: string)
    requires row == "XMASXMAS"
    ensures |FindXmas([row])| == 2
  {
    assert row[0] == 'X' && row[1] == 'M' && row[2] == 'A' && row[3] == 'S';
    assert row[4] == 'X' && row[5] == 'M' && row[6] == 'A' && row[7] == 'S';
    DoubledRowShape([row]);
  }

  /** A one-row grid of four cells whose word reads rightwards from the first cell holds exactly that occurrence. */
  lemma ForwardRowShape(g: seq<string>)
    requires |g| == 1 && Rectangular(g, 4) && SpellsAt(g, 4, 0, 0, 0, 1)
    ensures |FindXmas(g)| == 1
  {
    PadRectangular(g, 4);
    assert FindXmas(g) == GridHits(g, 4, 1);
    SingleRowHit(g, 4, 1);
    SingleRowMiss(g, 4, 2);
    SingleRowMiss(g, 4, 3);
    SingleRowMiss(g, 4, 4);
    assert GridHits(g, 4, 1) == GridHits(g, 4, 0) + RowHits(g, 4, 0, 4);
  }

  /** `XMAS` along one row is found once. */
  lemma ForwardInRow(row: string)
    requires row == "XMAS"
    ensures |FindXmas([row])| == 1
  {
    assert row[0] == 'X' && row[1] == 'M' && row[2] == 'A' && row[3] == 'S';
    ForwardRowShape([row]);
  }

  /** In a grid of one column only the two vertical directions can stay on the grid. */
  lemma SingleColumnCell(g: seq<string>, row: nat)
    requires Rectangular(g, 1) && row < |g|
    ensures |CellHits(g, 1, row, 0, |Directions|)|
         == (if SpellsAt(g, 1, row, 0, -1, 0) then 1 else 0) + (if SpellsAt(g, 1, row, 0, 1, 0) then 1 else 0)
  {
    var ds := Directions;
    assert ds[1] == (-1, 0) && ds[6] == (1, 0);
    HitCount(g, 1, row, 0, ds[1]);
    HitCount(g, 1, row, 0, ds[6]);
    assert |CellHits(g, 1, row, 0, 1)| == 0 by {
      HitCount(g, 1, row, 0, ds[0]);
      assert CellHits(g, 1, row, 0, 1) == CellHits(g, 1, row, 0, 0) + Hit(g, 1, row, 0, ds[0]);
    }
    assert CellHits(g, 1, row, 0, 2) == CellHits(g, 1, row, 0, 1) + Hit(g, 1, row, 0, ds[1]);
    assert |CellHits(g, 1, row, 0, 6)| == |CellHits(g, 1, row, 0, 2)| by {
      HitCount(g, 1, row, 0, ds[2]);
      HitCount(g, 1, row, 0, ds[3]);
      HitCount(g, 1, row, 0, ds[4]);
      HitCount(g, 1, row, 0, ds[5]);
      assert CellHits(g, 1, row, 0, 6) == CellHits(g, 1, row, 0, 5) + Hit(g, 1, row, 0, ds[5]);
      assert CellHits(g, 1, row, 0, 5) == CellHits(g, 1, row, 0, 4) + Hit(g, 1, row, 0, ds[4]);
      assert CellHits(g, 1, row, 0, 4) == CellHits(g, 1, row, 0, 3) + Hit(g, 1, row, 0, ds[3]);
      assert CellHits(g, 1, row, 0, 3) == CellHits(g, 1, row, 0, 2) + Hit(g, 1, row, 0, ds[2]);
    }
    assert CellHits(g, 1, row, 0, 7) == CellHits(g, 1, row, 0, 6) + Hit(g, 1, row, 0, ds[6]);
    assert |CellHits(g, 1, row, 0, 8)| == |CellHits(g, 1, row, 0, 7)| by {
      HitCount(g, 1, row, 0, ds[7]);
      assert CellHits(g, 1, row, 0, 8) == CellHits(g, 1, row, 0, 7) + Hit(g, 1, row, 0, ds[7]);
    }
  }

  /** A row of a one-column grid is its only cell. */
  lemma SingleColumnRow(g: seq<string>, row: nat)
    requires Rectangular(g, 1) && row < |g|
    ensures |RowHits(g, 1, row, 1)|
         == (if SpellsAt(g, 1, row, 0, -1, 0) then 1 else 0) + (if SpellsAt(g, 1, row, 0, 1, 0) then 1 else 0)
  {
    SingleColumnCell(g, row);
    assert RowHits(g, 1, row, 1) == RowHits(g, 1, row, 0) + CellHits(g, 1, row, 0, |Directions|);
  }

  /** The first `r` rows hold the occurrences of the first `r - 1` rows and those of row `r - 1`. */
  lemma GridStep(g: seq<string>, cols: nat, r: nat)
    requires Rectangular(g, cols) && 0 < r <= |g|
    ensures |GridHits(g, cols, r)| == |GridHits(g, cols, r - 1)| + |RowHits(g, cols, r - 1, cols)|
  {
  }

  /** In a one-column grid, a row where the word reads in neither vertical direction adds nothing. */
  lemma SingleColumnMiss(g: seq<string>, r: nat)
    requires Rectangular(g, 1) && 0 < r <= |g|
    requires !SpellsAt(g, 1, r - 1, 0, -1, 0) && !SpellsAt(g, 1, r - 1, 0, 1, 0)
    ensures |GridHits(g, 1, r)| == |GridHits(g, 1, r - 1)|
  {
    SingleColumnRow(g, r - 1);
    GridStep(g, 1, r);
  }

  /** In a one-column grid, a row where the word reads in exactly one vertical direction adds one occurrence. */
  lemma SingleColumnHit(g: seq<string>, r: nat)
    requires Rectangular(g, 1) && 0 < r <= |g|
    requires SpellsAt(g, 1, r - 1, 0, -1, 0) != SpellsAt(g, 1, r - 1, 0, 1, 0)
    ensures |GridHits(g, 1, r)| == |GridHits(g, 1, r - 1)| + 1
  {
    SingleColumnRow(g, r - 1);
    if SpellsAt(g, 1, r - 1, 0, -1, 0) {
      OneRowHit(g, r, true, false);
    } else {
      OneRowHit(g, r, false, true);
    }
  }

  /** A row whose cell adds exactly one occurrence adds one to the grid's count. */
  lemma OneRowHit(g: seq<string>, r: nat, up: bool, down: bool)
    requires Rectangular(g, 1) && 0 < r <= |g|
    requires |RowHits(g, 1, r - 1, 1)| == (if up then 1 else 0) + (if down then 1 else 0)
    requires up != down
    ensures |GridHits(g, 1, r)| == |GridHits(g, 1, r - 1)| + 1
  {
    GridStep(g, 1, r);
  }

  /** A one-column grid of four rows whose word reads downwards from the top holds exactly that occurrence. */
  lemma ColumnShape(g: seq<string>)
    requires |g| == 4 && Rectangular(g, 1) && SpellsAt(g, 1, 0, 0, 1, 0)
    ensures |FindXmas(g)| == 1
  {
    PadRectangular(g, 1);
    assert FindXmas(g) == GridHits(g, 1, 4);
    SingleColumnHit(g, 1);
    SingleColumnMiss(g, 2);
    SingleColumnMiss(g, 3);
    SingleColumnMiss(g, 4);
  }

  /** `XMAS` down one column is found once. */
  lemma DownOneColumn(a: string, b: string, c: string, d: string)
    requires a == "X" && b == "M" && c == "A" && d == "S"
    ensures |FindXmas([a, b, c, d])| == 1
  {
    assert a[0] == 'X' && b[0] == 'M' && c[0] == 'A' && d[0] == 'S';
    ColumnShape([a, b, c, d]);
  }

  /** A one-column grid of eight rows spelling the word twice downwards holds exactly those two occurrences. */
  lemma DoubledColumnShape(g: seq<string>)
    requires |g| == 8 && Rectangular(g, 1) && SpellsAt(g, 1, 0, 0, 1, 0) && SpellsAt(g, 1, 4, 0, 1, 0)
    ensures |FindXmas(g)| == 2
  {
    PadRectangular(g, 1);
    assert FindXmas(g) == GridHits(g, 1, 8);
    SingleColumnHit(g, 1);
    SingleColumnMiss(g, 2);
    SingleColumnMiss(g, 3);
    SingleColumnMiss(g, 4);
    SingleColumnHit(g, 5);
    SingleColumnMiss(g, 6);
    SingleColumnMiss(g, 7);
    SingleColumnMiss(g, 8);
  }

  /** Two copies of `XMAS` stacked in one column are two occurrences. */
  lemma TwiceDownOneColumn(a: string, b: string, c: string, d: string)
    requires a == "X" && b == "M" && c == "A" && d == "S"
    ensures |FindXmas([a, b, c, d, a, b, c, d])| == 2
  {
    assert a[0] == 'X' && b[0] == 'M' && c[0] == 'A' && d[0] == 'S';
    DoubledColumnShape([a, b, c, d, a, b, c, d]);
  }

  /** A row without an `X`, and rows too short for the word, hold no occurrence. */
  lemma ShortAndBlankRows(dots: string, x: string, xm: string, xma: string)
    requires dots == "...." && x == "X" && xm == "XM" && xma == "XMA"
    ensures FindXmas([dots]) == [] && FindXmas([x]) == [] && FindXmas([xm]) == [] && FindXmas([xma]) == []
  {
    assert forall c :: 0 <= c < |dots| ==> dots[c] == '.';
    NoXmasWithoutX([dots]);
    PadRectangular([x], 1);
    PadRectangular([xm], 2);
    PadRectangular([xma], 3);
    TooSmallForXmas([x]);
    TooSmallForXmas([xm]);
    TooSmallForXmas([xma]);
  }

  /** A centre whose block is a cross adds one to the row's count. */
  lemma CrossHit(g: seq<string>, cols: nat, row: nat, c: nat)
    requires Rectangular(g, cols) && 1 <= row < |g| - 1 && 1 < c < cols && XMas(g, cols, row, c - 1)
    ensures |RowCrosses(g, cols, row, c)| == |RowCrosses(g, cols, row, c - 1)| + 1
  {
    CentreHitMeans(g, cols, row, c - 1);
  }

  /** A centre that does not hold an `A` adds nothing. */
  lemma CrossMiss(g: seq<string>, cols: nat, row: nat, c: nat)
    requires Rectangular(g, cols) && 1 <= row < |g| - 1 && 1 < c < cols && g[row][c - 1] != 'A'
    ensures |RowCrosses(g, cols, row, c)| == |RowCrosses(g, cols, row, c - 1)|
  {
    CentreHitMeans(g, cols, row, c - 1);
  }

  /** In a 3 × 3 grid the only centre is the middle cell. */
  lemma ThreeByThree(grid: seq<string>)
    requires |grid| == 3 && Rectangular(grid, 3)
    ensures |FindXMas(grid)| == if XMas(grid, 3, 1, 1) then 1 else 0
  {
    PadRectangular(grid, 3);
    assert FindXMas(grid) == GridCrosses(grid, 3, 2);
    assert GridCrosses(grid, 3, 2) == GridCrosses(grid, 3, 1) + RowCrosses(grid, 3, 1, 2);
    CentreHitMeans(grid, 3, 1, 1);
  }

  /** The cross with both `M`s on the left is found, and so is its mirror image. */
  lemma SingleCross(left: string, centre: string, right: string)
    requires left == "M.S" && centre == ".A." && right == "S.M"
    ensures |FindXMas([left, centre, left])| == 1 && |FindXMas([right, centre, right])| == 1
  {
    assert left[0] == 'M' && left[2] == 'S' && right[0] == 'S' && right[2] == 'M' && centre[1] == 'A';
    ThreeByThree([left, centre, left]);
    ThreeByThree([right, centre, right]);
  }

  /** A 3 × 3 grid whose middle is not a cross yields nothing. */
  lemma NoCrossThreeByThree(grid: seq<string>)
    requires |grid| == 3 && Rectangular(grid, 3) && !XMas(grid, 3, 1, 1)
    ensures FindXMas(grid) == []
  {
    PadRectangular(grid, 3);
    assert FindXMas(grid) == GridCrosses(grid, 3, 2);
    assert GridCrosses(grid, 3, 2) == GridCrosses(grid, 3, 1) + RowCrosses(grid, 3, 1, 2);
    CentreHitMeans(grid, 3, 1, 1);
  }

  /** Diagonals that read `MAM` and `SAS` make no cross, whichever way up. */
  lemma MixedDiagonals(left: string, centre: string, right: string)
    requires left == "M.S" && centre == ".A." && right == "S.M"
    ensures FindXMas([left, centre, right]) == [] && FindXMas([right, centre, left]) == []
  {
    assert left[0] == 'M' && left[2] == 'S' && right[0] == 'S' && right[2] == 'M';
    NoCrossThreeByThree([left, centre, right]);
    NoCrossThreeByThree([right, centre, left]);
  }

  /** Corners that would fit a kernel make no cross around an `S`. */
  lemma WrongCentre(edge: string, middle: string)
    requires edge == "M.A" && middle == ".S."
    ensures FindXMas([edge, middle, edge]) == []
  {
    assert middle[1] == 'S';
    NoCrossThreeByThree([edge, middle, edge]);
  }

  /** A block of wildcards alone holds no cross. */
  lemma BlankBlock(row: string)
    requires row == "..."
    ensures FindXMas([row, row, row]) == []
  {
    assert row[1] == '.';
    NoCrossThreeByThree([row, row, row]);
  }

  /** A single column `M`, `A`, `S` is too narrow for a cross. */
  lemma TooNarrowForCross(grid: seq<string>)
    requires grid == ["M", "A", "S"]
    ensures FindXMas(grid) == []
  {
    SmallGridNoCross(grid);
  }

  /** A band of three rows and seven columns with crosses centred at columns 1 and 5 and no other `A` in the middle row. */
  lemma CrossesAtBothEnds(g: seq<string>)
    requires |g| == 3 && Rectangular(g, 7) && XMas(g, 7, 1, 1) && XMas(g, 7, 1, 5)
    requires g[1][2] != 'A' && g[1][3] != 'A' && g[1][4] != 'A'
    ensures |FindXMas(g)| == 2
  {
    PadRectangular(g, 7);
    assert FindXMas(g) == GridCrosses(g, 7, 2);
    CrossHit(g, 7, 1, 2);
    CrossMiss(g, 7, 1, 3);
    CrossMiss(g, 7, 1, 4);
    CrossMiss(g, 7, 1, 5);
    CrossHit(g, 7, 1, 6);
    assert GridCrosses(g, 7, 2) == GridCrosses(g, 7, 1) + RowCrosses(g, 7, 1, 6);
  }

  /** Two crosses in one band of three rows. */
  lemma TwoCrossesInRow(outer: string, centre: string)
    requires outer == "M.S.M.S" && centre == ".A...A."
    ensures |FindXMas([outer, centre, outer])| == 2
  {
    assert outer[0] == 'M' && outer[2] == 'S' && outer[4] == 'M' && outer[6] == 'S';
    assert centre[1] == 'A' && centre[2] == '.' && centre[3] == '.' && centre[4] == '.' && centre[5] == 'A';
    CrossesAtBothEnds([outer, centre, outer]);
  }

  /** A grid of seven rows and three columns with crosses centred in rows 1 and 5 and no other `A` in the middle column. */
  lemma StackedCrosses(g: seq<string>)
    requires |g| == 7 && Rectangular(g, 3) && XMas(g, 3, 1, 1) && XMas(g, 3, 5, 1)
    requires g[2][1] != 'A' && g[3][1] != 'A' && g[4][1] != 'A'
    ensures |FindXMas(g)| == 2
  {
    PadRectangular(g, 3);
    assert FindXMas(g) == GridCrosses(g, 3, 6);
    CrossHit(g, 3, 1, 2);
    CrossMiss(g, 3, 2, 2);
    CrossMiss(g, 3, 3, 2);
    CrossMiss(g, 3, 4, 2);
    CrossHit(g, 3, 5, 2);
    assert GridCrosses(g, 3, 2) == GridCrosses(g, 3, 1) + RowCrosses(g, 3, 1, 2);
    assert GridCrosses(g, 3, 3) == GridCrosses(g, 3, 2) + RowCrosses(g, 3, 2, 2);
    assert GridCrosses(g, 3, 4) == GridCrosses(g, 3, 3) + RowCrosses(g, 3, 3, 2);
    assert GridCrosses(g, 3, 5) == GridCrosses(g, 3, 4) + RowCrosses(g, 3, 4, 2);
    assert GridCrosses(g, 3, 6) == GridCrosses(g, 3, 5) + RowCrosses(g, 3, 5, 2);
  }

  /** Two crosses stacked in one column, with a blank row between them. */
  lemma TwoCrossesInColumn(cross: string, centre: string, blank: string)
    requires cross == "M.S" && centre == ".A." && blank == "..."
    ensures |FindXMas([cross, centre, cross, blank, cross, centre, cross])| == 2
  {
    assert cross[0] == 'M' && cross[1] == '.' && cross[2] == 'S' && centre[1] == 'A' && blank[1] == '.';
    StackedCrosses([cross, centre, cross, blank, cross, centre, cross]);
  }
}
