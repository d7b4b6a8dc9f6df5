/**
 Day 4, part 1: every occurrence of `XMAS` in the padded grid, read in any
 of eight directions. The search visits the cells row by row and, at each
 cell, the directions in a fixed order; it keeps a direction when the
 ray's last cell is on the grid and the four letters along the ray spell
 the word.
 */
module XmasSearch {
  import opened WordGrid

  const Target: string := "XMAS"

  /** The eight directions, as (row step, column step), in the order they are tried. */
  const Directions: seq<(int, int)> := [(-1, -1), (-1, 0), (-1, 1), (0, -1), (0, 1), (1, -1), (1, 0), (1, 1)]

  /** One recorded occurrence: start cell, direction, and the word read there. */
  datatype Occurrence = Occurrence(row: nat, col: nat, dr: int, dc: int, word: string)

  predicate IsStep(dr: int, dc: int) {
    -1 <= dr <= 1 && -1 <= dc <= 1
  }

  /** The cell three steps from (row, col) in direction (dr, dc) lies on a rows × cols grid. */
  predicate EndInBounds(rows: nat, cols: nat, row: nat, col: nat, dr: int, dc: int) {
    0 <= row + 3 * dr < rows && 0 <= col + 3 * dc < cols
  }

  /**
   `XMAS` reads from (row, col) in direction (dr, dc): all four cells are on
   the grid and hold X, M, A and S in that order.
   */
  predicate SpellsAt(g: seq<string>, cols: nat, row: int, col: int, dr: int, dc: int)
    requires Rectangular(g, cols)
  {
    && 0 <= row < |g| && 0 <= col < cols
    && 0 <= row + dr < |g| && 0 <= col + dc < cols
    && 0 <= row + 2 * dr < |g| && 0 <= col + 2 * dc < cols
    && 0 <= row + 3 * dr < |g| && 0 <= col + 3 * dc < cols
    && g[row][col] == 'X' && g[row + dr][col + dc] == 'M'
    && g[row + 2 * dr][col + 2 * dc] == 'A' && g[row + 3 * dr][col + 3 * dc] == 'S'
  }

  /**
   The four letters along the ray. Only the start and the end cell are
   checked against the grid's edges: the cells between them lie between
   the two, so they are on the grid too.
   */
  function Ray(g: seq<string>, cols: nat, row: nat, col: nat, dr: int, dc: int): (word: string)
    requires Rectangular(g, cols) && row < |g| && col < cols
    requires IsStep(dr, dc) && EndInBounds(|g|, cols, row, col, dr, dc)
    ensures |word| == 4
    ensures word == Target <==> SpellsAt(g, cols, row, col, dr, dc)
  {
    [g[row][col], g[row + dr][col + dc], g[row + 2 * dr][col + 2 * dc], g[row + 3 * dr][col + 3 * dc]]
  }

  /** What the search records at (row, col) for direction `d`. */
  function Hit(g: seq<string>, cols: nat, row: nat, col: nat, d: (int, int)): (hit: seq<Occurrence>)
    requires Rectangular(g, cols) && row < |g| && col < cols && IsStep(d.0, d.1)
  {
    if EndInBounds(|g|, cols, row, col, d.0, d.1) && Ray(g, cols, row, col, d.0, d.1) == Target
    then [Occurrence(row, col, d.0, d.1, Ray(g, cols, row, col, d.0, d.1))]
    else []
  }

  /** What the search records at (row, col) for the first `k` directions. */
  function CellHits(g: seq<string>, cols: nat, row: nat, col: nat, k: nat): (hits: seq<Occurrence>)
    requires Rectangular(g, cols) && row < |g| && col < cols && k <= |Directions|
    ensures |hits| <= k
  {
    if k == 0 then []
    else CellHits(g, cols, row, col, k - 1) + Hit(g, cols, row, col, Directions[k - 1])
  }

  /** What the search records in the first `c` cells of row `row`. */
  function RowHits(g: seq<string>, cols: nat, row: nat, c: nat): (hits: seq<Occurrence>)
    requires Rectangular(g, cols) && row < |g| && c <= cols
    ensures |hits| <= 8 * c
  {
    if c == 0 then []
    else RowHits(g, cols, row, c - 1) + CellHits(g, cols, row, c - 1, |Directions|)
  }

  /** What the search records in the first `r` rows. */
  function GridHits(g: seq<string>, cols: nat, r: nat): seq<Occurrence>
    requires Rectangular(g, cols) && r <= |g|
  {
    if r == 0 then []
    else GridHits(g, cols, r - 1) + RowHits(g, cols, r - 1, cols)
  }

  /** At most eight occurrences per cell: one per direction. */
  lemma {:induction false} GridHitsBound(g: seq<string>, cols: nat, r: nat)
    requires Rectangular(g, cols) && r <= |g|
    ensures |GridHits(g, cols, r)| <= 8 * r * cols
  {
    if r > 0 {
      GridHitsBound(g, cols, r - 1);
      assert 8 * (r - 1) * cols + 8 * cols == 8 * r * cols;
    }
  }

  /**
   The whole search. A grid with no rows, or whose first row is empty,
   yields nothing even if later rows are not empty.
   */
  function FindXmas(grid: seq<string>): (occ: seq<Occurrence>)
    ensures |grid| == 0 || |grid[0]| == 0 ==> occ == []
  {
    if |grid| == 0 || |grid[0]| == 0 then []
    else GridHits(Pad(grid), MaxLen(grid), |grid|)
  }

  /** `o` is an occurrence of the word in the grid, as the search records it. */
  predicate Records(g: seq<string>, cols: nat, o: Occurrence)
    requires Rectangular(g, cols)
  {
    IsStep(o.dr, o.dc) && (o.dr, o.dc) != (0, 0) && o.word == Target
    && SpellsAt(g, cols, o.row, o.col, o.dr, o.dc)
  }

  /** The eight directions are exactly the steps to the neighbouring cells. */
  lemma DirectionsAreNeighbours(d: (int, int))
    ensures d in Directions <==> IsStep(d.0, d.1) && d != (0, 0)
  {
  }

  /** No element occurs twice. */
  predicate Distinct<T(==)>(s: seq<T>) {
    forall i, j :: 0 <= i < j < |s| ==> s[i] != s[j]
  }

  // ---------------------------------------------------------------------
  // What the search records, level by level.
  // ---------------------------------------------------------------------

  lemma HitMembers(g: seq<string>, cols: nat, row: nat, col: nat, d: (int, int), o: Occurrence)
    requires Rectangular(g, cols) && row < |g| && col < cols && IsStep(d.0, d.1)
    ensures o in Hit(g, cols, row, col, d)
        <==> o.row == row && o.col == col && (o.dr, o.dc) == d && o.word == Target
             && SpellsAt(g, cols, row, col, d.0, d.1)
  {
  }

  lemma {:induction false} CellHitsMembers(g: seq<string>, cols: nat, row: nat, col: nat, k: nat, o: Occurrence)
    requires Rectangular(g, cols) && row < |g| && col < cols && k <= |Directions|
    ensures o in CellHits(g, cols, row, col, k)
        <==> o.row == row && o.col == col && (o.dr, o.dc) in Directions[..k] && o.word == Target
             && SpellsAt(g, cols, row, col, o.dr, o.dc)
  {
    if k > 0 {
      CellHitsMembers(g, cols, row, col, k - 1, o);
      CellStepMembers(g, cols, row, col, k, o);
    }
  }

  /** If the first `k - 1` directions at a cell give exactly their hits, so do the first `k`. */
  lemma CellStepMembers(g: seq<string>, cols: nat, row: nat, col: nat, k: nat, o: Occurrence)
    requires Rectangular(g, cols) && row < |g| && col < cols && 0 < k <= |Directions|
    requires o in CellHits(g, cols, row, col, k - 1)
        <==> o.row == row && o.col == col && (o.dr, o.dc) in Directions[..k - 1] && o.word == Target
             && SpellsAt(g, cols, row, col, o.dr, o.dc)
    ensures o in CellHits(g, cols, row, col, k)
        <==> o.row == row && o.col == col && (o.dr, o.dc) in Directions[..k] && o.word == Target
             && SpellsAt(g, cols, row, col, o.dr, o.dc)
  {
    var d := Directions[k - 1];
    DirectionsAreNeighbours(d);
    HitMembers(g, cols, row, col, d, o);
    assert Directions[..k] == Directions[..k - 1] + [d];
  }

  lemma {:induction false} RowHitsMembers(g: seq<string>, cols: nat, row: nat, c: nat, o: Occurrence)
    requires Rectangular(g, cols) && row < |g| && c <= cols
    ensures o in RowHits(g, cols, row, c) <==> o.row == row && o.col < c && Records(g, cols, o)
  {
    if c > 0 {
      RowHitsMembers(g, cols, row, c - 1, o);
      RowStepMembers(g, cols, row, c, o);
    }
  }

  /** If the first `c - 1` cells of a row hold exactly their recorded occurrences, so do the first `c`. */
  lemma RowStepMembers(g: seq<string>, cols: nat, row: nat, c: nat, o: Occurrence)
    requires Rectangular(g, cols) && row < |g| && 0 < c <= cols
    requires o in RowHits(g, cols, row, c - 1) <==> o.row == row && o.col < c - 1 && Records(g, cols, o)
    ensures o in RowHits(g, cols, row, c) <==> o.row == row && o.col < c && Records(g, cols, o)
  {
    CellMembersRecorded(g, cols, row, c - 1, o);
    CellsJoinMembers(RowHits(g, cols, row, c - 1), CellHits(g, cols, row, c - 1, |Directions|), o, row, c - 1, Records(g, cols, o));
  }

  /** Over all eight directions, a cell's hits are the recorded occurrences that start there. */
  lemma CellMembersRecorded(g: seq<string>, cols: nat, row: nat, col: nat, o: Occurrence)
    requires Rectangular(g, cols) && row < |g| && col < cols
    ensures o in CellHits(g, cols, row, col, |Directions|) <==> o.row == row && o.col == col && Records(g, cols, o)
  {
    CellHitsMembers(g, cols, row, col, |Directions|, o);
    assert Directions[..|Directions|] == Directions;
    DirectionsAreNeighbours((o.dr, o.dc));
  }

  /** Occurrences of earlier cells followed by those of cell `col` are the occurrences of cells up to `col`. */
  lemma CellsJoinMembers(before: seq<Occurrence>, here: seq<Occurrence>, o: Occurrence, row: nat, col: nat, recorded: bool)
    requires o in before <==> o.row == row && o.col < col && recorded
    requires o in here <==> o.row == row && o.col == col && recorded
    ensures o in before + here <==> o.row == row && o.col <= col && recorded
  {
  }

  lemma WholeRowMembers(g: seq<string>, cols: nat, row: nat, o: Occurrence)
    requires Rectangular(g, cols) && row < |g|
    ensures o in RowHits(g, cols, row, cols) <==> o.row == row && Records(g, cols, o)
  {
    RowHitsMembers(g, cols, row, cols, o);
  }

  lemma {:induction false} GridHitsMembers(g: seq<string>, cols: nat, r: nat, o: Occurrence)
    requires Rectangular(g, cols) && r <= |g|
    ensures o in GridHits(g, cols, r) <==> o.row < r && Records(g, cols, o)
  {
    if r > 0 {
      GridHitsMembers(g, cols, r - 1, o);
      GridStepMembers(g, cols, r, o);
    }
  }

  /** If the first `r - 1` rows hold exactly their recorded occurrences, so do the first `r`. */
  lemma GridStepMembers(g: seq<string>, cols: nat, r: nat, o: Occurrence)
    requires Rectangular(g, cols) && 0 < r <= |g|
    requires o in GridHits(g, cols, r - 1) <==> o.row < r - 1 && Records(g, cols, o)
    ensures o in GridHits(g, cols, r) <==> o.row < r && Records(g, cols, o)
  {
    GridHitsLast(g, cols, r);
    WholeRowMembers(g, cols, r - 1, o);
    RowsJoinMembers(GridHits(g, cols, r - 1), RowHits(g, cols, r - 1, cols), o, r - 1, Records(g, cols, o));
  }

  /** The first `r` rows hold the occurrences of the first `r - 1` rows, then those of row `r - 1`. */
  lemma GridHitsLast(g: seq<string>, cols: nat, r: nat)
    requires Rectangular(g, cols) && 0 < r <= |g|
    ensures GridHits(g, cols, r) == GridHits(g, cols, r - 1) + RowHits(g, cols, r - 1, cols)
  {
  }

  /** Occurrences of earlier rows followed by those of row `row` are the occurrences of rows up to `row`. */
  lemma RowsJoinMembers(before: seq<Occurrence>, last: seq<Occurrence>, o: Occurrence, row: nat, recorded: bool)
    requires o in before <==> o.row < row && recorded
    requires o in last <==> o.row == row && recorded
    ensures o in before + last <==> o.row <= row && recorded
  {
  }

  /** Two sequences without repeats and without common elements join into one without repeats. */
  lemma DistinctJoin<T>(a: seq<T>, b: seq<T>)
    requires Distinct(a) && Distinct(b)
    requires forall i, j :: 0 <= i < |a| && 0 <= j < |b| ==> a[i] != b[j]
    ensures Distinct(a + b)
  {
    forall i, j | 0 <= i < j < |a + b|
      ensures (a + b)[i] != (a + b)[j]
    {
      if i < |a| && j >= |a| {
        assert (a + b)[i] == a[i] && (a + b)[j] == b[j - |a|];
      }
    }
  }

  /** The directions before the one at index `k` are all different from it. */
  lemma DirectionsDistinct(k: nat)
    requires k < |Directions|
    ensures Directions[k] !in Directions[..k]
  {
    var ds := Directions;
    assert ds[0] == (-1, -1) && ds[1] == (-1, 0) && ds[2] == (-1, 1) && ds[3] == (0, -1);
    assert ds[4] == (0, 1) && ds[5] == (1, -1) && ds[6] == (1, 0) && ds[7] == (1, 1);
    forall j | 0 <= j < k
      ensures ds[..k][j] != ds[k]
    {
      assert ds[..k][j] == ds[j];
    }
  }

  lemma {:induction false} CellHitsDistinct(g: seq<string>, cols: nat, row: nat, col: nat, k: nat)
    requires Rectangular(g, cols) && row < |g| && col < cols && k <= |Directions|
    ensures Distinct(CellHits(g, cols, row, col, k))
  {
    if k > 0 {
      CellHitsDistinct(g, cols, row, col, k - 1);
      CellStepDistinct(g, cols, row, col, k);
    }
  }

  /** Adding direction `k - 1` to a cell's hits without repeats keeps them without repeats. */
  lemma CellStepDistinct(g: seq<string>, cols: nat, row: nat, col: nat, k: nat)
    requires Rectangular(g, cols) && row < |g| && col < cols && 0 < k <= |Directions|
    requires Distinct(CellHits(g, cols, row, col, k - 1))
    ensures Distinct(CellHits(g, cols, row, col, k))
  {
    var a, b := CellHits(g, cols, row, col, k - 1), Hit(g, cols, row, col, Directions[k - 1]);
    DirectionApart(g, cols, row, col, k, a, b);
    DistinctJoin(a, b);
  }

  /** No hit of the first `k - 1` directions at a cell is the hit of direction `k - 1`. */
  lemma DirectionApart(g: seq<string>, cols: nat, row: nat, col: nat, k: nat, a: seq<Occurrence>, b: seq<Occurrence>)
    requires Rectangular(g, cols) && row < |g| && col < cols && 0 < k <= |Directions|
    requires a == CellHits(g, cols, row, col, k - 1) && b == Hit(g, cols, row, col, Directions[k - 1])
    ensures forall i, j :: 0 <= i < |a| && 0 <= j < |b| ==> a[i] != b[j]
  {
    DirectionsDistinct(k - 1);
    forall i, j | 0 <= i < |a| && 0 <= j < |b|
      ensures a[i] != b[j]
    {
      EarlierDirection(g, cols, row, col, k - 1, a, i);
      AtDirection(g, cols, row, col, k - 1, b, j);
    }
  }

  lemma EarlierDirection(g: seq<string>, cols: nat, row: nat, col: nat, k: nat, a: seq<Occurrence>, i: nat)
    requires Rectangular(g, cols) && row < |g| && col < cols && k <= |Directions|
    requires a == CellHits(g, cols, row, col, k) && i < |a|
    ensures (a[i].dr, a[i].dc) in Directions[..k]
  {
    CellHitsMembers(g, cols, row, col, k, a[i]);
  }

  lemma AtDirection(g: seq<string>, cols: nat, row: nat, col: nat, k: nat, b: seq<Occurrence>, j: nat)
    requires Rectangular(g, cols) && row < |g| && col < cols && k < |Directions|
    requires b == Hit(g, cols, row, col, Directions[k]) && j < |b|
    ensures (b[j].dr, b[j].dc) == Directions[k]
  {
    DirectionsAreNeighbours(Directions[k]);
    HitMembers(g, cols, row, col, Directions[k], b[j]);
  }

  lemma {:induction false} RowHitsDistinct(g: seq<string>, cols: nat, row: nat, c: nat)
    requires Rectangular(g, cols) && row < |g| && c <= cols
    ensures Distinct(RowHits(g, cols, row, c))
  {
    if c > 0 {
      RowHitsDistinct(g, cols, row, c - 1);
      RowStepDistinct(g, cols, row, c);
    }
  }

  /** Adding cell `c - 1` to a row's hits without repeats keeps them without repeats. */
  lemma RowStepDistinct(g: seq<string>, cols: nat, row: nat, c: nat)
    requires Rectangular(g, cols) && row < |g| && 0 < c <= cols
    requires Distinct(RowHits(g, cols, row, c - 1))
    ensures Distinct(RowHits(g, cols, row, c))
  {
    CellHitsDistinct(g, cols, row, c - 1, |Directions|);
    var a, b := RowHits(g, cols, row, c - 1), CellHits(g, cols, row, c - 1, |Directions|);
    CellApart(g, cols, row, c, a, b);
    DistinctJoin(a, b);
  }

  /** No hit of the first `c - 1` cells of a row is a hit of cell `c - 1`. */
  lemma CellApart(g: seq<string>, cols: nat, row: nat, c: nat, a: seq<Occurrence>, b: seq<Occurrence>)
    requires Rectangular(g, cols) && row < |g| && 0 < c <= cols
    requires a == RowHits(g, cols, row, c - 1) && b == CellHits(g, cols, row, c - 1, |Directions|)
    ensures forall i, j :: 0 <= i < |a| && 0 <= j < |b| ==> a[i] != b[j]
  {
    forall i, j | 0 <= i < |a| && 0 <= j < |b|
      ensures a[i] != b[j]
    {
      EarlierCell(g, cols, row, c - 1, a, i);
      AtCell(g, cols, row, c - 1, b, j);
    }
  }

  lemma EarlierCell(g: seq<string>, cols: nat, row: nat, c: nat, a: seq<Occurrence>, i: nat)
    requires Rectangular(g, cols) && row < |g| && c <= cols
    requires a == RowHits(g, cols, row, c) && i < |a|
    ensures a[i].col < c
  {
    RowHitsMembers(g, cols, row, c, a[i]);
  }

  lemma AtCell(g: seq<string>, cols: nat, row: nat, col: nat, b: seq<Occurrence>, j: nat)
    requires Rectangular(g, cols) && row < |g| && col < cols
    requires b == CellHits(g, cols, row, col, |Directions|) && j < |b|
    ensures b[j].col == col
  {
    CellMembersRecorded(g, cols, row, col, b[j]);
  }

  lemma {:induction false} GridHitsDistinct(g: seq<string>, cols: nat, r: nat)
    requires Rectangular(g, cols) && r <= |g|
    ensures Distinct(GridHits(g, cols, r))
  {
    if r > 0 {
      GridHitsDistinct(g, cols, r - 1);
      GridStepDistinct(g, cols, r);
    }
  }

  /** Adding row `r - 1` to the hits of earlier rows without repeats keeps them without repeats. */
  lemma GridStepDistinct(g: seq<string>, cols: nat, r: nat)
    requires Rectangular(g, cols) && 0 < r <= |g|
    requires Distinct(GridHits(g, cols, r - 1))
    ensures Distinct(GridHits(g, cols, r))
  {
    RowHitsDistinct(g, cols, r - 1, cols);
    var a, b := GridHits(g, cols, r - 1), RowHits(g, cols, r - 1, cols);
    GridHitsLast(g, cols, r);
    RowApart(g, cols, r, a, b);
    DistinctJoin(a, b);
  }

  /** No hit of the first `r - 1` rows is a hit of row `r - 1`. */
  lemma RowApart(g: seq<string>, cols: nat, r: nat, a: seq<Occurrence>, b: seq<Occurrence>)
    requires Rectangular(g, cols) && 0 < r <= |g|
    requires a == GridHits(g, cols, r - 1) && b == RowHits(g, cols, r - 1, cols)
    ensures forall i, j :: 0 <= i < |a| && 0 <= j < |b| ==> a[i] != b[j]
  {
    forall i, j | 0 <= i < |a| && 0 <= j < |b|
      ensures a[i] != b[j]
    {
      EarlierRow(g, cols, r - 1, a, i);
      AtRow(g, cols, r - 1, b, j);
    }
  }

  lemma EarlierRow(g: seq<string>, cols: nat, r: nat, a: seq<Occurrence>, i: nat)
    requires Rectangular(g, cols) && r <= |g|
    requires a == GridHits(g, cols, r) && i < |a|
    ensures a[i].row < r
  {
    GridHitsMembers(g, cols, r, a[i]);
  }

  lemma AtRow(g: seq<string>, cols: nat, row: nat, b: seq<Occurrence>, j: nat)
    requires Rectangular(g, cols) && row < |g|
    requires b == RowHits(g, cols, row, cols) && j < |b|
    ensures b[j].row == row
  {
    WholeRowMembers(g, cols, row, b[j]);
  }

  // ---------------------------------------------------------------------
  // The search as a whole.
  // ---------------------------------------------------------------------

  /**
   Soundness and completeness: for a grid with a non-empty first row, the
   search records exactly the occurrences of the word in the padded grid,
   each (start cell, direction) at most once.
   */
  lemma FindXmasExactly(grid: seq<string>, o: Occurrence)
    requires |grid| > 0 && |grid[0]| > 0
    ensures o in FindXmas(grid) <==> Records(Pad(grid), MaxLen(grid), o)
    ensures Distinct(FindXmas(grid))
    ensures |FindXmas(grid)| <= 8 * |grid| * MaxLen(grid)
  {
    GridHitsBound(Pad(grid), MaxLen(grid), |grid|);
    GridHitsMembers(Pad(grid), MaxLen(grid), |grid|, o);
    GridHitsDistinct(Pad(grid), MaxLen(grid), |grid|);
  }

  /**
   The letters read from a ragged grid: all four cells exist in their own
   (unpadded) rows and spell X, M, A, S.
   */
  predicate SpellsInRows(grid: seq<string>, row: int, col: int, dr: int, dc: int) {
    && 0 <= row < |grid| && 0 <= col < |grid[row]|
    && 0 <= row + dr < |grid| && 0 <= col + dc < |grid[row + dr]|
    && 0 <= row + 2 * dr < |grid| && 0 <= col + 2 * dc < |grid[row + 2 * dr]|
    && 0 <= row + 3 * dr < |grid| && 0 <= col + 3 * dc < |grid[row + 3 * dr]|
    && grid[row][col] == 'X' && grid[row + dr][col + dc] == 'M'
    && grid[row + 2 * dr][col + 2 * dc] == 'A' && grid[row + 3 * dr][col + 3 * dc] == 'S'
  }

  /** Padding adds only spaces, so no occurrence runs through a cell a row lacks. */
  lemma PaddingNeverMatches(grid: seq<string>, row: int, col: int, dr: int, dc: int)
    ensures SpellsAt(Pad(grid), MaxLen(grid), row, col, dr, dc) <==> SpellsInRows(grid, row, col, dr, dc)
  {
  }

  /** Every occurrence starts at an `X`, so a grid without one holds none. */
  lemma NoXmasWithoutX(grid: seq<string>)
    requires forall r, c :: 0 <= r < |grid| && 0 <= c < |grid[r]| ==> grid[r][c] != 'X'
    ensures FindXmas(grid) == []
  {
    if |grid| > 0 && |grid[0]| > 0 && FindXmas(grid) != [] {
      var o := FindXmas(grid)[0];
      FindXmasExactly(grid, o);
      PaddingNeverMatches(grid, o.row, o.col, o.dr, o.dc);
      assert false;
    }
  }

  /** A sequence without members is empty. */
  lemma NothingInEmpty<T>(s: seq<T>)
    requires forall x :: x !in s
    ensures s == []
  {
    forall x
      ensures multiset(s)[x] == 0
    {
      assert x !in s;
    }
    assert multiset(s) == multiset{};
  }

  /** A reading in a direction that moves spans four rows or four columns, so a smaller grid records nothing. */
  lemma SpansFour(g: seq<string>, cols: nat, o: Occurrence)
    requires Rectangular(g, cols) && |g| < 4 && cols < 4
    ensures !Records(g, cols, o)
  {
    if IsStep(o.dr, o.dc) && (o.dr, o.dc) != (0, 0) && o.dr == 0 {
      assert o.dc == 1 || o.dc == -1;
    }
  }

  /** The word spans four cells in a row, a column or a diagonal, so a grid under four cells each way holds none. */
  lemma TooSmallForXmas(grid: seq<string>)
    requires |grid| < 4 && MaxLen(grid) < 4
    ensures FindXmas(grid) == []
  {
    if |grid| > 0 && |grid[0]| > 0 {
      var s := FindXmas(grid);
      forall o | true
        ensures o !in s
      {
        FindXmasExactly(grid, o);
        SpansFour(Pad(grid), MaxLen(grid), o);
      }
      NothingInEmpty(s);
    }
  }

  // ---------------------------------------------------------------------
  // The loops.
  // ---------------------------------------------------------------------

  /** The ray-reading loop: one letter per step, as far as the word is long. */
  method ReadRay(g: seq<string>, cols: nat, row: nat, col: nat, dr: int, dc: int) returns (word: string)
    requires Rectangular(g, cols) && row < |g| && col < cols
    requires IsStep(dr, dc) && EndInBounds(|g|, cols, row, col, dr, dc)
    ensures word == Ray(g, cols, row, col, dr, dc)
  {
    word := "";
    var i := 0;
    while i < |Target|
      invariant 0 <= i <= |Target|
      invariant word == Ray(g, cols, row, col, dr, dc)[..i]
    {
      OnRay(|g|, row, dr, i);
      OnRay(cols, col, dc, i);
      assert i * dr == [0, dr, 2 * dr, 3 * dr][i] && i * dc == [0, dc, 2 * dc, 3 * dc][i];
      word := word + [g[row + i * dr][col + i * dc]];
      i := i + 1;
    }
  }

  /** A point `i` steps along a ray whose ends are in [0, n) is in [0, n) too. */
  lemma OnRay(n: nat, start: nat, d: int, i: nat)
    requires -1 <= d <= 1 && i <= 3 && start < n && 0 <= start + 3 * d < n
    ensures 0 <= start + i * d < n
  {
    if d == -1 {
      assert i * d == -(i as int);
    } else if d == 1 {
      assert i * d == i;
    } else {
      assert i * d == 0;
    }
  }

  /** The search loops: rows, then columns, then directions. */
  method FindXmasOccurrences(grid: seq<string>) returns (occ: seq<Occurrence>)
    ensures occ == FindXmas(grid)
  {
    if |grid| == 0 || |grid[0]| == 0 {
      return [];
    }
    var g := Pad(grid);
    var rows, cols := |g|, MaxLen(grid);
    occ := [];
    var row := 0;
    while row < rows
      invariant 0 <= row <= rows
      invariant occ == GridHits(g, cols, row)
    {
      var found := RowOccurrences(g, cols, row);
      GridHitsLast(g, cols, row + 1);
      occ := occ + found;
      row := row + 1;
    }
  }

  /** The column loop over one row. */
  method RowOccurrences(g: seq<string>, cols: nat, row: nat) returns (found: seq<Occurrence>)
    requires Rectangular(g, cols) && row < |g|
    ensures found == RowHits(g, cols, row, cols)
  {
    found := [];
    var col := 0;
    while col < cols
      invariant 0 <= col <= cols
      invariant found == RowHits(g, cols, row, col)
    {
      var here := CellOccurrences(g, cols, row, col);
      assert RowHits(g, cols, row, col + 1) == found + here;
      found := found + here;
      col := col + 1;
    }
  }

  /** The direction loop at one cell. */
  method CellOccurrences(g: seq<string>, cols: nat, row: nat, col: nat) returns (found: seq<Occurrence>)
    requires Rectangular(g, cols) && row < |g| && col < cols
    ensures found == CellHits(g, cols, row, col, |Directions|)
  {
    found := [];
    var k := 0;
    while k < |Directions|
      invariant 0 <= k <= |Directions|
      invariant found == CellHits(g, cols, row, col, k)
    {
      var d := Directions[k];
      DirectionsAreNeighbours(d);
      var hit := Hit(g, cols, row, col, d);
      if EndInBounds(|g|, cols, row, col, d.0, d.1) {
        var word := ReadRay(g, cols, row, col, d.0, d.1);
        if word == Target {
          assert hit == [Occurrence(row, col, d.0, d.1, word)];
          found := found + [Occurrence(row, col, d.0, d.1, word)];
        } else {
          assert hit == [];
        }
      } else {
        assert hit == [];
      }
      assert CellHits(g, cols, row, col, k + 1) == CellHits(g, cols, row, col, k) + hit;
      k := k + 1;
    }
  }

  /** The count is the number of occurrences found, at most eight per cell. */
  method CountXmasInGrid(grid: seq<string>) returns (count: nat)
    ensures count == |FindXmas(grid)|
    ensures count <= 8 * |grid| * MaxLen(grid)
  {
    var occ := FindXmasOccurrences(grid);
    count := |occ|;
    if |grid| > 0 && |grid[0]| > 0 {
      GridHitsBound(Pad(grid), MaxLen(grid), |grid|);
    }
  }
}
