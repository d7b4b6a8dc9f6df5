/**
 Day 4, shared by both searches: the letter grid, given as a list of rows
 that may differ in length, is right-padded with spaces to its longest row
 before it is searched.
 */
module WordGrid {

  /** Every row of `g` has exactly `cols` characters. */
  predicate Rectangular(g: seq<string>, cols: nat) {
    forall k :: 0 <= k < |g| ==> |g[k]| == cols
  }

  /** The length of the longest row; 0 for no rows. */
  function MaxLen(grid: seq<string>): (n: nat)
    ensures forall k :: 0 <= k < |grid| ==> |grid[k]| <= n
    ensures |grid| == 0 ==> n == 0
    ensures |grid| > 0 ==> exists k :: 0 <= k < |grid| && |grid[k]| == n
  {
    if |grid| == 0 then 0
    else
      var rest := MaxLen(grid[1..]);
      assert forall k :: 1 <= k < |grid| ==> grid[k] == grid[1..][k - 1];
      if |grid[0]| >= rest then |grid[0]| else rest
  }

  /** `row` left-justified in a field of `width` characters: spaces are added, nothing is cut. */
  function PadRow(row: string, width: nat): (padded: string)
    ensures |padded| == if |row| >= width then |row| else width
    ensures forall j :: 0 <= j < |padded| ==> padded[j] == if j < |row| then row[j] else ' '
  {
    if |row| >= width then row else row + seq(width - |row|, _ => ' ')
  }

  /**
   The character at column `c` of row `r` of the ragged grid, reading a
   space where the row is too short.
   */
  function CellOrSpace(grid: seq<string>, r: nat, c: nat): char
    requires r < |grid|
  {
    if c < |grid[r]| then grid[r][c] else ' '
  }

  /** Every row padded to the longest row's length. */
  function Pad(grid: seq<string>): (g: seq<string>)
    ensures |g| == |grid| && Rectangular(g, MaxLen(grid))
    ensures forall r, c :: 0 <= r < |g| && 0 <= c < MaxLen(grid) ==> g[r][c] == CellOrSpace(grid, r, c)
  {
    seq(|grid|, k requires 0 <= k < |grid| => PadRow(grid[k], MaxLen(grid)))
  }

  /** A grid whose rows all have one length is left as it is. */
  lemma PadRectangular(grid: seq<string>, cols: nat)
    requires |grid| > 0 && Rectangular(grid, cols)
    ensures MaxLen(grid) == cols && Pad(grid) == grid
  {
    var g := Pad(grid);
    forall k | 0 <= k < |grid|
      ensures g[k] == grid[k]
    {
      assert g[k] == PadRow(grid[k], MaxLen(grid));
    }
  }
}
