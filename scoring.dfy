/** The line extractors, `score` (the eight line values added up) and
    `calculate_average_increase` (the scores of every hypothetical placement
    of an unused digit at one cell, added up). */
module Scoring {
  import opened Candidates
  import opened CactpotGrid
  import opened Valuation

  /** The three cells of row `row`, left to right (line 70). */
  function RowCells(g: Grid, row: int): seq<Cell>
    requires Shaped(g) && 0 <= row < 3
  {
    [g.cells[row][0], g.cells[row][1], g.cells[row][2]]
  }

  /** The three cells of column `column`, top to bottom (line 75). */
  function ColumnCells(g: Grid, column: int): seq<Cell>
    requires Shaped(g) && 0 <= column < 3
  {
    [g.cells[0][column], g.cells[1][column], g.cells[2][column]]
  }

  /** Diagonal 0 runs from the top-left corner, diagonal 1 from the
      top-right corner (lines 81-82). */
  function DiagonalCells(g: Grid, diagonal: int): seq<Cell>
    requires Shaped(g) && (diagonal == 0 || diagonal == 1)
  {
    if diagonal == 0 then [g.cells[0][0], g.cells[1][1], g.cells[2][2]]
    else [g.cells[0][2], g.cells[1][1], g.cells[2][0]]
  }

  /** A full line is worth exactly the payout of its digit sum. */
  predicate WorthOwnPayout(r: int, payouts: seq<int>, line: seq<Cell>)
    requires |line| == 3
  {
    (line[0].Some? && line[1].Some? && line[2].Some?) ==>
      var s := line[0].value + line[1].value + line[2].value;
      0 <= s < |payouts| && r == payouts[s]
  }

  /** The payouts any line of a consistent grid can be worth lie between
      the least and the greatest entry for the sums 6..24. */
  predicate InTableRange(r: int, payouts: seq<int>)
    requires PayoutTable(payouts)
  {
    MinPayout(payouts, 6, 24) <= r <= MaxPayout(payouts, 6, 24)
  }

  lemma FullLineValue(g: Grid, payouts: seq<int>, line: seq<Cell>)
    requires PayoutTable(payouts) && |line| == 3
    requires Evaluable(payouts, line, UnusedDigits(g.used))
    ensures WorthOwnPayout(ExpectedValue(g, payouts, line), payouts, line)
  {
    if line[0].Some? && line[1].Some? && line[2].Some? {
      assert line == [line[0], line[1], line[2]];
      LineDigitsThree(line[0], line[1], line[2]);
      Sum3(LineDigits(line));
    }
  }

  /** The line through any three distinct cells of a consistent grid can be
      valued and its value lies in the range of the table; the eight lines
      are instances. */
  lemma ConsistentLine(g: Grid, payouts: seq<int>, a: Point, b: Point, c: Point)
    requires Consistent(g) && PayoutTable(payouts)
    requires InBounds(a) && InBounds(b) && InBounds(c) && a != b && b != c && a != c
    ensures var line := [g.cells[a.0][a.1], g.cells[b.0][b.1], g.cells[c.0][c.1]];
            Evaluable(payouts, line, UnusedDigits(g.used)) && InTableRange(ExpectedValue(g, payouts, line), payouts)
  {
    LineValueInTableRange(g, payouts, a, b, c);
  }

  /** `calculate_row_candidates`: the value of row `row`. */
  function RowCandidates(g: Grid, row: int, payouts: seq<int>): (r: int)
    requires Shaped(g) && 0 <= row < 3 && PayoutTable(payouts)
    requires Evaluable(payouts, RowCells(g, row), UnusedDigits(g.used))
    ensures WorthOwnPayout(r, payouts, RowCells(g, row))
    ensures Consistent(g) ==> InTableRange(r, payouts)
  {
    FullLineValue(g, payouts, RowCells(g, row));
    RowInRange(g, payouts, row);
    ExpectedValue(g, payouts, RowCells(g, row))
  }

  /** `calculate_column_candidates`: the value of column `column`. */
  function ColumnCandidates(g: Grid, column: int, payouts: seq<int>): (r: int)
    requires Shaped(g) && 0 <= column < 3 && PayoutTable(payouts)
    requires Evaluable(payouts, ColumnCells(g, column), UnusedDigits(g.used))
    ensures WorthOwnPayout(r, payouts, ColumnCells(g, column))
    ensures Consistent(g) ==> InTableRange(r, payouts)
  {
    FullLineValue(g, payouts, ColumnCells(g, column));
    ColumnInRange(g, payouts, column);
    ExpectedValue(g, payouts, ColumnCells(g, column))
  }

  /** `calculate_diagonal_candidates`: the value of diagonal 0 or 1; any
      other index panics in the source. */
  function DiagonalCandidates(g: Grid, diagonal: int, payouts: seq<int>): (r: int)
    requires Shaped(g) && (diagonal == 0 || diagonal == 1) && PayoutTable(payouts)
    requires Evaluable(payouts, DiagonalCells(g, diagonal), UnusedDigits(g.used))
    ensures WorthOwnPayout(r, payouts, DiagonalCells(g, diagonal))
    ensures Consistent(g) ==> InTableRange(r, payouts)
  {
    FullLineValue(g, payouts, DiagonalCells(g, diagonal));
    DiagonalInRange(g, payouts, diagonal);
    ExpectedValue(g, payouts, DiagonalCells(g, diagonal))
  }

  lemma RowInRange(g: Grid, payouts: seq<int>, row: int)
    requires Shaped(g) && 0 <= row < 3 && PayoutTable(payouts)
    requires Evaluable(payouts, RowCells(g, row), UnusedDigits(g.used))
    ensures Consistent(g) ==> InTableRange(ExpectedValue(g, payouts, RowCells(g, row)), payouts)
  {
    if Consistent(g) {
      ConsistentLine(g, payouts, (row, 0), (row, 1), (row, 2));
    }
  }

  lemma ColumnInRange(g: Grid, payouts: seq<int>, column: int)
    requires Shaped(g) && 0 <= column < 3 && PayoutTable(payouts)
    requires Evaluable(payouts, ColumnCells(g, column), UnusedDigits(g.used))
    ensures Consistent(g) ==> InTableRange(ExpectedValue(g, payouts, ColumnCells(g, column)), payouts)
  {
    if Consistent(g) {
      ConsistentLine(g, payouts, (0, column), (1, column), (2, column));
    }
  }

  lemma DiagonalInRange(g: Grid, payouts: seq<int>, diagonal: int)
    requires Shaped(g) && (diagonal == 0 || diagonal == 1) && PayoutTable(payouts)
    requires Evaluable(payouts, DiagonalCells(g, diagonal), UnusedDigits(g.used))
    ensures Consistent(g) ==> InTableRange(ExpectedValue(g, payouts, DiagonalCells(g, diagonal)), payouts)
  {
    if Consistent(g) {
      ConsistentDiagonal(g, payouts, diagonal);
    }
  }

  lemma ConsistentDiagonal(g: Grid, payouts: seq<int>, diagonal: int)
    requires Consistent(g) && PayoutTable(payouts) && (diagonal == 0 || diagonal == 1)
    ensures Evaluable(payouts, DiagonalCells(g, diagonal), UnusedDigits(g.used))
    ensures InTableRange(ExpectedValue(g, payouts, DiagonalCells(g, diagonal)), payouts)
  {
    if diagonal == 0 {
      ConsistentLine(g, payouts, (0, 0), (1, 1), (2, 2));
    } else {
      ConsistentLine(g, payouts, (0, 2), (1, 1), (2, 0));
    }
  }

  /** None of the eight lines panics. */
  predicate ScoreDefined(g: Grid, payouts: seq<int>)
    requires Shaped(g)
  {
    var pool := UnusedDigits(g.used);
    && Evaluable(payouts, RowCells(g, 0), pool)
    && Evaluable(payouts, RowCells(g, 1), pool)
    && Evaluable(payouts, RowCells(g, 2), pool)
    && Evaluable(payouts, ColumnCells(g, 0), pool)
    && Evaluable(payouts, ColumnCells(g, 1), pool)
    && Evaluable(payouts, ColumnCells(g, 2), pool)
    && Evaluable(payouts, DiagonalCells(g, 0), pool)
    && Evaluable(payouts, DiagonalCells(g, 1), pool)
  }

  /** A consistent grid can always be scored. */
  lemma ConsistentScoreDefined(g: Grid, payouts: seq<int>)
    requires Consistent(g) && PayoutTable(payouts)
    ensures ScoreDefined(g, payouts)
  {
    ConsistentLine(g, payouts, (0, 0), (0, 1), (0, 2));
    ConsistentLine(g, payouts, (1, 0), (1, 1), (1, 2));
    ConsistentLine(g, payouts, (2, 0), (2, 1), (2, 2));
    ConsistentLine(g, payouts, (0, 0), (1, 0), (2, 0));
    ConsistentLine(g, payouts, (0, 1), (1, 1), (2, 1));
    ConsistentLine(g, payouts, (0, 2), (1, 2), (2, 2));
    ConsistentLine(g, payouts, (0, 0), (1, 1), (2, 2));
    ConsistentLine(g, payouts, (0, 2), (1, 1), (2, 0));
  }

  /** `score`: the three rows, three columns and two diagonals added up;
      on a consistent grid eight times the table's range bounds it. */
  function Score(g: Grid, payouts: seq<int>): (r: int)
    requires Shaped(g) && PayoutTable(payouts) && ScoreDefined(g, payouts)
    ensures Consistent(g) ==> 8 * MinPayout(payouts, 6, 24) <= r <= 8 * MaxPayout(payouts, 6, 24)
  {
    RowCandidates(g, 0, payouts) + RowCandidates(g, 1, payouts) + RowCandidates(g, 2, payouts) +
    ColumnCandidates(g, 0, payouts) + ColumnCandidates(g, 1, payouts) + ColumnCandidates(g, 2, payouts) +
    DiagonalCandidates(g, 0, payouts) + DiagonalCandidates(g, 1, payouts)
  }

  /** What `calculate_average_increase` needs at cell `p`: placing any
      unused digit there gives a grid that can be scored. */
  predicate PlacementsDefined(g: Grid, payouts: seq<int>, p: Point, ds: seq<int>)
    requires Shaped(g) && InBounds(p) && DigitOrEmpty(g.cells[p.0][p.1])
  {
    forall k :: 0 <= k < |ds| ==>
      IsDigit(ds[k]) && ScoreDefined(Set(g, Some(ds[k]), p), payouts)
  }

  /** The score of each hypothetical grid with a digit of `ds` placed at
      `p`, in the order of `ds` (the `map` of lines 119-121). */
  function PlacementScores(g: Grid, payouts: seq<int>, p: Point, ds: seq<int>): (r: seq<int>)
    requires Shaped(g) && InBounds(p) && DigitOrEmpty(g.cells[p.0][p.1]) && PayoutTable(payouts)
    requires PlacementsDefined(g, payouts, p, ds)
  {
    seq(|ds|, k requires 0 <= k < |ds| => Score(Set(g, Some(ds[k]), p), payouts))
  }

  /** Placing an unused digit at any cell of a consistent grid gives a
      consistent grid, whose score is within eight times the table's range. */
  lemma PlacementScore(g: Grid, payouts: seq<int>, p: Point, d: int)
    requires Consistent(g) && PayoutTable(payouts) && InBounds(p)
    requires IsDigit(d) && !g.used[d - 1]
    ensures Consistent(Set(g, Some(d), p)) && ScoreDefined(Set(g, Some(d), p), payouts)
    ensures 8 * MinPayout(payouts, 6, 24) <= Score(Set(g, Some(d), p), payouts) <= 8 * MaxPayout(payouts, 6, 24)
  {
    assert !Occurs(g, d);
    SetPreservesConsistent(g, Some(d), p);
    ConsistentScoreDefined(Set(g, Some(d), p), payouts);
  }

  /** A sum of |s| values each within lo..hi lies within |s|*lo..|s|*hi. */
  lemma {:induction false} SumBounds(s: seq<int>, lo: int, hi: int)
    requires forall k :: 0 <= k < |s| ==> lo <= s[k] <= hi
    ensures |s| * lo <= Sum(s) <= |s| * hi
  {
    if s != [] {
      assert forall k :: 0 <= k < |s[1..]| ==> s[1..][k] == s[k + 1];
      SumBounds(s[1..], lo, hi);
      MulStep(|s|, lo);
      MulStep(|s|, hi);
    }
  }

  /** The bound of `AverageIncrease`, for a consistent grid. */
  lemma AverageIncreaseBounds(g: Grid, payouts: seq<int>, p: Point)
    requires Shaped(g) && InBounds(p) && DigitOrEmpty(g.cells[p.0][p.1]) && PayoutTable(payouts)
    requires PlacementsDefined(g, payouts, p, UnusedDigits(g.used))
    ensures var scores := PlacementScores(g, payouts, p, UnusedDigits(g.used));
            Consistent(g) ==> |scores| * (8 * MinPayout(payouts, 6, 24)) <= Sum(scores) <= |scores| * (8 * MaxPayout(payouts, 6, 24))
  {
    if Consistent(g) {
      var ds := UnusedDigits(g.used);
      var scores := PlacementScores(g, payouts, p, ds);
      forall k | 0 <= k < |scores|
        ensures 8 * MinPayout(payouts, 6, 24) <= scores[k] <= 8 * MaxPayout(payouts, 6, 24)
      {
        assert ds[k] in ds;
        PlacementScore(g, payouts, p, ds[k]);
      }
      SumBounds(scores, 8 * MinPayout(payouts, 6, 24), 8 * MaxPayout(payouts, 6, 24));
    }
  }

  /** `calculate_average_increase(grid, payouts, point)`: for every digit
      whose flag is clear, in ascending order, the score of the grid with
      that digit placed at `point`, added up. The grid itself is a value
      and is not changed. On a consistent grid the sum lies within
      (number of unused digits) * 8 times the table's range. */
  function AverageIncrease(g: Grid, payouts: seq<int>, p: Point): (r: int)
    requires Shaped(g) && InBounds(p) && DigitOrEmpty(g.cells[p.0][p.1]) && PayoutTable(payouts)
    requires PlacementsDefined(g, payouts, p, UnusedDigits(g.used))
    ensures var n := |UnusedDigits(g.used)|;
            Consistent(g) ==> n * (8 * MinPayout(payouts, 6, 24)) <= r <= n * (8 * MaxPayout(payouts, 6, 24))
  {
    AverageIncreaseBounds(g, payouts, p);
    Sum(PlacementScores(g, payouts, p, UnusedDigits(g.used)))
  }

  /** On a consistent grid `calculate_average_increase` never panics, at
      any cell. */
  lemma ConsistentAverageIncreaseDefined(g: Grid, payouts: seq<int>, p: Point)
    requires Consistent(g) && PayoutTable(payouts) && InBounds(p)
    ensures DigitOrEmpty(g.cells[p.0][p.1])
    ensures PlacementsDefined(g, payouts, p, UnusedDigits(g.used))
  {
    var ds := UnusedDigits(g.used);
    forall k | 0 <= k < |ds| ensures IsDigit(ds[k]) && ScoreDefined(Set(g, Some(ds[k]), p), payouts) {
      assert ds[k] in ds;
      PlacementScore(g, payouts, p, ds[k]);
    }
  }
}
