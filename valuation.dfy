/** Valuation of one line (`calculate_expected_value`): the truncated mean
    payout over every completion of the line by digits not on the grid. */
module Valuation {
  import opened Candidates
  import opened CactpotGrid

  /** The payout table is a `[i32; 25]` indexed by line sum. */
  predicate PayoutTable(payouts: seq<int>) {
    |payouts| == 25
  }

  /** The known digits of a line, in cell order (line 89). */
  function LineDigits(digits: seq<Cell>): (r: seq<int>)
    ensures |r| <= |digits|
    ensures forall v :: v in r <==> Some(v) in digits
  {
    if digits == [] then []
    else (if digits[0].Some? then [digits[0].value] else []) + LineDigits(digits[1..])
  }

  /** Rust's `/` on `i32`: the quotient truncated toward zero. */
  function TruncDiv(a: int, b: int): (q: int)
    requires b > 0
    ensures a >= 0 ==> q * b <= a < q * b + b
    ensures a < 0 ==> q * b - b < a <= q * b
  {
    if a >= 0 then a / b else -((-a) / b)
  }

  /** Sum of the payouts of the given line sums (line 98). */
  function PayoutTotal(payouts: seq<int>, sums: seq<int>): int
    requires forall k :: 0 <= k < |sums| ==> 0 <= sums[k] < |payouts|
  {
    if sums == [] then 0 else payouts[sums[0]] + PayoutTotal(payouts, sums[1..])
  }

  /** What line 98 and line 101 need not to panic: every candidate sum is an
      index of the table, and there is at least one candidate. */
  predicate Evaluable(payouts: seq<int>, digits: seq<Cell>, pool: seq<int>) {
    var sums := CandidateSums(LineDigits(digits), pool);
    |sums| > 0 && forall k :: 0 <= k < |sums| ==> 0 <= sums[k] < |payouts|
  }

  /** `calculate_expected_value(grid, payouts, digits)`. A line that is
      already full has exactly one completion and is worth its own payout;
      in general the value is the truncated quotient of the payout total by
      the number of completions. */
  function ExpectedValue(g: Grid, payouts: seq<int>, digits: seq<Cell>): (r: int)
    requires PayoutTable(payouts) && |digits| == 3
    requires Evaluable(payouts, digits, UnusedDigits(g.used))
    ensures |LineDigits(digits)| == 3 ==> r == payouts[Sum(LineDigits(digits))]
    ensures var sums := CandidateSums(LineDigits(digits), UnusedDigits(g.used));
            var total := PayoutTotal(payouts, sums);
            if total >= 0 then r * |sums| <= total < r * |sums| + |sums|
            else r * |sums| - |sums| < total <= r * |sums|
  {
    var sums := CandidateSums(LineDigits(digits), UnusedDigits(g.used));
    var total := PayoutTotal(payouts, sums);
    assert |LineDigits(digits)| == 3 ==> sums == [Sum(LineDigits(digits))] && PayoutTotal(payouts, sums[1..]) == 0 && total == payouts[sums[0]];
    TruncDiv(total, |sums|)
  }

  // ---------------------------------------------------------------------
  // The value lies between the least and the greatest payout

  lemma {:induction false} PayoutTotalBounds(payouts: seq<int>, sums: seq<int>, lo: int, hi: int)
    requires forall k :: 0 <= k < |sums| ==> 0 <= sums[k] < |payouts| && lo <= payouts[sums[k]] <= hi
    ensures |sums| * lo <= PayoutTotal(payouts, sums) <= |sums| * hi
  {
    if sums != [] {
      PayoutTotalBounds(payouts, sums[1..], lo, hi);
      MulStep(|sums|, lo);
      MulStep(|sums|, hi);
    }
  }

  /** From n*lo <= a <= n*hi the truncated quotient a / n lies in lo..hi. */
  lemma TruncDivBetween(a: int, n: int, lo: int, hi: int)
    requires n > 0 && n * lo <= a <= n * hi
    ensures lo <= TruncDiv(a, n) <= hi
  {
    var q := TruncDiv(a, n);
    if q > hi {
      MulMono(hi + 1, q, n);
    }
    if q < lo {
      MulMono(q, lo - 1, n);
    }
  }

  lemma MulMono(a: int, b: int, n: int)
    requires a <= b && n > 0
    ensures a * n <= b * n
  {
  }

  /** If every candidate's payout lies in lo..hi, so does the line's value;
      with lo and hi the least and the greatest such payout this is the
      statement that the value lies between them. */
  lemma ExpectedValueBetween(g: Grid, payouts: seq<int>, digits: seq<Cell>, lo: int, hi: int)
    requires PayoutTable(payouts) && |digits| == 3
    requires Evaluable(payouts, digits, UnusedDigits(g.used))
    requires forall s :: s in CandidateSums(LineDigits(digits), UnusedDigits(g.used)) ==> lo <= payouts[s] <= hi
    ensures lo <= ExpectedValue(g, payouts, digits) <= hi
  {
    var sums := CandidateSums(LineDigits(digits), UnusedDigits(g.used));
    assert forall k :: 0 <= k < |sums| ==> lo <= payouts[sums[k]] <= hi;
    PayoutTotalBounds(payouts, sums, lo, hi);
    TruncDivBetween(PayoutTotal(payouts, sums), |sums|, lo, hi);
  }

  // ---------------------------------------------------------------------
  // Lines of a consistent grid never panic

  function Ind(c: Cell): nat {
    if c.Some? then 1 else 0
  }

  /** Number of filled cells. */
  function FilledCount(g: Grid): nat
    requires Shaped(g)
  {
    Ind(g.cells[0][0]) + Ind(g.cells[0][1]) + Ind(g.cells[0][2]) +
    Ind(g.cells[1][0]) + Ind(g.cells[1][1]) + Ind(g.cells[1][2]) +
    Ind(g.cells[2][0]) + Ind(g.cells[2][1]) + Ind(g.cells[2][2])
  }

  function CellSet(c: Cell): (r: set<int>)
    ensures |r| == Ind(c)
  {
    if c.Some? then {c.value} else {}
  }

  /** The digits whose flag is set. */
  function Flagged(used: seq<bool>, i: nat): set<int> {
    set k | i <= k < |used| && used[k] :: k + 1
  }

  /** The pool and the set flags together account for every digit. */
  lemma {:induction false} UnusedCount(used: seq<bool>, i: nat)
    requires i <= |used|
    ensures |UnusedFrom(used, i)| + |Flagged(used, i)| == |used| - i
    decreases |used| - i
  {
    if i < |used| {
      UnusedCount(used, i + 1);
      if used[i] {
        assert Flagged(used, i) == Flagged(used, i + 1) + {i + 1};
      } else {
        assert Flagged(used, i) == Flagged(used, i + 1);
      }
    } else {
      assert Flagged(used, i) == {};
    }
  }

  /** On a consistent grid no more digits are flagged than cells are filled. */
  lemma FlaggedAtMostFilled(g: Grid)
    requires Consistent(g)
    ensures |Flagged(g.used, 0)| <= FilledCount(g)
  {
    var c := g.cells;
    var row0 := RowSet(c[0]);
    var row1 := RowSet(c[1]);
    var row2 := RowSet(c[2]);
    var all := row0 + row1 + row2;
    UnionCard(row0, row1);
    UnionCard(row0 + row1, row2);
    forall d | d in Flagged(g.used, 0) ensures d in all {
      FlaggedIsOnGrid(g, d);
    }
    SubsetCard(Flagged(g.used, 0), all);
  }

  lemma FlaggedIsOnGrid(g: Grid, d: int)
    requires Shaped(g) && forall d :: IsDigit(d) ==> (g.used[d - 1] <==> Occurs(g, d))
    requires d in Flagged(g.used, 0)
    ensures d in RowSet(g.cells[0]) + RowSet(g.cells[1]) + RowSet(g.cells[2])
  {
    assert Occurs(g, d) by {
      var k :| 0 <= k < |g.used| && g.used[k] && d == k + 1;
      assert IsDigit(d) && g.used[d - 1];
    }
    var y, x :| 0 <= y < 3 && 0 <= x < 3 && g.cells[y][x] == Some(d);
    var row := g.cells[y];
    assert d in RowSet(row) by {
      assert row[x].Some? && row[x].value == d;
    }
    if y == 0 {
      assert row == g.cells[0];
    } else if y == 1 {
      assert row == g.cells[1];
    } else {
      assert row == g.cells[2];
    }
  }

  /** The digits held by a row of three cells. */
  function RowSet(row: seq<Cell>): (r: set<int>)
    requires |row| == 3
    ensures |r| <= Ind(row[0]) + Ind(row[1]) + Ind(row[2])
    ensures forall k :: 0 <= k < 3 && row[k].Some? ==> row[k].value in r
  {
    UnionCard(CellSet(row[0]), CellSet(row[1]));
    UnionCard(CellSet(row[0]) + CellSet(row[1]), CellSet(row[2]));
    CellSet(row[0]) + CellSet(row[1]) + CellSet(row[2])
  }

  lemma UnionCard(a: set<int>, b: set<int>)
    ensures |a + b| <= |a| + |b|
  {
  }

  lemma SubsetCard(a: set<int>, b: set<int>)
    requires a <= b
    ensures |a| <= |b|
  {
    assert b == a + (b - a);
  }

  lemma {:induction false} LineDigitsDistinct(digits: seq<Cell>)
    requires forall i, j :: 0 <= i < j < |digits| && digits[i].Some? ==> digits[i] != digits[j]
    ensures Distinct(LineDigits(digits))
  {
    if digits != [] {
      var tail := digits[1..];
      LineDigitsDistinct(tail);
      var head := if digits[0].Some? then [digits[0].value] else [];
      var rest := LineDigits(tail);
      if digits[0].Some? {
        assert digits[0].value !in rest;
        forall a, b | 0 <= a < b < |head + rest| ensures (head + rest)[a] != (head + rest)[b] {
          assert (head + rest)[b] == rest[b - 1];
          if a > 0 { assert (head + rest)[a] == rest[a - 1]; }
        }
      } else {
        assert head + rest == rest;
      }
    }
  }

  lemma LineDigitsThree(a: Cell, b: Cell, c: Cell)
    ensures LineDigits([a, b, c]) ==
      (if a.Some? then [a.value] else []) + (if b.Some? then [b.value] else []) + (if c.Some? then [c.value] else [])
    ensures |LineDigits([a, b, c])| == Ind(a) + Ind(b) + Ind(c)
    ensures a.Some? && b.Some? && c.Some? ==> LineDigits([a, b, c]) == [a.value, b.value, c.value]
  {
    assert [a, b, c][1..] == [b, c];
    assert [b, c][1..] == [c];
    assert [c][1..] == [];
    assert LineDigits([c]) == (if c.Some? then [c.value] else []) + LineDigits([]);
    assert LineDigits([b, c]) == (if b.Some? then [b.value] else []) + LineDigits([c]);
    assert LineDigits([a, b, c]) == (if a.Some? then [a.value] else []) + LineDigits([b, c]);
  }

  /** At most six cells lie outside three distinct cells of the grid. */
  lemma OutsideAtMostSix(g: Grid, a: Point, b: Point, c: Point)
    requires Shaped(g)
    requires InBounds(a) && InBounds(b) && InBounds(c) && a != b && b != c && a != c
    ensures FilledCount(g) <= Ind(g.cells[a.0][a.1]) + Ind(g.cells[b.0][b.1]) + Ind(g.cells[c.0][c.1]) + 6
  {
  }

  /** The line through three distinct cells `a`, `b`, `c` of a consistent
      grid can be valued without a panic: the candidate sums all lie in
      6..24 and there is at least one of them. */
  lemma LineEvaluable(g: Grid, payouts: seq<int>, a: Point, b: Point, c: Point)
    requires Consistent(g) && PayoutTable(payouts)
    requires InBounds(a) && InBounds(b) && InBounds(c) && a != b && b != c && a != c
    ensures Evaluable(payouts, [g.cells[a.0][a.1], g.cells[b.0][b.1], g.cells[c.0][c.1]], UnusedDigits(g.used))
    ensures forall s :: s in CandidateSums(LineDigits([g.cells[a.0][a.1], g.cells[b.0][b.1], g.cells[c.0][c.1]]), UnusedDigits(g.used))
                        ==> 6 <= s <= 24
  {
    var digits := [g.cells[a.0][a.1], g.cells[b.0][b.1], g.cells[c.0][c.1]];
    var known := LineDigits(digits);
    var pool := UnusedDigits(g.used);
    LineHasCandidates(g, a, b, c);
    LineKnownDigits(g, a, b, c);
    var sums := CandidateSums(known, pool);
    forall s | s in sums ensures 6 <= s <= 24 {
      CandidateSumRange(known, pool, s);
    }
    assert forall k :: 0 <= k < |sums| ==> 0 <= sums[k] < |payouts| by {
      forall k | 0 <= k < |sums| ensures 0 <= sums[k] < |payouts| {
        assert sums[k] in sums;
      }
    }
  }

  /** Enough digits are unused to complete the line. */
  lemma LineHasCandidates(g: Grid, a: Point, b: Point, c: Point)
    requires Consistent(g)
    requires InBounds(a) && InBounds(b) && InBounds(c) && a != b && b != c && a != c
    ensures |CandidateSums(LineDigits([g.cells[a.0][a.1], g.cells[b.0][b.1], g.cells[c.0][c.1]]), UnusedDigits(g.used))| > 0
  {
    var digits := [g.cells[a.0][a.1], g.cells[b.0][b.1], g.cells[c.0][c.1]];
    var known := LineDigits(digits);
    var pool := UnusedDigits(g.used);
    LineDigitsThree(digits[0], digits[1], digits[2]);
    OutsideAtMostSix(g, a, b, c);
    UnusedCount(g.used, 0);
    FlaggedAtMostFilled(g);
    assert |pool| >= 3 - |known|;
    CandidateCount(known, pool);
  }

  /** The known digits of a line of a consistent grid are distinct digits,
      and none of them is in the pool. */
  lemma LineKnownDigits(g: Grid, a: Point, b: Point, c: Point)
    requires Consistent(g)
    requires InBounds(a) && InBounds(b) && InBounds(c) && a != b && b != c && a != c
    ensures var known := LineDigits([g.cells[a.0][a.1], g.cells[b.0][b.1], g.cells[c.0][c.1]]);
            && Distinct(known)
            && (forall k :: 0 <= k < |known| ==> IsDigit(known[k]))
            && (forall k :: 0 <= k < |UnusedDigits(g.used)| ==> IsDigit(UnusedDigits(g.used)[k]) && UnusedDigits(g.used)[k] !in known)
  {
    var digits := [g.cells[a.0][a.1], g.cells[b.0][b.1], g.cells[c.0][c.1]];
    var known := LineDigits(digits);
    var pool := UnusedDigits(g.used);
    assert forall i, j :: 0 <= i < j < 3 && digits[i].Some? ==> digits[i] != digits[j];
    LineDigitsDistinct(digits);
    forall k | 0 <= k < |known| ensures IsDigit(known[k]) {
      assert Some(known[k]) in digits;
    }
    forall k | 0 <= k < |pool| ensures IsDigit(pool[k]) && pool[k] !in known {
      assert pool[k] in pool;
      if pool[k] in known {
        assert Some(pool[k]) in digits;
        assert Occurs(g, pool[k]);
      }
    }
  }

  /** The least payout of the meaningful sums lo..hi of the table. */
  function MinPayout(payouts: seq<int>, lo: nat, hi: nat): (m: int)
    requires lo <= hi < |payouts|
    ensures forall s :: lo <= s <= hi ==> m <= payouts[s]
    ensures exists s :: lo <= s <= hi && m == payouts[s]
    decreases hi - lo
  {
    if lo == hi then payouts[lo]
    else
      var rest := MinPayout(payouts, lo + 1, hi);
      if payouts[lo] <= rest then payouts[lo] else rest
  }

  /** The greatest payout of the meaningful sums lo..hi of the table. */
  function MaxPayout(payouts: seq<int>, lo: nat, hi: nat): (m: int)
    requires lo <= hi < |payouts|
    ensures forall s :: lo <= s <= hi ==> payouts[s] <= m
    ensures exists s :: lo <= s <= hi && m == payouts[s]
    decreases hi - lo
  {
    if lo == hi then payouts[lo]
    else
      var rest := MaxPayout(payouts, lo + 1, hi);
      if payouts[lo] >= rest then payouts[lo] else rest
  }

  /** On a consistent grid every line is worth between the least and the
      greatest payout for the sums 6..24. */
  lemma LineValueInTableRange(g: Grid, payouts: seq<int>, a: Point, b: Point, c: Point)
    requires Consistent(g) && PayoutTable(payouts)
    requires InBounds(a) && InBounds(b) && InBounds(c) && a != b && b != c && a != c
    ensures Evaluable(payouts, [g.cells[a.0][a.1], g.cells[b.0][b.1], g.cells[c.0][c.1]], UnusedDigits(g.used))
    ensures var v := ExpectedValue(g, payouts, [g.cells[a.0][a.1], g.cells[b.0][b.1], g.cells[c.0][c.1]]);
            MinPayout(payouts, 6, 24) <= v <= MaxPayout(payouts, 6, 24)
  {
    LineEvaluable(g, payouts, a, b, c);
    ExpectedValueBetween(g, payouts, [g.cells[a.0][a.1], g.cells[b.0][b.1], g.cells[c.0][c.1]],
                         MinPayout(payouts, 6, 24), MaxPayout(payouts, 6, 24));
  }
}
