/** The worked example of the repository's unit test: the payout table of
    the game, an empty grid with `1` placed in the top-left corner, and the
    score of that grid. The three lines through the corner are each worth
    528 and the five others 276, for 2964 in all. */
module Scenario {
  import opened Candidates
  import opened CactpotGrid
  import opened Valuation
  import opened Scoring
  import opened Reference
  import opened Totals

  /** The payout table of the unit test, indexed by line sum. */
  const TestPayouts: seq<int> :=
    [0, 0, 0, 0, 0, 0, 10000, 36, 720, 360, 80, 252, 108, 72, 54, 180, 72, 180, 119, 36, 306, 1080, 144, 1800, 3600]

  /** `q` lists the digits 2..9 in ascending order: the unused digits once
      `1` is on the grid. */
  predicate IsRest(q: seq<int>) {
    |q| == 8 && forall i :: 0 <= i < 8 ==> q[i] == i + 2
  }

  /** The grid of the unit test. */
  function TestGrid(): Grid {
    Set(New(), Some(1), (0, 0))
  }

  // ---------------------------------------------------------------------
  // Totals over the pool 2..9

  lemma OverRest(g: int -> int, q: seq<int>)
    requires IsRest(q)
    ensures SumOf(g, q) == g(2) + g(3) + g(4) + g(5) + g(6) + g(7) + g(8) + g(9)
  {
    assert q[0..] == q;
    SumOfAt(g, q, 0);
    SumOfAt(g, q, 1);
    SumOfAt(g, q, 2);
    SumOfAt(g, q, 3);
    SumOfAt(g, q, 4);
    SumOfAt(g, q, 5);
    SumOfAt(g, q, 6);
    SumOfAt(g, q, 7);
    assert q[8..] == [];
  }

  lemma RestDistinct(q: seq<int>)
    requires IsRest(q)
    ensures Distinct(q)
    ensures forall x :: x in q <==> 2 <= x <= 9
  {
    forall x | 2 <= x <= 9 ensures x in q {
      assert q[x - 2] == x;
    }
  }

  function ShiftRest(p: seq<int>, t: int): int {
    At(p, t + 2) + At(p, t + 3) + At(p, t + 4) + At(p, t + 5) +
    At(p, t + 6) + At(p, t + 7) + At(p, t + 8) + At(p, t + 9)
  }

  lemma ShiftOnRest(p: seq<int>, t: int, q: seq<int>)
    requires IsRest(q)
    ensures Shift(p, t, q) == ShiftRest(p, t)
  {
    OverRest(ShiftBy(p, t), q);
  }

  /** The ordered pairs of distinct digits of 2..9: the pairs of all digits
      less those with twice the same digit. */
  function PairRest(p: seq<int>, s: int): int {
    (ShiftRest(p, s + 2) - At(p, s + 4)) + (ShiftRest(p, s + 3) - At(p, s + 6)) +
    (ShiftRest(p, s + 4) - At(p, s + 8)) + (ShiftRest(p, s + 5) - At(p, s + 10)) +
    (ShiftRest(p, s + 6) - At(p, s + 12)) + (ShiftRest(p, s + 7) - At(p, s + 14)) +
    (ShiftRest(p, s + 8) - At(p, s + 16)) + (ShiftRest(p, s + 9) - At(p, s + 18))
  }

  lemma PairStep(p: seq<int>, s: int, q: seq<int>, x: int)
    requires IsRest(q) && 2 <= x <= 9
    ensures PairBy(p, s, q)(x) == ShiftRest(p, s + x) - At(p, s + x + x)
  {
    var t := s + x;
    RestDistinct(q);
    ShiftWithout(p, t, q, x);
    ShiftOnRest(p, t, q);
  }

  lemma PairOnRest(p: seq<int>, s: int, q: seq<int>)
    requires IsRest(q)
    ensures Pair(p, s, q) == PairRest(p, s)
  {
    OverRest(PairBy(p, s, q), q);
    PairStep(p, s, q, 2);
    PairStep(p, s, q, 3);
    PairStep(p, s, q, 4);
    PairStep(p, s, q, 5);
    PairStep(p, s, q, 6);
    PairStep(p, s, q, 7);
    PairStep(p, s, q, 8);
    PairStep(p, s, q, 9);
  }

  function TripleTerm(p: seq<int>, z: int): int {
    PairRest(p, z) - 2 * ShiftRest(p, z + z) + 2 * At(p, z + z + z)
  }

  lemma TripleStep(p: seq<int>, q: seq<int>, z: int)
    requires IsRest(q) && 2 <= z <= 9
    ensures TripleBy(p, 0, q)(z) == TripleTerm(p, z)
  {
    RestDistinct(q);
    PairWithout(p, z, q, z);
    PairOnRest(p, z, q);
    ShiftOnRest(p, z + z, q);
  }

  lemma TripleOnRest(p: seq<int>, q: seq<int>)
    requires IsRest(q)
    ensures Triple(p, 0, q) ==
      TripleTerm(p, 2) + TripleTerm(p, 3) + TripleTerm(p, 4) + TripleTerm(p, 5) +
      TripleTerm(p, 6) + TripleTerm(p, 7) + TripleTerm(p, 8) + TripleTerm(p, 9)
  {
    OverRest(TripleBy(p, 0, q), q);
    TripleStep(p, q, 2);
    TripleStep(p, q, 3);
    TripleStep(p, q, 4);
    TripleStep(p, q, 5);
    TripleStep(p, q, 6);
    TripleStep(p, q, 7);
    TripleStep(p, q, 8);
    TripleStep(p, q, 9);
  }

  lemma TestPairRest()
    ensures PairRest(TestPayouts, 1) == 29610
  {
  }

  /** The 56 ordered pairs completing a line that holds the `1`. */
  lemma TestPairTotal(q: seq<int>)
    requires IsRest(q)
    ensures Pair(TestPayouts, 1, q) == 29610
  {
    PairOnRest(TestPayouts, 1, q);
    TestPairRest();
  }

  lemma TestTripleLow()
    ensures TripleTerm(TestPayouts, 2) == 5474 && TripleTerm(TestPayouts, 3) == 5460
    ensures TripleTerm(TestPayouts, 4) == 7640 && TripleTerm(TestPayouts, 5) == 7692
  {
  }

  lemma TestTripleHigh()
    ensures TripleTerm(TestPayouts, 6) == 10722 && TripleTerm(TestPayouts, 7) == 16194
    ensures TripleTerm(TestPayouts, 8) == 19664 && TripleTerm(TestPayouts, 9) == 19938
  {
  }

  /** The 336 ordered triples completing an empty line. */
  lemma TestTripleTotal(q: seq<int>)
    requires IsRest(q)
    ensures Triple(TestPayouts, 0, q) == 92784
  {
    TripleOnRest(TestPayouts, q);
    TestTripleLow();
    TestTripleHigh();
  }

  // ---------------------------------------------------------------------
  // The grid of the test

  /** A strictly increasing sequence holding exactly the integers lo..hi is
      lo, lo + 1, ..., hi. */
  lemma {:induction false} IncreasingRange(r: seq<int>, lo: int, hi: int)
    requires forall a, b :: 0 <= a < b < |r| ==> r[a] < r[b]
    requires forall d :: d in r <==> lo <= d <= hi
    ensures forall i :: 0 <= i < |r| ==> r[i] == lo + i
    ensures lo <= hi + 1 ==> |r| == hi - lo + 1
  {
    if r == [] {
      assert lo !in r;
    } else {
      assert r[0] in r;
      assert lo in r;
      var k :| 0 <= k < |r| && r[k] == lo;
      assert r[0] == lo;
      var t := r[1..];
      forall d ensures d in t <==> lo + 1 <= d <= hi {
        if d in t {
          var j :| 0 <= j < |t| && t[j] == d;
          assert r[j + 1] == d && r[0] < r[j + 1];
          assert d in r;
        }
        if lo + 1 <= d <= hi {
          assert d in r;
          var j :| 0 <= j < |r| && r[j] == d;
          assert j != 0 && t[j - 1] == d;
          assert t[j - 1] in t;
        }
      }
      IncreasingRange(t, lo + 1, hi);
      forall i | 0 <= i < |r| ensures r[i] == lo + i {
        if i > 0 {
          assert r[i] == t[i - 1];
        }
      }
    }
  }

  /** `Grid::new().set(Some(1), (0, 0))`: `1` in the corner and every
      other cell empty. */
  lemma TestGridCells()
    ensures Shaped(TestGrid())
    ensures TestGrid().cells[0] == [Some(1), None, None]
    ensures TestGrid().cells[1] == [None, None, None]
    ensures TestGrid().cells[2] == [None, None, None]
  {
    var g := TestGrid();
    forall y, x | 0 <= y < 3 && 0 <= x < 3 && (y, x) != (0, 0) ensures g.cells[y][x] == None {
    }
  }

  /** Only the flag of `1` is set. */
  lemma TestGridFlags()
    ensures |TestGrid().used| == 9 && TestGrid().used[0]
    ensures forall i :: 1 <= i < 9 ==> !TestGrid().used[i]
  {
    var g := TestGrid();
    forall i | 1 <= i < 9 ensures !g.used[i] {
      assert New().cells[0][0] != Some(i + 1);
    }
  }

  /** With only the flag of `1` set, the pool is 2..9. */
  lemma PoolWithoutOne(used: seq<bool>)
    requires |used| == 9 && used[0]
    requires forall i :: 1 <= i < 9 ==> !used[i]
    ensures IsRest(UnusedDigits(used))
  {
    var r := UnusedDigits(used);
    forall d ensures d in r <==> 2 <= d <= 9 {
      if 2 <= d <= 9 {
        assert !used[d - 1];
      }
    }
    IncreasingRange(r, 2, 9);
  }

  lemma TestGridPool()
    ensures Shaped(TestGrid()) && IsRest(UnusedDigits(TestGrid().used))
  {
    TestGridFlags();
    PoolWithoutOne(TestGrid().used);
  }

  lemma TestGridShape()
    ensures Shaped(TestGrid()) && Consistent(TestGrid())
    ensures TestGrid().cells[0] == [Some(1), None, None]
    ensures TestGrid().cells[1] == [None, None, None]
    ensures TestGrid().cells[2] == [None, None, None]
    ensures IsRest(UnusedDigits(TestGrid().used))
  {
    SetPreservesConsistent(New(), Some(1), (0, 0));
    TestGridCells();
    TestGridPool();
  }

  /** The number of completions over the pool 2..9. */
  lemma CountOnRest(used: seq<int>, q: seq<int>)
    requires IsRest(q) && (used == [] || used == [1])
    ensures |CandidateSums(used, q)| == if used == [] then 336 else 56
  {
    RestDistinct(q);
    CandidateCount(used, q);
    CountSteps();
  }

  lemma CountSteps()
    ensures Falling(8, 2) == 56 && Falling(8, 3) == 336
  {
    assert Falling(6, 0) == 1;
    assert Falling(7, 1) == 7;
    assert Falling(6, 1) == 6;
    assert Falling(7, 2) == 42;
  }

  /** What the test's lines need: the candidate sums of a line with known
      digits `used` over the pool 2..9 all index the table. */
  lemma TestSumsIndex(used: seq<int>, q: seq<int>)
    requires used == [] || used == [1]
    requires IsRest(q)
    ensures Indexes(TestPayouts, CandidateSums(used, q))
  {
    RestDistinct(q);
    var sums := CandidateSums(used, q);
    forall k | 0 <= k < |sums| ensures 0 <= sums[k] < |TestPayouts| {
      CandidateSumRange(used, q, sums[k]);
    }
  }

  /** The completions of a line holding only the `1`: 56 of them, whose
      payouts add up to 29610. */
  lemma CompletionsWithOne(q: seq<int>)
    requires IsRest(q)
    ensures |CandidateSums([1], q)| == 56 && Indexes(TestPayouts, CandidateSums([1], q))
    ensures PayoutTotal(TestPayouts, CandidateSums([1], q)) == 29610
  {
    CountOnRest([1], q);
    TestSumsIndex([1], q);
    LineTotal(TestPayouts, [1], q);
    assert Sum([1]) == 1 + Sum([1][1..]);
    TestPairTotal(q);
  }

  /** The completions of an empty line: 336 of them, whose payouts add up
      to 92784. */
  lemma CompletionsWithoutOne(q: seq<int>)
    requires IsRest(q)
    ensures |CandidateSums([], q)| == 336 && Indexes(TestPayouts, CandidateSums([], q))
    ensures PayoutTotal(TestPayouts, CandidateSums([], q)) == 92784
  {
    CountOnRest([], q);
    TestSumsIndex([], q);
    LineTotal(TestPayouts, [], q);
    TestTripleTotal(q);
  }

  /** A line whose only digit is the `1` is worth 29610 / 56 = 528. */
  lemma LineWithOne(digits: seq<Cell>)
    requires digits == [Some(1), None, None]
    ensures Evaluable(TestPayouts, digits, UnusedDigits(TestGrid().used))
    ensures var sums := CandidateSums(LineDigits(digits), UnusedDigits(TestGrid().used));
            |sums| == 56 && PayoutTotal(TestPayouts, sums) == 29610
    ensures ExpectedValue(TestGrid(), TestPayouts, digits) == 528
  {
    var q := UnusedDigits(TestGrid().used);
    assert IsRest(q) by {
      TestGridPool();
    }
    assert LineDigits(digits) == [1] by {
      LineDigitsThree(Some(1), None, None);
    }
    CompletionsWithOne(q);
  }

  /** A line with no digit yet is worth 92784 / 336 = 276. */
  lemma LineWithoutOne(digits: seq<Cell>)
    requires digits == [None, None, None]
    ensures Evaluable(TestPayouts, digits, UnusedDigits(TestGrid().used))
    ensures var sums := CandidateSums(LineDigits(digits), UnusedDigits(TestGrid().used));
            |sums| == 336 && PayoutTotal(TestPayouts, sums) == 92784
    ensures ExpectedValue(TestGrid(), TestPayouts, digits) == 276
  {
    var q := UnusedDigits(TestGrid().used);
    assert IsRest(q) by {
      TestGridPool();
    }
    assert LineDigits(digits) == [] by {
      LineDigitsThree(None, None, None);
    }
    CompletionsWithoutOne(q);
  }

  /** The unit test of the repository: with the table above and `1` in the
      top-left corner, `score` is 2964 (three lines at 528, five at 276). */
  lemma TestScore()
    ensures Shaped(TestGrid()) && ScoreDefined(TestGrid(), TestPayouts)
    ensures Score(TestGrid(), TestPayouts) == 2964
  {
    TestGridShape();
    var g := TestGrid();
    LineWithOne(RowCells(g, 0));
    LineWithoutOne(RowCells(g, 1));
    LineWithoutOne(RowCells(g, 2));
    LineWithOne(ColumnCells(g, 0));
    LineWithoutOne(ColumnCells(g, 1));
    LineWithoutOne(ColumnCells(g, 2));
    LineWithOne(DiagonalCells(g, 0));
    LineWithoutOne(DiagonalCells(g, 1));
  }
}
