/** The `Grid` value of the game: a 3x3 matrix of optional digits and an
    index of nine flags, `used[d - 1]` standing for "digit d is on the grid".
    The Rust type derives `Clone` and `set` returns a modified copy, so the
    grid is a value here and `Set` a function from grid to grid. */
module CactpotGrid {
  import opened Candidates

  datatype Option<T> = None | Some(value: T)

  type Cell = Option<int>

  /** A cell coordinate `(y, x)`: row first, then column. */
  type Point = (int, int)

  datatype Grid = Grid(cells: seq<seq<Cell>>, used: seq<bool>)

  /** The shape the Rust types fix: `[[Option<u8>; 3]; 3]` and `[bool; 9]`. */
  predicate Shaped(g: Grid) {
    && |g.cells| == 3
    && (forall y :: 0 <= y < 3 ==> |g.cells[y]| == 3)
    && |g.used| == 9
  }

  predicate InBounds(p: Point) {
    0 <= p.0 < 3 && 0 <= p.1 < 3
  }

  /** A value `set` can write without indexing outside the nine flags. */
  predicate DigitOrEmpty(c: Cell) {
    c.Some? ==> IsDigit(c.value)
  }

  /** Digit `d` sits in some cell. */
  ghost predicate Occurs(g: Grid, d: int)
    requires Shaped(g)
  {
    exists y, x :: 0 <= y < 3 && 0 <= x < 3 && g.cells[y][x] == Some(d)
  }

  /** The invariant the flags are meant to cache: every cell holds a digit
      1..9 or nothing, no digit is in two cells, and `used[d - 1]` holds
      exactly when `d` is on the grid. */
  ghost predicate Consistent(g: Grid) {
    && Shaped(g)
    && (forall y, x :: 0 <= y < 3 && 0 <= x < 3 ==> DigitOrEmpty(g.cells[y][x]))
    && (forall y1, x1, y2, x2 ::
          0 <= y1 < 3 && 0 <= x1 < 3 && 0 <= y2 < 3 && 0 <= x2 < 3 &&
          (y1, x1) != (y2, x2) && g.cells[y1][x1].Some?
          ==> g.cells[y1][x1] != g.cells[y2][x2])
    && (forall d :: IsDigit(d) ==> (g.used[d - 1] <==> Occurs(g, d)))
  }

  /** `Grid::new`: every cell empty, every flag clear. */
  function New(): (g: Grid)
    ensures Shaped(g)
    ensures forall y, x :: 0 <= y < 3 && 0 <= x < 3 ==> g.cells[y][x] == None
    ensures forall i :: 0 <= i < 9 ==> !g.used[i]
    ensures Consistent(g)
  {
    Grid([[None, None, None], [None, None, None], [None, None, None]],
         [false, false, false, false, false, false, false, false, false])
  }

  /** `Grid::set(number, (y, x))`: a copy of `g` whose cell `(y, x)` holds
      `number`; the flag of the previous occupant is cleared and then the
      flag of `number` set. Indexing outside the matrix or the flags panics
      in the source, hence the requirements on `p`, `number` and the
      previous occupant. */
  function Set(g: Grid, number: Cell, p: Point): (r: Grid)
    requires Shaped(g) && InBounds(p)
    requires DigitOrEmpty(number) && DigitOrEmpty(g.cells[p.0][p.1])
    ensures Shaped(r)
    ensures r.cells[p.0][p.1] == number
    ensures forall y, x :: 0 <= y < 3 && 0 <= x < 3 && (y, x) != p ==> r.cells[y][x] == g.cells[y][x]
    ensures number.Some? ==> r.used[number.value - 1]
    ensures forall prev :: g.cells[p.0][p.1] == Some(prev) && number != Some(prev) ==> !r.used[prev - 1]
    ensures forall i :: 0 <= i < 9 && number != Some(i + 1) && g.cells[p.0][p.1] != Some(i + 1) ==> r.used[i] == g.used[i]
  {
    var (y, x) := p;
    var cleared := if g.cells[y][x].Some? then g.used[g.cells[y][x].value - 1 := false] else g.used;
    var flags := if number.Some? then cleared[number.value - 1 := true] else cleared;
    Grid(g.cells[y := g.cells[y][x := number]], flags)
  }

  /** `Set` keeps the flags in step with the cells, as long as the digit
      placed is not already in another cell (the one thing the source does
      not check). */
  lemma SetPreservesConsistent(g: Grid, number: Cell, p: Point)
    requires Consistent(g) && InBounds(p) && DigitOrEmpty(number)
    requires forall y, x :: 0 <= y < 3 && 0 <= x < 3 && (y, x) != p ==> g.cells[y][x] != number || number.None?
    ensures Consistent(Set(g, number, p))
  {
    var r := Set(g, number, p);
    var prev := g.cells[p.0][p.1];
    forall d | IsDigit(d) ensures r.used[d - 1] <==> Occurs(r, d) {
      if Some(d) == number {
        assert r.cells[p.0][p.1] == Some(d);
      } else if Some(d) == prev {
      } else {
        if Occurs(g, d) {
          var y, x :| 0 <= y < 3 && 0 <= x < 3 && g.cells[y][x] == Some(d);
          assert r.cells[y][x] == Some(d);
        }
        if Occurs(r, d) {
          var y, x :| 0 <= y < 3 && 0 <= x < 3 && r.cells[y][x] == Some(d);
          assert g.cells[y][x] == Some(d);
        }
      }
    }
  }

  /** Placing an unused digit in an empty cell and then clearing that cell
      gives back the very grid one started from, cells and flags alike. */
  lemma SetThenClearRestores(g: Grid, d: int, p: Point)
    requires Shaped(g) && InBounds(p) && IsDigit(d)
    requires g.cells[p.0][p.1] == None && !g.used[d - 1]
    ensures Set(Set(g, Some(d), p), None, p) == g
  {
    var r := Set(Set(g, Some(d), p), None, p);
    assert r.cells[p.0] == g.cells[p.0];
    assert r.cells == g.cells;
    assert r.used == g.used;
  }

  /** `grid.used_digits.iter().enumerate().filter(..).map(|(i, _)| i + 1)`:
      the digits whose flag is clear, from index `i` on, in ascending order. */
  function UnusedFrom(used: seq<bool>, i: nat): seq<int>
    decreases |used| - i
  {
    if i >= |used| then []
    else if used[i] then UnusedFrom(used, i + 1)
    else [i + 1] + UnusedFrom(used, i + 1)
  }

  /** `r` holds, ascending, exactly the digits above `i` whose flag is clear. */
  predicate ClearAbove(used: seq<bool>, i: nat, r: seq<int>)
  {
    && (forall k :: 0 <= k < |r| ==> i < r[k] <= |used| && !used[r[k] - 1])
    && (forall d :: i < d <= |used| && !used[d - 1] ==> d in r)
    && (forall a, b :: 0 <= a < b < |r| ==> r[a] < r[b])
  }

  /** From index `i` on, exactly the digits with a clear flag, ascending. */
  lemma {:induction false} UnusedFromSpec(used: seq<bool>, i: nat)
    ensures ClearAbove(used, i, UnusedFrom(used, i))
    decreases |used| - i
  {
    if i < |used| {
      UnusedFromSpec(used, i + 1);
      var rest := UnusedFrom(used, i + 1);
      assert ClearAbove(used, i + 1, rest);
      if !used[i] {
        var r := [i + 1] + rest;
        assert UnusedFrom(used, i) == r;
        forall k | 0 <= k < |r| ensures i < r[k] <= |used| && !used[r[k] - 1] {
          if k > 0 { assert r[k] == rest[k - 1]; }
        }
        forall d | i < d <= |used| && !used[d - 1] ensures d in r {
          if d == i + 1 { assert r[0] == d; } else { assert d in rest; }
        }
        forall a, b | 0 <= a < b < |r| ensures r[a] < r[b] {
          assert r[b] == rest[b - 1];
          if a > 0 { assert r[a] == rest[a - 1]; }
        }
      } else {
        assert UnusedFrom(used, i) == rest;
      }
    }
  }

  /** The pool of line 92: all digits 1..|used| whose flag is clear, ascending. */
  function UnusedDigits(used: seq<bool>): (r: seq<int>)
    ensures forall d :: d in r <==> 1 <= d <= |used| && !used[d - 1]
    ensures forall a, b :: 0 <= a < b < |r| ==> r[a] < r[b]
  {
    UnusedFromSpec(used, 0);
    UnusedFrom(used, 0)
  }

  /** The flags of `after` are those of `before` with flag `d - 1` set: from flag `i` on, the digits whose flag is clear are
      those of `before` but `d`. */
  lemma {:induction false} PoolFrom(before: seq<bool>, after: seq<bool>, d: int, i: nat)
    requires 1 <= d <= |before| && i <= |before| && after == before[d - 1 := true]
    ensures UnusedFrom(after, i) == Without(UnusedFrom(before, i), d)
    decreases |before| - i
  {
    if i < |before| {
      PoolFrom(before, after, d, i + 1);
      if before[i] {
        PoolStepSkip(before, after, d, i);
      } else if i == d - 1 {
        PoolStepTaken(before, after, d, i);
      } else {
        PoolStepKeep(before, after, d, i);
      }
    } else {
      PoolEnd(before, after, d, i);
    }
  }

  lemma PoolEnd(before: seq<bool>, after: seq<bool>, d: int, i: nat)
    requires i == |before| == |after|
    ensures UnusedFrom(after, i) == Without(UnusedFrom(before, i), d)
  {
  }

  /** A set flag is skipped on both sides. */
  lemma PoolStepSkip(before: seq<bool>, after: seq<bool>, d: int, i: nat)
    requires 1 <= d <= |before| && i < |before| && after == before[d - 1 := true] && before[i]
    requires UnusedFrom(after, i + 1) == Without(UnusedFrom(before, i + 1), d)
    ensures UnusedFrom(after, i) == Without(UnusedFrom(before, i), d)
  {
    assert after[i];
  }

  /** Digit `d` itself: clear before, set after, and dropped by `Without`. */
  lemma PoolStepTaken(before: seq<bool>, after: seq<bool>, d: int, i: nat)
    requires 1 <= d <= |before| && i == d - 1 && after == before[d - 1 := true] && !before[i]
    requires UnusedFrom(after, i + 1) == Without(UnusedFrom(before, i + 1), d)
    ensures UnusedFrom(after, i) == Without(UnusedFrom(before, i), d)
  {
    WithoutCons(d, UnusedFrom(before, i + 1), d);
  }

  /** Any other clear flag is kept on both sides. */
  lemma PoolStepKeep(before: seq<bool>, after: seq<bool>, d: int, i: nat)
    requires 1 <= d <= |before| && i < |before| && i != d - 1 && after == before[d - 1 := true] && !before[i]
    requires UnusedFrom(after, i + 1) == Without(UnusedFrom(before, i + 1), d)
    ensures UnusedFrom(after, i) == Without(UnusedFrom(before, i), d)
  {
    assert !after[i];
    WithoutCons(i + 1, UnusedFrom(before, i + 1), d);
  }

  /** Placing digit `d` in an empty cell takes exactly `d` out of the pool
      that `calculate_expected_value` completes lines from (line 92), the
      way the enumerator's `filter` does. */
  lemma SetShrinksPool(g: Grid, d: int, p: Point)
    requires Shaped(g) && InBounds(p) && IsDigit(d) && g.cells[p.0][p.1] == None
    ensures UnusedDigits(Set(g, Some(d), p).used) == Without(UnusedDigits(g.used), d)
  {
    PoolFrom(g.used, Set(g, Some(d), p).used, d, 0);
  }
}
