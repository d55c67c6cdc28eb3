# rust-cactpot in Dafny

A model of the expected-value calculator of the mini-cactpot game, `src/main.rs`.

A 3x3 grid holds distinct digits 1..9. Each of its eight lines (three rows, three columns, two diagonals) pays out according to a 25-entry table indexed by the line's digit sum. For a partly filled grid, the program values each line as the truncated mean payout over every ordered way of completing it with digits not yet on the grid. `score` adds the eight line values. `calculate_average_increase` adds up the scores of the grids obtained by placing each unused digit at one cell. Despite its name it does not divide, and no caller in the source divides either: `main` prints the sum as it is (src/main.rs:60-61).

Modules, leaves first:

- `Candidates` (`candidates.dfy`): the completion enumerator `calculate_candidate_sums`. It counts the completions with a falling factorial and characterises the sums exactly as the sums of the completed lines.
- `CactpotGrid` (`grid.dfy`): the `Grid` value with `New`, `Set`, the flag invariant `Consistent`, and the pool of unused digits.
- `Valuation` (`valuation.dfy`): `calculate_expected_value` with Rust's truncating `/`. Also shows that no line of a consistent grid can panic, and that line values lie within the table's range.
- `Reference` (`reference.dfy`): an independent definition of the payout total. It adds the payouts up directly over every ordered choice of the missing digits.
- `Totals` (`totals.dfy`): proves the enumerator's payout total equals that reference. Consequences: a line's value depends only on how many digits it holds and their sum, and the total fits in `i32`.
- `Scoring` (`scoring.dfy`): the row, column and diagonal extractors, `score` and `calculate_average_increase`.
- `Scenario` (`scenario.dfy`): the repository's unit test. With `1` at the top-left corner the score is 2964.

`Grid::set` clones the receiver and returns the modified copy, so the grid is a datatype and `Set` a function from grid to grid. The receiver is unchanged because it is a value.

Each Rust panic becomes a precondition:
- a diagonal index other than 0 or 1;
- an index outside the matrix or the flags;
- a division by zero at line 101.

On a consistent grid, separate lemmas show that the remaining conditions always hold: the previous occupant of a cell is a digit, every candidate sum indexes the table, and every line has at least one completion. The diagonal index is met by the fixed arguments 0 and 1 that `score` passes. The cell given to `calculate_average_increase` must be in bounds; its caller guarantees this, and the model requires it.

Integers are unbounded. Rust's truncating division is written out as `TruncDiv`, so negative payouts are modelled faithfully.

`score` and `calculate_average_increase` each return one `i32`. The code has no per-line result type.

## Model

| member | source | states |
|---|---|---|
| CactpotGrid.New | src/main.rs:10-15 | every cell is empty, every flag clear, and the empty grid is consistent |
| CactpotGrid.Set | src/main.rs:17-40 | the target cell holds the new value and every other cell is unchanged; the new digit's flag is set; the previous occupant's flag is cleared unless it is the digit placed; every other flag is unchanged |
| CactpotGrid.SetPreservesConsistent | src/main.rs:17-40 | if the placed digit is in no other cell, the flags still say exactly which digits are on the grid |
| CactpotGrid.SetThenClearRestores | src/main.rs:17-40 | placing an unused digit in an empty cell and then clearing it gives back the original grid, cells and flags |
| CactpotGrid.UnusedFromSpec | src/main.rs:92 | from flag `i` on, the enumerated pool holds exactly the digits with a clear flag, in strictly ascending order |
| CactpotGrid.UnusedFrom | src/main.rs:92 | the `enumerate`/`filter`/`map` over the flags from index `i` on; what it yields is pinned down by `CactpotGrid.UnusedFromSpec` |
| CactpotGrid.UnusedDigits | src/main.rs:92 | a digit is in the pool iff it is 1..9 with a clear flag; the pool is strictly ascending |
| CactpotGrid.SetShrinksPool | src/main.rs:21-38 | placing `d` in an empty cell turns the pool into the old pool filtered of `d`, the same filter the enumerator applies |
| Candidates.CandidateSums | src/main.rs:104-114 | the enumerator: a full line yields its own sum, otherwise the branches for each pool digit in turn are concatenated; its length is fixed by `Candidates.CandidateCount`, its elements by `Candidates.SumIsOfCompletion` and `Candidates.CompletionSumIsCandidate`, and its payout total by `Totals.LineTotal` |
| Candidates.Branches | src/main.rs:107-112 | the `flat_map` over the pool from index `i` on; each pool digit is appended to the line and removed from the pool, as `Candidates.BranchesLength` and `Candidates.BranchesContain` use |
| Candidates.Without | src/main.rs:111 | the filtered pool holds exactly the other elements, is no longer, and is strictly shorter when `x` was present |
| Candidates.CandidateCount | src/main.rs:104-114 | with a distinct pool and at most three known digits, there are Falling(pool size, missing digits) sums; there are none iff the pool is too short |
| Candidates.OverfullLineHasNoCandidates | src/main.rs:105-112 | a line with more than three known digits never reaches the base case and yields no sums; no caller reaches this case, since a line has three cells (line 89) and the recursion stops at three |
| Candidates.SumIsOfCompletion | src/main.rs:104-114 | every candidate sum is the sum of the known digits completed by distinct pool digits |
| Candidates.CompletionSumIsCandidate | src/main.rs:104-114 | conversely, every such completion's sum is a candidate |
| Candidates.CandidateSumRange | src/main.rs:98 | with distinct known digits 1..9 and a pool of other digits 1..9, every candidate sum is in 6..24, so the payout index is in range |
| Candidates.MostCompletions | src/main.rs:104-114 | out of at most nine digits a line has at most 9 * 8 * 7 = 504 ordered completions |
| Valuation.LineDigits | src/main.rs:89 | the known digits are exactly the filled cells' values, no more of them than cells |
| Valuation.PayoutTotal | src/main.rs:98 | the `map`/`sum` of the payouts of the candidate sums; it equals the independent reference total (`Totals.LineTotal`), stays within the count times the payout range (`Valuation.PayoutTotalBounds`), and its running sums fit in `i32` (`Totals.PayoutTotalFitsI32`) |
| Valuation.TruncDiv | src/main.rs:101 | the quotient is truncated toward zero: q*b <= a < q*b + b for a >= 0, and q*b - b < a <= q*b for a < 0 |
| Valuation.ExpectedValue | src/main.rs:87-102 | a full line is worth exactly the payout of its sum; in general the value is the payout total divided by the number of completions, truncated toward zero |
| Valuation.ExpectedValueBetween | src/main.rs:96-101 | if every candidate's payout lies in lo..hi, so does the line's value |
| Valuation.LineEvaluable | src/main.rs:96-101 | on a consistent grid a line has at least one completion and every candidate sum is in 6..24, so neither line 98 nor line 101 panics |
| Valuation.LineHasCandidates | src/main.rs:92-99 | on a consistent grid enough digits are unused to complete any line |
| Valuation.LineKnownDigits | src/main.rs:89-92 | on a consistent grid a line's known digits are distinct digits, and none of them is in the pool |
| Valuation.LineValueInTableRange | src/main.rs:87-102 | on a consistent grid every line value lies between the least and greatest payout for sums 6..24 |
| Valuation.UnusedCount | src/main.rs:92 | the pool and the set flags together account for every one of the nine digits |
| Totals.LineTotal | src/main.rs:98 | the payout total over the enumerator's sums equals the reference total, taken at the known digits' count and sum |
| Totals.LineValue | src/main.rs:87-102 | a line's value is the reference total divided, truncating, by Falling(pool size, missing digits), which is positive |
| Totals.SameCountSameSum | src/main.rs:87-102 | two lines of one grid with the same number of known digits and the same known sum have the same value, whatever the digits and cells |
| Totals.PairWithout | src/main.rs:107-111 | with two digits missing, removing `z` from the pool removes exactly the ordered pairs that use `z`, first or second |
| Totals.PayoutTotalFitsI32 | src/main.rs:98 | if every payout lies within ±4000000, every running sum of the left-to-right `i32` sum of line 98, the final total included, stays within 504 times that bound, so the sum cannot overflow |
| Scoring.RowCells | src/main.rs:70 | the three cells of a row, left to right |
| Scoring.ColumnCells | src/main.rs:75 | the three cells of a column, top to bottom |
| Scoring.DiagonalCells | src/main.rs:81-82 | diagonal 0 from the top-left corner, diagonal 1 from the top-right corner |
| Scoring.RowCandidates | src/main.rs:69-72 | a full row is worth its own payout; on a consistent grid a row's value is within the table's range for sums 6..24 |
| Scoring.ColumnCandidates | src/main.rs:74-77 | the same for a column |
| Scoring.DiagonalCandidates | src/main.rs:79-85 | the same for diagonal 0 (top-left to bottom-right) and diagonal 1 (top-right to bottom-left); other indices panic |
| Scoring.FullLineValue | src/main.rs:87-102 | a line with three known digits is valued by the single-completion path: exactly the payout of its sum |
| Scoring.ConsistentScoreDefined | src/main.rs:124-133 | none of the eight lines of a consistent grid panics |
| Scoring.Score | src/main.rs:124-133 | the score of a consistent grid is between 8 times the least and 8 times the greatest meaningful payout |
| Scoring.PlacementScore | src/main.rs:119-121 | placing an unused digit anywhere on a consistent grid gives a consistent grid whose score is within those bounds |
| Scoring.PlacementScores | src/main.rs:119-121 | the `map`: for each digit of the pool, in pool order, the score of the grid with that digit placed at the cell; each entry is bounded by `Scoring.PlacementScore` |
| Scoring.AverageIncreaseBounds | src/main.rs:116-122 | summed over the unused digits, the placement scores lie within (number of unused digits) times the score bounds |
| Scoring.AverageIncrease | src/main.rs:116-122 | on a consistent grid the sum lies within (number of unused digits) * 8 times the table's range |
| Scoring.ConsistentAverageIncreaseDefined | src/main.rs:116-122 | on a consistent grid the computation never panics, at any cell |
| Scenario.LineWithOne | src/main.rs:138-142 | in the test grid, a line holding only the `1` has 56 completions whose payouts add up to 29610, and is worth 528 |
| Scenario.LineWithoutOne | src/main.rs:138-142 | in the test grid, an empty line has 336 completions whose payouts add up to 92784, and is worth 276 |
| Scenario.TestScore | src/main.rs:138-142 | with the test table and `1` at (0, 0), the grid can be scored and its score is 2964 |

## Left out

- `main` and `Grid::pretty_print` (src/main.rs:42-63) only print to the console.
- The debug `println!` of the pool at src/main.rs:94 has no effect on any result.
- Panics are preconditions rather than behaviour: a diagonal index other than 0 or 1 (line 83), out-of-range indexing in `set`, and division by zero at line 101.
- Machine integers: `u8` digits and `i32` values are unbounded `int`. `Totals.PayoutTotalFitsI32` bounds every running sum of line 98. The sums of `score` and `calculate_average_increase` are bounded only through the table's range, by the contracts of `Scoring.Score` and `Scoring.AverageIncrease`. Wrap-around itself is not modelled.
- `set` writes into a fresh copy (lines 18-38). It is modelled as a value update, so in-place mutation of the clone and aliasing are not represented; the receiver is unchanged by construction.
- Scoring.AverageIncrease: the contract bounds the sum rather than restating it. Its exact value is its definition: the scores of `Set(g, Some(d), p)` for every unused `d`, in ascending order, added up.
- The claim that ordered enumeration gives the same truncated mean as enumerating combinations is not proved. `Totals.LineValue` shows only that the value depends on the count and sum of the known digits.
- Only the repository's own unit test (src/main.rs:138-142) is worked out as a concrete scenario.
