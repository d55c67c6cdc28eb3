/** The enumerator's payout total agrees with the reference sums: lines with
    the same number of known digits and the same known sum have the same
    total. */
module Totals {
  import opened Candidates
  import opened CactpotGrid
  import opened Valuation
  import opened Reference

  /** Every element of `sums` indexes the table. */
  predicate Indexes(p: seq<int>, sums: seq<int>) {
    forall k :: 0 <= k < |sums| ==> 0 <= sums[k] < |p|
  }

  // ---------------------------------------------------------------------
  // The enumerator's total agrees with the reference

  lemma {:induction false} PayoutTotalAppend(p: seq<int>, a: seq<int>, b: seq<int>)
    requires Indexes(p, a + b)
    ensures Indexes(p, a) && Indexes(p, b)
    ensures PayoutTotal(p, a + b) == PayoutTotal(p, a) + PayoutTotal(p, b)
  {
    assert forall k :: 0 <= k < |a| ==> a[k] == (a + b)[k];
    assert forall k :: 0 <= k < |b| ==> b[k] == (a + b)[|a| + k];
    if a == [] {
      assert a + b == b;
    } else {
      assert (a + b)[1..] == a[1..] + b;
      PayoutTotalAppend(p, a[1..], b);
    }
  }

  lemma SumOne(used: seq<int>, x: int)
    ensures Sum(used + [x]) == Sum(used) + x
  {
    SumAppend(used, [x]);
    assert Sum([x]) == x + Sum([x][1..]);
  }

  lemma SumOfAt(g: int -> int, q: seq<int>, i: nat)
    requires i < |q|
    ensures SumOf(g, q[i..]) == g(q[i]) + SumOf(g, q[i + 1..])
  {
    assert q[i..][0] == q[i];
    assert q[i..][1..] == q[i + 1..];
  }

  /** The pool digit at `i` taken first, and the digits after it. */
  lemma BranchesSplit(p: seq<int>, used: seq<int>, pool: seq<int>, i: nat)
    requires i < |pool|
    requires Indexes(p, Branches(used, pool, i))
    ensures Indexes(p, CandidateSums(used + [pool[i]], Without(pool, pool[i])))
    ensures Indexes(p, Branches(used, pool, i + 1))
    ensures PayoutTotal(p, Branches(used, pool, i)) ==
            PayoutTotal(p, CandidateSums(used + [pool[i]], Without(pool, pool[i]))) +
            PayoutTotal(p, Branches(used, pool, i + 1))
  {
    PayoutTotalAppend(p, CandidateSums(used + [pool[i]], Without(pool, pool[i])), Branches(used, pool, i + 1));
  }

  /** The `flat_map` adds up: if taking pool digit `x` first yields a payout
      total of `g(x)`, the branches from `i` on yield `g` summed over the
      pool from `i` on. */
  lemma {:induction false} BranchesTotal(p: seq<int>, used: seq<int>, pool: seq<int>, i: nat, g: int -> int)
    requires i <= |pool|
    requires Indexes(p, Branches(used, pool, i))
    requires forall j :: i <= j < |pool| && Indexes(p, CandidateSums(used + [pool[j]], Without(pool, pool[j]))) ==>
               PayoutTotal(p, CandidateSums(used + [pool[j]], Without(pool, pool[j]))) == g(pool[j])
    ensures PayoutTotal(p, Branches(used, pool, i)) == SumOf(g, pool[i..])
    decreases |pool| - i
  {
    if i < |pool| {
      BranchesSplit(p, used, pool, i);
      BranchesTotal(p, used, pool, i + 1, g);
      SumOfAt(g, pool, i);
    }
  }

  /** The last digit `x` chosen: the line is full. The known digits add up
      to `s`. */
  lemma LastDigit(p: seq<int>, used: seq<int>, s: int, x: int, w: seq<int>)
    requires |used| == 2 && s == Sum(used)
    requires Indexes(p, CandidateSums(used + [x], w))
    ensures PayoutTotal(p, CandidateSums(used + [x], w)) == ShiftBy(p, s)(x)
  {
    var head := CandidateSums(used + [x], w);
    SumOne(used, x);
    assert head == [s + x];
    assert head[0] == s + x && 0 <= s + x < |p|;
    assert PayoutTotal(p, head) == p[s + x] + PayoutTotal(p, head[1..]);
    assert head[1..] == [];
    assert ShiftBy(p, s)(x) == At(p, s + x);
  }

  lemma OneMissingTotal(p: seq<int>, used: seq<int>, s: int, pool: seq<int>)
    requires |used| == 2 && s == Sum(used)
    requires Indexes(p, CandidateSums(used, pool))
    ensures PayoutTotal(p, CandidateSums(used, pool)) == Shift(p, s, pool)
  {
    var g := ShiftBy(p, s);
    forall j | 0 <= j < |pool| && Indexes(p, CandidateSums(used + [pool[j]], Without(pool, pool[j])))
      ensures PayoutTotal(p, CandidateSums(used + [pool[j]], Without(pool, pool[j]))) == g(pool[j])
    {
      LastDigit(p, used, s, pool[j], Without(pool, pool[j]));
    }
    assert pool[0..] == pool;
    BranchesTotal(p, used, pool, 0, g);
  }

  /** The first digit `x` chosen, one digit is left to choose. */
  lemma OneMissingAfter(p: seq<int>, used: seq<int>, s: int, pool: seq<int>, x: int)
    requires |used| == 1 && s == Sum(used)
    requires Indexes(p, CandidateSums(used + [x], Without(pool, x)))
    ensures PayoutTotal(p, CandidateSums(used + [x], Without(pool, x))) == PairBy(p, s, pool)(x)
  {
    SumOne(used, x);
    OneMissingTotal(p, used + [x], s + x, Without(pool, x));
  }

  lemma TwoMissingTotal(p: seq<int>, used: seq<int>, s: int, pool: seq<int>)
    requires |used| == 1 && s == Sum(used)
    requires Indexes(p, CandidateSums(used, pool))
    ensures PayoutTotal(p, CandidateSums(used, pool)) == Pair(p, s, pool)
  {
    var g := PairBy(p, s, pool);
    forall j | 0 <= j < |pool| && Indexes(p, CandidateSums(used + [pool[j]], Without(pool, pool[j])))
      ensures PayoutTotal(p, CandidateSums(used + [pool[j]], Without(pool, pool[j]))) == g(pool[j])
    {
      OneMissingAfter(p, used, s, pool, pool[j]);
    }
    assert pool[0..] == pool;
    BranchesTotal(p, used, pool, 0, g);
  }

  /** The first digit `x` chosen, two digits are left to choose. */
  lemma TwoMissingAfter(p: seq<int>, used: seq<int>, s: int, pool: seq<int>, x: int)
    requires |used| == 0 && s == Sum(used)
    requires Indexes(p, CandidateSums(used + [x], Without(pool, x)))
    ensures PayoutTotal(p, CandidateSums(used + [x], Without(pool, x))) == TripleBy(p, s, pool)(x)
  {
    SumOne(used, x);
    TwoMissingTotal(p, used + [x], s + x, Without(pool, x));
  }

  lemma ThreeMissingTotal(p: seq<int>, used: seq<int>, s: int, pool: seq<int>)
    requires |used| == 0 && s == Sum(used)
    requires Indexes(p, CandidateSums(used, pool))
    ensures PayoutTotal(p, CandidateSums(used, pool)) == Triple(p, s, pool)
  {
    var g := TripleBy(p, s, pool);
    forall j | 0 <= j < |pool| && Indexes(p, CandidateSums(used + [pool[j]], Without(pool, pool[j])))
      ensures PayoutTotal(p, CandidateSums(used + [pool[j]], Without(pool, pool[j]))) == g(pool[j])
    {
      TwoMissingAfter(p, used, s, pool, pool[j]);
    }
    assert pool[0..] == pool;
    BranchesTotal(p, used, pool, 0, g);
  }

  /** The sum of the payouts of all candidate sums (line 98) equals the
      reference total for the number of missing digits, taken at the sum of
      the known digits. */
  lemma LineTotal(p: seq<int>, used: seq<int>, pool: seq<int>)
    requires |used| <= 3
    requires Indexes(p, CandidateSums(used, pool))
    ensures PayoutTotal(p, CandidateSums(used, pool)) == RefTotal(p, 3 - |used|, Sum(used), pool)
  {
    if |used| == 3 {
      var sums := CandidateSums(used, pool);
      assert sums == [Sum(used)] && sums[0] == Sum(used) && sums[1..] == [];
    } else if |used| == 2 {
      OneMissingTotal(p, used, Sum(used), pool);
    } else if |used| == 1 {
      TwoMissingTotal(p, used, Sum(used), pool);
    } else {
      ThreeMissingTotal(p, used, Sum(used), pool);
    }
  }

  /** The value of a line (`calculate_expected_value`) is the reference
      total divided, truncating, by the number of ordered completions. */
  lemma LineValue(g: Grid, payouts: seq<int>, digits: seq<Cell>)
    requires PayoutTable(payouts) && |digits| == 3
    requires Evaluable(payouts, digits, UnusedDigits(g.used))
    ensures var known := LineDigits(digits);
            var pool := UnusedDigits(g.used);
            && |known| <= 3
            && Falling(|pool|, 3 - |known|) == |CandidateSums(known, pool)| > 0
            && ExpectedValue(g, payouts, digits) ==
               TruncDiv(RefTotal(payouts, 3 - |known|, Sum(known), pool), Falling(|pool|, 3 - |known|))
  {
    var known := LineDigits(digits);
    var pool := UnusedDigits(g.used);
    CandidateCount(known, pool);
    LineTotal(payouts, known, pool);
  }

  /** Hence two lines of the same grid with as many known digits and the
      same known sum have the same value, whatever the digits and their
      places. */
  lemma SameCountSameSum(g: Grid, payouts: seq<int>, d1: seq<Cell>, d2: seq<Cell>)
    requires PayoutTable(payouts) && |d1| == 3 && |d2| == 3
    requires Evaluable(payouts, d1, UnusedDigits(g.used)) && Evaluable(payouts, d2, UnusedDigits(g.used))
    requires |LineDigits(d1)| == |LineDigits(d2)| && Sum(LineDigits(d1)) == Sum(LineDigits(d2))
    ensures ExpectedValue(g, payouts, d1) == ExpectedValue(g, payouts, d2)
  {
    LineValue(g, payouts, d1);
    LineValue(g, payouts, d2);
  }

  /** The `i32` sum of line 98 cannot overflow while every payout lies
      within 4000000 either way: a line has at most 504 completions, and
      504 * 4000000 is below 2^31. `sum` adds from the left, so every
      running sum, the payouts of the first `k` candidates, is bounded too. */
  lemma PayoutTotalFitsI32(g: Grid, payouts: seq<int>, digits: seq<Cell>, m: int)
    requires PayoutTable(payouts) && |digits| == 3 && |g.used| == 9
    requires Evaluable(payouts, digits, UnusedDigits(g.used))
    requires 0 <= m <= 4000000 && forall i :: 0 <= i < 25 ==> -m <= payouts[i] <= m
    ensures var sums := CandidateSums(LineDigits(digits), UnusedDigits(g.used));
            forall k :: 0 <= k <= |sums| ==>
              var running := PayoutTotal(payouts, sums[..k]);
              -504 * m <= running <= 504 * m && -0x8000_0000 <= running < 0x8000_0000
  {
    var known := LineDigits(digits);
    var pool := UnusedDigits(g.used);
    var sums := CandidateSums(known, pool);
    assert |sums| <= 504 by {
      UnusedCount(g.used, 0);
      assert Distinct(pool);
      CandidateCount(known, pool);
      MostCompletions(|pool|, 3 - |known|);
    }
    forall k | 0 <= k <= |sums|
      ensures var running := PayoutTotal(payouts, sums[..k]);
              -504 * m <= running <= 504 * m && -0x8000_0000 <= running < 0x8000_0000
    {
      PrefixBounded(payouts, sums[..k], m);
    }
  }

  /** At most 504 sums, each paying within m either way, add up to within
      504 * m. */
  lemma PrefixBounded(payouts: seq<int>, prefix: seq<int>, m: int)
    requires |prefix| <= 504 && 0 <= m
    requires forall j :: 0 <= j < |prefix| ==> 0 <= prefix[j] < |payouts| && -m <= payouts[prefix[j]] <= m
    ensures -504 * m <= PayoutTotal(payouts, prefix) <= 504 * m
  {
    var n := |prefix|;
    var total := PayoutTotal(payouts, prefix);
    assert -(n * m) <= total <= n * m by {
      PayoutTotalBounds(payouts, prefix, -m, m);
      assert n * -m == -(n * m);
    }
    MulLe(n, 504, m, m);
  }

  // ---------------------------------------------------------------------
  // Taking a digit out of the pool

  lemma DistinctTail(q: seq<int>)
    requires Distinct(q) && q != []
    ensures Distinct(q[1..]) && q[0] !in q[1..]
  {
    forall i, j | 0 <= i < j < |q[1..]| ensures q[1..][i] != q[1..][j] {
      assert q[1..][i] == q[i + 1] && q[1..][j] == q[j + 1];
    }
    forall k | 0 <= k < |q[1..]| ensures q[1..][k] != q[0] {
      assert q[1..][k] == q[k + 1];
    }
  }

  /** Summing over the pool without `x` is summing over the whole pool and
      taking `x`'s term back out. */
  lemma {:induction false} SumOfWithout(g: int -> int, q: seq<int>, x: int)
    requires Distinct(q) && x in q
    ensures SumOf(g, Without(q, x)) == SumOf(g, q) - g(x)
  {
    DistinctTail(q);
    if q[0] == x {
      assert Without(q, x) == Without(q[1..], x) == q[1..];
    } else {
      var w := Without(q[1..], x);
      assert Without(q, x) == [q[0]] + w;
      assert ([q[0]] + w)[1..] == w;
      SumOfWithout(g, q[1..], x);
    }
  }

  lemma {:induction false} SumOfExt(g: int -> int, h: int -> int, q: seq<int>)
    requires forall i :: 0 <= i < |q| ==> g(q[i]) == h(q[i])
    ensures SumOf(g, q) == SumOf(h, q)
  {
    if q != [] {
      assert forall i :: 0 <= i < |q[1..]| ==> q[1..][i] == q[i + 1];
      SumOfExt(g, h, q[1..]);
    }
  }

  lemma {:induction false} SumOfDiff(g: int -> int, h: int -> int, k: int -> int, q: seq<int>)
    requires forall i :: 0 <= i < |q| ==> k(q[i]) == g(q[i]) - h(q[i])
    ensures SumOf(k, q) == SumOf(g, q) - SumOf(h, q)
  {
    if q != [] {
      assert forall i :: 0 <= i < |q[1..]| ==> q[1..][i] == q[i + 1];
      SumOfDiff(g, h, k, q[1..]);
    }
  }

  /** One digit missing, and the pool loses `z`: the payout of `t + z` drops out. */
  lemma ShiftWithout(p: seq<int>, t: int, q: seq<int>, z: int)
    requires Distinct(q) && z in q
    ensures Shift(p, t, Without(q, z)) == Shift(p, t, q) - At(p, t + z)
  {
    SumOfWithout(ShiftBy(p, t), q, z);
  }

  /** A pair whose first digit `x` is not `z`, counted in the pool without
      `z`, is one counted in the whole pool less the pair `x`, `z`. */
  lemma PairByAt(p: seq<int>, s: int, q: seq<int>, x: int, t: int)
    requires t == s + x
    ensures PairBy(p, s, q)(x) == Shift(p, t, Without(q, x))
  {
  }

  lemma PairLessByAt(p: seq<int>, s: int, q: seq<int>, z: int, x: int, t: int)
    requires t == s + x
    ensures PairLessBy(p, s, q, z)(x) == Shift(p, t, Without(q, x)) - At(p, t + z)
  {
  }

  lemma PairLessPoint(p: seq<int>, s: int, q: seq<int>, z: int, x: int)
    requires Distinct(q) && z in q && x in Without(q, z)
    ensures PairBy(p, s, Without(q, z))(x) == PairLessBy(p, s, q, z)(x)
  {
    var w := Without(q, z);
    var t := s + x;
    var whole := Shift(p, t, q);
    var lessZ := Shift(p, t, w);
    var lessX := Shift(p, t, Without(q, x));
    var lessBoth := Shift(p, t, Without(w, x));
    assert lessBoth == lessZ - At(p, t + x) by {
      WithoutDistinct(q, z);
      ShiftWithout(p, t, w, x);
    }
    assert lessZ == whole - At(p, t + z) by {
      ShiftWithout(p, t, q, z);
    }
    assert lessX == whole - At(p, t + x) by {
      assert x in q;
      ShiftWithout(p, t, q, x);
    }
    assert PairBy(p, s, w)(x) == lessBoth by {
      PairByAt(p, s, w, x, t);
    }
    assert PairLessBy(p, s, q, z)(x) == lessX - At(p, t + z) by {
      PairLessByAt(p, s, q, z, x, t);
    }
  }

  lemma PairLessSum(p: seq<int>, s: int, q: seq<int>, z: int)
    requires Distinct(q) && z in q
    ensures Pair(p, s, Without(q, z)) == SumOf(PairLessBy(p, s, q, z), Without(q, z))
  {
    var w := Without(q, z);
    forall i | 0 <= i < |w| ensures PairBy(p, s, w)(w[i]) == PairLessBy(p, s, q, z)(w[i]) {
      PairLessPoint(p, s, q, z, w[i]);
    }
    SumOfExt(PairBy(p, s, w), PairLessBy(p, s, q, z), w);
  }

  lemma PairLessWhole(p: seq<int>, s: int, q: seq<int>, z: int)
    ensures SumOf(PairLessBy(p, s, q, z), q) == Pair(p, s, q) - Shift(p, s + z, q)
  {
    var k := PairLessBy(p, s, q, z);
    forall i | 0 <= i < |q| ensures k(q[i]) == PairBy(p, s, q)(q[i]) - ShiftBy(p, s + z)(q[i]) {
      PairLessSplit(p, s, q, z, q[i]);
    }
    SumOfDiff(PairBy(p, s, q), ShiftBy(p, s + z), k, q);
  }

  lemma PairLessSplit(p: seq<int>, s: int, q: seq<int>, z: int, y: int)
    ensures PairLessBy(p, s, q, z)(y) == PairBy(p, s, q)(y) - ShiftBy(p, s + z)(y)
  {
    var a := PairLessBy(p, s, q, z)(y);
    assert a == Shift(p, s + y, Without(q, y)) - At(p, s + y + z);
    assert PairBy(p, s, q)(y) == Shift(p, s + y, Without(q, y));
    assert ShiftBy(p, s + z)(y) == At(p, s + z + y);
    AtArg(p, s + y + z, s + z + y);
  }

  lemma AtArg(p: seq<int>, i: int, j: int)
    requires i == j
    ensures At(p, i) == At(p, j)
  {
  }

  lemma PairLessAt(p: seq<int>, s: int, q: seq<int>, z: int)
    requires Distinct(q) && z in q
    ensures PairLessBy(p, s, q, z)(z) == Shift(p, s + z, q) - 2 * At(p, s + z + z)
  {
    var t := s + z;
    ShiftWithout(p, t, q, z);
  }

  /** Two digits missing, and the pool loses `z`: every ordered pair that
      uses `z` drops out, `z` first or `z` second. */
  lemma PairWithout(p: seq<int>, s: int, q: seq<int>, z: int)
    requires Distinct(q) && z in q
    ensures Pair(p, s, Without(q, z)) == Pair(p, s, q) - 2 * Shift(p, s + z, q) + 2 * At(p, s + z + z)
  {
    PairLessSum(p, s, q, z);
    SumOfWithout(PairLessBy(p, s, q, z), q, z);
    PairLessWhole(p, s, q, z);
    PairLessAt(p, s, q, z);
  }
}
