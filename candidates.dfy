/** The completion enumerator of `calculate_candidate_sums`: every ordered way
    of filling a line up to three digits from a pool of unused digits, kept
    only as the sum of the completed line. */
module Candidates {

  /** Sum of a sequence of integers, from the front. */
  function Sum(s: seq<int>): int {
    if s == [] then 0 else s[0] + Sum(s[1..])
  }

  /** No element of `s` occurs twice. */
  predicate Distinct(s: seq<int>) {
    forall i, j :: 0 <= i < j < |s| ==> s[i] != s[j]
  }

  /** The pool after the chosen digit is taken: `filter(|a| x != a)`, which
      drops every copy of `x` and keeps the order of the rest. */
  function Without(s: seq<int>, x: int): (r: seq<int>)
    ensures |r| <= |s|
    ensures x in s ==> |r| < |s|
    ensures forall y :: y in r <==> y in s && y != x
    ensures x !in s ==> r == s
  {
    if s == [] then []
    else if s[0] == x then Without(s[1..], x)
    else [s[0]] + Without(s[1..], x)
  }

  /** `calculate_candidate_sums(used, unused)`: a line that already holds
      three digits has its own sum as its only candidate; otherwise every
      digit of the pool is tried in turn, in pool order, and the results
      are concatenated. A `used` longer than three never reaches the first
      branch again and so yields nothing once the pool runs dry. */
  function CandidateSums(used: seq<int>, pool: seq<int>): seq<int>
    decreases |pool|, 1, 0
  {
    if |used| == 3 then [Sum(used)] else Branches(used, pool, 0)
  }

  /** The `flat_map` of `CandidateSums` over the pool digits from index `i` on. */
  function Branches(used: seq<int>, pool: seq<int>, i: nat): seq<int>
    requires i <= |pool|
    decreases |pool|, 0, |pool| - i
  {
    if i == |pool| then []
    else CandidateSums(used + [pool[i]], Without(pool, pool[i])) + Branches(used, pool, i + 1)
  }

  /** Falling factorial n * (n-1) * ... * (n-k+1): the number of ordered
      selections of `k` distinct items out of `n`. */
  function Falling(n: nat, k: nat): nat {
    if k == 0 then 1 else if n == 0 then 0 else n * Falling(n - 1, k - 1)
  }

  /** A way to complete `used` to a line of three digits: `c` holds the
      missing digits in order, all distinct and all taken from the pool. */
  ghost predicate IsCompletion(used: seq<int>, pool: seq<int>, c: seq<int>) {
    && |used| + |c| == 3
    && Distinct(c)
    && forall k :: 0 <= k < |c| ==> c[k] in pool
  }

  // ---------------------------------------------------------------------
  // Facts about the helpers

  lemma {:induction false} SumAppend(a: seq<int>, b: seq<int>)
    ensures Sum(a + b) == Sum(a) + Sum(b)
  {
    if a == [] {
      assert a + b == b;
    } else {
      assert (a + b)[1..] == a[1..] + b;
      SumAppend(a[1..], b);
    }
  }

  lemma {:induction false} WithoutDistinct(s: seq<int>, x: int)
    requires Distinct(s)
    ensures Distinct(Without(s, x))
    ensures x in s ==> |Without(s, x)| == |s| - 1
  {
    if s != [] {
      assert Distinct(s[1..]) by {
        forall i, j | 0 <= i < j < |s[1..]| ensures s[1..][i] != s[1..][j] {
          assert s[1..][i] == s[i + 1] && s[1..][j] == s[j + 1];
        }
      }
      WithoutDistinct(s[1..], x);
      if s[0] == x {
        assert x !in s[1..] by {
          forall k | 0 <= k < |s[1..]| ensures s[1..][k] != x {
            assert s[1..][k] == s[k + 1];
          }
        }
      } else {
        var w := Without(s[1..], x);
        assert s[0] !in w by {
          forall k | 0 <= k < |s[1..]| ensures s[1..][k] != s[0] {
            assert s[1..][k] == s[k + 1];
          }
        }
        assert x in s ==> x in s[1..] by {
          if x in s {
            var k :| 0 <= k < |s| && s[k] == x;
            assert k > 0 && s[1..][k - 1] == x;
          }
        }
        forall i, j | 0 <= i < j < |[s[0]] + w| ensures ([s[0]] + w)[i] != ([s[0]] + w)[j] {
          if i == 0 {
            assert ([s[0]] + w)[j] == w[j - 1];
          } else {
            assert ([s[0]] + w)[i] == w[i - 1] && ([s[0]] + w)[j] == w[j - 1];
          }
        }
      }
    }
  }

  lemma WithoutCons(y: int, t: seq<int>, x: int)
    ensures Without([y] + t, x) == if y == x then Without(t, x) else [y] + Without(t, x)
  {
    assert ([y] + t)[0] == y && ([y] + t)[1..] == t;
  }

  lemma FallingPositive(n: nat, k: nat)
    ensures Falling(n, k) > 0 <==> k <= n
  {
  }

  // ---------------------------------------------------------------------
  // Counting: the falling factorial

  /** With distinct pool digits and at most three known digits, the number
      of candidate sums is the falling factorial |pool|^(3 - |used|); in
      particular it is zero exactly when the pool is too short. */
  lemma {:induction false} CandidateCount(used: seq<int>, pool: seq<int>)
    requires Distinct(pool) && |used| <= 3
    ensures |CandidateSums(used, pool)| == Falling(|pool|, 3 - |used|)
    ensures CandidateSums(used, pool) == [] <==> |pool| < 3 - |used|
    decreases |pool|
  {
    if |used| < 3 && |pool| > 0 {
      var f := Falling(|pool| - 1, 2 - |used|);
      forall j | 0 <= j < |pool|
        ensures |CandidateSums(used + [pool[j]], Without(pool, pool[j]))| == f
      {
        WithoutDistinct(pool, pool[j]);
        CandidateCount(used + [pool[j]], Without(pool, pool[j]));
      }
      BranchesLength(used, pool, 0, f);
    }
    FallingPositive(|pool|, 3 - |used|);
  }

  /** Branches that yield `f` sums each add up to `f` per remaining pool digit. */
  lemma {:induction false} BranchesLength(used: seq<int>, pool: seq<int>, i: nat, f: int)
    requires i <= |pool|
    requires forall j :: i <= j < |pool| ==> |CandidateSums(used + [pool[j]], Without(pool, pool[j]))| == f
    ensures |Branches(used, pool, i)| == (|pool| - i) * f
    decreases |pool| - i
  {
    if i < |pool| {
      var n := |pool| - i;
      assert |Branches(used, pool, i)| == f + |Branches(used, pool, i + 1)|;
      BranchesLength(used, pool, i + 1, f);
      assert |Branches(used, pool, i + 1)| == (n - 1) * f;
      MulStep(n, f);
    }
  }

  /** Fewer items give no more ordered selections. */
  lemma {:induction false} FallingMono(n: nat, m: nat, k: nat)
    requires n <= m
    ensures Falling(n, k) <= Falling(m, k)
  {
    if k > 0 && n > 0 {
      FallingMono(n - 1, m - 1, k - 1);
      MulLe(n, m, Falling(n - 1, k - 1), Falling(m - 1, k - 1));
    }
  }

  lemma MulLe(a: nat, b: nat, c: nat, d: nat)
    requires a <= b && c <= d
    ensures a * c <= b * d
  {
    assert a * c <= b * c;
  }

  /** Out of at most nine digits there are at most 9 * 8 * 7 = 504 ordered
      completions of a line. */
  lemma MostCompletions(n: nat, k: nat)
    requires n <= 9 && k <= 3
    ensures Falling(n, k) <= 504
  {
    FallingMono(n, 9, k);
    assert Falling(9, 3) == 504 && Falling(9, 2) == 72 && Falling(9, 1) == 9;
  }

  lemma MulStep(m: int, f: int)
    ensures m * f == f + (m - 1) * f
  {
  }

  /** A line that somehow holds more than three digits has no candidates. */
  lemma {:induction false} OverfullLineHasNoCandidates(used: seq<int>, pool: seq<int>)
    requires |used| > 3
    ensures CandidateSums(used, pool) == []
    decreases |pool|, 1, 0
  {
    OverfullBranches(used, pool, 0);
  }

  lemma {:induction false} OverfullBranches(used: seq<int>, pool: seq<int>, i: nat)
    requires |used| > 3 && i <= |pool|
    ensures Branches(used, pool, i) == []
    decreases |pool|, 0, |pool| - i
  {
    if i < |pool| {
      OverfullLineHasNoCandidates(used + [pool[i]], Without(pool, pool[i]));
      OverfullBranches(used, pool, i + 1);
    }
  }

  // ---------------------------------------------------------------------
  // What the sums are: exactly the sums of the completed lines

  /** Every candidate sum is the sum of `used` completed by distinct pool digits. */
  lemma {:induction false} SumIsOfCompletion(used: seq<int>, pool: seq<int>, s: int)
    requires s in CandidateSums(used, pool)
    ensures exists c :: IsCompletion(used, pool, c) && s == Sum(used + c)
    decreases |pool|, 1, 0
  {
    if |used| == 3 {
      assert used + [] == used;
      assert IsCompletion(used, pool, []);
    } else {
      BranchSumIsOfCompletion(used, pool, 0, s);
    }
  }

  lemma {:induction false} BranchSumIsOfCompletion(used: seq<int>, pool: seq<int>, i: nat, s: int)
    requires i <= |pool| && |used| != 3
    requires s in Branches(used, pool, i)
    ensures exists c :: IsCompletion(used, pool, c) && s == Sum(used + c)
    decreases |pool|, 0, |pool| - i
  {
    var x := pool[i];
    var rest := Without(pool, x);
    if s in CandidateSums(used + [x], rest) {
      SumIsOfCompletion(used + [x], rest, s);
      var c' :| IsCompletion(used + [x], rest, c') && s == Sum(used + [x] + c');
      ExtendCompletion(used, pool, x, rest, c');
    } else {
      BranchSumIsOfCompletion(used, pool, i + 1, s);
    }
  }

  /** A completion of `used + [x]` from a pool `rest` of other digits of
      `pool`, preceded by `x`, completes `used` from `pool`. */
  lemma ExtendCompletion(used: seq<int>, pool: seq<int>, x: int, rest: seq<int>, c': seq<int>)
    requires x in pool && forall y :: y in rest ==> y in pool && y != x
    requires IsCompletion(used + [x], rest, c')
    ensures IsCompletion(used, pool, [x] + c')
    ensures used + [x] + c' == used + ([x] + c')
  {
    var c := [x] + c';
    assert Distinct(c) by {
      forall a, b | 0 <= a < b < |c| ensures c[a] != c[b] {
        assert c[b] == c'[b - 1] && c'[b - 1] in rest;
        if a > 0 { assert c[a] == c'[a - 1]; }
      }
    }
    forall k | 0 <= k < |c| ensures c[k] in pool {
      if k > 0 { assert c[k] == c'[k - 1] && c'[k - 1] in rest; }
    }
  }

  /** Conversely, every completion of `used` by distinct pool digits
      contributes its sum. Together with `SumIsOfCompletion` this pins the
      candidate sums down exactly. */
  lemma {:induction false} CompletionSumIsCandidate(used: seq<int>, pool: seq<int>, c: seq<int>)
    requires IsCompletion(used, pool, c)
    ensures Sum(used + c) in CandidateSums(used, pool)
    decreases |pool|, 1, 0
  {
    if |used| == 3 {
      assert c == [] && used + c == used;
    } else {
      var x := c[0];
      var i :| 0 <= i < |pool| && pool[i] == x;
      var c' := c[1..];
      var rest := Without(pool, x);
      assert used + c == used + [x] + c';
      forall k | 0 <= k < |c'| ensures c'[k] in rest {
        assert c'[k] == c[k + 1] && c[k + 1] != c[0];
      }
      assert Distinct(c') by {
        forall a, b | 0 <= a < b < |c'| ensures c'[a] != c'[b] {
          assert c'[a] == c[a + 1] && c'[b] == c[b + 1];
        }
      }
      assert IsCompletion(used + [x], rest, c');
      CompletionSumIsCandidate(used + [x], rest, c');
      BranchesContain(used, pool, 0, i, Sum(used + c));
    }
  }

  lemma {:induction false} BranchesContain(used: seq<int>, pool: seq<int>, j: nat, i: nat, s: int)
    requires j <= i < |pool|
    requires s in CandidateSums(used + [pool[i]], Without(pool, pool[i]))
    ensures s in Branches(used, pool, j)
    decreases i - j
  {
    if j < i {
      BranchesContain(used, pool, j + 1, i, s);
    }
  }

  lemma Sum3(s: seq<int>)
    requires |s| == 3
    ensures Sum(s) == s[0] + s[1] + s[2]
  {
    var t, u := s[1..], s[2..];
    assert u[0] == s[2] && u[1..] == [];
    assert Sum(u) == s[2];
    assert t[0] == s[1] && t[1..] == u;
    assert Sum(t) == s[1] + s[2];
  }

  // ---------------------------------------------------------------------
  // Range of the sums, which keeps the payout index in bounds

  predicate IsDigit(d: int) {
    1 <= d <= 9
  }

  /** Three distinct digits 1..9 add up to at least 1+2+3 and at most 7+8+9. */
  lemma ThreeDigitRange(a: int, b: int, c: int)
    requires IsDigit(a) && IsDigit(b) && IsDigit(c)
    requires a != b && b != c && a != c
    ensures 6 <= a + b + c <= 24
  {
  }

  /** When the known digits are distinct digits, the pool holds distinct
      digits none of which is known, every candidate sum lies in 6..24. */
  lemma {:induction false} CandidateSumRange(used: seq<int>, pool: seq<int>, s: int)
    requires Distinct(used) && forall k :: 0 <= k < |used| ==> IsDigit(used[k])
    requires forall k :: 0 <= k < |pool| ==> IsDigit(pool[k]) && pool[k] !in used
    requires s in CandidateSums(used, pool)
    ensures 6 <= s <= 24
  {
    SumIsOfCompletion(used, pool, s);
    var c :| IsCompletion(used, pool, c) && s == Sum(used + c);
    var line := used + c;
    assert |line| == 3;
    forall k | 0 <= k < 3 ensures IsDigit(line[k]) {
      if k >= |used| { assert line[k] == c[k - |used|] && c[k - |used|] in pool; }
    }
    assert line[0] != line[1] && line[1] != line[2] && line[0] != line[2] by {
      forall a, b | 0 <= a < b < 3 ensures line[a] != line[b] {
        if b < |used| {
        } else if a >= |used| {
          assert line[a] == c[a - |used|] && line[b] == c[b - |used|];
        } else {
          assert line[b] == c[b - |used|] && c[b - |used|] in pool;
          assert line[a] in used;
        }
      }
    }
    Sum3(line);
    ThreeDigitRange(line[0], line[1], line[2]);
  }
}
