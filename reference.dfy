/** An independent reference for the payout total of line 98: instead of
    listing the candidate sums and looking each one up, add the payouts up
    directly over every ordered choice of the missing digits. The total then
    depends on the known digits of a line only through their number and
    their sum. */
module Reference {
  import opened Candidates

  /** The payout at index `i`, or 0 outside the table. */
  function At(p: seq<int>, i: int): int {
    if 0 <= i < |p| then p[i] else 0
  }

  /** `g(x)` added up over the elements `x` of `q`, in order. */
  function SumOf(g: int -> int, q: seq<int>): int {
    if q == [] then 0 else g(q[0]) + SumOf(g, q[1..])
  }

  function ShiftBy(p: seq<int>, t: int): int -> int {
    y => At(p, t + y)
  }

  /** One digit missing, known digits adding up to `t`: the payouts of
      `t + y` for every `y` of the pool. */
  function Shift(p: seq<int>, t: int, q: seq<int>): int {
    SumOf(ShiftBy(p, t), q)
  }

  /** The pairs whose first digit is `x`. */
  function PairBy(p: seq<int>, s: int, q: seq<int>): int -> int {
    x => Shift(p, s + x, Without(q, x))
  }

  /** Two digits missing: a first digit `x` of the pool, then a second one
      from the pool without `x`. */
  function Pair(p: seq<int>, s: int, q: seq<int>): int {
    SumOf(PairBy(p, s, q), q)
  }

  /** The triples whose first digit is `z`. */
  function TripleBy(p: seq<int>, s: int, q: seq<int>): int -> int {
    z => Pair(p, s + z, Without(q, z))
  }

  /** Three digits missing. */
  function Triple(p: seq<int>, s: int, q: seq<int>): int {
    SumOf(TripleBy(p, s, q), q)
  }

  /** The reference total of a line with `missing` empty cells whose known
      digits add up to `s`, over the pool `q`. */
  function RefTotal(p: seq<int>, missing: nat, s: int, q: seq<int>): int {
    if missing == 0 then At(p, s)
    else if missing == 1 then Shift(p, s, q)
    else if missing == 2 then Pair(p, s, q)
    else Triple(p, s, q)
  }

  /** The pairs whose first digit is `x`, less the pair `x`, `z`. */
  function PairLessBy(p: seq<int>, s: int, q: seq<int>, z: int): int -> int {
    x => Shift(p, s + x, Without(q, x)) - At(p, s + x + z)
  }
}
