/** The integer part of the fairness report: 64-bit sums of byte counters and Jain's ratio. */
module Fairness {

  const WORD: nat := 0x1_0000_0000_0000_0000

  function Sum(c: seq<nat>): nat {
    if c == [] then 0 else Sum(c[..|c| - 1]) + c[|c| - 1]
  }

  function SumSquares(c: seq<nat>): nat {
    if c == [] then 0 else SumSquares(c[..|c| - 1]) + c[|c| - 1] * c[|c| - 1]
  }

  lemma WrapAdd(a: nat, b: nat)
    ensures (a % WORD + b % WORD) % WORD == (a + b) % WORD
    ensures (a % WORD + b) % WORD == (a + b) % WORD
  {
  }

  /** The accumulation loop, on unsigned 64-bit words. */
  method Accumulate(counters: seq<nat>) returns (sum: nat, sumSquares: nat)
    ensures sum == Sum(counters) % WORD
    ensures sumSquares == SumSquares(counters) % WORD
  {
    sum, sumSquares := 0, 0;
    for i := 0 to |counters|
      invariant sum == Sum(counters[..i]) % WORD && sumSquares == SumSquares(counters[..i]) % WORD
    {
      assert counters[..i + 1][..i] == counters[..i];
      WrapAdd(Sum(counters[..i]), counters[i]);
      WrapAdd(SumSquares(counters[..i]), counters[i] * counters[i]);
      sum := (sum + counters[i]) % WORD;
      sumSquares := (sumSquares + counters[i] * counters[i] % WORD) % WORD;
    }
    assert counters[..|counters|] == counters;
  }

  lemma NoMod(a: nat)
    requires a < WORD
    ensures a % WORD == a
  {
  }

  ghost predicate SmallCounters(c: seq<nat>) {
    forall i :: 0 <= i < |c| ==> c[i] * |c| <= 0xFFFF_FFFF
  }

  /** Numerator and denominator of Jain's index as the report computes them. */
  method JainRatio(counters: seq<nat>) returns (numerator: nat, denominator: nat)
    ensures SmallCounters(counters) ==>
              numerator == Sum(counters) * Sum(counters) && denominator == |counters| * SumSquares(counters)
  {
    hide Sum, SumSquares, SmallCounters;
    var sum, sumSquares := Accumulate(counters);
    numerator := sum * sum % WORD;
    denominator := |counters| * sumSquares % WORD;
    if SmallCounters(counters) {
      NoWrap(counters);
      NoMod(Sum(counters));
      NoMod(SumSquares(counters));
      NoMod(Sum(counters) * Sum(counters));
      NoMod(|counters| * SumSquares(counters));
    }
  }

  /** The sum of the squared distances from x. */
  ghost function Spread(c: seq<nat>, x: nat): nat {
    if c == [] then 0 else
      var d: int := c[|c| - 1] - x;
      SquareNonNegative(d);
      Spread(c[..|c| - 1], x) + d * d
  }

  lemma SquareNonNegative(d: int)
    ensures d * d >= 0
    ensures d * d == 0 <==> d == 0
  {
  }

  lemma SquareOfDifference(a: int, x: int)
    ensures (a - x) * (a - x) == a * a - 2 * x * a + x * x
  {
  }

  lemma {:induction false} SpreadFormula(c: seq<nat>, x: nat)
    ensures Spread(c, x) == SumSquares(c) - 2 * x * Sum(c) + |c| * (x * x)
  {
    if c != [] {
      var front, a := c[..|c| - 1], c[|c| - 1];
      SpreadFormula(front, x);
      SpreadStep(|front|, SumSquares(front), Sum(front), x, a, Spread(front, x));
    }
  }

  lemma SpreadStep(n: int, q: int, s: int, x: int, a: int, spread: int)
    requires spread == q - 2 * x * s + n * (x * x)
    ensures spread + (a - x) * (a - x) == q + a * a - 2 * x * (s + a) + (n + 1) * (x * x)
  {
    SquareOfDifference(a, x);
    Distribute(2 * x, s, a);
    Distribute(x * x, n, 1);
  }

  lemma Distribute(k: int, a: int, b: int)
    ensures k * (a + b) == k * a + k * b
  {
  }

  lemma {:induction false} SpreadZero(c: seq<nat>, x: nat)
    ensures Spread(c, x) == 0 <==> forall i :: 0 <= i < |c| ==> c[i] == x
  {
    if c != [] {
      var front, a := c[..|c| - 1], c[|c| - 1];
      SpreadZero(front, x);
      SquareNonNegative(a - x);
      assert forall i :: 0 <= i < |front| ==> front[i] == c[i];
    }
  }

  ghost predicate AllEqual(c: seq<nat>) {
    forall i, j :: 0 <= i < |c| && 0 <= j < |c| ==> c[i] == c[j]
  }

  lemma GrowByOne(n: nat, q: int, s: int, x: int, spread: int)
    requires spread == q - 2 * x * s + n * (x * x)
    ensures (n + 1) * (q + x * x) - (s + x) * (s + x) == n * q - s * s + spread
  {
    Distribute(n + 1, q, x * x);
    Distribute(q, n, 1);
    Distribute(x * x, n, 1);
    SquareOfDifference(s, -x);
  }

  /** sum^2 <= n * sumSquares, with equality exactly when all counters are equal. */
  lemma {:induction false} JainUpperBound(c: seq<nat>)
    ensures Sum(c) * Sum(c) <= |c| * SumSquares(c)
    ensures Sum(c) * Sum(c) == |c| * SumSquares(c) <==> AllEqual(c)
  {
    if c != [] {
      var front, x := c[..|c| - 1], c[|c| - 1];
      JainUpperBound(front);
      SpreadFormula(front, x);
      GrowByOne(|front|, SumSquares(front), Sum(front), x, Spread(front, x));
      SpreadZero(front, x);
      assert forall i :: 0 <= i < |front| ==> front[i] == c[i];
      if AllEqual(c) {
        assert forall i :: 0 <= i < |front| ==> front[i] == c[i] == c[|c| - 1];
      }
    }
  }

  /** sumSquares <= sum^2. */
  lemma {:induction false} JainLowerBound(c: seq<nat>)
    ensures SumSquares(c) <= Sum(c) * Sum(c)
  {
    if c != [] {
      var front, x := c[..|c| - 1], c[|c| - 1];
      JainLowerBound(front);
      SquareOfSum(Sum(front), x);
    }
  }

  lemma SquareOfSum(a: nat, b: nat)
    ensures (a + b) * (a + b) >= a * a + b * b
  {
    assert (a + b) * (a + b) == a * a + 2 * (a * b) + b * b;
    assert a * b >= 0;
  }

  lemma {:induction false} SumBound(c: seq<nat>, n: nat, top: nat)
    requires forall i :: 0 <= i < |c| ==> c[i] * n <= top
    ensures Sum(c) * n <= |c| * top
  {
    if c != [] {
      var front, x := c[..|c| - 1], c[|c| - 1];
      assert forall i :: 0 <= i < |front| ==> front[i] == c[i];
      SumBound(front, n, top);
      Distribute(n, Sum(front), x);
      Distribute(top, |front|, 1);
    }
  }

  lemma ScaledSquare(x: nat, n: nat, top: nat)
    requires x * n <= top
    ensures x * x * n * n <= top * top
  {
    assert x * x * n * n == (x * n) * (x * n);
    SquareMonotone(x * n, top);
  }

  lemma {:induction false} SumSquaresBound(c: seq<nat>, n: nat, top: nat)
    requires forall i :: 0 <= i < |c| ==> c[i] * n <= top
    ensures n * SumSquares(c) * n <= |c| * (top * top)
  {
    if c != [] {
      var front, x := c[..|c| - 1], c[|c| - 1];
      assert forall i :: 0 <= i < |front| ==> front[i] == c[i];
      SumSquaresBound(front, n, top);
      ScaledSquare(x, n, top);
      Distribute(n, SumSquares(front), x * x);
      Distribute(n, n * SumSquares(front), n * (x * x));
      Distribute(top * top, |front|, 1);
      assert n * (n * (x * x)) == x * x * n * n;
    }
  }

  lemma Cancel(a: nat, b: nat, n: nat)
    requires n > 0 && a * n <= n * b
    ensures a <= b
  {
  }

  lemma SquareMonotone(a: nat, b: nat)
    requires a <= b
    ensures a * a <= b * b
  {
  }

  /** With counters of at most (2^32 - 1) / n each, nothing wraps around. */
  lemma NoWrap(c: seq<nat>)
    requires SmallCounters(c)
    ensures Sum(c) < WORD && SumSquares(c) < WORD
    ensures Sum(c) * Sum(c) < WORD && |c| * SumSquares(c) < WORD
  {
    if c == [] {
    } else {
      SumBound(c, |c|, 0xFFFF_FFFF);
      Cancel(Sum(c), 0xFFFF_FFFF, |c|);
      SquareMonotone(Sum(c), 0xFFFF_FFFF);
      JainLowerBound(c);
      SumSquaresBound(c, |c|, 0xFFFF_FFFF);
      Cancel(|c| * SumSquares(c), 0xFFFF_FFFF * 0xFFFF_FFFF, |c|);
    }
  }
}
