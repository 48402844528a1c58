/**
 * The Brier score and the ten-bin calibration error of `_score_metrics`.
 *
 * The two loops are proved against sums over the predictions. What the sums mean is said for
 * predictions with one score and for the bins: the error is the distance between what was
 * predicted and what happened, bin by bin, and its square never exceeds the Brier score.
 */
module CalibrationError {
  import opened Fractions
  import opened Prelude
  import opened VisualMetrics

  function Target(p: Prediction): real { if IsPositive(p) then 1.0 else 0.0 }

  function Abs(x: real): real { if x < 0.0 then -x else x }

  predicate InBin(score: real, bin: nat) {
    (bin as real) / 10.0 <= score < ((bin + 1) as real) / 10.0 || (bin == 9 && score == 1.0)
  }

  function Bucket(ps: seq<Prediction>, bin: nat): seq<Prediction> { Filter(ps, (p: Prediction) => InBin(p.score, bin)) }

  function SumScores(ps: seq<Prediction>): real {
    if ps == [] then 0.0 else SumScores(ps[..|ps| - 1]) + ps[|ps| - 1].score
  }

  function SumTargets(ps: seq<Prediction>): real {
    if ps == [] then 0.0 else SumTargets(ps[..|ps| - 1]) + Target(ps[|ps| - 1])
  }

  function Square(x: real): real { x * x }

  function SumSquares(ps: seq<Prediction>): real {
    if ps == [] then 0.0
    else SumSquares(ps[..|ps| - 1]) + Square(ps[|ps| - 1].score - Target(ps[|ps| - 1]))
  }

  function SumErrors(ps: seq<Prediction>): real {
    if ps == [] then 0.0
    else SumErrors(ps[..|ps| - 1]) + Abs(Target(ps[|ps| - 1]) - ps[|ps| - 1].score)
  }

  function Brier(ps: seq<Prediction>): real
    requires ps != []
  {
    SumSquares(ps) / (|ps| as real)
  }

  /** `m / n * abs(t / m - s / m)`. */
  function Distance(t: real, s: real, m: real, n: real): real
    requires m > 0.0 && n > 0.0
  {
    m / n * Abs(t / m - s / m)
  }

  /** The weight of a bin times the distance between its accuracy and its confidence. */
  function BinTerm(ps: seq<Prediction>, bin: nat): real
    requires ps != []
  {
    var bucket := Bucket(ps, bin);
    if bucket == [] then 0.0
    else Distance(SumTargets(bucket), SumScores(bucket), |bucket| as real, |ps| as real)
  }

  function Ece(ps: seq<Prediction>, bins: nat): real
    requires ps != []
  {
    if bins == 0 then 0.0 else Ece(ps, bins - 1) + BinTerm(ps, bins - 1)
  }

  /** The two loops of the calibrated branch. */
  method ScoreMetrics(ps: seq<Prediction>) returns (brier: real, ece: real)
    requires Parsed(ps) && ps != []
    ensures brier == Brier(ps) && ece == Ece(ps, 10)
    ensures 0.0 <= ece && Square(ece) <= brier <= 1.0
  {
    brier := MeanSquare(ps);
    ece := BinnedError(ps);
    SquaredErrorBelowBrier(ps);
    BrierInUnit(ps);
  }

  method MeanSquare(ps: seq<Prediction>) returns (brier: real)
    requires ps != []
    ensures brier == Brier(ps)
  {
    var squares := 0.0;
    for i := 0 to |ps|
      invariant squares == SumSquares(ps[..i])
    {
      var error := ps[i].score - Target(ps[i]);
      assert ps[..i + 1][..i] == ps[..i];
      squares := squares + Square(error);
    }
    assert ps[..|ps|] == ps;
    brier := squares / (|ps| as real);
  }

  method BinnedError(ps: seq<Prediction>) returns (ece: real)
    requires ps != []
    ensures ece == Ece(ps, 10)
  {
    ece := 0.0;
    for bin := 0 to 10
      invariant ece == Ece(ps, bin)
    {
      var bucket := Bucket(ps, bin);
      if bucket != [] {
        var confidence := SumScores(bucket) / (|bucket| as real);
        var accuracy := SumTargets(bucket) / (|bucket| as real);
        ece := ece + (|bucket| as real) / (|ps| as real) * Abs(accuracy - confidence);
      }
    }
  }

  // ---- the bins ----

  function BinOf(score: real): nat
    requires 0.0 <= score <= 1.0
  {
    if score == 1.0 then 9 else (score * 10.0).Floor
  }

  /** The ten bins partition [0, 1]: every score lies in exactly one. */
  lemma BinsPartition(score: real, bin: nat)
    requires 0.0 <= score <= 1.0 && bin < 10
    ensures BinOf(score) < 10
    ensures InBin(score, bin) <==> bin == BinOf(score)
  {
    var f := (score * 10.0).Floor;
    assert f as real <= score * 10.0 < (f + 1) as real;
  }

  lemma {:induction false} TriangleInequality(ps: seq<Prediction>)
    ensures Abs(SumTargets(ps) - SumScores(ps)) <= SumErrors(ps)
    ensures SumErrors(ps) >= 0.0
  {
    if ps != [] { TriangleInequality(ps[..|ps| - 1]); }
  }

  /** A bin contributes at most its summed absolute errors over the number of predictions. */
  lemma BinTermBound(ps: seq<Prediction>, bin: nat)
    requires ps != []
    ensures 0.0 <= BinTerm(ps, bin) * (|ps| as real) <= SumErrors(Bucket(ps, bin))
  {
    var bucket := Bucket(ps, bin);
    TriangleInequality(bucket);
    if bucket != [] {
      DistanceBound(SumTargets(bucket), SumScores(bucket), |bucket| as real, |ps| as real, SumErrors(bucket));
    }
  }

  lemma DistanceBound(t: real, s: real, m: real, n: real, errors: real)
    requires m > 0.0 && n > 0.0 && Abs(t - s) <= errors
    ensures 0.0 <= Distance(t, s, m, n) * n <= errors
  {
    ScaledDistance(t, s, m, n);
  }

  lemma ScaledDistance(t: real, s: real, m: real, n: real)
    requires m > 0.0 && n > 0.0
    ensures Distance(t, s, m, n) * n == Abs(t - s)
  {
    var a, c := t / m, s / m;
    assert a * m == t && c * m == s;
    assert (a - c) * m == t - s;
    assert Abs(a - c) * m == Abs(t - s);
    var w := m / n;
    assert w * n == m;
    assert (w * Abs(a - c)) * n == (w * n) * Abs(a - c);
  }

  /** Summed absolute errors of the first `bins` bins. */
  function BinnedErrors(ps: seq<Prediction>, bins: nat): real {
    if bins == 0 then 0.0 else BinnedErrors(ps, bins - 1) + SumErrors(Bucket(ps, bins - 1))
  }

  lemma {:induction false} OneMorePrediction(ps: seq<Prediction>, p: Prediction, bins: nat)
    requires 0.0 <= p.score <= 1.0 && bins <= 10
    ensures BinnedErrors(ps + [p], bins) ==
            BinnedErrors(ps, bins) + (if BinOf(p.score) < bins then Abs(Target(p) - p.score) else 0.0)
  {
    if bins > 0 {
      OneMorePrediction(ps, p, bins - 1);
      BinsPartition(p.score, bins - 1);
      FilterAppend(ps, p, (q: Prediction) => InBin(q.score, bins - 1));
      var bucket := Bucket(ps, bins - 1);
      if InBin(p.score, bins - 1) {
        assert (bucket + [p])[..|bucket|] == bucket;
      } else {
        assert bucket + [] == bucket;
      }
    }
  }

  /** Because the bins partition the predictions, binning loses and repeats no error. */
  lemma {:induction false} BinsCoverErrors(ps: seq<Prediction>)
    requires Parsed(ps)
    ensures BinnedErrors(ps, 10) == SumErrors(ps)
  {
    if ps == [] {
      EmptyBins(10);
    } else {
      var front, last := ps[..|ps| - 1], ps[|ps| - 1];
      assert ps == front + [last] && last in ps;
      forall p | p in front ensures 0.0 <= p.score <= 1.0 { assert p in ps; }
      BinsCoverErrors(front);
      OneMorePrediction(front, last, 10);
      BinsPartition(last.score, 0);
    }
  }

  lemma {:induction false} EmptyBins(bins: nat)
    ensures BinnedErrors([], bins) == 0.0
  {
    if bins > 0 { EmptyBins(bins - 1); }
  }

  lemma {:induction false} EceBound(ps: seq<Prediction>, bins: nat)
    requires ps != []
    ensures 0.0 <= Ece(ps, bins) && Ece(ps, bins) * (|ps| as real) <= BinnedErrors(ps, bins)
  {
    if bins > 0 {
      EceBound(ps, bins - 1);
      BinTermBound(ps, bins - 1);
      var n := |ps| as real;
      assert (Ece(ps, bins - 1) + BinTerm(ps, bins - 1)) * n == Ece(ps, bins - 1) * n + BinTerm(ps, bins - 1) * n;
      FactorSign(BinTerm(ps, bins - 1), n);
    }
  }

  // ---- Cauchy-Schwarz ----

  lemma SquareNonNegative(x: real)
    ensures Square(x) >= 0.0
  {
    ProductSign(x, x);
    ProductSign(-x, -x);
    assert (-x) * (-x) == x * x;
  }

  lemma SquareMonotone(a: real, b: real)
    requires 0.0 <= a <= b
    ensures Square(a) <= Square(b)
  {
    ProductSign(a, b - a);
    ProductSign(b, b - a);
    assert b * b == a * a + a * (b - a) + b * (b - a);
  }

  lemma CauchyStep(s: real, q: real, n: real, x: real)
    requires n >= 0.0 && s >= 0.0 && x >= 0.0 && q >= 0.0 && Square(s) <= n * q
    ensures Square(s + x) <= (n + 1.0) * (q + Square(x))
  {
    assert Square(s + x) == Square(s) + 2.0 * (s * x) + Square(x);
    assert (n + 1.0) * (q + Square(x)) == n * q + n * Square(x) + q + Square(x);
    var d := n * Square(x) + q - 2.0 * (s * x);
    if n > 0.0 {
      assert d * n == n * (n * Square(x)) + n * q - 2.0 * (n * (s * x));
      assert Square(n * x - s) == n * (n * Square(x)) - 2.0 * (n * (s * x)) + Square(s);
      SquareNonNegative(n * x - s);
      FactorSign(d, n);
    } else {
      assert n * q == 0.0;
      ProductSign(s, s);
    }
  }

  lemma {:induction false} CauchySchwarz(ps: seq<Prediction>)
    ensures SumErrors(ps) >= 0.0 && SumSquares(ps) >= 0.0
    ensures Square(SumErrors(ps)) <= (|ps| as real) * SumSquares(ps)
  {
    if ps != [] {
      var front, last := ps[..|ps| - 1], ps[|ps| - 1];
      CauchySchwarz(front);
      var x := Abs(Target(last) - last.score);
      assert Square(x) == Square(last.score - Target(last));
      CauchyStep(SumErrors(front), SumSquares(front), |front| as real, x);
    }
  }

  lemma QuotientSquare(e: real, sum: real, n: real, q: real)
    requires n >= 1.0 && 0.0 <= e && e * n <= sum && Square(sum) <= n * q
    ensures Square(e) <= q / n
  {
    var b := q / n;
    assert b * n == q;
    assert e * n >= 0.0;
    SquareMonotone(e * n, sum);
    assert Square(e * n) == (e * e) * (n * n);
    assert n * q == b * (n * n);
    assert (b - e * e) * (n * n) == b * (n * n) - (e * e) * (n * n);
    ProductSign(n, n);
    FactorSign(b - e * e, n * n);
  }

  /** For scores in [0, 1], the square of the ten-bin calibration error is at most the Brier score. */
  lemma SquaredErrorBelowBrier(ps: seq<Prediction>)
    requires Parsed(ps) && ps != []
    ensures 0.0 <= Ece(ps, 10) && Square(Ece(ps, 10)) <= Brier(ps)
  {
    EceBound(ps, 10);
    BinsCoverErrors(ps);
    CauchySchwarz(ps);
    QuotientSquare(Ece(ps, 10), SumErrors(ps), |ps| as real, SumSquares(ps));
  }

  lemma {:induction false} SquaresBelowCount(ps: seq<Prediction>)
    requires Parsed(ps)
    ensures SumSquares(ps) <= |ps| as real
  {
    if ps != [] {
      var front, last := ps[..|ps| - 1], ps[|ps| - 1];
      forall p | p in front ensures 0.0 <= p.score <= 1.0 { assert p in ps; }
      SquaresBelowCount(front);
      assert last in ps;
      UnitSquare(last.score - Target(last));
    }
  }

  lemma UnitSquare(x: real)
    requires -1.0 <= x <= 1.0
    ensures Square(x) <= 1.0
  {
    var a, b := 1.0 - x, 1.0 + x;
    ProductSign(a, b);
    assert a * b == 1.0 - Square(x);
  }

  lemma BrierInUnit(ps: seq<Prediction>)
    requires Parsed(ps) && ps != []
    ensures Brier(ps) <= 1.0
  {
    SquaresBelowCount(ps);
    var n, b := |ps| as real, Brier(ps);
    assert b * n == SumSquares(ps);
    assert (1.0 - b) * n == n - b * n;
    FactorSign(1.0 - b, n);
  }

  // ---- what the two numbers are ----

  function PositivesOf(ps: seq<Prediction>): real { Count(ps, IsPositive) as real }

  function Weighted(x: real, y: real, a: real, b: real): real { x * a + y * b }

  lemma OneMoreWeight(x: real, y: real, a: real, b: real)
    ensures Weighted(x + 1.0, y, a, b) == Weighted(x, y, a, b) + a
    ensures Weighted(x, y + 1.0, a, b) == Weighted(x, y, a, b) + b
  {
  }

  /** With one score for all, each negative case contributes `a` and each positive one `b`. */
  lemma {:induction false} SquaresOfConstant(ps: seq<Prediction>, c: real, a: real, b: real)
    requires forall p | p in ps :: p.score == c
    requires a == Square(c) && b == Square(c - 1.0) && Square(c - 0.0) == a
    ensures SumSquares(ps) == Weighted((|ps| as real) - PositivesOf(ps), PositivesOf(ps), a, b)
  {
    if ps != [] {
      var front, last := ps[..|ps| - 1], ps[|ps| - 1];
      forall p | p in front ensures p.score == c { assert p in ps; }
      SquaresOfConstant(front, c, a, b);
      assert last in ps;
      OneMoreWeight((|front| as real) - PositivesOf(front), PositivesOf(front), a, b);
    }
  }

  /**
   * If every case gets the same score, the Brier score is the squared distance between that
   * score and the share of positives, plus the variance that no such score can avoid.
   */
  lemma BrierOfConstant(ps: seq<Prediction>, c: real, share: real)
    requires ps != [] && forall p | p in ps :: p.score == c
    requires share == PositivesOf(ps) / (|ps| as real)
    ensures Brier(ps) == Square(c - share) + share * (1.0 - share)
  {
    SquaresOfConstant(ps, c, Square(c), Square(c - 1.0));
    MeanOfTwo(SumSquares(ps), |ps| as real, PositivesOf(ps), Square(c), Square(c - 1.0), share);
    Spread(c, share);
  }

  lemma MeanOfTwo(sum: real, n: real, m: real, a: real, b: real, share: real)
    requires n > 0.0 && share == m / n && sum == Weighted(n - m, m, a, b)
    ensures sum / n == Weighted(1.0 - share, share, a, b)
  {
    assert share * n == m;
    assert (n - m) * a == ((1.0 - share) * a) * n;
    assert m * b == (share * b) * n;
    SameQuotient(sum, n, Weighted(1.0 - share, share, a, b));
  }

  lemma Spread(c: real, share: real)
    ensures Weighted(1.0 - share, share, Square(c), Square(c - 1.0)) == Square(c - share) + share * (1.0 - share)
  {
    assert Square(c - 1.0) == Square(c) - 2.0 * c + 1.0;
    assert share * Square(c - 1.0) == share * Square(c) - 2.0 * (share * c) + share;
    assert (1.0 - share) * Square(c) == Square(c) - share * Square(c);
    assert Square(c - share) == Square(c) - 2.0 * (share * c) + Square(share);
  }

  lemma SameQuotient(a: real, n: real, q: real)
    requires n > 0.0 && q * n == a
    ensures a / n == q
  {
  }

  /** The sum of these distances over the first `bins` bins. */
  function Gaps(ps: seq<Prediction>, bins: nat): real {
    if bins == 0 then 0.0
    else Gaps(ps, bins - 1) + Gap(ps, bins - 1)
  }

  lemma {:induction false} TargetsAreCounted(ps: seq<Prediction>)
    ensures SumTargets(ps) == PositivesOf(ps)
  {
    if ps != [] { TargetsAreCounted(ps[..|ps| - 1]); }
  }

  /** The distance, in one bin, between how many cases are positive and how many the scores promise. */
  function Gap(ps: seq<Prediction>, bin: nat): real {
    Abs(PositivesOf(Bucket(ps, bin)) - SumScores(Bucket(ps, bin)))
  }

  lemma GapOfBin(ps: seq<Prediction>, bin: nat, n: real)
    requires ps != [] && n == |ps| as real
    ensures BinTerm(ps, bin) == Gap(ps, bin) / n
  {
    var bucket := Bucket(ps, bin);
    TargetsAreCounted(bucket);
    if bucket != [] {
      ScaledDistance(SumTargets(bucket), SumScores(bucket), |bucket| as real, n);
      SameQuotient(Gap(ps, bin), n, BinTerm(ps, bin));
    }
  }

  lemma DivideSum(x: real, y: real, n: real)
    requires n > 0.0
    ensures x / n + y / n == (x + y) / n
  {
  }

  /** The calibration error is the sum of those distances over the bins, per prediction. */
  lemma {:induction false} EceExactly(ps: seq<Prediction>, bins: nat, n: real)
    requires ps != [] && n == |ps| as real
    ensures Ece(ps, bins) == Gaps(ps, bins) / n
  {
    if bins > 0 {
      EceExactly(ps, bins - 1, n);
      GapOfBin(ps, bins - 1, n);
      DivideSum(Gaps(ps, bins - 1), Gap(ps, bins - 1), n);
    }
  }
}
