/** The shared score of metric.h, over any arithmetic in which adding a
    non-negative term does not decrease a sum. */
module Metric {
  import opened Integers
  import opened Types

  /** The floating-point operations the score is made of. `magnitude(d, q)` is
      |d / q| as rounded by the machine; `zeroEps` replaces a zero denominator. */
  datatype Arithmetic = Arithmetic(
    plus: (Double, Double) -> Double,
    magnitude: (int, Double) -> Double,
    zeroEps: Double)
  {
    /** All that the proofs ask of the rounding. */
    ghost predicate Sound() {
      && Positive(zeroEps)
      && (forall a, b | NonNegative(a) && NonNegative(b) :: AtLeast(plus(a, b), a))
      && (forall d: int, q | q != NaN && q != ZERO :: NonNegative(magnitude(d, q)))
    }

    /** Zero is exact: 0 + 0 and |0 / q|. */
    ghost predicate KeepsZero() {
      && plus(ZERO, ZERO) == ZERO
      && (forall q | q != NaN && q != ZERO :: magnitude(0, q) == ZERO)
    }
  }

  /** msearch_term. */
  function Term(ar: Arithmetic, p: int, o: int): Double {
    ar.magnitude(p - o, if p != 0 then Finite(p as real) else ar.zeroEps)
  }

  /** An m x m object laid over an n x n picture with its corner at (row, col).
      `picture` may be a buffer that is longer than the picture. */
  datatype Overlay = Overlay(picture: seq<int>, n: int, obj: seq<int>, m: int, row: int, col: int) {
    predicate Fits() {
      && 1 <= m
      && 0 <= row <= n - m
      && 0 <= col <= n - m
      && n * n <= |picture|
      && m * m <= |obj|
    }

    /** A point of the row-major order: before cell (y, x), or after the last. */
    predicate Cut(y: nat, x: nat) { y <= m && x <= m && (y == m ==> x == 0) }
  }

  function TermAt(ar: Arithmetic, o: Overlay, y: int, x: int): Double
    requires o.Fits() && 0 <= y < o.m && 0 <= x < o.m
  {
    CellInside(o.row + y, o.col + x, o.n);
    CellInside(y, x, o.m);
    Term(ar, o.picture[(o.row + y) * o.n + o.col + x], o.obj[y * o.m + x])
  }

  /** The row-major sum of every term before cell (y, x). */
  function SumBefore(ar: Arithmetic, o: Overlay, y: nat, x: nat): Double
    requires o.Fits() && o.Cut(y, x)
    decreases y, x
  {
    if x > 0 then ar.plus(SumBefore(ar, o, y, x - 1), TermAt(ar, o, y, x - 1))
    else if y > 0 then SumBefore(ar, o, y - 1, o.m)
    else ZERO
  }

  /** The score by definition: the sum of all m*m terms. */
  function FullScore(ar: Arithmetic, o: Overlay): Double
    requires o.Fits()
  {
    SumBefore(ar, o, o.m, 0)
  }

  /** What msearch_score_at returns when rows before `y` have been added without
      reaching the threshold. */
  function ScoreFrom(ar: Arithmetic, o: Overlay, threshold: Double, y: nat): Double
    requires o.Fits() && y <= o.m
    decreases o.m - y
  {
    if y == o.m then SumBefore(ar, o, y, 0)
    else
      var sum := SumBefore(ar, o, y, o.m);
      if AtLeast(sum, threshold) then sum else ScoreFrom(ar, o, threshold, y + 1)
  }

  function ScoreAt(ar: Arithmetic, o: Overlay, threshold: Double): Double
    requires o.Fits()
  {
    ScoreFrom(ar, o, threshold, 0)
  }

  lemma {:induction false} SumNonNegative(ar: Arithmetic, o: Overlay, y: nat, x: nat)
    requires ar.Sound() && o.Fits() && o.Cut(y, x)
    ensures NonNegative(SumBefore(ar, o, y, x))
    decreases y, x
  {
    if x > 0 {
      SumNonNegative(ar, o, y, x - 1);
      assert NonNegative(TermAt(ar, o, y, x - 1));
    } else if y > 0 {
      SumNonNegative(ar, o, y - 1, o.m);
    }
  }

  /** Partial sums only grow along the row-major order. */
  lemma {:induction false} SumGrows(ar: Arithmetic, o: Overlay, y: nat, x: nat, y': nat, x': nat)
    requires ar.Sound() && o.Fits()
    requires o.Cut(y, x)
    requires o.Cut(y', x')
    requires y < y' || (y == y' && x <= x')
    ensures AtLeast(SumBefore(ar, o, y', x'), SumBefore(ar, o, y, x))
    decreases y', x'
  {
    SumNonNegative(ar, o, y, x);
    if y == y' && x == x' {
    } else if x' > 0 {
      SumGrows(ar, o, y, x, y', x' - 1);
      SumNonNegative(ar, o, y', x' - 1);
      assert NonNegative(TermAt(ar, o, y', x' - 1));
    } else {
      SumGrows(ar, o, y, x, y' - 1, o.m);
    }
  }

  lemma {:induction false} ScoreFromDecides(ar: Arithmetic, o: Overlay, threshold: Double, y: nat)
    requires ar.Sound() && o.Fits() && y <= o.m
    ensures var score := ScoreFrom(ar, o, threshold, y);
            && (Less(score, threshold) <==> Less(FullScore(ar, o), threshold))
            && (Less(score, threshold) ==> score == FullScore(ar, o))
            && AtLeast(FullScore(ar, o), score)
    decreases o.m - y
  {
    if y == o.m {
      SumNonNegative(ar, o, y, 0);
    } else {
      SumGrows(ar, o, y, o.m, o.m, 0);
      ScoreFromDecides(ar, o, threshold, y + 1);
    }
  }

  /** Early exit never changes a decision: the returned score is below the
      threshold exactly when the full sum is, is the full sum in that case, and
      is a lower bound of it in the other. No threshold is excluded. */
  lemma EarlyExitDecides(ar: Arithmetic, o: Overlay, threshold: Double)
    requires ar.Sound() && o.Fits()
    ensures var score := ScoreAt(ar, o, threshold);
            && (Less(score, threshold) <==> Less(FullScore(ar, o), threshold))
            && (Less(score, threshold) ==> score == FullScore(ar, o))
            && AtLeast(FullScore(ar, o), score)
  {
    ScoreFromDecides(ar, o, threshold, 0);
  }

  /** msearch_score_at as it runs: two loops, one test per object row. */
  method ComputeScore(ar: Arithmetic, o: Overlay, threshold: Double) returns (sum: Double)
    requires o.Fits()
    ensures sum == ScoreAt(ar, o, threshold)
    ensures ar.Sound() ==> (Less(sum, threshold) <==> Less(FullScore(ar, o), threshold))
  {
    if ar.Sound() { EarlyExitDecides(ar, o, threshold); }
    sum := ZERO;
    for y := 0 to o.m
      invariant sum == SumBefore(ar, o, y, 0)
      invariant ScoreAt(ar, o, threshold) == ScoreFrom(ar, o, threshold, y)
    {
      for x := 0 to o.m
        invariant sum == SumBefore(ar, o, y, x)
      {
        sum := ar.plus(sum, TermAt(ar, o, y, x));
      }
      if AtLeast(sum, threshold) {
        return sum;
      }
    }
  }

  /** The score looks at nothing beyond the picture's own n*n cells and the
      object's own m*m cells, so whatever else a buffer holds is never read. */
  lemma {:induction false} SumIgnoresLeftovers(ar: Arithmetic, o: Overlay, o': Overlay, y: nat, x: nat)
    requires o.Fits() && o'.Fits() && o.Cut(y, x)
    requires o' == o.(picture := o'.picture, obj := o'.obj)
    requires o.picture[..o.n * o.n] == o'.picture[..o.n * o.n]
    requires o.obj[..o.m * o.m] == o'.obj[..o.m * o.m]
    ensures SumBefore(ar, o, y, x) == SumBefore(ar, o', y, x)
    decreases y, x
  {
    if x > 0 {
      SumIgnoresLeftovers(ar, o, o', y, x - 1);
      CellInside(o.row + y, o.col + x - 1, o.n);
      CellInside(y, x - 1, o.m);
      var i, j := (o.row + y) * o.n + o.col + x - 1, y * o.m + x - 1;
      assert o.picture[i] == o.picture[..o.n * o.n][i] == o'.picture[..o.n * o.n][i];
      assert o.obj[j] == o.obj[..o.m * o.m][j] == o'.obj[..o.m * o.m][j];
    } else if y > 0 {
      SumIgnoresLeftovers(ar, o, o', y - 1, o.m);
    }
  }

  lemma {:induction false} ScoreIgnoresLeftovers(ar: Arithmetic, o: Overlay, o': Overlay, threshold: Double, y: nat)
    requires o.Fits() && o'.Fits() && y <= o.m
    requires o' == o.(picture := o'.picture, obj := o'.obj)
    requires o.picture[..o.n * o.n] == o'.picture[..o.n * o.n]
    requires o.obj[..o.m * o.m] == o'.obj[..o.m * o.m]
    ensures ScoreFrom(ar, o, threshold, y) == ScoreFrom(ar, o', threshold, y)
    decreases o.m - y
  {
    if y == o.m {
      SumIgnoresLeftovers(ar, o, o', y, 0);
    } else {
      SumIgnoresLeftovers(ar, o, o', y, o.m);
      ScoreIgnoresLeftovers(ar, o, o', threshold, y + 1);
    }
  }

  /** An object laid over an exact copy of itself scores zero, cells holding
      zero included. */
  lemma {:induction false} CopyScoresZero(ar: Arithmetic, o: Overlay, y: nat, x: nat)
    requires ar.Sound() && ar.KeepsZero() && o.Fits() && o.Cut(y, x)
    requires forall v, u | 0 <= v < o.m && 0 <= u < o.m :: Copies(o, v, u)
    ensures SumBefore(ar, o, y, x) == ZERO
    decreases y, x
  {
    if x > 0 {
      CopyScoresZero(ar, o, y, x - 1);
      assert Copies(o, y, x - 1);
    } else if y > 0 {
      CopyScoresZero(ar, o, y - 1, o.m);
    }
  }

  /** The picture repeats the object's cell (y, x). */
  predicate Copies(o: Overlay, y: int, x: int)
    requires o.Fits() && 0 <= y < o.m && 0 <= x < o.m
  {
    CellInside(o.row + y, o.col + x, o.n);
    CellInside(y, x, o.m);
    o.picture[(o.row + y) * o.n + o.col + x] == o.obj[y * o.m + x]
  }
}
