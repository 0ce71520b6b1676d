/** Machine arithmetics that meet what the score's proofs ask: any rounding that
    is monotone and leaves representable numbers alone, overflow included. */
module Rounding {
  import opened Types
  import opened Metric

  /** Which reals the machine has, and what it makes of any other one. */
  datatype Machine = Machine(has: real -> bool, round: real -> Double) {
    /** True of IEEE 754 in each of its rounding modes. */
    ghost predicate Rounds() {
      && has(0.0)
      && (forall x | has(x) :: round(x) == Finite(x))
      && (forall x, y | x <= y :: AtLeast(round(y), round(x)))
    }

    /** Addition: rounded where both operands are machine numbers. Others never
        arise in a sum that starts at zero. */
    function Plus(a: Double, b: Double): Double {
      match (a, b)
      case (Finite(x), Finite(y)) => if has(x) && has(y) then round(x + y) else Finite(x + y)
      case (NaN, _) => NaN
      case (_, NaN) => NaN
      case (PosInf, _) => if b == NegInf then NaN else PosInf
      case (NegInf, _) => if b == PosInf then NaN else NegInf
      case (_, _) => b
    }

    function Magnitude(d: int, q: Double): Double {
      match q
      case Finite(y) => if y == 0.0 then NaN else Abs(round(d as real / y))
      case NaN => NaN
      case _ => ZERO
    }

    function Arithmetic(zeroEps: Double): Metric.Arithmetic { Metric.Arithmetic(Plus, Magnitude, zeroEps) }
  }

  function Abs(d: Double): Double {
    match d
    case Finite(x) => Finite(if x < 0.0 then -x else x)
    case NegInf => PosInf
    case _ => d
  }

  /** The comparisons are C's: nothing compares with NaN, all other values are in a
      strict total order, and finite ones compare as reals. */
  lemma CompareLikeC(a: Double, b: Double, c: Double)
    ensures a == NaN || b == NaN ==> !Less(a, b) && !AtLeast(a, b)
    ensures a != NaN && b != NaN ==>
              && (Less(a, b) || Less(b, a) || a == b)
              && !(Less(a, b) && Less(b, a)) && (a == b ==> !Less(a, b))
              && (AtLeast(a, b) <==> a == b || Less(b, a))
    ensures Less(a, b) && Less(b, c) ==> Less(a, c)
    ensures a.Finite? && b.Finite? ==> (Less(a, b) <==> a.v < b.v)
    ensures a.Finite? ==> Less(NegInf, a) && Less(a, PosInf) && (Positive(a) <==> a.v > 0.0)
  {
  }

  lemma RoundedSumGrows(m: Machine, a: Double, b: Double)
    requires m.Rounds() && NonNegative(a) && NonNegative(b)
    ensures AtLeast(m.Plus(a, b), a)
  {
    if a.Finite? && b.Finite? && m.has(a.v) && m.has(b.v) {
      assert AtLeast(m.round(a.v + b.v), m.round(a.v));
    }
  }

  lemma RoundedMagnitude(m: Machine, d: int, q: Double)
    requires m.Rounds() && q != NaN && q != ZERO
    ensures NonNegative(m.Magnitude(d, q))
    ensures d == 0 ==> m.Magnitude(d, q) == ZERO
  {
    if q.Finite? {
      var x := d as real / q.v;
      assert AtLeast(m.round(x), m.round(x));
      assert d == 0 ==> x == 0.0;
    }
  }

  /** Every such machine is an arithmetic for which early exit decides rightly and
      planted copies are found; so is exact arithmetic. */
  lemma RoundedIsSound(m: Machine, zeroEps: Double)
    requires m.Rounds() && Positive(zeroEps)
    ensures m.Arithmetic(zeroEps).Sound() && m.Arithmetic(zeroEps).KeepsZero()
  {
    forall a, b | NonNegative(a) && NonNegative(b)
      ensures AtLeast(m.Plus(a, b), a)
    {
      RoundedSumGrows(m, a, b);
    }
    forall d: int, q | q != NaN && q != ZERO
      ensures NonNegative(m.Magnitude(d, q)) && (d == 0 ==> m.Magnitude(d, q) == ZERO)
    {
      RoundedMagnitude(m, d, q);
    }
  }

  /** Real arithmetic is the case in which nothing is rounded. */
  lemma ExactRounds()
    ensures Machine(_ => true, x => Finite(x)).Rounds()
  {
  }
}
