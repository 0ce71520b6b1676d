/** What the score is, written without the functions that compute it: for every
    arithmetic the sum, in row-major order, of one term for each cell; in exact
    arithmetic the double sum of relative differences. */
module ScoreMeaning {
  import opened Integers
  import opened Types
  import opened Metric
  import opened Canonical
  import opened Rounding

  // -------------------------------------------------------- any arithmetic

  /** The term of the object's cell number `c`, counted row by row. */
  function CellTerm(ar: Arithmetic, o: Overlay, c: int): Double
    requires o.Fits() && 0 <= c < o.m * o.m
  {
    KeyUnpacks(c, o.m);
    CellInside(o.row + c / o.m, o.col + c % o.m, o.n);
    var p := o.picture[(o.row + c / o.m) * o.n + (o.col + c % o.m)];
    ar.magnitude(p - o.obj[c], if p == 0 then ar.zeroEps else Finite(p as real))
  }

  /** The first `k` cells' terms, added from the left to zero. */
  function AddedUp(ar: Arithmetic, o: Overlay, k: nat): Double
    requires o.Fits() && k <= o.m * o.m
  {
    if k == 0 then ZERO else ar.plus(AddedUp(ar, o, k - 1), CellTerm(ar, o, k - 1))
  }

  lemma TermIsCellTerm(ar: Arithmetic, o: Overlay, y: nat, x: nat)
    requires o.Fits() && y < o.m && x < o.m
    ensures 0 <= y * o.m + x < o.m * o.m
    ensures TermAt(ar, o, y, x) == CellTerm(ar, o, y * o.m + x)
  {
    KeyPacks(y, x, o.m);
    assert (o.row + y) * o.n + o.col + x == (o.row + y) * o.n + (o.col + x);
  }

  lemma {:induction false} SumIsAddedUp(ar: Arithmetic, o: Overlay, y: nat, x: nat)
    requires o.Fits() && o.Cut(y, x)
    ensures 0 <= y * o.m + x <= o.m * o.m
    ensures SumBefore(ar, o, y, x) == AddedUp(ar, o, y * o.m + x)
    decreases y, x
  {
    ProductGrows(y, o.m, o.m);
    if x > 0 {
      TermIsCellTerm(ar, o, y, x - 1);
      SumIsAddedUp(ar, o, y, x - 1);
    } else if y > 0 {
      SumIsAddedUp(ar, o, y - 1, o.m);
      assert (y - 1) * o.m + o.m == y * o.m;
    }
  }

  /** Every one of the m*m cells counts once, in row-major order, and nothing else
      does; so the bits of the score are those of this one order of additions. */
  lemma ScoreAddsEveryCell(ar: Arithmetic, o: Overlay)
    requires o.Fits()
    ensures FullScore(ar, o) == AddedUp(ar, o, o.m * o.m)
  {
    SumIsAddedUp(ar, o, o.m, 0);
  }

  // ------------------------------------------------------ exact arithmetic

  function Magnitude(x: real): real { if x < 0.0 then -x else x }

  /** |p - q| / |p|, or |q| / eps where p is zero. */
  function Difference(p: int, q: int, eps: real): real
    requires eps > 0.0
  {
    if p == 0 then Magnitude(q as real) / eps else Magnitude((p - q) as real) / Magnitude(p as real)
  }

  /** The relative difference at cell (y, x) of the object. */
  function DifferenceAt(o: Overlay, eps: real, y: int, x: int): real
    requires o.Fits() && eps > 0.0 && 0 <= y < o.m && 0 <= x < o.m
  {
    CellInside(o.row + y, o.col + x, o.n);
    CellInside(y, x, o.m);
    Difference(o.picture[(o.row + y) * o.n + (o.col + x)], o.obj[y * o.m + x], eps)
  }

  function RowTotal(o: Overlay, eps: real, y: int, k: nat): real
    requires o.Fits() && eps > 0.0 && 0 <= y < o.m && k <= o.m
  {
    if k == 0 then 0.0 else RowTotal(o, eps, y, k - 1) + DifferenceAt(o, eps, y, k - 1)
  }

  /** The sum over the first `k` rows of the sum over the columns. */
  function Total(o: Overlay, eps: real, k: nat): real
    requires o.Fits() && eps > 0.0 && k <= o.m
  {
    if k == 0 then 0.0 else Total(o, eps, k - 1) + RowTotal(o, eps, k - 1, o.m)
  }

  function Exact(eps: real): Arithmetic { Machine(_ => true, x => Finite(x)).Arithmetic(Finite(eps)) }

  lemma QuotientUnique(q: real, d: real, y: real)
    requires y != 0.0 && q * y == d
    ensures q == d / y
  {
  }

  lemma MagnitudeOfQuotient(d: real, y: real)
    requires y != 0.0
    ensures Magnitude(d / y) == Magnitude(d) / Magnitude(y)
  {
    var q := d / y;
    assert q * y == d;
    assert (-q) * y == -d && q * (-y) == -d && (-q) * (-y) == d;
    SignOfProduct(q, y);
    QuotientUnique(Magnitude(q), Magnitude(d), Magnitude(y));
  }

  lemma SignOfProduct(q: real, y: real)
    requires y != 0.0
    ensures q < 0.0 ==> if y < 0.0 then q * y > 0.0 else q * y < 0.0
    ensures q >= 0.0 ==> if y < 0.0 then q * y <= 0.0 else q * y >= 0.0
  {
  }

  lemma ExactTerm(o: Overlay, eps: real, y: nat, x: nat)
    requires o.Fits() && eps > 0.0 && y < o.m && x < o.m
    ensures TermAt(Exact(eps), o, y, x) == Finite(DifferenceAt(o, eps, y, x))
  {
    CellInside(o.row + y, o.col + x, o.n);
    CellInside(y, x, o.m);
    var p, q := o.picture[(o.row + y) * o.n + (o.col + x)], o.obj[y * o.m + x];
    assert (o.row + y) * o.n + o.col + x == (o.row + y) * o.n + (o.col + x);
    ExactQuotient(p - q, if p == 0 then eps else p as real, eps);
    assert Magnitude((-q) as real) == Magnitude(q as real);
  }

  lemma ExactQuotient(d: int, y: real, eps: real)
    requires y != 0.0 && eps > 0.0
    ensures Exact(eps).magnitude(d, Finite(y)) == Finite(Magnitude(d as real) / Magnitude(y))
  {
    MagnitudeOfQuotient(d as real, y);
  }

  lemma {:induction false} ExactSum(o: Overlay, eps: real, y: nat, x: nat)
    requires o.Fits() && eps > 0.0 && o.Cut(y, x)
    ensures SumBefore(Exact(eps), o, y, x) ==
            Finite(Total(o, eps, y) + if y < o.m then RowTotal(o, eps, y, x) else 0.0)
    decreases y, x
  {
    if x > 0 {
      ExactTerm(o, eps, y, x - 1);
      ExactSum(o, eps, y, x - 1);
    } else if y > 0 {
      ExactSum(o, eps, y - 1, o.m);
    }
  }

  /** In exact arithmetic the score is the double sum of the relative differences,
      and an object occurs where that sum is below the threshold. */
  lemma ScoreIsTotal(o: Overlay, eps: real, threshold: real)
    requires o.Fits() && eps > 0.0
    ensures Exact(eps).Sound() && Exact(eps).KeepsZero()
    ensures FullScore(Exact(eps), o) == Finite(Total(o, eps, o.m))
    ensures Less(ScoreAt(Exact(eps), o, Finite(threshold)), Finite(threshold)) <==> Total(o, eps, o.m) < threshold
  {
    ExactRounds();
    RoundedIsSound(Machine(_ => true, x => Finite(x)), Finite(eps));
    ExactSum(o, eps, o.m, 0);
    EarlyExitDecides(Exact(eps), o, Finite(threshold));
  }
}
