/** Products, quotients and remainders of index arithmetic. */
module Integers {
  lemma ProductGrows(a: int, b: int, c: nat)
    ensures a <= b ==> a * c <= b * c
  {
    if a <= b {
      assert 0 <= (b - a) * c;
    }
  }
  lemma SmallMultiple(x: int, stride: int)
    requires -stride < x * stride < stride
    ensures x == 0
  {
    ProductGrows(1, x, stride);
    ProductGrows(x, -1, stride);
  }

  lemma Divides(a: int, stride: int)
    requires 0 < stride
    ensures a == a / stride * stride + a % stride && 0 <= a % stride < stride
  {
  }

  lemma SameResidue(a: int, b: int, stride: int)
    requires 0 < stride && a <= b < a + stride && a % stride == b % stride
    ensures a == b
  {
    var p, r := a / stride, b / stride;
    Divides(a, stride);
    Divides(b, stride);
    assert (r - p) * stride == r * stride - p * stride == b - a;
    SmallMultiple(r - p, stride);
  }

  lemma NextResidue(a: int, stride: int)
    requires 0 < stride
    ensures (a + stride) % stride == a % stride
  {
    var p, r := a / stride, (a + stride) / stride;
    Divides(a, stride);
    Divides(a + stride, stride);
    assert (p + 1 - r) * stride == p * stride + stride - r * stride;
    SmallMultiple(p + 1 - r, stride);
  }

  lemma {:induction false} ResidueOfShift(a: nat, q: nat, stride: nat)
    requires 0 < stride
    ensures (a + q * stride) % stride == a % stride
  {
    if q > 0 {
      ResidueOfShift(a, q - 1, stride);
      NextResidue(a + (q - 1) * stride, stride);
      assert a + q * stride == a + (q - 1) * stride + stride;
    }
  }

  lemma ShiftedSum(a: nat, d: nat, q: nat, r: nat, stride: nat)
    requires 0 < stride && a == q * stride + r
    ensures (a + d) % stride == (r + d) % stride
  {
    assert a + d == r + d + q * stride;
    ResidueOfShift(r + d, q, stride);
  }

  /** Adding before or after taking the remainder. */
  lemma ResidueOfSum(a: nat, d: nat, stride: nat)
    requires 0 < stride
    ensures (a + d) % stride == (a % stride + d) % stride
  {
    var q, r := a / stride, a % stride;
    Divides(a, stride);
    ShiftedSum(a, d, q, r, stride);
  }

  lemma SquareGrows(a: nat, b: nat)
    requires a <= b
    ensures a * a <= b * b
  {
    assert a * a <= a * b <= b * b;
  }

  lemma CellInside(row: int, col: int, side: int)
    requires 0 <= row < side && 0 <= col < side
    ensures 0 <= row * side + col < side * side
  {
    assert row * side <= (side - 1) * side;
  }

  function Total(work: seq<nat>): nat {
    if work == [] then 0 else work[0] + Total(work[1..])
  }

  lemma {:induction false} TotalDrops(work: seq<nat>, i: int, less: nat)
    requires 0 <= i < |work| && less < work[i]
    ensures Total(work[i := less]) < Total(work)
  {
    if i > 0 {
      TotalDrops(work[1..], i - 1, less);
      assert work[i := less][1..] == work[1..][i - 1 := less];
    } else {
      assert work[i := less][1..] == work[1..];
    }
  }

  lemma {:induction false} TotalBound(work: seq<nat>, most: nat)
    requires forall i | 0 <= i < |work| :: work[i] <= most
    ensures Total(work) <= |work| * most
  {
    if work != [] {
      TotalBound(work[1..], most);
    }
  }

  lemma {:induction false} TotalLess(less: seq<nat>, more: seq<nat>)
    requires |less| == |more| > 0 && forall i | 0 <= i < |less| :: less[i] < more[i]
    ensures Total(less) < Total(more)
  {
    if |less| > 1 {
      TotalLess(less[1..], more[1..]);
    } else {
      assert less[1..] == [] && more[1..] == [];
    }
  }

  /** Pigeonhole: distinct values below `n` are at most `n`. */
  lemma {:induction false} Pigeonhole(xs: seq<int>, n: nat)
    requires forall a | 0 <= a < |xs| :: 0 <= xs[a] < n
    requires forall a, b | 0 <= a < b < |xs| :: xs[a] != xs[b]
    ensures |xs| <= n
  {
    if xs != [] {
      assert 0 <= xs[0] < n;
      if a :| 0 <= a < |xs| && xs[a] == n - 1 {
        var rest := xs[..a] + xs[a + 1..];
        forall b | 0 <= b < |rest|
          ensures rest[b] == xs[if b < a then b else b + 1]
        {
        }
        Pigeonhole(rest, n - 1);
      } else {
        Pigeonhole(xs, n - 1);
      }
    }
  }
}
