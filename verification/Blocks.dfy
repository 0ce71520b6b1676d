/** The block decomposition that distributed-sum and matrix-multiply share: n
    units over the ranks, the remainder spread over the leading ones. */
module Blocks {
  import opened Types
  import opened Integers

  /** Every rank gets `base` units, and the first `remainder` ranks one more. */
  datatype Split = Split(ranks: nat, base: nat, remainder: nat) {
    predicate Valid() { remainder < ranks }

    function Share(r: nat): nat { base + if r < remainder then 1 else 0 }

    /** The units of the ranks before `r`. */
    function Offset(r: nat): nat { if r == 0 then 0 else Offset(r - 1) + Share(r - 1) }

    predicate Owns(r: nat, i: int) { r < ranks && Offset(r) <= i < Offset(r) + Share(r) }

    predicate Owned(i: int) { exists r | 0 <= r < ranks :: Owns(r, i) }

    /** The entries of the tables, in units of `width` elements: 1 in
        distributed-sum, a row in matrix-multiply. */
    function Count(r: nat, width: nat): int { ToInt32(Share(r) * width) }
    function Displ(r: nat, width: nat): int { ToInt32(Offset(r) * width) }
  }

  function SplitOf(n: nat, ranks: nat): (s: Split)
    requires ranks > 0
    ensures s.Valid() && s.ranks == ranks && n == ranks * s.base + s.remainder
  {
    Split(ranks, n / ranks, n % ranks)
  }

  lemma {:induction false} OffsetClosed(s: Split, r: nat)
    ensures s.Offset(r) == r * s.base + if r < s.remainder then r else s.remainder
  {
    if r > 0 {
      OffsetClosed(s, r - 1);
      assert r * s.base == (r - 1) * s.base + s.base;
    }
  }

  lemma {:induction false} OffsetGrows(s: Split, q: nat, r: nat)
    requires q <= r
    ensures s.Offset(q) <= s.Offset(r)
    decreases r
  {
    if q < r {
      OffsetGrows(s, q, r - 1);
    }
  }

  /** The blocks use up exactly the n units. */
  lemma OffsetEnds(n: nat, s: Split)
    requires s.Valid() && n == s.ranks * s.base + s.remainder
    ensures s.Offset(s.ranks) == n
    ensures forall r | 0 <= r < s.ranks :: s.Offset(r) + s.Share(r) <= n
  {
    OffsetClosed(s, s.ranks);
    forall r | 0 <= r < s.ranks
      ensures s.Offset(r) + s.Share(r) <= n
    {
      OffsetGrows(s, r + 1, s.ranks);
    }
  }

  /** Some rank before `end` owns each unit before that rank's block. */
  lemma {:induction false} SomeOwner(s: Split, end: nat, i: nat)
    requires end <= s.ranks && i < s.Offset(end)
    ensures exists r :: 0 <= r < end && s.Owns(r, i)
  {
    if i >= s.Offset(end - 1) {
      assert s.Owns(end - 1, i);
    } else {
      SomeOwner(s, end - 1, i);
    }
  }

  lemma OneOwner(s: Split, i: int, q: nat, r: nat)
    requires s.Owns(q, i) && s.Owns(r, i)
    ensures q == r
  {
    if q < r {
      OffsetGrows(s, q + 1, r);
    } else if r < q {
      OffsetGrows(s, r + 1, q);
    }
  }

  /** For every n and every number of ranks, exactly the units of [0, n) have an
      owner and none has two; no two blocks differ by more than one; and with
      more ranks than units the first n ranks have one each. */
  lemma Partition(n: nat, ranks: nat)
    requires ranks > 0
    ensures var s := SplitOf(n, ranks);
      && (forall i :: 0 <= i < n <==> s.Owned(i))
      && (forall i, q: nat, r: nat | s.Owns(q, i) && s.Owns(r, i) :: q == r)
      && (forall q: nat, r: nat | q < r < ranks :: s.Share(r) <= s.Share(q) <= s.Share(r) + 1)
      && (n < ranks ==> forall r: nat | r < ranks :: s.Share(r) == if r < n then 1 else 0)
  {
    var s := SplitOf(n, ranks);
    OffsetEnds(n, s);
    forall i
      ensures 0 <= i < n <==> s.Owned(i)
    {
      if 0 <= i < n {
        SomeOwner(s, ranks, i);
      }
    }
    forall i, q: nat, r: nat | s.Owns(q, i) && s.Owns(r, i)
      ensures q == r
    {
      OneOwner(s, i, q, r);
    }
    FewUnits(n, s);
  }

  lemma FewUnits(n: nat, s: Split)
    requires s.Valid() && n == s.ranks * s.base + s.remainder
    ensures n < s.ranks ==> s.base == 0 && s.remainder == n
  {
    ProductGrows(1, s.base, s.ranks);
  }

  /** The tables of counts and displacements, computed by every rank. */
  method Decompose(n: nat, ranks: nat, width: nat) returns (counts: array<int>, displs: array<int>)
    requires ranks > 0
    ensures fresh(counts) && fresh(displs) && counts.Length == displs.Length == ranks
    ensures var s := SplitOf(n, ranks);
            forall r | 0 <= r < ranks ::
              counts[r] == s.Count(r, width) && displs[r] == s.Displ(r, width)
  {
    counts := new int[ranks](_ => 0);
    displs := new int[ranks](_ => 0);
    var s := SplitOf(n, ranks);
    var offset := 0;
    for r := 0 to ranks
      invariant offset == s.Offset(r)
      invariant forall q | 0 <= q < r ::
          counts[q] == s.Count(q, width) && displs[q] == s.Displ(q, width)
    {
      var share := s.base + if r < s.remainder then 1 else 0;
      assert share == s.Share(r);
      counts[r] := ToInt32(share * width);
      displs[r] := ToInt32(offset * width);
      offset := offset + share;
    }
  }

  lemma Narrow(a: nat, b: nat, n: nat, width: nat)
    requires a + b <= n && n * width <= INT_MAX
    ensures a * width + b * width == (a + b) * width <= n * width
    ensures ToInt32(a * width) == a * width && ToInt32(b * width) == b * width
  {
    ProductGrows(a + b, n, width);
    ProductGrows(a, n, width);
    ProductGrows(b, n, width);
    ProductGrows(0, a, width);
    ProductGrows(0, b, width);
  }

  /** When all elements together are an int, narrowing the tables loses nothing
      and every block lies inside the whole array. */
  lemma TablesAreExact(n: nat, ranks: nat, width: nat, r: nat)
    requires r < ranks && n * width <= INT_MAX
    ensures var s := SplitOf(n, ranks);
      && s.Count(r, width) == s.Share(r) * width
      && s.Displ(r, width) == s.Offset(r) * width
      && s.Offset(r) * width + s.Share(r) * width == (s.Offset(r) + s.Share(r)) * width <= n * width
  {
    var s := SplitOf(n, ranks);
    OffsetEnds(n, s);
    Narrow(s.Offset(r), s.Share(r), n, width);
  }

  /** Every entry of the tables is what it would be without narrowing. */
  ghost predicate ExactTables(s: Split, width: nat) {
    forall r: nat | r < s.ranks :: s.Count(r, width) == s.Share(r) * width && s.Displ(r, width) == s.Offset(r) * width
  }

  /** The tables are exact if and only if the first share, which is the largest,
      and the last offset are ints. */
  lemma TablesAreExactIff(s: Split, width: nat)
    requires s.Valid()
    ensures ExactTables(s, width) <==>
            s.Share(0) * width <= INT_MAX && s.Offset(s.ranks - 1) * width <= INT_MAX
  {
    assert ExactTables(s, width) ==>
        s.Count(0, width) == s.Share(0) * width && s.Displ(s.ranks - 1, width) == s.Offset(s.ranks - 1) * width;
    if s.Share(0) * width <= INT_MAX && s.Offset(s.ranks - 1) * width <= INT_MAX {
      forall r: nat | r < s.ranks
        ensures s.Count(r, width) == s.Share(r) * width && s.Displ(r, width) == s.Offset(r) * width
      {
        OffsetGrows(s, r, s.ranks - 1);
        ProductGrows(s.Share(r), s.Share(0), width);
        ProductGrows(s.Offset(r), s.Offset(s.ranks - 1), width);
        ProductGrows(0, s.Share(r), width);
        ProductGrows(0, s.Offset(r), width);
      }
    }
  }
}
