/** distributed-sum: 1..n, scattered in blocks, summed by slice and reduced. */
module DistributedSum {
  import opened Types
  import opened Integers
  import opened Blocks

  /** The sum of the first `k` elements. */
  function SumTo(xs: seq<int>, k: nat): int
    requires k <= |xs|
  {
    if k == 0 then 0 else SumTo(xs, k - 1) + xs[k - 1]
  }

  function Sum(xs: seq<int>): int { SumTo(xs, |xs|) }

  lemma {:induction false} SamePrefix(xs: seq<int>, ys: seq<int>, k: nat)
    requires k <= |xs| && k <= |ys| && forall i | 0 <= i < k :: xs[i] == ys[i]
    ensures SumTo(xs, k) == SumTo(ys, k)
  {
    if k > 0 {
      SamePrefix(xs, ys, k - 1);
    }
  }

  lemma {:induction false} SumToConcat(a: seq<int>, b: seq<int>, k: nat)
    requires k <= |b|
    ensures SumTo(a + b, |a| + k) == Sum(a) + SumTo(b, k)
  {
    if k == 0 {
      SamePrefix(a + b, a, |a|);
    } else {
      SumToConcat(a, b, k - 1);
    }
  }

  lemma SumConcat(a: seq<int>, b: seq<int>)
    ensures Sum(a + b) == Sum(a) + Sum(b)
  {
    SumToConcat(a, b, |b|);
  }

  lemma SumAppend(xs: seq<int>, v: int)
    ensures Sum(xs + [v]) == Sum(xs) + v
  {
    SamePrefix(xs + [v], xs, |xs|);
  }

  function Closed(n: int): int { n * (n + 1) / 2 }

  lemma ClosedStep(n: int)
    ensures Closed(n) == Closed(n - 1) + n
  {
    assert n * (n + 1) == (n - 1) * n + 2 * n;
  }

  const LLONG_MAX := 0x7fff_ffff_ffff_ffff

  /** Addition of two long longs; the sums below never reach the wrap. */
  function AddLong(a: int, b: int): int
  {
    var modulus := 0x1_0000_0000_0000_0000;
    (a + b + LLONG_MAX + 1) % modulus - LLONG_MAX - 1
  }

  /** The sum modulo the width of a long long, in its range. */
  lemma AddLongWraps(a: int, b: int)
    ensures -LLONG_MAX - 1 <= AddLong(a, b) <= LLONG_MAX
    ensures (AddLong(a, b) - (a + b)) % 0x1_0000_0000_0000_0000 == 0
  {
    var q := (a + b + LLONG_MAX + 1) / 0x1_0000_0000_0000_0000;
    assert AddLong(a, b) - (a + b) == -q * 0x1_0000_0000_0000_0000;
  }

  lemma AddLongExact(a: int, b: int)
    requires -LLONG_MAX - 1 <= a + b <= LLONG_MAX
    ensures AddLong(a, b) == a + b
  {
  }

  // -------------------------------------------------------------------- fill

  /** Element i of the root's array; the cast is what overflows first. */
  function Element(i: int): int { ToInt32(i + 1) }

  function Filled(n: nat): (whole: seq<int>)
    ensures |whole| == n && forall i | 0 <= i < n :: whole[i] == Element(i)
  {
    seq(n, i => Element(i))
  }

  method Fill(n: nat) returns (whole: array<int>)
    ensures fresh(whole) && whole[..] == Filled(n)
  {
    whole := new int[n](_ => 0);
    for i := 0 to n
      invariant forall j | 0 <= j < i :: whole[j] == Element(j)
    {
      whole[i] := ToInt32(i + 1);
    }
  }

  /** The array sums to the closed form exactly when its last value is an int. */
  lemma {:induction false} FillSumsToClosed(n: nat)
    ensures Sum(Filled(n)) <= Closed(n)
    ensures Sum(Filled(n)) == Closed(n) <==> n <= INT_MAX
  {
    if n > 0 {
      SamePrefix(Filled(n), Filled(n - 1), n - 1);
      FillSumsToClosed(n - 1);
      ClosedStep(n);
    }
  }

  // ----------------------------------------------------------------- slices

  /** What MPI_Scatterv hands to rank `r`. */
  function Slice(whole: seq<int>, s: Split, r: nat): seq<int>
    requires s.Offset(r) + s.Share(r) <= |whole|
  {
    whole[s.Offset(r)..s.Offset(r) + s.Share(r)]
  }

  /** The slice sums of the first `k` ranks, in rank order. */
  function Locals(whole: seq<int>, s: Split, k: nat): (locals: seq<int>)
    requires k <= s.ranks && s.Offset(k) <= |whole|
    ensures |locals| == k
  {
    if k == 0 then [] else Locals(whole, s, k - 1) + [Sum(Slice(whole, s, k - 1))]
  }

  lemma SumOfPrefix(whole: seq<int>, i: nat, j: nat)
    requires i <= j <= |whole|
    ensures Sum(whole[..j]) == Sum(whole[..i]) + Sum(whole[i..j])
  {
    assert whole[..j] == whole[..i] + whole[i..j];
    SumConcat(whole[..i], whole[i..j]);
  }

  lemma LocalsStep(whole: seq<int>, s: Split, k: nat)
    requires 0 < k <= s.ranks && s.Offset(k) <= |whole|
    ensures s.Offset(k - 1) <= s.Offset(k) <= |whole|
    ensures Sum(Locals(whole, s, k)) == Sum(Locals(whole, s, k - 1)) + Sum(whole[s.Offset(k - 1)..s.Offset(k)])
  {
    SumAppend(Locals(whole, s, k - 1), Sum(Slice(whole, s, k - 1)));
  }

  lemma {:induction false} LocalsSum(whole: seq<int>, s: Split, k: nat)
    requires k <= s.ranks && s.Offset(k) <= |whole|
    ensures Sum(Locals(whole, s, k)) == Sum(whole[..s.Offset(k)])
  {
    if k == 0 {
      assert whole[..s.Offset(k)] == [];
    } else {
      LocalsSum(whole, s, k - 1);
      SumOfPrefix(whole, s.Offset(k - 1), s.Offset(k));
      LocalsStep(whole, s, k);
    }
  }

  lemma {:induction false} SumBetween(xs: seq<int>, k: nat, most: int)
    requires k <= |xs| && forall i | 0 <= i < |xs| :: 0 <= xs[i] <= most
    ensures 0 <= SumTo(xs, k) <= k * most
  {
    if k > 0 {
      SumBetween(xs, k - 1, most);
      assert k * most == (k - 1) * most + most;
    }
  }

  /** What a 64-bit accumulator holds after the first `k` additions. */
  function AccumulatedTo(xs: seq<int>, k: nat): int
    requires k <= |xs|
  {
    if k == 0 then 0 else AddLong(AccumulatedTo(xs, k - 1), xs[k - 1])
  }

  /** The rank's loop over its slice. */
  method LocalSum(slice: array<int>) returns (local: int)
    ensures local == AccumulatedTo(slice[..], slice.Length)
  {
    local := 0;
    for i := 0 to slice.Length
      invariant local == AccumulatedTo(slice[..], i)
    {
      local := AddLong(local, slice[i]);
    }
  }

  /** On a slice of the array the accumulator never wraps. */
  lemma {:induction false} AccumulatorIsExact(xs: seq<int>, k: nat)
    requires k <= |xs| <= INT_MAX && forall i | 0 <= i < |xs| :: 0 <= xs[i] <= INT_MAX
    ensures AccumulatedTo(xs, k) == SumTo(xs, k)
  {
    if k > 0 {
      AccumulatorIsExact(xs, k - 1);
      SumBetween(xs, k, INT_MAX);
      ProductGrows(k, INT_MAX, INT_MAX);
      AddLongExact(AccumulatedTo(xs, k - 1), xs[k - 1]);
    }
  }

  // ------------------------------------------------------------------ reduce

  /** One way of combining the contributions: MPI_Reduce may group and order
      them as it likes. */
  datatype Tree = Leaf(value: int) | Node(left: Tree, right: Tree)

  function Leaves(t: Tree): seq<int> {
    match t
    case Leaf(v) => [v]
    case Node(l, r) => Leaves(l) + Leaves(r)
  }

  function Reduced(t: Tree): int {
    match t
    case Leaf(v) => v
    case Node(l, r) => AddLong(Reduced(l), Reduced(r))
  }

  predicate AllNonNegative(xs: seq<int>) { forall i | 0 <= i < |xs| :: 0 <= xs[i] }

  lemma {:induction false} SumNotNegative(xs: seq<int>, k: nat)
    requires AllNonNegative(xs) && k <= |xs|
    ensures 0 <= SumTo(xs, k)
  {
    if k > 0 {
      SumNotNegative(xs, k - 1);
    }
  }

  /** No grouping overflows when the total does not, and all give the total. */
  lemma {:induction false} TreeSums(t: Tree)
    requires AllNonNegative(Leaves(t)) && Sum(Leaves(t)) <= LLONG_MAX
    ensures Reduced(t) == Sum(Leaves(t)) >= 0
  {
    match t {
      case Leaf(v) =>
        SumAppend([], v);
        assert [] + [v] == [v];
      case Node(l, r) =>
        SumConcat(Leaves(l), Leaves(r));
        assert AllNonNegative(Leaves(l)) by { assert forall i | 0 <= i < |Leaves(l)| :: Leaves(t)[i] == Leaves(l)[i]; }
        assert AllNonNegative(Leaves(r)) by { assert forall i | 0 <= i < |Leaves(r)| :: Leaves(t)[|Leaves(l)| + i] == Leaves(r)[i]; }
        SumNotNegative(Leaves(l), |Leaves(l)|);
        SumNotNegative(Leaves(r), |Leaves(r)|);
        TreeSums(l);
        TreeSums(r);
        AddLongExact(Reduced(l), Reduced(r));
    }
  }

  lemma Between(a: seq<int>, v: int, b: seq<int>)
    ensures Sum(a + [v] + b) == Sum(a + b) + v
    ensures multiset(a + [v] + b) == multiset(a + b) + multiset{v}
  {
    SumConcat(a + [v], b);
    SumConcat(a, b);
    SumAppend(a, v);
  }

  /** Taking one element out of a sum. */
  lemma Extract(a: seq<int>, i: nat)
    requires i < |a|
    ensures multiset(a) == multiset(a[..i] + a[i + 1..]) + multiset{a[i]}
    ensures Sum(a) == Sum(a[..i] + a[i + 1..]) + a[i]
  {
    assert a[..i] + [a[i]] + a[i + 1..] == a;
    Between(a[..i], a[i], a[i + 1..]);
  }

  lemma Cancel(x: multiset<int>, y: multiset<int>, v: int)
    requires x + multiset{v} == y + multiset{v}
    ensures x == y
  {
    assert x == x + multiset{v} - multiset{v};
    assert y == y + multiset{v} - multiset{v};
  }

  lemma {:induction false} SumPermutes(a: seq<int>, b: seq<int>)
    requires multiset(a) == multiset(b)
    ensures Sum(a) == Sum(b)
  {
    if b == [] {
      assert |multiset(a)| == |a|;
    } else {
      var last := |b| - 1;
      assert b[last] in multiset(a);
      var i :| 0 <= i < |a| && a[i] == b[last];
      Extract(a, i);
      Extract(b, last);
      assert b[..last] + b[last + 1..] == b[..last];
      Cancel(multiset(a[..i] + a[i + 1..]), multiset(b[..last]), b[last]);
      SumPermutes(a[..i] + a[i + 1..], b[..last]);
    }
  }

  /** What the ranks hand to the reduction: what their accumulators make of the
      slices that the narrowed tables cut. */
  predicate Contributed(n: nat, counts: seq<int>, displs: seq<int>, locals: seq<int>) {
    && |counts| == |displs| == |locals|
    && forall r | 0 <= r < |locals| :: Contributes(n, counts[r], displs[r], locals[r])
  }

  predicate Contributes(n: nat, count: int, displ: int, local: int) {
    0 <= displ <= displ + count <= n && local == AccumulatedTo(Filled(n)[displ..displ + count], count)
  }

  predicate Tables(s: Split, counts: seq<int>, displs: seq<int>) {
    && |counts| == |displs| == s.ranks
    && forall r | 0 <= r < s.ranks :: counts[r] == s.Count(r, 1) && displs[r] == s.Displ(r, 1)
  }

  lemma ExactEntries(n: nat, s: Split, r: nat)
    requires n <= INT_MAX && r < s.ranks && s == SplitOf(n, s.ranks)
    ensures s.Count(r, 1) == s.Share(r) && s.Displ(r, 1) == s.Offset(r) && s.Offset(r) + s.Share(r) <= n
  {
    TablesAreExact(n, s.ranks, 1, r);
  }

  /** The rank's end of the scatter, and its loop. */
  method SumReceived(whole: seq<int>, count: int, displ: int) returns (local: int)
    requires 0 <= displ <= displ + count <= |whole|
    ensures local == AccumulatedTo(whole[displ..displ + count], count)
  {
    var slice := new int[count](i requires 0 <= i < count => whole[displ + i]);
    local := LocalSum(slice);
    assert slice[..] == whole[displ..displ + count];
  }

  /** What rank `r` does, on what the root scatters to it. */
  method Contribute(n: nat, ranks: nat, r: nat, whole: seq<int>) returns (local: int)
    requires r < ranks && n <= INT_MAX && whole == Filled(n)
    ensures var s := SplitOf(n, ranks); Contributes(n, s.Count(r, 1), s.Displ(r, 1), local)
  {
    var counts, displs := Decompose(n, ranks, 1);
    ExactEntries(n, SplitOf(n, ranks), r);
    local := SumReceived(whole, counts[r], displs[r]);
  }

  lemma SliceIsExact(n: nat, count: int, displ: int, local: int)
    requires n <= INT_MAX && Contributes(n, count, displ, local)
    ensures local == Sum(Filled(n)[displ..displ + count])
  {
    AccumulatorIsExact(Filled(n)[displ..displ + count], count);
  }

  /** Neither the narrowing nor the accumulator changes a contribution. */
  lemma ContributionIsExact(n: nat, s: Split, r: nat, count: int, displ: int, local: int)
    requires n <= INT_MAX && r < s.ranks && s == SplitOf(n, s.ranks)
    requires count == s.Count(r, 1) && displ == s.Displ(r, 1) && Contributes(n, count, displ, local)
    ensures count == s.Share(r) && displ == s.Offset(r) && displ + count <= n
    ensures local == Sum(Filled(n)[displ..displ + count])
  {
    ExactEntries(n, s, r);
    SliceIsExact(n, count, displ, local);
  }

  lemma {:induction false} LocalsAt(whole: seq<int>, s: Split, k: nat, r: nat)
    requires r < k <= s.ranks && s.Offset(k) <= |whole|
    ensures s.Offset(r) + s.Share(r) <= |whole| && Locals(whole, s, k)[r] == Sum(Slice(whole, s, r))
  {
    if r < k - 1 {
      LocalsAt(whole, s, k - 1, r);
    }
  }

  lemma OneLocal(n: nat, s: Split, r: nat, count: int, displ: int, local: int)
    requires n <= INT_MAX && r < s.ranks && s == SplitOf(n, s.ranks) && s.Offset(s.ranks) == n
    requires count == s.Count(r, 1) && displ == s.Displ(r, 1) && Contributes(n, count, displ, local)
    ensures local == Locals(Filled(n), s, s.ranks)[r]
  {
    ContributionIsExact(n, s, r, count, displ, local);
    LocalAtIs(Filled(n), s, r, count, displ);
  }

  lemma LocalAtIs(whole: seq<int>, s: Split, r: nat, count: nat, displ: nat)
    requires r < s.ranks && s.Offset(s.ranks) <= |whole| && count == s.Share(r) && displ == s.Offset(r)
    ensures displ + count <= |whole| && Locals(whole, s, s.ranks)[r] == Sum(whole[displ..displ + count])
  {
    LocalsAt(whole, s, s.ranks, r);
  }

  lemma ContributionsAreLocals(n: nat, s: Split, counts: seq<int>, displs: seq<int>, locals: seq<int>)
    requires 0 < s.ranks && n <= INT_MAX && s == SplitOf(n, s.ranks)
    requires Tables(s, counts, displs) && Contributed(n, counts, displs, locals)
    ensures s.Offset(s.ranks) == n && locals == Locals(Filled(n), s, s.ranks)
  {
    OffsetEnds(n, s);
    forall r | 0 <= r < s.ranks
      ensures locals[r] == Locals(Filled(n), s, s.ranks)[r]
    {
      assert Contributes(n, counts[r], displs[r], locals[r]);
      OneLocal(n, s, r, counts[r], displs[r], locals[r]);
    }
  }

  lemma {:induction false} LocalsNonNegative(whole: seq<int>, s: Split, k: nat)
    requires k <= s.ranks && s.Offset(k) <= |whole| && AllNonNegative(whole)
    ensures AllNonNegative(Locals(whole, s, k))
  {
    if k > 0 {
      LocalsNonNegative(whole, s, k - 1);
      var slice := Slice(whole, s, k - 1);
      SumNotNegative(slice, |slice|);
    }
  }

  lemma LocalsAddUp(n: nat, s: Split)
    requires 0 < s.ranks && n <= INT_MAX && s == SplitOf(n, s.ranks) && s.Offset(s.ranks) == n
    ensures Sum(Locals(Filled(n), s, s.ranks)) == Closed(n) && AllNonNegative(Locals(Filled(n), s, s.ranks))
  {
    LocalsSum(Filled(n), s, s.ranks);
    assert Filled(n)[..n] == Filled(n);
    FillSumsToClosed(n);
    LocalsNonNegative(Filled(n), s, s.ranks);
  }

  /** The rank count is not observable: for every n that is an int, every number
      of ranks, and every order and grouping of the reduction of what the ranks'
      accumulators hold, the root gets n(n+1)/2, which is a long long. */
  lemma RankCountNotObservable(n: nat, s: Split, counts: seq<int>, displs: seq<int>, locals: seq<int>, t: Tree)
    requires 0 < s.ranks && n <= INT_MAX && s == SplitOf(n, s.ranks)
    requires Tables(s, counts, displs) && Contributed(n, counts, displs, locals)
    requires multiset(Leaves(t)) == multiset(locals)
    ensures Reduced(t) == Closed(n) <= LLONG_MAX
  {
    ContributionsAreLocals(n, s, counts, displs, locals);
    LocalsAddUp(n, s);
    SumPermutes(Leaves(t), locals);
    ClosedFits(n);
    SameSign(Leaves(t), locals);
    TreeSums(t);
  }

  lemma SameSign(a: seq<int>, b: seq<int>)
    requires multiset(a) == multiset(b) && AllNonNegative(b)
    ensures AllNonNegative(a)
  {
    forall i | 0 <= i < |a|
      ensures 0 <= a[i]
    {
      assert a[i] in multiset(b);
    }
  }

  lemma ClosedFits(n: nat)
    requires n <= INT_MAX
    ensures n * (n + 1) <= LLONG_MAX
  {
    ProductGrows(n, INT_MAX, n + 1);
    ProductGrows(n + 1, INT_MAX + 1, INT_MAX);
  }
}
