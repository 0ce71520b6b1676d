/** matrix-multiply: the rows of A are scattered in blocks, every rank multiplies
    its rows by all of B with threads over rows, and the rows of C are gathered. */
module MatrixMultiply {
  import opened Types
  import opened Integers
  import opened Blocks
  import Problems

  // ---------------------------------------------------------------- operands

  function AAt(row: nat, col: nat): (v: int)
    ensures 0 <= v <= 6
  {
    (row + 2 * col) % 7
  }

  function BAt(row: nat, col: nat): (v: int)
    ensures 0 <= v <= 4
  {
    (3 * row + col) % 5
  }

  // The fill, cell by cell from its corner: how an operand changes from one row and
  // one column to the next.

  lemma FillCorners()
    ensures AAt(0, 0) == 0 && BAt(0, 0) == 0
  {
    SmallResidue(0, 7);
    SmallResidue(0, 5);
  }

  lemma ANextRow(row: nat, col: nat)
    ensures AAt(row + 1, col) == After(AAt(row, col), 1, 7)
  {
    AfterIsResidue(row + 2 * col, 1, 7);
  }

  lemma ANextCol(row: nat, col: nat)
    ensures AAt(row, col + 1) == After(AAt(row, col), 2, 7)
  {
    AfterIsResidue(row + 2 * col, 2, 7);
  }

  lemma BNextRow(row: nat, col: nat)
    ensures BAt(row + 1, col) == After(BAt(row, col), 3, 5)
  {
    AfterIsResidue(3 * row + col, 3, 5);
  }

  lemma BNextCol(row: nat, col: nat)
    ensures BAt(row, col + 1) == After(BAt(row, col), 1, 5)
  {
    AfterIsResidue(3 * row + col, 1, 5);
  }

  /** `v + d`, back below the modulus. */
  function After(v: nat, d: nat, modulus: nat): nat
    requires v < modulus && d < modulus
  {
    if v + d < modulus then v + d else v + d - modulus
  }

  lemma AfterIsResidue(x: nat, d: nat, modulus: nat)
    requires d < modulus
    ensures 0 <= x % modulus < modulus && (x + d) % modulus == After(x % modulus, d, modulus)
  {
    ResidueOfSum(x, d, modulus);
    var v := x % modulus;
    if v + d >= modulus {
      NextResidue(v + d - modulus, modulus);
    }
    SmallResidue(After(v, d, modulus), modulus);
  }

  lemma SmallResidue(v: nat, modulus: nat)
    requires v < modulus
    ensures v % modulus == v
  {
  }

  /** The first `k` terms of entry (row, col) of the product A x B. */
  function Dot(row: nat, col: nat, k: nat): int {
    if k == 0 then 0 else Dot(row, col, k - 1) + AAt(row, k - 1) * BAt(k - 1, col)
  }

  lemma {:induction false} DotBound(row: nat, col: nat, k: nat)
    ensures 0 <= Dot(row, col, k) <= 24 * k
  {
    if k > 0 {
      DotBound(row, col, k - 1);
      var a, b := AAt(row, k - 1), BAt(k - 1, col);
      ProductGrows(a, 6, b);
      ProductGrows(0, a, b);
    }
  }

  /** For every order whose square is an int, no partial sum leaves int. */
  lemma NoOverflow(row: nat, col: nat, k: nat, n: nat)
    requires k <= n <= MAX_SIDE
    ensures ToInt32(Dot(row, col, k)) == Dot(row, col, k)
  {
    DotBound(row, col, k);
  }

  /** The place of element (i, j) of a matrix of `n` columns. */
  lemma Cell(i: nat, j: nat, n: nat, rows: nat)
    requires i < rows && j < n
    ensures 0 <= i * n + j < rows * n
  {
    ProductGrows(i + 1, rows, n);
    assert (i + 1) * n == i * n + n;
  }

  lemma CellsDiffer(i: nat, j: nat, i': nat, j': nat, n: nat)
    requires j < n && j' < n && i * n + j == i' * n + j'
    ensures i == i' && j == j'
  {
    assert (i - i') * n == i * n - i' * n == j' - j;
    SmallMultiple(i - i', n);
  }

  /** A store to one cell leaves every other cell as it was. */
  lemma StoreKeeps(before: seq<int>, after: seq<int>, n: nat, i: nat, j: nat, r: nat, k: nat, v: int)
    requires j < n && k < n && (r != i || k != j)
    requires 0 <= i * n + j < |before| && |after| == |before| && after == before[i * n + j := after[i * n + j]]
    requires CellIs(before, n, r, k, v)
    ensures CellIs(after, n, r, k, v)
  {
    if r * n + k == i * n + j {
      CellsDiffer(r, k, i, j, n);
    }
  }

  // ------------------------------------------------------- the parallel loop

  /** Where the thread that owns a row is: column, next term, running sum. */
  datatype Row = Row(col: nat, k: nat, sum: int)

  /** One rank's loop: its rows of C and how far each row is. Any schedule of the
      threads is a run; they only share what they read. */
  datatype Work = Work(c: seq<int>, rows: seq<Row>)

  function Begin(myRows: nat, n: nat, c: seq<int>): Work {
    Work(c, seq(myRows, _ => Row(0, 0, 0)))
  }

  predicate CanStep(n: nat, w: Work, i: int) { 0 <= i < |w.rows| && w.rows[i].col < n }

  predicate Shaped(n: nat, a: seq<int>, b: seq<int>, w: Work) {
    && |a| == |w.c| == |w.rows| * n && |b| == n * n
    && forall i | 0 <= i < |w.rows| :: w.rows[i].k <= n && w.rows[i].col <= n
  }

  /** The next instruction of row `i`: one more term, or the store. */
  function Step(n: nat, a: seq<int>, b: seq<int>, w: Work, i: int): (w': Work)
    requires Shaped(n, a, b, w) && CanStep(n, w, i)
    ensures |w'.c| == |w.c| && |w'.rows| == |w.rows|
  {
    var row := w.rows[i];
    Cell(i, row.col, n, |w.rows|);
    if row.k < n then
      Cell(i, row.k, n, |w.rows|);
      Cell(row.k, row.col, n, n);
      var sum := ToInt32(row.sum + a[i * n + row.k] * b[row.k * n + row.col]);
      w.(rows := w.rows[i := row.(k := row.k + 1, sum := sum)])
    else
      Work(w.c[i * n + row.col := row.sum], w.rows[i := Row(row.col + 1, 0, 0)])
  }

  /** `a` holds the rows of A from `first` on, `b` all of B. */
  predicate Holds(n: nat, first: nat, myRows: nat, a: seq<int>, b: seq<int>) {
    && |a| == myRows * n && |b| == n * n
    && (forall i, k | 0 <= i < myRows && 0 <= k < n :: ACell(a, n, first, i, k))
    && (forall k, j | 0 <= k < n && 0 <= j < n :: BCell(b, n, k, j))
  }

  predicate CellIs(m: seq<int>, n: nat, i: int, j: int, v: int) {
    0 <= i * n + j < |m| && m[i * n + j] == v
  }

  predicate ACell(m: seq<int>, n: nat, first: nat, i: nat, j: nat) { CellIs(m, n, i, j, AAt(first + i, j)) }
  predicate BCell(m: seq<int>, n: nat, i: nat, j: nat) { CellIs(m, n, i, j, BAt(i, j)) }
  predicate CCell(m: seq<int>, n: nat, first: nat, i: nat, j: nat) { CellIs(m, n, i, j, Dot(first + i, j, n)) }

  predicate RowInv(n: nat, first: nat, w: Work, i: nat)
    requires i < |w.rows|
  {
    var row := w.rows[i];
    && row.k <= n && row.col <= n
    && row.sum == Dot(first + i, row.col, row.k)
    && (row.col == n ==> row.k == 0)
    && forall j | 0 <= j < row.col :: CCell(w.c, n, first, i, j)
  }

  predicate Inv(n: nat, first: nat, myRows: nat, w: Work) {
    && |w.rows| == myRows && |w.c| == myRows * n
    && forall i | 0 <= i < myRows :: RowInv(n, first, w, i)
  }

  lemma StepKeepsRow(n: nat, first: nat, a: seq<int>, b: seq<int>, w: Work, i: int)
    requires n <= MAX_SIDE && Holds(n, first, |w.rows|, a, b) && Shaped(n, a, b, w) && CanStep(n, w, i)
    requires RowInv(n, first, w, i)
    ensures RowInv(n, first, Step(n, a, b, w, i), i)
  {
    var row, w' := w.rows[i], Step(n, a, b, w, i);
    if row.k < n {
      assert ACell(a, n, first, i, row.k);
      assert BCell(b, n, row.k, row.col);
      NoOverflow(first + i, row.col, row.k + 1, n);
    } else {
      Cell(i, row.col, n, |w.rows|);
      forall j | 0 <= j < w'.rows[i].col
        ensures CCell(w'.c, n, first, i, j)
      {
        if j < row.col {
          assert CCell(w.c, n, first, i, j);
        }
      }
    }
  }

  lemma StepKeepsOther(n: nat, first: nat, a: seq<int>, b: seq<int>, w: Work, i: int, other: nat)
    requires Shaped(n, a, b, w) && CanStep(n, w, i) && other < |w.rows| && other != i
    requires RowInv(n, first, w, other)
    ensures RowInv(n, first, Step(n, a, b, w, i), other)
  {
    var row, w' := w.rows[i], Step(n, a, b, w, i);
    assert w'.rows[other] == w.rows[other];
    if row.k >= n {
      Cell(i, row.col, n, |w.rows|);
      forall j | 0 <= j < w.rows[other].col
        ensures CCell(w'.c, n, first, other, j)
      {
        assert CCell(w.c, n, first, other, j);
        StoreKeeps(w.c, w'.c, n, i, row.col, other, j, Dot(first + other, j, n));
      }
    }
  }

  lemma InvShaped(n: nat, first: nat, a: seq<int>, b: seq<int>, w: Work)
    requires Holds(n, first, |w.rows|, a, b) && Inv(n, first, |w.rows|, w)
    ensures Shaped(n, a, b, w)
  {
    forall i | 0 <= i < |w.rows|
      ensures w.rows[i].k <= n && w.rows[i].col <= n
    {
      assert RowInv(n, first, w, i);
    }
  }

  /** The invariant row by row, once the shape is known. */
  lemma InvFromRows(n: nat, first: nat, w: Work, w': Work)
    requires |w.c| == |w.rows| * n && |w'.c| == |w.c| && |w'.rows| == |w.rows|
    requires forall r | 0 <= r < |w'.rows| :: RowInv(n, first, w', r)
    ensures Inv(n, first, |w.rows|, w')
  {
  }

  lemma StepKeepsInv(n: nat, first: nat, a: seq<int>, b: seq<int>, w: Work, i: int)
    requires n <= MAX_SIDE && Holds(n, first, |w.rows|, a, b) && Inv(n, first, |w.rows|, w) && CanStep(n, w, i)
    ensures Shaped(n, a, b, w) && Inv(n, first, |w.rows|, Step(n, a, b, w, i))
  {
    InvShaped(n, first, a, b, w);
    var w' := Step(n, a, b, w, i);
    forall r | 0 <= r < |w.rows|
      ensures RowInv(n, first, w', r)
    {
      assert RowInv(n, first, w, r);
      if r == i {
        StepKeepsRow(n, first, a, b, w, i);
      } else {
        StepKeepsOther(n, first, a, b, w, i, r);
      }
    }
    InvFromRows(n, first, w, w');
  }

  ghost predicate StepsTo(n: nat, a: seq<int>, b: seq<int>, w: Work, w': Work) {
    exists i :: Shaped(n, a, b, w) && CanStep(n, w, i) && w' == Step(n, a, b, w, i)
  }

  ghost predicate IsRun(n: nat, myRows: nat, a: seq<int>, b: seq<int>, run: seq<Work>) {
    && run != [] && |run[0].c| == myRows * n && run[0] == Begin(myRows, n, run[0].c)
    && forall t | 0 <= t < |run| - 1 :: StepsTo(n, a, b, run[t], run[t + 1])
  }

  predicate Finished(n: nat, w: Work) { forall i | 0 <= i < |w.rows| :: w.rows[i].col == n }

  lemma {:induction false} RunKeepsInv(n: nat, first: nat, myRows: nat, a: seq<int>, b: seq<int>, run: seq<Work>)
    requires n <= MAX_SIDE && Holds(n, first, myRows, a, b) && IsRun(n, myRows, a, b, run)
    ensures Inv(n, first, myRows, run[|run| - 1])
    decreases |run|
  {
    var last := |run| - 1;
    if last > 0 {
      assert run[..last][|run[..last]| - 1] == run[last - 1];
      RunKeepsInv(n, first, myRows, a, b, run[..last]);
      assert StepsTo(n, a, b, run[last - 1], run[last]);
      var i :| CanStep(n, run[last - 1], i) && run[last] == Step(n, a, b, run[last - 1], i);
      StepKeepsInv(n, first, a, b, run[last - 1], i);
    }
  }

  /** The rows of the product from `first` on. */
  predicate IsProduct(n: nat, first: nat, myRows: nat, c: seq<int>) {
    && |c| == myRows * n
    && forall i, j | 0 <= i < myRows && 0 <= j < n :: CCell(c, n, first, i, j)
  }

  /** Every schedule of the threads, over whatever the buffer held before, ends
      with the rank's rows of the product. */
  lemma RunIsProduct(n: nat, first: nat, myRows: nat, a: seq<int>, b: seq<int>, run: seq<Work>)
    requires n <= MAX_SIDE && Holds(n, first, myRows, a, b) && IsRun(n, myRows, a, b, run)
    requires Finished(n, run[|run| - 1])
    ensures IsProduct(n, first, myRows, run[|run| - 1].c)
  {
    RunKeepsInv(n, first, myRows, a, b, run);
    var w := run[|run| - 1];
    forall i, j | 0 <= i < myRows && 0 <= j < n
      ensures CCell(w.c, n, first, i, j)
    {
      assert RowInv(n, first, w, i);
    }
  }

  /** Steps a row still has to take: the terms and the store of every column left. */
  function Left(n: nat, row: Row): nat {
    if row.col >= n || row.k > n then 0 else LeftInRow(n, row)
  }

  function LeftInRow(n: nat, row: Row): nat
    requires row.col < n && row.k <= n
  {
    ProductGrows(1, n - row.col, n + 1);
    (n - row.col) * (n + 1) - row.k
  }

  function Lefts(n: nat, w: Work): seq<nat> {
    seq(|w.rows|, i requires 0 <= i < |w.rows| => Left(n, w.rows[i]))
  }

  /** Steps the whole loop still owes. */
  function Owed(n: nat, w: Work): nat { Total(Lefts(n, w)) }

  lemma RowPays(n: nat, row: Row)
    requires row.col < n && row.k <= n
    ensures row.k < n ==> Left(n, row.(k := row.k + 1)) < Left(n, row)
    ensures Left(n, Row(row.col + 1, 0, 0)) < Left(n, row)
  {
    assert (n - row.col) * (n + 1) == (n - row.col - 1) * (n + 1) + n + 1;
  }

  lemma StepPays(n: nat, a: seq<int>, b: seq<int>, w: Work, i: int)
    requires Shaped(n, a, b, w) && CanStep(n, w, i)
    ensures Shaped(n, a, b, Step(n, a, b, w, i))
    ensures Owed(n, Step(n, a, b, w, i)) < Owed(n, w)
  {
    var row := Step(n, a, b, w, i).rows[i];
    RowPays(n, w.rows[i]);
    TotalDrops(Lefts(n, w), i, Left(n, row));
    assert Lefts(n, Step(n, a, b, w, i)) == Lefts(n, w)[i := Left(n, row)];
  }

  lemma BeginOwes(n: nat, myRows: nat, c: seq<int>)
    ensures Owed(n, Begin(myRows, n, c)) <= myRows * (n * (n + 1))
  {
    TotalBound(Lefts(n, Begin(myRows, n, c)), n * (n + 1));
  }

  lemma {:induction false} RunOwes(n: nat, myRows: nat, a: seq<int>, b: seq<int>, run: seq<Work>)
    requires |a| == myRows * n && |b| == n * n && IsRun(n, myRows, a, b, run)
    ensures Shaped(n, a, b, run[|run| - 1]) && |run[|run| - 1].rows| == myRows
    ensures |run| - 1 + Owed(n, run[|run| - 1]) <= myRows * (n * (n + 1))
    decreases |run|
  {
    var last := |run| - 1;
    if last == 0 {
      BeginOwes(n, myRows, run[0].c);
    } else {
      assert run[..last][|run[..last]| - 1] == run[last - 1];
      RunOwes(n, myRows, a, b, run[..last]);
      assert StepsTo(n, a, b, run[last - 1], run[last - 1 + 1]);
      var i :| CanStep(n, run[last - 1], i) && run[last] == Step(n, a, b, run[last - 1], i);
      StepPays(n, a, b, run[last - 1], i);
    }
  }

  /** No schedule is longer than one step for each term and each store. */
  lemma RunBounded(n: nat, myRows: nat, a: seq<int>, b: seq<int>, run: seq<Work>)
    requires |a| == myRows * n && |b| == n * n && IsRun(n, myRows, a, b, run)
    ensures |run| - 1 <= myRows * (n * (n + 1))
  {
    RunOwes(n, myRows, a, b, run);
  }

  lemma OneMore(n: nat, myRows: nat, a: seq<int>, b: seq<int>, run: seq<Work>, i: int)
    requires IsRun(n, myRows, a, b, run) && Shaped(n, a, b, run[|run| - 1]) && CanStep(n, run[|run| - 1], i)
    ensures IsRun(n, myRows, a, b, run + [Step(n, a, b, run[|run| - 1], i)])
  {
    var w := run[|run| - 1];
    assert StepsTo(n, a, b, w, Step(n, a, b, w, i));
  }

  /** Whatever the schedule so far, the loop can finish. */
  lemma {:induction false} RunCompletes(n: nat, myRows: nat, a: seq<int>, b: seq<int>, run: seq<Work>)
    returns (full: seq<Work>)
    requires |a| == myRows * n && |b| == n * n && IsRun(n, myRows, a, b, run)
    ensures IsRun(n, myRows, a, b, full) && run <= full && Finished(n, full[|full| - 1])
    decreases Owed(n, run[|run| - 1])
  {
    var w := run[|run| - 1];
    RunOwes(n, myRows, a, b, run);
    if Finished(n, w) {
      return run;
    }
    var i :| 0 <= i < |w.rows| && w.rows[i].col != n;
    StepPays(n, a, b, w, i);
    OneMore(n, myRows, a, b, run, i);
    full := RunCompletes(n, myRows, a, b, run + [Step(n, a, b, w, i)]);
  }

  // ------------------------------------------------------------ the program

  /** The first `j` columns of row `i`, and all rows before it, are filled. */
  ghost predicate Filled(m: seq<int>, n: nat, at: (nat, nat) -> int, i: nat, j: nat) {
    forall r: nat, k: nat | k < n && (r < i || (r == i && k < j)) :: CellIs(m, n, r, k, at(r, k))
  }

  lemma StoreFills(before: seq<int>, after: seq<int>, n: nat, at: (nat, nat) -> int, i: nat, j: nat)
    requires Filled(before, n, at, i, j) && j < n
    requires 0 <= i * n + j < |before| && after == before[i * n + j := at(i, j)]
    ensures Filled(after, n, at, i, j + 1)
  {
    forall r: nat, k: nat | k < n && (r < i || (r == i && k < j + 1))
      ensures CellIs(after, n, r, k, at(r, k))
    {
      if r != i || k != j {
        StoreKeeps(before, after, n, i, j, r, k, at(r, k));
      }
    }
  }

  /** Rank 0's operands. */
  method FillOperands(n: nat) returns (a: array<int>, b: array<int>)
    ensures fresh(a) && fresh(b) && Holds(n, 0, n, a[..], b[..])
  {
    a := new int[n * n](_ => 0);
    b := new int[n * n](_ => 0);
    for i := 0 to n
      invariant Filled(a[..], n, AAt, i, 0) && Filled(b[..], n, BAt, i, 0)
    {
      for j := 0 to n
        invariant Filled(a[..], n, AAt, i, j) && Filled(b[..], n, BAt, i, j)
      {
        Cell(i, j, n, n);
        ghost var a0, b0 := a[..], b[..];
        a[i * n + j] := AAt(i, j);
        b[i * n + j] := BAt(i, j);
        StoreFills(a0, a[..], n, AAt, i, j);
        StoreFills(b0, b[..], n, BAt, i, j);
      }
    }
    FilledHolds(n, a[..], b[..]);
  }

  lemma FilledHolds(n: nat, a: seq<int>, b: seq<int>)
    requires |a| == |b| == n * n && Filled(a, n, AAt, n, 0) && Filled(b, n, BAt, n, 0)
    ensures Holds(n, 0, n, a, b)
  {
    forall i, k | 0 <= i < n && 0 <= k < n
      ensures ACell(a, n, 0, i, k) && BCell(b, n, i, k)
    {
      assert CellIs(a, n, i, k, AAt(i, k)) && CellIs(b, n, i, k, BAt(i, k));
    }
  }

  /** The innermost loop, with its int accumulator. */
  method InnerProduct(n: nat, ghost first: nat, ghost myRows: nat, a: array<int>, b: array<int>, i: nat, j: nat)
    returns (sum: int)
    requires n <= MAX_SIDE && Holds(n, first, myRows, a[..], b[..]) && i < myRows && j < n
    ensures sum == Dot(first + i, j, n)
  {
    sum := 0;
    for k := 0 to n
      invariant sum == Dot(first + i, j, k)
    {
      assert ACell(a[..], n, first, i, k) && BCell(b[..], n, k, j);
      NoOverflow(first + i, j, k + 1, n);
      sum := ToInt32(sum + a[i * n + k] * b[k * n + j]);
    }
  }

  /** The triple loop, as one thread runs it. */
  method MultiplyRows(n: nat, ghost first: nat, myRows: nat, a: array<int>, b: array<int>, c: array<int>)
    requires n <= MAX_SIDE && Holds(n, first, myRows, a[..], b[..]) && c.Length == myRows * n
    requires c != a && c != b
    modifies c
    ensures IsProduct(n, first, myRows, c[..])
  {
    ghost var entry := (i: nat, j: nat) => Dot(first + i, j, n);
    for i := 0 to myRows
      invariant Filled(c[..], n, entry, i, 0)
    {
      for j := 0 to n
        invariant Filled(c[..], n, entry, i, j)
      {
        var sum := InnerProduct(n, first, myRows, a, b, i, j);
        Cell(i, j, n, myRows);
        ghost var before := c[..];
        c[i * n + j] := sum;
        StoreFills(before, c[..], n, entry, i, j);
      }
    }
    forall i, j | 0 <= i < myRows && 0 <= j < n
      ensures CCell(c[..], n, first, i, j)
    {
      assert CellIs(c[..], n, i, j, entry(i, j));
    }
  }

  /** What MPI_Scatterv leaves on rank `r`. */
  predicate Scattered(whole: seq<int>, counts: seq<int>, displs: seq<int>, r: nat, piece: seq<int>) {
    && r < |counts| == |displs| && 0 <= displs[r] <= displs[r] + counts[r] <= |whole|
    && piece == whole[displs[r]..displs[r] + counts[r]]
  }

  /** What MPI_Gatherv leaves at the root. */
  predicate Gathered(pieces: seq<seq<int>>, displs: seq<int>, whole: seq<int>) {
    && |pieces| == |displs|
    && forall r | 0 <= r < |pieces| ::
         0 <= displs[r] <= displs[r] + |pieces[r]| <= |whole| && whole[displs[r]..displs[r] + |pieces[r]|] == pieces[r]
  }

  predicate Tables(s: Split, n: nat, counts: seq<int>, displs: seq<int>) {
    && |counts| == |displs| == s.ranks
    && forall r | 0 <= r < s.ranks :: counts[r] == s.Count(r, n) && displs[r] == s.Displ(r, n)
  }

  lemma CellOfPiece(n: nat, first: nat, rows: nat, a: seq<int>, piece: seq<int>, i: nat, k: nat)
    requires first * n + rows * n <= |a| && i < rows && k < n
    requires piece == a[first * n..first * n + rows * n] && ACell(a, n, 0, first + i, k)
    ensures ACell(piece, n, first, i, k)
  {
    Cell(i, k, n, rows);
    assert (first + i) * n + k == first * n + (i * n + k);
  }

  /** Scattering gives every rank its own rows of A. */
  lemma ScatterHolds(n: nat, s: Split, counts: seq<int>, displs: seq<int>, a: seq<int>, b: seq<int>, r: nat, piece: seq<int>)
    requires n <= MAX_SIDE && s.Valid() && s == SplitOf(n, s.ranks) && Tables(s, n, counts, displs)
    requires Holds(n, 0, n, a, b) && r < s.ranks && Scattered(a, counts, displs, r, piece)
    ensures Holds(n, s.Offset(r), s.Share(r), piece, b)
  {
    SquareGrows(n, MAX_SIDE);
    TablesAreExact(n, s.ranks, n, r);
    OffsetEnds(n, s);
    forall i, k | 0 <= i < s.Share(r) && 0 <= k < n
      ensures ACell(piece, n, s.Offset(r), i, k)
    {
      assert ACell(a, n, 0, s.Offset(r) + i, k);
      CellOfPiece(n, s.Offset(r), s.Share(r), a, piece, i, k);
    }
  }

  lemma PieceCell(n: nat, first: nat, rows: nat, displ: nat, piece: seq<int>, c: seq<int>, i: nat, j: nat)
    requires displ == first * n && |piece| == rows * n && displ + |piece| <= |c| && i < rows && j < n
    requires c[displ..displ + |piece|] == piece && CCell(piece, n, first, i, j)
    ensures CCell(c, n, 0, first + i, j)
  {
    Cell(i, j, n, rows);
    assert (first + i) * n + j == displ + (i * n + j);
  }

  lemma DisplIsExact(n: nat, s: Split, r: nat)
    requires n <= MAX_SIDE && s.Valid() && s == SplitOf(n, s.ranks) && r < s.ranks
    ensures s.Displ(r, n) == s.Offset(r) * n
  {
    SquareGrows(n, MAX_SIDE);
    TablesAreExact(n, s.ranks, n, r);
  }

  /** Gathering puts every row of C back where it belongs. */
  lemma GatherIsProduct(n: nat, s: Split, displs: seq<int>, pieces: seq<seq<int>>, c: seq<int>)
    requires n <= MAX_SIDE && s.Valid() && s == SplitOf(n, s.ranks)
    requires |displs| == |pieces| == s.ranks && forall r | 0 <= r < s.ranks :: displs[r] == s.Displ(r, n)
    requires forall r | 0 <= r < s.ranks :: IsProduct(n, s.Offset(r), s.Share(r), pieces[r])
    requires |c| == n * n && Gathered(pieces, displs, c)
    ensures IsProduct(n, 0, n, c)
  {
    OffsetEnds(n, s);
    forall i, j | 0 <= i < n && 0 <= j < n
      ensures CCell(c, n, 0, i, j)
    {
      SomeOwner(s, s.ranks, i);
      var r :| 0 <= r < s.ranks && s.Owns(r, i);
      DisplIsExact(n, s, r);
      GatheredCell(n, s.Offset(r), s.Share(r), displs[r], pieces[r], c, i, j);
    }
  }

  lemma GatheredCell(n: nat, first: nat, rows: nat, displ: int, piece: seq<int>, c: seq<int>, i: nat, j: nat)
    requires first <= i < first + rows && j < n && displ == first * n && IsProduct(n, first, rows, piece)
    requires 0 <= displ <= displ + |piece| <= |c| && c[displ..displ + |piece|] == piece
    ensures CCell(c, n, 0, i, j)
  {
    assert CCell(piece, n, first, i - first, j);
    PieceCell(n, first, rows, displ, piece, c, i - first, j);
  }

  /** The whole program, for every order whose square is an int, every number of
      ranks and every thread schedule on each rank: what the root gathers is the
      product A x B, the same whatever the ranks and threads, and its corner
      passes the check. */
  lemma ProductWhateverTheRanks(
    n: nat, s: Split, counts: seq<int>, displs: seq<int>, a: seq<int>, b: seq<int>,
    aRows: seq<seq<int>>, runs: seq<seq<Work>>, pieces: seq<seq<int>>, c: seq<int>)
    requires n <= MAX_SIDE && s.Valid() && s == SplitOf(n, s.ranks) && Tables(s, n, counts, displs)
    requires Holds(n, 0, n, a, b)
    requires |aRows| == |runs| == |pieces| == s.ranks
    requires forall r | 0 <= r < s.ranks :: Scattered(a, counts, displs, r, aRows[r])
    requires forall r | 0 <= r < s.ranks :: Computed(n, s.Share(r), aRows[r], b, runs[r], pieces[r])
    requires |c| == n * n && Gathered(pieces, displs, c)
    ensures IsProduct(n, 0, n, c)
    ensures 0 < n ==> CellIs(c, n, n - 1, n - 1, Dot(n - 1, n - 1, n))
  {
    forall r | 0 <= r < s.ranks
      ensures IsProduct(n, s.Offset(r), s.Share(r), pieces[r])
    {
      ScatterHolds(n, s, counts, displs, a, b, r, aRows[r]);
      assert Computed(n, s.Share(r), aRows[r], b, runs[r], pieces[r]);
      RunIsProduct(n, s.Offset(r), s.Share(r), aRows[r], b, runs[r]);
    }
    GatherIsProduct(n, s, displs, pieces, c);
    if 0 < n {
      assert CCell(c, n, 0, n - 1, n - 1);
    }
  }

  /** The int arguments of the broadcast and of the scatter and gather tables. */
  ghost predicate ExactCalls(n: nat, ranks: nat)
    requires ranks > 0
  {
    ToInt32(n * n) == n * n && ExactTables(SplitOf(n, ranks), n)
  }

  /** The bound of the results above is exact: whatever the number of ranks, every
      count the program hands to MPI is right if and only if n*n is an int. */
  lemma CallsAreExactIff(n: nat, ranks: nat)
    requires ranks > 0
    ensures ExactCalls(n, ranks) <==> n <= MAX_SIDE
    ensures ToInt32(n * n) == n * n <==> n <= MAX_SIDE
  {
    Problems.SquareFits(n);
    if n <= MAX_SIDE {
      forall r: nat | r < ranks
        ensures SplitOf(n, ranks).Count(r, n) == SplitOf(n, ranks).Share(r) * n
        ensures SplitOf(n, ranks).Displ(r, n) == SplitOf(n, ranks).Offset(r) * n
      {
        TablesAreExact(n, ranks, n, r);
      }
    }
  }

  /** One past the bound the broadcast is asked for a negative number of elements;
      at 65536 it is asked for none, and B never leaves rank 0. */
  lemma CountsGoWrong()
    ensures ToInt32(46341 * 46341) == -2147479015 && !ExactCalls(46341, 1)
    ensures ToInt32(65536 * 65536) == 0
  {
    CallsAreExactIff(46341, 1);
  }

  /** One rank's parallel loop ran to its end and left `piece`. */
  ghost predicate Computed(n: nat, myRows: nat, a: seq<int>, b: seq<int>, run: seq<Work>, piece: seq<int>) {
    && IsRun(n, myRows, a, b, run)
    && Finished(n, run[|run| - 1]) && run[|run| - 1].c == piece
  }

  /** Two products of the same order are the same matrix. */
  lemma ProductsAreEqual(n: nat, c: seq<int>, d: seq<int>)
    requires IsProduct(n, 0, n, c) && IsProduct(n, 0, n, d)
    ensures c == d
  {
    forall x | 0 <= x < n * n
      ensures c[x] == d[x]
    {
      var i, j := x / n, x % n;
      Divides(x, n);
      if i >= n {
        ProductGrows(n, i, n);
      }
      assert CCell(c, n, 0, i, j);
      assert CCell(d, n, 0, i, j);
    }
  }

  /** The root's recomputed corner, in a 64-bit accumulator. */
  method CornerCheck(n: nat, c: array<int>) returns (failed: bool)
    requires 0 < n <= MAX_SIDE && c.Length == n * n
    ensures failed <==> !CellIs(c[..], n, n - 1, n - 1, Dot(n - 1, n - 1, n))
  {
    var corner := 0;
    for k := 0 to n
      invariant corner == Dot(n - 1, n - 1, k)
    {
      corner := corner + AAt(n - 1, k) * BAt(k, n - 1);
    }
    Cell(n - 1, n - 1, n, n);
    failed := c[(n - 1) * n + (n - 1)] != corner;
  }
}
