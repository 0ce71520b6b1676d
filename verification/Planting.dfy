/** Consequences of the contract for whole inputs: what a planted occurrence
    guarantees, how repeated ids resolve, and when "found" is reported right. */
module Planting {
  import opened Integers
  import opened Types
  import opened Metric
  import opened Canonical
  import opened Sorting

  /** Cell `i` of an n x n picture after the object's first `rows` rows have been
      copied in with its corner at (row, col). */
  function PlantedCell(data: seq<int>, n: int, obj: seq<int>, m: int, row: int, col: int, rows: int, i: int): int
    requires 0 < n && 0 <= i < |data| && 0 <= rows <= m && m * m <= |obj|
  {
    var y, x := i / n - row, i % n - col;
    if 0 <= y < rows && 0 <= x < m then
      CellInside(y, x, m);
      obj[y * m + x]
    else data[i]
  }

  function Planted(data: seq<int>, n: int, obj: seq<int>, m: int, row: int, col: int): (out: seq<int>)
    requires 0 < n && 0 <= m && m * m <= |obj|
    ensures |out| == |data|
  {
    seq(|data|, i requires 0 <= i < |data| => PlantedCell(data, n, obj, m, row, col, m, i))
  }

  /** The cells of an m-wide strip of row `row`, by index and by coordinates. */
  lemma RowCells(n: int, row: int, col: int, m: int, i: int)
    requires 0 < n && 0 <= row < n && 0 <= col <= n - m && 1 <= m && 0 <= i < n * n
    ensures row * n + col <= i < row * n + col + m <==> i / n == row && col <= i % n < col + m
    ensures i / n == row ==> i - (row * n + col) == i % n - col
  {
    KeyUnpacks(i, n);
    var start := row * n + col;
    if start <= i < start + m {
      KeyPacks(row, col + (i - start), n);
    }
  }

  lemma CopyRow(was: seq<int>, before: seq<int>, after: seq<int>, n: int, obj: seq<int>, m: int,
                row: int, col: int, y: int, i: int)
    requires 0 < n && |was| == |before| == |after| == n * n && m * m <= |obj|
    requires 0 <= y < m && 0 <= row <= n - m && 0 <= col <= n - m
    requires var start := (row + y) * n + col;
             && 0 <= start && start + m <= n * n && 0 <= y * m && y * m + m <= m * m
             && after == before[..start] + obj[y * m..y * m + m] + before[start + m..]
    requires 0 <= i < n * n && before[i] == PlantedCell(was, n, obj, m, row, col, y, i)
    ensures after[i] == PlantedCell(was, n, obj, m, row, col, y + 1, i)
  {
    var start := (row + y) * n + col;
    RowCells(n, row + y, col, m, i);
    if start <= i < start + m {
      CellInside(y, i - start, m);
      assert after[i] == obj[y * m..y * m + m][i - start];
    } else {
      assert after[i] == before[i];
    }
  }

  /** The planting loop of gen_input.py: one slice assignment per object row. */
  method Plant(data: array<int>, n: int, obj: seq<int>, m: int, row: int, col: int)
    requires 1 <= m && 0 <= row <= n - m && 0 <= col <= n - m
    requires data.Length == n * n && |obj| == m * m
    modifies data
    ensures data[..] == Planted(old(data[..]), n, obj, m, row, col)
  {
    ghost var was := data[..];
    for y := 0 to m
      invariant forall i | 0 <= i < n * n :: data[i] == PlantedCell(was, n, obj, m, row, col, y, i)
    {
      var start := (row + y) * n + col;
      CellInside(row + y, col, n);
      CellInside(row + y, col + m - 1, n);
      CellInside(y, 0, m);
      CellInside(y, m - 1, m);
      ghost var before := data[..];
      forall x | 0 <= x < m {
        data[start + x] := obj[y * m + x];
      }
      assert data[..] == before[..start] + obj[y * m..y * m + m] + before[start + m..];
      forall i | 0 <= i < n * n
        ensures data[..][i] == PlantedCell(was, n, obj, m, row, col, y + 1, i)
      {
        CopyRow(was, before, data[..], n, obj, m, row, col, y, i);
      }
    }
  }

  /** Planting changes the block and nothing else: cell (r, c) of the picture holds
      the object's cell inside the block, and its own value outside. */
  lemma PlantedAt(data: seq<int>, n: int, obj: seq<int>, m: int, row: int, col: int, r: int, c: int)
    requires 1 <= m && 0 <= row <= n - m && 0 <= col <= n - m && |data| == n * n && |obj| == m * m
    requires 0 <= r < n && 0 <= c < n
    ensures 0 <= r * n + c < n * n
    ensures row <= r < row + m && col <= c < col + m ==>
              && 0 <= (r - row) * m + (c - col) < m * m
              && Planted(data, n, obj, m, row, col)[r * n + c] == obj[(r - row) * m + (c - col)]
    ensures !(row <= r < row + m && col <= c < col + m) ==>
              Planted(data, n, obj, m, row, col)[r * n + c] == data[r * n + c]
  {
    KeyPacks(r, c, n);
    if row <= r < row + m && col <= c < col + m {
      CellInside(r - row, c - col, m);
    }
  }

  lemma PlantedCopies(o: Overlay, data: seq<int>, v: int, u: int)
    requires o.Fits() && |data| == o.n * o.n && o.picture == Planted(data, o.n, o.obj, o.m, o.row, o.col)
    requires 0 <= v < o.m && 0 <= u < o.m
    ensures Copies(o, v, u)
  {
    CellInside(o.row + v, o.col + u, o.n);
    KeyPacks(o.row + v, o.col + u, o.n);
  }

  /** A copy of the object occurs, so the search reports something, and nothing
      later than the copy in (object order, row, column). */
  lemma CopyIsFound(s: Search, k: int, row: int, col: int)
    requires s.Valid() && s.ar.KeepsZero() && Positive(s.threshold) && s.InGrid(k, row, col)
    requires forall v, u | 0 <= v < s.objects[k].m && 0 <= u < s.objects[k].m :: Copies(s.At(k, row, col), v, u)
    ensures var a := Canon(s); a.Found? && !Before(Found(k, row, col), a.k, a.row, a.col)
  {
    CopyScoresZero(s.ar, s.At(k, row, col), s.objects[k].m, 0);
    assert s.Occurs(k, row, col);
  }

  /** Planted completeness: for every picture content, every object and every
      in-range position, cells holding zero included. */
  lemma PlantedIsFound(s: Search, data: seq<int>, k: int, row: int, col: int)
    requires s.Valid() && s.ar.KeepsZero() && Positive(s.threshold) && s.InGrid(k, row, col)
    requires |data| == s.picture.n * s.picture.n
    requires s.picture.data == Planted(data, s.picture.n, s.objects[k].data, s.objects[k].m, row, col)
    ensures var a := Canon(s); a.Found? && !Before(Found(k, row, col), a.k, a.row, a.col)
  {
    forall v, u | 0 <= v < s.objects[k].m && 0 <= u < s.objects[k].m
      ensures Copies(s.At(k, row, col), v, u)
    {
      PlantedCopies(s.At(k, row, col), data, v, u);
    }
    CopyIsFound(s, k, row, col);
  }

  // ------------------------------------------------------------- repeated ids

  /** The object occurs somewhere in the picture. */
  ghost predicate OccursIn(ar: Arithmetic, threshold: Double, picture: Picture, o: Object)
    requires picture.Complete()
  {
    o.Complete() && exists row, col :: Search(ar, threshold, picture, [o]).Occurs(0, row, col)
  }

  /** With the objects sorted as validation sorts them, the reported object is,
      among those that occur, the input-order-first one of the least id. */
  lemma InputOrderBreaksTies(s: Search, objects: seq<Object>) returns (i: int)
    requires s.Valid() && s.objects == Sort(objects) && Canon(s).Found?
    ensures Wins(objects, o => OccursIn(s.ar, s.threshold, s.picture, o), i)
    ensures objects[i] == s.objects[Canon(s).k]
  {
    var good := o => OccursIn(s.ar, s.threshold, s.picture, o);
    var a := Canon(s);
    assert Search(s.ar, s.threshold, s.picture, [s.objects[a.k]]).Occurs(0, a.row, a.col) by {
      assert s.Occurs(a.k, a.row, a.col);
    }
    forall j | 0 <= j < a.k
      ensures !good(s.objects[j])
    {
      forall row, col
        ensures !Search(s.ar, s.threshold, s.picture, [s.objects[j]]).Occurs(0, row, col)
      {
        assert !s.Occurs(j, row, col);
      }
    }
    i := SortBreaksTies(objects, good, a.k);
  }

  // ---------------------------------------------------- msearch_match_found

  /** What msearch_match_found says of a canonical match. */
  lemma MatchFoundSays(s: Search)
    requires s.Valid()
    ensures MatchFound(CanonMatch(s)) <==> Canon(s).Found? && s.objects[Canon(s).k].id >= 0
  {
  }

  ghost predicate FoundIsRight(ar: Arithmetic, threshold: Double, objects: seq<Object>, picture: Picture)
    requires Search(ar, threshold, picture, objects).Valid()
  {
    var s := Search(ar, threshold, picture, objects);
    MatchFound(CanonMatch(s)) <==> Canon(s).Found?
  }

  /** The parser accepts negative ids, and a match of such an object is reported
      as no match. The report is right for every picture exactly when no object
      id is negative. */
  lemma MatchFoundIff(ar: Arithmetic, threshold: Double, objects: seq<Object>)
    requires ar.Sound() && ar.KeepsZero() && Positive(threshold) && SortedById(objects)
    requires forall k | 0 <= k < |objects| :: objects[k].Complete()
    ensures (forall k | 0 <= k < |objects| :: objects[k].id >= 0) <==>
            (forall picture: Picture | picture.Complete() :: FoundIsRight(ar, threshold, objects, picture))
  {
    forall k | 0 <= k < |objects| && objects[k].id < 0
      ensures exists picture: Picture :: picture.Complete() && !FoundIsRight(ar, threshold, objects, picture)
    {
      var picture := Picture(0, objects[k].m, objects[k].data);
      ItselfIsFound(ar, threshold, objects, k);
      MatchFoundSays(Search(ar, threshold, picture, objects));
      assert !FoundIsRight(ar, threshold, objects, picture);
    }
  }

  lemma ItselfIsFound(ar: Arithmetic, threshold: Double, objects: seq<Object>, k: int)
    requires ar.Sound() && ar.KeepsZero() && Positive(threshold)
    requires 0 <= k < |objects|
    requires Search(ar, threshold, Picture(0, objects[k].m, objects[k].data), objects).Valid()
    ensures var a := Canon(Search(ar, threshold, Picture(0, objects[k].m, objects[k].data), objects));
            a.Found? && 0 <= a.k <= k
  {
    var s := Search(ar, threshold, Picture(0, objects[k].m, objects[k].data), objects);
    CopyIsFound(s, k, 0, 0);
  }

  /** A concrete input on which it is wrong: object -5 is the whole picture. */
  lemma NegativeIdIsHidden(ar: Arithmetic)
    requires ar.Sound() && ar.KeepsZero()
    ensures var s := Search(ar, Finite(1.0), Picture(7, 1, [9]), [Object(-5, 1, [9])]);
            Canon(s).Found? && !MatchFound(CanonMatch(s))
  {
    var s := Search(ar, Finite(1.0), Picture(7, 1, [9]), [Object(-5, 1, [9])]);
    CopyIsFound(s, 0, 0, 0);
  }
}
