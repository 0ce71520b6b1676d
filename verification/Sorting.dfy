/** sort_objects_by_id of problem.c: a stable insertion sort in place. */
module Sorting {
  import opened Types

  /** Put `x` after every element whose id is at most its own, seen from the right. */
  function Insert(sorted: seq<Object>, x: Object): seq<Object> {
    var last := |sorted| - 1;
    if sorted == [] || sorted[last].id <= x.id then sorted + [x]
    else Insert(sorted[..last], x) + [sorted[last]]
  }

  function Sort(objects: seq<Object>): seq<Object> {
    if objects == [] then []
    else Insert(Sort(objects[..|objects| - 1]), objects[|objects| - 1])
  }

  predicate SortedById(objects: seq<Object>) {
    forall i, j | 0 <= i < j < |objects| :: objects[i].id <= objects[j].id
  }

  /** The objects carrying `id`, in order. */
  function WithId(objects: seq<Object>, id: int): seq<Object> {
    if objects == [] then []
    else
      var last := |objects| - 1;
      WithId(objects[..last], id) + if objects[last].id == id then [objects[last]] else []
  }

  lemma {:induction false} InsertPermutes(sorted: seq<Object>, x: Object)
    ensures multiset(Insert(sorted, x)) == multiset(sorted) + multiset{x}
  {
    var last := |sorted| - 1;
    if sorted != [] && sorted[last].id > x.id {
      InsertPermutes(sorted[..last], x);
      assert sorted == sorted[..last] + [sorted[last]];
    }
  }

  lemma {:induction false} InsertSorts(sorted: seq<Object>, x: Object)
    requires SortedById(sorted)
    ensures SortedById(Insert(sorted, x))
  {
    var last := |sorted| - 1;
    if sorted != [] && sorted[last].id > x.id {
      var rest := Insert(sorted[..last], x);
      InsertSorts(sorted[..last], x);
      InsertPermutes(sorted[..last], x);
      forall i | 0 <= i < |rest|
        ensures rest[i].id <= sorted[last].id
      {
        assert rest[i] in multiset(rest);
        assert rest[i] in sorted[..last] || rest[i] == x;
      }
    }
  }

  lemma WithIdAppend(objects: seq<Object>, x: Object, id: int)
    ensures WithId(objects + [x], id) == WithId(objects, id) + if x.id == id then [x] else []
  {
    assert (objects + [x])[..|objects|] == objects;
  }

  /** Two objects with different ids are not both kept. */
  lemma SwapTail(kept: seq<Object>, x: Object, y: Object, id: int)
    requires x.id != y.id
    ensures kept + (if x.id == id then [x] else []) + (if y.id == id then [y] else [])
         == kept + (if y.id == id then [y] else []) + (if x.id == id then [x] else [])
  {
  }

  lemma {:induction false} InsertKeepsOrder(sorted: seq<Object>, x: Object, id: int)
    ensures WithId(Insert(sorted, x), id) == WithId(sorted, id) + if x.id == id then [x] else []
  {
    var last := |sorted| - 1;
    if sorted == [] || sorted[last].id <= x.id {
      WithIdAppend(sorted, x, id);
    } else {
      InsertKeepsOrder(sorted[..last], x, id);
      WithIdAppend(Insert(sorted[..last], x), sorted[last], id);
      SwapTail(WithId(sorted[..last], id), x, sorted[last], id);
    }
  }

  lemma {:induction false} SortPermutes(objects: seq<Object>)
    ensures SortedById(Sort(objects))
    ensures multiset(Sort(objects)) == multiset(objects)
  {
    if objects != [] {
      var last := |objects| - 1;
      SortPermutes(objects[..last]);
      InsertSorts(Sort(objects[..last]), objects[last]);
      InsertPermutes(Sort(objects[..last]), objects[last]);
      assert objects == objects[..last] + [objects[last]];
    }
  }

  /** Stable: objects that share an id, payloads attached, stay in input order. */
  lemma {:induction false} SortIsStable(objects: seq<Object>, id: int)
    ensures WithId(Sort(objects), id) == WithId(objects, id)
  {
    if objects != [] {
      var last := |objects| - 1;
      SortIsStable(objects[..last], id);
      InsertKeepsOrder(Sort(objects[..last]), objects[last], id);
    }
  }

  lemma SortKeepsEach(objects: seq<Object>)
    ensures |Sort(objects)| == |objects|
    ensures forall o :: o in Sort(objects) <==> o in objects
  {
    SortPermutes(objects);
    forall o
      ensures o in Sort(objects) <==> o in objects
    {
      assert o in multiset(Sort(objects)) <==> o in multiset(objects);
    }
    assert |multiset(Sort(objects))| == |multiset(objects)|;
  }

  lemma {:induction false} WithIdTail(objects: seq<Object>, id: int)
    requires SortedById(objects)
    ensures WithId(objects, id) != [] ==> objects != [] && id <= objects[|objects| - 1].id
  {
    if objects != [] {
      WithIdTail(objects[..|objects| - 1], id);
    }
  }

  /** An id tells a sequence with objects from an empty one. */
  lemma EmptyTogether(xs: seq<Object>, ys: seq<Object>)
    ensures xs == [] && ys != [] ==> exists id :: WithId(xs, id) != WithId(ys, id)
  {
    if ys != [] {
      assert WithId(ys, ys[|ys| - 1].id) != [];
      assert xs == [] ==> WithId(xs, ys[|ys| - 1].id) == [];
    }
  }

  /** Sorted sequences that agree id by id are equal, so a stable sort has only
      one possible result. */
  lemma {:induction false} StableSortUnique(xs: seq<Object>, ys: seq<Object>)
    requires SortedById(xs) && SortedById(ys)
    requires forall id :: WithId(xs, id) == WithId(ys, id)
    ensures xs == ys
  {
    EmptyTogether(xs, ys);
    if xs != [] {
      var x := xs[|xs| - 1];
      assert WithId(xs, x.id) == WithId(ys, x.id);
      WithIdTail(ys, x.id);
      var y := ys[|ys| - 1];
      assert WithId(xs, y.id) == WithId(ys, y.id);
      WithIdTail(xs, y.id);
      var xs', ys' := xs[..|xs| - 1], ys[..|ys| - 1];
      assert WithId(xs, x.id)[|WithId(xs, x.id)| - 1] == x;
      assert x == y;
      forall id
        ensures WithId(xs', id) == WithId(ys', id)
      {
        assert WithId(xs, id) == WithId(ys, id);
        var tail := if x.id == id then [x] else [];
        assert WithId(xs', id) == WithId(xs, id)[..|WithId(xs, id)| - |tail|];
        assert WithId(ys', id) == WithId(ys, id)[..|WithId(ys, id)| - |tail|];
      }
      StableSortUnique(xs', ys');
      assert xs == xs' + [x] && ys == ys' + [y];
    }
  }

  /** Sorting what is already sorted changes nothing, duplicate ids included. */
  lemma SortIdempotent(objects: seq<Object>)
    requires SortedById(objects)
    ensures Sort(objects) == objects
  {
    forall id
      ensures WithId(Sort(objects), id) == WithId(objects, id)
    {
      SortIsStable(objects, id);
    }
    SortPermutes(objects);
    StableSortUnique(Sort(objects), objects);
  }

  lemma {:induction false} InsertShape(sorted: seq<Object>, x: Object, j: nat)
    requires j <= |sorted| && forall i | j <= i < |sorted| :: sorted[i].id > x.id
    requires j > 0 ==> sorted[j - 1].id <= x.id
    ensures Insert(sorted, x) == sorted[..j] + [x] + sorted[j..]
  {
    if j < |sorted| {
      var rest := sorted[..|sorted| - 1];
      InsertShape(rest, x, j);
      assert rest[..j] == sorted[..j];
      assert rest[j..] + [sorted[|rest|]] == sorted[j..];
      assert Insert(sorted, x) == Insert(rest, x) + [sorted[|rest|]];
    } else {
      assert sorted[..j] == sorted;
    }
  }

  /** Element `i` put in its place among those before it. */
  function InsertedAt(objects: seq<Object>, i: nat): seq<Object>
    requires i < |objects|
  {
    Insert(objects[..i], objects[i]) + objects[i + 1..]
  }

  lemma ShiftInserts(was: seq<Object>, now: seq<Object>, i: nat, j: nat)
    requires j <= i < |was| == |now| && now[j] == was[i]
    requires forall u | 0 <= u < j || i < u < |was| :: now[u] == was[u]
    requires forall u | j < u <= i :: now[u] == was[u - 1]
    requires forall u | j <= u < i :: was[u].id > was[i].id
    requires j > 0 ==> was[j - 1].id <= was[i].id
    ensures now == InsertedAt(was, i)
  {
    InsertShape(was[..i], was[i], j);
    assert was[..i][..j] == was[..j];
    assert now == was[..j] + [was[i]] + was[..i][j..] + was[i + 1..];
  }

  lemma RoundExtends(was: seq<Object>, i: nat)
    requires i < |was|
    ensures |Sort(was[..i])| == i
    ensures InsertedAt(Sort(was[..i]) + was[i..], i) == Sort(was[..i + 1]) + was[i + 1..]
  {
    SortKeepsEach(was[..i]);
    var all := Sort(was[..i]) + was[i..];
    assert was[..i + 1][..i] == was[..i];
    assert all[..i] == Sort(was[..i]) && all[i] == was[i] && all[i + 1..] == was[i + 1..];
  }

  /** One round of the sort: hold object `i`, shift larger ids right, drop it in. */
  method InsertAt(objects: array<Object>, i: nat)
    requires i < objects.Length
    modifies objects
    ensures objects[..] == InsertedAt(old(objects[..]), i)
  {
    ghost var was := objects[..];
    var key := objects[i];
    var j := i - 1;
    while j >= 0 && objects[j].id > key.id
      invariant -1 <= j < i
      invariant forall u | 0 <= u <= j || i < u < objects.Length :: objects[u] == was[u]
      invariant forall u | j + 1 < u <= i :: objects[u] == was[u - 1]
      invariant forall u | j < u < i :: was[u].id > key.id
    {
      objects[j + 1] := objects[j];
      j := j - 1;
    }
    objects[j + 1] := key;
    ShiftInserts(was, objects[..], i, j + 1);
  }

  /** The sort as it runs, in place. */
  method SortObjects(objects: array<Object>)
    modifies objects
    ensures objects[..] == Sort(old(objects[..]))
  {
    ghost var was := objects[..];
    if objects.Length > 0 {
      assert was[..1][..0] == [] && Sort(was[..1]) == [was[0]];
      for i := 1 to objects.Length
        invariant objects[..] == Sort(was[..i]) + was[i..]
      {
        RoundExtends(was, i);
        InsertAt(objects, i);
      }
    }
    assert was[..|was|] == was;
  }

  /** Element `i` has the least id among the good ones, and is the first in
      input order to have it. */
  ghost predicate Wins(objects: seq<Object>, good: Object -> bool, i: int) {
    && 0 <= i < |objects| && good(objects[i])
    && forall j | 0 <= j < |objects| && good(objects[j]) ::
         objects[i].id < objects[j].id || (objects[i].id == objects[j].id && i <= j)
  }

  lemma {:induction false} InsertPlace(sorted: seq<Object>, x: Object) returns (p: nat)
    requires SortedById(sorted)
    ensures p <= |sorted| && Insert(sorted, x) == sorted[..p] + [x] + sorted[p..]
    ensures forall i | 0 <= i < p :: sorted[i].id <= x.id
    ensures forall i | p <= i < |sorted| :: sorted[i].id > x.id
  {
    p := |sorted|;
    while p > 0 && sorted[p - 1].id > x.id
      invariant p <= |sorted| && forall i | p <= i < |sorted| :: sorted[i].id > x.id
    {
      p := p - 1;
    }
    InsertShape(sorted, x, p);
  }

  lemma LargerIds(rest: seq<Object>, good: Object -> bool, p: nat, id: int)
    requires p <= |Sort(rest)|
    requires forall j | 0 <= j < p :: !good(Sort(rest)[j])
    requires forall j | p <= j < |Sort(rest)| :: Sort(rest)[j].id > id
    ensures forall j | 0 <= j < |rest| && good(rest[j]) :: rest[j].id > id
  {
    SortKeepsEach(rest);
    forall j | 0 <= j < |rest| && good(rest[j])
      ensures rest[j].id > id
    {
      assert rest[j] in rest;
      assert rest[j] in Sort(rest);
    }
  }

  lemma WinsExtends(objects: seq<Object>, good: Object -> bool, i: int)
    requires objects != [] && Wins(objects[..|objects| - 1], good, i)
    requires good(objects[|objects| - 1]) ==> objects[i].id <= objects[|objects| - 1].id
    ensures Wins(objects, good, i)
  {
    var rest := objects[..|objects| - 1];
    assert forall j | 0 <= j < |rest| :: rest[j] == objects[j];
  }

  lemma LastWins(objects: seq<Object>, good: Object -> bool)
    requires objects != [] && good(objects[|objects| - 1])
    requires var rest := objects[..|objects| - 1];
             forall j | 0 <= j < |rest| && good(rest[j]) :: rest[j].id > objects[|objects| - 1].id
    ensures Wins(objects, good, |objects| - 1)
  {
    var rest := objects[..|objects| - 1];
    assert forall j | 0 <= j < |rest| :: rest[j] == objects[j];
  }

  /** Taking one element out of a sequence, seen index by index. */
  lemma Removal(all: seq<Object>, sorted: seq<Object>, x: Object, p: nat)
    requires p <= |sorted| && all == sorted[..p] + [x] + sorted[p..]
    ensures all[p] == x
    ensures forall j | 0 <= j < |sorted| :: sorted[j] == all[if j < p then j else j + 1]
  {
  }

  /** The first good element after sorting is the input-order-first one among
      those with the least id. */
  lemma {:induction false} SortBreaksTies(objects: seq<Object>, good: Object -> bool, k: nat) returns (i: nat)
    requires k < |Sort(objects)| && good(Sort(objects)[k])
    requires forall j | 0 <= j < k :: !good(Sort(objects)[j])
    ensures Wins(objects, good, i) && objects[i] == Sort(objects)[k]
    decreases |objects|
  {
    var rest, x := objects[..|objects| - 1], objects[|objects| - 1];
    var sorted := Sort(rest);
    SortPermutes(rest);
    var p := InsertPlace(sorted, x);
    Removal(Sort(objects), sorted, x, p);
    if k == p {
      LargerIds(rest, good, p, x.id);
      LastWins(objects, good);
      i := |rest|;
    } else {
      i := SortBreaksTies(rest, good, if k < p then k else k - 1);
      WinsExtends(objects, good, i);
    }
  }
}
