/** Validation and sizing of problem.c, and the broadcast of runner_mpi.c that
    copies one rank's problem to every other. */
module Problems {
  import opened Integers
  import opened Types
  import opened Canonical
  import opened Sorting

  /** What a successful load leaves behind, and all that the backends assume. */
  predicate Loaded(p: Problem) {
    && Positive(p.threshold)
    && AllComplete(p)
    && SortedById(p.objects)
  }

  /** alloc_matrix: the bounds it enforces before reserving side * side elements. */
  function AllocStatus(side: int): (status: Status)
    ensures status == Ok <==> 1 <= side && side * side <= INT_MAX
  {
    SquareFits(side);
    if side <= 0 then ErrInvalid
    else if side > MAX_SIDE then ErrInvalid
    else Ok
  }

  /** 46340 is the largest side whose square is an int. */
  lemma SquareFits(side: int)
    ensures 0 <= side ==> (side * side <= INT_MAX <==> side <= MAX_SIDE)
  {
    if 0 <= side <= MAX_SIDE {
      SquareGrows(side, MAX_SIDE);
    } else if side > MAX_SIDE {
      SquareGrows(MAX_SIDE + 1, side);
    }
  }

  /** msearch_problem_validate before it sorts. An absent data pointer is an
      empty sequence. */
  predicate Accepts(threshold: Double, pictures: seq<Picture>, objects: seq<Object>) {
    && Positive(threshold)
    && (forall i | 0 <= i < |pictures| ::
          pictures[i].n > 0 && pictures[i].data != [] && PlacementCount(pictures[i].n, 1) <= NO_PLACEMENT)
    && (forall k | 0 <= k < |objects| :: objects[k].m > 0 && objects[k].data != [])
  }

  /** The whole of msearch_problem_validate, seen from outside. */
  function Validated(p: Problem): Result<Problem> {
    if Accepts(p.threshold, p.pictures, p.objects) then Success(p.(objects := Sort(p.objects)))
    else Failure(ErrInvalid)
  }

  /** msearch_problem_validate: three passes, then the sort in place. */
  method Validate(threshold: Double, pictures: array<Picture>, objects: array<Object>) returns (status: Status)
    modifies objects
    ensures status == if Accepts(threshold, pictures[..], old(objects[..])) then Ok else ErrInvalid
    ensures objects[..] == if status == Ok then Sort(old(objects[..])) else old(objects[..])
  {
    if !Less(ZERO, threshold) {
      return ErrInvalid;
    }
    for i := 0 to pictures.Length
      invariant forall j | 0 <= j < i ::
          pictures[j].n > 0 && pictures[j].data != [] && PlacementCount(pictures[j].n, 1) <= NO_PLACEMENT
    {
      if pictures[i].n <= 0 || pictures[i].data == [] {
        return ErrInvalid;
      }
      if PlacementCount(pictures[i].n, 1) > NO_PLACEMENT {
        return ErrInvalid;
      }
    }
    for k := 0 to objects.Length
      invariant forall j | 0 <= j < k :: objects[j].m > 0 && objects[j].data != []
    {
      if objects[k].m <= 0 || objects[k].data == [] {
        return ErrInvalid;
      }
    }
    SortObjects(objects);
    status := Ok;
  }

  predicate AllComplete(p: Problem) {
    && (forall i | 0 <= i < |p.pictures| :: p.pictures[i].Complete())
    && (forall k | 0 <= k < |p.objects| :: p.objects[k].Complete())
  }

  lemma CompleteAccepted(p: Problem)
    requires AllComplete(p)
    ensures Accepts(p.threshold, p.pictures, p.objects) <==> Positive(p.threshold)
  {
    forall i | 0 <= i < |p.pictures|
      ensures p.pictures[i].data != [] && PlacementCount(p.pictures[i].n, 1) <= NO_PLACEMENT
    {
      SquareFits(p.pictures[i].n);
      SquareGrows(1, p.pictures[i].n);
    }
    forall k | 0 <= k < |p.objects|
      ensures p.objects[k].data != []
    {
      SquareGrows(1, p.objects[k].m);
    }
  }

  lemma SortedComplete(p: Problem)
    requires AllComplete(p)
    ensures AllComplete(p.(objects := Sort(p.objects))) && SortedById(Sort(p.objects))
  {
    SortPermutes(p.objects);
    SortKeepsEach(p.objects);
    forall k | 0 <= k < |Sort(p.objects)|
      ensures Sort(p.objects)[k].Complete()
    {
      assert Sort(p.objects)[k] in Sort(p.objects);
    }
  }

  /** Complete matrices pass validation exactly when the threshold is positive;
      what comes out is loaded, and a loaded problem comes out unchanged. */
  lemma ValidatedIsLoaded(p: Problem)
    requires AllComplete(p)
    ensures Validated(p).Success? <==> Positive(p.threshold)
    ensures Validated(p).Success? ==> Loaded(Validated(p).value)
    ensures Loaded(p) <==> Validated(p) == Success(p)
  {
    CompleteAccepted(p);
    SortedComplete(p);
    if SortedById(p.objects) {
      SortIdempotent(p.objects);
    }
  }

  /** msearch_max_picture_elems. */
  method MaxPictureElems(pictures: seq<Picture>) returns (most: nat)
    requires forall i | 0 <= i < |pictures| :: pictures[i].Complete()
    ensures forall i | 0 <= i < |pictures| :: pictures[i].n * pictures[i].n <= most
    ensures (most == 0 && pictures == []) ||
            exists i :: 0 <= i < |pictures| && pictures[i].n * pictures[i].n == most
  {
    most := 0;
    for i := 0 to |pictures|
      invariant forall j | 0 <= j < i :: pictures[j].n * pictures[j].n <= most
      invariant (most == 0 && i == 0) || exists j :: 0 <= j < i && pictures[j].n * pictures[j].n == most
    {
      var elems := pictures[i].n * pictures[i].n;
      assert elems == |pictures[i].data| >= 1 by { SquareGrows(1, pictures[i].n); }
      if elems > most {
        most := elems;
      }
    }
  }

  // ---------------------------------------------------------------- broadcast

  /** Everything that crosses the wire: the header, the threshold, the packed
      ids and sizes, and one message per matrix. */
  datatype Wire = Wire(
    numPictures: nat, numObjects: nat, threshold: Double, shapes: seq<int>,
    pictureData: seq<seq<int>>, objectData: seq<seq<int>>)
  {
    /** MPI_Bcast asks that both sides agree on the count of every message. */
    predicate Consistent() {
      && |shapes| == 2 * (numPictures + numObjects)
      && |pictureData| == numPictures && |objectData| == numObjects
      && (forall i | 0 <= i < numPictures && AllocStatus(Side(i)) == Ok :: |pictureData[i]| == Side(i) * Side(i))
      && (forall k | 0 <= k < numObjects && AllocStatus(Side(numPictures + k)) == Ok ::
            |objectData[k]| == Side(numPictures + k) * Side(numPictures + k))
    }

    function Id(c: nat): int
      requires 2 * c + 1 < |shapes|
    {
      shapes[2 * c]
    }

    function Side(c: nat): int
      requires 2 * c + 1 < |shapes|
    {
      shapes[2 * c + 1]
    }
  }

  /** The root's shape array: picture pairs, then object pairs. */
  ghost predicate PacksShapes(p: Problem, shapes: seq<int>) {
    && |shapes| == 2 * (|p.pictures| + |p.objects|)
    && (forall i | 0 <= i < |p.pictures| :: shapes[2 * i] == p.pictures[i].id && shapes[2 * i + 1] == p.pictures[i].n)
    && (forall k | 0 <= k < |p.objects| ::
          && shapes[2 * (|p.pictures| + k)] == p.objects[k].id
          && shapes[2 * (|p.pictures| + k) + 1] == p.objects[k].m)
  }

  method PackShapes(p: Problem) returns (shapes: array<int>)
    ensures fresh(shapes) && PacksShapes(p, shapes[..])
  {
    var pictures := |p.pictures|;
    shapes := new int[(pictures + |p.objects|) * 2](_ => 0);
    for i := 0 to pictures
      invariant forall j | 0 <= j < i :: shapes[2 * j] == p.pictures[j].id && shapes[2 * j + 1] == p.pictures[j].n
    {
      shapes[2 * i] := p.pictures[i].id;
      shapes[2 * i + 1] := p.pictures[i].n;
    }
    for k := 0 to |p.objects|
      invariant forall j | 0 <= j < pictures ::
          shapes[2 * j] == p.pictures[j].id && shapes[2 * j + 1] == p.pictures[j].n
      invariant forall j | 0 <= j < k ::
          && shapes[2 * (pictures + j)] == p.objects[j].id
          && shapes[2 * (pictures + j) + 1] == p.objects[j].m
    {
      var base := 2 * (pictures + k);
      shapes[base] := p.objects[k].id;
      shapes[base + 1] := p.objects[k].m;
    }
  }

  ghost predicate Sends(p: Problem, w: Wire) {
    && w.numPictures == |p.pictures| && w.numObjects == |p.objects| && w.threshold == p.threshold
    && PacksShapes(p, w.shapes)
    && |w.pictureData| == w.numPictures && (forall i | 0 <= i < |p.pictures| :: w.pictureData[i] == p.pictures[i].data)
    && |w.objectData| == w.numObjects && (forall k | 0 <= k < |p.objects| :: w.objectData[k] == p.objects[k].data)
  }

  /** The problem a receiving rank assembles, before it validates. */
  function Assembled(w: Wire): Problem
    requires w.Consistent()
  {
    Problem(w.threshold,
            seq(w.numPictures, i requires 0 <= i < w.numPictures => Picture(w.Id(i), w.Side(i), w.pictureData[i])),
            seq(w.numObjects, k requires 0 <= k < w.numObjects =>
              Object(w.Id(w.numPictures + k), w.Side(w.numPictures + k), w.objectData[k])))
  }

  function Received(w: Wire): Result<Problem>
    requires w.Consistent()
  {
    if exists c :: 0 <= c < w.numPictures + w.numObjects && AllocStatus(w.Side(c)) != Ok then Failure(ErrInvalid)
    else Validated(Assembled(w))
  }

  method ReceivePictures(w: Wire) returns (status: Status, pictures: array<Picture>)
    requires w.Consistent()
    ensures fresh(pictures)
    ensures status == Ok ==> pictures[..] == Assembled(w).pictures
    ensures status == Ok <==> forall c | 0 <= c < w.numPictures :: AllocStatus(w.Side(c)) == Ok
    ensures status in {Ok, ErrInvalid}
  {
    pictures := new Picture[w.numPictures](_ => Picture(0, 0, []));
    for i := 0 to w.numPictures
      invariant forall c | 0 <= c < i :: pictures[c] == Picture(w.Id(c), w.Side(c), w.pictureData[c])
      invariant forall c | 0 <= c < i :: AllocStatus(w.Side(c)) == Ok
    {
      status := AllocStatus(w.Side(i));
      if status != Ok {
        return;
      }
      pictures[i] := Picture(w.Id(i), w.Side(i), w.pictureData[i]);
    }
    status := Ok;
  }

  method ReceiveObjects(w: Wire) returns (status: Status, objects: array<Object>)
    requires w.Consistent()
    ensures fresh(objects)
    ensures status == Ok ==> objects[..] == Assembled(w).objects
    ensures status == Ok <==> forall c | w.numPictures <= c < w.numPictures + w.numObjects :: AllocStatus(w.Side(c)) == Ok
    ensures status in {Ok, ErrInvalid}
  {
    objects := new Object[w.numObjects](_ => Object(0, 0, []));
    for k := 0 to w.numObjects
      invariant forall c | 0 <= c < k ::
          objects[c] == Object(w.Id(w.numPictures + c), w.Side(w.numPictures + c), w.objectData[c])
      invariant forall c | w.numPictures <= c < w.numPictures + k :: AllocStatus(w.Side(c)) == Ok
    {
      var base := w.numPictures + k;
      status := AllocStatus(w.Side(base));
      if status != Ok {
        return;
      }
      objects[k] := Object(w.Id(base), w.Side(base), w.objectData[k]);
    }
    status := Ok;
  }

  /** msearch_broadcast_problem on a rank other than the root. */
  method Receive(w: Wire) returns (result: Result<Problem>)
    requires w.Consistent()
    ensures result == Received(w)
  {
    var status, pictures := ReceivePictures(w);
    if status != Ok {
      return Failure(status);
    }
    var status', objects := ReceiveObjects(w);
    if status' != Ok {
      return Failure(status');
    }
    status := Validate(w.threshold, pictures, objects);
    result := if status == Ok then Success(Problem(w.threshold, pictures[..], objects[..])) else Failure(status);
  }

  /** For every root problem with complete matrices, each other rank ends up with
      the validated problem; so it ends up with the root's problem itself, the
      order of repeated ids included, exactly when the root's problem is loaded. */
  lemma BroadcastReplicates(p: Problem, w: Wire)
    requires AllComplete(p) && Sends(p, w)
    ensures w.Consistent() && Received(w) == Validated(p)
    ensures Received(w) == Success(p) <==> Loaded(p)
  {
    forall c | 0 <= c < w.numPictures + w.numObjects
      ensures AllocStatus(w.Side(c)) == Ok
    {
      if c >= w.numPictures {
        var k := c - w.numPictures;
        assert w.Side(c) == p.objects[k].m;
        SquareFits(p.objects[k].m);
      } else {
        SquareFits(p.pictures[c].n);
      }
    }
    assert forall k | 0 <= k < w.numObjects :: w.Side(w.numPictures + k) == p.objects[k].m;
    forall k | 0 <= k < w.numObjects
      ensures Assembled(w).objects[k] == p.objects[k]
    {
      var o := p.objects[k];
      assert Object(w.Id(w.numPictures + k), w.Side(w.numPictures + k), w.objectData[k]) == Object(o.id, o.m, o.data);
    }
    assert Assembled(w).objects == p.objects;
    assert Assembled(w).pictures == p.pictures;
    ValidatedIsLoaded(p);
  }
}
