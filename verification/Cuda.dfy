/** The host side of backend_cuda.cu: a context whose device buffers persist from
    one search to the next. */
module Cuda {
  import opened Types
  import opened Metric
  import opened Canonical
  import opened Problems
  import opened Kernels
  import opened Rounding
  import opened Driving

  /** Threads per block of every launch. */
  const BLOCK := 256

  /** Cap on resident blocks, per multiprocessor. */
  const BLOCKS_PER_SM := 32

  /** As many blocks as cover the placements, up to the cap, but at least one. */
  function LaunchBlocks(placements: nat, smCount: nat): (blocks: int)
    requires placements > 0
    ensures 1 <= blocks && (blocks <= smCount * BLOCKS_PER_SM || blocks == 1)
    ensures (blocks - 1) * BLOCK < placements
    ensures placements <= blocks * BLOCK || blocks == smCount * BLOCKS_PER_SM || smCount == 0
  {
    var want := (placements + BLOCK - 1) / BLOCK;
    var capped := if want > smCount * BLOCKS_PER_SM then smCount * BLOCKS_PER_SM else want;
    if capped > 0 then capped else 1
  }

  /** Elements of the objects packed before object `k`. */
  function ElemsBefore(objects: seq<Object>, k: nat): nat
    requires k <= |objects|
  {
    if k == 0 then 0
    else ElemsBefore(objects, k - 1) + |objects[k - 1].data|
  }

  /** Packed slices follow one another, so no two overlap and all fit. */
  lemma {:induction false} SlicesDisjoint(objects: seq<Object>, j: nat, k: nat)
    requires j < k <= |objects|
    ensures ElemsBefore(objects, j) + |objects[j].data| <= ElemsBefore(objects, k)
    decreases k
  {
    if j < k - 1 {
      SlicesDisjoint(objects, j, k - 1);
    }
  }

  /** The number of kernels launched for the first `k` objects. */
  function Launches(objects: seq<Object>, picture: Picture, k: nat): nat
    requires k <= |objects|
  {
    if k == 0 then 0
    else Launches(objects, picture, k - 1) + if PlacementCount(picture.n, objects[k - 1].m) == 0 then 0 else 1
  }

  /** The calls of one search: select the device, copy the picture and the
      sentinels, launch, copy back, synchronise. Without objects there are none. */
  function SearchCalls(objects: seq<Object>, picture: Picture): nat {
    if objects == [] then 0 else 3 + Launches(objects, picture, |objects|) + 2
  }

  /** The calls of searching the first `k` pictures. */
  function AllCalls(objects: seq<Object>, pictures: seq<Picture>, k: nat): nat
    requires k <= |pictures|
  {
    if k == 0 then 0 else AllCalls(objects, pictures, k - 1) + SearchCalls(objects, pictures[k - 1])
  }

  lemma {:induction false} CallsGrow(objects: seq<Object>, pictures: seq<Picture>, j: nat, k: nat)
    requires j <= k <= |pictures|
    ensures AllCalls(objects, pictures, j) <= AllCalls(objects, pictures, k)
    decreases k
  {
    if j < k {
      CallsGrow(objects, pictures, j, k - 1);
    }
  }

  lemma {:induction false} LaunchesGrow(objects: seq<Object>, picture: Picture, j: nat, k: nat)
    requires j <= k <= |objects|
    ensures Launches(objects, picture, j) <= Launches(objects, picture, k)
    decreases k
  {
    if j < k {
      LaunchesGrow(objects, picture, j, k - 1);
    }
  }

  class CudaContext {
    const driver: Driver
    const ar: Arithmetic
    const threshold: Double
    const objects: seq<Object>
    const smCount: nat
    const dObjects: array<int>   // every object, packed back to back
    const objOffset: array<int>  // where each object starts
    const dPicture: array<int>   // sized for the largest picture
    const hPicture: array<int>   // staging for the upload
    const dResults: array<int>   // one placement key per object
    const hResults: array<int>   // for the single copy back

    constructor (driver: Driver, ar: Arithmetic, threshold: Double, objects: seq<Object>, smCount: nat,
                 dObjects: array<int>, objOffset: array<int>, capacity: nat)
      ensures this.driver == driver
      ensures this.ar == ar && this.threshold == threshold && this.objects == objects && this.smCount == smCount
      ensures this.dObjects == dObjects && this.objOffset == objOffset
      ensures dPicture.Length == hPicture.Length == capacity
      ensures dResults.Length == hResults.Length == |objects|
      ensures fresh(dPicture) && fresh(hPicture) && fresh(dResults) && fresh(hResults)
      ensures dPicture != hPicture && dPicture != dResults && dPicture != hResults
      ensures hPicture != dResults && hPicture != hResults && dResults != hResults
    {
      this.driver := driver;
      this.ar, this.threshold, this.objects, this.smCount := ar, threshold, objects, smCount;
      this.dObjects, this.objOffset := dObjects, objOffset;
      this.dPicture := new int[capacity];
      this.hPicture := new int[capacity];
      this.dResults := new int[|objects|];
      this.hResults := new int[|objects|];
    }

    /** Buffers that do not overlap, and every object packed at its offset. What
        the picture and result buffers hold between searches is not constrained. */
    ghost predicate Valid()
      reads dObjects, objOffset
    {
      && dPicture != hPicture && dPicture != dResults && dPicture != hResults
      && hPicture != dResults && hPicture != hResults && dResults != hResults
      && dObjects !in {dPicture, hPicture, dResults, hResults}
      && objOffset !in {dPicture, hPicture, dResults, hResults}
      && dPicture.Length == hPicture.Length
      && objOffset.Length == dResults.Length == hResults.Length == |objects|
      && (forall k | 0 <= k < |objects| :: objects[k].Complete())
      && (forall k {:trigger PackedAt(k)} | 0 <= k < |objects| :: PackedAt(k))
    }

    ghost predicate PackedAt(k: int)
      requires 0 <= k < |objects| == objOffset.Length
      reads dObjects, objOffset
    {
      var offset := objOffset[k];
      && offset == ElemsBefore(objects, k)
      && offset + |objects[k].data| <= dObjects.Length
      && dObjects[offset..offset + |objects[k].data|] == objects[k].data
    }

    function SearchOf(picture: Picture): Search { Search(ar, threshold, picture, objects) }

    predicate Holds(picture: Picture) { picture.Complete() && picture.n * picture.n <= dPicture.Length }

    /** The host copies the picture to the staging buffer, the device copies that
        to its own; cells past the picture keep whatever an earlier one left. */
    method Upload(picture: Picture) returns (ok: bool)
      requires Valid() && Holds(picture)
      modifies dPicture, hPicture, driver
      ensures Valid()
      ensures ok == driver.outcome(old(driver.made)) && driver.made == old(driver.made) + 1
      ensures ok ==> dPicture[..|picture.data|] == picture.data
      ensures ok ==> dPicture[|picture.data|..] == old(dPicture[|picture.data|..])
    {
      forall i | 0 <= i < |picture.data| {
        hPicture[i] := picture.data[i];
      }
      ok := driver.Call();
      if !ok {
        return;
      }
      forall i | 0 <= i < |picture.data| {
        dPicture[i] := hPicture[i];
      }
      assert dPicture[..|picture.data|] == picture.data;
    }

    /** What the kernel for object `k` decides from the device buffers alone. */
    function DeviceHits(picture: Picture, k: int): seq<bool>
      requires Valid() && Holds(picture) && 0 <= k < |objects|
      reads dPicture, dObjects, objOffset
    {
      assert PackedAt(k);
      PlacementHits(ar, threshold, dPicture[..], picture.n, dObjects[objOffset[k]..], objects[k].m)
    }

    /** Leftover picture cells and neighbouring objects are never read. */
    lemma DeviceHitsAreHits(picture: Picture, k: int)
      requires Valid() && Holds(picture) && 0 <= k < |objects|
      requires dPicture[..|picture.data|] == picture.data
      ensures DeviceHits(picture, k) == SearchOf(picture).Hits(k)
    {
      assert PackedAt(k);
      var needle := objects[k];
      var dObject := dObjects[objOffset[k]..];
      assert dObject[..needle.m * needle.m] == needle.data == needle.data[..needle.m * needle.m];
      assert dPicture[..][..picture.n * picture.n] == picture.data == picture.data[..picture.n * picture.n];
      HitsIgnoreLeftovers(ar, threshold, dPicture[..], picture.data, picture.n, dObject, needle.data, needle.m);
    }

    /** Launch the kernel of object `k` if it has any placement: at most one call. */
    method Launch(picture: Picture, k: int) returns (ok: bool, hits: seq<bool>, threads: int)
      requires Valid() && Holds(picture) && 0 <= k < |objects|
      requires dPicture[..|picture.data|] == picture.data
      modifies driver
      ensures hits == SearchOf(picture).Hits(k) && 1 <= threads
      ensures if PlacementCount(picture.n, objects[k].m) == 0 then ok && driver.made == old(driver.made)
              else ok == driver.outcome(old(driver.made)) && driver.made == old(driver.made) + 1
    {
      DeviceHitsAreHits(picture, k);
      hits := DeviceHits(picture, k);
      var placements := PlacementCount(picture.n, objects[k].m);
      if placements == 0 {
        return true, hits, 1;
      }
      threads := LaunchBlocks(placements, smCount) * BLOCK;
      ok := driver.Call();
    }

    /** The decisions of the first `k` objects. */
    function HitsBefore(picture: Picture, k: nat): seq<seq<bool>>
      requires SearchOf(picture).Complete() && k <= |objects|
    {
      if k == 0 then [] else HitsBefore(picture, k - 1) + [SearchOf(picture).Hits(k - 1)]
    }

    lemma {:induction false} HitsBeforeAt(picture: Picture, k: nat)
      requires SearchOf(picture).Complete() && k <= |objects|
      ensures |HitsBefore(picture, k)| == k
      ensures forall j | 0 <= j < k ::
          HitsBefore(picture, k)[j] == SearchOf(picture).Hits(j) && |HitsBefore(picture, k)[j]| < NO_PLACEMENT
    {
      if k > 0 {
        HitsBeforeAt(picture, k - 1);
      }
    }

    /** One launch per object that fits, reading the device buffers as they are. */
    method Enqueue(picture: Picture) returns (ok: bool, q: Queue)
      requires Valid() && Holds(picture)
      requires dPicture[..|picture.data|] == picture.data
      modifies driver
      ensures (if ok then Ok else ErrBackend, driver.made) ==
              Attempt(Calls(Launches(objects, picture, |objects|)), driver.outcome, old(driver.made))
      ensures ok ==> q.Valid() && q.ordered && q.hits == HitsBefore(picture, |objects|) && q.slots == dResults[..]
    {
      var hits: seq<seq<bool>>, grid: seq<int> := [], [];
      ok := true;
      ghost var all, start := Launches(objects, picture, |objects|), driver.made;
      TrackStarts(driver.outcome, all, start);
      for k := 0 to |objects|
        invariant |hits| == |grid| == k && ok
        invariant forall j | 0 <= j < k :: 1 <= grid[j]
        invariant hits == HitsBefore(picture, k)
        invariant StillToMake(driver.outcome, all, start, all - Launches(objects, picture, k), driver.made)
      {
        ghost var before := driver.made;
        LaunchesGrow(objects, picture, k + 1, |objects|);
        TrackGoesOn(driver.outcome, all, start, all - Launches(objects, picture, k), before,
                    Launches(objects, picture, k + 1) - Launches(objects, picture, k));
        FewCalls(driver.outcome, before);
        var mine, threads;
        ok, mine, threads := Launch(picture, k);
        if !ok {
          return ok, Queue([], [], [], true);
        }
        hits, grid := hits + [mine], grid + [threads];
      }
      TrackEnds(driver.outcome, all, start, driver.made);
      HitsBeforeAt(picture, |objects|);
      q := Queue(hits, grid, dResults[..], true);
    }

    /** Everything queued between the upload and the one synchronisation. */
    method RunKernels(picture: Picture) returns (ok: bool)
      requires Valid() && Holds(picture)
      requires dPicture[..|picture.data|] == picture.data
      requires forall k | 0 <= k < |objects| :: dResults[k] == NO_PLACEMENT
      modifies dResults, driver
      ensures Valid()
      ensures (if ok then Ok else ErrBackend, driver.made) ==
              Attempt(Calls(Launches(objects, picture, |objects|)), driver.outcome, old(driver.made))
      ensures ok ==> SlotsAreRight(picture, dResults[..])
    {
      var q;
      ok, q := Enqueue(picture);
      if !ok {
        HavocResults();
        return;
      }
      HitsBeforeAt(picture, |objects|);
      var bests := Drain(q);
      forall k | 0 <= k < |objects| {
        dResults[k] := bests[k];
      }
      assert dResults[..] == bests;
    }

    /** Kernels queued before a launch failed may have run to any extent. */
    method HavocResults()
      modifies dResults
    {
      for k := 0 to dResults.Length {
        dResults[k] := *;
      }
    }

    predicate SlotsAreRight(picture: Picture, bests: seq<int>)
      requires Valid() && Holds(picture)
      reads dObjects, objOffset
    {
      var s := SearchOf(picture);
      && |bests| == |objects| && AtMostOne(bests)
      && (forall k | 0 <= k < |bests| && NoneBefore(bests, k) :: IsLeast(s.Hits(k), bests[k]))
      && (forall k | 0 <= k < |bests| && bests[k] != NO_PLACEMENT :: 0 <= bests[k] < |s.Hits(k)|)
    }

    /** Every slot back to the sentinel, on both sides. */
    method ResetResults() returns (ok: bool)
      requires dResults.Length == hResults.Length == |objects|
      modifies dResults, hResults, driver
      ensures ok == driver.outcome(old(driver.made)) && driver.made == old(driver.made) + 1
      ensures ok ==> forall k | 0 <= k < |objects| :: dResults[k] == hResults[k] == NO_PLACEMENT
    {
      for k := 0 to |objects|
        invariant forall j | 0 <= j < k :: hResults[j] == NO_PLACEMENT
        invariant driver.made == old(driver.made)
      {
        hResults[k] := NO_PLACEMENT;
      }
      ok := driver.Call();
      if ok {
        forall k | 0 <= k < |objects| {
          dResults[k] := hResults[k];
        }
      }
    }

    /** One copy brings the device slots to the host. */
    method CopyBack() returns (ok: bool)
      requires dResults.Length == hResults.Length && dResults != hResults
      modifies hResults, driver
      ensures ok == driver.outcome(old(driver.made)) && driver.made == old(driver.made) + 1
      ensures ok ==> hResults[..] == dResults[..]
    {
      ok := driver.Call();
      if ok {
        forall k | 0 <= k < dResults.Length {
          hResults[k] := dResults[k];
        }
        assert hResults[..] == dResults[..];
      }
    }

    /** Select the device, upload the picture, reset the slots. */
    method Prepare(picture: Picture) returns (ok: bool)
      requires Valid() && Holds(picture)
      modifies dPicture, hPicture, dResults, hResults, driver
      ensures Valid()
      ensures (if ok then Ok else ErrBackend, driver.made) == Attempt(Calls(3), driver.outcome, old(driver.made))
      ensures ok ==> dPicture[..|picture.data|] == picture.data
      ensures ok ==> forall k | 0 <= k < |objects| :: dResults[k] == NO_PLACEMENT
    {
      NextCall(3, driver.outcome, driver.made);
      ok := driver.Call();
      if !ok {
        return;
      }
      NextCall(2, driver.outcome, driver.made);
      ok := Upload(picture);
      if !ok {
        return;
      }
      NextCall(1, driver.outcome, driver.made);
      ok := ResetResults();
    }

    /** Queue the copy of the slots and wait for everything queued. */
    method Collect() returns (ok: bool)
      requires dResults.Length == hResults.Length && dResults != hResults
      modifies hResults, driver
      ensures (if ok then Ok else ErrBackend, driver.made) == Attempt(Calls(2), driver.outcome, old(driver.made))
      ensures ok ==> hResults[..] == dResults[..]
    {
      NextCall(2, driver.outcome, driver.made);
      ok := CopyBack();
      if !ok {
        return;
      }
      NextCall(1, driver.outcome, driver.made);
      ok := driver.Call();
    }

    /** cuda_search. Whatever the buffers held before, result slots included, a
        search that succeeds returns the canonical match; one that fails reports
        no match. It makes its calls in order and fails exactly when one of them
        does. */
    method SearchPicture(picture: Picture) returns (status: Status, out: Match)
      requires Valid() && Holds(picture) && ar.Sound()
      modifies dPicture, hPicture, dResults, hResults, driver
      ensures Valid()
      ensures (status, driver.made) == Attempt(Calls(SearchCalls(objects, picture)), driver.outcome, old(driver.made))
      ensures status == Ok ==> out == CanonMatch(SearchOf(picture))
      ensures status != Ok ==> status == ErrBackend && out == MatchNone(picture.id)
    {
      status, out := ErrBackend, MatchNone(picture.id);
      if |objects| == 0 {
        NothingIsMatch(SearchOf(picture));
        return Ok, out;
      }
      ghost var launches := Launches(objects, picture, |objects|);
      CallsSplit(3, launches + 2, driver.outcome, driver.made);
      var ok := Prepare(picture);
      if !ok {
        return;
      }
      CallsSplit(launches, 2, driver.outcome, driver.made);
      ok := RunKernels(picture);
      if !ok {
        return;
      }
      ok := Collect();
      if !ok {
        return;
      }
      out := PickHost(picture, hResults[..]);
      status := Ok;
    }

    /** Any number of pictures through one context, as both runtimes use it: in
        turn, out at the first failure. Each result, whatever the earlier pictures
        left behind, is the one and only result of a fresh context; and all are
        there exactly when every call of every search succeeds. */
    method SearchAll(pictures: seq<Picture>) returns (status: Status, outs: seq<Match>)
      requires Valid() && ar.Sound() && forall i {:trigger pictures[i]} | 0 <= i < |pictures| :: Holds(pictures[i])
      modifies dPicture, hPicture, dResults, hResults, driver
      ensures (status, driver.made) ==
              Attempt(Calls(AllCalls(objects, pictures, |pictures|)), driver.outcome, old(driver.made))
      ensures Valid() && |outs| <= |pictures| && (status == Ok ==> |outs| == |pictures|)
      ensures forall i | 0 <= i < |outs| :: IsResult(pictures[i], outs[i])
    {
      status, outs := Ok, [];
      ghost var all, start := AllCalls(objects, pictures, |pictures|), driver.made;
      TrackStarts(driver.outcome, all, start);
      for i := 0 to |pictures|
        invariant Valid() && status == Ok && |outs| == i
        invariant forall j | 0 <= j < i :: IsResult(pictures[j], outs[j])
        invariant StillToMake(driver.outcome, all, start, all - AllCalls(objects, pictures, i), driver.made)
      {
        CallsGrow(objects, pictures, i + 1, |pictures|);
        TrackGoesOn(driver.outcome, all, start, all - AllCalls(objects, pictures, i), driver.made,
                    SearchCalls(objects, pictures[i]));
        var out;
        status, out := SearchPicture(pictures[i]);
        if status != Ok {
          return;
        }
        OnlyResult(pictures[i]);
        outs := outs + [out];
      }
      TrackEnds(driver.outcome, all, start, driver.made);
    }

    /** The canonical match, and whatever a fresh context can return. */
    ghost predicate IsResult(picture: Picture, out: Match) {
      var s := SearchOf(picture);
      s.Valid() && out == CanonMatch(s) && forall m | Outcome(s, m) :: m == out
    }

    lemma OnlyResult(picture: Picture)
      requires SearchOf(picture).Valid()
      ensures IsResult(picture, CanonMatch(SearchOf(picture)))
    {
      forall m | Outcome(SearchOf(picture), m)
        ensures m == CanonMatch(SearchOf(picture))
      {
        OutcomeIsCanon(SearchOf(picture), m);
      }
    }

    /** The last loop of cuda_search: the first slot that is not the sentinel. */
    method PickHost(picture: Picture, ghost bests: seq<int>) returns (out: Match)
      requires Valid() && Holds(picture) && ar.Sound() && hResults[..] == bests
      requires SlotsAreRight(picture, bests)
      ensures out == CanonMatch(SearchOf(picture))
    {
      ghost var s := SearchOf(picture);
      PickIsCanon(s, bests, 0);
      out := MatchNone(picture.id);
      for k := 0 to |objects|
        invariant out == MatchNone(picture.id)
        invariant Pick(s, bests, 0) == Pick(s, bests, k)
      {
        assert hResults[k] == bests[k];
        if hResults[k] != NO_PLACEMENT {
          var span := picture.n - objects[k].m + 1;
          out := Match(out.pictureId, objects[k].id, hResults[k] / span, hResults[k] % span);
          return;
        }
      }
    }
  }

  method CopyTo(buffer: array<int>, offset: nat, data: seq<int>)
    requires offset + |data| <= buffer.Length
    modifies buffer
    ensures buffer[..offset + |data|] == old(buffer[..offset]) + data
  {
    forall i | 0 <= i < |data| {
      buffer[offset + i] := data[i];
    }
  }

  /** The offset table, the allocation, and one copy per object. */
  function PackSteps(count: nat): (steps: seq<Act>)
    ensures Errors(steps)
  {
    if count == 0 then [] else [Call(ErrNoMem)] + Calls(1 + count)
  }

  /** Copy every object into one allocation, back to back. */
  method PackObjects(driver: Driver, objects: seq<Object>)
    returns (status: Status, dObjects: array<int>, objOffset: array<int>)
    requires forall k | 0 <= k < |objects| :: objects[k].Complete()
    modifies driver
    ensures (status, driver.made) == Attempt(PackSteps(|objects|), driver.outcome, old(driver.made))
    ensures fresh(dObjects) && fresh(objOffset) && objOffset.Length == |objects|
    ensures dObjects.Length == ElemsBefore(objects, |objects|)
    ensures status == Ok ==>
              forall k {:trigger objOffset[k]} | 0 <= k < |objects| :: objOffset[k] == ElemsBefore(objects, k)
    ensures status == Ok ==> dObjects[..] == Packed(objects, |objects|)
  {
    var total := 0;
    for k := 0 to |objects|
      invariant total == ElemsBefore(objects, k) && driver.made == old(driver.made)
    {
      total := total + objects[k].m * objects[k].m;
    }
    objOffset := new int[|objects|];
    dObjects := new int[total];
    if |objects| == 0 {
      return Ok, dObjects, objOffset;
    }
    AttemptConcat([Call(ErrNoMem)], Calls(1 + |objects|), driver.outcome, driver.made);
    status := Take(driver, [Call(ErrNoMem)]);
    if status != Ok {
      return;
    }
    NextCall(1 + |objects|, driver.outcome, driver.made);
    var ok := driver.Call();
    if !ok {
      return ErrBackend, dObjects, objOffset;
    }
    status := CopyObjects(driver, objects, dObjects, objOffset);
  }

  method CopyObjects(driver: Driver, objects: seq<Object>, dObjects: array<int>, objOffset: array<int>)
    returns (status: Status)
    requires dObjects != objOffset && objOffset.Length == |objects| && dObjects.Length == ElemsBefore(objects, |objects|)
    modifies driver, dObjects, objOffset
    ensures (status, driver.made) == Attempt(Calls(|objects|), driver.outcome, old(driver.made))
    ensures status == Ok ==>
              forall k {:trigger objOffset[k]} | 0 <= k < |objects| :: objOffset[k] == ElemsBefore(objects, k)
    ensures status == Ok ==> dObjects[..] == Packed(objects, |objects|)
  {
    var offset := 0;
    for k := 0 to |objects|
      invariant offset == ElemsBefore(objects, k) <= dObjects.Length
      invariant forall j {:trigger objOffset[j]} | 0 <= j < k :: objOffset[j] == ElemsBefore(objects, j)
      invariant dObjects[..offset] == Packed(objects, k)
      invariant Attempt(Calls(|objects|), driver.outcome, old(driver.made)) ==
                Attempt(Calls(|objects| - k), driver.outcome, driver.made)
    {
      var data := objects[k].data;
      objOffset[k] := offset;
      assert offset + |data| <= dObjects.Length by { SlicesDisjoint(objects, k, |objects|); }
      NextCall(|objects| - k, driver.outcome, driver.made);
      var ok := driver.Call();
      if !ok {
        return ErrBackend;
      }
      CopyTo(dObjects, offset, data);
      offset := offset + |data|;
    }
    assert dObjects[..] == dObjects[..offset];
    status := Ok;
  }

  function Packed(objects: seq<Object>, k: nat): (all: seq<int>)
    requires k <= |objects|
    ensures |all| == ElemsBefore(objects, k)
  {
    if k == 0 then [] else Packed(objects, k - 1) + objects[k - 1].data
  }

  /** Each object is read back whole from its own slice of the packing. */
  lemma {:induction false} PackedSlice(objects: seq<Object>, j: nat, k: nat)
    requires j < k <= |objects|
    ensures var offset := ElemsBefore(objects, j);
            && offset + |objects[j].data| <= ElemsBefore(objects, k)
            && Packed(objects, k)[offset..offset + |objects[j].data|] == objects[j].data
    decreases k
  {
    SlicesDisjoint(objects, j, k);
    var offset := ElemsBefore(objects, j);
    if j < k - 1 {
      PackedSlice(objects, j, k - 1);
      var all, shorter := Packed(objects, k), Packed(objects, k - 1);
      assert all[offset..offset + |objects[j].data|] == shorter[offset..offset + |objects[j].data|];
    }
  }

  /** Which device is asked for: by number, or by the rank's place on its node. */
  datatype Choice = Choice(device: int, nodeRank: nat)

  /** The context and the number of devices; a device that is there; its selection,
      properties and stream. */
  function DeviceSteps(choice: Choice, devices: int): (steps: seq<Act>)
    ensures Errors(steps)
  {
    [Call(ErrNoMem), Call(ErrBackend)] +
    if devices <= 0 then [Refuse(ErrUnavailable)]
    else if (if choice.device >= 0 then choice.device else choice.nodeRank % devices) >= devices then [Refuse(ErrInvalid)]
    else Calls(3)
  }

  /** Which devices are refused, when every call succeeds: all if none is visible, a
      number beyond those visible, and never the one a rank's place selects. */
  lemma DeviceRefused(choice: Choice, devices: int, outcome: nat -> bool, made: nat)
    requires forall c: nat :: outcome(c)
    ensures Attempt(DeviceSteps(choice, devices), outcome, made).0 ==
            if devices <= 0 then ErrUnavailable
            else if choice.device >= devices then ErrInvalid
            else Ok
  {
    var steps := DeviceSteps(choice, devices);
    assert steps[0] == Call(ErrNoMem) && steps[1] == Call(ErrBackend);
    assert steps[1..][1..] == steps[2..];
    assert Attempt(steps, outcome, made) == Attempt(steps[2..], outcome, made + 2);
    if devices > 0 && choice.device < devices {
      AttemptSucceeds(Calls(3), outcome, made + 2);
    }
  }

  /** A pair of buffers, if there is anything to hold. */
  function BufferSteps(count: nat): (steps: seq<Act>)
    ensures Errors(steps)
  {
    if count == 0 then [] else Calls(2)
  }

  /** Everything cuda_create does that can fail: the device, the packed objects and
      their result slots, the picture buffers. */
  function CreateSteps(p: Problem, choice: Choice, devices: int): (steps: seq<Act>)
    ensures Errors(steps)
  {
    DeviceSteps(choice, devices) +
    (PackSteps(|p.objects|) + (BufferSteps(|p.objects|) + BufferSteps(|p.pictures|)))
  }

  /** cuda_create: pack every object once, size the picture buffer for the largest
      picture. It succeeds exactly when the chosen device is there and every call
      succeeds, and otherwise reports the first failure. */
  method Create(driver: Driver, p: Problem, ar: Arithmetic, choice: Choice, smCount: nat)
    returns (status: Status, ctx: CudaContext?)
    requires AllComplete(p)
    modifies driver
    ensures (status, driver.made) == Attempt(CreateSteps(p, choice, driver.devices), driver.outcome, old(driver.made))
    ensures status == Ok <==> ctx != null
    ensures status == Ok ==> fresh(ctx) && fresh(ctx.dPicture) && fresh(ctx.hPicture) &&
                             fresh(ctx.dResults) && fresh(ctx.hResults) && ctx.driver == driver
    ensures status == Ok ==> ctx.Valid() && ctx.ar == ar && ctx.threshold == p.threshold && ctx.objects == p.objects
    ensures status == Ok ==> forall i | 0 <= i < |p.pictures| :: ctx.Holds(p.pictures[i])
  {
    ctx := null;
    ghost var buffers := BufferSteps(|p.objects|) + BufferSteps(|p.pictures|);
    AttemptConcat(DeviceSteps(choice, driver.devices), PackSteps(|p.objects|) + buffers, driver.outcome, driver.made);
    status := Take(driver, DeviceSteps(choice, driver.devices));
    if status != Ok {
      return;
    }
    var dObjects, objOffset;
    AttemptConcat(PackSteps(|p.objects|), buffers, driver.outcome, driver.made);
    status, dObjects, objOffset := PackObjects(driver, p.objects);
    if status != Ok {
      return;
    }
    var capacity := MaxPictureElems(p.pictures);
    status := Take(driver, BufferSteps(|p.objects|) + BufferSteps(|p.pictures|));
    if status != Ok {
      return;
    }
    ctx := new CudaContext(driver, ar, p.threshold, p.objects, smCount, dObjects, objOffset, capacity);
    forall k | 0 <= k < |p.objects|
      ensures ctx.PackedAt(k)
    {
      PackedSlice(p.objects, k, |p.objects|);
      assert dObjects[..] == Packed(p.objects, |p.objects|);
      var offset := objOffset[k];
      assert dObjects[offset..offset + |p.objects[k].data|] == dObjects[..][offset..offset + |p.objects[k].data|];
    }
  }

  // ---------------------------------------------------------------- outcomes

  /** What the device may leave in slots that held `slots`: the end of any run of
      the queue, for any launch sizes, with or without visible finished slots. */
  ghost predicate LeavesFrom(s: Search, grid: seq<int>, slots: seq<int>, ordered: bool, bests: seq<int>)
    requires s.Complete()
  {
    var q := QueueOf(s, grid, slots, ordered);
    q.Valid() && exists run: seq<Device> :: IsRun(q, run) && run[|run| - 1].Finished() && run[|run| - 1].Values() == bests
  }

  /** The same once the host has reset the slots. */
  ghost predicate Leaves(s: Search, grid: seq<int>, ordered: bool, bests: seq<int>)
    requires s.Complete()
  {
    LeavesFrom(s, grid, Sentinels(s), ordered, bests)
  }

  function Sentinels(s: Search): seq<int> { seq(|s.objects|, _ => NO_PLACEMENT) }

  function QueueOf(s: Search, grid: seq<int>, slots: seq<int>, ordered: bool): Queue
    requires s.Complete()
  {
    Queue(seq(|s.objects|, k requires 0 <= k < |s.objects| => s.Hits(k)), grid, slots, ordered)
  }

  /** A result cuda_search may return. */
  ghost predicate Outcome(s: Search, out: Match)
    requires s.Complete()
  {
    exists grid, ordered, bests :: Leaves(s, grid, ordered, bests) && Slots(s, bests) && out == Pick(s, bests, 0)
  }

  lemma LeavesSettled(s: Search, grid: seq<int>, ordered: bool, bests: seq<int>)
    requires s.Valid() && Leaves(s, grid, ordered, bests)
    ensures Slots(s, bests) && Settled(s, bests)
    ensures forall k | 0 <= k < |bests| && bests[k] != NO_PLACEMENT :: 0 <= bests[k] < |s.Hits(k)|
    ensures ordered ==> AtMostOne(bests)
  {
    var q := QueueOf(s, grid, Sentinels(s), ordered);
    var run: seq<Device> :| IsRun(q, run) && run[|run| - 1].Finished() && run[|run| - 1].Values() == bests;
    RunSettles(q, run);
    assert forall k | 0 <= k < |s.objects| :: q.hits[k] == s.Hits(k);
  }

  /** For every grid, every interleaving, every early return and every stale
      read, cuda_search returns the canonical match. */
  lemma OutcomeIsCanon(s: Search, out: Match)
    requires s.Valid() && Outcome(s, out)
    ensures out == CanonMatch(s)
  {
    var grid, ordered, bests :| Leaves(s, grid, ordered, bests) && Slots(s, bests) && out == Pick(s, bests, 0);
    LeavesSettled(s, grid, ordered, bests);
    PickIsCanon(s, bests, 0);
  }

  /** When finished slots are visible to later kernels, the slots themselves are
      determined: only the canonical object's is filled, with its packed key. */
  lemma SlotsAreCanon(s: Search, grid: seq<int>, bests: seq<int>)
    requires s.Valid() && Leaves(s, grid, true, bests)
    ensures |bests| == |s.objects|
    ensures forall k | 0 <= k < |bests| :: bests[k] == SlotOf(s, Canon(s), k)
  {
    LeavesSettled(s, grid, true, bests);
    FirstFilled(s, bests, 0);
  }

  lemma {:induction false} FirstFilled(s: Search, bests: seq<int>, j: nat)
    requires s.Valid() && Slots(s, bests) && Settled(s, bests) && AtMostOne(bests)
    requires j <= |bests| && NoneBefore(bests, j)
    requires forall k | 0 <= k < |bests| && bests[k] != NO_PLACEMENT :: 0 <= bests[k] < |s.Hits(k)|
    ensures forall k | 0 <= k < |bests| :: bests[k] == SlotOf(s, Canon(s), k)
    decreases |bests| - j
  {
    if j == |bests| {
      NothingIsCanon(s);
      CanonUnique(s, Nowhere, Canon(s));
    } else if bests[j] == NO_PLACEMENT {
      FirstFilled(s, bests, j + 1);
    } else {
      var span := s.picture.n - s.objects[j].m + 1;
      FoundIsCanon(s, j, bests[j]);
      CanonUnique(s, Found(j, bests[j] / span, bests[j] % span), Canon(s));
      KeyUnpacks(bests[j], span);
    }
  }

  /** The slot of object `k` when the answer is `a`. */
  function SlotOf(s: Search, a: Answer, k: int): int
    requires 0 <= k < |s.objects|
  {
    if a.Found? && a.k == k then a.row * (s.picture.n - s.objects[k].m + 1) + a.col else NO_PLACEMENT
  }

  /** Without the reset the answer can be wrong: a slot left by an earlier picture
      is taken for a match in one that has none. */
  lemma LeftoverIsPicked() returns (s: Search, bests: seq<int>)
    ensures s.Valid() && LeavesFrom(s, [1], [0], true, bests)
    ensures Slots(s, bests) && Canon(s) == Nowhere && Pick(s, bests, 0) != CanonMatch(s)
  {
    var exact := Machine(_ => true, x => Finite(x));
    ExactRounds();
    RoundedIsSound(exact, Finite(1.0));
    s := Search(exact.Arithmetic(Finite(1.0)), Finite(1.0), Picture(7, 1, [1]), [Object(9, 1, [3])]);
    bests := [0];
    NoHit(s);
    StaleRun(s);
  }

  lemma StaleRun(s: Search)
    requires s.Complete() && |s.objects| == 1 && s.Hits(0) == [false]
    ensures LeavesFrom(s, [1], [0], true, [0])
  {
    var q := QueueOf(s, [1], [0], true);
    assert q.hits == [[false]];
    var run := [Device([[0]], 0, [Gate(0)]), Device([[0]], 0, [Head(0)]), Device([[0]], 0, [Exited]), Device([[0]], 1, [])];
    Moves(q, run[0], 0);
    Moves(q, run[1], 0);
    assert Step(q, run[0], 0, 0) == run[1] && Step(q, run[1], 0, 0) == run[2];
    assert Advance(q, run[2]) == run[3];
    assert IsRun(q, run) && run[3].Values() == [0];
  }

  /** An object that differs by the factor 2 in its one cell does not occur. */
  lemma NoHit(s: Search)
    requires s.Valid() && s.picture == Picture(7, 1, [1]) && s.objects == [Object(9, 1, [3])]
    requires s.threshold == Finite(1.0) && s.ar == Machine(_ => true, x => Finite(x)).Arithmetic(Finite(1.0))
    ensures s.Hits(0) == [false] && Canon(s) == Nowhere
  {
    var o := s.At(0, 0, 0);
    assert PlacementCount(1, 1) == 1;
    assert TermAt(s.ar, o, 0, 0) == Finite(2.0) by {
      assert (-2) as real / 1.0 == -2.0;
    }
    assert SumBefore(s.ar, o, 0, 1) == Finite(2.0) by { assert SumBefore(s.ar, o, 0, 0) == ZERO; }
    assert ScoreAt(s.ar, o, s.threshold) == Finite(2.0);
    HitByScore(s, 0, 0);
    assert !s.Hits(0)[0];
    NothingIsCanon(s);
    CanonUnique(s, Nowhere, Canon(s));
  }
}
