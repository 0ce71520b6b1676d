/** The device side of backend_cuda.cu as a machine: one kernel per object, in
    stream order, whose threads interleave freely. */
module Kernels {
  import opened Integers
  import opened Types
  import opened Canonical

  /** Where one thread of k_search_thread_per_placement stands. */
  datatype Thread =
    | Gate(j: int)         // about to read the slot of earlier object `j`
    | Head(key: int)       // at the test of the grid-stride loop
    | Scoring(key: int)    // the running minimum it read was above its key
    | Lowering(key: int)   // scored below the threshold, about to do atomicMin
    | Exited

  /** The kernels queued for one picture. `hits[k]` holds the decision at each
      key of object `k`, `grid[k]` the number of threads launched for it, and
      `slots[k]` what its result slot holds when the first kernel starts.
      `ordered` says whether stream order makes a finished kernel's slot visible,
      or whether even those reads may be stale. */
  datatype Queue = Queue(hits: seq<seq<bool>>, grid: seq<int>, slots: seq<int>, ordered: bool) {
    predicate Valid() {
      && |grid| == |slots| == |hits|
      && (forall k | 0 <= k < |hits| :: 1 <= grid[k] && |hits[k]| < NO_PLACEMENT)
    }

    /** The host has written the sentinel to every slot. */
    predicate Reset() { forall k | 0 <= k < |slots| :: slots[k] == NO_PLACEMENT }

    /** The threads of kernel `k`; an object with no placement launches none. */
    function Launch(k: nat): seq<Thread>
      requires Valid()
    {
      if k < |hits| && hits[k] != [] then seq(grid[k], _ => Gate(0)) else []
    }
  }

  /** `slots[k]` lists every value result slot `k` has held, the current one
      last. `kernel` is the kernel that is running. */
  datatype Device = Device(slots: seq<seq<int>>, kernel: nat, threads: seq<Thread>) {
    function Value(k: int): int
      requires 0 <= k < |slots|
    {
      if slots[k] == [] then NO_PLACEMENT else slots[k][|slots[k]| - 1]
    }

    function Values(): (bests: seq<int>)
      ensures |bests| == |slots|
    {
      seq(|slots|, k requires 0 <= k < |slots| => Value(k))
    }

    predicate Idle() { forall t | 0 <= t < |threads| :: threads[t] == Exited }

    predicate Finished() { kernel == |slots| }
  }

  function Start(q: Queue): Device
    requires q.Valid()
  {
    Device(seq(|q.slots|, k requires 0 <= k < |q.slots| => [q.slots[k]]), 0, q.Launch(0))
  }

  /** Thread `t` can step, its volatile read (if it makes one) returning entry
      `seen` of what the slot has held. */
  predicate CanStep(q: Queue, d: Device, t: int, seen: int) {
    && d.kernel < |q.hits| == |d.slots|
    && 0 <= t < |d.threads|
    && match d.threads[t]
       case Gate(j) =>
         j == d.kernel ||
         (0 <= j < d.kernel && 0 <= seen < |d.slots[j]| && (q.ordered ==> seen == |d.slots[j]| - 1))
       case Head(_) => 0 <= seen < |d.slots[d.kernel]|
       case Scoring(key) => 0 <= key < |q.hits[d.kernel]|
       case Lowering(_) => true
       case Exited => false
  }

  function Step(q: Queue, d: Device, t: int, seen: int): Device
    requires CanStep(q, d, t, seen)
  {
    var k := d.kernel;
    match d.threads[t]
    case Gate(j) =>
      if j == k then d.(threads := d.threads[t := Head(t)])
      else if d.slots[j][seen] != NO_PLACEMENT then d.(threads := d.threads[t := Exited])
      else d.(threads := d.threads[t := Gate(j + 1)])
    case Head(key) =>
      if key >= |q.hits[k]| || key >= d.slots[k][seen] then d.(threads := d.threads[t := Exited])
      else d.(threads := d.threads[t := Scoring(key)])
    case Scoring(key) =>
      if q.hits[k][key] then d.(threads := d.threads[t := Lowering(key)])
      else d.(threads := d.threads[t := Head(key + |d.threads|)])
    case Lowering(key) =>
      var slot := if ToInt32(key) < d.Value(k) then d.slots[k] + [ToInt32(key)] else d.slots[k];
      Device(d.slots[k := slot], k, d.threads[t := Head(key + |d.threads|)])
    case Exited => d
  }

  /** Stream order: the next kernel starts once every thread of this one is out. */
  predicate CanAdvance(q: Queue, d: Device) { d.kernel < |q.hits| == |d.slots| && d.Idle() }

  function Advance(q: Queue, d: Device): Device
    requires q.Valid() && CanAdvance(q, d)
  {
    Device(d.slots, d.kernel + 1, q.Launch(d.kernel + 1))
  }

  ghost predicate StepsTo(q: Queue, d: Device, d': Device)
    requires q.Valid()
  {
    || (exists t, seen :: CanStep(q, d, t, seen) && d' == Step(q, d, t, seen))
    || (CanAdvance(q, d) && d' == Advance(q, d))
  }

  ghost predicate IsRun(q: Queue, run: seq<Device>)
    requires q.Valid()
  {
    && run != [] && run[0] == Start(q)
    && forall i | 0 <= i < |run| - 1 :: StepsTo(q, run[i], run[i + 1])
  }

  // ---------------------------------------------------------------- invariant

  /** A slot starts at the sentinel, only ever holds hits of its own object, and
      only ever falls. */
  predicate SlotInv(hits: seq<bool>, slot: seq<int>) {
    && slot != []
    && forall i | 0 <= i < |slot| ::
         && slot[|slot| - 1] <= slot[i]
         && (slot[i] == NO_PLACEMENT || (0 <= slot[i] < |hits| && hits[slot[i]]))
  }

  /** No hit below `key` among the keys thread `t` of `stride` visits is below `v`. */
  predicate Clear(hits: seq<bool>, v: int, stride: int, t: int, key: int)
    requires 0 < stride
  {
    forall i | 0 <= i < |hits| && i < key && hits[i] && i % stride == t :: v <= i
  }

  predicate ThreadInv(q: Queue, d: Device, t: int)
    requires d.kernel < |q.hits| == |d.slots| && 0 <= t < |d.threads|
  {
    var hits, v, stride := q.hits[d.kernel], d.Value(d.kernel), |d.threads|;
    match d.threads[t]
    case Gate(j) => 0 <= j <= d.kernel && (q.ordered ==> NoneBefore(d.Values(), j))
    case Head(key) => OnTrack(q, d, t, key)
    case Scoring(key) => OnTrack(q, d, t, key) && key < |hits|
    case Lowering(key) => OnTrack(q, d, t, key) && key < |hits| && hits[key]
    case Exited => !NoneBefore(d.Values(), d.kernel) || Clear(hits, v, stride, t, |hits|)
  }

  predicate OnTrack(q: Queue, d: Device, t: int, key: int)
    requires d.kernel < |q.hits| == |d.slots| && 0 <= t < |d.threads|
  {
    && 0 <= key && key % |d.threads| == t
    && Clear(q.hits[d.kernel], d.Value(d.kernel), |d.threads|, t, key)
    && (q.ordered ==> NoneBefore(d.Values(), d.kernel))
  }

  /** Right where it counts: least, unless an earlier object already matched. */
  predicate SlotSettled(q: Queue, d: Device, k: int)
    requires 0 <= k < |q.hits| == |d.slots|
  {
    NoneBefore(d.Values(), k) ==> IsLeast(q.hits[k], d.Value(k))
  }

  predicate AtMostOne(bests: seq<int>) {
    forall i, j | 0 <= i < j < |bests| :: bests[i] == NO_PLACEMENT || bests[j] == NO_PLACEMENT
  }

  ghost predicate Inv(q: Queue, d: Device)
    requires q.Valid()
  {
    && d.kernel <= |q.hits| == |d.slots|
    && (forall k | 0 <= k < |q.hits| :: SlotInv(q.hits[k], d.slots[k]))
    && (forall k | d.kernel < k < |q.hits| :: d.slots[k] == [NO_PLACEMENT])
    && (forall k | 0 <= k < d.kernel :: SlotSettled(q, d, k))
    && (q.ordered ==> AtMostOne(d.Values()))
    && (d.kernel == |q.hits| ==> d.threads == [])
    && (d.kernel < |q.hits| ==>
          && |d.threads| == |q.Launch(d.kernel)|
          && (forall t | 0 <= t < |d.threads| :: ThreadInv(q, d, t)))
  }

  lemma StartInv(q: Queue)
    requires q.Valid() && q.Reset()
    ensures Inv(q, Start(q))
  {
  }

  /** Past `key`, the next key this thread visits is `key + stride`. */
  lemma ClearNext(hits: seq<bool>, v: int, stride: int, t: int, key: int)
    requires 0 < stride && 0 <= key < |hits| && key % stride == t
    requires Clear(hits, v, stride, t, key) && (hits[key] ==> v <= key)
    ensures Clear(hits, v, stride, t, key + stride) && (key + stride) % stride == t
  {
    NextResidue(key, stride);
    forall i | 0 <= i < |hits| && i < key + stride && hits[i] && i % stride == t
      ensures v <= i
    {
      if key <= i {
        SameResidue(key, i, stride);
      }
    }
  }

  lemma ClearAtStart(hits: seq<bool>, v: int, stride: int, t: int)
    requires 0 <= t < stride
    ensures t % stride == t && Clear(hits, v, stride, t, t)
  {
    forall i | 0 <= i < t
      ensures i % stride != t
    {
      assert i % stride == i;
    }
  }

  /** A step of one thread keeps what is known about every other. */
  lemma OthersKeep(q: Queue, d: Device, d': Device, t: int)
    requires q.Valid() && d.kernel == d'.kernel < |q.hits| == |d.slots| == |d'.slots|
    requires 0 <= t < |d.threads| == |d'.threads| && d.threads[t] == d'.threads[t]
    requires forall k | 0 <= k < |q.hits| && k != d.kernel :: d.slots[k] == d'.slots[k]
    requires d'.Value(d.kernel) <= d.Value(d.kernel)
    requires ThreadInv(q, d, t)
    ensures ThreadInv(q, d', t)
  {
    SameBefore(d, d', d.kernel);
  }

  lemma SameBefore(d: Device, d': Device, kernel: nat)
    requires kernel <= |d.slots| == |d'.slots|
    requires forall k | 0 <= k < kernel :: d.slots[k] == d'.slots[k]
    ensures forall k | 0 <= k <= kernel :: NoneBefore(d.Values(), k) == NoneBefore(d'.Values(), k)
  {
    assert forall k | 0 <= k < kernel :: d.Values()[k] == d'.Values()[k];
  }

  lemma GateKeeps(q: Queue, d: Device, t: int, seen: int)
    requires q.Valid() && Inv(q, d) && CanStep(q, d, t, seen) && d.threads[t].Gate?
    ensures ThreadInv(q, Step(q, d, t, seen), t)
  {
    var d' := Step(q, d, t, seen);
    var k, j := d.kernel, d.threads[t].j;
    assert ThreadInv(q, d, t);
    SameBefore(d, d', k);
    if j == k {
      ClearAtStart(q.hits[k], d.Value(k), |d.threads|, t);
    } else {
      assert SlotInv(q.hits[j], d.slots[j]);
      assert d.Values()[j] == d.Value(j) <= d.slots[j][seen];
    }
  }

  lemma HeadKeeps(q: Queue, d: Device, t: int, seen: int)
    requires q.Valid() && Inv(q, d) && CanStep(q, d, t, seen) && d.threads[t].Head?
    ensures ThreadInv(q, Step(q, d, t, seen), t)
  {
    assert ThreadInv(q, d, t);
    SameBefore(d, Step(q, d, t, seen), d.kernel);
    assert SlotInv(q.hits[d.kernel], d.slots[d.kernel]);
    assert d.Value(d.kernel) <= d.slots[d.kernel][seen];
  }

  lemma ScoringKeeps(q: Queue, d: Device, t: int, seen: int)
    requires q.Valid() && Inv(q, d) && CanStep(q, d, t, seen) && d.threads[t].Scoring?
    ensures ThreadInv(q, Step(q, d, t, seen), t)
  {
    assert ThreadInv(q, d, t);
    SameBefore(d, Step(q, d, t, seen), d.kernel);
    if !q.hits[d.kernel][d.threads[t].key] {
      ClearNext(q.hits[d.kernel], d.Value(d.kernel), |d.threads|, t, d.threads[t].key);
    }
  }

  lemma LoweringKeeps(q: Queue, d: Device, t: int, seen: int)
    requires q.Valid() && Inv(q, d) && CanStep(q, d, t, seen) && d.threads[t].Lowering?
    ensures ThreadInv(q, Step(q, d, t, seen), t)
  {
    var d' := Step(q, d, t, seen);
    assert ThreadInv(q, d, t);
    SameBefore(d, d', d.kernel);
    ClearNext(q.hits[d.kernel], d'.Value(d.kernel), |d.threads|, t, d.threads[t].key);
  }

  lemma MoverKeeps(q: Queue, d: Device, t: int, seen: int)
    requires q.Valid() && Inv(q, d) && CanStep(q, d, t, seen)
    ensures ThreadInv(q, Step(q, d, t, seen), t)
  {
    match d.threads[t]
    case Gate(_) => GateKeeps(q, d, t, seen);
    case Head(_) => HeadKeeps(q, d, t, seen);
    case Scoring(_) => ScoringKeeps(q, d, t, seen);
    case Lowering(_) => LoweringKeeps(q, d, t, seen);
    case Exited =>
  }

  lemma SlotsKeep(q: Queue, d: Device, t: int, seen: int)
    requires q.Valid() && Inv(q, d) && CanStep(q, d, t, seen)
    ensures var d' := Step(q, d, t, seen);
            && |d'.slots| == |d.slots| && d'.kernel == d.kernel && |d'.threads| == |d.threads|
            && SlotInv(q.hits[d.kernel], d'.slots[d.kernel]) && d'.Value(d.kernel) <= d.Value(d.kernel)
            && (forall j | 0 <= j < |d.slots| && j != d.kernel :: d'.slots[j] == d.slots[j])
            && (q.ordered && d'.slots != d.slots ==> NoneBefore(d.Values(), d.kernel))
  {
    assert SlotInv(q.hits[d.kernel], d.slots[d.kernel]) && ThreadInv(q, d, t);
  }

  lemma ThreadsKeep(q: Queue, d: Device, t: int, seen: int)
    requires q.Valid() && Inv(q, d) && CanStep(q, d, t, seen)
    ensures var d' := Step(q, d, t, seen);
            |d'.slots| == |d.slots| && forall u | 0 <= u < |d'.threads| :: ThreadInv(q, d', u)
  {
    var d' := Step(q, d, t, seen);
    SlotsKeep(q, d, t, seen);
    forall u | 0 <= u < |d'.threads|
      ensures ThreadInv(q, d', u)
    {
      assert ThreadInv(q, d, u);
      if u == t {
        MoverKeeps(q, d, t, seen);
      } else {
        OthersKeep(q, d, d', u);
      }
    }
  }

  lemma StepKeepsInv(q: Queue, d: Device, t: int, seen: int)
    requires q.Valid() && Inv(q, d) && CanStep(q, d, t, seen)
    ensures Inv(q, Step(q, d, t, seen))
  {
    var d' := Step(q, d, t, seen);
    SlotsKeep(q, d, t, seen);
    ThreadsKeep(q, d, t, seen);
    SameBefore(d, d', d.kernel);
    forall j | 0 <= j < d.kernel
      ensures SlotSettled(q, d', j)
    {
      assert SlotSettled(q, d, j);
    }
    if q.ordered {
      OneSlotMoves(q, d, d');
    }
  }

  /** With visible slots, a kernel lowers its own only when none before it matched. */
  lemma OneSlotMoves(q: Queue, d: Device, d': Device)
    requires q.Valid() && Inv(q, d) && q.ordered && d.kernel < |q.hits| == |d'.slots|
    requires forall j | 0 <= j < |q.hits| && j != d.kernel :: d'.slots[j] == d.slots[j]
    requires d'.slots != d.slots ==> NoneBefore(d.Values(), d.kernel)
    ensures AtMostOne(d'.Values())
  {
    var k := d.kernel;
    forall i, j | 0 <= i < j < |q.hits|
      ensures d'.Values()[i] == NO_PLACEMENT || d'.Values()[j] == NO_PLACEMENT
    {
      assert d.Values()[i] == d.Value(i) && d.Values()[j] == d.Value(j);
      if d'.slots == d.slots {
      } else if i < k {
        assert d.Values()[i] == NO_PLACEMENT;
      } else {
        assert d.slots[j] == [NO_PLACEMENT];
      }
    }
  }

  lemma IdleSettles(q: Queue, d: Device)
    requires q.Valid() && Inv(q, d) && CanAdvance(q, d)
    ensures SlotSettled(q, d, d.kernel)
  {
    var k := d.kernel;
    var hits, v := q.hits[k], d.Value(k);
    assert SlotInv(hits, d.slots[k]);
    if NoneBefore(d.Values(), k) {
      forall i | 0 <= i < |hits| && hits[i]
        ensures v <= i
      {
        var t := i % |d.threads|;
        assert ThreadInv(q, d, t);
      }
    }
  }

  lemma AdvanceKeepsInv(q: Queue, d: Device)
    requires q.Valid() && Inv(q, d) && CanAdvance(q, d)
    ensures Inv(q, Advance(q, d))
  {
    var d' := Advance(q, d);
    IdleSettles(q, d);
    assert d'.Values() == d.Values();
    forall j | 0 <= j < d'.kernel
      ensures SlotSettled(q, d', j)
    {
      assert SlotSettled(q, d, j);
    }
  }

  lemma {:induction false} RunKeepsInv(q: Queue, run: seq<Device>)
    requires q.Valid() && q.Reset() && IsRun(q, run)
    ensures Inv(q, run[|run| - 1])
    decreases |run|
  {
    var last := |run| - 1;
    if last == 0 {
      StartInv(q);
    } else {
      RunKeepsInv(q, run[..last]);
      var d, d' := run[last - 1], run[last];
      assert StepsTo(q, run[last - 1], run[last - 1 + 1]);
      if CanAdvance(q, d) && d' == Advance(q, d) {
        AdvanceKeepsInv(q, d);
      } else {
        var t, seen :| CanStep(q, d, t, seen) && d' == Step(q, d, t, seen);
        StepKeepsInv(q, d, t, seen);
      }
    }
  }

  /** Once the slots are reset, every finished run, for every grid, interleaving and stale read: the slots
      are right up to the first object that matched, and if stream order makes
      finished slots visible, no later slot is filled. */
  lemma RunSettles(q: Queue, run: seq<Device>)
    requires q.Valid() && q.Reset() && IsRun(q, run) && run[|run| - 1].Finished()
    ensures var bests := run[|run| - 1].Values();
            && |bests| == |q.hits|
            && (forall k | 0 <= k < |bests| && NoneBefore(bests, k) :: IsLeast(q.hits[k], bests[k]))
            && (forall k | 0 <= k < |bests| && bests[k] != NO_PLACEMENT ::
                  0 <= bests[k] < |q.hits[k]| && q.hits[k][bests[k]])
            && (q.ordered ==> AtMostOne(bests))
  {
    RunKeepsInv(q, run);
    FinishedSettles(q, run[|run| - 1]);
  }

  lemma FinishedSettles(q: Queue, d: Device)
    requires q.Valid() && Inv(q, d) && d.Finished()
    ensures var bests := d.Values();
            && |bests| == |q.hits|
            && (forall k | 0 <= k < |bests| && NoneBefore(bests, k) :: IsLeast(q.hits[k], bests[k]))
            && (forall k | 0 <= k < |bests| && bests[k] != NO_PLACEMENT ::
                  0 <= bests[k] < |q.hits[k]| && q.hits[k][bests[k]])
            && (q.ordered ==> AtMostOne(bests))
  {
    var bests := d.Values();
    forall k | 0 <= k < |bests|
      ensures NoneBefore(bests, k) ==> IsLeast(q.hits[k], bests[k])
      ensures bests[k] != NO_PLACEMENT ==> 0 <= bests[k] < |q.hits[k]| && q.hits[k][bests[k]]
    {
      assert SlotSettled(q, d, k) && SlotInv(q.hits[k], d.slots[k]);
    }
  }

  /** Every finished run is right up to the first object that matched. */
  ghost predicate AlwaysSettles(q: Queue)
    requires q.Valid()
  {
    forall run: seq<Device> | IsRun(q, run) && run[|run| - 1].Finished() :: AllSettled(q, run[|run| - 1])
  }

  ghost predicate AllSettled(q: Queue, d: Device) {
    |d.slots| == |q.hits| && forall k | 0 <= k < |q.hits| :: SlotSettled(q, d, k)
  }

  /** The reset is what makes leftover slots harmless: for what the slots hold at
      the start, every queue settles in every run exactly when all are sentinels. */
  lemma ResetIsNeeded(slots: seq<int>)
    ensures (forall q: Queue | q.slots == slots && q.Valid() :: AlwaysSettles(q)) <==>
            (forall k | 0 <= k < |slots| :: slots[k] == NO_PLACEMENT)
  {
    if forall k | 0 <= k < |slots| :: slots[k] == NO_PLACEMENT {
      forall q: Queue | q.slots == slots && q.Valid()
        ensures AlwaysSettles(q)
      {
        ResetSettles(q);
      }
    } else {
      var k :| 0 <= k < |slots| && slots[k] != NO_PLACEMENT;
      LeftoverStays(slots, k);
      assert !AlwaysSettles(Unlaunched(slots));
    }
  }

  lemma ResetSettles(q: Queue)
    requires q.Valid() && q.Reset()
    ensures AlwaysSettles(q)
  {
    forall run: seq<Device> | IsRun(q, run) && run[|run| - 1].Finished()
      ensures AllSettled(q, run[|run| - 1])
    {
      RunKeepsInv(q, run);
    }
  }

  /** A queue in which no object fits the picture, so that no kernel is launched. */
  function Unlaunched(slots: seq<int>): (q: Queue)
    ensures q.Valid() && q.slots == slots
  {
    Queue(seq(|slots|, _ => []), seq(|slots|, _ => 1), slots, true)
  }

  /** A leftover slot `k` survives a queue without kernels and is taken for a match. */
  lemma {:induction false} LeftoverStays(slots: seq<int>, k: int)
    requires 0 <= k < |slots| && slots[k] != NO_PLACEMENT
    ensures !AlwaysSettles(Unlaunched(slots))
  {
    if j :| 0 <= j < k && slots[j] != NO_PLACEMENT {
      LeftoverStays(slots, j);
    } else {
      var q := Unlaunched(slots);
      var held := Start(q).slots;
      var run := seq(|slots| + 1, i requires 0 <= i <= |slots| => Device(held, i, []));
      forall i | 0 <= i < |run| - 1
        ensures StepsTo(q, run[i], run[i + 1])
      {
        assert CanAdvance(q, run[i]) && Advance(q, run[i]) == run[i + 1];
      }
      assert IsRun(q, run) && run[|run| - 1].Finished();
      assert forall j | 0 <= j <= k :: run[|run| - 1].Values()[j] == slots[j];
      assert !SlotSettled(q, run[|run| - 1], k);
    }
  }

  lemma Moves(q: Queue, d: Device, seen: int)
    requires q.Valid() && CanStep(q, d, 0, seen)
    ensures StepsTo(q, d, Step(q, d, 0, seen))
  {
  }

  /** One kernel of one thread that hits at key 0, from its start to its end, its
      gate reads returning what the slots held first. */
  function OneHit(before: seq<seq<int>>, after: seq<seq<int>>, k: nat): seq<Device> {
    [Device(before, k, [Gate(k)]), Device(before, k, [Head(0)]), Device(before, k, [Scoring(0)]),
     Device(before, k, [Lowering(0)]), Device(after, k, [Head(1)]), Device(after, k, [Exited])]
  }

  lemma OneHitRuns(q: Queue, before: seq<seq<int>>, after: seq<seq<int>>, k: nat)
    requires q.Valid() && k < |q.hits| == |before| && q.hits[k] == [true]
    requires before[k] == [NO_PLACEMENT] && after == before[k := [NO_PLACEMENT, 0]]
    ensures forall i | 0 <= i < 5 :: StepsTo(q, OneHit(before, after, k)[i], OneHit(before, after, k)[i + 1])
  {
    var run := OneHit(before, after, k);
    assert ToInt32(0) == 0;
    assert before[k] + [0] == [NO_PLACEMENT, 0];
    assert Step(q, run[0], 0, 0) == run[1];
    assert Step(q, run[1], 0, 0) == run[2];
    assert Step(q, run[2], 0, 0) == run[3];
    assert Step(q, run[3], 0, 0) == run[4];
    assert Step(q, run[4], 0, 0) == run[5];
    forall i | 0 <= i < 5
      ensures StepsTo(q, run[i], run[i + 1])
    {
      Moves(q, run[i], 0);
    }
  }

  /** Stream order is needed for at most one slot to be filled: two objects, one
      thread each, the second reading the first's slot as it was before. */
  lemma StaleGateFillsTwo() returns (q: Queue, run: seq<Device>)
    ensures q.Valid() && q.Reset() && !q.ordered && IsRun(q, run) && run[|run| - 1].Finished()
    ensures !AtMostOne(run[|run| - 1].Values())
  {
    q := Queue([[true], [true]], [1, 1], [NO_PLACEMENT, NO_PLACEMENT], false);
    var none, one := [[NO_PLACEMENT], [NO_PLACEMENT]], [[NO_PLACEMENT, 0], [NO_PLACEMENT]];
    var two := one[1 := [NO_PLACEMENT, 0]];
    var first, gate, second, end :=
      OneHit(none, one, 0), Device(one, 1, [Gate(0)]), OneHit(one, two, 1), Device(two, 2, []);
    OneHitRuns(q, none, one, 0);
    OneHitRuns(q, one, two, 1);
    Moves(q, gate, 0);
    assert Advance(q, first[5]) == gate && Advance(q, second[5]) == end;
    run := first + [gate] + second + [end];
    assert run[13].Values()[0] == run[13].Values()[1] == 0;
  }

  // -------------------------------------------------------------- termination

  function Cost(q: Queue, kernel: nat, thread: Thread): nat
    requires kernel < |q.hits|
  {
    var len := |q.hits[kernel]|;
    match thread
    case Gate(j) => 3 * len + 2 + (if j < kernel then kernel - j else 0)
    case Head(key) => if key < len then 3 * (len - key) + 1 else 1
    case Scoring(key) => if key < len then 3 * (len - key) else 0
    case Lowering(key) => if key < len then 3 * (len - key) - 1 else 0
    case Exited => 0
  }

  /** Steps still owed by the running kernel. */
  function Owed(q: Queue, d: Device): nat {
    if d.kernel < |q.hits| then Total(Costs(q, d.kernel, d.threads)) else 0
  }

  function Costs(q: Queue, kernel: nat, threads: seq<Thread>): seq<nat>
    requires kernel < |q.hits|
  {
    seq(|threads|, t requires 0 <= t < |threads| => Cost(q, kernel, threads[t]))
  }

  lemma StepPays(q: Queue, d: Device, t: int, seen: int)
    requires q.Valid() && Inv(q, d) && CanStep(q, d, t, seen)
    ensures Owed(q, Step(q, d, t, seen)) < Owed(q, d)
  {
    var thread := Step(q, d, t, seen).threads[t];
    assert ThreadInv(q, d, t);
    TotalDrops(Costs(q, d.kernel, d.threads), t, Cost(q, d.kernel, thread));
    assert Costs(q, d.kernel, d.threads[t := thread]) ==
           Costs(q, d.kernel, d.threads)[t := Cost(q, d.kernel, thread)];
  }

  /** A thread that is not out can always take its next step. */
  lemma CanMove(q: Queue, d: Device) returns (t: int, seen: int)
    requires q.Valid() && Inv(q, d) && !d.Finished() && !d.Idle()
    ensures CanStep(q, d, t, seen)
  {
    t :| 0 <= t < |d.threads| && d.threads[t] != Exited;
    assert ThreadInv(q, d, t);
    var k := d.kernel;
    var j := if d.threads[t].Gate? && d.threads[t].j < k then d.threads[t].j else k;
    assert SlotInv(q.hits[j], d.slots[j]);
    seen := |d.slots[j]| - 1;
  }

  lemma OneMore(q: Queue, run: seq<Device>, d': Device)
    requires q.Valid() && IsRun(q, run) && StepsTo(q, run[|run| - 1], d')
    ensures IsRun(q, run + [d'])
  {
  }

  /** From every reachable state the queue can still drain. */
  lemma {:induction false} RunCompletes(q: Queue, run: seq<Device>) returns (full: seq<Device>)
    requires q.Valid() && q.Reset() && IsRun(q, run)
    ensures IsRun(q, full) && run <= full && full[|full| - 1].Finished()
    decreases |q.hits| - run[|run| - 1].kernel, Owed(q, run[|run| - 1])
  {
    var d := run[|run| - 1];
    RunKeepsInv(q, run);
    if d.Finished() {
      return run;
    }
    var d';
    if d.Idle() {
      d' := Advance(q, d);
    } else {
      var t, seen := CanMove(q, d);
      StepPays(q, d, t, seen);
      d' := Step(q, d, t, seen);
    }
    OneMore(q, run, d');
    full := RunCompletes(q, run + [d']);
  }

  /** The queue as the device runs it: an arbitrary thread with an arbitrary
      admissible read at every step. It drains under every schedule. */
  method Drain(q: Queue) returns (bests: seq<int>)
    requires q.Valid() && q.Reset()
    ensures |bests| == |q.hits|
    ensures forall k | 0 <= k < |bests| && NoneBefore(bests, k) :: IsLeast(q.hits[k], bests[k])
    ensures forall k | 0 <= k < |bests| && bests[k] != NO_PLACEMENT ::
              0 <= bests[k] < |q.hits[k]| && q.hits[k][bests[k]]
    ensures q.ordered ==> AtMostOne(bests)
  {
    var d := Start(q);
    StartInv(q);
    while !d.Finished()
      invariant Inv(q, d)
      decreases |q.hits| - d.kernel, Owed(q, d)
    {
      if d.Idle() {
        AdvanceKeepsInv(q, d);
        d := Advance(q, d);
      } else {
        ghost var t0, seen0 := CanMove(q, d);
        var t: int, seen: int :| CanStep(q, d, t, seen);
        StepPays(q, d, t, seen);
        StepKeepsInv(q, d, t, seen);
        d := Step(q, d, t, seen);
      }
    }
    FinishedSettles(q, d);
    bests := d.Values();
  }
}
