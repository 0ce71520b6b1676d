/** The OpenMP backend, backend_openmp.c: a parallel loop over placement keys
    that lowers a shared minimum, as a machine whose steps interleave freely. */
module OpenMp {
  import opened Integers
  import opened Types
  import opened Canonical

  /** Where one iteration of the parallel loop stands. */
  datatype Phase =
    | Pending   // before the snapshot of `best`
    | Scoring   // the snapshot was above the key
    | Locking   // scored below the threshold, about to enter the critical section
    | Done

  /** `held` lists every value `best` has held; the last one is its value. Which
      thread runs which chunk is left open: any order of iterations is a run. */
  datatype Loop = Loop(held: seq<int>, phases: seq<Phase>) {
    function Best(): int
      requires held != []
    {
      held[|held| - 1]
    }

    predicate Finished() { forall key | 0 <= key < |phases| :: phases[key] == Done }

    predicate EndsWith(best: int) { Finished() && held != [] && Best() == best }
  }

  function Start(hits: seq<bool>): Loop {
    Loop([NO_PLACEMENT], seq(|hits|, _ => Pending))
  }

  predicate CanStep(hits: seq<bool>, l: Loop, key: int, seen: int) {
    && |l.phases| == |hits| && 0 <= seen < |l.held|
    && 0 <= key < |hits| && l.phases[key] != Done
  }

  /** One atomic step of iteration `key`. The snapshot may be any value the
      minimum has held, however stale; the critical section sees the current one. */
  function Step(hits: seq<bool>, l: Loop, key: int, seen: int): Loop
    requires CanStep(hits, l, key, seen)
  {
    match l.phases[key]
    case Pending => l.(phases := l.phases[key := if key >= l.held[seen] then Done else Scoring])
    case Scoring => l.(phases := l.phases[key := if hits[key] then Locking else Done])
    case Locking => Loop(if ToInt32(key) < l.Best() then l.held + [ToInt32(key)] else l.held, l.phases[key := Done])
    case Done => l
  }

  /** What every step keeps. The last clause is the reason a key skipped against
      an outdated snapshot was safe to skip. */
  ghost predicate Inv(hits: seq<bool>, l: Loop) {
    && |l.phases| == |hits| && l.held != []
    && (forall i | 0 <= i < |l.held| :: HeldValue(hits, l.held[i]) && l.Best() <= l.held[i])
    && (forall key | 0 <= key < |hits| && l.phases[key] == Locking :: hits[key])
    && (forall key | 0 <= key < |hits| && l.phases[key] == Done && hits[key] :: l.Best() <= key)
  }

  predicate HeldValue(hits: seq<bool>, v: int) {
    v == NO_PLACEMENT || (0 <= v < |hits| && hits[v])
  }

  lemma StepKeepsInv(hits: seq<bool>, l: Loop, key: int, seen: int)
    requires |hits| <= NO_PLACEMENT && Inv(hits, l) && CanStep(hits, l, key, seen)
    ensures Inv(hits, Step(hits, l, key, seen))
  {
    var l' := Step(hits, l, key, seen);
    assert l'.Best() <= l.Best();
    assert l.Best() <= l.held[seen];
  }

  /** A run: any schedule, with any snapshot at each step. */
  ghost predicate IsRun(hits: seq<bool>, run: seq<Loop>) {
    && run != [] && run[0] == Start(hits)
    && forall i | 0 <= i < |run| - 1 :: StepsTo(hits, run[i], run[i + 1])
  }

  ghost predicate StepsTo(hits: seq<bool>, l: Loop, l': Loop) {
    exists key, seen :: CanStep(hits, l, key, seen) && l' == Step(hits, l, key, seen)
  }

  lemma {:induction false} RunKeepsInv(hits: seq<bool>, run: seq<Loop>)
    requires |hits| <= NO_PLACEMENT && IsRun(hits, run)
    ensures Inv(hits, run[|run| - 1])
    decreases |run|
  {
    var last := |run| - 1;
    if last > 0 {
      RunKeepsInv(hits, run[..last]);
      assert StepsTo(hits, run[last - 1], run[last]);
      var key, seen :| CanStep(hits, run[last - 1], key, seen) && run[last] == Step(hits, run[last - 1], key, seen);
      StepKeepsInv(hits, run[last - 1], key, seen);
    }
  }

  lemma FinishedIsLeast(hits: seq<bool>, l: Loop)
    requires |hits| <= NO_PLACEMENT && Inv(hits, l) && l.Finished()
    ensures IsLeast(hits, l.Best())
  {
    assert HeldValue(hits, l.held[|l.held| - 1]);
  }

  /** Every finished run leaves `best` at the least matching key, or at the
      sentinel when no key matches. */
  lemma RunIsLeast(hits: seq<bool>, run: seq<Loop>, best: int)
    requires |hits| <= NO_PLACEMENT && IsRun(hits, run) && run[|run| - 1].EndsWith(best)
    ensures IsLeast(hits, best)
  {
    RunKeepsInv(hits, run);
    FinishedIsLeast(hits, run[|run| - 1]);
  }

  function Cost(phase: Phase): nat {
    match phase case Pending => 3 case Scoring => 2 case Locking => 1 case Done => 0
  }

  /** Steps still owed by the iterations; each step pays at least one. */
  function Owed(l: Loop): nat { Total(Costs(l.phases)) }

  function Costs(phases: seq<Phase>): seq<nat> {
    seq(|phases|, key requires 0 <= key < |phases| => Cost(phases[key]))
  }

  lemma StepPays(hits: seq<bool>, l: Loop, key: int, seen: int)
    requires CanStep(hits, l, key, seen)
    ensures Owed(Step(hits, l, key, seen)) < Owed(l)
  {
    var phase := Step(hits, l, key, seen).phases[key];
    TotalDrops(Costs(l.phases), key, Cost(phase));
    assert Costs(l.phases[key := phase]) == Costs(l.phases)[key := Cost(phase)];
  }

  lemma OneMore(hits: seq<bool>, run: seq<Loop>, key: int)
    requires IsRun(hits, run) && CanStep(hits, run[|run| - 1], key, 0)
    ensures IsRun(hits, run + [Step(hits, run[|run| - 1], key, 0)])
  {
    var l := run[|run| - 1];
    assert StepsTo(hits, l, Step(hits, l, key, 0));
  }

  /** Whatever has happened so far, the loop can still finish, and it does so
      within three steps per iteration. */
  lemma {:induction false} RunCompletes(hits: seq<bool>, run: seq<Loop>) returns (full: seq<Loop>)
    requires |hits| <= NO_PLACEMENT && IsRun(hits, run)
    ensures IsRun(hits, full) && run <= full && full[|full| - 1].Finished()
    ensures |full| <= |run| + Owed(run[|run| - 1])
    decreases Owed(run[|run| - 1])
  {
    var l := run[|run| - 1];
    if l.Finished() {
      return run;
    }
    RunKeepsInv(hits, run);
    var key :| 0 <= key < |l.phases| && l.phases[key] != Done;
    StepPays(hits, l, key, 0);
    OneMore(hits, run, key);
    full := RunCompletes(hits, run + [Step(hits, l, key, 0)]);
  }

  /** No run is longer than three steps per iteration. */
  lemma {:induction false} RunBounded(hits: seq<bool>, run: seq<Loop>)
    requires IsRun(hits, run)
    ensures |run| - 1 + Owed(run[|run| - 1]) <= 3 * |hits|
    decreases |run|
  {
    var last := |run| - 1;
    if last == 0 {
      TotalBound(Costs(run[0].phases), 3);
    } else {
      RunBounded(hits, run[..last]);
      assert StepsTo(hits, run[last - 1], run[last - 1 + 1]);
      var key, seen :| CanStep(hits, run[last - 1], key, seen) && run[last] == Step(hits, run[last - 1], key, seen);
      StepPays(hits, run[last - 1], key, seen);
    }
  }

  /** lowest_matching_placement: any schedule terminates with the least key. */
  method LowestMatchingPlacement(hits: seq<bool>) returns (best: int)
    requires |hits| <= NO_PLACEMENT
    ensures IsLeast(hits, best)
  {
    var l := Start(hits);
    while !l.Finished()
      invariant Inv(hits, l)
      decreases Owed(l)
    {
      var key: int :| 0 <= key < |l.phases| && l.phases[key] != Done;
      var seen: int :| 0 <= seen < |l.held|;
      StepPays(hits, l, key, seen);
      StepKeepsInv(hits, l, key, seen);
      l := Step(hits, l, key, seen);
    }
    FinishedIsLeast(hits, l);
    best := l.Best();
  }

  /** openmp_search. */
  method OpenMpSearch(s: Search) returns (out: Match)
    requires s.Valid()
    ensures out == CanonMatch(s)
  {
    out := MatchNone(s.picture.id);
    for k := 0 to |s.objects|
      invariant out == MatchNone(s.picture.id)
      invariant forall j | 0 <= j < k :: IsLeast(s.Hits(j), NO_PLACEMENT)
    {
      var needle := s.objects[k];
      if PlacementCount(s.picture.n, needle.m) == 0 {
        continue;
      }
      var span := s.picture.n - needle.m + 1;
      var best := LowestMatchingPlacement(s.Hits(k));
      if best != NO_PLACEMENT {
        FoundIsMatch(s, k, best);
        out := Match(out.pictureId, needle.id, best / span, best % span);
        return;
      }
    }
    NothingIsMatch(s);
  }

  /** Some finished run of the loop leaves the minimum at `best`. */
  ghost predicate LoopEnds(hits: seq<bool>, best: int) {
    exists run: seq<Loop> :: IsRun(hits, run) && run[|run| - 1].EndsWith(best)
  }

  /** A result openmp_search may return: the pick over slots each of which, up
      to the first match, some finished run of its object's loop has filled. */
  ghost predicate Outcome(s: Search, out: Match)
    requires s.Complete()
  {
    exists bests :: Slots(s, bests) && Ran(s, bests) && out == Pick(s, bests, 0)
  }

  ghost predicate Ran(s: Search, bests: seq<int>)
    requires s.Complete() && Slots(s, bests)
  {
    forall k | 0 <= k < |bests| && NoneBefore(bests, k) ::
      if |s.Hits(k)| == 0 then bests[k] == NO_PLACEMENT else LoopEnds(s.Hits(k), bests[k])
  }

  /** Whatever the schedules were, openmp_search returns the canonical match. */
  lemma OutcomeIsCanon(s: Search, out: Match)
    requires s.Valid() && Outcome(s, out)
    ensures out == CanonMatch(s)
  {
    var bests :| Slots(s, bests) && Ran(s, bests) && out == Pick(s, bests, 0);
    forall k | 0 <= k < |bests| && NoneBefore(bests, k)
      ensures IsLeast(s.Hits(k), bests[k])
    {
      if |s.Hits(k)| > 0 {
        assert LoopEnds(s.Hits(k), bests[k]);
        var run: seq<Loop> :| IsRun(s.Hits(k), run) && run[|run| - 1].EndsWith(bests[k]);
        RunIsLeast(s.Hits(k), run, bests[k]);
      }
    }
    PickIsCanon(s, bests, 0);
  }
}
