/** Backends and runtimes together: which matches a backend may return, the
    local run, and the distributed run whose result must equal it. */
module Runtime {
  import opened Types
  import opened Metric
  import opened Canonical
  import opened Problems
  import Kernels
  import Serial
  import OpenMp
  import Cuda
  import opened Driving
  import opened Gather
  import opened MpiRuntime

  datatype Backend = UseSerial | UseOpenMp | UseCuda

  function SearchFor(p: Problem, ar: Arithmetic, i: int): Search
    requires 0 <= i < |p.pictures|
  {
    Search(ar, p.threshold, p.pictures[i], p.objects)
  }

  /** A match the backend's search may return when it succeeds. */
  ghost predicate May(backend: Backend, s: Search, m: Match)
    requires s.Complete()
  {
    match backend
    case UseSerial => m == Serial.Scan(s, 0)
    case UseOpenMp => OpenMp.Outcome(s, m)
    case UseCuda => Cuda.Outcome(s, m)
  }

  /** The determinism contract: every result of every backend is the canonical
      match, so no two backends, runs or schedules can disagree. */
  lemma BackendsAgree(backend: Backend, s: Search, m: Match)
    requires s.Valid() && May(backend, s, m)
    ensures m == CanonMatch(s)
  {
    match backend
    case UseSerial => Serial.ScanIsCanon(s);
    case UseOpenMp => OpenMp.OutcomeIsCanon(s, m);
    case UseCuda => Cuda.OutcomeIsCanon(s, m);
  }

  ghost function SomeEnd(hits: seq<bool>): (best: int)
    requires |hits| <= NO_PLACEMENT
    ensures OpenMp.LoopEnds(hits, best)
  {
    LoopCanEnd(hits);
    var best :| OpenMp.LoopEnds(hits, best);
    best
  }

  lemma LoopCanEnd(hits: seq<bool>)
    requires |hits| <= NO_PLACEMENT
    ensures exists best :: OpenMp.LoopEnds(hits, best)
  {
    var run := OpenMp.RunCompletes(hits, [OpenMp.Start(hits)]);
    OpenMp.RunKeepsInv(hits, run);
    assert run[|run| - 1].EndsWith(run[|run| - 1].Best());
    assert OpenMp.LoopEnds(hits, run[|run| - 1].Best());
  }

  lemma OpenMpAnswers(s: Search)
    requires s.Valid()
    ensures exists m :: OpenMp.Outcome(s, m)
  {
    var bests := seq(|s.objects|, k requires 0 <= k < |s.objects| =>
      if |s.Hits(k)| == 0 then NO_PLACEMENT else SomeEnd(s.Hits(k)));
    forall k | 0 <= k < |bests| && bests[k] != NO_PLACEMENT
      ensures s.objects[k].m <= s.picture.n
    {
      assert |s.Hits(k)| > 0;
    }
    assert OpenMp.Ran(s, bests);
    assert OpenMp.Outcome(s, Pick(s, bests, 0));
  }

  lemma CudaAnswers(s: Search)
    requires s.Valid()
    ensures exists m :: Cuda.Outcome(s, m)
  {
    var grid := seq(|s.objects|, _ => 1);
    var q := Cuda.QueueOf(s, grid, Cuda.Sentinels(s), true);
    var run := Kernels.RunCompletes(q, [Kernels.Start(q)]);
    var bests := run[|run| - 1].Values();
    assert Cuda.Leaves(s, grid, true, bests);
    Cuda.LeavesSettled(s, grid, true, bests);
    assert Cuda.Outcome(s, Pick(s, bests, 0));
  }

  /** Every backend does return something for every picture. */
  lemma BackendAnswers(backend: Backend, s: Search)
    requires s.Valid()
    ensures exists m :: May(backend, s, m)
  {
    match backend
    case UseSerial => assert May(UseSerial, s, Serial.Scan(s, 0));
    case UseOpenMp =>
      OpenMpAnswers(s);
      var m :| OpenMp.Outcome(s, m);
      assert May(UseOpenMp, s, m);
    case UseCuda =>
      CudaAnswers(s);
      var m :| Cuda.Outcome(s, m);
      assert May(UseCuda, s, m);
  }

  // ------------------------------------------------------------------- local

  /** The canonical result of every picture, in input order. */
  ghost function CanonArray(p: Problem, ar: Arithmetic): seq<Match>
    requires AllComplete(p) && ar.Sound()
  {
    seq(|p.pictures|, i requires 0 <= i < |p.pictures| => CanonMatch(SearchFor(p, ar, i)))
  }

  /** The array after a run that failed at entry `j`: before it canonical matches,
      at it "no match" if its search failed, and nothing touched past it. */
  ghost predicate StoppedAt(p: Problem, ar: Arithmetic, was: seq<Match>, now: seq<Match>, j: int)
    requires AllComplete(p) && ar.Sound()
  {
    && 0 <= j < |p.pictures| == |now| == |was|
    && now[..j] == CanonArray(p, ar)[..j]
    && now[j] == MatchNone(p.pictures[j].id)
    && forall i | j < i < |now| :: now[i] == was[i]
  }

  /** How a run is set up. */
  datatype Config = Config(backend: Backend, choice: Cuda.Choice, smCount: nat)

  // What can fail, in order. The CPU backends allocate a context and nothing else;
  // their searches cannot fail.

  function CreateActs(p: Problem, config: Config, devices: int): (acts: seq<Act>)
    ensures Errors(acts)
  {
    if config.backend == UseCuda then Cuda.CreateSteps(p, config.choice, devices) else [Call(ErrNoMem)]
  }

  function SearchActs(p: Problem, backend: Backend, i: int): (acts: seq<Act>)
    requires 0 <= i < |p.pictures|
    ensures Errors(acts)
  {
    if backend == UseCuda then Calls(Cuda.SearchCalls(p.objects, p.pictures[i])) else []
  }

  function SearchActsFrom(p: Problem, backend: Backend, i: nat): (acts: seq<Act>)
    requires i <= |p.pictures|
    decreases |p.pictures| - i
  {
    if i == |p.pictures| then [] else SearchActs(p, backend, i) + SearchActsFrom(p, backend, i + 1)
  }

  function RunActs(p: Problem, config: Config, devices: int): seq<Act> {
    CreateActs(p, config, devices) + SearchActsFrom(p, config.backend, 0)
  }

  /** A run on a CPU backend has one thing that can fail. */
  lemma {:induction false} HostSearchesCannotFail(p: Problem, backend: Backend, i: nat)
    requires backend != UseCuda && i <= |p.pictures|
    ensures SearchActsFrom(p, backend, i) == []
    decreases |p.pictures| - i
  {
    if i < |p.pictures| {
      HostSearchesCannotFail(p, backend, i + 1);
    }
  }

  lemma {:induction false} SearchActsFail(p: Problem, backend: Backend, i: nat)
    requires i <= |p.pictures|
    ensures Errors(SearchActsFrom(p, backend, i))
    decreases |p.pictures| - i
  {
    if i < |p.pictures| {
      SearchActsFail(p, backend, i + 1);
    }
  }

  /** When a local run succeeds: on a CPU backend exactly when its context can be
      allocated, on CUDA exactly when the device is there and every call succeeds. */
  lemma LocalRunSucceeds(p: Problem, config: Config, devices: int, outcome: nat -> bool, made: nat)
    ensures var acts := RunActs(p, config, devices);
            && (Attempt(acts, outcome, made).0 == Ok <==> AllPass(acts, outcome, made))
            && (config.backend != UseCuda ==>
                  && (Attempt(acts, outcome, made).0 == Ok <==> outcome(made))
                  && Attempt(acts, outcome, made).0 in {Ok, ErrNoMem})
  {
    SearchActsFail(p, config.backend, 0);
    AttemptSucceeds(RunActs(p, config, devices), outcome, made);
    if config.backend != UseCuda {
      HostSearchesCannotFail(p, config.backend, 0);
      assert RunActs(p, config, devices) == [Call(ErrNoMem)];
    }
  }

  /** A context that can search every picture of the problem. The CPU backends
      have none. */
  ghost predicate Ready(driver: Driver, p: Problem, ar: Arithmetic, backend: Backend, ctx: Cuda.CudaContext?)
    reads ctx, if ctx == null then {} else {ctx.dObjects, ctx.objOffset}
  {
    backend == UseCuda ==>
      && ctx != null && ctx.Valid() && ctx.ar == ar && ctx.threshold == p.threshold && ctx.objects == p.objects
      && ctx.driver == driver && (forall i | 0 <= i < |p.pictures| :: ctx.Holds(p.pictures[i]))
  }

  /** What a search may write, besides making calls. */
  ghost function Buffers(ctx: Cuda.CudaContext?): set<object> {
    if ctx == null then {} else {ctx.dPicture, ctx.hPicture, ctx.dResults, ctx.hResults}
  }

  /** backend->create. */
  method CreateContext(driver: Driver, p: Problem, ar: Arithmetic, config: Config)
    returns (status: Status, ctx: Cuda.CudaContext?)
    requires AllComplete(p)
    modifies driver
    ensures (status, driver.made) == Attempt(CreateActs(p, config, driver.devices), driver.outcome, old(driver.made))
    ensures status == Ok ==> Ready(driver, p, ar, config.backend, ctx) && fresh(Buffers(ctx))
  {
    if config.backend == UseCuda {
      status, ctx := Cuda.Create(driver, p, ar, config.choice, config.smCount);
    } else {
      ctx := null;
      status := Take(driver, [Call(ErrNoMem)]);
    }
  }

  /** backend->search. It fails only if it makes calls and one of them fails. */
  method SearchOne(driver: Driver, p: Problem, ar: Arithmetic, backend: Backend, ctx: Cuda.CudaContext?, i: int)
    returns (status: Status, found: Match)
    requires AllComplete(p) && ar.Sound() && Ready(driver, p, ar, backend, ctx) && 0 <= i < |p.pictures|
    modifies driver, Buffers(ctx)
    ensures Ready(driver, p, ar, backend, ctx)
    ensures (status, driver.made) == Attempt(SearchActs(p, backend, i), driver.outcome, old(driver.made))
    ensures backend != UseCuda ==> status == Ok
    ensures found == if status == Ok then CanonArray(p, ar)[i] else MatchNone(p.pictures[i].id)
  {
    status := Ok;
    match backend {
      case UseSerial =>
        found := Serial.SerialSearch(SearchFor(p, ar, i));
        Serial.ScanIsCanon(SearchFor(p, ar, i));
      case UseOpenMp =>
        found := OpenMp.OpenMpSearch(SearchFor(p, ar, i));
      case UseCuda =>
        status, found := ctx.SearchPicture(p.pictures[i]);
    }
  }

  /** msearch_run_local: one context for all pictures, each searched in order, out
      at the first failure. It fails exactly when something on its list does. Success
      fills the array with canonical matches; a failing search leaves a canonical
      prefix and does not touch what follows, a failing start touches nothing. */
  method RunLocal(driver: Driver, p: Problem, ar: Arithmetic, config: Config, matches: array<Match>)
    returns (status: Status)
    requires AllComplete(p) && ar.Sound() && matches.Length == |p.pictures|
    modifies driver, matches
    ensures (status, driver.made) == Attempt(RunActs(p, config, driver.devices), driver.outcome, old(driver.made))
    ensures status == Ok ==> matches[..] == CanonArray(p, ar)
    ensures status != Ok ==>
              matches[..] == old(matches[..]) || exists j :: StoppedAt(p, ar, old(matches[..]), matches[..], j)
    ensures config.backend != UseCuda && status != Ok ==> status == ErrNoMem && matches[..] == old(matches[..])
  {
    var ctx;
    AttemptConcat(CreateActs(p, config, driver.devices), SearchActsFrom(p, config.backend, 0), driver.outcome, driver.made);
    status, ctx := CreateContext(driver, p, ar, config);
    if status != Ok {
      return;
    }
    status := SearchEach(driver, p, ar, config.backend, ctx, matches);
  }

  /** The loop over the pictures. */
  method SearchEach(driver: Driver, p: Problem, ar: Arithmetic, backend: Backend, ctx: Cuda.CudaContext?,
                    matches: array<Match>)
    returns (status: Status)
    requires AllComplete(p) && ar.Sound() && Ready(driver, p, ar, backend, ctx)
    requires matches.Length == |p.pictures| && matches !in Buffers(ctx)
    modifies driver, matches, Buffers(ctx)
    ensures (status, driver.made) == Attempt(SearchActsFrom(p, backend, 0), driver.outcome, old(driver.made))
    ensures status == Ok ==> matches[..] == CanonArray(p, ar)
    ensures status != Ok ==>
              backend == UseCuda && exists j :: StoppedAt(p, ar, old(matches[..]), matches[..], j)
  {
    ghost var canon, was := CanonArray(p, ar), matches[..];
    for i := 0 to |p.pictures|
      invariant Ready(driver, p, ar, backend, ctx)
      invariant Attempt(SearchActsFrom(p, backend, i), driver.outcome, driver.made) ==
                Attempt(SearchActsFrom(p, backend, 0), driver.outcome, old(driver.made))
      invariant matches[..i] == canon[..i]
      invariant forall j | i <= j < matches.Length :: matches[j] == was[j]
    {
      AttemptConcat(SearchActs(p, backend, i), SearchActsFrom(p, backend, i + 1), driver.outcome, driver.made);
      var found;
      status, found := SearchOne(driver, p, ar, backend, ctx, i);
      matches[i] := found;
      if status != Ok {
        assert StoppedAt(p, ar, was, matches[..], i);
        return;
      }
      assert matches[i] == canon[i];
    }
    status := Ok;
  }

  // ------------------------------------------------------------- distributed

  /** The job the ranks run: rank r may answer whatever its own backend may. */
  ghost function JobOf(p: Problem, ar: Arithmetic, backends: seq<Backend>, reserves: bool): Job
    requires AllComplete(p)
  {
    Job(seq(|p.pictures|, i requires 0 <= i < |p.pictures| => p.pictures[i].id), |backends|,
        iset r: nat, i: int, m: Match |
          r < |backends| && 0 <= i < |p.pictures| && May(backends[r], SearchFor(p, ar, i), m) :: (r, i, m),
        reserves)
  }

  lemma JobHonoursContract(p: Problem, ar: Arithmetic, backends: seq<Backend>, reserves: bool)
    requires AllComplete(p) && ar.Sound()
    ensures Contract(JobOf(p, ar, backends, reserves), CanonArray(p, ar))
    ensures Answers(JobOf(p, ar, backends, reserves))
  {
    var job := JobOf(p, ar, backends, reserves);
    forall r, i, m | (r, i, m) in job.possible
      ensures m == CanonArray(p, ar)[i]
    {
      BackendsAgree(backends[r], SearchFor(p, ar, i), m);
    }
    forall r: nat, i: int | r < job.world && 0 <= i < |job.ids|
      ensures CanAnswer(job, r, i)
    {
      BackendAnswers(backends[r], SearchFor(p, ar, i));
      var m :| May(backends[r], SearchFor(p, ar, i), m);
      assert (r, i, m) in job.possible;
    }
  }

  /** For every number of ranks, every interleaving of claims and every choice of
      backend per rank: a run without faults ends with every rank reporting success
      and rank 0 holding exactly what a local run produces; a run with a fault
      ends with every rank reporting failure. */
  lemma MpiEqualsLocal(p: Problem, ar: Arithmetic, backends: seq<Backend>, reserves: bool, run: seq<World>)
    requires AllComplete(p) && ar.Sound()
    requires IsRun(JobOf(p, ar, backends, reserves), run) && AllAt(run[|run| - 1], Done)
    ensures var w := run[|run| - 1];
            && (w.faults == 0 ==> w.matches == CanonArray(p, ar))
            && (forall r | 0 <= r < |w.ranks| :: w.ranks[r].status == Ok <==> w.faults == 0)
            && (forall r | 0 <= r < |w.ranks| :: w.ranks[r].passed == ORDER)
  {
    JobHonoursContract(p, ar, backends, reserves);
    RunResult(JobOf(p, ar, backends, reserves), run, CanonArray(p, ar));
  }

  /** From any point of any run, the run can be completed exactly when rank 0's
      gather buffers can be allocated. */
  lemma MpiCompletes(p: Problem, ar: Arithmetic, backends: seq<Backend>, reserves: bool, run: seq<World>)
    requires AllComplete(p) && ar.Sound()
    requires IsRun(JobOf(p, ar, backends, reserves), run)
    ensures reserves <==> exists full: seq<World> :: Completes(JobOf(p, ar, backends, reserves), run, full)
  {
    JobHonoursContract(p, ar, backends, reserves);
    CompletesIffReserved(JobOf(p, ar, backends, reserves), run);
  }

  /** The flat int messages of the real gather: in every reachable state they fit
      rank 0's buffer and decode to the records of all ranks in rank order. */
  lemma GatheredInts(job: Job, run: seq<World>, sends: seq<seq<int>>)
    requires IsRun(job, run)
    requires |sends| == job.world == |run[|run| - 1].ranks|
    requires forall r | 0 <= r < |sends| :: sends[r] == Encode(run[|run| - 1].ranks[r].records)
    ensures var w := run[|run| - 1];
            && |Flatten(sends, |sends|)| <= RECORD_INTS * |job.ids|
            && Decode(Flatten(sends, |sends|)) == Flatten(Pieces(w), |w.ranks|)
            && (forall r | 0 <= r < |sends| :: |sends[r]| <= RECORD_INTS * |job.ids|)
  {
    RunFits(job, run);
    var pieces := Pieces(run[|run| - 1]);
    EncodeFlatten(pieces, sends, |sends|);
    DecodeEncode(Flatten(pieces, |pieces|));
  }

  lemma RunFits(job: Job, run: seq<World>)
    requires IsRun(job, run)
    ensures var w := run[|run| - 1];
            && |w.ranks| == job.world
            && |Flatten(Pieces(w), |w.ranks|)| <= |job.ids|
            && forall r | 0 <= r < |w.ranks| :: |w.ranks[r].records| <= |job.ids|
  {
    RunKeepsInv(job, run);
    GatherFits(job, run[|run| - 1]);
  }

  /** With the parser's bound on counts, neither the shared counter nor any
      message length, displacement or total overflows an int, for up to a million ranks. */
  lemma CountersFitInt(job: Job, run: seq<World>, sends: seq<seq<int>>)
    requires IsRun(job, run) && |job.ids| <= 1_000_000 && job.world <= 1_000_000
    requires |sends| == job.world == |run[|run| - 1].ranks|
    requires forall r | 0 <= r < |sends| :: sends[r] == Encode(run[|run| - 1].ranks[r].records)
    ensures var w := run[|run| - 1];
            && 0 <= HandedOutBy(w) <= INT_MAX
            && |Flatten(sends, |sends|)| <= INT_MAX
            && (forall r | 0 <= r < |sends| :: |sends[r]| <= INT_MAX && |Flatten(sends, r)| <= INT_MAX)
  {
    ClaimConservation(job, run);
    GatheredInts(job, run, sends);
    forall r | 0 <= r < |sends|
      ensures |Flatten(sends, r)| <= INT_MAX
    {
      FlattenBlock(sends, r, |sends|);
    }
  }
}
