/** msearch_run_mpi as a machine: ranks claim pictures from a shared counter,
    record what they find, and meet in a fixed series of collectives. Its steps
    interleave freely; ranks may fail to start or fail a search. */
module MpiRuntime {
  import opened Integers
  import opened Types
  import opened Gather

  /** Where one rank stands. The At... points wait in a collective. */
  datatype Pc =
    | Starting               // create() and the record buffer
    | AtAllocate             // MPI_Win_allocate
    | Zeroing                // rank 0 stores zero in the counter
    | AtBarrier              // MPI_Barrier
    | Claiming               // about to fetch and add
    | Searching(index: int)  // inside backend->search
    | AtFree                 // MPI_Win_free
    | Reserving              // rank 0 allocates its gather buffers
    | AtGather               // MPI_Gather of the counts
    | AtGatherv              // MPI_Gatherv of the records
    | Assembling             // rank 0 puts the records in input order
    | AtReduce               // MPI_Allreduce of the failure flag
    | Done

  /** The collectives every rank is meant to pass, in order. */
  const ORDER := [AtAllocate, AtBarrier, AtFree, AtGather, AtGatherv, AtReduce]

  /** `lost` holds the picture index whose search failed, if any; `passed` the
      collectives this rank has completed. */
  datatype Rank = Rank(pc: Pc, status: Status, records: seq<Record>, lost: seq<int>, passed: seq<Pc>)

  /** `ids` are the picture ids in input order; `possible` holds (r, i, m) when
      rank r's backend may answer m for picture i; `reserves` says whether rank
      0's gather buffers can be allocated. */
  datatype Job = Job(ids: seq<int>, world: nat, possible: iset<(nat, int, Match)>, reserves: bool)

  /** `claims[i]` is the rank to which the counter value i was handed. */
  datatype World = World(
    counter: int, claims: seq<nat>, ranks: seq<Rank>, faults: nat,
    gathered: seq<Record>, matches: seq<Match>)

  datatype Event =
    | Begin(r: int, outcome: Status)
    | Collective
    | Zero
    | Claim(r: int)
    | Answer(r: int, m: Match)
    | Fail(r: int, outcome: Status)
    | Reserve
    | Assemble

  predicate IsStart(job: Job, w: World) {
    && 2 <= job.world == |w.ranks| && |w.matches| == |job.ids|
    && w.claims == [] && w.faults == 0
    && forall r | 0 <= r < job.world :: w.ranks[r] == Rank(Starting, Ok, [], [], [])
  }

  function RecordOf(index: int, m: Match): Record { Record(index, m.objectId, m.row, m.col) }

  predicate Waiting(pc: Pc) {
    pc.AtAllocate? || pc.AtBarrier? || pc.AtFree? || pc.AtGather? || pc.AtGatherv? || pc.AtReduce?
  }

  predicate AllAt(w: World, pc: Pc) { forall r | 0 <= r < |w.ranks| :: w.ranks[r].pc == pc }

  ghost predicate Enabled(job: Job, w: World, e: Event) {
    1 <= |w.ranks| &&
    match e
    case Begin(r, _) => 0 <= r < |w.ranks| && w.ranks[r].pc == Starting
    case Collective => Waiting(w.ranks[0].pc) && AllAt(w, w.ranks[0].pc)
    case Zero => w.ranks[0].pc == Zeroing
    case Claim(r) => 0 <= r < |w.ranks| && w.ranks[r].pc == Claiming
    case Answer(r, m) =>
      0 <= r < |w.ranks| && w.ranks[r].pc.Searching? && (r, w.ranks[r].pc.index, m) in job.possible
    case Fail(r, outcome) => 0 <= r < |w.ranks| && w.ranks[r].pc.Searching? && outcome != Ok
    case Reserve => w.ranks[0].pc == Reserving
    case Assemble => w.ranks[0].pc == Assembling && |w.matches| == |job.ids|
  }

  /** Where a rank goes when the collective it waits in completes. */
  function After(r: int, rank: Rank): Pc {
    match rank.pc
    case AtAllocate => if r == 0 then Zeroing else AtBarrier
    case AtBarrier => if rank.status == Ok then Claiming else AtFree
    case AtFree => if r == 0 then Reserving else AtGather
    case AtGather => AtGatherv
    case AtGatherv => if r == 0 then Assembling else AtReduce
    case AtReduce => Done
    case pc => pc
  }

  predicate AnyFailed(w: World) { exists r :: 0 <= r < |w.ranks| && w.ranks[r].status != Ok }

  function Through(w: World, r: int): Rank
    requires 0 <= r < |w.ranks|
  {
    var rank := w.ranks[r];
    rank.(pc := After(r, rank), passed := rank.passed + [rank.pc],
          status := if rank.pc == AtReduce && rank.status == Ok && AnyFailed(w) then ErrBackend else rank.status)
  }

  function Pieces(w: World): seq<seq<Record>> {
    seq(|w.ranks|, r requires 0 <= r < |w.ranks| => w.ranks[r].records)
  }

  function WithRank(w: World, r: int, rank: Rank): World
    requires 0 <= r < |w.ranks|
  {
    w.(ranks := w.ranks[r := rank])
  }

  ghost function Apply(job: Job, w: World, e: Event): World
    requires Enabled(job, w, e)
  {
    match e
    case Begin(r, outcome) =>
      WithRank(w, r, w.ranks[r].(pc := AtAllocate, status := outcome))
      .(faults := if outcome == Ok then w.faults else w.faults + 1)
    case Collective =>
      w.(ranks := seq(|w.ranks|, r requires 0 <= r < |w.ranks| => Through(w, r)),
         gathered := if w.ranks[0].pc == AtGatherv then Flatten(Pieces(w), |w.ranks|) else w.gathered)
    case Zero =>
      WithRank(w, 0, w.ranks[0].(pc := AtBarrier)).(counter := 0)
    case Claim(r) =>
      var index := w.counter;
      WithRank(w, r, w.ranks[r].(pc := if index >= |job.ids| then AtFree else Searching(index)))
      .(counter := w.counter + 1, claims := w.claims + [r])
    case Answer(r, m) =>
      var rank := w.ranks[r];
      WithRank(w, r, rank.(pc := Claiming, records := rank.records + [RecordOf(rank.pc.index, m)]))
    case Fail(r, outcome) =>
      var rank := w.ranks[r];
      WithRank(w, r, rank.(pc := AtFree, status := outcome, lost := [rank.pc.index])).(faults := w.faults + 1)
    case Reserve =>
      if job.reserves then WithRank(w, 0, w.ranks[0].(pc := AtGather))
      else
        var status := if w.ranks[0].status == Ok then ErrNoMem else w.ranks[0].status;
        WithRank(w, 0, w.ranks[0].(pc := AtReduce, status := status)).(faults := w.faults + 1)
    case Assemble =>
      var (placed, matches) := Placed(job.ids, Blank(job.ids), w.gathered);
      var status := if w.ranks[0].status == Ok then placed else w.ranks[0].status;
      WithRank(w, 0, w.ranks[0].(pc := AtReduce, status := status)).(matches := matches)
  }

  ghost predicate StepsTo(job: Job, w: World, w': World) {
    exists e :: Enabled(job, w, e) && w' == Apply(job, w, e)
  }

  ghost predicate IsRun(job: Job, run: seq<World>) {
    && run != [] && IsStart(job, run[0])
    && forall i | 0 <= i < |run| - 1 :: StepsTo(job, run[i], run[i + 1])
  }

  // ---------------------------------------------------------------- invariant

  /** The number of collectives a rank at `pc` has behind it. */
  function Stage(pc: Pc): nat {
    match pc
    case Starting => 0 case AtAllocate => 0
    case Zeroing => 1 case AtBarrier => 1
    case Claiming => 2 case Searching(_) => 2 case AtFree => 2
    case Reserving => 3 case AtGather => 3
    case AtGatherv => 4
    case Assembling => 5 case AtReduce => 5
    case Done => 6
  }

  predicate Working(pc: Pc) { pc.Claiming? || pc.Searching? }

  /** Rank 0 has gone straight to the reduction because its buffers failed. */
  predicate Skipped(job: Job, w: World) {
    !job.reserves && 1 <= |w.ranks| && w.ranks[0].pc == AtReduce
  }

  function Level(job: Job, w: World): nat
    requires 1 <= |w.ranks|
  {
    if Skipped(job, w) then 3 else Stage(w.ranks[0].pc)
  }

  predicate Recorded(rank: Rank, i: int) { Covers(rank.records, i) }

  predicate InFlight(rank: Rank, i: int) { rank.pc == Searching(i) }

  predicate Lost(rank: Rank, i: int) { i in rank.lost }

  predicate Holds(rank: Rank, i: int) { Recorded(rank, i) || InFlight(rank, i) || Lost(rank, i) }

  predicate ClaimedBy(job: Job, claims: seq<nat>, r: int, i: int) {
    0 <= i < |claims| && i < |job.ids| && claims[i] == r
  }

  /** One rank's own bookkeeping. */
  ghost predicate RankInv(job: Job, claims: seq<nat>, r: int, rank: Rank) {
    && (forall k | 0 <= k < |rank.records| ::
          && ClaimedBy(job, claims, r, rank.records[k].index)
          && Possible(job, r, rank.records[k]))
    && (forall j, k | 0 <= j < k < |rank.records| :: rank.records[j].index < rank.records[k].index)
    && (rank.pc.Searching? ==> Fresh(job, claims, r, rank, rank.pc.index))
    && |rank.lost| <= 1
    && (rank.lost != [] ==> Fresh(job, claims, r, rank, rank.lost[0]) && rank.status != Ok)
    && (Working(rank.pc) || rank.pc == Starting ==> rank.status == Ok)
    && (rank.status == Ok && Stage(rank.pc) >= 2 && !Working(rank.pc) ==> |claims| >= |job.ids|)
    && (Stage(rank.pc) < 2 ==> rank.records == [] && rank.lost == [])
  }

  /** Claimed by this rank, and later than everything it has recorded. */
  predicate Fresh(job: Job, claims: seq<nat>, r: int, rank: Rank, i: int) {
    && ClaimedBy(job, claims, r, i)
    && forall k | 0 <= k < |rank.records| :: rank.records[k].index < i
  }

  ghost predicate Possible(job: Job, r: int, record: Record) {
    exists m :: r >= 0 && (r as nat, record.index, m) in job.possible && record == RecordOf(record.index, m)
  }

  /** Every value the counter handed out is accounted for by the rank that got
      it; values past the last picture stopped ranks, each at most once. */
  predicate ClaimsInv(job: Job, claims: seq<nat>, ranks: seq<Rank>) {
    && (forall i | 0 <= i < |claims| :: claims[i] < |ranks|)
    && (forall i | 0 <= i < |claims| && i < |job.ids| :: Holds(ranks[claims[i]], i))
    && (forall i | |job.ids| <= i < |claims| :: !Working(ranks[claims[i]].pc))
    && (forall i, j | |job.ids| <= i < j < |claims| :: claims[i] != claims[j])
  }

  predicate Synchronised(job: Job, w: World)
    requires 1 <= |w.ranks|
  {
    var level := Level(job, w);
    && (forall r | 0 <= r < |w.ranks| :: w.ranks[r].passed == ORDER[..level])
    && (forall r | 1 <= r < |w.ranks| ::
          Stage(w.ranks[r].pc) == level && w.ranks[r].pc !in {Zeroing, Reserving, Assembling})
    && (!job.reserves ==> level <= 3 && w.ranks[0].pc != AtGather)
  }

  predicate CounterInv(job: Job, w: World)
    requires 1 <= |w.ranks|
  {
    && (Level(job, w) >= 2 || w.ranks[0].pc == AtBarrier ==> w.counter == |w.claims|)
    && (Level(job, w) < 2 ==> w.claims == [])
  }

  predicate StatusInv(job: Job, w: World)
    requires 1 <= |w.ranks|
  {
    && ((w.faults == 0) <==> !AnyFailed(w))
    && (Level(job, w) == 6 && AnyFailed(w) ==> forall r | 0 <= r < |w.ranks| :: w.ranks[r].status != Ok)
  }

  predicate GatherInv(job: Job, w: World)
    requires 1 <= |w.ranks|
  {
    && |w.matches| == |job.ids|
    && (Level(job, w) >= 5 ==> w.gathered == Flatten(Pieces(w), |w.ranks|))
    && (Level(job, w) >= 5 && w.ranks[0].pc != Assembling ==>
          w.matches == Placed(job.ids, Blank(job.ids), w.gathered).1)
  }

  ghost predicate Inv(job: Job, w: World) {
    && 2 <= |w.ranks| == job.world
    && Synchronised(job, w)
    && CounterInv(job, w)
    && ClaimsInv(job, w.claims, w.ranks)
    && (forall r | 0 <= r < |w.ranks| :: RankInv(job, w.claims, r, w.ranks[r]))
    && StatusInv(job, w)
    && GatherInv(job, w)
  }

  lemma StartInv(job: Job, w: World)
    requires IsStart(job, w)
    ensures Inv(job, w)
  {
  }

  /** A step of rank `r` alone that stays within its stage. */
  lemma SyncKeeps(job: Job, w: World, w': World, r: int)
    requires 2 <= |w.ranks| == |w'.ranks| && 0 <= r < |w.ranks| && Synchronised(job, w)
    requires w'.ranks == w.ranks[r := w'.ranks[r]] && w'.ranks[r].passed == w.ranks[r].passed
    requires Level(job, w') == Level(job, w)
    requires r > 0 ==> Stage(w'.ranks[r].pc) == Stage(w.ranks[r].pc)
    requires r > 0 ==> w'.ranks[r].pc !in {Zeroing, Reserving, Assembling}
    requires !job.reserves ==> w'.ranks[0].pc != AtGather
    ensures Synchronised(job, w')
  {
  }

  /** Nothing but rank `r` moved, and what it accounts for it still does. */
  lemma ClaimsKeep(job: Job, claims: seq<nat>, ranks: seq<Rank>, r: int, rank: Rank)
    requires ClaimsInv(job, claims, ranks) && 0 <= r < |ranks|
    requires forall i | Holds(ranks[r], i) :: Holds(rank, i)
    requires Working(rank.pc) ==> Working(ranks[r].pc)
    ensures ClaimsInv(job, claims, ranks[r := rank])
  {
  }

  lemma FaultsKeep(job: Job, w: World, w': World, r: int)
    requires 2 <= |w.ranks| == |w'.ranks| && 0 <= r < |w.ranks| && StatusInv(job, w)
    requires w'.ranks == w.ranks[r := w'.ranks[r]]
    requires Level(job, w') < 6
    requires (w'.faults == w.faults && (w'.ranks[r].status == Ok <==> w.ranks[r].status == Ok))
          || (w'.faults == w.faults + 1 && w'.ranks[r].status != Ok)
    ensures StatusInv(job, w')
  {
    assert w'.ranks[r].status != Ok ==> AnyFailed(w');
    if AnyFailed(w) && w'.faults == w.faults {
      var q :| 0 <= q < |w.ranks| && w.ranks[q].status != Ok;
      assert w'.ranks[q].status != Ok;
    }
  }

  /** One rank moved within its stage and no claim was made. */
  ghost predicate Moved(job: Job, w: World, w': World, r: int)
    requires 2 <= |w.ranks|
  {
    && 0 <= r < |w.ranks| == |w'.ranks| && w'.claims == w.claims
    && w'.ranks == w.ranks[r := w'.ranks[r]] && w'.ranks[r].passed == w.ranks[r].passed
    && Level(job, w') == Level(job, w) < 6
    && (!job.reserves ==> w'.ranks[0].pc != AtGather)
    && (r > 0 ==> Stage(w'.ranks[r].pc) == Stage(w.ranks[r].pc) && w'.ranks[r].pc !in {Zeroing, Reserving, Assembling})
    && (forall i | Holds(w.ranks[r], i) :: Holds(w'.ranks[r], i))
    && (Working(w'.ranks[r].pc) ==> Working(w.ranks[r].pc))
    && ((w'.faults == w.faults && (w'.ranks[r].status == Ok <==> w.ranks[r].status == Ok)) ||
        (w'.faults == w.faults + 1 && w'.ranks[r].status != Ok))
  }

  lemma MovedKeeps(job: Job, w: World, w': World, r: int)
    requires Inv(job, w) && Moved(job, w, w', r)
    requires CounterInv(job, w') && RankInv(job, w.claims, r, w'.ranks[r]) && GatherInv(job, w')
    ensures Inv(job, w')
  {
    SyncKeeps(job, w, w', r);
    ClaimsKeep(job, w.claims, w.ranks, r, w'.ranks[r]);
    FaultsKeep(job, w, w', r);
  }

  lemma BeginKeeps(job: Job, w: World, e: Event)
    requires Inv(job, w) && e.Begin? && Enabled(job, w, e)
    ensures Inv(job, Apply(job, w, e))
  {
    assert RankInv(job, w.claims, e.r, w.ranks[e.r]);
    MovedKeeps(job, w, Apply(job, w, e), e.r);
  }

  lemma ZeroKeeps(job: Job, w: World, e: Event)
    requires Inv(job, w) && e.Zero? && Enabled(job, w, e)
    ensures Inv(job, Apply(job, w, e))
  {
    assert RankInv(job, w.claims, 0, w.ranks[0]);
    MovedKeeps(job, w, Apply(job, w, e), 0);
  }

  lemma ReserveKeeps(job: Job, w: World, e: Event)
    requires Inv(job, w) && e.Reserve? && Enabled(job, w, e)
    ensures Inv(job, Apply(job, w, e))
  {
    var rank, now := w.ranks[0], Apply(job, w, e).ranks[0];
    assert RankInv(job, w.claims, 0, rank);
    SettledRank(job, w.claims, 0, rank, now.pc, now.status);
    assert now == rank.(pc := now.pc, status := now.status);
    MovedKeeps(job, w, Apply(job, w, e), 0);
  }

  lemma WorkingLevel(job: Job, w: World, r: int)
    requires Inv(job, w) && 0 <= r < |w.ranks| && Working(w.ranks[r].pc)
    ensures Level(job, w) == 2 && w.counter == |w.claims|
  {
  }

  /** The index in flight becomes the last record. */
  lemma AnswerRank(job: Job, claims: seq<nat>, r: int, rank: Rank, m: Match)
    requires RankInv(job, claims, r, rank) && rank.pc.Searching? && r >= 0
    requires (r as nat, rank.pc.index, m) in job.possible
    ensures var rank' := rank.(pc := Claiming, records := rank.records + [RecordOf(rank.pc.index, m)]);
            RankInv(job, claims, r, rank') && forall i | Holds(rank, i) :: Holds(rank', i)
  {
    var index := rank.pc.index;
    var rank' := rank.(pc := Claiming, records := rank.records + [RecordOf(index, m)]);
    assert Possible(job, r, RecordOf(index, m));
    assert rank'.records[|rank.records|].index == index && Covers(rank'.records, index);
    forall i | Recorded(rank, i)
      ensures Recorded(rank', i)
    {
      var k :| 0 <= k < |rank.records| && rank.records[k].index == i;
      assert rank'.records[k].index == i;
    }
  }

  lemma AnswerKeeps(job: Job, w: World, e: Event)
    requires Inv(job, w) && e.Answer? && Enabled(job, w, e)
    ensures Inv(job, Apply(job, w, e))
  {
    assert RankInv(job, w.claims, e.r, w.ranks[e.r]);
    WorkingLevel(job, w, e.r);
    AnswerRank(job, w.claims, e.r, w.ranks[e.r], e.m);
    MovedKeeps(job, w, Apply(job, w, e), e.r);
  }

  /** The index in flight is lost; the rank is marked and claims no more. */
  lemma FailRank(job: Job, claims: seq<nat>, r: int, rank: Rank, outcome: Status)
    requires RankInv(job, claims, r, rank) && rank.pc.Searching? && outcome != Ok
    ensures var rank' := rank.(pc := AtFree, status := outcome, lost := [rank.pc.index]);
            RankInv(job, claims, r, rank') && forall i | Holds(rank, i) :: Holds(rank', i)
  {
    assert rank.lost == [];
  }

  lemma FailKeeps(job: Job, w: World, e: Event)
    requires Inv(job, w) && e.Fail? && Enabled(job, w, e)
    ensures Inv(job, Apply(job, w, e))
  {
    assert RankInv(job, w.claims, e.r, w.ranks[e.r]);
    WorkingLevel(job, w, e.r);
    FailRank(job, w.claims, e.r, w.ranks[e.r], e.outcome);
    MovedKeeps(job, w, Apply(job, w, e), e.r);
  }

  lemma RankInvGrows(job: Job, claims: seq<nat>, q: nat, r: int, rank: Rank)
    requires RankInv(job, claims, r, rank)
    ensures RankInv(job, claims + [q], r, rank)
  {
  }

  lemma ClaimExtends(job: Job, claims: seq<nat>, ranks: seq<Rank>, r: nat, rank: Rank)
    requires ClaimsInv(job, claims, ranks) && r < |ranks| && ranks[r].pc == Claiming
    requires rank == ranks[r].(pc := if |claims| >= |job.ids| then AtFree else Searching(|claims|))
    ensures ClaimsInv(job, claims + [r], ranks[r := rank])
  {
    var ranks' := ranks[r := rank];
    assert forall i | Holds(ranks[r], i) :: Holds(rank, i);
    forall i | 0 <= i < |claims| + 1 && i < |job.ids|
      ensures Holds(ranks'[(claims + [r])[i]], i)
    {
      if i < |claims| {
        assert Holds(ranks[claims[i]], i);
      }
    }
  }

  lemma ClaimRank(job: Job, claims: seq<nat>, r: nat, rank: Rank)
    requires RankInv(job, claims, r, rank) && rank.pc == Claiming
    ensures RankInv(job, claims + [r], r,
                    rank.(pc := if |claims| >= |job.ids| then AtFree else Searching(|claims|)))
  {
    RankInvGrows(job, claims, r, r, rank);
  }

  lemma ClaimKeeps(job: Job, w: World, e: Event)
    requires Inv(job, w) && e.Claim? && Enabled(job, w, e)
    ensures Inv(job, Apply(job, w, e))
  {
    var w', r := Apply(job, w, e), e.r;
    assert RankInv(job, w.claims, r, w.ranks[r]);
    WorkingLevel(job, w, r);
    SyncKeeps(job, w, w', r);
    FaultsKeep(job, w, w', r);
    ClaimExtends(job, w.claims, w.ranks, r, w'.ranks[r]);
    forall q | 0 <= q < |w.ranks|
      ensures RankInv(job, w'.claims, q, w'.ranks[q])
    {
      if q == r {
        ClaimRank(job, w.claims, r, w.ranks[r]);
      } else {
        RankInvGrows(job, w.claims, r, q, w.ranks[q]);
      }
    }
  }

  // -------------------------------------------------------------- collectives

  lemma OrderAt(pc: Pc)
    requires Waiting(pc)
    ensures Stage(pc) < |ORDER| && ORDER[Stage(pc)] == pc
    ensures ORDER[..Stage(pc) + 1] == ORDER[..Stage(pc)] + [pc]
  {
  }

  /** A collective completes only when no rank has skipped one. */
  lemma CollectiveLevel(job: Job, w: World, e: Event)
    requires Inv(job, w) && e.Collective? && Enabled(job, w, e)
    ensures !Skipped(job, w) && Level(job, w) == Stage(w.ranks[0].pc)
    ensures !job.reserves ==> Level(job, w) < 3
  {
    assert w.ranks[1].pc == w.ranks[0].pc && Stage(w.ranks[1].pc) == Level(job, w);
  }

  lemma CollectiveSync(job: Job, w: World, e: Event)
    requires Inv(job, w) && e.Collective? && Enabled(job, w, e)
    ensures var w' := Apply(job, w, e);
            && |w'.ranks| == |w.ranks| && Synchronised(job, w')
            && !Skipped(job, w) && Level(job, w') == Level(job, w) + 1
  {
    var w' := Apply(job, w, e);
    var pc := w.ranks[0].pc;
    CollectiveLevel(job, w, e);
    OrderAt(pc);
    forall r | 0 <= r < |w'.ranks|
      ensures w'.ranks[r] == Through(w, r)
      ensures Stage(w'.ranks[r].pc) == Stage(pc) + 1
      ensures r > 0 ==> w'.ranks[r].pc !in {Zeroing, Reserving, Assembling}
      ensures w'.ranks[r].passed == ORDER[..Stage(pc)] + [pc]
    {
      AfterStage(r, w.ranks[r]);
    }
    AfterStage(0, w.ranks[0]);
  }

  lemma AfterStage(r: int, rank: Rank)
    requires Waiting(rank.pc)
    ensures Stage(After(r, rank)) == Stage(rank.pc) + 1
    ensures r > 0 ==> After(r, rank) !in {Zeroing, Reserving, Assembling}
    ensures r == 0 ==> After(r, rank) !in {AtGather, AtReduce}
  {
  }

  lemma ThroughRank(job: Job, w: World, r: int)
    requires 0 <= r < |w.ranks| && Waiting(w.ranks[r].pc) && RankInv(job, w.claims, r, w.ranks[r])
    requires w.ranks[r].pc == AtBarrier ==> w.claims == []
    ensures RankInv(job, w.claims, r, Through(w, r))
    ensures forall i | Holds(w.ranks[r], i) :: Holds(Through(w, r), i)
    ensures Working(Through(w, r).pc) ==> w.claims == []
    ensures Through(w, r).records == w.ranks[r].records
  {
  }

  lemma CollectiveRanks(job: Job, w: World, e: Event)
    requires Inv(job, w) && e.Collective? && Enabled(job, w, e)
    ensures var w' := Apply(job, w, e);
            && (forall r | 0 <= r < |w'.ranks| :: RankInv(job, w'.claims, r, w'.ranks[r]))
            && ClaimsInv(job, w'.claims, w'.ranks)
            && Pieces(w') == Pieces(w)
  {
    var w' := Apply(job, w, e);
    forall r | 0 <= r < |w'.ranks|
      ensures w'.ranks[r] == Through(w, r)
      ensures RankInv(job, w'.claims, r, w'.ranks[r])
      ensures forall i | Holds(w.ranks[r], i) :: Holds(w'.ranks[r], i)
      ensures Working(w'.ranks[r].pc) ==> w.claims == []
    {
      assert RankInv(job, w.claims, r, w.ranks[r]);
      ThroughRank(job, w, r);
    }
  }

  lemma CollectiveStatus(job: Job, w: World, e: Event)
    requires Inv(job, w) && e.Collective? && Enabled(job, w, e)
    ensures StatusInv(job, Apply(job, w, e))
  {
    var w' := Apply(job, w, e);
    CollectiveSync(job, w, e);
    if AnyFailed(w) {
      var r :| 0 <= r < |w.ranks| && w.ranks[r].status != Ok;
      assert w'.ranks[r] == Through(w, r);
      assert AnyFailed(w');
    }
    forall r | 0 <= r < |w'.ranks|
      ensures w'.ranks[r].status != Ok ==> AnyFailed(w)
      ensures Level(job, w') == 6 && AnyFailed(w) ==> w'.ranks[r].status != Ok
    {
      assert w'.ranks[r] == Through(w, r);
    }
  }

  lemma CollectiveKeeps(job: Job, w: World, e: Event)
    requires Inv(job, w) && e.Collective? && Enabled(job, w, e)
    ensures Inv(job, Apply(job, w, e))
  {
    CollectiveSync(job, w, e);
    CollectiveRanks(job, w, e);
    CollectiveStatus(job, w, e);
  }

  /** The records of the first `n` ranks: in range, and no index twice, because
      each was handed to one rank only. */
  lemma {:induction false} PiecesSound(job: Job, w: World, n: nat)
    requires Inv(job, w) && n <= |w.ranks|
    ensures HandedOut(job, w.claims, Flatten(Pieces(w), n), n) && Distinct(Flatten(Pieces(w), n))
  {
    if n > 0 {
      PiecesSound(job, w, n - 1);
      assert RankInv(job, w.claims, n - 1, w.ranks[n - 1]);
      PieceJoins(job, w.claims, Flatten(Pieces(w), n - 1), n - 1, w.ranks[n - 1]);
    }
  }

  ghost predicate HandedOut(job: Job, claims: seq<nat>, g: seq<Record>, n: nat) {
    forall a | 0 <= a < |g| ::
      && 0 <= g[a].index < |claims| && g[a].index < |job.ids|
      && claims[g[a].index] < n && Possible(job, claims[g[a].index], g[a])
  }

  lemma PieceJoins(job: Job, claims: seq<nat>, g: seq<Record>, r: nat, rank: Rank)
    requires HandedOut(job, claims, g, r) && Distinct(g) && RankInv(job, claims, r, rank)
    ensures HandedOut(job, claims, g + rank.records, r + 1) && Distinct(g + rank.records)
  {
    var all := g + rank.records;
    forall a, b | 0 <= a < b < |all|
      ensures all[a].index != all[b].index
    {
      if |g| <= b {
        assert ClaimedBy(job, claims, r, rank.records[b - |g|].index);
      }
    }
  }

  /** Everything that is gathered is in range and unique, and so fits the buffer
      of num_pictures records; so does what any one rank sends. */
  lemma GatherFits(job: Job, w: World)
    requires Inv(job, w)
    ensures var g := Flatten(Pieces(w), |w.ranks|);
            InRange(job.ids, g) && Distinct(g) && |g| <= |job.ids|
    ensures forall r | 0 <= r < |w.ranks| :: |w.ranks[r].records| <= |job.ids|
  {
    PiecesSound(job, w, |w.ranks|);
    DistinctFits(Flatten(Pieces(w), |w.ranks|), |job.ids|);
    forall r | 0 <= r < |w.ranks|
      ensures |w.ranks[r].records| <= |job.ids|
    {
      assert RankInv(job, w.claims, r, w.ranks[r]);
      DistinctFits(w.ranks[r].records, |job.ids|);
    }
  }

  lemma PlacedOk(ids: seq<int>, records: seq<Record>)
    requires InRange(ids, records) && Distinct(records)
    ensures Placed(ids, Blank(ids), records).0 == Ok
  {
    if ids != [] {
      PlacedAt(ids, Blank(ids), records, 0);
    }
  }

  lemma AssemblyIsOk(job: Job, w: World)
    requires Inv(job, w) && w.ranks[0].pc == Assembling
    ensures Level(job, w) == 5 && Placed(job.ids, Blank(job.ids), w.gathered).0 == Ok
  {
    GatherFits(job, w);
    PlacedOk(job.ids, w.gathered);
  }

  /** A rank that has done its work may move on and report a failure. */
  lemma SettledRank(job: Job, claims: seq<nat>, r: int, rank: Rank, pc: Pc, status: Status)
    requires RankInv(job, claims, r, rank) && Stage(rank.pc) >= 3 && Stage(pc) >= 3
    requires status == Ok ==> rank.status == Ok
    ensures RankInv(job, claims, r, rank.(pc := pc, status := status))
  {
  }

  lemma AssembledRank(job: Job, w: World, e: Event)
    requires Inv(job, w) && e.Assemble? && Enabled(job, w, e)
    ensures RankInv(job, w.claims, 0, Apply(job, w, e).ranks[0])
  {
    var rank, now := w.ranks[0], Apply(job, w, e).ranks[0];
    assert RankInv(job, w.claims, 0, rank);
    SettledRank(job, w.claims, 0, rank, AtReduce, now.status);
    assert now == rank.(pc := AtReduce, status := now.status);
  }

  lemma AssemblyMoves(job: Job, w: World, e: Event)
    requires Inv(job, w) && e.Assemble? && Enabled(job, w, e)
    requires Level(job, w) == 5 && Placed(job.ids, Blank(job.ids), w.gathered).0 == Ok
    ensures Moved(job, w, Apply(job, w, e), 0)
  {
    var rank, now := w.ranks[0], Apply(job, w, e).ranks[0];
    assert now == rank.(pc := AtReduce, status := now.status) && (now.status == Ok <==> rank.status == Ok);
  }

  lemma AssemblyGathers(job: Job, w: World, e: Event)
    requires Inv(job, w) && e.Assemble? && Enabled(job, w, e)
    requires Level(job, w) == 5
    ensures CounterInv(job, Apply(job, w, e)) && GatherInv(job, Apply(job, w, e))
  {
    assert Pieces(Apply(job, w, e)) == Pieces(w);
  }

  /** The out-of-range branch of the assembly is never taken. */
  lemma AssembleKeeps(job: Job, w: World, e: Event)
    requires Inv(job, w) && e.Assemble? && Enabled(job, w, e)
    ensures Inv(job, Apply(job, w, e))
  {
    AssemblyIsOk(job, w);
    AssembledRank(job, w, e);
    AssemblyMoves(job, w, e);
    AssemblyGathers(job, w, e);
    MovedKeeps(job, w, Apply(job, w, e), 0);
  }

  lemma StepKeepsInv(job: Job, w: World, e: Event)
    requires Inv(job, w) && Enabled(job, w, e)
    ensures Inv(job, Apply(job, w, e))
  {
    match e
    case Begin(_, _) => BeginKeeps(job, w, e);
    case Collective => CollectiveKeeps(job, w, e);
    case Zero => ZeroKeeps(job, w, e);
    case Claim(_) => ClaimKeeps(job, w, e);
    case Answer(_, _) => AnswerKeeps(job, w, e);
    case Fail(_, _) => FailKeeps(job, w, e);
    case Reserve => ReserveKeeps(job, w, e);
    case Assemble => AssembleKeeps(job, w, e);
  }

  lemma {:induction false} RunKeepsInv(job: Job, run: seq<World>)
    requires IsRun(job, run)
    ensures Inv(job, run[|run| - 1])
    decreases |run|
  {
    var last := |run| - 1;
    if last == 0 {
      StartInv(job, run[0]);
    } else {
      RunKeepsInv(job, run[..last]);
      assert StepsTo(job, run[last - 1], run[last - 1 + 1]);
      var e :| Enabled(job, run[last - 1], e) && run[last] == Apply(job, run[last - 1], e);
      StepKeepsInv(job, run[last - 1], e);
    }
  }

  // ----------------------------------------------------------------- results

  /** Rank 0 has stored zero in the counter; before that nobody can claim. */
  predicate Zeroed(w: World)
    requires 1 <= |w.ranks|
  {
    w.ranks[0].pc !in {Starting, AtAllocate, Zeroing}
  }

  /** How many values the counter has handed out. */
  function HandedOutBy(w: World): int
    requires 1 <= |w.ranks|
  {
    if Zeroed(w) then w.counter else 0
  }

  predicate SomeHolds(w: World, i: int) { exists r :: 0 <= r < |w.ranks| && Holds(w.ranks[r], i) }

  /** Rank `rank` has index `i` in one way only, and a lost one makes it fail. */
  predicate HoldsOnce(rank: Rank, i: int) {
    && !(Recorded(rank, i) && InFlight(rank, i))
    && !(Recorded(rank, i) && Lost(rank, i))
    && !(InFlight(rank, i) && Lost(rank, i))
    && (Lost(rank, i) ==> rank.status != Ok)
  }

  lemma CounterCounts(job: Job, w: World)
    requires Inv(job, w)
    ensures HandedOutBy(w) == |w.claims|
  {
  }

  /** Claim conservation: the indices handed out are exactly [0, min(counter, P)),
      each to exactly one rank, which has recorded it, is searching it, or lost it
      and reports a failure. The counter never passes P + world. */
  lemma ClaimConservation(job: Job, run: seq<World>)
    requires IsRun(job, run)
    ensures var w := run[|run| - 1];
            && |w.ranks| == job.world >= 2
            && 0 <= HandedOutBy(w) <= |job.ids| + job.world
            && (forall i :: SomeHolds(w, i) <==> 0 <= i < |job.ids| && i < HandedOutBy(w))
            && (forall i, q, r | 0 <= q < |w.ranks| && 0 <= r < |w.ranks| ::
                  Holds(w.ranks[q], i) && Holds(w.ranks[r], i) ==> q == r)
            && (forall i, r | 0 <= r < |w.ranks| :: HoldsOnce(w.ranks[r], i))
  {
    RunKeepsInv(job, run);
    var w := run[|run| - 1];
    ClaimsBounded(job, w);
    CounterCounts(job, w);
    forall i, r | 0 <= r < |w.ranks|
      ensures Holds(w.ranks[r], i) <==> ClaimedBy(job, w.claims, r, i)
      ensures HoldsOnce(w.ranks[r], i)
    {
      RankHolds(job, w, r, i);
    }
    forall i
      ensures SomeHolds(w, i) <==> 0 <= i < |job.ids| && i < HandedOutBy(w)
    {
      if 0 <= i < |job.ids| && i < HandedOutBy(w) {
        assert Holds(w.ranks[w.claims[i]], i);
      }
    }
  }

  lemma RankHolds(job: Job, w: World, r: int, i: int)
    requires Inv(job, w) && 0 <= r < |w.ranks|
    ensures Holds(w.ranks[r], i) <==> ClaimedBy(job, w.claims, r, i)
    ensures HoldsOnce(w.ranks[r], i)
  {
    assert RankInv(job, w.claims, r, w.ranks[r]);
  }

  lemma ClaimsBounded(job: Job, w: World)
    requires Inv(job, w)
    ensures |w.claims| <= |job.ids| + job.world
  {
    if |w.claims| > |job.ids| {
      var late := w.claims[|job.ids|..];
      forall a | 0 <= a < |late|
        ensures late[a] == w.claims[|job.ids| + a]
      {
      }
      Pigeonhole(late, job.world);
    }
  }

  /** A rank that leaves the claim loop without a failure leaves nothing unclaimed,
      whatever happened to the others. */
  lemma HealthyRankDrains(job: Job, run: seq<World>, r: int)
    requires IsRun(job, run)
    requires var w := run[|run| - 1];
             0 <= r < |w.ranks| && w.ranks[r].status == Ok && Stage(w.ranks[r].pc) >= 2 && !Working(w.ranks[r].pc)
    ensures var w := run[|run| - 1];
            && |w.ranks| >= 2 && HandedOutBy(w) >= |job.ids|
            && forall i | 0 <= i < |job.ids| :: SomeHolds(w, i)
  {
    RunKeepsInv(job, run);
    assert RankInv(job, run[|run| - 1].claims, r, run[|run| - 1].ranks[r]);
    CounterCounts(job, run[|run| - 1]);
    ClaimConservation(job, run);
  }

  /** Every backend answers with the match expected for the picture. */
  ghost predicate Contract(job: Job, expected: seq<Match>) {
    && |expected| == |job.ids|
    && (forall i | 0 <= i < |expected| :: expected[i].pictureId == job.ids[i])
    && (forall r, i, m | (r, i, m) in job.possible && 0 <= i < |expected| :: m == expected[i])
  }

  predicate SomeRecorded(w: World, i: int) { exists r :: 0 <= r < |w.ranks| && Recorded(w.ranks[r], i) }

  lemma {:induction false} FlattenCovers(w: World, n: nat, i: int)
    requires n <= |w.ranks|
    ensures Covers(Flatten(Pieces(w), n), i) <==> exists r :: 0 <= r < n && Recorded(w.ranks[r], i)
  {
    if n > 0 {
      FlattenCovers(w, n - 1, i);
      var g, mine := Flatten(Pieces(w), n - 1), w.ranks[n - 1].records;
      if Covers(g, i) {
        var a :| 0 <= a < |g| && g[a].index == i;
        assert (g + mine)[a].index == i;
      }
      if Covers(mine, i) {
        var a :| 0 <= a < |mine| && mine[a].index == i;
        assert (g + mine)[|g| + a].index == i;
      }
      if Covers(g + mine, i) {
        var a :| 0 <= a < |g + mine| && (g + mine)[a].index == i;
        assert if a < |g| then Covers(g, i) else mine[a - |g|].index == i;
      }
    }
  }

  /** Rank 0's array: the expected match wherever some rank recorded one, "no
      match" elsewhere, whatever the order in which records arrived. */
  lemma AssembledAt(job: Job, w: World, expected: seq<Match>, i: int)
    requires Inv(job, w) && AllAt(w, Done) && Contract(job, expected) && 0 <= i < |job.ids|
    ensures |w.matches| == |job.ids|
    ensures w.matches[i] == if SomeRecorded(w, i) then expected[i] else MatchNone(job.ids[i])
  {
    var g := Flatten(Pieces(w), |w.ranks|);
    assert Level(job, w) == 6;
    GatherFits(job, w);
    PiecesSound(job, w, |w.ranks|);
    PlacedAt(job.ids, Blank(job.ids), g, i);
    FlattenCovers(w, |w.ranks|, i);
    if Covers(g, i) {
      var a :| 0 <= a < |g| && g[a].index == i;
      var r := w.claims[g[a].index];
      var m :| (r, i, m) in job.possible && g[a] == RecordOf(i, m);
      assert m == expected[i];
    }
  }

  /** The end of every run: all ranks have passed the same collectives, all agree
      on the outcome, success means that no fault happened, and then rank 0 holds
      every expected match. With faults it still holds each match that was
      recorded, and "no match" for the rest. */
  lemma RunResult(job: Job, run: seq<World>, expected: seq<Match>)
    requires IsRun(job, run) && AllAt(run[|run| - 1], Done) && Contract(job, expected)
    ensures var w := run[|run| - 1];
            && |w.ranks| == job.world && |w.matches| == |job.ids|
            && (forall r | 0 <= r < |w.ranks| :: w.ranks[r].passed == ORDER)
            && (forall r | 0 <= r < |w.ranks| :: w.ranks[r].status == Ok <==> w.faults == 0)
            && (w.faults == 0 ==> w.matches == expected)
            && (forall i | 0 <= i < |job.ids| ::
                  w.matches[i] == if SomeRecorded(w, i) then expected[i] else MatchNone(job.ids[i]))
  {
    RunKeepsInv(job, run);
    var w := run[|run| - 1];
    assert Level(job, w) == 6 && ORDER[..6] == ORDER;
    forall i | 0 <= i < |job.ids|
      ensures w.matches[i] == if SomeRecorded(w, i) then expected[i] else MatchNone(job.ids[i])
      ensures w.faults == 0 ==> w.matches[i] == expected[i]
    {
      AssembledAt(job, w, expected, i);
      if w.faults == 0 {
        AllRecorded(job, w, i);
      }
    }
    AllAgree(job, w);
  }

  /** An error is kept: once a rank's status is an error, no step changes it; and a
      step that gives a rank an error from outside gives ErrBackend. */
  lemma ErrorStays(job: Job, w: World, e: Event, r: int)
    requires Inv(job, w) && Enabled(job, w, e) && 0 <= r < |w.ranks|
    ensures var w' := Apply(job, w, e);
            && |w'.ranks| == |w.ranks|
            && (w.ranks[r].status != Ok ==> w'.ranks[r].status == w.ranks[r].status)
            && (w.ranks[r].status == Ok && w'.ranks[r].status != Ok && w'.faults == w.faults ==>
                  w'.ranks[r].status == ErrBackend && AnyFailed(w))
  {
    assert RankInv(job, w.claims, r, w.ranks[r]);
    if e.Assemble? {
      AssemblyIsOk(job, w);
    }
  }

  predicate Reports(w: World, r: int, status: Status) { 0 <= r < |w.ranks| && w.ranks[r].status == status }

  /** So over a whole run: the first error of a rank is the one it reports. */
  lemma {:induction false} FirstErrorIsReported(job: Job, run: seq<World>, i: int, r: int, error: Status)
    requires IsRun(job, run) && 0 <= i < |run| && Reports(run[i], r, error) && error != Ok
    ensures Reports(run[|run| - 1], r, error)
    decreases |run|
  {
    var last := |run| - 1;
    if i < last {
      var before := run[..last];
      ShorterRun(job, run);
      assert before[|before| - 1] == run[last - 1] && before[i] == run[i];
      FirstErrorIsReported(job, before, i, r, error);
      LastStepKeepsError(job, run, r, error);
    }
  }

  /** A run without its last step. */
  lemma ShorterRun(job: Job, run: seq<World>)
    requires IsRun(job, run) && |run| > 1
    ensures IsRun(job, run[..|run| - 1])
  {
  }

  lemma LastStepKeepsError(job: Job, run: seq<World>, r: int, error: Status)
    requires IsRun(job, run) && |run| > 1 && Reports(run[|run| - 2], r, error) && error != Ok
    ensures Reports(run[|run| - 1], r, error)
  {
    var last := |run| - 1;
    ShorterRun(job, run);
    RunKeepsInv(job, run[..last]);
    assert StepsTo(job, run[last - 1], run[last - 1 + 1]);
    NextErrorStays(job, run[last - 1], run[last], r, error);
  }

  lemma NextErrorStays(job: Job, w: World, w': World, r: int, error: Status)
    requires Inv(job, w) && StepsTo(job, w, w') && Reports(w, r, error) && error != Ok
    ensures Reports(w', r, error)
  {
    var e :| Enabled(job, w, e) && w' == Apply(job, w, e);
    ErrorStays(job, w, e, r);
  }

  lemma AllAgree(job: Job, w: World)
    requires Inv(job, w) && AllAt(w, Done)
    ensures forall r | 0 <= r < |w.ranks| :: w.ranks[r].status == Ok <==> w.faults == 0
  {
    assert Level(job, w) == 6;
  }

  /** Without a fault every picture ends up in some rank's records. */
  lemma AllRecorded(job: Job, w: World, i: int)
    requires Inv(job, w) && AllAt(w, Done) && w.faults == 0 && 0 <= i < |job.ids|
    ensures SomeRecorded(w, i)
  {
    AllAgree(job, w);
    assert RankInv(job, w.claims, 0, w.ranks[0]);
    var r := w.claims[i];
    assert RankInv(job, w.claims, r, w.ranks[r]);
    assert Holds(w.ranks[r], i);
  }

  // ------------------------------------------------- progress and termination

  function Weight(pc: Pc): nat {
    match pc
    case Starting => 12 case AtAllocate => 11 case Zeroing => 10 case AtBarrier => 9
    case Searching(_) => 8 case Claiming => 7 case AtFree => 6 case Reserving => 5
    case AtGather => 4 case AtGatherv => 3 case Assembling => 2 case AtReduce => 1 case Done => 0
  }

  function Weights(ranks: seq<Rank>): seq<nat> {
    seq(|ranks|, r requires 0 <= r < |ranks| => Weight(ranks[r].pc))
  }

  /** Work left: every step pays for itself, a claim out of the indices that the
      counter can still hand out. */
  function Owed(job: Job, w: World): int {
    Total(Weights(w.ranks)) + 2 * (|job.ids| + job.world - |w.claims|)
  }

  lemma MovePays(ranks: seq<Rank>, r: int, rank: Rank)
    requires 0 <= r < |ranks| && Weight(rank.pc) < Weight(ranks[r].pc)
    ensures Total(Weights(ranks[r := rank])) < Total(Weights(ranks))
  {
    TotalDrops(Weights(ranks), r, Weight(rank.pc));
    assert Weights(ranks[r := rank]) == Weights(ranks)[r := Weight(rank.pc)];
  }

  /** A claim may raise a rank's weight by one, and uses up a claim. */
  lemma ClaimPays(ranks: seq<Rank>, r: int, rank: Rank)
    requires 0 <= r < |ranks| && Weight(rank.pc) <= Weight(ranks[r].pc) + 1
    ensures Total(Weights(ranks[r := rank])) <= Total(Weights(ranks)) + 1
  {
    var ws := Weights(ranks);
    var raised := ws[r := ws[r] + 2];
    TotalDrops(raised, r, Weight(rank.pc));
    assert Weights(ranks[r := rank]) == raised[r := Weight(rank.pc)];
    TotalRaise(ws, r, 2);
  }

  lemma {:induction false} TotalRaise(work: seq<nat>, i: int, more: nat)
    requires 0 <= i < |work|
    ensures Total(work[i := work[i] + more]) == Total(work) + more
  {
    if i > 0 {
      TotalRaise(work[1..], i - 1, more);
      assert work[i := work[i] + more][1..] == work[1..][i - 1 := work[1..][i - 1] + more];
    } else {
      assert work[i := work[i] + more][1..] == work[1..];
    }
  }

  lemma CollectivePays(job: Job, w: World, e: Event)
    requires e.Collective? && Enabled(job, w, e)
    ensures Owed(job, Apply(job, w, e)) < Owed(job, w)
  {
    var ranks' := Apply(job, w, e).ranks;
    forall r | 0 <= r < |w.ranks|
      ensures Weights(ranks')[r] < Weights(w.ranks)[r]
    {
      assert ranks'[r] == Through(w, r);
    }
    TotalLess(Weights(ranks'), Weights(w.ranks));
  }

  lemma StepPays(job: Job, w: World, e: Event)
    requires Enabled(job, w, e)
    ensures Owed(job, Apply(job, w, e)) < Owed(job, w)
  {
    if e.Collective? {
      CollectivePays(job, w, e);
    } else if e.Claim? {
      ClaimPays(w.ranks, e.r, Apply(job, w, e).ranks[e.r]);
    } else {
      var r := if e.Begin? || e.Answer? || e.Fail? then e.r else 0;
      var rank := Apply(job, w, e).ranks[r];
      assert Apply(job, w, e).ranks == w.ranks[r := rank];
      MovePays(w.ranks, r, rank);
    }
  }

  /** Every rank's backend can answer for every picture. */
  ghost predicate Answers(job: Job) {
    forall r: nat, i: int | r < job.world && 0 <= i < |job.ids| :: CanAnswer(job, r, i)
  }

  ghost predicate CanAnswer(job: Job, r: nat, i: int) { exists m :: (r, i, m) in job.possible }

  predicate IsFault(job: Job, e: Event) {
    e.Fail? || (e.Begin? && e.outcome != Ok) || (e.Reserve? && !job.reserves)
  }

  /** A rank that is not waiting for others has a step of its own. */
  lemma LocalProgress(job: Job, w: World, r: int) returns (e: Event)
    requires Inv(job, w) && job.reserves && Answers(job)
    requires 0 <= r < |w.ranks| && !Waiting(w.ranks[r].pc) && w.ranks[r].pc != Done
    ensures Enabled(job, w, e) && !IsFault(job, e)
  {
    assert RankInv(job, w.claims, r, w.ranks[r]);
    match w.ranks[r].pc
    case Starting => e := Begin(r, Ok);
    case Zeroing => e := Zero;
    case Claiming => e := Claim(r);
    case Searching(i) =>
      assert CanAnswer(job, r, i);
      var m :| (r as nat, i, m) in job.possible;
      e := Answer(r, m);
    case Reserving => e := Reserve;
    case Assembling => e := Assemble;
  }

  lemma WaitingTogether(job: Job, w: World)
    requires Inv(job, w) && job.reserves && !AllAt(w, Done)
    requires forall r | 0 <= r < |w.ranks| :: Waiting(w.ranks[r].pc) || w.ranks[r].pc == Done
    ensures Waiting(w.ranks[0].pc) && AllAt(w, w.ranks[0].pc)
  {
    forall r | 0 <= r < |w.ranks|
      ensures w.ranks[r].pc == w.ranks[0].pc
    {
      SameStage(w.ranks[r].pc, w.ranks[0].pc);
    }
  }

  /** No deadlock: while rank 0's buffers can be allocated and not all ranks are
      done, some step other than a fault is enabled. */
  lemma Progress(job: Job, w: World) returns (e: Event)
    requires Inv(job, w) && job.reserves && Answers(job) && !AllAt(w, Done)
    ensures Enabled(job, w, e) && !IsFault(job, e)
  {
    if r :| 0 <= r < |w.ranks| && !Waiting(w.ranks[r].pc) && w.ranks[r].pc != Done {
      e := LocalProgress(job, w, r);
    } else {
      WaitingTogether(job, w);
      e := Collective;
    }
  }

  lemma SameStage(a: Pc, b: Pc)
    requires (Waiting(a) || a == Done) && (Waiting(b) || b == Done) && Stage(a) == Stage(b)
    ensures a == b
  {
  }

  lemma ExtendRun(job: Job, run: seq<World>, e: Event)
    requires IsRun(job, run) && Enabled(job, run[|run| - 1], e)
    ensures IsRun(job, run + [Apply(job, run[|run| - 1], e)])
  {
    var w := run[|run| - 1];
    var more := run + [Apply(job, w, e)];
    assert StepsTo(job, w, Apply(job, w, e));
    forall i | 0 <= i < |more| - 1
      ensures StepsTo(job, more[i], more[i + 1])
    {
      if i < |run| - 1 {
        assert StepsTo(job, run[i], run[i + 1]);
      }
    }
  }

  /** One more step, which is paid for. */
  lemma RunGoesOn(job: Job, run: seq<World>) returns (w: World)
    requires IsRun(job, run) && job.reserves && Answers(job) && !AllAt(run[|run| - 1], Done)
    ensures IsRun(job, run + [w])
    ensures 0 <= Owed(job, w) < Owed(job, run[|run| - 1])
  {
    RunKeepsInv(job, run);
    var e := Progress(job, run[|run| - 1]);
    StepPays(job, run[|run| - 1], e);
    ExtendRun(job, run, e);
    w := Apply(job, run[|run| - 1], e);
    StepKeepsInv(job, run[|run| - 1], e);
    ClaimsBounded(job, w);
  }

  /** From every reachable state the run can be completed. */
  lemma {:induction false} RunCompletes(job: Job, run: seq<World>) returns (full: seq<World>)
    requires IsRun(job, run) && job.reserves && Answers(job)
    ensures IsRun(job, full) && run <= full && AllAt(full[|full| - 1], Done)
    decreases Owed(job, run[|run| - 1])
  {
    if AllAt(run[|run| - 1], Done) {
      return run;
    }
    var w := RunGoesOn(job, run);
    full := RunCompletes(job, run + [w]);
  }

  lemma {:induction false} RunOwes(job: Job, run: seq<World>)
    requires IsRun(job, run)
    ensures |run| - 1 + Owed(job, run[|run| - 1]) <= 14 * job.world + 2 * |job.ids|
    decreases |run|
  {
    var last := |run| - 1;
    if last == 0 {
      TotalBound(Weights(run[0].ranks), 12);
    } else {
      RunOwes(job, run[..last]);
      assert StepsTo(job, run[last - 1], run[last - 1 + 1]);
      var e :| Enabled(job, run[last - 1], e) && run[last] == Apply(job, run[last - 1], e);
      StepPays(job, run[last - 1], e);
    }
  }

  /** No run is longer than 14 steps a rank and 2 a picture. */
  lemma RunBounded(job: Job, run: seq<World>)
    requires IsRun(job, run)
    ensures |run| - 1 <= 14 * job.world + 2 * |job.ids|
  {
    RunOwes(job, run);
    RunKeepsInv(job, run);
    ClaimsBounded(job, run[|run| - 1]);
  }

  ghost predicate Completes(job: Job, run: seq<World>, full: seq<World>) {
    IsRun(job, full) && run <= full && AllAt(full[|full| - 1], Done)
  }

  /** Rank 0 goes past both gathers while every other rank waits in the first: as
      collectives synchronise here, nobody is ever done. */
  lemma StuckWithoutBuffers(job: Job, w: World, r: int)
    requires Inv(job, w) && !job.reserves && 0 <= r < |w.ranks|
    ensures w.ranks[r].pc != Done
  {
  }

  /** Exactly when the program terminates, if collectives synchronise: a run can be
      completed if and only if rank 0's gather buffers can be allocated. */
  lemma CompletesIffReserved(job: Job, run: seq<World>)
    requires IsRun(job, run) && Answers(job)
    ensures job.reserves <==> exists full: seq<World> :: Completes(job, run, full)
  {
    if job.reserves {
      var full := RunCompletes(job, run);
      assert Completes(job, run, full);
    } else {
      forall full: seq<World> | IsRun(job, full)
        ensures !Completes(job, run, full)
      {
        RunKeepsInv(job, full);
        StuckWithoutBuffers(job, full[|full| - 1], 0);
      }
    }
  }
}
