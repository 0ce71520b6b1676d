/** process_claimed_pictures of runner_mpi.c as one rank runs it: the loop behind
    the Claim, Answer and Fail events of the distributed machine. */
module Claiming {
  import opened Types
  import opened Metric
  import opened Problems
  import opened Gather
  import opened MpiRuntime
  import opened Runtime
  import opened Driving

  /** The counter in rank 0's window. Other ranks may add to it at any time. */
  class SharedCounter {
    var next: nat

    /** MPI_Fetch_and_op: this rank gets a value that nobody else gets. */
    method FetchAndAdd() returns (index: nat)
      modifies this
      ensures old(next) <= index && next == index + 1
    {
      var others: nat :| 0 <= others;
      index := next + others;
      next := index + 1;
    }
  }

  /** The record a rank sends for picture `index`. */
  ghost function Expected(p: Problem, ar: Arithmetic, index: int): Record
    requires AllComplete(p) && ar.Sound() && 0 <= index < |p.pictures|
  {
    RecordOf(index, CanonArray(p, ar)[index])
  }

  /** Records of canonical matches, in the order in which they were claimed. */
  ghost predicate AllCanonical(p: Problem, ar: Arithmetic, records: seq<Record>)
    requires AllComplete(p) && ar.Sound()
  {
    && (forall a | 0 <= a < |records| ::
          0 <= records[a].index < |p.pictures| && records[a] == Expected(p, ar, records[a].index))
    && (forall a, b | 0 <= a < b < |records| :: records[a].index < records[b].index)
  }

  /** What the searches of these claims can fail by; a claim past the pictures is
      not searched. */
  function ClaimActs(p: Problem, backend: Backend, claims: seq<int>): (acts: seq<Act>)
    requires forall a | 0 <= a < |claims| :: 0 <= claims[a]
    ensures Errors(acts)
  {
    if claims == [] then []
    else
      var last := claims[|claims| - 1];
      ClaimActs(p, backend, claims[..|claims| - 1]) + if last < |p.pictures| then SearchActs(p, backend, last) else []
  }

  /** Claims are searched and recorded until one is past the last picture or a
      search fails. `claims` are the values this rank got, in order: each but the
      last has its record, and the rank stops at the last because it is past the
      pictures or because its search failed, and for no other reason. The record
      buffer, sized for the worst case in which one rank claims everything, is
      never overrun. */
  method ProcessClaimedPictures(
    driver: Driver, p: Problem, ar: Arithmetic, backend: Backend, ctx: Cuda.CudaContext?, counter: SharedCounter,
    records: array<int>)
    returns (status: Status, count: nat, ghost claims: seq<int>)
    requires AllComplete(p) && ar.Sound() && Ready(driver, p, ar, backend, ctx)
    requires records.Length == |p.pictures| * RECORD_INTS && records !in Buffers(ctx) && counter !in Buffers(ctx)
    requires ctx != null ==> records != ctx.dObjects && records != ctx.objOffset
    modifies driver, counter, records, Buffers(ctx)
    ensures count <= |p.pictures| && Ready(driver, p, ar, backend, ctx)
    ensures SentSoFar(p, ar, records[..], count, Decode(records[..count * RECORD_INTS]))
    ensures Stopped(Decode(records[..count * RECORD_INTS]), claims, old(counter.next), counter.next)
    ensures status == Ok <==> claims[|claims| - 1] >= |p.pictures|
    ensures (status, driver.made) == Attempt(ClaimActs(p, backend, claims), driver.outcome, old(driver.made))
  {
    count, claims, status := 0, [], Ok;
    ghost var sent: seq<Record> := [];
    var again := true;
    while again
      invariant Ready(driver, p, ar, backend, ctx) && SentSoFar(p, ar, records[..], count, sent)
      invariant if again then status == Ok && Claimed(sent, claims, old(counter.next), counter.next)
                else Stopped(sent, claims, old(counter.next), counter.next)
      invariant !again ==> (status == Ok <==> claims[|claims| - 1] >= |p.pictures|)
      invariant (status, driver.made) == Attempt(ClaimActs(p, backend, claims), driver.outcome, old(driver.made))
      decreases again, |p.pictures| - counter.next
    {
      ghost var index;
      status, again, index := ClaimOne(driver, p, ar, backend, ctx, counter, records, count, sent, claims, old(counter.next));
      OneMoreClaim(p, backend, claims, index, driver.outcome, old(driver.made));
      claims := claims + [index];
      if again {
        sent := sent + [Expected(p, ar, index)];
        count := count + 1;
      }
    }
  }

  /** One round: a claim and, if it is a picture, its search and its record. */
  method ClaimOne(
    driver: Driver, p: Problem, ar: Arithmetic, backend: Backend, ctx: Cuda.CudaContext?, counter: SharedCounter,
    records: array<int>, count: nat, ghost sent: seq<Record>, ghost claims: seq<int>, ghost first: nat)
    returns (status: Status, again: bool, ghost index: nat)
    requires AllComplete(p) && ar.Sound() && Ready(driver, p, ar, backend, ctx)
    requires SentSoFar(p, ar, records[..], count, sent) && Claimed(sent, claims, first, counter.next)
    requires records.Length == |p.pictures| * RECORD_INTS && records !in Buffers(ctx) && counter !in Buffers(ctx)
    requires ctx != null ==> records != ctx.dObjects && records != ctx.objOffset
    modifies driver, counter, records, Buffers(ctx)
    ensures Ready(driver, p, ar, backend, ctx)
    ensures old(counter.next) <= index && counter.next == index + 1
    ensures again <==> status == Ok && index < |p.pictures|
    ensures status != Ok ==> index < |p.pictures|
    ensures (status, driver.made) ==
            if index < |p.pictures| then Attempt(SearchActs(p, backend, index), driver.outcome, old(driver.made))
            else (Ok, old(driver.made))
    ensures if again then
              && SentSoFar(p, ar, records[..], count + 1, sent + [Expected(p, ar, index)])
              && Claimed(sent + [Expected(p, ar, index)], claims + [index], first, counter.next)
            else SentSoFar(p, ar, records[..], count, sent) && Stopped(sent, claims + [index], first, counter.next)
  {
    var claim := counter.FetchAndAdd();
    index, status := claim, Ok;
    ClaimedMore(sent, claims, first, index);
    if claim >= |p.pictures| {
      again := false;
      return;
    }
    AnsweredMore(sent, claims + [index], first, Expected(p, ar, index));
    status := SearchAndRecord(driver, p, ar, backend, ctx, records, count, claim, sent);
    again := status == Ok;
  }

  /** One claim that is a picture: search it, and record what was found. */
  method SearchAndRecord(
    driver: Driver, p: Problem, ar: Arithmetic, backend: Backend, ctx: Cuda.CudaContext?, records: array<int>,
    count: nat, index: nat, ghost sent: seq<Record>)
    returns (status: Status)
    requires AllComplete(p) && ar.Sound() && Ready(driver, p, ar, backend, ctx) && index < |p.pictures|
    requires SentSoFar(p, ar, records[..], count, sent) && (count + 1) * RECORD_INTS <= records.Length
    requires forall a | 0 <= a < |sent| :: sent[a].index < index
    requires records !in Buffers(ctx) && (ctx != null ==> records != ctx.dObjects && records != ctx.objOffset)
    modifies driver, records, Buffers(ctx)
    ensures Ready(driver, p, ar, backend, ctx)
    ensures (status, driver.made) == Attempt(SearchActs(p, backend, index), driver.outcome, old(driver.made))
    ensures if status == Ok then SentSoFar(p, ar, records[..], count + 1, sent + [Expected(p, ar, index)])
            else records[..] == old(records[..])
  {
    var found;
    status, found := SearchOne(driver, p, ar, backend, ctx, index);
    if status != Ok {
      return;
    }
    assert RecordOf(index, found) == Expected(p, ar, index);
    WriteRecord(p, ar, records, count, index, found, sent);
  }

  lemma OneMoreClaim(p: Problem, backend: Backend, claims: seq<int>, index: nat, outcome: nat -> bool, made: nat)
    requires forall a | 0 <= a < |claims| :: 0 <= claims[a]
    ensures var before := Attempt(ClaimActs(p, backend, claims), outcome, made);
            before.0 == Ok ==>
              Attempt(ClaimActs(p, backend, claims + [index]), outcome, made) ==
              if index < |p.pictures| then Attempt(SearchActs(p, backend, index), outcome, before.1) else before
  {
    assert (claims + [index])[..|claims|] == claims;
    var last := if index < |p.pictures| then SearchActs(p, backend, index) else [];
    AttemptConcat(ClaimActs(p, backend, claims), last, outcome, made);
  }

  /** The first `count` records of the buffer are `sent`. */
  ghost predicate SentSoFar(p: Problem, ar: Arithmetic, ints: seq<int>, count: nat, sent: seq<Record>)
    requires AllComplete(p) && ar.Sound()
  {
    && count == |sent| && count * RECORD_INTS <= |ints|
    && Decode(ints[..count * RECORD_INTS]) == sent
    && AllCanonical(p, ar, sent)
  }

  /** Every claim so far was recorded, and all came from between `first` and `next`. */
  ghost predicate Claimed(sent: seq<Record>, claims: seq<int>, first: int, next: int) {
    && |sent| == |claims| && first + |claims| <= next
    && (claims != [] ==> first <= claims[0])
    && (forall a | 0 <= a < |claims| :: 0 <= claims[a] && sent[a].index == claims[a] < next)
  }

  /** Every claim but the last was recorded; the last came from just below `next`. */
  ghost predicate Stopped(sent: seq<Record>, claims: seq<int>, first: int, next: int) {
    && |sent| == |claims| - 1
    && first <= claims[0] && next == claims[|claims| - 1] + 1
    && (forall a | 0 <= a < |claims| :: 0 <= claims[a])
    && (forall a | 0 <= a < |sent| :: sent[a].index == claims[a])
  }

  lemma ClaimedMore(sent: seq<Record>, claims: seq<int>, first: nat, index: nat)
    requires exists next :: Claimed(sent, claims, first, next) && next <= index
    ensures Stopped(sent, claims + [index], first, index + 1)
    ensures forall a | 0 <= a < |sent| :: sent[a].index < index
    ensures first + |sent| <= index
  {
  }

  lemma AnsweredMore(sent: seq<Record>, claims: seq<int>, first: nat, record: Record)
    requires Stopped(sent, claims, first, record.index + 1)
    requires first + |sent| <= record.index && forall a | 0 <= a < |sent| :: sent[a].index < record.index
    ensures Claimed(sent + [record], claims, first, record.index + 1)
  {
  }

  method WriteRecord(p: Problem, ar: Arithmetic, records: array<int>, count: nat, index: nat, found: Match,
                     ghost sent: seq<Record>)
    requires AllComplete(p) && ar.Sound() && SentSoFar(p, ar, records[..], count, sent)
    requires index < |p.pictures| && RecordOf(index, found) == Expected(p, ar, index)
    requires forall a | 0 <= a < |sent| :: sent[a].index < index
    requires (count + 1) * RECORD_INTS <= records.Length
    modifies records
    ensures SentSoFar(p, ar, records[..], count + 1, sent + [RecordOf(index, found)])
  {
    var at := count * RECORD_INTS;
    ghost var before := records[..at];
    records[at], records[at + 1], records[at + 2], records[at + 3] := index, found.objectId, found.row, found.col;
    assert records[..][..at + RECORD_INTS] == before + [index, found.objectId, found.row, found.col];
    OneMoreRecord(before, index, found);
  }

  lemma OneMoreRecord(ints: seq<int>, index: int, m: Match)
    requires |ints| % RECORD_INTS == 0
    ensures Decode(ints + [index, m.objectId, m.row, m.col]) == Decode(ints) + [RecordOf(index, m)]
  {
  }
}
