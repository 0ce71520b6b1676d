/** gather_records of runner_mpi.c: the records of all ranks, concatenated at
    computed displacements, are put back into input order on rank 0. */
module Gather {
  import opened Integers
  import opened Types

  /** One result on the wire: a picture index and the payload of its match. */
  datatype Record = Record(index: int, objectId: int, row: int, col: int)

  const RECORD_INTS := 4

  function Encode(records: seq<Record>): (ints: seq<int>)
    ensures |ints| == RECORD_INTS * |records|
  {
    if records == [] then []
    else
      var r := records[|records| - 1];
      Encode(records[..|records| - 1]) + [r.index, r.objectId, r.row, r.col]
  }

  /** The records read back from a flat buffer, four ints at a time. */
  function Decode(ints: seq<int>): seq<Record> {
    seq(|ints| / RECORD_INTS, i requires 0 <= i < |ints| / RECORD_INTS =>
      Record(ints[RECORD_INTS * i], ints[RECORD_INTS * i + 1], ints[RECORD_INTS * i + 2], ints[RECORD_INTS * i + 3]))
  }

  lemma {:induction false} DecodeEncode(records: seq<Record>)
    ensures Decode(Encode(records)) == records
  {
    if records != [] {
      var rest := records[..|records| - 1];
      DecodeEncode(rest);
      assert Encode(records)[..|Encode(rest)|] == Encode(rest);
      forall i | 0 <= i < |rest|
        ensures Decode(Encode(records))[i] == records[i]
      {
        assert Decode(Encode(rest))[i] == rest[i];
      }
    }
  }

  lemma {:induction false} EncodeConcat(a: seq<Record>, b: seq<Record>)
    ensures Encode(a + b) == Encode(a) + Encode(b)
  {
    if b == [] {
      assert a + b == a;
    } else {
      var rest := b[..|b| - 1];
      EncodeConcat(a, rest);
      assert (a + b)[..|a + b| - 1] == a + rest;
    }
  }

  /** The first `n` pieces, one after another. */
  function Flatten<T>(pieces: seq<seq<T>>, n: nat): seq<T>
    requires n <= |pieces|
  {
    if n == 0 then [] else Flatten(pieces, n - 1) + pieces[n - 1]
  }

  lemma {:induction false} EncodeFlatten(pieces: seq<seq<Record>>, ints: seq<seq<int>>, n: nat)
    requires n <= |pieces| == |ints| && forall r | 0 <= r < |pieces| :: ints[r] == Encode(pieces[r])
    ensures Flatten(ints, n) == Encode(Flatten(pieces, n))
  {
    if n > 0 {
      EncodeFlatten(pieces, ints, n - 1);
      EncodeConcat(Flatten(pieces, n - 1), pieces[n - 1]);
    }
  }

  /** Piece `r` sits whole at its own displacement: blocks neither overlap nor
      leave a gap. */
  lemma {:induction false} FlattenBlock<T>(pieces: seq<seq<T>>, r: nat, n: nat)
    requires r < n <= |pieces|
    ensures var start := |Flatten(pieces, r)|;
            && start + |pieces[r]| <= |Flatten(pieces, n)|
            && Flatten(pieces, n)[start..start + |pieces[r]|] == pieces[r]
    decreases n
  {
    var start, all, shorter := |Flatten(pieces, r)|, Flatten(pieces, n), Flatten(pieces, n - 1);
    if r < n - 1 {
      FlattenBlock(pieces, r, n - 1);
      assert all[start..start + |pieces[r]|] == shorter[start..start + |pieces[r]|];
    }
  }

  // ----------------------------------------------------------------- placing

  function Blank(ids: seq<int>): seq<Match> {
    seq(|ids|, i requires 0 <= i < |ids| => MatchNone(ids[i]))
  }

  function MatchIn(ids: seq<int>, r: Record): Match
    requires 0 <= r.index < |ids|
  {
    Match(ids[r.index], r.objectId, r.row, r.col)
  }

  /** The status and the array after the records have been written in turn; a
      record whose index is out of range stops the loop. */
  function Placed(ids: seq<int>, matches: seq<Match>, records: seq<Record>): (out: (Status, seq<Match>))
    requires |matches| == |ids|
    ensures |out.1| == |ids|
    decreases |records|
  {
    if records == [] then (Ok, matches)
    else
      var r := records[0];
      if r.index < 0 || r.index >= |ids| then (ErrBackend, matches)
      else Placed(ids, matches[r.index := MatchIn(ids, r)], records[1..])
  }

  predicate InRange(ids: seq<int>, records: seq<Record>) {
    forall a | 0 <= a < |records| :: 0 <= records[a].index < |ids|
  }

  predicate Distinct(records: seq<Record>) {
    forall a, b | 0 <= a < b < |records| :: records[a].index != records[b].index
  }

  predicate Covers(records: seq<Record>, i: int) {
    exists a :: 0 <= a < |records| && records[a].index == i
  }

  /** What the array holds at `i` once every record has been written. */
  lemma {:induction false} PlacedAt(ids: seq<int>, matches: seq<Match>, records: seq<Record>, i: int)
    requires |matches| == |ids| && InRange(ids, records) && Distinct(records) && 0 <= i < |ids|
    ensures Placed(ids, matches, records).0 == Ok
    ensures !Covers(records, i) ==> Placed(ids, matches, records).1[i] == matches[i]
    ensures forall a | 0 <= a < |records| && records[a].index == i ::
              Placed(ids, matches, records).1[i] == MatchIn(ids, records[a])
    decreases |records|
  {
    if records != [] {
      var r := records[0];
      PlacedAt(ids, matches[r.index := MatchIn(ids, r)], records[1..], i);
      forall a | 0 <= a < |records| && records[a].index == i
        ensures Placed(ids, matches, records).1[i] == MatchIn(ids, records[a])
      {
        if a == 0 {
          assert !Covers(records[1..], i);
        } else {
          assert records[1..][a - 1] == records[a];
        }
      }
      if Covers(records[1..], i) {
        var a :| 0 <= a < |records[1..]| && records[1..][a].index == i;
        assert records[a + 1].index == i;
      }
    }
  }

  /** Any order of the same records gives the same array. */
  lemma PlacedIgnoresOrder(ids: seq<int>, matches: seq<Match>, records: seq<Record>, shuffled: seq<Record>)
    requires |matches| == |ids| && InRange(ids, records) && Distinct(records)
    requires InRange(ids, shuffled) && Distinct(shuffled)
    requires forall r :: r in records <==> r in shuffled
    ensures Placed(ids, matches, records).1 == Placed(ids, matches, shuffled).1
  {
    forall i | 0 <= i < |ids|
      ensures Placed(ids, matches, records).1[i] == Placed(ids, matches, shuffled).1[i]
    {
      PlacedAt(ids, matches, records, i);
      PlacedAt(ids, matches, shuffled, i);
      SameCovers(records, shuffled, i);
      SameCovers(shuffled, records, i);
      if Covers(records, i) {
        var a :| 0 <= a < |records| && records[a].index == i;
        assert records[a] in shuffled;
        var b :| 0 <= b < |shuffled| && shuffled[b] == records[a];
      }
    }
  }

  lemma SameCovers(records: seq<Record>, shuffled: seq<Record>, i: int)
    requires forall r :: r in records ==> r in shuffled
    ensures Covers(records, i) ==> Covers(shuffled, i)
  {
    if Covers(records, i) {
      var a :| 0 <= a < |records| && records[a].index == i;
      assert records[a] in shuffled;
    }
  }

  /** Distinct in-range indices are at most as many as the pictures, so the
      buffer of num_pictures records holds them. */
  lemma DistinctFits(records: seq<Record>, n: nat)
    requires Distinct(records) && forall a | 0 <= a < |records| :: 0 <= records[a].index < n
    ensures |records| <= n
  {
    Pigeonhole(seq(|records|, a requires 0 <= a < |records| => records[a].index), n);
  }

  // ------------------------------------------------------------------ method

  lemma {:induction false} FlattenWhole(sends: seq<seq<int>>, n: nat)
    requires n <= |sends| && forall r | 0 <= r < |sends| :: |sends[r]| % RECORD_INTS == 0
    ensures |Flatten(sends, n)| % RECORD_INTS == 0
  {
    if n > 0 {
      FlattenWhole(sends, n - 1);
    }
  }

  /** MPI_Gatherv: each rank's ints land at its displacement. */
  method Gatherv(gathered: array<int>, displs: array<int>, sends: seq<seq<int>>)
    requires displs.Length == |sends| && gathered != displs
    requires forall r {:trigger displs[r]} | 0 <= r < |sends| :: displs[r] == |Flatten(sends, r)|
    requires |Flatten(sends, |sends|)| <= gathered.Length
    modifies gathered
    ensures gathered[..|Flatten(sends, |sends|)|] == Flatten(sends, |sends|)
  {
    for r := 0 to |sends|
      invariant |Flatten(sends, r)| <= gathered.Length
      invariant gathered[..|Flatten(sends, r)|] == Flatten(sends, r)
    {
      FlattenBlock(sends, r, |sends|);
      ghost var before := Flatten(sends, r);
      forall i | 0 <= i < |sends[r]| {
        gathered[displs[r] + i] := sends[r][i];
      }
      assert gathered[..|before|] == before;
      assert gathered[..|before| + |sends[r]|] == before + sends[r];
    }
  }

  /** The running total that turns counts into displacements. */
  method Displacements(counts: array<int>, sends: seq<seq<int>>) returns (displs: array<int>, total: int)
    requires counts.Length == |sends| && forall r | 0 <= r < |sends| :: counts[r] == |sends[r]|
    ensures fresh(displs) && displs.Length == |sends|
    ensures forall r {:trigger displs[r]} | 0 <= r < |sends| :: displs[r] == |Flatten(sends, r)|
    ensures total == |Flatten(sends, |sends|)|
  {
    displs := new int[|sends|];
    total := 0;
    for r := 0 to |sends|
      invariant total == |Flatten(sends, r)|
      invariant forall q {:trigger displs[q]} | 0 <= q < r :: displs[q] == |Flatten(sends, q)|
    {
      displs[r] := total;
      total := total + counts[r];
    }
  }

  /** gather_records on rank 0, its buffers allocated. */
  method GatherRecords(ids: seq<int>, sends: seq<seq<int>>, matches: array<Match>) returns (status: Status)
    requires matches.Length == |ids|
    requires forall r | 0 <= r < |sends| :: |sends[r]| % RECORD_INTS == 0
    requires |Flatten(sends, |sends|)| <= RECORD_INTS * |ids|
    modifies matches
    ensures (status, matches[..]) == Placed(ids, Blank(ids), Decode(Flatten(sends, |sends|)))
  {
    var counts := new int[|sends|](r requires 0 <= r < |sends| => |sends[r]|);
    var gathered := new int[|ids| * RECORD_INTS];
    var displs, total := Displacements(counts, sends);
    Gatherv(gathered, displs, sends);
    var received := gathered[..total];
    for i := 0 to |ids|
      invariant forall j | 0 <= j < i :: matches[j] == MatchNone(ids[j])
    {
      matches[i] := MatchNone(ids[i]);
    }
    assert matches[..] == Blank(ids);
    FlattenWhole(sends, |sends|);
    status := Scatter(ids, received, matches);
  }

  /** The loop that writes each record to its picture's place. */
  method Scatter(ids: seq<int>, gathered: seq<int>, matches: array<Match>) returns (status: Status)
    requires matches.Length == |ids| && |gathered| % RECORD_INTS == 0
    modifies matches
    ensures (status, matches[..]) == Placed(ids, old(matches[..]), Decode(gathered))
  {
    var records := Decode(gathered);
    ghost var start := matches[..];
    var i := 0;
    assert records[0..] == records;
    while i < |gathered|
      invariant 0 <= i <= |gathered| && i % RECORD_INTS == 0
      invariant Placed(ids, start, records) == Placed(ids, matches[..], records[i / RECORD_INTS..])
    {
      var index := gathered[i];
      var a := i / RECORD_INTS;
      assert records[a] == Record(gathered[i], gathered[i + 1], gathered[i + 2], gathered[i + 3]);
      assert records[a..][1..] == records[a + 1..];
      if index < 0 || index >= |ids| {
        return ErrBackend;
      }
      ghost var before := matches[..];
      matches[index] := Match(ids[index], gathered[i + 1], gathered[i + 2], gathered[i + 3]);
      assert matches[..] == before[index := MatchIn(ids, records[a])];
      i := i + RECORD_INTS;
    }
    status := Ok;
  }
}
