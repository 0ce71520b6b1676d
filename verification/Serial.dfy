/** The reference backend, backend_serial.c. */
module Serial {
  import opened Types
  import opened Metric
  import opened Canonical

  /** The scan from object `k` on: the first hit of the first object that has one. */
  function Scan(s: Search, k: nat): Match
    requires s.Complete() && k <= |s.objects|
    decreases |s.objects| - k
  {
    if k == |s.objects| then MatchNone(s.picture.id)
    else
      var best := FirstHit(s.Hits(k), 0);
      if best == NO_PLACEMENT then Scan(s, k + 1)
      else MatchAt(s, k, best)
  }

  lemma {:induction false} ScanIsCanonFrom(s: Search, k: nat)
    requires s.Valid() && k <= |s.objects|
    requires forall j | 0 <= j < k :: IsLeast(s.Hits(j), NO_PLACEMENT)
    ensures Scan(s, k) == CanonMatch(s)
    decreases |s.objects| - k
  {
    if k == |s.objects| {
      NothingIsMatch(s);
    } else {
      var best := FirstHit(s.Hits(k), 0);
      FirstHitIsLeast(s.Hits(k), 0);
      if best == NO_PLACEMENT {
        ScanIsCanonFrom(s, k + 1);
      } else {
        FoundIsMatch(s, k, best);
      }
    }
  }

  /** The serial scan returns the canonical match. */
  lemma ScanIsCanon(s: Search)
    requires s.Valid()
    ensures Scan(s, 0) == CanonMatch(s)
  {
    ScanIsCanonFrom(s, 0);
  }

  /** The inner loop: keys in increasing order, out at the first hit. */
  method ScanKeys(s: Search, k: int) returns (best: int)
    requires s.Complete() && 0 <= k < |s.objects|
    ensures best == FirstHit(s.Hits(k), 0)
  {
    ghost var hits := s.Hits(k);
    var placements := PlacementCount(s.picture.n, s.objects[k].m);
    var span := s.picture.n - s.objects[k].m + 1;
    for key := 0 to placements
      invariant FirstHit(hits, 0) == FirstHit(hits, key)
    {
      HitByScore(s, k, key);
      var row, col := ToInt32(key / span), ToInt32(key % span);
      var score := ComputeScore(s.ar, s.At(k, row, col), s.threshold);
      if Less(score, s.threshold) {
        return key;
      }
    }
    best := NO_PLACEMENT;
  }

  /** serial_search: objects in array order, out at the first that has a hit. */
  method SerialSearch(s: Search) returns (out: Match)
    requires s.Complete()
    ensures out == Scan(s, 0)
  {
    out := MatchNone(s.picture.id);
    for k := 0 to |s.objects|
      invariant out == MatchNone(s.picture.id)
      invariant Scan(s, 0) == Scan(s, k)
    {
      var needle := s.objects[k];
      if PlacementCount(s.picture.n, needle.m) == 0 {
        continue;
      }
      var best := ScanKeys(s, k);
      if best != NO_PLACEMENT {
        var span := s.picture.n - needle.m + 1;
        out := Match(out.pictureId, needle.id, best / span, best % span);
        return;
      }
    }
  }
}
