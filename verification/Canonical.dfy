/** The determinism contract of backend.h as one definition: the lowest object
    in array order that occurs, at its row-major-first placement. Every backend
    is proved to return exactly this. */
module Canonical {
  import opened Integers
  import opened Types
  import opened Metric

  /** msearch_placement_count. */
  function PlacementCount(n: int, m: int): nat {
    var span := n - m + 1;
    if span > 0 then span * span else 0
  }

  lemma PlacementsFitInt(n: int, m: int)
    requires 1 <= m && n <= MAX_SIDE
    ensures PlacementCount(n, m) < NO_PLACEMENT
  {
    if n - m + 1 > 0 {
      SquareGrows(n - m + 1, MAX_SIDE);
    }
  }

  /** Key to placement and back, for a span of at least one: `key / span` and
      `key % span` are the only coordinates that pack to `key`. */
  lemma KeyUnpacks(key: int, span: int)
    requires 0 < span && 0 <= key < span * span
    ensures 0 <= key / span < span && 0 <= key % span < span
    ensures key / span * span + key % span == key
  {
    QuotientBelow(key, span);
  }

  lemma QuotientBelow(key: int, span: int)
    requires 0 < span && 0 <= key < span * span
    ensures 0 <= key / span < span
  {
    var q := key / span;
    assert q * span <= key;
    ProductGrows(span, q, span);
  }

  lemma KeyPacks(row: int, col: int, span: int)
    requires 0 <= row < span && 0 <= col < span
    ensures 0 <= row * span + col < span * span
    ensures (row * span + col) / span == row
    ensures (row * span + col) % span == col
  {
    CellInside(row, col, span);
    var key := row * span + col;
    KeyUnpacks(key, span);
    KeyOrder(row, col, key / span, key % span, span);
    KeyOrder(key / span, key % span, row, col, span);
  }

  /** Comparing keys is comparing placements in row-major order. */
  lemma KeyOrder(row: int, col: int, row': int, col': int, span: int)
    requires 0 <= col < span && 0 <= col' < span
    ensures row * span + col < row' * span + col' <==> row < row' || (row == row' && col < col')
  {
    if row < row' {
      assert (row + 1) * span <= row' * span;
    } else if row > row' {
      assert (row' + 1) * span <= row * span;
    }
  }

  /** Which placement keys of one object score below the threshold, decided by
      the early-exit score every backend shares. */
  function PlacementHits(ar: Arithmetic, threshold: Double, picture: seq<int>, n: int, obj: seq<int>, m: int):
    (hits: seq<bool>)
    requires 1 <= m && 1 <= n <= MAX_SIDE && n * n <= |picture| && m * m <= |obj|
    ensures |hits| == PlacementCount(n, m)
  {
    seq(PlacementCount(n, m), key requires 0 <= key < PlacementCount(n, m) =>
      KeyHits(ar, threshold, picture, n, obj, m, key))
  }

  function KeyOverlay(picture: seq<int>, n: int, obj: seq<int>, m: int, key: int): (o: Overlay)
    requires 1 <= m && 1 <= n <= MAX_SIDE && n * n <= |picture| && m * m <= |obj|
    requires 0 <= key < PlacementCount(n, m)
    ensures o.Fits()
  {
    var span := n - m + 1;
    KeyUnpacks(key, span);
    Overlay(picture, n, obj, m, ToInt32(key / span), ToInt32(key % span))
  }

  predicate KeyHits(ar: Arithmetic, threshold: Double, picture: seq<int>, n: int, obj: seq<int>, m: int, key: int)
    requires 1 <= m && 1 <= n <= MAX_SIDE && n * n <= |picture| && m * m <= |obj|
    requires 0 <= key < PlacementCount(n, m)
  {
    Less(ScoreAt(ar, KeyOverlay(picture, n, obj, m, key), threshold), threshold)
  }

  /** Larger buffers decide the same: only the leading cells are read. */
  lemma HitsIgnoreLeftovers(ar: Arithmetic, threshold: Double, picture: seq<int>, picture': seq<int>, n: int,
                            obj: seq<int>, obj': seq<int>, m: int)
    requires 1 <= m && 1 <= n <= MAX_SIDE
    requires n * n <= |picture| && n * n <= |picture'| && picture[..n * n] == picture'[..n * n]
    requires m * m <= |obj| && m * m <= |obj'| && obj[..m * m] == obj'[..m * m]
    ensures PlacementHits(ar, threshold, picture, n, obj, m) == PlacementHits(ar, threshold, picture', n, obj', m)
  {
    forall key | 0 <= key < PlacementCount(n, m)
      ensures KeyHits(ar, threshold, picture, n, obj, m, key) == KeyHits(ar, threshold, picture', n, obj', m, key)
    {
      ScoreIgnoresLeftovers(ar, KeyOverlay(picture, n, obj, m, key), KeyOverlay(picture', n, obj', m, key), threshold, 0);
    }
  }

  /** One picture against a problem's objects. */
  datatype Search = Search(ar: Arithmetic, threshold: Double, picture: Picture, objects: seq<Object>) {
    predicate Complete() {
      picture.Complete() && forall k | 0 <= k < |objects| :: objects[k].Complete()
    }

    ghost predicate Valid() { Complete() && ar.Sound() }

    predicate InGrid(k: int, row: int, col: int) {
      0 <= k < |objects| && 0 <= row <= picture.n - objects[k].m && 0 <= col <= picture.n - objects[k].m
    }

    function At(k: int, row: int, col: int): (o: Overlay)
      requires Complete() && InGrid(k, row, col)
      ensures o.Fits()
    {
      Overlay(picture.data, picture.n, objects[k].data, objects[k].m, row, col)
    }

    /** Object `k` occurs at (row, col): its whole score is below the threshold. */
    predicate Occurs(k: int, row: int, col: int)
      requires Complete()
    {
      InGrid(k, row, col) && Less(FullScore(ar, At(k, row, col)), threshold)
    }

    function Hits(k: int): (hits: seq<bool>)
      requires Complete() && 0 <= k < |objects|
      ensures |hits| < NO_PLACEMENT
    {
      PlacementsFitInt(picture.n, objects[k].m);
      PlacementHits(ar, threshold, picture.data, picture.n, objects[k].data, objects[k].m)
    }
  }

  datatype Answer = Nowhere | Found(k: int, row: int, col: int)

  /** Lexicographic order on (object index, row, column). */
  predicate Before(a: Answer, k: int, row: int, col: int) {
    a.Found? && (a.k < k || (a.k == k && (a.row < row || (a.row == row && a.col < col))))
  }

  /** The contract: nothing occurs, or this does and nothing before it does. */
  ghost predicate IsCanon(s: Search, a: Answer)
    requires s.Complete()
  {
    && (a.Found? ==> s.Occurs(a.k, a.row, a.col))
    && (forall k, row, col | s.Occurs(k, row, col) :: a.Found? && !Before(Found(k, row, col), a.k, a.row, a.col))
  }

  lemma CanonUnique(s: Search, a: Answer, b: Answer)
    requires s.Complete() && IsCanon(s, a) && IsCanon(s, b)
    ensures a == b
  {
  }

  function MatchOf(s: Search, a: Answer): Match
    requires a.Found? ==> 0 <= a.k < |s.objects|
  {
    match a
    case Nowhere => MatchNone(s.picture.id)
    case Found(k, row, col) => Match(s.picture.id, s.objects[k].id, row, col)
  }

  /** `best` is the least hit, or the sentinel when there is none. */
  predicate IsLeast(hits: seq<bool>, best: int) {
    if best == NO_PLACEMENT then forall i | 0 <= i < |hits| :: !hits[i]
    else 0 <= best < |hits| && hits[best] && forall i | 0 <= i < best :: !hits[i]
  }

  /** Hits by key are occurrences by placement: early exit, packing and the
      narrowing casts change nothing. */
  lemma HitsAreOccurrences(s: Search, k: int, key: int)
    requires s.Valid() && 0 <= k < |s.objects| && 0 <= key < |s.Hits(k)|
    ensures var span := s.picture.n - s.objects[k].m + 1;
            && ToInt32(key) == key
            && s.InGrid(k, key / span, key % span)
            && (s.Hits(k)[key] <==> s.Occurs(k, key / span, key % span))
  {
    var span := s.picture.n - s.objects[k].m + 1;
    KeyUnpacks(key, span);
    EarlyExitDecides(s.ar, s.At(k, key / span, key % span), s.threshold);
  }

  /** The decision a scan takes at one key. */
  lemma HitByScore(s: Search, k: int, key: int)
    requires s.Complete() && 0 <= k < |s.objects| && 0 <= key < |s.Hits(k)|
    ensures var span := s.picture.n - s.objects[k].m + 1;
            && s.InGrid(k, ToInt32(key / span), ToInt32(key % span))
            && ToInt32(key / span) == key / span && ToInt32(key % span) == key % span
            && s.Hits(k)[key] ==
               Less(ScoreAt(s.ar, s.At(k, ToInt32(key / span), ToInt32(key % span)), s.threshold), s.threshold)
  {
    KeyUnpacks(key, s.picture.n - s.objects[k].m + 1);
  }

  lemma OccurrencesAreHits(s: Search, k: int, row: int, col: int)
    requires s.Valid() && s.Occurs(k, row, col)
    ensures var key := row * (s.picture.n - s.objects[k].m + 1) + col;
            0 <= key < |s.Hits(k)| && s.Hits(k)[key]
  {
    var span := s.picture.n - s.objects[k].m + 1;
    KeyPacks(row, col, span);
    HitsAreOccurrences(s, k, row * span + col);
  }

  lemma FoundIsCanon(s: Search, k: int, best: int)
    requires s.Valid() && 0 <= k < |s.objects|
    requires forall j | 0 <= j < k :: IsLeast(s.Hits(j), NO_PLACEMENT)
    requires best != NO_PLACEMENT && IsLeast(s.Hits(k), best)
    ensures var span := s.picture.n - s.objects[k].m + 1;
            IsCanon(s, Found(k, best / span, best % span))
  {
    var span := s.picture.n - s.objects[k].m + 1;
    HitsAreOccurrences(s, k, best);
    KeyUnpacks(best, span);
    forall j, row, col | s.Occurs(j, row, col)
      ensures !Before(Found(j, row, col), k, best / span, best % span)
    {
      OccurrencesAreHits(s, j, row, col);
      if j == k {
        KeyOrder(row, col, best / span, best % span, span);
      }
    }
  }

  lemma NothingIsCanon(s: Search)
    requires s.Valid()
    requires forall j | 0 <= j < |s.objects| :: IsLeast(s.Hits(j), NO_PLACEMENT)
    ensures IsCanon(s, Nowhere)
  {
    forall j, row, col | s.Occurs(j, row, col)
      ensures false
    {
      OccurrencesAreHits(s, j, row, col);
    }
  }

  /** The first hit at or after `key`, or the sentinel. */
  function FirstHit(hits: seq<bool>, key: nat): (best: int)
    requires key <= |hits|
    ensures best == NO_PLACEMENT || (key <= best < |hits| && hits[best])
    decreases |hits| - key
  {
    if key == |hits| then NO_PLACEMENT
    else if hits[key] then key
    else FirstHit(hits, key + 1)
  }

  lemma {:induction false} FirstHitIsLeast(hits: seq<bool>, key: nat)
    requires key <= |hits| <= NO_PLACEMENT && forall i | 0 <= i < key :: !hits[i]
    ensures IsLeast(hits, FirstHit(hits, key))
    decreases |hits| - key
  {
    if key < |hits| && !hits[key] {
      FirstHitIsLeast(hits, key + 1);
    }
  }

  lemma {:induction false} CanonExistsFrom(s: Search, k: nat) returns (a: Answer)
    requires s.Valid() && k <= |s.objects|
    requires forall j | 0 <= j < k :: IsLeast(s.Hits(j), NO_PLACEMENT)
    ensures IsCanon(s, a)
    decreases |s.objects| - k
  {
    if k == |s.objects| {
      NothingIsCanon(s);
      return Nowhere;
    }
    var best := FirstHit(s.Hits(k), 0);
    FirstHitIsLeast(s.Hits(k), 0);
    if best == NO_PLACEMENT {
      a := CanonExistsFrom(s, k + 1);
    } else {
      FoundIsCanon(s, k, best);
      var span := s.picture.n - s.objects[k].m + 1;
      a := Found(k, best / span, best % span);
    }
  }

  lemma CanonExists(s: Search)
    requires s.Valid()
    ensures exists a :: IsCanon(s, a)
  {
    var a := CanonExistsFrom(s, 0);
  }

  /** The canonical answer; CanonUnique says there is no other. */
  ghost function Canon(s: Search): (a: Answer)
    requires s.Valid()
    ensures IsCanon(s, a)
  {
    CanonExists(s);
    var a :| IsCanon(s, a);
    a
  }

  ghost function CanonMatch(s: Search): Match
    requires s.Valid()
  {
    MatchOf(s, Canon(s))
  }

  /** What a result says, read without the search: a row or a column below zero,
      equivalently the no-match result, means that nothing occurs. This is so for
      any ids. */
  lemma NoMatchMeansNowhere(s: Search)
    requires s.Valid()
    ensures CanonMatch(s).row < 0 <==> Canon(s) == Nowhere
    ensures CanonMatch(s).col < 0 <==> Canon(s) == Nowhere
    ensures CanonMatch(s) == MatchNone(s.picture.id) <==> Canon(s) == Nowhere
    ensures Canon(s) == Nowhere ==> CanonMatch(s) == Match(s.picture.id, -1, -1, -1)
  {
  }

  /** Otherwise it names the picture, and an object with the reported id occurs at
      the reported row and column; nothing occurs at an earlier place of that object
      and no object before it occurs at all. */
  lemma MatchMeansFirst(s: Search) returns (k: int)
    requires s.Valid() && CanonMatch(s).row >= 0
    ensures var m := CanonMatch(s);
            && 0 <= k < |s.objects| && m.pictureId == s.picture.id && m.objectId == s.objects[k].id
            && s.Occurs(k, m.row, m.col)
            && forall j, row, col | s.Occurs(j, row, col) ::
                 k < j || (k == j && (m.row < row || (m.row == row && m.col <= col)))
  {
    k := Canon(s).k;
  }

  lemma NothingIsMatch(s: Search)
    requires s.Valid()
    requires forall j | 0 <= j < |s.objects| :: IsLeast(s.Hits(j), NO_PLACEMENT)
    ensures MatchNone(s.picture.id) == CanonMatch(s)
  {
    NothingIsCanon(s);
    CanonUnique(s, Nowhere, Canon(s));
  }

  /** The match every backend writes once it has object `k`'s least key. */
  function MatchAt(s: Search, k: int, best: int): Match
    requires 0 <= k < |s.objects| && s.objects[k].m <= s.picture.n
  {
    var span := s.picture.n - s.objects[k].m + 1;
    Match(s.picture.id, s.objects[k].id, best / span, best % span)
  }

  lemma FoundIsMatch(s: Search, k: int, best: int)
    requires s.Valid() && 0 <= k < |s.objects|
    requires forall j | 0 <= j < k :: IsLeast(s.Hits(j), NO_PLACEMENT)
    requires best != NO_PLACEMENT && IsLeast(s.Hits(k), best)
    ensures s.objects[k].m <= s.picture.n
    ensures MatchAt(s, k, best) == CanonMatch(s)
  {
    var span := s.picture.n - s.objects[k].m + 1;
    FoundIsCanon(s, k, best);
    CanonUnique(s, Found(k, best / span, best % span), Canon(s));
  }

  /** One slot per object; an object too large for the picture never fills its own. */
  predicate Slots(s: Search, bests: seq<int>) {
    && |bests| == |s.objects|
    && forall k | 0 <= k < |bests| && bests[k] != NO_PLACEMENT :: s.objects[k].m <= s.picture.n
  }

  predicate NoneBefore(bests: seq<int>, k: int)
    requires k <= |bests|
  {
    forall j | 0 <= j < k :: bests[j] == NO_PLACEMENT
  }

  /** The host's last loop: the first object whose slot is not the sentinel. */
  function Pick(s: Search, bests: seq<int>, k: nat): Match
    requires Slots(s, bests) && k <= |bests|
    decreases |bests| - k
  {
    if k == |bests| then MatchNone(s.picture.id)
    else if bests[k] != NO_PLACEMENT then MatchAt(s, k, bests[k])
    else Pick(s, bests, k + 1)
  }

  /** Slots need to be right only until the first object that matched. */
  ghost predicate Settled(s: Search, bests: seq<int>)
    requires s.Complete() && Slots(s, bests)
  {
    forall k | 0 <= k < |bests| && NoneBefore(bests, k) :: IsLeast(s.Hits(k), bests[k])
  }

  lemma {:induction false} PickIsCanon(s: Search, bests: seq<int>, k: nat)
    requires s.Valid() && Slots(s, bests) && Settled(s, bests)
    requires k <= |bests| && NoneBefore(bests, k)
    ensures Pick(s, bests, k) == CanonMatch(s)
    decreases |bests| - k
  {
    if k == |bests| {
      NothingIsMatch(s);
    } else if bests[k] != NO_PLACEMENT {
      FoundIsMatch(s, k, bests[k]);
    } else {
      PickIsCanon(s, bests, k + 1);
    }
  }
}
