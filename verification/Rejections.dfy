/** What the reader and the validation turn down, and with which status. */
module Rejections {
  import opened Types
  import opened Canonical
  import opened Sorting
  import opened Problems
  import opened Lexing
  import opened Parsing
  import opened Printing

  // -------------------------------------------------------------- truncation

  /** How reading from a prefix relates to reading from the whole: the reader needs
      exactly its first `used` tokens, and any fewer are malformed. */
  ghost predicate NeedsExactly<T(!new)>(whole: Parsed<T>, part: Parsed<T>, ts: seq<Word>, k: nat) {
    whole.Success? && k <= |ts| ==> exists used :: Uses(whole, part, ts, k, used)
  }

  ghost predicate Uses<T(!new)>(whole: Parsed<T>, part: Parsed<T>, ts: seq<Word>, k: nat, used: nat) {
    && whole.Success? && used <= |ts| && k <= |ts| && whole.value.1 == ts[used..]
    && part == if k < used then Failure(ErrParse) else Success((whole.value.0, ts[used..k]))
  }

  lemma Used<T(!new)>(whole: Parsed<T>, part: Parsed<T>, ts: seq<Word>, k: nat) returns (used: nat)
    requires k <= |ts| && whole.Success? && NeedsExactly(whole, part, ts, k)
    ensures used <= |ts| && whole.value.1 == ts[used..]
    ensures part == if k < used then Failure(ErrParse) else Success((whole.value.0, ts[used..k]))
  {
    used :| Uses(whole, part, ts, k, used);
  }

  lemma IntPrefix(ts: seq<Word>, k: nat)
    requires k <= |ts|
    ensures NeedsExactly(ReadInt(ts), ReadInt(ts[..k]), ts, k)
  {
    if ReadInt(ts).Success? && k > 0 {
      assert ts[..k][1..] == ts[1..k];
    }
    assert ReadInt(ts).Success? ==> Uses(ReadInt(ts), ReadInt(ts[..k]), ts, k, 1);
  }

  /** Nothing read, nothing needed. */
  lemma NothingRead<T(!new)>(value: T, ts: seq<Word>, k: nat)
    requires k <= |ts|
    ensures NeedsExactly(Success((value, ts)), Success((value, ts[..k])), ts, k)
  {
    assert ts[0..] == ts && ts[0..k] == ts[..k];
    assert Uses(Success((value, ts)), Success((value, ts[..k])), ts, k, 0);
  }

  lemma {:induction false} MatrixPrefix(ts: seq<Word>, k: nat, read: seq<int>, elems: nat)
    requires k <= |ts| && |read| <= elems
    ensures NeedsExactly(ReadMatrix(ts, read, elems), ReadMatrix(ts[..k], read, elems), ts, k)
    decreases elems - |read|
  {
    if |read| == elems {
      NothingRead(read, ts, k);
    } else if ReadInt(ts).Success? {
      var next := read + [ReadInt(ts).value.0];
      if k == 0 {
        MatrixPrefix(ts[1..], |ts| - 1, next, elems);
        Whole(ts[1..]);
        TooFew(ReadMatrix(ts[1..], next, elems), ts, k, 1);
      } else {
        Slices(ts, 1, k);
        MatrixPrefix(ts[1..], k - 1, next, elems);
        Link(ReadMatrix(ts, read, elems), ReadMatrix(ts[..k], read, elems),
             ReadMatrix(ts[1..], next, elems), ReadMatrix(ts[1..][..k - 1], next, elems), ts, k, 1);
      }
    }
  }

  function WithShape(id: int, side: int, data: Parsed<seq<int>>): Parsed<Entry> {
    var d :- data;
    Success((Entry(id, side, d.0), d.1))
  }

  lemma ElementsPrefix(id: int, side: int, ts: seq<Word>, k: nat)
    requires k <= |ts|
    ensures NeedsExactly(ReadElements(id, side, ts), ReadElements(id, side, ts[..k]), ts, k)
  {
    if AllocStatus(side) == Ok {
      var whole, part := ReadMatrix(ts, [], side * side), ReadMatrix(ts[..k], [], side * side);
      MatrixPrefix(ts, k, [], side * side);
      assert ReadElements(id, side, ts) == WithShape(id, side, whole);
      assert ReadElements(id, side, ts[..k]) == WithShape(id, side, part);
      if whole.Success? {
        var used := Used(whole, part, ts, k);
        assert Uses(WithShape(id, side, whole), WithShape(id, side, part), ts, k, used);
      }
    }
  }

  /** Reading on after a first part. */
  lemma Then<T(!new)>(whole: Parsed<T>, part: Parsed<T>, ts: seq<Word>, k: nat, first: nat)
    requires first <= k <= |ts| && NeedsExactly(whole, part, ts[first..], k - first)
    ensures NeedsExactly(whole, part, ts, k)
  {
    if whole.Success? {
      var used := Used(whole, part, ts[first..], k - first);
      assert ts[first..][used..] == ts[first + used..];
      if used <= k - first {
        assert ts[first..][used..k - first] == ts[first + used..k];
      }
      assert Uses(whole, part, ts, k, first + used);
    }
  }

  /** Then, for what the first part leaves. */
  lemma Link<T(!new)>(whole: Parsed<T>, part: Parsed<T>, a: Parsed<T>, b: Parsed<T>, ts: seq<Word>, k: nat, first: nat)
    requires first <= k <= |ts| && whole == a && part == b && NeedsExactly(a, b, ts[first..], k - first)
    ensures NeedsExactly(whole, part, ts, k)
  {
    Then(a, b, ts, k, first);
  }

  /** Too little for the first part is too little for the whole. */
  lemma TooFew<T(!new)>(whole: Parsed<T>, ts: seq<Word>, k: nat, first: nat)
    requires k < first <= |ts| && NeedsExactly(whole, whole, ts[first..], |ts| - first)
    ensures NeedsExactly(whole, Failure(ErrParse), ts, k)
  {
    if whole.Success? {
      var used := Used(whole, whole, ts[first..], |ts| - first);
      assert ts[first..][used..] == ts[first + used..];
      assert Uses(whole, Failure(ErrParse), ts, k, first + used);
    }
  }

  lemma Whole(ts: seq<Word>)
    ensures ts[..|ts|] == ts
  {
  }

  /** Cutting off before or after a first part. */
  lemma Slices(ts: seq<Word>, first: nat, k: nat)
    requires first <= k <= |ts|
    ensures ts[..k][first..] == ts[first..][..k - first] == ts[first..k]
    ensures ts[..k][..first] == ts[..first]
  {
  }

  lemma EntryParts(ts: seq<Word>)
    ensures ReadEntry(ts).Success? ==>
              && |ts| >= 2 && ReadInt(ts).Success? && ReadInt(ts[1..]).Success?
              && ReadEntry(ts) == ReadElements(ReadInt(ts).value.0, ReadInt(ts[1..]).value.0, ts[2..])
  {
    if |ts| >= 2 {
      assert ts[1..][1..] == ts[2..];
    }
  }

  lemma EntryLong(ts: seq<Word>, k: nat)
    requires 2 <= k <= |ts| && ReadEntry(ts).Success?
    ensures |ts| >= 2 && ReadInt(ts).Success? && ReadInt(ts[1..]).Success?
    ensures ReadEntry(ts[..k]) == ReadElements(ReadInt(ts).value.0, ReadInt(ts[1..]).value.0, ts[2..][..k - 2])
  {
    EntryParts(ts);
    var part := ts[..k];
    Slices(ts, 2, k);
    assert part[1..][1..] == part[2..];
    assert part[0] == ts[0] && part[1..][0] == ts[1..][0];
  }

  lemma EntryShort(ts: seq<Word>, k: nat)
    requires k < 2 && k <= |ts| && ReadEntry(ts).Success?
    ensures ReadEntry(ts[..k]) == Failure(ErrParse)
  {
    EntryParts(ts);
    if k == 1 {
      assert ts[..k][0] == ts[0] && ts[..k][1..] == [];
    }
  }

  lemma EntryPrefix(ts: seq<Word>, k: nat)
    requires k <= |ts|
    ensures NeedsExactly(ReadEntry(ts), ReadEntry(ts[..k]), ts, k)
  {
    if ReadEntry(ts).Success? {
      EntryParts(ts);
      var id, side := ReadInt(ts).value.0, ReadInt(ts[1..]).value.0;
      if k < 2 {
        EntryShort(ts, k);
        ElementsPrefix(id, side, ts[2..], |ts| - 2);
        Whole(ts[2..]);
        TooFew(ReadEntry(ts), ts, k, 2);
      } else {
        EntryLong(ts, k);
        ElementsPrefix(id, side, ts[2..], k - 2);
        Then(ReadEntry(ts), ReadEntry(ts[..k]), ts, k, 2);
      }
    }
  }

  /** One entry and the rest. */
  lemma EntriesParts<T>(make: Entry -> T, ts: seq<Word>, read: seq<T>, count: nat)
    requires |read| < count && ReadEntry(ts).Success?
    ensures ReadEntries(make, ts, read, count) ==
            ReadEntries(make, ReadEntry(ts).value.1, read + [make(ReadEntry(ts).value.0)], count)
  {
  }

  lemma EntriesFail<T>(make: Entry -> T, ts: seq<Word>, read: seq<T>, count: nat)
    requires |read| < count && ReadEntry(ts).Failure?
    ensures ReadEntries(make, ts, read, count) == Failure(ReadEntry(ts).status)
  {
  }

  lemma EntryUse(ts: seq<Word>, k: nat) returns (first: nat)
    requires k <= |ts| && ReadEntry(ts).Success?
    ensures first <= |ts| && ReadEntry(ts).value.1 == ts[first..]
    ensures ReadEntry(ts[..k]) ==
            if k < first then Failure(ErrParse) else Success((ReadEntry(ts).value.0, ts[first..k]))
  {
    EntryPrefix(ts, k);
    first := Used(ReadEntry(ts), ReadEntry(ts[..k]), ts, k);
  }

  lemma {:induction false} EntriesPrefix<T(!new)>(make: Entry -> T, ts: seq<Word>, k: nat, read: seq<T>, count: nat)
    requires k <= |ts| && |read| <= count
    ensures NeedsExactly(ReadEntries(make, ts, read, count), ReadEntries(make, ts[..k], read, count), ts, k)
    decreases count - |read|
  {
    if |read| == count {
      NothingRead(read, ts, k);
    } else if ReadEntry(ts).Failure? {
      EntriesFail(make, ts, read, count);
    } else {
      var first := EntryUse(ts, k);
      if k < first {
        EntriesShort(make, ts, k, first, read, count);
      } else {
        var rest, next := ts[first..], read + [make(ReadEntry(ts).value.0)];
        EntriesPrefix(make, rest, k - first, next, count);
        EntriesLongParts(make, ts, k, first, read, count);
        EntriesLong(make, ts, k, first, read, count,
                    ReadEntries(make, rest, next, count), ReadEntries(make, rest[..k - first], next, count));
      }
    }
  }

  lemma EntriesShort<T(!new)>(make: Entry -> T, ts: seq<Word>, k: nat, first: nat, read: seq<T>, count: nat)
    requires k < first <= |ts| && |read| < count
    requires ReadEntry(ts).Success? && ReadEntry(ts).value.1 == ts[first..] && ReadEntry(ts[..k]) == Failure(ErrParse)
    ensures NeedsExactly(ReadEntries(make, ts, read, count), ReadEntries(make, ts[..k], read, count), ts, k)
    decreases count - |read|, 0
  {
    var next := read + [make(ReadEntry(ts).value.0)];
    EntriesFail(make, ts[..k], read, count);
    EntriesParts(make, ts, read, count);
    EntriesPrefix(make, ts[first..], |ts| - first, next, count);
    Whole(ts[first..]);
    TooFew(ReadEntries(make, ts[first..], next, count), ts, k, first);
  }

  lemma EntriesLongParts<T>(make: Entry -> T, ts: seq<Word>, k: nat, first: nat, read: seq<T>, count: nat)
    requires first <= k <= |ts| && |read| < count
    requires ReadEntry(ts).Success? && ReadEntry(ts).value.1 == ts[first..]
    requires ReadEntry(ts[..k]) == Success((ReadEntry(ts).value.0, ts[first..k]))
    ensures var next := read + [make(ReadEntry(ts).value.0)];
            && ReadEntries(make, ts, read, count) == ReadEntries(make, ts[first..], next, count)
            && ReadEntries(make, ts[..k], read, count) == ReadEntries(make, ts[first..][..k - first], next, count)
  {
    EntriesParts(make, ts, read, count);
    EntriesParts(make, ts[..k], read, count);
    Slices(ts, first, k);
  }

  lemma EntriesLong<T(!new)>(
    make: Entry -> T, ts: seq<Word>, k: nat, first: nat, read: seq<T>, count: nat, a: Parsed<seq<T>>, b: Parsed<seq<T>>)
    requires first <= k <= |ts| && |read| < count
    requires ReadEntries(make, ts, read, count) == a && ReadEntries(make, ts[..k], read, count) == b
    requires NeedsExactly(a, b, ts[first..], k - first)
    ensures NeedsExactly(ReadEntries(make, ts, read, count), ReadEntries(make, ts[..k], read, count), ts, k)
  {
    Then(a, b, ts, k, first);
  }

  lemma SectionParts<T>(make: Entry -> T, ts: seq<Word>)
    ensures if ReadCount(ts).Success? then
              ReadSection(make, ts) == ReadEntries(make, ReadCount(ts).value.1, [], ReadCount(ts).value.0)
            else ReadSection(make, ts) == Failure(ReadCount(ts).status)
  {
  }

  lemma CountPrefix(ts: seq<Word>, k: nat)
    requires k <= |ts| && ReadCount(ts).Success?
    ensures |ts| > 0 && ReadCount(ts).value.1 == ts[1..]
    ensures ReadCount(ts[..k]) == if k == 0 then Failure(ErrParse) else Success((ReadCount(ts).value.0, ts[1..][..k - 1]))
  {
    IntPrefix(ts, k);
    if k > 0 {
      Slices(ts, 1, k);
    }
  }

  lemma SectionPrefix<T(!new)>(make: Entry -> T, ts: seq<Word>, k: nat)
    requires k <= |ts|
    ensures NeedsExactly(ReadSection(make, ts), ReadSection(make, ts[..k]), ts, k)
  {
    var whole := ReadSection(make, ts);
    SectionParts(make, ts);
    if whole.Success? {
      var count := ReadCount(ts).value.0;
      CountPrefix(ts, k);
      SectionParts(make, ts[..k]);
      if k == 0 {
        EntriesPrefix(make, ts[1..], |ts| - 1, [], count);
        Whole(ts[1..]);
        TooFew(whole, ts, k, 1);
      } else {
        EntriesPrefix(make, ts[1..], k - 1, [], count);
        Then(whole, ReadSection(make, ts[..k]), ts, k, 1);
      }
    }
  }

  /** The objects, once the pictures are known. */
  function WithPictures(pictures: seq<Picture>, objects: Parsed<seq<Object>>): Parsed<(seq<Picture>, seq<Object>)> {
    var found :- objects;
    Success(((pictures, found.0), found.1))
  }

  function ReadObjects(pictures: seq<Picture>, ts: seq<Word>): Parsed<(seq<Picture>, seq<Object>)> {
    WithPictures(pictures, ReadSection(ToObject, ts))
  }

  lemma PicturesKept(pictures: seq<Picture>, whole: Parsed<seq<Object>>, part: Parsed<seq<Object>>, ts: seq<Word>, k: nat)
    requires NeedsExactly(whole, part, ts, k)
    ensures NeedsExactly(WithPictures(pictures, whole), WithPictures(pictures, part), ts, k)
  {
    if whole.Success? && k <= |ts| {
      var used := Used(whole, part, ts, k);
      assert Uses(WithPictures(pictures, whole), WithPictures(pictures, part), ts, k, used);
    }
  }

  /** Both sections, one after the other. */
  function ReadBoth(ts: seq<Word>): Parsed<(seq<Picture>, seq<Object>)> {
    var pictures :- ReadSection(ToPicture, ts);
    ReadObjects(pictures.0, pictures.1)
  }

  lemma ObjectsPrefix(pictures: seq<Picture>, ts: seq<Word>, k: nat)
    requires k <= |ts|
    ensures NeedsExactly(ReadObjects(pictures, ts), ReadObjects(pictures, ts[..k]), ts, k)
  {
    SectionPrefix(ToObject, ts, k);
    PicturesKept(pictures, ReadSection(ToObject, ts), ReadSection(ToObject, ts[..k]), ts, k);
  }

  lemma BothParts(ts: seq<Word>)
    ensures if ReadSection(ToPicture, ts).Success? then
              var pictures := ReadSection(ToPicture, ts).value;
              ReadBoth(ts) == ReadObjects(pictures.0, pictures.1)
            else ReadBoth(ts) == Failure(ReadSection(ToPicture, ts).status)
  {
  }

  lemma BothShort(ts: seq<Word>, k: nat, first: nat, pictures: seq<Picture>)
    requires k < first <= |ts| && ReadSection(ToPicture, ts) == Success((pictures, ts[first..]))
    requires ReadSection(ToPicture, ts[..k]) == Failure(ErrParse)
    ensures NeedsExactly(ReadBoth(ts), ReadBoth(ts[..k]), ts, k)
  {
    BothParts(ts);
    BothParts(ts[..k]);
    ObjectsPrefix(pictures, ts[first..], |ts| - first);
    Whole(ts[first..]);
    TooFew(ReadObjects(pictures, ts[first..]), ts, k, first);
  }

  lemma BothLong(ts: seq<Word>, k: nat, first: nat, pictures: seq<Picture>)
    requires first <= k <= |ts| && ReadSection(ToPicture, ts) == Success((pictures, ts[first..]))
    requires ReadSection(ToPicture, ts[..k]) == Success((pictures, ts[first..k]))
    ensures NeedsExactly(ReadBoth(ts), ReadBoth(ts[..k]), ts, k)
  {
    var rest := ts[first..];
    var a, b := ReadObjects(pictures, rest), ReadObjects(pictures, rest[..k - first]);
    ObjectsPrefix(pictures, rest, k - first);
    BothLongParts(ts, k, first, pictures);
    Link(ReadBoth(ts), ReadBoth(ts[..k]), a, b, ts, k, first);
  }

  lemma BothLongParts(ts: seq<Word>, k: nat, first: nat, pictures: seq<Picture>)
    requires first <= k <= |ts| && ReadSection(ToPicture, ts) == Success((pictures, ts[first..]))
    requires ReadSection(ToPicture, ts[..k]) == Success((pictures, ts[first..k]))
    ensures ReadBoth(ts) == ReadObjects(pictures, ts[first..])
    ensures ReadBoth(ts[..k]) == ReadObjects(pictures, ts[first..][..k - first])
  {
    BothParts(ts);
    BothParts(ts[..k]);
    Slices(ts, first, k);
  }

  lemma BothPrefix(ts: seq<Word>, k: nat)
    requires k <= |ts|
    ensures NeedsExactly(ReadBoth(ts), ReadBoth(ts[..k]), ts, k)
  {
    if ReadSection(ToPicture, ts).Success? {
      var first := PicturesUse(ts, k);
      if k < first {
        BothShort(ts, k, first, ReadSection(ToPicture, ts).value.0);
      } else {
        BothLong(ts, k, first, ReadSection(ToPicture, ts).value.0);
      }
    } else {
      BothParts(ts);
    }
  }

  lemma PicturesUse(ts: seq<Word>, k: nat) returns (first: nat)
    requires k <= |ts| && ReadSection(ToPicture, ts).Success?
    ensures first <= |ts| && ReadSection(ToPicture, ts) == Success((ReadSection(ToPicture, ts).value.0, ts[first..]))
    ensures ReadSection(ToPicture, ts[..k]) ==
            if k < first then Failure(ErrParse) else Success((ReadSection(ToPicture, ts).value.0, ts[first..k]))
  {
    SectionPrefix(ToPicture, ts, k);
    first := Used(ReadSection(ToPicture, ts), ReadSection(ToPicture, ts[..k]), ts, k);
  }

  /** The threshold and the rest. */
  function WithThreshold(threshold: Double, both: Parsed<(seq<Picture>, seq<Object>)>): Parsed<Problem> {
    var sections :- both;
    Success((Problem(threshold, sections.0.0, sections.0.1), sections.1))
  }

  lemma RawParts(strtod: Strtod, ts: seq<Word>)
    ensures if ReadThreshold(strtod, ts).Success? then
              var threshold := ReadThreshold(strtod, ts).value;
              Raw(strtod, ts) == WithThreshold(threshold.0, ReadBoth(threshold.1))
            else Raw(strtod, ts) == Failure(ErrParse)
  {
  }

  lemma RawShort(strtod: Strtod, ts: seq<Word>)
    ensures NeedsExactly(Raw(strtod, ts), Raw(strtod, []), ts, 0)
  {
    RawParts(strtod, ts);
    if ReadThreshold(strtod, ts).Success? {
      BothPrefix(ts[1..], |ts| - 1);
      Whole(ts[1..]);
      var both := ReadBoth(ts[1..]);
      Threshold(ReadThreshold(strtod, ts).value.0, both, both, ts[1..], |ts| - 1);
      TooFew(Raw(strtod, ts), ts, 0, 1);
    }
  }

  lemma RawLong(strtod: Strtod, ts: seq<Word>, k: nat)
    requires 0 < k <= |ts|
    ensures NeedsExactly(Raw(strtod, ts), Raw(strtod, ts[..k]), ts, k)
  {
    RawParts(strtod, ts);
    RawParts(strtod, ts[..k]);
    if ReadThreshold(strtod, ts).Success? {
      Slices(ts, 1, k);
      BothPrefix(ts[1..], k - 1);
      var threshold := ReadThreshold(strtod, ts).value.0;
      var whole, part := ReadBoth(ts[1..]), ReadBoth(ts[1..][..k - 1]);
      Threshold(threshold, whole, part, ts[1..], k - 1);
      Link(Raw(strtod, ts), Raw(strtod, ts[..k]), WithThreshold(threshold, whole), WithThreshold(threshold, part), ts, k, 1);
    }
  }

  lemma RawPrefix(strtod: Strtod, ts: seq<Word>, k: nat)
    requires k <= |ts|
    ensures NeedsExactly(Raw(strtod, ts), Raw(strtod, ts[..k]), ts, k)
  {
    if k == 0 {
      RawShort(strtod, ts);
    } else {
      RawLong(strtod, ts, k);
    }
  }

  lemma Threshold(threshold: Double, whole: Parsed<(seq<Picture>, seq<Object>)>,
                  part: Parsed<(seq<Picture>, seq<Object>)>, ts: seq<Word>, k: nat)
    requires NeedsExactly(whole, part, ts, k)
    ensures NeedsExactly(WithThreshold(threshold, whole), WithThreshold(threshold, part), ts, k)
  {
    if whole.Success? && k <= |ts| {
      var used := Used(whole, part, ts, k);
      assert Uses(WithThreshold(threshold, whole), WithThreshold(threshold, part), ts, k, used);
    }
  }

  /** Truncation: a text with the tokens of a problem, cut off anywhere before the
      last token that the problem needs, is malformed; with that token it is read in
      full, and nothing after it matters. */
  lemma TruncatedIsMalformed(strtod: Strtod, ts: seq<Word>, k: nat)
    requires k <= |ts| && Raw(strtod, ts).Success?
    ensures var used := |ts| - |Raw(strtod, ts).value.1|;
            && 0 < used
            && Parse(strtod, ts[..k]) == if k < used then Failure(ErrParse) else Parse(strtod, ts)
  {
    RawPrefix(strtod, ts, k);
    var used := Used(Raw(strtod, ts), Raw(strtod, ts[..k]), ts, k);
    RawShort(strtod, ts);
    var some := Used(Raw(strtod, ts), Raw(strtod, []), ts, 0);
  }

  // ---------------------------------------------------------- what is invalid

  /** A printed count is accepted from 0 to 1000000; any other int is invalid. */
  lemma CountBounds(v: int, more: seq<Word>)
    requires InInt(v)
    ensures ReadCount([IntWord(v)] + more) == if 0 <= v <= 1_000_000 then Success((v, more)) else Failure(ErrInvalid)
  {
    ReadIntWord(v, more);
  }

  /** A printed size is accepted from 1 to 46340; any other int is invalid, before
      a single element is read. */
  lemma SizeBounds(id: int, side: int, more: seq<Word>)
    requires InInt(id) && InInt(side) && !(1 <= side <= 46340)
    ensures ReadEntry([IntWord(id), IntWord(side)] + more) == Failure(ErrInvalid)
  {
    assert [IntWord(id), IntWord(side)] + more == [IntWord(id)] + ([IntWord(side)] + more);
    ReadIntWord(id, [IntWord(side)] + more);
    ReadIntWord(side, more);
  }

  /** A word of up to 63 characters is a token; a longer one is not. */
  lemma TokenLength(w: string)
    requires w != "" && w[0] != '#' && forall i | 0 <= i < |w| :: !IsSpace(w[i])
    ensures Tokens(w) == if |w| <= 63 then [Word(w)] else [TooLongWord]
  {
    WordIsAll(w);
    assert w[..|w|] == w && w[|w|..] == "";
  }

  /** Exactly what validation accepts: a positive threshold (so not NaN), pictures
      of side 1 to 46340 with data, objects of positive side with data. */
  lemma ValidationAccepts(p: Problem)
    ensures Validated(p).Success? <==>
            && Positive(p.threshold)
            && (forall i | 0 <= i < |p.pictures| :: 1 <= p.pictures[i].n <= 46340 && p.pictures[i].data != [])
            && (forall k | 0 <= k < |p.objects| :: 1 <= p.objects[k].m && p.objects[k].data != [])
    ensures Validated(p).Failure? ==> Validated(p).status == ErrInvalid
    ensures Validated(p).Success? ==>
              Validated(p).value.threshold == p.threshold && Validated(p).value.pictures == p.pictures
              && Validated(p).value.objects == Sort(p.objects)
  {
    forall i | 0 <= i < |p.pictures| && p.pictures[i].n > 0
      ensures PlacementCount(p.pictures[i].n, 1) <= NO_PLACEMENT <==> p.pictures[i].n <= 46340
    {
      SquareFits(p.pictures[i].n);
    }
  }

  /** Decimal digits are the ASCII ones, most significant first. */
  lemma DigitsAreDecimal()
    ensures IntText(67890) == "67890" && IntText(-12345) == "-12345"
    ensures ParseInt("67890") == Some(67890) && ParseInt("-012345") == Some(-12345)
  {
    ManyDigits();
    assert Zeros(0) == "" && Zeros(1) == "0";
    assert IsNumeral("67890", "", 0, 67890) && IsNumeral("-012345", "-", 1, 12345);
    NumeralIsRead("67890", "", 0, 67890);
    NumeralIsRead("-012345", "-", 1, 12345);
    NegativeText();
  }

  lemma NegativeText()
    ensures IntText(67890) == "67890" && IntText(-12345) == "-12345"
  {
    ManyDigits();
  }

  lemma ManyDigits()
    ensures Digits(67890) == "67890" && Digits(12345) == "12345"
  {
    DigitsStep(6, 7);
    DigitsStep(67, 8);
    DigitsStep(678, 9);
    DigitsStep(6789, 0);
    DigitsStep(1, 2);
    DigitsStep(12, 3);
    DigitsStep(123, 4);
    DigitsStep(1234, 5);
  }
}
