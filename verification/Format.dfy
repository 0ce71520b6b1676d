/** What holds of every text the parser accepts, and of every text it rejects. */
module Format {
  import opened Types
  import opened Sorting
  import opened Problems
  import opened Lexing
  import opened Parsing

  // -------------------------------------------------- what a parse establishes

  /** An entry as read from a text: int numbers, an int number of elements. */
  predicate Fits(e: Entry) {
    && InInt(e.id) && 1 <= e.side <= MAX_SIDE && |e.data| == e.side * e.side
    && forall i | 0 <= i < |e.data| :: InInt(e.data[i])
  }

  function PictureEntry(p: Picture): Entry { Entry(p.id, p.n, p.data) }
  function ObjectEntry(o: Object): Entry { Entry(o.id, o.m, o.data) }

  /** A problem that can be written down: every number is an int and the two
      counts are within the parser's bound. */
  predicate Printable(p: Problem) {
    && |p.pictures| <= MAX_COUNT && |p.objects| <= MAX_COUNT
    && (forall i | 0 <= i < |p.pictures| :: Fits(PictureEntry(p.pictures[i])))
    && (forall k | 0 <= k < |p.objects| :: Fits(ObjectEntry(p.objects[k])))
  }

  lemma {:induction false} MatrixIsFull(ts: seq<Word>, read: seq<int>, elems: nat)
    requires |read| <= elems && forall i | 0 <= i < |read| :: InInt(read[i])
    ensures match ReadMatrix(ts, read, elems)
            case Failure(error) => error == ErrParse
            case Success(v) => |v.0| == elems && forall i | 0 <= i < elems :: InInt(v.0[i])
    decreases elems - |read|
  {
    if |read| < elems && ReadInt(ts).Success? {
      var v := ReadInt(ts).value;
      MatrixIsFull(v.1, read + [v.0], elems);
    }
  }

  lemma EntryFits(ts: seq<Word>)
    ensures match ReadEntry(ts)
            case Failure(error) => error in {ErrParse, ErrInvalid}
            case Success(v) => Fits(v.0)
  {
    if ReadInt(ts).Success? && ReadInt(ReadInt(ts).value.1).Success? {
      var side := ReadInt(ReadInt(ts).value.1).value;
      SquareFits(side.0);
      if AllocStatus(side.0) == Ok {
        MatrixIsFull(side.1, [], side.0 * side.0);
      }
    }
  }

  lemma {:induction false} EntriesFit<T(!new)>(
    make: Entry -> T, view: T -> Entry, ts: seq<Word>, read: seq<T>, count: nat)
    requires |read| <= count && forall i | 0 <= i < |read| :: Fits(view(read[i]))
    requires forall e :: view(make(e)) == e
    ensures match ReadEntries(make, ts, read, count)
            case Failure(error) => error in {ErrParse, ErrInvalid}
            case Success(v) => |v.0| == count && forall i | 0 <= i < count :: Fits(view(v.0[i]))
    decreases count - |read|
  {
    EntryFits(ts);
    if |read| < count && ReadEntry(ts).Success? {
      var e := ReadEntry(ts).value;
      EntriesFit(make, view, e.1, read + [make(e.0)], count);
    }
  }

  lemma SectionFits<T(!new)>(make: Entry -> T, view: T -> Entry, ts: seq<Word>)
    requires forall e :: view(make(e)) == e
    ensures match ReadSection(make, ts)
            case Failure(error) => error in {ErrParse, ErrInvalid}
            case Success(v) => |v.0| <= MAX_COUNT && forall i | 0 <= i < |v.0| :: Fits(view(v.0[i]))
  {
    if ReadCount(ts).Success? {
      var count := ReadCount(ts).value;
      EntriesFit(make, view, count.1, [], count.0);
    }
  }

  lemma RawIsPrintable(strtod: Strtod, ts: seq<Word>)
    ensures match Raw(strtod, ts)
            case Failure(error) => error in {ErrParse, ErrInvalid}
            case Success(v) => Printable(v.0)
  {
    if ReadThreshold(strtod, ts).Success? {
      var threshold := ReadThreshold(strtod, ts).value;
      SectionFits(ToPicture, PictureEntry, threshold.1);
      var pictures := ReadSection(ToPicture, threshold.1);
      if pictures.Success? {
        SectionFits(ToObject, ObjectEntry, pictures.value.1);
      }
    }
  }

  lemma PrintableIsComplete(p: Problem)
    requires Printable(p)
    ensures AllComplete(p)
  {
    forall i | 0 <= i < |p.pictures|
      ensures p.pictures[i].Complete()
    {
      assert Fits(PictureEntry(p.pictures[i]));
    }
    forall k | 0 <= k < |p.objects|
      ensures p.objects[k].Complete()
    {
      assert Fits(ObjectEntry(p.objects[k]));
    }
  }

  lemma SortedPrintable(p: Problem)
    requires Printable(p)
    ensures Printable(p.(objects := Sort(p.objects)))
  {
    SortPermutes(p.objects);
    SortKeepsEach(p.objects);
    forall k | 0 <= k < |Sort(p.objects)|
      ensures Fits(ObjectEntry(Sort(p.objects)[k]))
    {
      assert Sort(p.objects)[k] in Sort(p.objects);
    }
  }

  /** A parse can fail in two ways only; once the grammar is satisfied nothing but
      the threshold can make it fail; and a parsed problem is loaded, its sides
      in 1..46340, its matrices full and all its numbers ints. */
  lemma ParsedIsLoaded(strtod: Strtod, ts: seq<Word>)
    ensures Parse(strtod, ts).Success? <==>
            Raw(strtod, ts).Success? && Positive(Raw(strtod, ts).value.0.threshold)
    ensures Parse(strtod, ts).Success? ==> Loaded(Parse(strtod, ts).value) && Printable(Parse(strtod, ts).value)
    ensures Parse(strtod, ts).Failure? ==> Parse(strtod, ts).status in {ErrParse, ErrInvalid}
  {
    RawIsPrintable(strtod, ts);
    if Raw(strtod, ts).Success? {
      var p := Raw(strtod, ts).value.0;
      PrintableIsComplete(p);
      ValidatedIsLoaded(p);
      SortedPrintable(p);
    }
  }

  // ----------------------------------------------------------- trailing tokens

  lemma IntIgnoresMore(ts: seq<Word>, more: seq<Word>)
    requires ReadInt(ts).Success?
    ensures ReadInt(ts + more) == Success((ReadInt(ts).value.0, ts[1..] + more))
  {
    assert (ts + more)[1..] == ts[1..] + more;
  }

  lemma {:induction false} MatrixIgnoresMore(ts: seq<Word>, more: seq<Word>, read: seq<int>, elems: nat)
    requires |read| <= elems && ReadMatrix(ts, read, elems).Success?
    ensures var v := ReadMatrix(ts, read, elems).value;
            ReadMatrix(ts + more, read, elems) == Success((v.0, v.1 + more))
    decreases elems - |read|
  {
    if |read| < elems {
      var v := ReadInt(ts).value;
      IntIgnoresMore(ts, more);
      MatrixIgnoresMore(v.1, more, read + [v.0], elems);
    }
  }

  lemma ElementsIgnoreMore(id: int, side: int, ts: seq<Word>, more: seq<Word>)
    requires ReadElements(id, side, ts).Success?
    ensures var v := ReadElements(id, side, ts).value;
            ReadElements(id, side, ts + more) == Success((v.0, v.1 + more))
  {
    MatrixIgnoresMore(ts, more, [], side * side);
  }

  lemma EntryIgnoresMore(ts: seq<Word>, more: seq<Word>)
    requires ReadEntry(ts).Success?
    ensures var v := ReadEntry(ts).value;
            ReadEntry(ts + more) == Success((v.0, v.1 + more))
  {
    IntIgnoresMore(ts, more);
    IntIgnoresMore(ts[1..], more);
    var side := ReadInt(ts[1..]).value;
    ElementsIgnoreMore(ReadInt(ts).value.0, side.0, side.1, more);
  }

  lemma {:induction false} EntriesIgnoreMore<T>(
    make: Entry -> T, ts: seq<Word>, more: seq<Word>, read: seq<T>, count: nat)
    requires |read| <= count && ReadEntries(make, ts, read, count).Success?
    ensures var v := ReadEntries(make, ts, read, count).value;
            ReadEntries(make, ts + more, read, count) == Success((v.0, v.1 + more))
    decreases count - |read|
  {
    if |read| < count {
      var e := ReadEntry(ts).value;
      EntryIgnoresMore(ts, more);
      EntriesIgnoreMore(make, e.1, more, read + [make(e.0)], count);
    }
  }

  lemma SectionIgnoresMore<T>(make: Entry -> T, ts: seq<Word>, more: seq<Word>)
    requires ReadSection(make, ts).Success?
    ensures var v := ReadSection(make, ts).value;
            ReadSection(make, ts + more) == Success((v.0, v.1 + more))
  {
    IntIgnoresMore(ts, more);
    var count := ReadCount(ts).value;
    EntriesIgnoreMore(make, count.1, more, [], count.0);
  }

  /** Whatever follows a text that parses is ignored, be it well formed or not. */
  lemma TrailingTokensIgnored(strtod: Strtod, ts: seq<Word>, more: seq<Word>)
    requires Parse(strtod, ts).Success?
    ensures Parse(strtod, ts + more) == Parse(strtod, ts)
  {
    assert (ts + more)[1..] == ts[1..] + more;
    SectionIgnoresMore(ToPicture, ts[1..], more);
    SectionIgnoresMore(ToObject, ReadSection(ToPicture, ts[1..]).value.1, more);
  }

  lemma PrefixIgnored(strtod: Strtod, ts: seq<Word>, more: seq<Word>)
    requires Parse(strtod, ts).Success? && ts <= more
    ensures Parse(strtod, more) == Parse(strtod, ts)
  {
    assert more == ts + more[|ts|..];
    TrailingTokensIgnored(strtod, ts, more[|ts|..]);
  }

  // ------------------------------------------------------------- trailing text

  lemma {:induction false} AfterLineMore(s: string, tail: string)
    requires AfterLine(s) != ""
    ensures AfterLine(s + tail) == AfterLine(s) + tail
  {
    if s[0] == '\n' {
      assert (s + tail)[1..] == s[1..] + tail;
    } else {
      assert (s + tail)[1..] == s[1..] + tail;
      AfterLineMore(s[1..], tail);
    }
  }

  lemma {:induction false} SkipMore(s: string, tail: string)
    requires SkipBlanks(s) != ""
    ensures SkipBlanks(s + tail) == SkipBlanks(s) + tail
    decreases |s|
  {
    if IsSpace(s[0]) {
      assert (s + tail)[1..] == s[1..] + tail;
      SkipMore(s[1..], tail);
    } else if s[0] == '#' {
      AfterLineMore(s, tail);
      SkipMore(AfterLine(s), tail);
    }
  }

  predicate Delimits(tail: string) { tail == "" || IsSpace(tail[0]) }

  lemma {:induction false} WordMore(s: string, tail: string)
    requires Delimits(tail)
    ensures WordLength(s + tail) == WordLength(s)
  {
    if s == "" {
      assert s + tail == tail;
    } else if !IsSpace(s[0]) {
      assert (s + tail)[1..] == s[1..] + tail;
      WordMore(s[1..], tail);
    }
  }

  /** More text after a delimiter only adds tokens. */
  lemma {:induction false} TokensMore(s: string, tail: string)
    requires Delimits(tail)
    ensures Tokens(s) <= Tokens(s + tail)
    decreases |s|
  {
    var t := SkipBlanks(s);
    if t != "" {
      SkipMore(s, tail);
      WordMore(t, tail);
      var n := WordLength(t);
      if n < TOKEN_MAX {
        assert (t + tail)[..n] == t[..n];
        assert (t + tail)[n..] == t[n..] + tail;
        if n < |t| {
          assert (t[n..] + tail)[1..] == t[n..][1..] + tail;
          TokensMore(AfterBlank(t[n..]), tail);
        }
      }
    }
  }

  /** Text after a delimiter never changes what a text that parses means. */
  lemma TrailingTextIgnored(strtod: Strtod, s: string, tail: string)
    requires Delimits(tail) && Parse(strtod, Tokens(s)).Success?
    ensures Parse(strtod, Tokens(s + tail)) == Parse(strtod, Tokens(s))
  {
    TokensMore(s, tail);
    PrefixIgnored(strtod, Tokens(s), Tokens(s + tail));
  }
}
