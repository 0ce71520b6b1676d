/** The problem format of parser.c. A grammar on the list of tokens is the
    specification; the reader consumes a Lexer and fills arrays in place. */
module Parsing {
  import opened Types
  import opened Integers
  import opened Problems
  import opened Lexing

  const MAX_COUNT := 1_000_000

  // ------------------------------------------------------------------ numbers

  /** The C string in a token buffer: what precedes its first zero byte. */
  function CString(t: string): string {
    if t == "" || t[0] as int == 0 then "" else [t[0]] + CString(t[1..])
  }

  predicate IsDigit(c: char) { '0' <= c <= '9' }

  predicate AllDigits(t: string) { forall i | 0 <= i < |t| :: IsDigit(t[i]) }

  function Value(t: string): nat
    requires AllDigits(t)
  {
    if t == "" then 0 else Value(t[..|t| - 1]) * 10 + (t[|t| - 1] as int - '0' as int)
  }

  predicate InInt(v: int) { INT_MIN <= v <= INT_MAX }

  /** What expect_int accepts of a token: strtol in base 10 must use all of it,
      and the value must be an int. */
  function ParseInt(t: string): (v: Option<int>)
    ensures v.Some? ==> InInt(v.value)
  {
    var digits := if t != "" && t[0] in {'-', '+'} then t[1..] else t;
    if digits == "" || !AllDigits(digits) then None
    else
      var v: int := if t[0] == '-' then 0 - Value(digits) else Value(digits);
      if InInt(v) then Some(v) else None
  }

  // ------------------------------------------------------------------ grammar

  /** strtod with its two checks: none unless the whole token is a number. */
  type Strtod = string -> Option<Double>

  /** A picture or an object of the text: both have this shape. */
  datatype Entry = Entry(id: int, side: int, data: seq<int>)

  function ToPicture(e: Entry): Picture { Picture(e.id, e.side, e.data) }
  function ToObject(e: Entry): Object { Object(e.id, e.side, e.data) }

  type Parsed<T> = Result<(T, seq<Word>)>

  function ReadThreshold(strtod: Strtod, ts: seq<Word>): Parsed<Double> {
    if ts == [] || ts[0].TooLongWord? then Failure(ErrParse)
    else match strtod(CString(ts[0].text))
      case None => Failure(ErrParse)
      case Some(v) => Success((v, ts[1..]))
  }

  function ReadInt(ts: seq<Word>): (r: Parsed<int>)
    ensures r.Success? ==> InInt(r.value.0) && ts != [] && r.value.1 == ts[1..]
  {
    if ts == [] || ts[0].TooLongWord? then Failure(ErrParse)
    else match ParseInt(CString(ts[0].text))
      case None => Failure(ErrParse)
      case Some(v) => Success((v, ts[1..]))
  }

  function ReadCount(ts: seq<Word>): (r: Parsed<int>)
    ensures r.Success? ==> 0 <= r.value.0 <= MAX_COUNT
  {
    var c :- ReadInt(ts);
    if 0 <= c.0 <= MAX_COUNT then Success(c) else Failure(ErrInvalid)
  }

  function ReadMatrix(ts: seq<Word>, read: seq<int>, elems: nat): Parsed<seq<int>>
    requires |read| <= elems
    decreases elems - |read|
  {
    if |read| == elems then Success((read, ts))
    else
      var v :- ReadInt(ts);
      ReadMatrix(v.1, read + [v.0], elems)
  }

  function ReadEntry(ts: seq<Word>): Parsed<Entry> {
    var id :- ReadInt(ts);
    var side :- ReadInt(id.1);
    ReadElements(id.0, side.0, side.1)
  }

  /** The reservation and the elements, once id and size are known. */
  function ReadElements(id: int, side: int, ts: seq<Word>): Parsed<Entry> {
    if AllocStatus(side) != Ok then Failure(AllocStatus(side))
    else
      var data :- ReadMatrix(ts, [], side * side);
      Success((Entry(id, side, data.0), data.1))
  }

  function ReadEntries<T>(make: Entry -> T, ts: seq<Word>, read: seq<T>, count: nat): Parsed<seq<T>>
    requires |read| <= count
    decreases count - |read|
  {
    if |read| == count then Success((read, ts))
    else
      var e :- ReadEntry(ts);
      ReadEntries(make, e.1, read + [make(e.0)], count)
  }

  /** A count and that many entries. */
  function ReadSection<T>(make: Entry -> T, ts: seq<Word>): Parsed<seq<T>> {
    var count :- ReadCount(ts);
    ReadEntries(make, count.1, [], count.0)
  }

  /** The problem of a text, before it is validated. */
  function Raw(strtod: Strtod, ts: seq<Word>): Parsed<Problem> {
    var threshold :- ReadThreshold(strtod, ts);
    var pictures :- ReadSection(ToPicture, threshold.1);
    var objects :- ReadSection(ToObject, pictures.1);
    Success((Problem(threshold.0, pictures.0, objects.0), objects.1))
  }

  /** msearch_read_problem_stream on a list of tokens; the tokens that are left
      over are ignored. */
  function Parse(strtod: Strtod, ts: seq<Word>): Result<Problem> {
    var raw :- Raw(strtod, ts);
    Validated(raw.0)
  }

  // ------------------------------------------------------- the reader itself

  /** `r` and the tokens still ahead are what the grammar says. */
  predicate Agrees<T(==)>(spec: Parsed<T>, r: Result<T>, ahead: seq<Word>) {
    match spec
    case Failure(status) => r == Failure(status) && status != Ok
    case Success(v) => r == Success(v.0) && ahead == v.1
  }

  /** A token as expect_int and expect_double see it. */
  method NextText(lexer: Lexer) returns (r: Result<string>)
    requires lexer.Valid()
    modifies lexer
    ensures lexer.Valid()
    ensures var ts := old(lexer.Ahead());
            if ts == [] || ts[0].TooLongWord? then r == Failure(ErrParse)
            else r == Success(CString(ts[0].text)) && lexer.Ahead() == ts[1..]
  {
    var ok := lexer.Next();
    if !ok {
      return Failure(ErrParse);
    }
    r := Success(CString(lexer.token));
  }

  /** expect_double. */
  method ExpectDouble(strtod: Strtod, lexer: Lexer) returns (r: Result<Double>)
    requires lexer.Valid()
    modifies lexer
    ensures lexer.Valid() && Agrees(ReadThreshold(strtod, old(lexer.Ahead())), r, lexer.Ahead())
  {
    var text := NextText(lexer);
    if text.Failure? {
      return Failure(text.status);
    }
    var v := strtod(text.value);
    r := if v.Some? then Success(v.value) else Failure(ErrParse);
  }

  /** expect_int. */
  method ExpectInt(lexer: Lexer) returns (r: Result<int>)
    requires lexer.Valid()
    modifies lexer
    ensures lexer.Valid() && Agrees(ReadInt(old(lexer.Ahead())), r, lexer.Ahead())
  {
    var text := NextText(lexer);
    if text.Failure? {
      return Failure(text.status);
    }
    var v := ParseInt(text.value);
    r := if v.Some? then Success(v.value) else Failure(ErrParse);
  }

  /** read_count. */
  method ExpectCount(lexer: Lexer) returns (r: Result<int>)
    requires lexer.Valid()
    modifies lexer
    ensures lexer.Valid() && Agrees(ReadCount(old(lexer.Ahead())), r, lexer.Ahead())
  {
    r := ExpectInt(lexer);
    if r.Success? && (r.value < 0 || r.value > MAX_COUNT) {
      r := Failure(ErrInvalid);
    }
  }

  /** read_matrix: the elements, one token each, into the data array. */
  method FillMatrix(lexer: Lexer, data: array<int>) returns (status: Status)
    requires lexer.Valid()
    modifies lexer, data
    ensures lexer.Valid()
    ensures match ReadMatrix(old(lexer.Ahead()), [], data.Length)
            case Failure(error) => status == error && status != Ok
            case Success(v) => status == Ok && data[..] == v.0 && lexer.Ahead() == v.1
  {
    for i := 0 to data.Length
      invariant lexer.Valid()
      invariant ReadMatrix(lexer.Ahead(), data[..i], data.Length) == ReadMatrix(old(lexer.Ahead()), [], data.Length)
    {
      var v := ExpectInt(lexer);
      if v.Failure? {
        return v.status;
      }
      data[i] := v.value;
      assert data[..i + 1] == data[..i] + [v.value];
    }
    assert data[..data.Length] == data[..];
    status := Ok;
  }

  /** Id, size, reservation and elements of one picture or object. */
  method ExpectEntry(lexer: Lexer) returns (r: Result<Entry>)
    requires lexer.Valid()
    modifies lexer
    ensures lexer.Valid() && Agrees(ReadEntry(old(lexer.Ahead())), r, lexer.Ahead())
  {
    var id := ExpectInt(lexer);
    if id.Failure? {
      return Failure(id.status);
    }
    var side := ExpectInt(lexer);
    if side.Failure? {
      return Failure(side.status);
    }
    var status := AllocStatus(side.value);
    if status != Ok {
      return Failure(status);
    }
    SquareGrows(1, side.value);
    var data := new int[side.value * side.value](_ => 0);
    status := FillMatrix(lexer, data);
    if status != Ok {
      return Failure(status);
    }
    r := Success(Entry(id.value, side.value, data[..]));
  }

  /** The two array loops of msearch_read_problem_stream. */
  method FillEntries<T>(make: Entry -> T, lexer: Lexer, out: array<T>) returns (status: Status)
    requires lexer.Valid()
    modifies lexer, out
    ensures lexer.Valid()
    ensures match ReadEntries(make, old(lexer.Ahead()), [], out.Length)
            case Failure(error) => status == error && status != Ok
            case Success(v) => status == Ok && out[..] == v.0 && lexer.Ahead() == v.1
  {
    for i := 0 to out.Length
      invariant lexer.Valid()
      invariant ReadEntries(make, lexer.Ahead(), out[..i], out.Length) == ReadEntries(make, old(lexer.Ahead()), [], out.Length)
    {
      var e := ExpectEntry(lexer);
      if e.Failure? {
        return e.status;
      }
      out[i] := make(e.value);
      assert out[..i + 1] == out[..i] + [make(e.value)];
    }
    assert out[..out.Length] == out[..];
    status := Ok;
  }

  /** A count, an array of that size, and its entries. */
  method ExpectSection<T>(make: Entry -> T, lexer: Lexer) returns (status: Status, out: array<T>)
    requires lexer.Valid()
    modifies lexer
    ensures lexer.Valid() && fresh(out)
    ensures match ReadSection(make, old(lexer.Ahead()))
            case Failure(error) => status == error && status != Ok
            case Success(v) => status == Ok && out[..] == v.0 && lexer.Ahead() == v.1
  {
    var count := ExpectCount(lexer);
    if count.Failure? {
      return count.status, new T[0];
    }
    out := new T[count.value](_ => make(Entry(0, 0, [])));
    status := FillEntries(make, lexer, out);
  }

  /** msearch_read_problem_stream on a whole text. */
  method ReadProblem(strtod: Strtod, text: string) returns (r: Result<Problem>)
    ensures r == Parse(strtod, Tokens(text))
  {
    var lexer := new Lexer(text);
    assert lexer.Rest() == text;
    var threshold := ExpectDouble(strtod, lexer);
    if threshold.Failure? {
      return Failure(threshold.status);
    }
    var status, pictures := ExpectSection(ToPicture, lexer);
    if status != Ok {
      return Failure(status);
    }
    var status', objects := ExpectSection(ToObject, lexer);
    if status' != Ok {
      return Failure(status');
    }
    var trailing := lexer.Next();
    status := Validate(threshold.value, pictures, objects);
    r := if status == Ok then Success(Problem(threshold.value, pictures[..], objects[..])) else Failure(status);
  }
}
