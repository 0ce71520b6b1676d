/** The writer of gen_input.py, line by line, and what the parser makes of it. */
module Generator {
  import opened Types
  import opened Integers
  import opened Problems
  import opened Lexing
  import opened Parsing
  import opened Format
  import opened Printing

  /** Text that stops at the end of a line. */
  predicate WholeLines(s: string) { s == "" || s[|s| - 1] == '\n' }

  /** Text with no over-long token in it. */
  predicate Lexes(s: string)
    decreases |s|
  {
    match NextToken(s)
    case End => true
    case TooLong => false
    case Token(_, rest) => Lexes(rest)
  }

  lemma {:induction false} LexesMeans(s: string)
    ensures Lexes(s) <==> TooLongWord !in Tokens(s)
    decreases |s|
  {
    match NextToken(s) {
      case End =>
      case TooLong => assert Tokens(s)[0] == TooLongWord;
      case Token(text, rest) => LexesMeans(rest);
    }
  }

  lemma {:induction false} AfterLineWhole(s: string, more: string)
    requires s != "" && WholeLines(s)
    ensures WholeLines(AfterLine(s)) && AfterLine(s + more) == AfterLine(s) + more
  {
    assert (s + more)[1..] == s[1..] + more;
    if s[0] != '\n' {
      AfterLineWhole(s[1..], more);
    }
  }

  /** Where the blanks of whole lines end, with or without more text. */
  lemma {:induction false} SkipWhole(s: string, more: string)
    requires WholeLines(s)
    ensures WholeLines(SkipBlanks(s))
    ensures SkipBlanks(s + more) == if SkipBlanks(s) == "" then SkipBlanks(more) else SkipBlanks(s) + more
    decreases |s|
  {
    if s == "" {
      assert s + more == more;
    } else {
      assert (s + more)[1..] == s[1..] + more;
      if IsSpace(s[0]) {
        SkipWhole(s[1..], more);
      } else if s[0] == '#' {
        AfterLineWhole(s, more);
        SkipWhole(AfterLine(s), more);
      }
    }
  }

  /** Where a word of whole lines ends: always inside them. */
  lemma {:induction false} WordWhole(s: string, more: string)
    requires s != "" && WholeLines(s)
    ensures WordLength(s + more) == WordLength(s) < |s|
  {
    assert (s + more)[1..] == s[1..] + more;
    if !IsSpace(s[0]) {
      WordWhole(s[1..], more);
    }
  }

  lemma NextWhole(s: string, more: string)
    requires WholeLines(s)
    ensures match NextToken(s)
            case End => NextToken(s + more) == NextToken(more)
            case TooLong => NextToken(s + more) == TooLong
            case Token(text, rest) => WholeLines(rest) && NextToken(s + more) == Token(text, rest + more)
  {
    SkipWhole(s, more);
    var t := SkipBlanks(s);
    if t != "" {
      WordWhole(t, more);
      var n := WordLength(t);
      assert (t + more)[..n] == t[..n];
      assert (t + more)[n..][1..] == t[n..][1..] + more;
    }
  }

  lemma TokensStep(s: string)
    ensures NextToken(s).Token? ==> Tokens(s) == [Word(NextToken(s).text)] + Tokens(NextToken(s).rest)
    ensures NextToken(s).Token? ==> Lexes(s) == Lexes(NextToken(s).rest)
  {
  }

  lemma TokensSame(s: string, t: string)
    requires NextToken(s) == NextToken(t)
    ensures Tokens(s) == Tokens(t) && Lexes(s) == Lexes(t)
  {
  }

  /** Texts made of whole lines can be read one after the other. */
  lemma {:induction false} LinesConcat(s: string, more: string)
    requires WholeLines(s) && Lexes(s)
    ensures Tokens(s + more) == Tokens(s) + Tokens(more) && Lexes(s + more) == Lexes(more)
    decreases |s|
  {
    NextWhole(s, more);
    match NextToken(s) {
      case End =>
        assert Tokens(s) == [];
        TokensSame(s + more, more);
      case Token(text, rest) =>
        LinesConcat(rest, more);
        TokensStep(s);
        TokensStep(s + more);
        Chain([Word(text)], Tokens(rest), Tokens(more));
    }
  }

  // ------------------------------------------------------------------- lines

  /** " ".join of the printed values. */
  function Join(row: seq<int>): string {
    if row == [] then ""
    else if |row| == 1 then IntText(row[0])
    else IntText(row[0]) + " " + Join(row[1..])
  }

  /** A gap, printed ints with blanks between them, and the end of the line. */
  function Line(g: string, row: seq<int>): string { g + Join(row) + "\n" }

  lemma LineOfMany(g: string, row: seq<int>)
    requires |row| > 1
    ensures Line(g, row) == g + IntText(row[0]) + Line(" ", row[1..])
  {
  }

  lemma {:induction false} LineTokens(g: string, row: seq<int>)
    requires IsGap(g) && forall i | 0 <= i < |row| :: InInt(row[i])
    ensures Tokens(Line(g, row)) == IntWords(row)
    decreases |row|
  {
    if row == [] {
      assert Line(g, row) == g + "\n";
      SkipGap(g, "\n");
      TokensSkip(Line(g, row), "");
    } else {
      IntRoundTrip(row[0]);
      if |row| > 1 {
        LineOfMany(g, row);
        Say(g, IntText(row[0]), Line(" ", row[1..]));
        LineTokens(" ", row[1..]);
      } else {
        Say(g, IntText(row[0]), "\n");
        TokensSkip("\n", "");
        assert row == [row[0]];
      }
    }
  }

  /** Whole lines that can be read, with exactly these tokens in them. */
  predicate Written(text: string, words: seq<Word>) {
    WholeLines(text) && Lexes(text) && Tokens(text) == words
  }

  lemma AddText(text: string, more: string, a: seq<Word>, b: seq<Word>)
    requires Written(text, a) && Written(more, b)
    ensures Written(text + more, a + b)
  {
    LinesConcat(text, more);
  }

  lemma {:induction false} IntWordsLex(data: seq<int>)
    ensures TooLongWord !in IntWords(data)
  {
    if data != [] {
      IntWordsLex(data[1..]);
    }
  }

  lemma LineWritten(g: string, row: seq<int>)
    requires IsGap(g) && forall i | 0 <= i < |row| :: InInt(row[i])
    ensures Written(Line(g, row), IntWords(row))
  {
    LineTokens(g, row);
    IntWordsLex(row);
    LexesMeans(Line(g, row));
  }

  lemma {:induction false} IntWordsConcat(a: seq<int>, b: seq<int>)
    ensures IntWords(a + b) == IntWords(a) + IntWords(b)
  {
    if a == [] {
      assert a + b == b;
    } else {
      assert (a + b)[1..] == a[1..] + b;
      IntWordsConcat(a[1..], b);
    }
  }

  lemma {:induction false} EntriesWordsConcat<T>(view: T -> Entry, a: seq<T>, x: T)
    ensures EntriesWords(view, a + [x]) == EntriesWords(view, a) + EntryWords(view(x))
  {
    if a == [] {
      assert a + [x] == [x];
      assert EntriesWords(view, [x][1..]) == [];
    } else {
      assert (a + [x])[1..] == a[1..] + [x];
      EntriesWordsConcat(view, a[1..], x);
    }
  }

  // ------------------------------------------------------------------- writer

  /** The output once `rows` rows of a matrix have been appended. */
  function AfterRows(out: string, data: seq<int>, side: nat, rows: nat): string
    requires |data| == side * side && rows <= side
  {
    if rows == 0 then out
    else
      RowInside(side, rows - 1);
      AfterRows(out, data, side, rows - 1) + Line("  ", data[(rows - 1) * side..(rows - 1) * side + side])
  }

  lemma RowInside(side: nat, row: nat)
    requires row < side
    ensures 0 <= row * side <= row * side + side == (row + 1) * side <= side * side
  {
    ProductGrows(row + 1, side, side);
  }

  function AfterEntry(out: string, e: Entry): string
    requires Fits(e)
  {
    AfterRows(out + Line("\n", [e.id, e.side]), e.data, e.side, e.side)
  }

  function AfterEntries<T>(out: string, view: T -> Entry, xs: seq<T>): string
    requires forall i | 0 <= i < |xs| :: Fits(view(xs[i]))
  {
    if xs == [] then out
    else AfterEntry(AfterEntries(out, view, xs[..|xs| - 1]), view(xs[|xs| - 1]))
  }

  function AfterNotes(notes: seq<string>): string {
    if notes == [] then "" else AfterNotes(notes[..|notes| - 1]) + ("#" + notes[|notes| - 1] + "\n")
  }

  /** The whole output. */
  function Output(notes: seq<string>, threshold: string, p: Problem): string
    requires Printable(p)
  {
    var head := AfterNotes(notes) + ("\n" + threshold + "\n");
    var pictures := AfterEntries(head + Line("", [|p.pictures|]), PictureEntry, p.pictures);
    AfterEntries(pictures + Line("\n", [|p.objects|]), ObjectEntry, p.objects)
  }

  /** write_matrix. */
  method WriteMatrix(out: string, data: seq<int>, side: nat) returns (text: string)
    requires |data| == side * side
    ensures text == AfterRows(out, data, side, side)
  {
    text := out;
    for row := 0 to side
      invariant text == AfterRows(out, data, side, row)
    {
      RowInside(side, row);
      text := text + Line("  ", data[row * side..row * side + side]);
    }
  }

  lemma LastEntry<T>(out: string, view: T -> Entry, xs: seq<T>, i: nat)
    requires i < |xs| && forall j | 0 <= j < |xs| :: Fits(view(xs[j]))
    ensures AfterEntries(out, view, xs[..i + 1]) == AfterEntry(AfterEntries(out, view, xs[..i]), view(xs[i]))
  {
    assert xs[..i + 1][..i] == xs[..i];
  }

  /** The loop over pictures, and the one over objects. */
  method WriteEntries<T>(out: string, view: T -> Entry, xs: seq<T>) returns (text: string)
    requires forall i | 0 <= i < |xs| :: Fits(view(xs[i]))
    ensures text == AfterEntries(out, view, xs)
  {
    text := out;
    for i := 0 to |xs|
      invariant text == AfterEntries(out, view, xs[..i])
    {
      var e := view(xs[i]);
      text := text + Line("\n", [e.id, e.side]);
      text := WriteMatrix(text, e.data, e.side);
      LastEntry(out, view, xs, i);
    }
    assert xs[..|xs|] == xs;
  }

  /** The output block of main: what it writes, whatever the comments say, is
      read back as the problem it was given. */
  method WriteProblem(strtod: Strtod, notes: seq<string>, threshold: string, p: Problem) returns (text: string)
    requires Printable(p) && IsToken(threshold) && strtod(CString(threshold)) == Some(p.threshold)
    requires forall i | 0 <= i < |notes| :: '\n' !in notes[i]
    ensures text == Output(notes, threshold, p)
    ensures Parse(strtod, Tokens(text)) == Validated(p)
  {
    text := "";
    for i := 0 to |notes|
      invariant text == AfterNotes(notes[..i])
    {
      text := text + ("#" + notes[i] + "\n");
      assert notes[..i + 1][..i] == notes[..i];
    }
    assert notes[..|notes|] == notes;
    text := text + ("\n" + threshold + "\n");
    text := text + Line("", [|p.pictures|]);
    text := WriteEntries(text, PictureEntry, p.pictures);
    text := text + Line("\n", [|p.objects|]);
    text := WriteEntries(text, ObjectEntry, p.objects);
    OutputParses(strtod, notes, threshold, p);
  }

  lemma SmallLine(g: string, a: int, b: int)
    requires 0 <= a < 10 && 0 <= b < 10
    ensures Line(g, [a, b]) == g + [DigitChar(a)] + " " + [DigitChar(b)] + "\n"
    ensures Line(g, [a]) == g + [DigitChar(a)] + "\n"
  {
    assert [a, b][1..] == [b];
    assert Join([a, b]) == [DigitChar(a)] + " " + [DigitChar(b)];
  }

  /** The layout of a matrix: two blanks, one row a line, a blank between values. */
  lemma MatrixLayout()
    ensures AfterRows("", [1, 2, 3, 4], 2, 2) == "  1 2\n" + "  3 4\n"
  {
    SmallLine("  ", 1, 2);
    SmallLine("  ", 3, 4);
    assert [1, 2, 3, 4][0..2] == [1, 2] && [1, 2, 3, 4][2..4] == [3, 4];
    assert AfterRows("", [1, 2, 3, 4], 2, 0) == "";
    assert AfterRows("", [1, 2, 3, 4], 2, 1) == "" + Line("  ", [1, 2]);
  }

  // -------------------------------------------------- what the output says

  lemma LineAdded(out: string, words: seq<Word>, g: string, row: seq<int>)
    requires Written(out, words) && IsGap(g) && forall i | 0 <= i < |row| :: InInt(row[i])
    ensures Written(out + Line(g, row), words + IntWords(row))
  {
    LineWritten(g, row);
    AddText(out, Line(g, row), words, IntWords(row));
  }

  lemma Chain(a: seq<Word>, b: seq<Word>, c: seq<Word>)
    ensures a + b + c == a + (b + c)
  {
  }

  lemma OneInt(v: int)
    ensures IntWords([v]) == [IntWord(v)]
  {
  }

  lemma TwoInts(v: int, w: int)
    ensures IntWords([v, w]) == [IntWord(v), IntWord(w)]
  {
    OneInt(w);
  }

  lemma RowWords(words: seq<Word>, before: seq<int>, row: seq<int>)
    ensures words + IntWords(before) + IntWords(row) == words + IntWords(before + row)
  {
    IntWordsConcat(before, row);
    Chain(words, IntWords(before), IntWords(row));
  }

  lemma RowAdded(out: string, words: seq<Word>, data: seq<int>, i: nat, j: nat)
    requires i <= j <= |data| && forall k | 0 <= k < |data| :: InInt(data[k])
    requires Written(out, words + IntWords(data[..i]))
    ensures Written(out + Line("  ", data[i..j]), words + IntWords(data[..j]))
  {
    assert data[..j] == data[..i] + data[i..j];
    LineAdded(out, words + IntWords(data[..i]), "  ", data[i..j]);
    RowWords(words, data[..i], data[i..j]);
  }

  lemma LastEntryWords<T>(words: seq<Word>, view: T -> Entry, before: seq<T>, x: T)
    ensures words + EntriesWords(view, before) + EntryWords(view(x)) == words + EntriesWords(view, before + [x])
  {
    EntriesWordsConcat(view, before, x);
    Chain(words, EntriesWords(view, before), EntryWords(view(x)));
  }

  lemma RowsStep(out: string, data: seq<int>, side: nat, rows: nat)
    requires |data| == side * side && 0 < rows <= side
    ensures 0 <= (rows - 1) * side <= rows * side <= |data|
    ensures AfterRows(out, data, side, rows) ==
            AfterRows(out, data, side, rows - 1) + Line("  ", data[(rows - 1) * side..rows * side])
  {
    RowInside(side, rows - 1);
  }

  lemma {:induction false} RowsWritten(out: string, words: seq<Word>, data: seq<int>, side: nat, rows: nat)
    requires |data| == side * side && rows <= side && forall i | 0 <= i < |data| :: InInt(data[i])
    requires Written(out, words) && rows * side <= |data|
    ensures Written(AfterRows(out, data, side, rows), words + IntWords(data[..rows * side]))
  {
    if rows == 0 {
      assert words + IntWords(data[..rows * side]) == words;
    } else {
      RowsStep(out, data, side, rows);
      RowsWritten(out, words, data, side, rows - 1);
      RowAdded(AfterRows(out, data, side, rows - 1), words, data, (rows - 1) * side, rows * side);
    }
  }

  lemma EntryWritten(out: string, words: seq<Word>, e: Entry)
    requires Fits(e) && Written(out, words)
    ensures Written(AfterEntry(out, e), words + EntryWords(e))
  {
    var head := IntWords([e.id, e.side]);
    LineAdded(out, words, "\n", [e.id, e.side]);
    assert Written(AfterEntry(out, e), words + head + IntWords(e.data)) by {
      RowsWritten(out + Line("\n", [e.id, e.side]), words + head, e.data, e.side, e.side);
      assert e.data[..e.side * e.side] == e.data;
    }
    assert words + head + IntWords(e.data) == words + EntryWords(e) by {
      TwoInts(e.id, e.side);
      Chain(words, head, IntWords(e.data));
    }
  }

  lemma EntryAdded<T>(out: string, words: seq<Word>, view: T -> Entry, before: seq<T>, x: T)
    requires Fits(view(x)) && Written(out, words + EntriesWords(view, before))
    ensures Written(AfterEntry(out, view(x)), words + EntriesWords(view, before + [x]))
  {
    EntryWritten(out, words + EntriesWords(view, before), view(x));
    LastEntryWords(words, view, before, x);
  }

  lemma {:induction false} EntriesWritten<T>(out: string, words: seq<Word>, view: T -> Entry, xs: seq<T>)
    requires (forall i | 0 <= i < |xs| :: Fits(view(xs[i]))) && Written(out, words)
    ensures Written(AfterEntries(out, view, xs), words + EntriesWords(view, xs))
  {
    if xs == [] {
      assert words + EntriesWords(view, xs) == words;
    } else {
      var before, x := xs[..|xs| - 1], xs[|xs| - 1];
      assert before + [x] == xs;
      EntriesWritten(out, words, view, before);
      assert AfterEntries(out, view, xs) == AfterEntry(AfterEntries(out, view, before), view(x));
      EntryAdded(AfterEntries(out, view, before), words, view, before, x);
    }
  }

  lemma {:induction false} LineEnds(note: string)
    requires '\n' !in note
    ensures AfterLine(note + "\n") == ""
  {
    if note != "" {
      assert (note + "\n")[1..] == note[1..] + "\n";
      LineEnds(note[1..]);
    } else {
      assert note + "\n" == "\n";
    }
  }

  lemma CommentWritten(note: string)
    requires '\n' !in note
    ensures Written("#" + note + "\n", [])
  {
    LineEnds("#" + note);
  }

  lemma {:induction false} NotesWritten(notes: seq<string>)
    requires forall i | 0 <= i < |notes| :: '\n' !in notes[i]
    ensures Written(AfterNotes(notes), [])
  {
    if notes != [] {
      var note := notes[|notes| - 1];
      NotesWritten(notes[..|notes| - 1]);
      CommentWritten(note);
      AddText(AfterNotes(notes[..|notes| - 1]), "#" + note + "\n", [], []);
    }
  }

  lemma ThresholdWritten(threshold: string)
    requires IsToken(threshold)
    ensures Written("\n" + threshold + "\n", [Word(threshold)])
  {
    Say("\n", threshold, "\n");
    TokensSkip("\n", "");
    LexesMeans("\n" + threshold + "\n");
  }

  lemma SectionWritten<T>(out: string, words: seq<Word>, g: string, view: T -> Entry, xs: seq<T>)
    requires |xs| <= MAX_COUNT && (forall i | 0 <= i < |xs| :: Fits(view(xs[i])))
    requires IsGap(g) && Written(out, words)
    ensures Written(AfterEntries(out + Line(g, [|xs|]), view, xs), words + SectionWords(view, xs))
  {
    LineAdded(out, words, g, [|xs|]);
    EntriesWritten(out + Line(g, [|xs|]), words + IntWords([|xs|]), view, xs);
    assert words + IntWords([|xs|]) + EntriesWords(view, xs) == words + SectionWords(view, xs) by {
      OneInt(|xs|);
      Chain(words, IntWords([|xs|]), EntriesWords(view, xs));
    }
  }

  lemma OutputParses(strtod: Strtod, notes: seq<string>, threshold: string, p: Problem)
    requires Printable(p) && IsToken(threshold) && strtod(CString(threshold)) == Some(p.threshold)
    requires forall i | 0 <= i < |notes| :: '\n' !in notes[i]
    ensures Tokens(Output(notes, threshold, p)) == ProblemWords(threshold, p)
    ensures Parse(strtod, Tokens(Output(notes, threshold, p))) == Validated(p)
  {
    var head := AfterNotes(notes) + ("\n" + threshold + "\n");
    var pictures := SectionWords(PictureEntry, p.pictures);
    NotesWritten(notes);
    ThresholdWritten(threshold);
    AddText(AfterNotes(notes), "\n" + threshold + "\n", [], [Word(threshold)]);
    Regroup([], [Word(threshold)], [], []);
    SectionWritten(head, [Word(threshold)], "", PictureEntry, p.pictures);
    SectionWritten(AfterEntries(head + Line("", [|p.pictures|]), PictureEntry, p.pictures),
                   [Word(threshold)] + pictures, "\n", ObjectEntry, p.objects);
    ParseOfWords(strtod, threshold, p, []);
    Regroup([], ProblemWords(threshold, p), [], []);
  }
}
