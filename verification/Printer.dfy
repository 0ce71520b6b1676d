/** Writing a problem down, and why reading it back gives the same problem
    whatever the layout. */
module Printing {
  import opened Types
  import opened Problems
  import opened Lexing
  import opened Parsing
  import opened Format

  // ----------------------------------------------------------------- numerals

  function DigitChar(d: nat): (c: char)
    requires d < 10
    ensures IsDigit(c) && c as int - '0' as int == d
  {
    '0' + d as char
  }

  function Digits(n: nat): string {
    if n < 10 then [DigitChar(n)] else Digits(n / 10) + [DigitChar(n % 10)]
  }

  /** Python's str of an int. */
  function IntText(v: int): string { if v < 0 then "-" + Digits(-v) else Digits(v) }

  function Pow10(k: nat): nat { if k == 0 then 1 else 10 * Pow10(k - 1) }

  lemma ValueAppend(t: string, c: char)
    requires AllDigits(t) && IsDigit(c)
    ensures AllDigits(t + [c]) && Value(t + [c]) == Value(t) * 10 + (c as int - '0' as int)
  {
    assert (t + [c])[..|t|] == t;
  }

  lemma {:induction false} DigitsValue(n: nat)
    ensures Digits(n) != "" && AllDigits(Digits(n)) && Value(Digits(n)) == n
  {
    if n < 10 {
      ValueAppend("", DigitChar(n));
      assert "" + [DigitChar(n)] == Digits(n);
    } else {
      DigitsValue(n / 10);
      ValueAppend(Digits(n / 10), DigitChar(n % 10));
    }
  }

  lemma {:induction false} DigitsLength(n: nat, k: nat)
    requires n < Pow10(k) && k >= 1
    ensures |Digits(n)| <= k
  {
    if n >= 10 {
      assert k > 1 by { assert Pow10(1) == 10 * Pow10(0); }
      DigitsLength(n / 10, k - 1);
    }
  }

  /** A text the lexer returns whole and the C string functions see whole. */
  predicate IsToken(t: string) {
    && 0 < |t| < TOKEN_MAX && t[0] != '#'
    && forall i | 0 <= i < |t| :: !IsSpace(t[i]) && t[i] as int != 0
  }

  lemma {:induction false} WholeCString(t: string)
    requires forall i | 0 <= i < |t| :: t[i] as int != 0
    ensures CString(t) == t
  {
    if t != "" {
      WholeCString(t[1..]);
    }
  }

  lemma DigitsAreToken(n: nat)
    requires n < 10_000_000_000
    ensures IsToken(Digits(n)) && IsToken("-" + Digits(n))
  {
    DigitsValue(n);
    assert Pow10(10) == 10_000_000_000 by { assert Pow10(5) == 100_000; }
    DigitsLength(n, 10);
    assert forall i | 0 <= i < |Digits(n)| :: IsDigit(Digits(n)[i]);
  }

  lemma ParseNatural(n: nat)
    ensures n <= INT_MAX ==> ParseInt(Digits(n)) == Some(n)
    ensures n <= -INT_MIN ==> ParseInt("-" + Digits(n)) == Some(0 - n)
  {
    DigitsValue(n);
    assert IsDigit(Digits(n)[0]);
    assert ("-" + Digits(n))[1..] == Digits(n);
  }

  /** Every int survives being written and read. */
  lemma IntRoundTrip(v: int)
    requires InInt(v)
    ensures IsToken(IntText(v)) && ParseInt(CString(IntText(v))) == Some(v)
  {
    var n: nat := if v < 0 then -v else v;
    DigitsAreToken(n);
    ParseNatural(n);
    WholeCString(IntText(v));
  }

  function Zeros(k: nat): string { if k == 0 then "" else "0" + Zeros(k - 1) }

  /** A base-10 numeral: an optional sign, any leading zeros, and the digits of `n`. */
  predicate IsNumeral(t: string, sign: string, k: nat, n: nat) {
    sign in {"", "+", "-"} && t == sign + Zeros(k) + Digits(n)
  }

  function Signed(sign: string, n: nat): int { if sign == "-" then 0 - n else n }

  lemma {:induction false} ZerosValue(k: nat, t: string)
    requires AllDigits(t) && t != ""
    ensures AllDigits(Zeros(k) + t) && Value(Zeros(k) + t) == Value(t)
  {
    if k == 0 {
      assert Zeros(k) + t == t;
    } else {
      ZerosValue(k - 1, t);
      assert Zeros(k) + t == "0" + (Zeros(k - 1) + t);
      LeadingZero(Zeros(k - 1) + t);
    }
  }

  lemma {:induction false} LeadingZero(t: string)
    requires AllDigits(t)
    ensures AllDigits("0" + t) && Value("0" + t) == Value(t)
  {
    if t == "" {
      assert "0" + t == "" + ['0'];
      ValueAppend("", '0');
    } else {
      var rest, last := t[..|t| - 1], t[|t| - 1];
      LeadingZero(rest);
      assert "0" + t == ("0" + rest) + [last];
      ValueAppend("0" + rest, last);
    }
  }

  lemma DigitsStep(n: nat, d: nat)
    requires n > 0 && d < 10
    ensures Digits(n * 10 + d) == Digits(n) + [DigitChar(d)]
  {
    assert (n * 10 + d) / 10 == n && (n * 10 + d) % 10 == d;
  }

  /** One more digit after leading zeros and a value's digits. */
  lemma MoreDigits(rest: string, j: nat, n: nat, d: nat) returns (k: nat)
    requires rest == Zeros(j) + Digits(n) && d < 10
    ensures rest + [DigitChar(d)] == Zeros(k) + Digits(n * 10 + d)
  {
    if n == 0 {
      k := j + 1;
      ZerosEnd(j);
    } else {
      k := j;
      DigitsStep(n, d);
    }
  }

  /** Every string of digits is leading zeros and the digits of its value. */
  lemma {:induction false} DigitStrings(t: string) returns (k: nat)
    requires AllDigits(t) && t != ""
    ensures t == Zeros(k) + Digits(Value(t))
  {
    var rest, last := t[..|t| - 1], t[|t| - 1];
    var d := last as int - '0' as int;
    assert t == rest + [last] && DigitChar(d) == last;
    ValueAppend(rest, last);
    if rest == "" {
      k := 0;
    } else {
      var j := DigitStrings(rest);
      k := MoreDigits(rest, j, Value(rest), d);
    }
  }

  lemma {:induction false} ZerosEnd(k: nat)
    ensures Zeros(k) + "0" == Zeros(k + 1)
  {
    if k > 0 {
      ZerosEnd(k - 1);
      assert Zeros(k) + "0" == "0" + (Zeros(k - 1) + "0");
    }
  }

  lemma SignedDigitsAreRead(sign: string, digits: string)
    requires sign in {"", "+", "-"} && AllDigits(digits) && digits != ""
    ensures ParseInt(sign + digits) ==
            var v := Signed(sign, Value(digits)); if InInt(v) then Some(v) else None
  {
    assert IsDigit(digits[0]);
    if sign == "" {
      assert sign + digits == digits;
    } else {
      assert (sign + digits)[1..] == digits && (sign + digits)[0] == sign[0];
    }
  }

  lemma ChainText(a: string, b: string, c: string)
    ensures a + b + c == a + (b + c)
  {
  }

  lemma NumeralIsRead(t: string, sign: string, k: nat, n: nat)
    requires IsNumeral(t, sign, k, n)
    ensures ParseInt(t) == if InInt(Signed(sign, n)) then Some(Signed(sign, n)) else None
  {
    DigitsValue(n);
    ZerosValue(k, Digits(n));
    SignedDigitsAreRead(sign, Zeros(k) + Digits(n));
    ChainText(sign, Zeros(k), Digits(n));
  }

  /** Whatever is read is a numeral with that value. */
  lemma ReadIsNumeral(t: string) returns (sign: string, k: nat, n: nat)
    requires ParseInt(t).Some?
    ensures IsNumeral(t, sign, k, n) && ParseInt(t).value == Signed(sign, n)
  {
    sign := if t[0] in {'-', '+'} then [t[0]] else "";
    var digits := if t[0] in {'-', '+'} then t[1..] else t;
    k := DigitStrings(digits);
    n := Value(digits);
    assert t == sign + digits;
  }

  /** What expect_int accepts, for every token: exactly the numerals whose value is
      an int, with that value. Everything else is rejected: numerals beyond int,
      characters after the digits, a sign alone, the empty token. */
  lemma ParseIntExactly(t: string, v: int)
    ensures ParseInt(t) == Some(v) <==>
            InInt(v) && exists sign, k, n :: IsNumeral(t, sign, k, n) && v == Signed(sign, n)
  {
    if ParseInt(t) == Some(v) {
      var sign, k, n := ReadIsNumeral(t);
    }
    forall sign, k, n | InInt(v) && IsNumeral(t, sign, k, n) && v == Signed(sign, n)
      ensures ParseInt(t) == Some(v)
    {
      NumeralIsRead(t, sign, k, n);
    }
  }

  /** Numerals beyond int on either side, and characters after a numeral. */
  lemma NotAnInt(n: nat, junk: char, more: string)
    ensures n > INT_MAX ==> ParseInt(Digits(n)) == None && ParseInt("+" + Digits(n)) == None
    ensures n > -INT_MIN ==> ParseInt("-" + Digits(n)) == None
    ensures !IsDigit(junk) ==> ParseInt(Digits(n) + [junk] + more) == None
    ensures ParseInt("") == ParseInt("+") == ParseInt("-") == None
  {
    assert Zeros(0) == "";
    assert IsNumeral(Digits(n), "", 0, n) && IsNumeral("+" + Digits(n), "+", 0, n) && IsNumeral("-" + Digits(n), "-", 0, n);
    NumeralIsRead(Digits(n), "", 0, n);
    NumeralIsRead("+" + Digits(n), "+", 0, n);
    NumeralIsRead("-" + Digits(n), "-", 0, n);
    JunkAfter(n, junk, more);
  }

  lemma JunkAfter(n: nat, junk: char, more: string)
    ensures !IsDigit(junk) ==> ParseInt(Digits(n) + [junk] + more) == None
  {
    DigitsValue(n);
    var t := Digits(n) + [junk] + more;
    assert t[|Digits(n)|] == junk && IsDigit(t[0]) && t[0] == Digits(n)[0];
  }

  /** The buffer's first zero byte ends the token for strtol. */
  lemma {:induction false} ZeroByteEnds(a: string, zero: char, b: string)
    requires zero as int == 0
    ensures CString(a + [zero] + b) == CString(a)
  {
    if a == "" {
      assert a + [zero] + b == [zero] + b;
    } else {
      assert (a + [zero] + b)[1..] == a[1..] + [zero] + b;
      ZeroByteEnds(a[1..], zero, b);
    }
  }

  // ------------------------------------------------------ a problem as tokens

  function IntWord(v: int): Word { Word(IntText(v)) }

  function IntWords(data: seq<int>): (words: seq<Word>)
    ensures |words| == |data|
  {
    if data == [] then [] else [IntWord(data[0])] + IntWords(data[1..])
  }

  function EntryWords(e: Entry): seq<Word> { [IntWord(e.id), IntWord(e.side)] + IntWords(e.data) }

  function EntriesWords<T>(view: T -> Entry, xs: seq<T>): seq<Word> {
    if xs == [] then [] else EntryWords(view(xs[0])) + EntriesWords(view, xs[1..])
  }

  function SectionWords<T>(view: T -> Entry, xs: seq<T>): seq<Word> {
    [IntWord(|xs|)] + EntriesWords(view, xs)
  }

  /** The tokens of a problem whose threshold is written `threshold`. */
  function ProblemWords(threshold: string, p: Problem): seq<Word> {
    [Word(threshold)] + SectionWords(PictureEntry, p.pictures) + SectionWords(ObjectEntry, p.objects)
  }

  lemma ReadIntWord(v: int, more: seq<Word>)
    requires InInt(v)
    ensures ReadInt([IntWord(v)] + more) == Success((v, more))
  {
    IntRoundTrip(v);
    assert ([IntWord(v)] + more)[1..] == more;
  }

  lemma {:induction false} ReadMatrixWords(data: seq<int>, k: nat, more: seq<Word>)
    requires k <= |data| && forall i | 0 <= i < |data| :: InInt(data[i])
    ensures ReadMatrix(IntWords(data[k..]) + more, data[..k], |data|) == Success((data, more))
    decreases |data| - k
  {
    if k == |data| {
      assert data[..k] == data;
      assert IntWords(data[k..]) + more == more;
    } else {
      var next := IntWords(data[k + 1..]) + more;
      assert data[k..][1..] == data[k + 1..];
      assert IntWords(data[k..]) + more == [IntWord(data[k])] + next;
      ReadIntWord(data[k], next);
      assert data[..k] + [data[k]] == data[..k + 1];
      ReadMatrixWords(data, k + 1, more);
    }
  }

  lemma ReadEntryWords(e: Entry, more: seq<Word>)
    requires Fits(e)
    ensures ReadEntry(EntryWords(e) + more) == Success((e, more))
  {
    var matrix := IntWords(e.data) + more;
    assert EntryWords(e) + more == [IntWord(e.id)] + ([IntWord(e.side)] + matrix);
    ReadIntWord(e.id, [IntWord(e.side)] + matrix);
    ReadIntWord(e.side, matrix);
    SquareFits(e.side);
    assert e.data[0..] == e.data && e.data[..0] == [];
    ReadMatrixWords(e.data, 0, more);
  }

  lemma {:induction false} ReadEntriesWords<T(!new)>(
    make: Entry -> T, view: T -> Entry, xs: seq<T>, k: nat, more: seq<Word>)
    requires k <= |xs| && forall i | 0 <= i < |xs| :: Fits(view(xs[i]))
    requires forall x :: make(view(x)) == x
    ensures ReadEntries(make, EntriesWords(view, xs[k..]) + more, xs[..k], |xs|) == Success((xs, more))
    decreases |xs| - k
  {
    if k == |xs| {
      assert xs[..k] == xs;
      assert EntriesWords(view, xs[k..]) + more == more;
    } else {
      var e := view(xs[k]);
      var next := EntriesWords(view, xs[k + 1..]) + more;
      assert xs[k..][1..] == xs[k + 1..];
      assert EntriesWords(view, xs[k..]) + more == EntryWords(e) + next;
      ReadEntryWords(e, next);
      assert xs[..k] + [make(e)] == xs[..k + 1];
      ReadEntriesWords(make, view, xs, k + 1, more);
    }
  }

  lemma ReadSectionWords<T(!new)>(make: Entry -> T, view: T -> Entry, xs: seq<T>, more: seq<Word>)
    requires |xs| <= MAX_COUNT && forall i | 0 <= i < |xs| :: Fits(view(xs[i]))
    requires forall x :: make(view(x)) == x
    ensures ReadSection(make, SectionWords(view, xs) + more) == Success((xs, more))
  {
    var next := EntriesWords(view, xs) + more;
    assert SectionWords(view, xs) + more == [IntWord(|xs|)] + next;
    ReadIntWord(|xs|, next);
    assert xs[0..] == xs && xs[..0] == [];
    ReadEntriesWords(make, view, xs, 0, more);
  }

  lemma Regroup(a: seq<Word>, b: seq<Word>, c: seq<Word>, d: seq<Word>)
    ensures a + b + c + d == a + (b + (c + d))
    ensures b + [] == b && [] + d == d
  {
  }

  /** The tokens of any problem that can be written down, with anything after
      them, parse to that problem with its objects stably sorted. */
  lemma ParseOfWords(strtod: Strtod, threshold: string, p: Problem, more: seq<Word>)
    requires Printable(p) && strtod(CString(threshold)) == Some(p.threshold)
    ensures Raw(strtod, ProblemWords(threshold, p) + more) == Success((p, more))
    ensures Parse(strtod, ProblemWords(threshold, p) + more) == Validated(p)
  {
    var objects := SectionWords(ObjectEntry, p.objects) + more;
    var pictures := SectionWords(PictureEntry, p.pictures) + objects;
    Regroup([Word(threshold)], SectionWords(PictureEntry, p.pictures), SectionWords(ObjectEntry, p.objects), more);
    assert ([Word(threshold)] + pictures)[1..] == pictures;
    ReadSectionWords(ToPicture, PictureEntry, p.pictures, objects);
    ReadSectionWords(ToObject, ObjectEntry, p.objects, more);
  }

  /** Writing down what was parsed and reading it again changes nothing. */
  lemma ReprintIsStable(strtod: Strtod, ts: seq<Word>, threshold: string)
    requires Parse(strtod, ts).Success?
    requires strtod(CString(threshold)) == Some(Parse(strtod, ts).value.threshold)
    ensures Parse(strtod, ProblemWords(threshold, Parse(strtod, ts).value)) == Parse(strtod, ts)
  {
    var p := Parse(strtod, ts).value;
    ParsedIsLoaded(strtod, ts);
    ParseOfWords(strtod, threshold, p, []);
    assert ProblemWords(threshold, p) + [] == ProblemWords(threshold, p);
    ValidatedIsLoaded(p);
  }

  // ------------------------------------------------------------------- layout

  /** Whitespace and whole comments, in any order. */
  predicate IsGap(g: string)
    decreases |g|
  {
    || g == ""
    || (IsSpace(g[0]) && IsGap(g[1..]))
    || (g[0] == '#' && '\n' in g && IsGap(AfterLine(g)))
  }

  lemma {:induction false} AfterLineGap(g: string, more: string)
    requires '\n' in g
    ensures AfterLine(g + more) == AfterLine(g) + more
  {
    assert (g + more)[1..] == g[1..] + more;
    if g[0] != '\n' {
      AfterLineGap(g[1..], more);
    }
  }

  lemma {:induction false} SkipGap(g: string, more: string)
    requires IsGap(g)
    ensures SkipBlanks(g + more) == SkipBlanks(more)
    decreases |g|
  {
    if g == "" {
      assert g + more == more;
    } else {
      assert (g + more)[1..] == g[1..] + more;
      if IsSpace(g[0]) {
        SkipGap(g[1..], more);
      } else {
        AfterLineGap(g, more);
        SkipGap(AfterLine(g), more);
      }
    }
  }

  /** Only what is left after the blanks matters. */
  lemma TokensSkip(s: string, t: string)
    requires SkipBlanks(s) == SkipBlanks(t)
    ensures NextToken(s) == NextToken(t) && Tokens(s) == Tokens(t)
  {
  }

  /** A gap and a token in front of a text put that token in front of its
      tokens, provided that the text does not run on from it. */
  lemma Say(g: string, w: string, more: string)
    requires IsGap(g) && IsToken(w) && Delimits(more)
    ensures Tokens(g + w + more) == [Word(w)] + Tokens(more)
  {
    var t := w + more;
    assert g + w + more == g + t;
    SkipGap(g, t);
    assert t[0] == w[0];
    TokensSkip(g + w + more, t);
    WordMore(w, more);
    WordIsAll(w);
    assert t[..|w|] == w && t[|w|..] == more;
    if more != "" {
      TokensSkip(more, more[1..]);
    }
  }

  lemma {:induction false} WordIsAll(w: string)
    requires forall i | 0 <= i < |w| :: !IsSpace(w[i])
    ensures WordLength(w) == |w|
  {
    if w != "" {
      WordIsAll(w[1..]);
    }
  }

  /** A text with `gaps[i]` before word `i` and `tail` at the end. */
  function Layout(words: seq<string>, gaps: seq<string>, tail: string): string
    requires |words| == |gaps|
  {
    if words == [] then tail else gaps[0] + words[0] + Layout(words[1..], gaps[1..], tail)
  }

  /** Words are kept apart: every gap but the first starts with whitespace, so
      that a `#` cannot be read as part of a word, and so does what follows the
      last word. */
  predicate Separated(gaps: seq<string>, tail: string) {
    && (forall i | 1 <= i < |gaps| :: gaps[i] != "" && IsSpace(gaps[i][0]))
    && (gaps != [] ==> Delimits(tail))
  }

  predicate AllGaps(gaps: seq<string>) { forall i | 0 <= i < |gaps| :: IsGap(gaps[i]) }

  function AsWords(texts: seq<string>): (words: seq<Word>)
    ensures |words| == |texts| && forall i | 0 <= i < |texts| :: words[i] == Word(texts[i])
  {
    if texts == [] then [] else [Word(texts[0])] + AsWords(texts[1..])
  }

  /** The text after the first word, and what it says about the rest. */
  lemma LayoutDelimits(words: seq<string>, gaps: seq<string>, tail: string)
    requires |words| == |gaps| > 0 && forall w | w in words :: IsToken(w)
    ensures Separated(gaps, tail) <==>
            Delimits(Layout(words[1..], gaps[1..], tail)) && Separated(gaps[1..], tail)
  {
    if |words| > 1 {
      assert words[1] in words;
      assert gaps[1..][0] == gaps[1] && words[1..][0] == words[1];
      assert Layout(words[1..], gaps[1..], tail) == gaps[1] + words[1] + Layout(words[1..][1..], gaps[1..][1..], tail);
      SeparatedRest(gaps, tail);
    }
  }

  lemma SeparatedRest(gaps: seq<string>, tail: string)
    requires |gaps| > 1
    ensures Separated(gaps, tail) <==> gaps[1] != "" && IsSpace(gaps[1][0]) && Separated(gaps[1..], tail)
  {
    assert forall i | 2 <= i < |gaps| :: gaps[1..][i - 1] == gaps[i];
  }

  /** A text that runs on from a token is not read as that token. */
  lemma RunsOn(w: string, more: string)
    requires IsToken(w) && !Delimits(more)
    ensures NextToken(w + more) != Token(w, AfterBlank(more))
    ensures Tokens(w + more) != [] ==> Tokens(w + more)[0] != Word(w)
  {
    var t := w + more;
    assert t[0] == w[0] && t[|w|] == more[0];
    WordReaches(w, more);
    assert WordLength(t) < TOKEN_MAX ==> |t[..WordLength(t)]| > |w|;
  }

  lemma {:induction false} WordReaches(w: string, more: string)
    requires !Delimits(more) && forall i | 0 <= i < |w| :: !IsSpace(w[i])
    ensures WordLength(w + more) > |w|
  {
    if w == "" {
      assert w + more == more;
    } else {
      assert (w + more)[1..] == w[1..] + more;
      WordReaches(w[1..], more);
    }
  }

  lemma LayoutHead(words: seq<string>, gaps: seq<string>, tail: string)
    requires |words| == |gaps| > 0 && IsGap(gaps[0]) && IsToken(words[0])
    ensures var more := Layout(words[1..], gaps[1..], tail);
            if Delimits(more) then Tokens(Layout(words, gaps, tail)) == [Word(words[0])] + Tokens(more)
            else Tokens(Layout(words, gaps, tail)) != [] ==> Tokens(Layout(words, gaps, tail))[0] != Word(words[0])
  {
    var g, w, more := gaps[0], words[0], Layout(words[1..], gaps[1..], tail);
    if Delimits(more) {
      Say(g, w, more);
    } else {
      assert g + w + more == g + (w + more);
      SkipGap(g, w + more);
      TokensSkip(g + w + more, w + more);
      RunsOn(w, more);
    }
  }

  /** The tokens of a laid-out text do not depend on the layout, exactly as long as
      the words are kept apart. */
  lemma {:induction false} LayoutTokens(words: seq<string>, gaps: seq<string>, tail: string)
    requires |words| == |gaps| && AllGaps(gaps)
    requires forall w | w in words :: IsToken(w)
    ensures Tokens(Layout(words, gaps, tail)) == AsWords(words) + Tokens(tail) <==> Separated(gaps, tail)
  {
    if words == [] {
      assert Layout(words, gaps, tail) == tail;
    } else {
      var more := Layout(words[1..], gaps[1..], tail);
      var rest := AsWords(words[1..]) + Tokens(tail);
      assert words[0] in words;
      LayoutHead(words, gaps, tail);
      LayoutDelimits(words, gaps, tail);
      LayoutTokens(words[1..], gaps[1..], tail);
      assert AsWords(words) + Tokens(tail) == [Word(words[0])] + rest;
      SameTail(Word(words[0]), Tokens(more), rest);
    }
  }

  lemma SameTail(w: Word, a: seq<Word>, b: seq<Word>)
    ensures [w] + a == [w] + b <==> a == b
    ensures ([w] + b)[0] == w
  {
    if [w] + a == [w] + b {
      assert a == ([w] + a)[1..] == ([w] + b)[1..] == b;
    }
  }

  /** A `#` inside a word does not start a comment: a number with a comment right
      after it is one token, and not a number. */
  lemma HashInsideWord()
    ensures Tokens("1#x\n") == [Word("1#x")]
    ensures ReadInt(Tokens("1#x\n")) == Failure(ErrParse)
  {
    Say("", "1#x", "\n");
    assert "" + "1#x" + "\n" == "1#x\n";
    TokensSkip("\n", "");
    WholeCString("1#x");
    assert !IsDigit("1#x"[1]);
  }

  /** With a blank between them the same comment is skipped. */
  lemma HashAfterBlank()
    ensures Tokens("1 #x\n") == [Word("1")]
  {
    Say("", "1", " #x\n");
    assert "" + "1" + " #x\n" == "1 #x\n";
    LineGap();
    SkipGap(" #x\n", "");
    TokensSkip(" #x\n" + "", "");
    assert " #x\n" + "" == " #x\n";
  }

  lemma LineGap()
    ensures IsGap(" #x\n")
  {
    assert AfterLine("#x\n") == "";
  }

  /** The round trip: however the tokens of a problem are laid out, with any
      whitespace and comments between them and any text after them, reading
      them gives the problem back with its objects stably sorted by id. */
  lemma LayoutRoundTrip(
    strtod: Strtod, threshold: string, p: Problem, words: seq<string>, gaps: seq<string>, tail: string)
    requires Printable(p) && strtod(CString(threshold)) == Some(p.threshold)
    requires AsWords(words) == ProblemWords(threshold, p) && IsToken(threshold)
    requires |words| == |gaps| && AllGaps(gaps) && Separated(gaps, tail)
    ensures Parse(strtod, Tokens(Layout(words, gaps, tail))) == Validated(p)
  {
    ProblemWordsAreTokens(threshold, p);
    forall w | w in words
      ensures IsToken(w)
    {
      var i :| 0 <= i < |words| && words[i] == w;
      assert AsWords(words)[i] == Word(w);
    }
    LayoutTokens(words, gaps, tail);
    ParseOfWords(strtod, threshold, p, Tokens(tail));
  }

  predicate AreTokens(words: seq<Word>) {
    forall i | 0 <= i < |words| :: words[i].Word? && IsToken(words[i].text)
  }

  lemma TokensAppend(a: seq<Word>, b: seq<Word>)
    requires AreTokens(a) && AreTokens(b)
    ensures AreTokens(a + b)
  {
  }

  lemma {:induction false} IntWordsAreTokens(data: seq<int>)
    requires forall i | 0 <= i < |data| :: InInt(data[i])
    ensures AreTokens(IntWords(data))
  {
    if data != [] {
      IntRoundTrip(data[0]);
      IntWordsAreTokens(data[1..]);
    }
  }

  lemma EntryWordsAreTokens(e: Entry)
    requires Fits(e)
    ensures AreTokens(EntryWords(e))
  {
    IntRoundTrip(e.id);
    IntRoundTrip(e.side);
    IntWordsAreTokens(e.data);
    TokensAppend([IntWord(e.id), IntWord(e.side)], IntWords(e.data));
  }

  lemma {:induction false} EntriesWordsAreTokens<T>(view: T -> Entry, xs: seq<T>)
    requires forall i | 0 <= i < |xs| :: Fits(view(xs[i]))
    ensures AreTokens(EntriesWords(view, xs))
  {
    if xs != [] {
      EntryWordsAreTokens(view(xs[0]));
      EntriesWordsAreTokens(view, xs[1..]);
      TokensAppend(EntryWords(view(xs[0])), EntriesWords(view, xs[1..]));
    }
  }

  lemma ProblemWordsAreTokens(threshold: string, p: Problem)
    requires Printable(p) && IsToken(threshold)
    ensures AreTokens(ProblemWords(threshold, p))
  {
    IntRoundTrip(|p.pictures|);
    IntRoundTrip(|p.objects|);
    EntriesWordsAreTokens(PictureEntry, p.pictures);
    EntriesWordsAreTokens(ObjectEntry, p.objects);
    TokensAppend([IntWord(|p.pictures|)], EntriesWords(PictureEntry, p.pictures));
    TokensAppend([IntWord(|p.objects|)], EntriesWords(ObjectEntry, p.objects));
    TokensAppend([Word(threshold)], SectionWords(PictureEntry, p.pictures));
    TokensAppend([Word(threshold)] + SectionWords(PictureEntry, p.pictures), SectionWords(ObjectEntry, p.objects));
  }
}
