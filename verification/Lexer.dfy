/** The tokeniser of parser.c: a reader that skips whitespace and comments and
    cuts the next word, and what it reads from a string. */
module Lexing {

  const TOKEN_MAX := 64

  /** isspace in the C locale: tab to carriage return, and the blank. */
  predicate IsSpace(c: char) { c == ' ' || 9 <= c as int <= 13 }

  /** The six whitespace characters of the C locale. */
  lemma WhitespaceIs(c: char)
    ensures IsSpace(c) <==> c in {' ', '\t', '\n', '\r', 11 as char, 12 as char}
  {
  }

  /** What is left after the end of the current line. */
  function AfterLine(s: string): (rest: string)
    ensures |rest| < |s| || (s == "" && rest == "")
  {
    if s == "" then "" else if s[0] == '\n' then s[1..] else AfterLine(s[1..])
  }

  /** What is left once blanks and comments have been skipped. A `#` counts only
      here, where a token could start. */
  function SkipBlanks(s: string): (rest: string)
    ensures |rest| <= |s|
    ensures rest == "" || !IsSpace(rest[0])
    decreases |s|
  {
    if s == "" then ""
    else if IsSpace(s[0]) then SkipBlanks(s[1..])
    else if s[0] == '#' then SkipBlanks(AfterLine(s))
    else s
  }

  /** The number of characters before the first whitespace. */
  function WordLength(s: string): (n: nat)
    ensures n <= |s|
    ensures n == 0 <==> s == "" || IsSpace(s[0])
  {
    if s == "" || IsSpace(s[0]) then 0 else 1 + WordLength(s[1..])
  }

  /** One call of lexer_next: end of input, an over-long token, or a token and
      what follows the single delimiter that was consumed with it. */
  datatype Lexeme = End | TooLong | Token(text: string, rest: string)

  function NextToken(s: string): Lexeme {
    var t := SkipBlanks(s);
    if t == "" then End
    else
      var n := WordLength(t);
      if n >= TOKEN_MAX then TooLong
      else Token(t[..n], AfterBlank(t[n..]))
  }

  function AfterBlank(s: string): string { if s == "" then "" else s[1..] }

  /** The loop that fills the token buffer, character by character: the token and
      the text from its delimiter on. */
  function Cut(token: string, s: string): Lexeme
    decreases |s|
  {
    if s == "" || IsSpace(s[0]) then Token(token, s)
    else if |token| + 1 >= TOKEN_MAX then TooLong
    else Cut(token + [s[0]], s[1..])
  }

  lemma {:induction false} CutIsWord(token: string, s: string)
    requires |token| < TOKEN_MAX
    ensures Cut(token, s) ==
            var n := WordLength(s);
            if |token| + n >= TOKEN_MAX then TooLong else Token(token + s[..n], s[n..])
    decreases |s|
  {
    if s != "" && !IsSpace(s[0]) {
      var n := WordLength(s[1..]);
      if |token| + 1 < TOKEN_MAX {
        CutIsWord(token + [s[0]], s[1..]);
        assert token + [s[0]] + s[1..][..n] == token + s[..n + 1];
      }
    }
  }

  /** The next token of `s` is directly followed by a newline. */
  predicate EndsLine(s: string) {
    var t := SkipBlanks(s);
    var n := WordLength(t);
    t != "" && n < TOKEN_MAX && n < |t| && t[n] == '\n'
  }

  lemma NextIsCut(s: string)
    ensures var t := SkipBlanks(s);
            if t == "" then NextToken(s) == End && !EndsLine(s)
            else match Cut("", t)
              case End => false
              case TooLong => NextToken(s) == TooLong && !EndsLine(s)
              case Token(text, rest) =>
                && NextToken(s) == Token(text, AfterBlank(rest))
                && (EndsLine(s) <==> rest != "" && rest[0] == '\n')
  {
    var t := SkipBlanks(s);
    CutIsWord("", t);
    assert "" + t[..WordLength(t)] == t[..WordLength(t)];
  }

  /** Of the next `calls` tokens, how many are directly followed by a newline. */
  function LinesEnded(s: string, calls: nat): nat
    decreases calls
  {
    if calls == 0 || !NextToken(s).Token? then 0
    else (if EndsLine(s) then 1 else 0) + LinesEnded(NextToken(s).rest, calls - 1)
  }

  /** What is left once `calls` tokens have been read. */
  function TextAfter(s: string, calls: nat): string
    decreases calls
  {
    if calls == 0 then s
    else match NextToken(s)
      case Token(_, rest) => TextAfter(rest, calls - 1)
      case _ => ""
  }

  /** Token `k` of `s`, counted from 0, is directly followed by a newline. */
  predicate EndsLineAt(s: string, k: nat) { EndsLine(TextAfter(s, k)) }

  lemma EndsLineStep(s: string, k: nat)
    ensures EndsLine(s) ==> NextToken(s).Token?
    ensures k > 0 ==> EndsLineAt(s, k) == (NextToken(s).Token? && EndsLineAt(NextToken(s).rest, k - 1))
  {
  }

  lemma {:induction false} EndsLineCounts(s: string, calls: nat, k: nat)
    requires k < calls && EndsLineAt(s, k)
    ensures LinesEnded(s, calls) > 0
    decreases k
  {
    EndsLineStep(s, k);
    if k > 0 {
      EndsLineCounts(NextToken(s).rest, calls - 1, k - 1);
    }
  }

  lemma {:induction false} FirstLineEnded(s: string, calls: nat) returns (k: nat)
    requires LinesEnded(s, calls) > 0
    ensures k < calls && EndsLineAt(s, k)
    decreases calls
  {
    if EndsLine(s) {
      k := 0;
    } else {
      var rest := FirstLineEnded(NextToken(s).rest, calls - 1);
      k := rest + 1;
      EndsLineStep(s, k);
    }
  }

  lemma NoneEndsLine(s: string, calls: nat)
    ensures LinesEnded(s, calls) == 0 <==> forall k: nat | k < calls :: !EndsLineAt(s, k)
  {
    if LinesEnded(s, calls) > 0 {
      var k := FirstLineEnded(s, calls);
    }
    forall k: nat | k < calls && EndsLineAt(s, k)
      ensures LinesEnded(s, calls) > 0
    {
      EndsLineCounts(s, calls, k);
    }
  }

  lemma AfterOne(text: string, pos: nat)
    requires 0 < pos <= |text|
    ensures AfterBlank(text[pos - 1..]) == text[pos..]
  {
  }

  /** Everything the lexer will hand out, one entry a call. An over-long token
      ends the list: nothing is read after it. */
  datatype Word = TooLongWord | Word(text: string)

  function Tokens(s: string): seq<Word>
    decreases |s|
  {
    match NextToken(s)
    case End => []
    case TooLong => [TooLongWord]
    case Token(text, rest) => [Word(text)] + Tokens(rest)
  }

  /** Newlines among the first `pos` characters. */
  function Newlines(text: string, pos: nat): nat
    requires pos <= |text|
  {
    if pos == 0 then 0 else Newlines(text, pos - 1) + if text[pos - 1] == '\n' then 1 else 0
  }

  datatype Char = Eof | Chr(c: char)

  /** The Lexer struct. The file is its text; fgetc is a read position. */
  class Lexer {
    const text: string
    var pos: nat
    var line: int
    var token: string

    constructor (text: string)
      ensures this.text == text && pos == 0 && line == 1 && token == ""
    {
      this.text := text;
      pos, line, token := 0, 1, "";
    }

    predicate Valid()
      reads this
    {
      pos <= |text|
    }

    function Rest(): string
      requires Valid()
      reads this
    {
      text[pos..]
    }

    /** Everything still to be handed out. */
    function Ahead(): seq<Word>
      requires Valid()
      reads this
    {
      Tokens(Rest())
    }

    /** How far the line counter is from the number of newlines read. */
    function LineLag(): int
      requires Valid()
      reads this
    {
      1 + Newlines(text, pos) - line
    }

    /** What has not been consumed when `c` has been read but not used. */
    function Unread(c: Char): string
      requires Valid() && (c.Chr? ==> 0 < pos)
      reads this
    {
      if c == Eof then "" else text[pos - 1..]
    }

    predicate Just(c: Char)
      requires Valid()
      reads this
    {
      match c
      case Eof => pos == |text|
      case Chr(x) => 0 < pos && text[pos - 1] == x
    }

    /** lexer_getc. */
    method Getc() returns (c: Char)
      requires Valid()
      modifies this`pos, this`line
      ensures Valid() && Just(c) && Unread(c) == old(Rest())
      ensures pos == if c == Eof then old(pos) else old(pos) + 1
      ensures LineLag() == old(LineLag())
    {
      if pos == |text| {
        return Eof;
      }
      c := Chr(text[pos]);
      pos := pos + 1;
      if c.c == '\n' {
        line := line + 1;
      }
    }

    /** The rest of a comment, up to and including its newline. */
    method SkipComment(first: Char) returns (c: Char)
      requires Valid() && Just(first) && first.Chr?
      modifies this`pos, this`line
      ensures Valid() && Just(c) && pos >= old(pos)
      ensures c == Eof ==> AfterLine(old(Unread(first))) == ""
      ensures c != Eof ==> Rest() == AfterLine(old(Unread(first)))
      ensures LineLag() == old(LineLag())
    {
      c := first;
      while c != Eof && c != Chr('\n')
        invariant Valid() && Just(c) && pos >= old(pos)
        invariant AfterLine(Unread(c)) == AfterLine(old(Unread(first)))
        invariant LineLag() == old(LineLag())
        decreases |text| - pos, c != Eof
      {
        assert Unread(c)[1..] == Rest();
        c := Getc();
      }
      assert c != Eof ==> Unread(c)[1..] == Rest();
    }

    /** Everything before the next token; its first character has been read. */
    method SkipToToken() returns (c: Char)
      requires Valid()
      modifies this`pos, this`line
      ensures Valid() && Just(c) && pos >= old(pos)
      ensures Unread(c) == SkipBlanks(old(Rest()))
      ensures LineLag() == old(LineLag())
    {
      while true
        invariant Valid() && pos >= old(pos)
        invariant SkipBlanks(Rest()) == SkipBlanks(old(Rest()))
        invariant LineLag() == old(LineLag())
        decreases |text| - pos
      {
        ghost var start := pos;
        c := Getc();
        while c != Eof && IsSpace(c.c)
          invariant Valid() && Just(c) && pos >= start && (c != Eof ==> pos > start)
          invariant SkipBlanks(Unread(c)) == SkipBlanks(old(Rest()))
          invariant LineLag() == old(LineLag())
          decreases |text| - pos, c != Eof
        {
          assert Unread(c)[1..] == Rest();
          c := Getc();
        }
        if c == Eof || c.c != '#' {
          return;
        }
        c := SkipComment(c);
        if c == Eof {
          return;
        }
      }
    }

    /** The characters of one token, of which the first has been read. */
    method ReadWord(first: Char) returns (c: Char, ok: bool)
      requires Valid() && Just(first) && first.Chr? && !IsSpace(first.c)
      modifies this
      ensures Valid() && pos >= old(pos)
      ensures Cut("", old(Unread(first))) == if ok then Token(token, Unread(c)) else TooLong
      ensures ok ==> Just(c) && token != ""
      ensures LineLag() == old(LineLag())
    {
      c := first;
      token := "";
      while c != Eof && !IsSpace(c.c)
        invariant Valid() && Just(c) && pos >= old(pos) > 0
        invariant Cut(token, Unread(c)) == Cut("", old(Unread(first)))
        invariant token == "" ==> c == first
        invariant LineLag() == old(LineLag())
        decreases |text| - pos, c != Eof
      {
        if |token| + 1 >= TOKEN_MAX {
          return c, false;
        }
        assert Unread(c)[1..] == Rest();
        token := token + [c.c];
        c := Getc();
      }
      ok := true;
    }

    /** lexer_next: the token, and the position after one delimiter. The line
        counter loses a newline exactly when it directly follows the token. */
    method Next() returns (ok: bool)
      requires Valid()
      modifies this
      ensures Valid() && pos >= old(pos)
      ensures var lexeme := NextToken(old(Rest()));
              && (ok <==> lexeme.Token?)
              && (ok ==> token == lexeme.text && Rest() == lexeme.rest)
      ensures LineLag() == old(LineLag()) + if EndsLine(old(Rest())) then 1 else 0
    {
      NextIsCut(Rest());
      var c := SkipToToken();
      if c == Eof {
        return false;
      }
      c, ok := ReadWord(c);
      if !ok {
        return;
      }
      if c == Chr('\n') {
        line := line - 1;
      }
      if c != Eof {
        AfterOne(text, pos);
      }
      ok := |token| > 0;
    }

    /** Any number of calls, up to the first that has no token: the counter has
        fallen behind by the number of tokens directly followed by a newline, and
        so is right if and only if there was none. */
    method ReadTokens(calls: nat) returns (read: nat)
      requires Valid()
      modifies this
      ensures Valid() && read <= calls
      ensures LineLag() == old(LineLag()) + LinesEnded(old(Rest()), calls)
      ensures LineLag() == old(LineLag()) <==> forall k: nat | k < calls :: !EndsLineAt(old(Rest()), k)
    {
      read := 0;
      var ok := true;
      while read < calls && ok
        invariant Valid() && read <= calls
        invariant LineLag() + (if ok then LinesEnded(Rest(), calls - read) else 0)
               == old(LineLag()) + LinesEnded(old(Rest()), calls)
        decreases calls - read, ok
      {
        ok := Next();
        read := if ok then read + 1 else read;
      }
      NoneEndsLine(old(Rest()), calls);
    }
  }

  /** A text on which the reported line is wrong: once "1" and the newline after it
      have been read, the reader is on line 2 and reports line 1. */
  method CounterFallsBehind() returns (lexer: Lexer)
    ensures lexer.text == "1\n" && lexer.Valid() && lexer.token == "1" && lexer.Rest() == ""
    ensures lexer.line == 1 && lexer.LineLag() == 1
  {
    lexer := new Lexer("1\n");
    assert lexer.Rest() == "1\n" && lexer.LineLag() == 0;
    assert SkipBlanks("1\n") == "1\n" && WordLength("1\n") == 1;
    var ok := lexer.Next();
    assert lexer.pos == 2 by { assert |lexer.Rest()| == 2 - lexer.pos; }
    assert Newlines("1\n", 1) == 0;
  }
}
