/** The lexer of the calculator: the token type, the character classes of
    the C locale, a specification of one call of `gettok` over the characters
    not yet consumed, and the `Scanner` class that holds `gettok`'s static
    one-character lookahead. */
module Lexer {

  /** A token: end of input (-1), a lexical error (-2), a number (-4) whose
      payload is kept as its lexeme, or any other character as its own code. */
  datatype Token = TokEof | TokError | TokNumber(lexeme: string) | TokChar(c: char)

  /** The integer code `gettok` returns for a token. */
  function Code(t: Token): (k: int)
    ensures k < 0 <==> !t.TokChar?
  {
    match t
    case TokEof => -1
    case TokError => -2
    case TokNumber(_) => -4
    case TokChar(c) => c as int
  }

  // Character classes of the C locale (`isspace`, `isdigit`, `isalpha`, `isalnum`).

  predicate IsSpace(c: char) { c == ' ' || '\t' <= c <= '\r' }
  predicate IsDigit(c: char) { '0' <= c <= '9' }
  predicate IsAlpha(c: char) { 'a' <= c <= 'z' || 'A' <= c <= 'Z' }
  predicate IsAlnum(c: char) { IsAlpha(c) || IsDigit(c) }
  /** A character that continues a number: `[0-9.]`. */
  predicate IsNumberChar(c: char) { IsDigit(c) || c == '.' }

  predicate AllNumberChars(s: seq<char>) { forall i :: 0 <= i < |s| ==> IsNumberChar(s[i]) }
  predicate AllSpaces(s: seq<char>) { forall i :: 0 <= i < |s| ==> IsSpace(s[i]) }

  /* The lexer's state is the lookahead `LastChar` followed by the input
     `getchar` has not yet returned; the functions below work on that
     sequence, called the pending characters ([] once `LastChar` is EOF). */

  /** The whitespace-skipping loop: drops the leading run of whitespace. */
  function SkipSpace(p: seq<char>): (q: seq<char>)
    ensures |q| <= |p|
    ensures q == [] || !IsSpace(q[0])
    ensures q == p[|p| - |q|..]
  {
    if p != [] && IsSpace(p[0]) then SkipSpace(p[1..]) else p
  }

  /** What the whitespace-skipping loop drops is whitespace only. */
  lemma {:induction false} SkipSpaceDropsBlanks(p: seq<char>)
    ensures AllSpaces(p[..|p| - |SkipSpace(p)|])
  {
    if p != [] && IsSpace(p[0]) {
      SkipSpaceDropsBlanks(p[1..]);
      var n := |p| - |SkipSpace(p)|;
      assert forall i :: 1 <= i < n ==> p[i] == p[1..][..n - 1][i - 1];
    }
  }

  /** Length of the leading run of digits and dots. */
  function NumberLength(p: seq<char>): (n: nat)
    ensures n <= |p|
    ensures AllNumberChars(p[..n])
    ensures n == |p| || !IsNumberChar(p[n])
  {
    if p != [] && IsNumberChar(p[0]) then 1 + NumberLength(p[1..]) else 0
  }

  /** The number, end-of-input and raw-character rules, applied to the
      lookahead without skipping whitespace. */
  function LexPlain(p: seq<char>): (r: (Token, seq<char>))
    ensures |r.1| <= |p| && r.1 == p[|p| - |r.1|..]
    ensures r.0 == TokEof <==> p == []
    ensures r.0 != TokEof ==> |r.1| < |p|
    ensures r.0 != TokError
    ensures p != [] && !IsNumberChar(p[0]) ==> r == (TokChar(p[0]), p[1..])
    ensures p != [] && IsNumberChar(p[0]) ==>
      && r.0.TokNumber? && r.0.lexeme != [] && AllNumberChars(r.0.lexeme)
      && p == r.0.lexeme + r.1 && (r.1 == [] || !IsNumberChar(r.1[0]))
  {
    if p == [] then (TokEof, [])
    else if IsNumberChar(p[0]) then
      var n := NumberLength(p);
      (TokNumber(p[..n]), p[n..])
    else (TokChar(p[0]), p[1..])
  }

  /** One call of `gettok`: the token returned and the pending characters
      afterwards. A letter reads one more character: when that one is
      alphanumeric the result is a lexical error, otherwise it is lexed by
      the plain rules, without skipping whitespace. */
  function Lex(p: seq<char>): (r: (Token, seq<char>))
    ensures |r.1| <= |p|
    ensures r.0 == TokEof ==> r.1 == []
    ensures r.0 != TokEof ==> |r.1| < |p|
    ensures r.1 == p[|p| - |r.1|..]
  {
    var q := SkipSpace(p);
    if q != [] && IsAlpha(q[0]) then
      var after := q[1..];
      assert after == p[|p| - |after|..];
      if after != [] && IsAlnum(after[0]) then (TokError, after)
      else
        var r := LexPlain(after);
        SuffixOfSuffix(p, after, r.1);
        r
    else
      var r := LexPlain(q);
      SuffixOfSuffix(p, q, r.1);
      r
  }

  lemma SuffixOfSuffix(p: seq<char>, q: seq<char>, r: seq<char>)
    requires |q| <= |p| && q == p[|p| - |q|..]
    requires |r| <= |q| && r == q[|q| - |r|..]
    ensures r == p[|p| - |r|..]
  {
  }

  /** The tokens `gettok` returns, in order, before the first end of input. */
  function Tokenize(p: seq<char>): (ts: seq<Token>)
    ensures TokEof !in ts
    ensures |ts| <= |p|
    decreases |p|
  {
    var r := Lex(p);
    if r.0 == TokEof then [] else [r.0] + Tokenize(r.1)
  }

  /** One more token of the stream: the first call of `gettok` and the
      stream after it. */
  lemma TokenizeStep(p: seq<char>)
    requires Lex(p).0 != TokEof
    ensures Tokenize(p) == [Lex(p).0] + Tokenize(Lex(p).1)
  {
  }

  /** Leading whitespace never changes what `gettok` returns. */
  lemma LexSkipsSpace(w: seq<char>, p: seq<char>)
    requires AllSpaces(w)
    ensures Lex(w + p) == Lex(p)
  {
    SkipSpaceAppend(w, p);
  }

  lemma {:induction false} SkipSpaceAppend(w: seq<char>, p: seq<char>)
    requires AllSpaces(w)
    ensures SkipSpace(w + p) == SkipSpace(p)
  {
    if w != [] {
      assert (w + p)[0] == w[0] && IsSpace(w[0]);
      assert (w + p)[1..] == w[1..] + p;
      SkipSpaceAppend(w[1..], p);
      assert SkipSpace(w + p) == SkipSpace(w[1..] + p);
    } else {
      assert w + p == p;
    }
  }

  /** A maximal run of digits and dots, however many dots it holds, is one
      number token, and afterwards the lookahead is neither a digit nor a dot. */
  lemma {:induction false} LexNumber(d: seq<char>, q: seq<char>)
    requires d != [] && AllNumberChars(d)
    requires q == [] || !IsNumberChar(q[0])
    ensures Lex(d + q) == (TokNumber(d), q)
  {
    var p := d + q;
    assert p[0] == d[0] && IsNumberChar(p[0]);
    assert !IsSpace(p[0]) && !IsAlpha(p[0]);
    assert SkipSpace(p) == p;
    assert Lex(p) == LexPlain(p);
    NumberToken(p, d, q);
  }

  lemma {:induction false} NumberRun(d: seq<char>, q: seq<char>)
    requires AllNumberChars(d)
    requires q == [] || !IsNumberChar(q[0])
    ensures NumberLength(d + q) == |d|
  {
    if d != [] {
      assert (d + q)[1..] == d[1..] + q;
      NumberRun(d[1..], q);
    }
  }

  lemma NumberToken(p: seq<char>, d: seq<char>, q: seq<char>)
    requires p == d + q && d != [] && AllNumberChars(d)
    requires q == [] || !IsNumberChar(q[0])
    ensures LexPlain(p) == (TokNumber(d), q)
  {
    assert p[0] == d[0];
    NumberRun(d, q);
    assert p[..|d|] == d && p[|d|..] == q;
  }

  /** Any character that is neither whitespace, a letter, a digit nor a dot
      is returned as its own code and consumed. */
  lemma LexRawChar(c: char, q: seq<char>)
    requires !IsSpace(c) && !IsAlpha(c) && !IsNumberChar(c)
    ensures Lex([c] + q) == (TokChar(c), q)
  {
    assert ([c] + q)[1..] == q;
  }

  /** A letter followed by an alphanumeric character is a lexical error whose
      lookahead is that character; a letter followed by anything else lets
      that character be lexed by the plain rules. */
  lemma LexLetter(a: char, q: seq<char>)
    requires IsAlpha(a)
    ensures q != [] && IsAlnum(q[0]) ==> Lex([a] + q) == (TokError, q)
    ensures !(q != [] && IsAlnum(q[0])) ==> Lex([a] + q) == LexPlain(q)
  {
    assert ([a] + q)[1..] == q;
  }

  /** End of input is reported without consuming anything, so every later
      call reports it again. */
  lemma LexEofStable(p: seq<char>)
    requires Lex(p).0 == TokEof
    ensures Lex(Lex(p).1) == (TokEof, [])
    ensures Tokenize(p) == []
  {
  }

  /** The initial lookahead is a blank, which does not change the tokens. */
  lemma TokenizeAfterBlank(text: seq<char>)
    ensures Tokenize([' '] + text) == Tokenize(text)
  {
    LexSkipsSpace([' '], text);
  }

  /** After the first call of `gettok` on the initial blank and the text,
      that token and the stream after it are the text's stream. */
  lemma FirstToken(text: seq<char>, t: Token, rest: seq<char>)
    requires t == Lex([' '] + text).0 && rest == Lex([' '] + text).1
    ensures t == TokEof ==> rest == []
    ensures (if t == TokEof then [] else [t] + Tokenize(rest)) == Tokenize(text)
  {
    TokenizeAfterBlank(text);
    if t != TokEof {
      TokenizeStep([' '] + text);
    }
  }

  // The token stream, one lexeme at a time.

  /** A maximal number starts the stream with one number token. */
  lemma TokenizeNumber(d: seq<char>, q: seq<char>)
    requires d != [] && AllNumberChars(d)
    requires q == [] || !IsNumberChar(q[0])
    ensures Tokenize(d + q) == [TokNumber(d)] + Tokenize(q)
  {
    LexNumber(d, q);
    TokenizeStep(d + q);
  }

  /** A character of no other class is a token of its own. */
  lemma TokenizeRaw(c: char, q: seq<char>)
    requires !IsSpace(c) && !IsAlpha(c) && !IsNumberChar(c)
    ensures Tokenize([c] + q) == [TokChar(c)] + Tokenize(q)
  {
    LexRawChar(c, q);
    TokenizeStep([c] + q);
  }

  /** Whitespace between tokens contributes nothing. */
  lemma TokenizeBlank(c: char, q: seq<char>)
    requires IsSpace(c)
    ensures Tokenize([c] + q) == Tokenize(q)
  {
    LexSkipsSpace([c], q);
  }

  /** A letter followed by a character that is neither alphanumeric nor a
      dot is dropped, and that character becomes a token of its own even
      when it is whitespace. */
  lemma TokenizeLetter(a: char, c: char, q: seq<char>)
    requires IsAlpha(a) && !IsAlnum(c) && c != '.'
    ensures Tokenize([a, c] + q) == [TokChar(c)] + Tokenize(q)
  {
    assert [a, c] + q == [a] + ([c] + q);
    LexLetter(a, [c] + q);
    assert ([c] + q)[1..] == q;
    TokenizeStep([a, c] + q);
  }

  /** Lookahead of `gettok`: a character or EOF. */
  datatype Lookahead = AtEof | Ahead(c: char)

  /** The static `LastChar` of `gettok` together with the input that
      `getchar` has not yet returned. */
  class Scanner {
    var lastChar: Lookahead
    var input: seq<char>

    ghost predicate Valid()
      reads this
    {
      lastChar == AtEof ==> input == []
    }

    /** The pending characters: the lookahead followed by the unread input. */
    ghost function Pending(): seq<char>
      reads this
    {
      match lastChar
      case AtEof => []
      case Ahead(c) => [c] + input
    }

    /** `static int LastChar = ' '` over the given input. */
    constructor (text: seq<char>)
      ensures Valid()
      ensures lastChar == Ahead(' ') && input == text
      ensures Pending() == [' '] + text
    {
      lastChar := Ahead(' ');
      input := text;
    }

    /** `LastChar = getchar()`. */
    method ReadChar()
      requires Valid()
      modifies this
      ensures Valid()
      ensures Pending() == if old(Pending()) == [] then [] else old(Pending())[1..]
    {
      if input == [] {
        lastChar := AtEof;
      } else {
        lastChar := Ahead(input[0]);
        input := input[1..];
      }
    }

    /** The whitespace-skipping loop at the start of `gettok`. */
    method SkipWhitespace()
      requires Valid()
      modifies this
      ensures Valid()
      ensures Pending() == SkipSpace(old(Pending()))
    {
      while lastChar.Ahead? && IsSpace(lastChar.c)
        invariant Valid()
        invariant SkipSpace(Pending()) == SkipSpace(old(Pending()))
        decreases |Pending()|
      {
        ghost var p := Pending();
        assert SkipSpace(p) == SkipSpace(p[1..]);
        ReadChar();
      }
    }

    /** The `do`-`while` loop that gathers a number's digits and dots. */
    method ScanNumber() returns (numStr: string)
      requires Valid()
      requires lastChar.Ahead? && IsNumberChar(lastChar.c)
      modifies this
      ensures Valid()
      ensures numStr == old(Pending())[..NumberLength(old(Pending()))]
      ensures Pending() == old(Pending())[NumberLength(old(Pending()))..]
    {
      ghost var start := Pending();
      numStr := [];
      while true
        invariant Valid()
        invariant |numStr| < |start| && numStr == start[..|numStr|] && Pending() == start[|numStr|..]
        invariant AllNumberChars(numStr)
        invariant lastChar.Ahead? && IsNumberChar(lastChar.c)
        decreases |Pending()|
      {
        ghost var k := |numStr|;
        assert start[k] == Pending()[0] == lastChar.c;
        numStr := numStr + [lastChar.c];
        assert numStr == start[..k + 1];
        ReadChar();
        assert Pending() == start[k + 1..];
        if !(lastChar.Ahead? && IsNumberChar(lastChar.c)) {
          assert start == numStr + Pending();
          NumberRun(numStr, Pending());
          return;
        }
      }
    }

    /** `gettok`. The `while` on an alphanumeric character after a letter
        returns on its first iteration, so it is written as an `if`. */
    method GetTok() returns (t: Token)
      requires Valid()
      modifies this
      ensures Valid()
      ensures (t, Pending()) == Lex(old(Pending()))
    {
      SkipWhitespace();
      if lastChar.Ahead? && IsAlpha(lastChar.c) {
        ReadChar();
        if lastChar.Ahead? && IsAlnum(lastChar.c) {
          return TokError;
        }
      }
      assert Lex(old(Pending())) == LexPlain(Pending());
      if lastChar.Ahead? && IsNumberChar(lastChar.c) {
        var numStr := ScanNumber();
        return TokNumber(numStr);
      }
      if lastChar == AtEof {
        return TokEof;
      }
      var thisChar := lastChar.c;
      ReadChar();
      return TokChar(thisChar);
    }
  }
}
