/** What the recursive-descent parser computes, stated over the stream of
    tokens the lexer has still to deliver: the current token `CurTok` is the
    head of the stream and the end of the stream reads as `tok_eof`. */
module Grammar {
  import opened Lexer
  import opened Precedence
  import opened Ast

  /** The two messages the parser reports. */
  datatype ParseError = UnexpectedToken | ExpectedCloseParen

  /** A parse outcome with the tokens left after it. A failure also keeps
      them: the parser stops on the token where it found the error. */
  datatype Parse<T> = Parsed(value: T, rest: seq<Token>) | Failed(error: ParseError, rest: seq<Token>)

  /** `CurTok`. */
  function Cur(ts: seq<Token>): Token
  {
    if ts == [] then TokEof else ts[0]
  }

  /** The stream after `getNextToken`; at end of input nothing is consumed. */
  function Next(ts: seq<Token>): seq<Token>
  {
    if ts == [] then [] else ts[1..]
  }

  /** Every binary operator of `e` has a positive precedence in `m`. */
  predicate OperatorsDeclared(m: map<char, int>, e: Expr)
  {
    match e
    case Number(_) => true
    case Binary(op, l, r) => Lookup(m, TokChar(op)) > 0 && OperatorsDeclared(m, l) && OperatorsDeclared(m, r)
  }

  /** `ParsePrimary`: a number, a parenthesised expression, or the error
      "unexpected token when expecting an expression" on anything else. */
  function ParsePrimary(m: map<char, int>, ts: seq<Token>): (r: Parse<Expr>)
    ensures |r.rest| <= |ts|
    ensures r.Parsed? ==> |r.rest| < |ts|
    ensures r.Parsed? ==> OperatorsDeclared(m, r.value)
    ensures !(Cur(ts).TokNumber? || Cur(ts) == TokChar('(')) ==> r == Failed(UnexpectedToken, ts)
    decreases |ts|, 1
  {
    match Cur(ts)
    case TokNumber(_) => ParseNumberExpr(ts)
    case TokChar(c) =>
      if c == '(' then ParseParenExpr(m, ts) else Failed(UnexpectedToken, ts)
    case _ => Failed(UnexpectedToken, ts)
  }

  /** `ParseNumberExpr`: the number token becomes a leaf and is consumed. */
  function ParseNumberExpr(ts: seq<Token>): (r: Parse<Expr>)
    requires Cur(ts).TokNumber?
    ensures r.Parsed? && r.value.Number? && r.value.lexeme == ts[0].lexeme
    ensures |r.rest| == |ts| - 1
  {
    Parsed(Number(Cur(ts).lexeme), ts[1..])
  }

  /** `ParseParenExpr`: `'(' expression ')'`. */
  function ParseParenExpr(m: map<char, int>, ts: seq<Token>): (r: Parse<Expr>)
    requires Cur(ts) == TokChar('(')
    ensures |r.rest| <= |ts|
    ensures r.Parsed? ==> |r.rest| < |ts| - 1
    ensures r.Parsed? ==> OperatorsDeclared(m, r.value)
    decreases |ts|, 0
  {
    var v := ParseExpression(m, ts[1..]);
    if v.Failed? then v
    else if Cur(v.rest) != TokChar(')') then Failed(ExpectedCloseParen, v.rest)
    else Parsed(v.value, v.rest[1..])
  }

  /** `ParseExpression`: a primary followed by operators of any precedence.
      On success the current token is not a binary operator. */
  function ParseExpression(m: map<char, int>, ts: seq<Token>): (r: Parse<Expr>)
    ensures |r.rest| <= |ts|
    ensures r.Parsed? ==> |r.rest| < |ts|
    ensures r.Parsed? ==> OperatorsDeclared(m, r.value)
    ensures r.Parsed? ==> Lookup(m, Cur(r.rest)) == -1
    decreases |ts|, 2
  {
    var lhs := ParsePrimary(m, ts);
    if lhs.Failed? then lhs
    else ParseBinOpRHS(m, 0, lhs.value, lhs.rest)
  }

  /** `ParseBinOpRHS`: precedence climbing. Each round consumes an operator
      binding at least `exprPrec` and its right operand, and makes them the
      new left operand. */
  function ParseBinOpRHS(m: map<char, int>, exprPrec: int, lhs: Expr, ts: seq<Token>): (r: Parse<Expr>)
    requires 0 <= exprPrec
    ensures |r.rest| <= |ts|
    ensures r.Parsed? ==> Lookup(m, Cur(r.rest)) < exprPrec
    ensures r.Parsed? && OperatorsDeclared(m, lhs) ==> OperatorsDeclared(m, r.value)
    decreases |ts|, 3
  {
    var tokPrec := Lookup(m, Cur(ts));
    if tokPrec < exprPrec then Parsed(lhs, ts)
    else
      var rhs := ParseOperand(m, tokPrec, ts[1..]);
      if rhs.Failed? then rhs
      else ParseBinOpRHS(m, exprPrec, Binary(Cur(ts).c, lhs, rhs.value), rhs.rest)
  }

  /** The right operand of a round whose operator has precedence `tokPrec`:
      a primary, which the operators after it take first as their left
      operand when they bind tighter (the inner call at `tokPrec + 1`). */
  function ParseOperand(m: map<char, int>, tokPrec: int, ts: seq<Token>): (r: Parse<Expr>)
    requires 0 <= tokPrec
    ensures |r.rest| <= |ts|
    ensures r.Parsed? ==> |r.rest| < |ts| && OperatorsDeclared(m, r.value)
    ensures r.Parsed? ==> Lookup(m, Cur(r.rest)) <= tokPrec
    decreases |ts|, 4
  {
    var rhs := ParsePrimary(m, ts);
    if rhs.Failed? then rhs
    else if tokPrec < Lookup(m, Cur(rhs.rest)) then ParseBinOpRHS(m, tokPrec + 1, rhs.value, rhs.rest)
    else rhs
  }

  /** `ParseTopLevelExpr`: an expression wrapped as a function of no
      parameters under the fixed anonymous name. */
  function ParseTopLevelExpr(m: map<char, int>, ts: seq<Token>): (r: Parse<FunctionAst>)
    ensures |r.rest| <= |ts|
    ensures r.Parsed? ==> |r.rest| < |ts|
    ensures r.Parsed? ==> r.value.proto == Prototype(AnonName, [])
    ensures r.Parsed? ==> OperatorsDeclared(m, r.value.body)
    ensures r.Parsed? ==> Lookup(m, Cur(r.rest)) == -1
  {
    var e := ParseExpression(m, ts);
    if e.Failed? then Failed(e.error, e.rest)
    else Parsed(FunctionAst(Prototype(AnonName, []), e.value), e.rest)
  }

  // Shapes of the trees the parser builds.

  function N(x: string): Token { TokNumber(x) }
  function Op(c: char): Token { TokChar(c) }

  /** A number token is a primary. */
  lemma NumberPrimary(m: map<char, int>, x: string, rest: seq<Token>)
    ensures ParsePrimary(m, [N(x)] + rest) == Parsed(Number(x), rest)
  {
    assert ([N(x)] + rest)[1..] == rest;
  }

  /** The loop stops on a token that binds less than `exprPrec`. */
  lemma RoundStops(m: map<char, int>, exprPrec: int, lhs: Expr, rest: seq<Token>)
    requires 0 <= exprPrec && Lookup(m, Cur(rest)) < exprPrec
    ensures ParseBinOpRHS(m, exprPrec, lhs, rest) == Parsed(lhs, rest)
  {
  }

  /** One round of the loop that takes an operator and a number, when the
      operator after them binds no tighter. */
  lemma RoundTakesNumber(m: map<char, int>, exprPrec: int, lhs: Expr, o: char, x: string, rest: seq<Token>)
    requires 0 <= exprPrec <= Lookup(m, Op(o))
    requires Lookup(m, Cur(rest)) <= Lookup(m, Op(o))
    ensures ParseBinOpRHS(m, exprPrec, lhs, [Op(o), N(x)] + rest)
            == ParseBinOpRHS(m, exprPrec, Binary(o, lhs, Number(x)), rest)
  {
    var ts := [Op(o), N(x)] + rest;
    assert ts[1..] == [N(x)] + rest;
    NumberPrimary(m, x, rest);
    assert ParseOperand(m, Lookup(m, Op(o)), ts[1..]) == Parsed(Number(x), rest);
  }

  /** One round of the loop whose number is first taken by a tighter
      operator after it: the inner call at the operator's precedence plus one
      builds the right operand. */
  lemma RoundDefersToTighter(m: map<char, int>, exprPrec: int, lhs: Expr, o: char, x: string, rest: seq<Token>)
    requires 0 <= exprPrec <= Lookup(m, Op(o)) < Lookup(m, Cur(rest))
    ensures var inner := ParseBinOpRHS(m, Lookup(m, Op(o)) + 1, Number(x), rest);
            ParseBinOpRHS(m, exprPrec, lhs, [Op(o), N(x)] + rest)
            == if inner.Failed? then inner
               else ParseBinOpRHS(m, exprPrec, Binary(o, lhs, inner.value), inner.rest)
  {
    var ts := [Op(o), N(x)] + rest;
    assert Cur(ts) == Op(o);
    assert ts[1..] == [N(x)] + rest;
    NumberPrimary(m, x, rest);
    assert ParseOperand(m, Lookup(m, Op(o)), ts[1..]) == ParseBinOpRHS(m, Lookup(m, Op(o)) + 1, Number(x), rest);
  }

  /** Operators of equal precedence associate to the left:
      `a o1 b o2 c` is `(a o1 b) o2 c`. */
  lemma LeftAssociative(m: map<char, int>, a: string, o1: char, b: string, o2: char, c: string)
    requires 0 < Lookup(m, Op(o1)) == Lookup(m, Op(o2))
    ensures ParseExpression(m, [N(a), Op(o1), N(b), Op(o2), N(c)])
            == Parsed(Binary(o2, Binary(o1, Number(a), Number(b)), Number(c)), [])
  {
    var ab := Binary(o1, Number(a), Number(b));
    var abc := Binary(o2, ab, Number(c));
    var t3 := [Op(o2), N(c)];
    var t1 := [Op(o1), N(b)] + t3;
    RoundStops(m, 0, abc, []);
    RoundTakesNumber(m, 0, ab, o2, c, []);
    assert t3 + [] == t3;
    assert ParseBinOpRHS(m, 0, ab, t3) == Parsed(abc, []);
    RoundTakesNumber(m, 0, Number(a), o1, b, t3);
    assert ParseBinOpRHS(m, 0, Number(a), t1) == Parsed(abc, []);
    NumberPrimary(m, a, t1);
    var ts := [N(a)] + t1;
    assert ParseExpression(m, ts) == Parsed(abc, []);
    assert [N(a), Op(o1), N(b), Op(o2), N(c)] == ts;
  }

  /** An operator that binds tighter than the one before it is absorbed into
      that operator's right operand first: with `0 < p3 <= p1 < p2`,
      `a o1 b o2 c o3 d` is `(a o1 (b o2 c)) o3 d`. */
  lemma TighterOperatorFirst(m: map<char, int>, a: string, o1: char, b: string, o2: char, c: string, o3: char, d: string)
    requires 0 < Lookup(m, Op(o3)) <= Lookup(m, Op(o1)) < Lookup(m, Op(o2))
    ensures ParseExpression(m, [N(a), Op(o1), N(b), Op(o2), N(c), Op(o3), N(d)])
            == Parsed(Binary(o3, Binary(o1, Number(a), Binary(o2, Number(b), Number(c))), Number(d)), [])
  {
    var p1 := Lookup(m, Op(o1));
    var tail := [Op(o3), N(d)];
    var bc := Binary(o2, Number(b), Number(c));
    var abc := Binary(o1, Number(a), bc);
    var whole := Binary(o3, abc, Number(d));
    // the inner call at precedence p1 + 1 builds `b o2 c` and stops at `o3`
    var t3 := [Op(o2), N(c)] + tail;
    RoundStops(m, p1 + 1, bc, tail);
    RoundTakesNumber(m, p1 + 1, Number(b), o2, c, tail);
    assert ParseBinOpRHS(m, p1 + 1, Number(b), t3) == Parsed(bc, tail);
    // the outer loop: `o1` with the right operand from the inner call, then `o3`
    RoundStops(m, 0, whole, []);
    RoundTakesNumber(m, 0, abc, o3, d, []);
    assert tail + [] == tail;
    assert ParseBinOpRHS(m, 0, abc, tail) == Parsed(whole, []);
    var t1 := [Op(o1), N(b)] + t3;
    RoundDefersToTighter(m, 0, Number(a), o1, b, t3);
    assert ParseBinOpRHS(m, 0, Number(a), t1) == Parsed(whole, []);
    NumberPrimary(m, a, t1);
    var ts := [N(a)] + t1;
    assert ParseExpression(m, ts) == Parsed(whole, []);
    assert [N(a), Op(o1), N(b), Op(o2), N(c), Op(o3), N(d)] == ts;
  }

  /** Parentheses override precedence: `(a o1 b) o2 c` groups `a o1 b`
      whatever the precedences of `o1` and `o2`. */
  lemma ParenthesesGroup(m: map<char, int>, a: string, o1: char, b: string, o2: char, c: string)
    requires 0 < Lookup(m, Op(o1)) && 0 < Lookup(m, Op(o2))
    requires Lookup(m, Op(')')) == -1
    ensures ParseExpression(m, [Op('('), N(a), Op(o1), N(b), Op(')'), Op(o2), N(c)])
            == Parsed(Binary(o2, Binary(o1, Number(a), Number(b)), Number(c)), [])
  {
    var tail := [Op(o2), N(c)];
    var ab := Binary(o1, Number(a), Number(b));
    var abc := Binary(o2, ab, Number(c));
    // inside the parentheses
    var closing := [Op(')')] + tail;
    RoundStops(m, 0, ab, closing);
    RoundTakesNumber(m, 0, Number(a), o1, b, closing);
    var inner := [N(a)] + ([Op(o1), N(b)] + closing);
    NumberPrimary(m, a, [Op(o1), N(b)] + closing);
    assert ParseExpression(m, inner) == Parsed(ab, closing);
    var ts := [Op('(')] + inner;
    assert ts[1..] == inner && closing[1..] == tail;
    assert ParsePrimary(m, ts) == Parsed(ab, tail);
    // after the parentheses
    RoundStops(m, 0, abc, []);
    RoundTakesNumber(m, 0, ab, o2, c, []);
    assert tail + [] == tail;
    assert [Op('('), N(a), Op(o1), N(b), Op(')'), Op(o2), N(c)] == ts;
  }

  /** A parenthesised group that is not closed fails with "expected ')'" on
      the token after the inner expression. */
  lemma UnclosedParenthesis(m: map<char, int>, inner: seq<Token>)
    requires ParseExpression(m, inner).Parsed?
    requires Cur(ParseExpression(m, inner).rest) != TokChar(')')
    ensures ParsePrimary(m, [Op('(')] + inner) == Failed(ExpectedCloseParen, ParseExpression(m, inner).rest)
  {
    assert ([Op('(')] + inner)[1..] == inner;
  }

  // What a parsed tree covers: its numbers and operators are exactly the
  // tokens consumed, in order, without the parentheses.

  /** The tokens of a tree, written out infix without parentheses. */
  function Yield(e: Expr): seq<Token>
  {
    match e
    case Number(x) => [TokNumber(x)]
    case Binary(op, l, r) => Yield(l) + [TokChar(op)] + Yield(r)
  }

  predicate IsParen(t: Token) { t == TokChar('(') || t == TokChar(')') }

  /** The tokens without their parentheses. */
  function Strip(ts: seq<Token>): seq<Token>
  {
    if ts == [] then [] else (if IsParen(ts[0]) then [] else [ts[0]]) + Strip(ts[1..])
  }

  lemma {:induction false} StripAppend(a: seq<Token>, b: seq<Token>)
    ensures Strip(a + b) == Strip(a) + Strip(b)
  {
    if a == [] {
      assert a + b == b;
    } else {
      assert (a + b)[1..] == a[1..] + b;
      StripAppend(a[1..], b);
    }
  }

  /** `rest` is what is left of `ts` after a prefix has been consumed. */
  predicate Suffix(rest: seq<Token>, ts: seq<Token>)
  {
    |rest| <= |ts| && rest == ts[|ts| - |rest|..]
  }

  /** The prefix of `ts` consumed when `rest` is left. */
  function Consumed(ts: seq<Token>, rest: seq<Token>): seq<Token>
    requires |rest| <= |ts|
  {
    ts[..|ts| - |rest|]
  }

  /** Consuming up to `mid` and then up to `rest` consumes the two parts in
      order; what the parentheses leave is the same. */
  lemma ConsumedChain(ts: seq<Token>, mid: seq<Token>, rest: seq<Token>)
    requires Suffix(mid, ts) && Suffix(rest, mid)
    ensures Suffix(rest, ts)
    ensures Consumed(ts, rest) == Consumed(ts, mid) + Consumed(mid, rest)
    ensures Strip(Consumed(ts, rest)) == Strip(Consumed(ts, mid)) + Strip(Consumed(mid, rest))
  {
    assert Consumed(ts, rest) == Consumed(ts, mid) + Consumed(mid, rest);
    StripAppend(Consumed(ts, mid), Consumed(mid, rest));
  }

  /** A successful parse of `ts` left a suffix of it, and its tree
      extends `before` by exactly the tokens it consumed, without their
      parentheses. */
  predicate Covers(r: Parse<Expr>, ts: seq<Token>, before: seq<Token>)
  {
    r.Parsed? ==> Suffix(r.rest, ts) && Yield(r.value) == before + Strip(Consumed(ts, r.rest))
  }

  /** Neither parenthesis is a binary operator. */
  predicate ParensNotOperators(m: map<char, int>)
  {
    Lookup(m, TokChar('(')) == -1 && Lookup(m, TokChar(')')) == -1
  }

  /** A parsed primary covers exactly the tokens it consumed. */
  lemma {:induction false} PrimaryCovers(m: map<char, int>, ts: seq<Token>)
    requires ParensNotOperators(m)
    ensures Covers(ParsePrimary(m, ts), ts, [])
    decreases |ts|, 1
  {
    match Cur(ts)
    case TokNumber(_) =>
      assert Consumed(ts, ts[1..]) == [ts[0]];
      assert Strip([ts[0]]) == [ts[0]] + Strip([]);
    case TokChar(c) =>
      if c == '(' {
        ParenCovers(m, ts);
      }
    case _ =>
  }

  /** So does a parsed parenthesised group, whose parentheses are dropped. */
  lemma {:induction false} ParenCovers(m: map<char, int>, ts: seq<Token>)
    requires ParensNotOperators(m)
    requires Cur(ts) == TokChar('(')
    ensures Covers(ParseParenExpr(m, ts), ts, [])
    decreases |ts|, 0
  {
    var v := ParseExpression(m, ts[1..]);
    if v.Parsed? && Cur(v.rest) == TokChar(')') {
      ExpressionCovers(m, ts[1..]);
      GroupCovers(ts, v.rest, Yield(v.value));
    }
  }

  /** A group covers what its inside covers: both parentheses are dropped. */
  lemma GroupCovers(ts: seq<Token>, mid: seq<Token>, inner: seq<Token>)
    requires ts != [] && ts[0] == TokChar('(')
    requires Suffix(mid, ts[1..]) && mid != [] && mid[0] == TokChar(')')
    requires inner == Strip(Consumed(ts[1..], mid))
    ensures Suffix(mid[1..], ts) && inner == Strip(Consumed(ts, mid[1..]))
  {
    var rest := mid[1..];
    assert Suffix(ts[1..], ts);
    assert Suffix(rest, mid);
    ConsumedChain(ts[1..], mid, rest);
    ConsumedChain(ts, ts[1..], rest);
    assert Consumed(ts, ts[1..]) == [ts[0]];
    assert Consumed(mid, rest) == [mid[0]];
    assert Strip([ts[0]]) == [] + Strip([]);
    assert Strip([mid[0]]) == [] + Strip([]);
  }

  /** A parsed expression covers exactly the tokens it consumed. */
  lemma {:induction false} ExpressionCovers(m: map<char, int>, ts: seq<Token>)
    requires ParensNotOperators(m)
    ensures Covers(ParseExpression(m, ts), ts, [])
    decreases |ts|, 2
  {
    var lhs := ParsePrimary(m, ts);
    if lhs.Parsed? {
      PrimaryCovers(m, ts);
      BinOpRHSCovers(m, 0, lhs.value, lhs.rest);
      var r := ParseBinOpRHS(m, 0, lhs.value, lhs.rest);
      if r.Parsed? {
        ChainCovers(ts, lhs, r);
      }
    }
  }

  /** The loop extends its left operand by exactly the tokens it consumed. */
  lemma {:induction false} BinOpRHSCovers(m: map<char, int>, exprPrec: int, lhs: Expr, ts: seq<Token>)
    requires ParensNotOperators(m) && 0 <= exprPrec
    ensures Covers(ParseBinOpRHS(m, exprPrec, lhs, ts), ts, Yield(lhs))
    decreases |ts|, 3
  {
    var tokPrec := Lookup(m, Cur(ts));
    if tokPrec < exprPrec {
      assert Consumed(ts, ts) == [];
    } else {
      var op := Cur(ts);
      assert ts != [] && op == ts[0] && op.TokChar? && !IsParen(op);
      var rhs := ParseOperand(m, tokPrec, ts[1..]);
      if rhs.Parsed? {
        OperandCovers(m, tokPrec, ts[1..]);
        var lhs' := Binary(op.c, lhs, rhs.value);
        BinOpRHSCovers(m, exprPrec, lhs', rhs.rest);
        var r := ParseBinOpRHS(m, exprPrec, lhs', rhs.rest);
        assert ParseBinOpRHS(m, exprPrec, lhs, ts) == r;
        if r.Parsed? {
          RoundCovers(ts, rhs.rest, r.rest, Yield(lhs), Yield(rhs.value), Yield(r.value));
        }
      }
    }
  }

  /** One round of the loop: the operator token, then the operand's tokens,
      then what the later rounds consume. */
  lemma RoundCovers(ts: seq<Token>, mid: seq<Token>, rest: seq<Token>, left: seq<Token>, right: seq<Token>, all: seq<Token>)
    requires ts != [] && !IsParen(ts[0])
    requires Suffix(mid, ts[1..]) && Suffix(rest, mid)
    requires right == Strip(Consumed(ts[1..], mid))
    requires all == left + [ts[0]] + right + Strip(Consumed(mid, rest))
    ensures Suffix(rest, ts)
    ensures all == left + Strip(Consumed(ts, rest))
  {
    assert Suffix(ts[1..], ts);
    ConsumedChain(ts[1..], mid, rest);
    ConsumedChain(ts, ts[1..], rest);
    assert Consumed(ts, ts[1..]) == [ts[0]];
    assert Strip([ts[0]]) == [ts[0]] + Strip([]);
  }

  /** A right operand covers exactly the tokens it consumed. */
  lemma {:induction false} OperandCovers(m: map<char, int>, tokPrec: int, ts: seq<Token>)
    requires ParensNotOperators(m) && 0 <= tokPrec
    ensures Covers(ParseOperand(m, tokPrec, ts), ts, [])
    decreases |ts|, 4
  {
    var r := ParseOperand(m, tokPrec, ts);
    if r.Parsed? {
      var rhs := ParsePrimary(m, ts);
      PrimaryCovers(m, ts);
      if tokPrec < Lookup(m, Cur(rhs.rest)) {
        assert r == ParseBinOpRHS(m, tokPrec + 1, rhs.value, rhs.rest);
        BinOpRHSCovers(m, tokPrec + 1, rhs.value, rhs.rest);
        ChainCovers(ts, rhs, r);
      } else {
        assert r == rhs;
      }
    }
  }

  /** Consuming up to `mid` and then up to `rest` covers the two parts. */
  lemma ChainCovers(ts: seq<Token>, first: Parse<Expr>, second: Parse<Expr>)
    requires first.Parsed? && Covers(first, ts, [])
    requires Covers(second, first.rest, Yield(first.value))
    ensures Covers(second, ts, [])
  {
    if second.Parsed? {
      ConsumedChain(ts, first.rest, second.rest);
    }
  }

  /** With `main`'s table, every parsed expression is exactly the numbers
      and operators it consumed, in order. */
  lemma DefaultExpressionCovers(ts: seq<Token>)
    ensures Covers(ParseExpression(DefaultTable(), ts), ts, [])
  {
    ExpressionCovers(DefaultTable(), ts);
  }
}
