/** Worked sessions with the standard operators: from the tokens the lexer
    delivers to the tree, the instructions printed and the state of the
    loop afterwards. */
module Scenarios {
  import opened Wrappers
  import opened Lexer
  import opened Precedence
  import opened Ast
  import opened Ir
  import opened Codegen
  import Grammar
  import opened Driver

  function N(x: string): Token { TokNumber(x) }
  function Op(c: char): Token { TokChar(c) }
  function C(x: string): Value { Const(x) }

  /** The function printed for a top-level expression whose body compiles
      to `block`. */
  function Anon(block: seq<Instr>): Function { Function([], [block]) }

  /** A fresh session over `ts`. */
  function Start(ts: seq<Token>): Session { Session(ts, Initial(), []) }

  /** The state after printing the one function whose block is `block`,
      with all input consumed: the module is empty again, and the builder
      still points into the block it last filled. */
  function Done(block: seq<Instr>): Session { Session([], CgState(map[], block, map[]), [Anon(block)]) }

  /** A stream that parses whole as one expression, on a fresh session:
      the wrapping function is printed and the module is empty again. */
  lemma PrintsWhole(m: map<char, int>, ts: seq<Token>, e: Expr, v: Value, body: seq<Instr>)
    requires Grammar.ParseExpression(m, ts) == Grammar.Parsed(e, [])
    requires GenExpr(e, []) == (Some(v), body)
    ensures Step(m, Start(ts)) == Some(Done(body + [Ret(v)]))
  {
    var f := FunctionAst(Prototype(AnonName, []), e);
    assert Grammar.ParseTopLevelExpr(m, ts) == Grammar.Parsed(f, []);
    assert Bindings([]) == map[];
    var block := body + [Ret(v)];
    assert [] + [block] == [block];
    assert GenFunction(f, Initial()) == (Some(AnonName), CgState(map[AnonName := Anon(block)], block, map[]));
    assert map[AnonName := Anon(block)] - {AnonName} == map[];
    assert ts != [] && ts[0] != TokError && ts[0] != TokChar(';');
  }

  /** `8 - 3 - 2`: subtraction associates to the left, so the first
      difference is computed first. */
  lemma SubtractionChain(ts: seq<Token>)
    requires ts == [N("8"), Op('-'), N("3"), Op('-'), N("2")]
    ensures Step(DefaultTable(), Start(ts))
            == Some(Done([FSub(C("8"), C("3")), FSub(Reg(0), C("2")), Ret(Reg(1))]))
  {
    DefaultOperators('-');
    Grammar.LeftAssociative(DefaultTable(), "8", '-', "3", '-', "2");
    var e1 := Binary('-', Number("8"), Number("3"));
    assert [] + [FSub(C("8"), C("3"))] == [FSub(C("8"), C("3"))];
    assert GenExpr(e1, []) == (Some(Reg(0)), [FSub(C("8"), C("3"))]);
    assert [FSub(C("8"), C("3"))] + [FSub(Reg(0), C("2"))] == [FSub(C("8"), C("3")), FSub(Reg(0), C("2"))];
    assert GenExpr(Binary('-', e1, Number("2")), []) == (Some(Reg(1)), [FSub(C("8"), C("3")), FSub(Reg(0), C("2"))]);
    PrintsWhole(DefaultTable(), ts, Binary('-', e1, Number("2")), Reg(1), [FSub(C("8"), C("3")), FSub(Reg(0), C("2"))]);
    assert [FSub(C("8"), C("3")), FSub(Reg(0), C("2"))] + [Ret(Reg(1))] == [FSub(C("8"), C("3")), FSub(Reg(0), C("2")), Ret(Reg(1))];
  }

  /** `2 + 25 * 2 - 8`: one multiplication, then the addition and the
      subtraction. */
  lemma MixedPrecedence(ts: seq<Token>)
    requires ts == [N("2"), Op('+'), N("25"), Op('*'), N("2"), Op('-'), N("8")]
    ensures Step(DefaultTable(), Start(ts))
            == Some(Done([FMul(C("25"), C("2")), FAdd(C("2"), Reg(0)), FSub(Reg(1), C("8")), Ret(Reg(2))]))
  {
    DefaultOperators('+');
    DefaultOperators('*');
    DefaultOperators('-');
    Grammar.TighterOperatorFirst(DefaultTable(), "2", '+', "25", '*', "2", '-', "8");
    var e1 := Binary('*', Number("25"), Number("2"));
    var e2 := Binary('+', Number("2"), e1);
    var e3 := Binary('-', e2, Number("8"));
    assert [] + [FMul(C("25"), C("2"))] == [FMul(C("25"), C("2"))];
    assert GenExpr(e1, []) == (Some(Reg(0)), [FMul(C("25"), C("2"))]);
    assert [FMul(C("25"), C("2"))] + [FAdd(C("2"), Reg(0))] == [FMul(C("25"), C("2")), FAdd(C("2"), Reg(0))];
    assert GenExpr(e2, []) == (Some(Reg(1)), [FMul(C("25"), C("2")), FAdd(C("2"), Reg(0))]);
    assert [FMul(C("25"), C("2")), FAdd(C("2"), Reg(0))] + [FSub(Reg(1), C("8"))] == [FMul(C("25"), C("2")), FAdd(C("2"), Reg(0)), FSub(Reg(1), C("8"))];
    assert GenExpr(e3, []) == (Some(Reg(2)), [FMul(C("25"), C("2")), FAdd(C("2"), Reg(0)), FSub(Reg(1), C("8"))]);
    PrintsWhole(DefaultTable(), ts, e3, Reg(2), [FMul(C("25"), C("2")), FAdd(C("2"), Reg(0)), FSub(Reg(1), C("8"))]);
    assert [FMul(C("25"), C("2")), FAdd(C("2"), Reg(0)), FSub(Reg(1), C("8"))] + [Ret(Reg(2))]
           == [FMul(C("25"), C("2")), FAdd(C("2"), Reg(0)), FSub(Reg(1), C("8")), Ret(Reg(2))];
  }

  /** `(1 + 2) * 3`: the parenthesised sum is computed before the product. */
  lemma GroupedSum(ts: seq<Token>)
    requires ts == [Op('('), N("1"), Op('+'), N("2"), Op(')'), Op('*'), N("3")]
    ensures Step(DefaultTable(), Start(ts))
            == Some(Done([FAdd(C("1"), C("2")), FMul(Reg(0), C("3")), Ret(Reg(1))]))
  {
    DefaultOperators('+');
    DefaultOperators('*');
    DefaultOperators(')');
    Grammar.ParenthesesGroup(DefaultTable(), "1", '+', "2", '*', "3");
    var e1 := Binary('+', Number("1"), Number("2"));
    var e2 := Binary('*', e1, Number("3"));
    assert [] + [FAdd(C("1"), C("2"))] == [FAdd(C("1"), C("2"))];
    assert GenExpr(e1, []) == (Some(Reg(0)), [FAdd(C("1"), C("2"))]);
    assert [FAdd(C("1"), C("2"))] + [FMul(Reg(0), C("3"))] == [FAdd(C("1"), C("2")), FMul(Reg(0), C("3"))];
    assert GenExpr(e2, []) == (Some(Reg(1)), [FAdd(C("1"), C("2")), FMul(Reg(0), C("3"))]);
    PrintsWhole(DefaultTable(), ts, e2, Reg(1), [FAdd(C("1"), C("2")), FMul(Reg(0), C("3"))]);
    assert [FAdd(C("1"), C("2")), FMul(Reg(0), C("3"))] + [Ret(Reg(1))] == [FAdd(C("1"), C("2")), FMul(Reg(0), C("3")), Ret(Reg(1))];
  }

  /** `3 < 5`: an unordered less-than whose 1-bit result is widened, so the
      function returns 1.0 or 0.0 as the comparison holds or not. */
  lemma Comparison<V>(sem: Semantics<V>, ts: seq<Token>)
    requires ts == [N("3"), Op('<'), N("5")]
    ensures Step(DefaultTable(), Start(ts))
            == Some(Done([FCmpULT(C("3"), C("5")), UIToFP(Reg(0)), Ret(Reg(1))]))
    ensures Returned(sem, [], [FCmpULT(C("3"), C("5")), UIToFP(Reg(0)), Ret(Reg(1))])
            == Double(sem.uitofp(sem.ult(sem.constant("3"), sem.constant("5"))))
  {
    var m := DefaultTable();
    DefaultOperators('<');
    var e := Binary('<', Number("3"), Number("5"));
    Grammar.RoundStops(m, 0, e, []);
    Grammar.RoundTakesNumber(m, 0, Number("3"), '<', "5", []);
    Grammar.NumberPrimary(m, "3", [Op('<'), N("5")]);
    assert [Op('<'), N("5")] + [] == [Op('<'), N("5")];
    assert Grammar.ParseExpression(m, [N("3"), Op('<'), N("5")]) == Grammar.Parsed(e, []);
    var body := [FCmpULT(C("3"), C("5")), UIToFP(Reg(0))];
    assert [] + [FCmpULT(C("3"), C("5")), UIToFP(Reg(0))] == body;
    assert GenExpr(e, []) == (Some(Reg(1)), body);
    PrintsWhole(m, ts, e, Reg(1), body);
    assert body + [Ret(Reg(1))] == [FCmpULT(C("3"), C("5")), UIToFP(Reg(0)), Ret(Reg(1))];
    GenComputes(sem, [], e, []);
  }

  /** `(1 + 2` reports "expected ')'" at end of input; nothing is printed and
      the next iteration returns. */
  lemma UnclosedGroup()
    ensures Step(DefaultTable(), Start([Op('('), N("1"), Op('+'), N("2")])) == Some(Start([]))
    ensures Step(DefaultTable(), Start([])) == None
  {
    var m := DefaultTable();
    DefaultOperators('+');
    var inner := [N("1"), Op('+'), N("2")];
    var e := Binary('+', Number("1"), Number("2"));
    Grammar.RoundStops(m, 0, e, []);
    Grammar.RoundTakesNumber(m, 0, Number("1"), '+', "2", []);
    Grammar.NumberPrimary(m, "1", [Op('+'), N("2")]);
    assert [Op('+'), N("2")] + [] == [Op('+'), N("2")];
    assert inner == [N("1")] + [Op('+'), N("2")];
    assert Grammar.ParseExpression(m, inner) == Grammar.Parsed(e, []);
    Grammar.UnclosedParenthesis(m, inner);
    assert [Op('(')] + inner == [Op('('), N("1"), Op('+'), N("2")];
  }

  /** Text that starts with a letter followed by a blank, such as `a + 1`:
      the letter is dropped and the blank is returned as a token of its own,
      which no expression can start with, so the loop as written stalls on
      it for ever. */
  lemma LetterThenBlankStalls(a: char, rest: string, cg: CgState, printed: seq<Function>)
    requires IsAlpha(a)
    ensures Tokenize([a, ' '] + rest) == [TokChar(' ')] + Tokenize(rest)
    ensures var s := Session(Tokenize([a, ' '] + rest), cg, printed);
      Step(DefaultTable(), s) == Some(s)
  {
    TokenizeLetter(a, ' ', rest);
    StepStalls(DefaultTable(), Session(Tokenize([a, ' '] + rest), cg, printed));
  }

  /** With the evident recovery the same text makes progress: the blank is
      skipped. */
  lemma LetterThenBlankRecovers(a: char, rest: string, cg: CgState, printed: seq<Function>)
    requires IsAlpha(a)
    ensures StepRecovering(DefaultTable(), Session(Tokenize([a, ' '] + rest), cg, printed))
            == Some(Session(Tokenize(rest), cg, printed))
  {
    TokenizeLetter(a, ' ', rest);
    var ts := Tokenize([a, ' '] + rest);
    assert Grammar.ParseExpression(DefaultTable(), ts) == Grammar.Failed(Grammar.UnexpectedToken, ts);
  }
}
