/** The top-level driver: `HandleTopLevelExpression` and one iteration of
    `MainLoop`, first as values over the token stream and the code
    generator's state, then as methods over the parser and the code
    generator. The IR printed for each top-level expression is collected
    in the order it is printed. */
module Driver {
  import opened Wrappers
  import opened Lexer
  import opened Precedence
  import opened Ast
  import opened Ir
  import opened Codegen
  import Grammar
  import Parser

  /** What the driver acts on: the tokens still to come, the code
      generator's state, and the functions printed so far. */
  datatype Session = Session(tokens: seq<Token>, cg: CgState, printed: seq<Function>)

  /** Every operator the table makes binary has a case in the code
      generator's `switch`. */
  predicate OperatorsGenerate(m: map<char, int>)
  {
    forall c :: c in Effective(m) ==> c in BinaryOps
  }

  /** When the table declares only operators the code generator handles,
      every tree the parser builds can be generated. */
  lemma {:induction false} DeclaredOperatorsGenerate(m: map<char, int>, e: Expr)
    requires OperatorsGenerate(m)
    requires Grammar.OperatorsDeclared(m, e)
    ensures Supported(e)
  {
    match e
    case Number(_) =>
    case Binary(op, l, r) =>
      assert op in Effective(m);
      DeclaredOperatorsGenerate(m, l);
      DeclaredOperatorsGenerate(m, r);
  }

  /** The table `main` installs declares only such operators. */
  lemma DefaultOperatorsGenerate()
    ensures OperatorsGenerate(DefaultTable())
  {
    forall c | c in Effective(DefaultTable())
      ensures c in BinaryOps
    {
      DefaultOperators(c);
    }
  }

  /** The outcome of generating a parsed top-level expression. */
  datatype Compiled = Compiled(ok: bool, cg: CgState, printed: seq<Function>)

  /** The code-generation half of `HandleTopLevelExpression`: a function
      that generates is printed and erased from the module; one that fails
      has already been erased by its own `codegen`. */
  function Compile(f: FunctionAst, cg: CgState, printed: seq<Function>): (c: Compiled)
    ensures c.ok <==> Supported(f.body)
    ensures f.proto.name !in cg.functions ==> c.cg.functions == cg.functions
    ensures |c.printed| == |printed| + (if c.ok then 1 else 0) && c.printed[..|printed|] == printed
    ensures c.ok ==> var fn := c.printed[|printed|];
      fn.params == ParamsOf(f, cg) && fn.blocks != [] && Last(fn.blocks) == c.cg.block && WellFormed(c.cg.block)
  {
    var g := GenFunction(f, cg);
    if g.0.Some? then
      assert g.1.functions - {f.proto.name} == cg.functions - {f.proto.name};
      Compiled(true, g.1.(functions := g.1.functions - {g.0.value}), printed + [g.1.functions[g.0.value]])
    else Compiled(false, g.1, printed)
  }

  /** `HandleTopLevelExpression` as written: a parse failure leaves the
      tokens where the parser stopped; a generated function is printed and
      erased; a function that fails to generate costs one more token. */
  function HandleTopLevel(m: map<char, int>, s: Session): (r: Session)
    ensures |r.tokens| <= |s.tokens|
    ensures AnonName !in s.cg.functions ==> r.cg.functions == s.cg.functions
  {
    var p := Grammar.ParseTopLevelExpr(m, s.tokens);
    if p.Failed? then Session(p.rest, s.cg, s.printed)
    else
      var c := Compile(p.value, s.cg, s.printed);
      if c.ok then Session(p.rest, c.cg, c.printed)
      else Session(Grammar.Next(p.rest), c.cg, c.printed)
  }

  /** One iteration of `MainLoop` as written: None when it returns at end of
      input; a lexical error or a `;` is skipped; anything else is handled as
      a top-level expression. */
  function Step(m: map<char, int>, s: Session): (r: Option<Session>)
    ensures r.None? <==> Grammar.Cur(s.tokens) == TokEof
    ensures r.Some? ==> |r.value.tokens| <= |s.tokens|
    ensures r.Some? && (s.tokens[0] == TokError || s.tokens[0] == TokChar(';')) ==> r.value == s.(tokens := s.tokens[1..])
  {
    var t := Grammar.Cur(s.tokens);
    if t == TokEof then None
    else if t == TokError || t == TokChar(';') then Some(s.(tokens := Grammar.Next(s.tokens)))
    else Some(HandleTopLevel(m, s))
  }

  /** A well-formed expression, with the standard operators, is printed as
      a function of no parameters with one block that returns the
      expression's value, and the module is left as it was. */
  lemma HandleTopLevelPrints<V>(sem: Semantics<V>, s: Session)
    requires AnonName !in s.cg.functions
    requires Grammar.ParseTopLevelExpr(DefaultTable(), s.tokens).Parsed?
    ensures var p := Grammar.ParseTopLevelExpr(DefaultTable(), s.tokens);
      var r := HandleTopLevel(DefaultTable(), s);
      && r.tokens == p.rest && r.cg.functions == s.cg.functions
      && |r.printed| == |s.printed| + 1
      && r.printed[|s.printed|].params == []
      && |r.printed[|s.printed|].blocks| == 1
      && WellFormed(r.printed[|s.printed|].blocks[0])
      && Returned(sem, [], r.printed[|s.printed|].blocks[0]) == Double(Eval(sem, p.value.body).value)
  {
    var p := Grammar.ParseTopLevelExpr(DefaultTable(), s.tokens);
    DefaultOperatorsGenerate();
    DeclaredOperatorsGenerate(DefaultTable(), p.value.body);
    GenFunctionComputes(sem, [], p.value, s.cg);
  }

  /** An expression that does not start with a number or `(` stalls the
      loop: the parser reports an error without consuming a token, and the
      token that remains is neither end of input, an error nor `;`, so the
      next iteration sees the same state again, for ever. */
  lemma StepStalls(m: map<char, int>, s: Session)
    requires s.tokens != []
    requires !s.tokens[0].TokNumber? && s.tokens[0] !in {TokEof, TokError, TokChar(';'), TokChar('(')}
    ensures Step(m, s) == Some(s)
  {
    assert Grammar.ParseExpression(m, s.tokens) == Grammar.Failed(Grammar.UnexpectedToken, s.tokens);
  }

  /** `HandleTopLevelExpression` with the recovery evidently intended: a
      failure of either kind, in parsing or in code generation, skips the
      token after the point where the handler stopped. */
  function HandleTopLevelRecovering(m: map<char, int>, s: Session): (r: Session)
    requires s.tokens != []
    ensures |r.tokens| < |s.tokens|
    ensures AnonName !in s.cg.functions ==> r.cg.functions == s.cg.functions
    ensures var p := Grammar.ParseTopLevelExpr(m, s.tokens);
      && (p.Failed? ==> r == Session(Grammar.Next(p.rest), s.cg, s.printed))
      && (p.Parsed? ==> r.tokens == if Compile(p.value, s.cg, s.printed).ok then p.rest else Grammar.Next(p.rest))
  {
    var p := Grammar.ParseTopLevelExpr(m, s.tokens);
    if p.Failed? then Session(Grammar.Next(p.rest), s.cg, s.printed)
    else
      var c := Compile(p.value, s.cg, s.printed);
      Session(if c.ok then p.rest else Grammar.Next(p.rest), c.cg, c.printed)
  }

  /** One iteration of `MainLoop` with that recovery. */
  function StepRecovering(m: map<char, int>, s: Session): (r: Option<Session>)
    ensures r.None? <==> Grammar.Cur(s.tokens) == TokEof
  {
    var t := Grammar.Cur(s.tokens);
    if t == TokEof then None
    else if t == TokError || t == TokChar(';') then Some(s.(tokens := Grammar.Next(s.tokens)))
    else Some(HandleTopLevelRecovering(m, s))
  }

  /** Every iteration of the corrected loop consumes at least one token. */
  lemma StepRecoveringProgresses(m: map<char, int>, s: Session)
    requires Grammar.Cur(s.tokens) != TokEof
    ensures StepRecovering(m, s).Some? && |StepRecovering(m, s).value.tokens| < |s.tokens|
  {
  }

  /** The two loops agree wherever the parser succeeds or nothing is
      parsed. */
  lemma StepsAgreeOnSuccess(m: map<char, int>, s: Session)
    requires s.tokens != [] && s.tokens[0] !in {TokError, TokChar(';')} ==> Grammar.ParseTopLevelExpr(m, s.tokens).Parsed?
    ensures Step(m, s) == StepRecovering(m, s)
  {
  }

  /** The whole corrected loop: iterations until end of input. */
  function RunRecovering(m: map<char, int>, s: Session): (r: Session)
    ensures Grammar.Cur(r.tokens) == TokEof
    decreases |s.tokens|
  {
    match StepRecovering(m, s)
    case None => s
    case Some(s') =>
      StepRecoveringProgresses(m, s);
      RunRecovering(m, s')
  }

  /** The corrected loop leaves the module as it found it and only ever adds
      to what has been printed. */
  lemma {:induction false} RunRecoveringKeepsModule(m: map<char, int>, s: Session)
    requires AnonName !in s.cg.functions
    ensures RunRecovering(m, s).cg.functions == s.cg.functions
    ensures |s.printed| <= |RunRecovering(m, s).printed|
    ensures RunRecovering(m, s).printed[..|s.printed|] == s.printed
    decreases |s.tokens|
  {
    match StepRecovering(m, s)
    case None =>
    case Some(s') =>
      StepRecoveringProgresses(m, s);
      StepRecoveringKeepsModule(m, s);
      RunRecoveringKeepsModule(m, s');
      var r := RunRecovering(m, s');
      assert r.printed[..|s.printed|] == r.printed[..|s'.printed|][..|s.printed|];
  }

  /** One corrected iteration leaves the module as it found it and only
      appends to what has been printed. */
  lemma StepRecoveringKeepsModule(m: map<char, int>, s: Session)
    requires AnonName !in s.cg.functions && StepRecovering(m, s).Some?
    ensures var s' := StepRecovering(m, s).value;
      && s'.cg.functions == s.cg.functions
      && |s.printed| <= |s'.printed| && s'.printed[..|s.printed|] == s.printed
  {
    if Grammar.Cur(s.tokens) !in {TokEof, TokError, TokChar(';')} {
      var p := Grammar.ParseTopLevelExpr(m, s.tokens);
      if p.Parsed? {
        var c := Compile(p.value, s.cg, s.printed);
        assert StepRecovering(m, s).value.printed == c.printed;
      }
    }
  }

  /** `HandleTopLevelExpression` over the parser and the code generator,
      as written; `printed` grows by the function it prints, if any. */
  method HandleTopLevelExpression(p: Parser.Parser, g: CodeGenerator, printed: seq<Function>) returns (printed': seq<Function>)
    requires p.Valid()
    modifies p, p.scanner, g
    ensures p.Valid() && p.Operators() == old(p.Operators())
    ensures Session(p.Tokens(), g.State(), printed') == HandleTopLevel(old(p.Operators()), Session(old(p.Tokens()), old(g.State()), printed))
  {
    var fnAst := p.ParseTopLevelExpr();
    printed' := printed;
    if fnAst.Some? {
      var ok;
      ok, printed' := GenerateAndPrint(g, fnAst.value, printed);
      if !ok {
        var _ := p.GetNextToken();
      }
    }
  }

  /** The code-generation half of both handlers: generate the function,
      and on success print and erase it. */
  method GenerateAndPrint(g: CodeGenerator, f: FunctionAst, printed: seq<Function>) returns (ok: bool, printed': seq<Function>)
    modifies g
    ensures Compiled(ok, g.State(), printed') == Compile(f, old(g.State()), printed)
  {
    var fnIr := g.FunctionCodegen(f);
    if fnIr.Some? {
      printed' := printed + [g.functions[fnIr.value]];
      g.EraseFunction(fnIr.value);
      ok := true;
    } else {
      printed' := printed;
      ok := false;
    }
  }

  /** `HandleTopLevelExpression` with the corrected recovery. */
  method HandleTopLevelExpressionRecovering(p: Parser.Parser, g: CodeGenerator, printed: seq<Function>) returns (printed': seq<Function>)
    requires p.Valid() && p.Tokens() != []
    modifies p, p.scanner, g
    ensures p.Valid() && p.Operators() == old(p.Operators())
    ensures Session(p.Tokens(), g.State(), printed') == HandleTopLevelRecovering(old(p.Operators()), Session(old(p.Tokens()), old(g.State()), printed))
  {
    var fnAst := p.ParseTopLevelExpr();
    printed' := printed;
    var ok := false;
    if fnAst.Some? {
      ok, printed' := GenerateAndPrint(g, fnAst.value, printed);
    }
    if !ok {
      var _ := p.GetNextToken();
    }
  }

  /** `MainLoop` with the corrected recovery: it returns at end of input,
      having printed what the corrected iterations print. */
  method MainLoop(p: Parser.Parser, g: CodeGenerator) returns (printed: seq<Function>)
    requires p.Valid()
    modifies p, p.scanner, g
    ensures p.Valid() && p.curTok == TokEof
    ensures Session(p.Tokens(), g.State(), printed) == RunRecovering(old(p.Operators()), Session(old(p.Tokens()), old(g.State()), []))
  {
    ghost var m := p.Operators();
    ghost var goal := RunRecovering(m, Session(p.Tokens(), g.State(), []));
    printed := [];
    while true
      invariant p.Valid() && p.Operators() == m
      invariant RunRecovering(m, Session(p.Tokens(), g.State(), printed)) == goal
      decreases |p.Tokens()|
    {
      ghost var s := Session(p.Tokens(), g.State(), printed);
      if p.curTok == TokEof {
        return;
      } else if p.curTok == TokError || p.curTok == TokChar(';') {
        assert StepRecovering(m, s) == Some(s.(tokens := Grammar.Next(s.tokens)));
        var _ := p.GetNextToken();
      } else {
        assert StepRecovering(m, s) == Some(HandleTopLevelRecovering(m, s));
        printed := HandleTopLevelExpressionRecovering(p, g, printed);
      }
      assert Some(Session(p.Tokens(), g.State(), printed)) == StepRecovering(m, s);
    }
  }
}
