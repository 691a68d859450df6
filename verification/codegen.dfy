/** Code generation: the `codegen` methods of the syntax tree, over an
    abstract module (function names to parameter names and basic blocks) and
    the insertion block of the IR builder. */
module Codegen {
  import opened Wrappers
  import opened Ast
  import opened Ir

  /** The arithmetic operators of the `switch` of `BinaryExprAST::codegen`. */
  const ArithOps: set<char> := {'+', '-', '*', '/'}

  /** Its comparison operators. */
  const CompareOps: set<char> := {'<', '>', '='}

  /** All the operators that `switch` handles. */
  const BinaryOps: set<char> := ArithOps + CompareOps

  /** An expression whose every operator has a case in that `switch`. */
  predicate Supported(e: Expr)
  {
    match e
    case Number(_) => true
    case Binary(op, l, r) => op in BinaryOps && Supported(l) && Supported(r)
  }

  /** The instruction an arithmetic case creates. */
  function ArithInstr(op: char, l: Value, r: Value): Instr
    requires op in ArithOps
  {
    match op
    case '+' => FAdd(l, r)
    case '-' => FSub(l, r)
    case '*' => FMul(l, r)
    case _ => FDiv(l, r)
  }

  /** The unordered comparison a comparison case creates. */
  function CompareInstr(op: char, l: Value, r: Value): Instr
    requires op in CompareOps
  {
    match op
    case '<' => FCmpULT(l, r)
    case '>' => FCmpUGT(l, r)
    case _ => FCmpUEQ(l, r)
  }

  /** The `switch` of `BinaryExprAST::codegen`: the instructions for `op`
      applied to `l` and `r`, appended to the insertion block. A comparison
      yields a 1-bit value that `uitofp` widens to a double. */
  function EmitBinary(op: char, l: Value, r: Value, block: seq<Instr>): (Option<Value>, seq<Instr>)
  {
    if op in ArithOps then (Some(Reg(|block|)), block + [ArithInstr(op, l, r)])
    else if op in CompareOps then (Some(Reg(|block| + 1)), block + [CompareInstr(op, l, r), UIToFP(Reg(|block|))])
    else (None, block)
  }

  /** `codegen` of an expression: the value it yields (None for "invalid
      binary operator") and the insertion block afterwards. Both operands
      are generated before either failure is looked at. */
  function GenExpr(e: Expr, block: seq<Instr>): (r: (Option<Value>, seq<Instr>))
    ensures |block| <= |r.1|
    ensures r.0.Some? <==> Supported(e)
  {
    match e
    case Number(x) => (Some(Const(x)), block)
    case Binary(op, lhs, rhs) =>
      var left := GenExpr(lhs, block);
      var right := GenExpr(rhs, left.1);
      if left.0.None? || right.0.None? then (None, right.1)
      else EmitBinary(op, left.0.value, right.0.value, right.1)
  }

  /** The `switch` only appends, and what it appends reads its operands
      and earlier results and never returns. */
  lemma EmitShape(op: char, l: Value, r: Value, block: seq<Instr>)
    requires DefinedBefore(l, |block|) && DefinedBefore(r, |block|)
    ensures var g := EmitBinary(op, l, r, block);
      && |block| <= |g.1| && g.1[..|block|] == block
      && (g.0.Some? <==> op in BinaryOps)
      && (g.0.Some? ==> g.0.value.Reg? && g.0.value.index == |g.1| - 1)
      && (Closed(block) ==> Closed(g.1))
      && (NoReturn(block) ==> NoReturn(g.1))
  {
  }

  /** Generating an expression only appends to the insertion block; the
      value it yields is a constant or an earlier result, never a parameter;
      and the appended code reads only earlier results and never returns. */
  lemma {:induction false} GenShape(e: Expr, block: seq<Instr>)
    ensures var g := GenExpr(e, block);
      && g.1[..|block|] == block
      && (g.0.Some? ==> !g.0.value.Arg? && DefinedBefore(g.0.value, |g.1|))
      && (Closed(block) ==> Closed(g.1))
      && (NoReturn(block) ==> NoReturn(g.1))
  {
    match e
    case Number(_) =>
    case Binary(op, lhs, rhs) =>
      var (l, b1) := GenExpr(lhs, block);
      var (r, b2) := GenExpr(rhs, b1);
      GenShape(lhs, block);
      GenShape(rhs, b1);
      assert b2[..|block|] == block by {
        assert b2[..|block|] == b2[..|b1|][..|block|];
      }
      if l.Some? && r.Some? {
        EmitShape(op, l.value, r.value, b2);
        var b3 := EmitBinary(op, l.value, r.value, b2).1;
        assert b3[..|block|] == block by {
          assert b3[..|block|] == b3[..|b2|][..|block|];
        }
      }
  }

  /** The reference meaning of an expression under a floating-point
      semantics; None when an operator has no meaning. */
  function Eval<V>(sem: Semantics<V>, e: Expr): (v: Option<V>)
    ensures v.Some? <==> Supported(e)
  {
    match e
    case Number(x) => Some(sem.constant(x))
    case Binary(op, lhs, rhs) =>
      var a := Eval(sem, lhs);
      var b := Eval(sem, rhs);
      if a.None? || b.None? then None else Apply(sem, op, a.value, b.value)
  }

  /** The meaning of a binary operator on two doubles. */
  function Apply<V>(sem: Semantics<V>, op: char, x: V, y: V): (v: Option<V>)
    ensures v.Some? <==> op in BinaryOps
  {
    if op == '+' then Some(sem.fadd(x, y))
    else if op == '-' then Some(sem.fsub(x, y))
    else if op == '*' then Some(sem.fmul(x, y))
    else if op == '/' then Some(sem.fdiv(x, y))
    else if op == '<' then Some(sem.uitofp(sem.ult(x, y)))
    else if op == '>' then Some(sem.uitofp(sem.ugt(x, y)))
    else if op == '=' then Some(sem.uitofp(sem.ueq(x, y)))
    else None
  }

  /** One case of the `switch` computes the operator's meaning on what its
      operands hold. */
  lemma EmitComputes<V>(sem: Semantics<V>, args: seq<V>, op: char, l: Value, r: Value, block: seq<Instr>, x: V, y: V)
    requires op in BinaryOps
    requires Fetch(sem, args, Run(sem, args, block), l) == Double(x)
    requires Fetch(sem, args, Run(sem, args, block), r) == Double(y)
    ensures EmitBinary(op, l, r, block).0.Some?
    ensures Fetch(sem, args, Run(sem, args, EmitBinary(op, l, r, block).1), EmitBinary(op, l, r, block).0.value)
            == Double(Apply(sem, op, x, y).value)
  {
    var regs := Run(sem, args, block);
    if op in ArithOps {
      StepComputes(sem, args, block, ArithInstr(op, l, r));
      ArithMeaning(sem, args, regs, op, l, r, x, y);
    } else {
      CompareComputes(sem, args, block, CompareInstr(op, l, r));
      CompareMeaning(sem, args, regs, op, l, r, x, y);
    }
  }

  /** An arithmetic instruction applies the operator to its operands. */
  lemma ArithMeaning<V>(sem: Semantics<V>, args: seq<V>, regs: seq<RtVal<V>>, op: char, l: Value, r: Value, x: V, y: V)
    requires op in ArithOps
    requires Fetch(sem, args, regs, l) == Double(x) && Fetch(sem, args, regs, r) == Double(y)
    ensures Exec(sem, args, regs, ArithInstr(op, l, r)) == Double(Apply(sem, op, x, y).value)
  {
  }

  /** A comparison instruction yields the bit that `uitofp` widens to the
      operator's meaning. */
  lemma CompareMeaning<V>(sem: Semantics<V>, args: seq<V>, regs: seq<RtVal<V>>, op: char, l: Value, r: Value, x: V, y: V)
    requires op in CompareOps
    requires Fetch(sem, args, regs, l) == Double(x) && Fetch(sem, args, regs, r) == Double(y)
    ensures var bit := Exec(sem, args, regs, CompareInstr(op, l, r));
      bit.Bit? && Some(sem.uitofp(bit.b)) == Apply(sem, op, x, y)
  {
  }

  lemma StepComputes<V>(sem: Semantics<V>, args: seq<V>, block: seq<Instr>, i: Instr)
    ensures Fetch(sem, args, Run(sem, args, block + [i]), Reg(|block|)) == Exec(sem, args, Run(sem, args, block), i)
  {
    RunAppend(sem, args, block, i);
  }

  /** A comparison followed by the `uitofp` of its result. */
  lemma CompareComputes<V>(sem: Semantics<V>, args: seq<V>, block: seq<Instr>, c: Instr)
    ensures var b := block + [c, UIToFP(Reg(|block|))];
      var bit := Exec(sem, args, Run(sem, args, block), c);
      Fetch(sem, args, Run(sem, args, b), Reg(|block| + 1)) == if bit.Bit? then Double(sem.uitofp(bit.b)) else Undef
  {
    var u := UIToFP(Reg(|block|));
    assert block + [c, u] == (block + [c]) + [u];
    StepComputes(sem, args, block, c);
    StepComputes(sem, args, block + [c], u);
  }

  /** The generated instructions compute the expression: running the block
      gives the value `codegen` returned the reference meaning. */
  lemma {:induction false} GenComputes<V>(sem: Semantics<V>, args: seq<V>, e: Expr, block: seq<Instr>)
    requires Supported(e)
    ensures Fetch(sem, args, Run(sem, args, GenExpr(e, block).1), GenExpr(e, block).0.value) == Double(Eval(sem, e).value)
  {
    match e
    case Number(_) =>
    case Binary(op, lhs, rhs) =>
      var (l, b1) := GenExpr(lhs, block);
      var (r, b2) := GenExpr(rhs, b1);
      GenShape(lhs, block);
      GenShape(rhs, b1);
      GenComputes(sem, args, lhs, block);
      GenComputes(sem, args, rhs, b1);
      assert b2 == b1 + b2[|b1|..];
      FetchExtends(sem, args, b1, b2[|b1|..], l.value);
      EmitComputes(sem, args, op, l.value, r.value, b2, Eval(sem, lhs).value, Eval(sem, rhs).value);
  }

  /** The opcodes an operator's case emits. */
  function OpcodesFor(op: char): seq<Opcode>
  {
    match op
    case '+' => [OpFAdd]
    case '-' => [OpFSub]
    case '*' => [OpFMul]
    case '/' => [OpFDiv]
    case '<' => [OpFCmpULT, OpUIToFP]
    case '>' => [OpFCmpUGT, OpUIToFP]
    case '=' => [OpFCmpUEQ, OpUIToFP]
    case _ => []
  }

  /** The opcodes of an expression in post-order: left operand, right
      operand, then the operator. */
  function PostOrder(e: Expr): seq<Opcode>
  {
    match e
    case Number(_) => []
    case Binary(op, l, r) => PostOrder(l) + PostOrder(r) + OpcodesFor(op)
  }

  lemma EmitOpcodes(op: char, l: Value, r: Value, block: seq<Instr>)
    ensures Opcodes(EmitBinary(op, l, r, block).1) == Opcodes(block) + OpcodesFor(op)
  {
    if op in ArithOps {
      var i := ArithInstr(op, l, r);
      OpcodesAppend(block, [i]);
      assert Opcodes([i]) == [OpcodeOf(i)] == OpcodesFor(op);
    } else if op in CompareOps {
      var c := CompareInstr(op, l, r);
      var u := UIToFP(Reg(|block|));
      OpcodesAppend(block, [c, u]);
      assert [c, u][1..] == [u];
      assert Opcodes([c, u]) == [OpcodeOf(c), OpUIToFP] == OpcodesFor(op);
    }
  }

  /** Code is emitted operands first, left before right, then the operator;
      a number emits nothing. */
  lemma {:induction false} GenEmitsPostOrder(e: Expr, block: seq<Instr>)
    requires Supported(e)
    ensures Opcodes(GenExpr(e, block).1) == Opcodes(block) + PostOrder(e)
  {
    match e
    case Number(_) =>
    case Binary(op, lhs, rhs) =>
      var left := GenExpr(lhs, block);
      var right := GenExpr(rhs, left.1);
      var emitted := EmitBinary(op, left.0.value, right.0.value, right.1).1;
      assert Opcodes(left.1) == Opcodes(block) + PostOrder(lhs) by {
        GenEmitsPostOrder(lhs, block);
      }
      assert Opcodes(right.1) == Opcodes(left.1) + PostOrder(rhs) by {
        GenEmitsPostOrder(rhs, left.1);
      }
      assert Opcodes(emitted) == Opcodes(right.1) + OpcodesFor(op) by {
        EmitOpcodes(op, left.0.value, right.0.value, right.1);
      }
      assert GenExpr(e, block).1 == emitted;
      ConcatAssoc(Opcodes(block), PostOrder(lhs), PostOrder(rhs), OpcodesFor(op));
  }

  lemma ConcatAssoc<T>(a: seq<T>, b: seq<T>, c: seq<T>, d: seq<T>)
    ensures a + b + c + d == a + (b + c + d)
  {
  }

  /** A function of the module: its parameter names and its basic blocks. */
  datatype Function = Function(params: seq<string>, blocks: seq<seq<Instr>>)

  /** The code generator's state: the module, the builder's insertion block
      and `NamedValues`. */
  datatype CgState = CgState(functions: map<string, Function>, block: seq<Instr>, namedValues: map<string, Value>)

  /** `NamedValues` after the function's arguments are recorded in order: a
      later parameter of the same name wins. */
  function Bindings(params: seq<string>): (b: map<string, Value>)
    ensures b.Keys == set x | x in params
    ensures forall x :: x in b ==> b[x].Arg? && b[x].position < |params| && params[b[x].position] == x
  {
    if params == [] then map[]
    else Bindings(params[..|params| - 1])[params[|params| - 1] := Arg(|params| - 1)]
  }

  /** The function `FunctionAST::codegen` generates into: an existing
      function of the prototype's name, otherwise the one
      `PrototypeAST::codegen` declares. */
  function Target(f: FunctionAst, st: CgState): Function
  {
    if f.proto.name in st.functions then st.functions[f.proto.name] else Function(f.proto.args, [])
  }

  /** The parameters of the function `f` is generated into. */
  function ParamsOf(f: FunctionAst, st: CgState): seq<string>
  {
    Target(f, st).params
  }

  /** A generated body completed by `ret` of its value is a complete basic
      block. */
  lemma Completed(e: Expr)
    requires Supported(e)
    ensures var g := GenExpr(e, []); WellFormed(g.1 + [Ret(g.0.value)])
  {
    var g := GenExpr(e, []);
    var block := g.1 + [Ret(g.0.value)];
    GenShape(e, []);
    assert block[..|block| - 1] == g.1;
  }

  /** `FunctionAST::codegen`: reuse a function of the same name or declare
      one, start a new entry block, bind the parameters, generate the body,
      and either return from the block or erase the function. */
  function GenFunction(f: FunctionAst, st: CgState): (r: (Option<string>, CgState))
    ensures r.0.Some? <==> Supported(f.body)
    ensures r.0.Some? ==> r.0.value == f.proto.name && f.proto.name in r.1.functions
                          && r.1.functions[f.proto.name].blocks != []
                          && Last(r.1.functions[f.proto.name].blocks) == r.1.block && WellFormed(r.1.block)
    ensures r.0.None? ==> r.1.functions == st.functions - {f.proto.name}
    ensures r.1.functions - {f.proto.name} == st.functions - {f.proto.name}
    ensures r.0.Some? ==> r.1.functions[f.proto.name].params == ParamsOf(f, st)
    ensures r.1.namedValues.Keys == set x | x in ParamsOf(f, st)
  {
    var name := f.proto.name;
    var fn := Target(f, st);
    var g := GenExpr(f.body, []);
    if g.0.Some? then
      var block := g.1 + [Ret(g.0.value)];
      Completed(f.body);
      (Some(name), CgState(st.functions[name := Function(fn.params, fn.blocks + [block])], block, Bindings(fn.params)))
    else (None, CgState(st.functions - {name}, g.1, Bindings(fn.params)))
  }

  /** `GenFunction` when the body generates. */
  lemma GenFunctionSucceeds(f: FunctionAst, st: CgState)
    requires GenExpr(f.body, []).0.Some?
    ensures var g := GenExpr(f.body, []);
      var fn := Target(f, st);
      var block := g.1 + [Ret(g.0.value)];
      GenFunction(f, st)
      == (Some(f.proto.name), CgState(st.functions[f.proto.name := Function(fn.params, fn.blocks + [block])], block, Bindings(fn.params)))
  {
  }

  /** `GenFunction` when the body does not generate. */
  lemma GenFunctionFails(f: FunctionAst, st: CgState)
    requires GenExpr(f.body, []).0.None?
    ensures GenFunction(f, st)
      == (None, CgState(st.functions - {f.proto.name}, GenExpr(f.body, []).1, Bindings(Target(f, st).params)))
  {
  }

  function Last<T>(s: seq<T>): T
    requires s != []
  {
    s[|s| - 1]
  }

  /** A function whose body generates returns the body's meaning. */
  lemma GenFunctionComputes<V>(sem: Semantics<V>, args: seq<V>, f: FunctionAst, st: CgState)
    requires Supported(f.body)
    ensures Returned(sem, args, GenFunction(f, st).1.block) == Double(Eval(sem, f.body).value)
  {
    var block := GenFunction(f, st).1.block;
    GenComputes(sem, args, f.body, []);
    assert block[..|block| - 1] == GenExpr(f.body, []).1;
  }

  /** `InitializeModule` leaves the module, the builder and `NamedValues` empty. */
  function Initial(): (st: CgState)
    ensures st.functions == map[] && st.block == [] && st.namedValues == map[]
  {
    CgState(map[], [], map[])
  }

  /** The code generator's global state, updated in place. */
  class CodeGenerator {
    var functions: map<string, Function>
    var block: seq<Instr>
    var namedValues: map<string, Value>

    function State(): CgState
      reads this
    {
      CgState(functions, block, namedValues)
    }

    /** `InitializeModule`. */
    constructor ()
      ensures State() == Initial()
    {
      functions := map[];
      block := [];
      namedValues := map[];
    }

    /** `NumberExprAST::codegen` and `BinaryExprAST::codegen`. */
    method ExprCodegen(e: Expr) returns (v: Option<Value>)
      modifies this`block
      ensures (v, block) == GenExpr(e, old(block))
    {
      match e
      case Number(x) =>
        return Some(Const(x));
      case Binary(op, lhs, rhs) =>
        var l := ExprCodegen(lhs);
        var r := ExprCodegen(rhs);
        if l.None? || r.None? {
          return None;
        }
        var at := |block|;
        ghost var emitted := EmitBinary(op, l.value, r.value, block);
        if op == '+' {
          block := block + [FAdd(l.value, r.value)];
        } else if op == '-' {
          block := block + [FSub(l.value, r.value)];
        } else if op == '*' {
          block := block + [FMul(l.value, r.value)];
        } else if op == '/' {
          block := block + [FDiv(l.value, r.value)];
        } else if op == '<' {
          block := block + [FCmpULT(l.value, r.value)];
          block := block + [UIToFP(Reg(at))];
        } else if op == '>' {
          block := block + [FCmpUGT(l.value, r.value)];
          block := block + [UIToFP(Reg(at))];
        } else if op == '=' {
          block := block + [FCmpUEQ(l.value, r.value)];
          block := block + [UIToFP(Reg(at))];
        } else {
          return None;
        }
        assert block == emitted.1 && emitted.0 == Some(Reg(|block| - 1));
        return Some(Reg(|block| - 1));
    }

    /** `PrototypeAST::codegen`: declares a function of the prototype's name
        in the module and names its arguments one by one. */
    method PrototypeCodegen(p: Prototype) returns (name: string)
      requires p.name !in functions
      modifies this`functions
      ensures name == p.name
      ensures functions == old(functions)[p.name := Function(p.args, [])]
    {
      var named: seq<string> := [];
      for i := 0 to |p.args|
        invariant named == p.args[..i]
      {
        named := named + [p.args[i]];
      }
      assert p.args[..|p.args|] == p.args;
      functions := functions[p.name := Function(named, [])];
      return p.name;
    }

    /** `FunctionAST::codegen`. */
    method FunctionCodegen(f: FunctionAst) returns (r: Option<string>)
      modifies this
      ensures (r, State()) == GenFunction(f, old(State()))
    {
      ghost var st := State();
      ghost var g := GenExpr(f.body, []);
      var name := f.proto.name;
      var fn := DeclareFunction(f.proto);
      assert fn == Target(f, st) && functions == st.functions[name := fn];
      var v := GenerateBody(fn.params, f.body);
      r := Complete(name, fn, v);
      if v.Some? {
        assert functions == st.functions[name := Function(fn.params, fn.blocks + [block])];
        GenFunctionSucceeds(f, st);
      } else {
        assert functions == st.functions - {name};
        GenFunctionFails(f, st);
      }
    }

    /** The middle of `FunctionAST::codegen`: a fresh entry block, the
        arguments recorded in `NamedValues`, then the body's `codegen`. */
    method GenerateBody(params: seq<string>, body: Expr) returns (v: Option<Value>)
      modifies this`block, this`namedValues
      ensures (v, block) == GenExpr(body, [])
      ensures namedValues == Bindings(params)
    {
      block := [];
      BindArguments(params);
      v := ExprCodegen(body);
    }

    /** The end of `FunctionAST::codegen`: `ret` of the body's value and the
        completed function, or the function erased when the body failed. */
    method Complete(name: string, fn: Function, v: Option<Value>) returns (r: Option<string>)
      modifies this`functions, this`block
      ensures v.Some? ==> r == Some(name) && block == old(block) + [Ret(v.value)]
                          && functions == old(functions)[name := Function(fn.params, fn.blocks + [block])]
      ensures v.None? ==> r == None && block == old(block) && functions == old(functions) - {name}
    {
      if v.Some? {
        block := block + [Ret(v.value)];
        functions := functions[name := Function(fn.params, fn.blocks + [block])];
        return Some(name);
      }
      EraseFunction(name);
      return None;
    }

    /** `TheModule->getFunction`, and `PrototypeAST::codegen` when it finds
        nothing: the function of the prototype's name in the module. */
    method DeclareFunction(p: Prototype) returns (fn: Function)
      modifies this`functions
      ensures fn == (if p.name in old(functions) then old(functions)[p.name] else Function(p.args, []))
      ensures functions == old(functions)[p.name := fn]
    {
      if p.name !in functions {
        var _ := PrototypeCodegen(p);
      }
      fn := functions[p.name];
      assert functions == old(functions)[p.name := fn];
    }

    /** `NamedValues.clear()` and the loop that records each argument under
        its name. */
    method BindArguments(params: seq<string>)
      modifies this`namedValues
      ensures namedValues == Bindings(params)
    {
      namedValues := map[];
      for i := 0 to |params|
        invariant namedValues == Bindings(params[..i])
      {
        assert params[..i + 1][..i] == params[..i];
        namedValues := namedValues[params[i] := Arg(i)];
      }
      assert params[..|params|] == params;
    }

    /** `Function::eraseFromParent`. */
    method EraseFunction(name: string)
      modifies this`functions
      ensures functions == old(functions) - {name}
    {
      functions := functions - {name};
    }
  }
}
