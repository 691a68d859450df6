/** The instructions the code generator asks the IR builder for, and an
    execution of a straight-line block over an abstract floating-point
    semantics, in which the meaning of the instructions is left open. */
module Ir {

  /** An IR value: a floating-point constant (kept as the lexeme it was
      read from), the result of the instruction at an index of the block, or
      a parameter of the function. */
  datatype Value = Const(lexeme: string) | Reg(index: nat) | Arg(position: nat)

  datatype Instr =
    | FAdd(a: Value, b: Value)
    | FSub(a: Value, b: Value)
    | FMul(a: Value, b: Value)
    | FDiv(a: Value, b: Value)
    | FCmpULT(a: Value, b: Value)
    | FCmpUGT(a: Value, b: Value)
    | FCmpUEQ(a: Value, b: Value)
    | UIToFP(a: Value)
    | Ret(a: Value)

  /** The kind of an instruction, without its operands. */
  datatype Opcode = OpFAdd | OpFSub | OpFMul | OpFDiv | OpFCmpULT | OpFCmpUGT | OpFCmpUEQ | OpUIToFP | OpRet

  function OpcodeOf(i: Instr): Opcode
  {
    match i
    case FAdd(_, _) => OpFAdd
    case FSub(_, _) => OpFSub
    case FMul(_, _) => OpFMul
    case FDiv(_, _) => OpFDiv
    case FCmpULT(_, _) => OpFCmpULT
    case FCmpUGT(_, _) => OpFCmpUGT
    case FCmpUEQ(_, _) => OpFCmpUEQ
    case UIToFP(_) => OpUIToFP
    case Ret(_) => OpRet
  }

  function Opcodes(block: seq<Instr>): (ops: seq<Opcode>)
    ensures |ops| == |block|
  {
    if block == [] then [] else [OpcodeOf(block[0])] + Opcodes(block[1..])
  }

  lemma {:induction false} OpcodesAppend(a: seq<Instr>, b: seq<Instr>)
    ensures Opcodes(a + b) == Opcodes(a) + Opcodes(b)
  {
    if a == [] {
      assert a + b == b;
    } else {
      assert (a + b)[1..] == a[1..] + b;
      OpcodesAppend(a[1..], b);
    }
  }

  /** A value that is defined before position `j` of a block. */
  predicate DefinedBefore(v: Value, j: nat)
  {
    v.Reg? ==> v.index < j
  }

  /** The operands of instruction `i` are defined before position `j`. */
  predicate ReadsBefore(i: Instr, j: nat)
  {
    match i
    case UIToFP(a) => DefinedBefore(a, j)
    case Ret(a) => DefinedBefore(a, j)
    case _ => DefinedBefore(i.a, j) && DefinedBefore(i.b, j)
  }

  /** Every instruction reads only results of instructions before it. */
  predicate Closed(block: seq<Instr>)
  {
    forall j :: 0 <= j < |block| ==> ReadsBefore(block[j], j)
  }

  /** No instruction returns. */
  predicate NoReturn(block: seq<Instr>)
  {
    forall j :: 0 <= j < |block| ==> !block[j].Ret?
  }

  /** A complete basic block: closed, ending in its only `ret`. */
  predicate WellFormed(block: seq<Instr>)
  {
    Closed(block) && block != [] && block[|block| - 1].Ret? && NoReturn(block[..|block| - 1])
  }

  /** An open floating-point semantics: what constants denote and what the
      arithmetic, the unordered comparisons and the widening compute. */
  datatype Semantics<!V> = Semantics(
    constant: string -> V,
    fadd: (V, V) -> V, fsub: (V, V) -> V, fmul: (V, V) -> V, fdiv: (V, V) -> V,
    ult: (V, V) -> bool, ugt: (V, V) -> bool, ueq: (V, V) -> bool,
    uitofp: bool -> V)

  /** A run-time value: a double, a 1-bit boolean, or nothing. */
  datatype RtVal<V> = Double(d: V) | Bit(b: bool) | Undef

  function Fetch<V>(sem: Semantics<V>, args: seq<V>, regs: seq<RtVal<V>>, v: Value): RtVal<V>
  {
    match v
    case Const(x) => Double(sem.constant(x))
    case Reg(i) => if i < |regs| then regs[i] else Undef
    case Arg(i) => if i < |args| then Double(args[i]) else Undef
  }

  function Arith<V>(f: (V, V) -> V, x: RtVal<V>, y: RtVal<V>): RtVal<V>
  {
    if x.Double? && y.Double? then Double(f(x.d, y.d)) else Undef
  }

  function Compare<V>(f: (V, V) -> bool, x: RtVal<V>, y: RtVal<V>): RtVal<V>
  {
    if x.Double? && y.Double? then Bit(f(x.d, y.d)) else Undef
  }

  /** The value instruction `i` produces after the results `regs`. */
  function Exec<V>(sem: Semantics<V>, args: seq<V>, regs: seq<RtVal<V>>, i: Instr): RtVal<V>
  {
    match i
    case FAdd(a, b) => Arith(sem.fadd, Fetch(sem, args, regs, a), Fetch(sem, args, regs, b))
    case FSub(a, b) => Arith(sem.fsub, Fetch(sem, args, regs, a), Fetch(sem, args, regs, b))
    case FMul(a, b) => Arith(sem.fmul, Fetch(sem, args, regs, a), Fetch(sem, args, regs, b))
    case FDiv(a, b) => Arith(sem.fdiv, Fetch(sem, args, regs, a), Fetch(sem, args, regs, b))
    case FCmpULT(a, b) => Compare(sem.ult, Fetch(sem, args, regs, a), Fetch(sem, args, regs, b))
    case FCmpUGT(a, b) => Compare(sem.ugt, Fetch(sem, args, regs, a), Fetch(sem, args, regs, b))
    case FCmpUEQ(a, b) => Compare(sem.ueq, Fetch(sem, args, regs, a), Fetch(sem, args, regs, b))
    case UIToFP(a) =>
      var x := Fetch(sem, args, regs, a);
      if x.Bit? then Double(sem.uitofp(x.b)) else Undef
    case Ret(_) => Undef
  }

  /** The results of the instructions of a block, executed in order. */
  function Run<V>(sem: Semantics<V>, args: seq<V>, block: seq<Instr>): (regs: seq<RtVal<V>>)
    ensures |regs| == |block|
  {
    if block == [] then []
    else
      var regs := Run(sem, args, block[..|block| - 1]);
      regs + [Exec(sem, args, regs, block[|block| - 1])]
  }

  /** What a block that ends in `ret` returns. */
  function Returned<V>(sem: Semantics<V>, args: seq<V>, block: seq<Instr>): RtVal<V>
  {
    if block != [] && block[|block| - 1].Ret? then
      Fetch(sem, args, Run(sem, args, block[..|block| - 1]), block[|block| - 1].a)
    else Undef
  }

  /** Appending instructions never changes the results of earlier ones. */
  lemma {:induction false} RunExtends<V>(sem: Semantics<V>, args: seq<V>, block: seq<Instr>, more: seq<Instr>)
    ensures Run(sem, args, block + more)[..|block|] == Run(sem, args, block)
    decreases |more|
  {
    if more != [] {
      var all := block + more;
      assert all[..|all| - 1] == block + more[..|more| - 1];
      RunExtends(sem, args, block, more[..|more| - 1]);
    } else {
      assert block + more == block;
    }
  }

  /** ... so a value defined in a block is fetched alike after appending. */
  lemma FetchExtends<V>(sem: Semantics<V>, args: seq<V>, block: seq<Instr>, more: seq<Instr>, v: Value)
    requires DefinedBefore(v, |block|)
    ensures Fetch(sem, args, Run(sem, args, block + more), v) == Fetch(sem, args, Run(sem, args, block), v)
  {
    RunExtends(sem, args, block, more);
    if v.Reg? {
      assert Run(sem, args, block + more)[v.index] == Run(sem, args, block + more)[..|block|][v.index];
    }
  }

  /** Running one more instruction. */
  lemma RunAppend<V>(sem: Semantics<V>, args: seq<V>, block: seq<Instr>, i: Instr)
    ensures Run(sem, args, block + [i]) == Run(sem, args, block) + [Exec(sem, args, Run(sem, args, block), i)]
  {
    assert (block + [i])[..|block|] == block;
  }
}
