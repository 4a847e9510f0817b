/** The lowering of expressions, statements and routines to lines of code. */
module JitLower {
  import opened JitAst
  import opened JitMachine

  /** Lines, where they leave the value, and the next free register. */
  datatype Value<N> = Value(code: seq<Line<N>>, x: Operand<N>, reg: nat)

  /** One more line, which writes the next free register. */
  function More<N>(a: seq<Line<N>>, i: Line<N>, reg: nat): Value<N> { Value(a + [i], Reg(reg), reg + 1) }

  /** Operators whose operands are conditions. */
  predicate OnBools(op: BinOp) { op.And? || op.Or? }

  function UnLine<N>(op: UnOp, d: nat, x: Operand<N>): Line<N>
    requires !op.NumberOf?
  {
    match op
    case Neg => Fneg(d, x)
    case Not => Xor(d, x)
    case Intrinsic(name) => Call(d, name, x)
  }

  function BiLine<N>(op: BinOp, d: nat, x: Operand<N>, y: Operand<N>): Line<N>
    requires !op.Concat?
  {
    match op
    case Arith(o) => Bin(d, o, x, y)
    case Compare(c) => Fcmp(d, c, x, y)
    case And => Logic(d, true, x, y)
    case Or => Logic(d, false, x, y)
    case Power => Pow(d, x, y)
    case Max => Fcmp(d, Gt, x, y)
    case Min => Fcmp(d, Lt, x, y)
  }

  /** MAX and MIN compare first and then select. */
  function BiOut<N>(op: BinOp, code: seq<Line<N>>, x: Operand<N>, y: Operand<N>, reg: nat): Value<N>
    requires !op.Concat?
  {
    var v := More(code, BiLine(op, reg, x, y), reg);
    if op.Max? || op.Min? then More(v.code, Select(v.reg, v.x, x, y), v.reg) else v
  }

  /**
   Code for an expression, read as a condition if `cond` and as a number otherwise. Folding
   comes first at every level; where the reading asked for is not the expression's own, one more
   line converts.
   */
  function Code<N>(m: Numbers<N>, e: Expr<N>, cond: bool, reg: nat): Value<N>
    decreases Size(e), if IsBool(e) == cond then 0 else 1
  {
    var x := Fold(m, e);
    if cond && !IsBool(x) then
      var a := Code(m, x, false, reg);
      More(a.code, Fcmp(a.reg, Ne, a.x, Const(m.zero)), a.reg)
    else if !cond && IsBool(x) then
      var a := Code(m, x, true, reg);
      More(a.code, ToDouble(a.reg, a.x), a.reg)
    else
      match x
      case Num(v) => Value([], Const(v), reg)
      case Var(slot) => More([], Load(reg, slot), reg)
      case Un(op, y) =>
        var a := Code(m, y, op.Not?, reg);
        if op.NumberOf? then a else More(a.code, UnLine(op, a.reg, a.x), a.reg)
      case Bi(op, l, r) =>
        if op.Concat? then Value([], Const(m.zero), reg)
        else
          var a := Code(m, l, OnBools(op), reg);
          var b := Code(m, r, OnBools(op), a.reg);
          BiOut(op, a.code + b.code, a.x, b.x, b.reg)
      case _ => Value([], Const(m.zero), reg)
  }

  /** The three shapes of `Code`, so that proofs by induction need not open it. */
  lemma CodeConverts<N>(m: Numbers<N>, e: Expr<N>, cond: bool, reg: nat)
    requires IsBool(Fold(m, e)) != cond
    ensures var a := Code(m, Fold(m, e), !cond, reg);
            Code(m, e, cond, reg) == More(a.code, if cond then Fcmp(a.reg, Ne, a.x, Const(m.zero)) else ToDouble(a.reg, a.x), a.reg)
  {
    hide Fold;
    FoldFacts(m, e);
  }

  lemma CodeUn<N>(m: Numbers<N>, e: Expr<N>, cond: bool, reg: nat)
    requires var x := Fold(m, e); x.Un? && IsBool(x) == cond
    ensures var x := Fold(m, e); var a := Code(m, x.e, x.op1.Not?, reg);
            Code(m, e, cond, reg) == if x.op1.NumberOf? then a else More(a.code, UnLine(x.op1, a.reg, a.x), a.reg)
  {
    hide Fold;
    FoldFacts(m, e);
  }

  lemma CodeBi<N>(m: Numbers<N>, e: Expr<N>, cond: bool, reg: nat)
    requires var x := Fold(m, e); x.Bi? && !x.op2.Concat? && IsBool(x) == cond
    ensures var x := Fold(m, e); var a := Code(m, x.l, OnBools(x.op2), reg); var b := Code(m, x.r, OnBools(x.op2), a.reg);
            Code(m, e, cond, reg) == BiOut(x.op2, a.code + b.code, a.x, b.x, b.reg)
  {
    hide Fold;
    FoldFacts(m, e);
  }

  lemma CodeLeaf<N>(m: Numbers<N>, e: Expr<N>, cond: bool, reg: nat)
    requires var x := Fold(m, e); (x.Bi? ==> x.op2.Concat?) && !x.Un? && IsBool(x) == cond
    ensures var x := Fold(m, e);
            Code(m, e, cond, reg) == if x.Var? then More([], Load(reg, x.slot), reg) else Value([], Const(if x.Num? then x.v else m.zero), reg)
  {
    hide Fold;
    FoldFacts(m, e);
  }

  lemma CodeSame<N>(m: Numbers<N>, e: Expr<N>, e': Expr<N>, cond: bool, reg: nat)
    requires Fold(m, e) == Fold(m, e')
    ensures Code(m, e, cond, reg) == Code(m, e', cond, reg)
  {
    hide Fold;
    FoldFacts(m, e);
    FoldFacts(m, e');
  }

  // ---------------------------------- statements ----------------------------------

  /** Counters and the open-block flag of the emitter, threaded through the statements. */
  datatype Out<N> = Out(code: seq<Line<N>>, reg: nat, lbl: nat, term: bool)

  function Cat<N>(a: seq<Line<N>>, b: Out<N>): Out<N> { b.(code := a + b.code) }

  /** A jump, unless the block has already ended. */
  function JumpIfOpen<N>(term: bool, l: nat): seq<Line<N>> { if term then [] else [Jump(l)] }

  function StmtCode<N>(m: Numbers<N>, s: Stmt<N>, reg: nat, lbl: nat, term: bool, exit: nat): Out<N>
    decreases s, 1
  {
    if term then Cat([Lab(lbl)], OpenCode(m, s, reg, lbl + 1, exit)) else OpenCode(m, s, reg, lbl, exit)
  }

  /** A statement emitted into an open block. */
  function OpenCode<N>(m: Numbers<N>, s: Stmt<N>, reg: nat, lbl: nat, exit: nat): Out<N>
    decreases s, 0
  {
    match s
    case Skip => Out([], reg, lbl, false)
    case Assign(slot, e) => (var v := Code(m, e, false, reg); Out(v.code + [Store(slot, v.x)], v.reg, lbl, false))
    case Return(e) => (var v := Code(m, e, false, reg); Out(v.code + [StoreRet(v.x), Jump(exit)], v.reg, lbl, true))
    case ReturnNothing => Out([StoreRet(Const(m.zero)), Jump(exit)], reg, lbl, true)
    case If(arms) =>
      var a := ArmsCode(m, arms, reg, lbl + 1, exit, lbl);
      Out(a.code + [Lab(lbl)], a.reg, a.lbl, false)
    case While(c, body) =>
      var b := Code(m, c, true, reg);
      var k := BlockCode(m, body, b.reg, lbl + 3, false, exit);
      Out(WhileLines(b, k, lbl), k.reg, k.lbl, false)
    case For(slot, lo, hi, body) =>
      var a := Code(m, lo, false, reg);
      var h := Code(m, hi, false, a.reg);
      var k := BlockCode(m, body, h.reg + 3, lbl + 3, false, exit);
      Out(ForSetup(slot, a, h) + ForLines(m, slot, h.reg, k, lbl), if k.term then k.reg else k.reg + 2, k.lbl, false)
  }

  /** Enter at the test, branch on it, run the body, come back to the test. */
  function LoopLines<N>(test: seq<Line<N>>, c: Operand<N>, body: seq<Line<N>>, back: seq<Line<N>>,
                        lbl: nat): seq<Line<N>> {
    [Jump(lbl), Lab(lbl)] + test + [Branch(c, lbl + 1, lbl + 2), Lab(lbl + 1)] + body + back + [Lab(lbl + 2)]
  }

  function WhileLines<N>(b: Value<N>, k: Out<N>,
                         lbl: nat): seq<Line<N>> { LoopLines(b.code, b.x, k.code, JumpIfOpen(k.term, lbl), lbl) }

  function ForSetup<N>(slot: nat, a: Value<N>, h: Value<N>): seq<Line<N>> {
    a.code + [Store(slot, a.x)] + h.code + [StoreHi(h.x)]
  }

  function ForTest<N>(slot: nat,
                      r: nat): seq<Line<N>> { [Load(r, slot), LoadHi(r + 1), Fcmp(r + 2, Le, Reg(r), Reg(r + 1))] }

  function ForStep<N>(m: Numbers<N>, slot: nat, r: nat): seq<Line<N>> {
    [Load(r, slot), Bin(r + 1, Add, Reg(r), Const(m.one)), Store(slot, Reg(r + 1))]
  }

  function ForNext<N>(m: Numbers<N>, slot: nat, k: Out<N>, lbl: nat): seq<Line<N>> {
    if k.term then [] else ForStep(m, slot, k.reg) + [Jump(lbl)]
  }

  function ForLines<N>(m: Numbers<N>, slot: nat, r: nat, k: Out<N>, lbl: nat): seq<Line<N>> {
    LoopLines(ForTest(slot, r), Reg(r + 2), k.code, ForNext(m, slot, k, lbl), lbl)
  }

  /** IF arms in order and the ELSE body; every arm that stays open jumps to `end`. */
  function ArmsCode<N>(m: Numbers<N>, arms: Arms<N>, reg: nat, lbl: nat, exit: nat, end: nat): Out<N>
    decreases arms, 0
  {
    match arms
    case Else(body) =>
      var k := BlockCode(m, body, reg, lbl, false, exit);
      Out(k.code + JumpIfOpen(k.term, end), k.reg, k.lbl, true)
    case Arm(c, body, rest) =>
      var b := Code(m, c, true, reg);
      var k := BlockCode(m, body, b.reg, lbl + 2, false, exit);
      Cat(ArmLines(b, k, lbl, end), ArmsCode(m, rest, k.reg, k.lbl, exit, end))
  }

  function ArmLines<N>(b: Value<N>, k: Out<N>, lbl: nat, end: nat): seq<Line<N>> {
    b.code + [Branch(b.x, lbl, lbl + 1), Lab(lbl)] + k.code + JumpIfOpen(k.term, end) + [Lab(lbl + 1)]
  }

  function BlockCode<N>(m: Numbers<N>, b: Block<N>, reg: nat, lbl: nat, term: bool, exit: nat): Out<N>
    decreases b, 0
  {
    match b
    case End => Out([], reg, lbl, term)
    case Then(s, rest) =>
      var a := StmtCode(m, s, reg, lbl, term, exit);
      Cat(a.code, BlockCode(m, rest, a.reg, a.lbl, a.term, exit))
  }

  // ---------------------------------- routines ----------------------------------

  /** Parameters come first among the slots. */
  datatype Proc<N> = Proc(nslots: nat, nparams: nat, body: Block<N>)

  function Init<N>(m: Numbers<N>, i: nat, nparams: nat): Line<N> {
    if i < nparams then StoreArg(i, i) else Store(i, Const(m.zero))
  }

  function Prologue<N>(m: Numbers<N>, n: nat, nparams: nat): seq<Line<N>> {
    if n == 0 then [Lab(0), StoreRet(Const(m.zero))] else Prologue(m, n - 1, nparams) + [Init(m, n - 1, nparams)]
  }

  function ProcOut<N>(m: Numbers<N>, p: Proc<N>): Out<N> { BlockCode(m, p.body, 0, 2, false, 1) }

  function ProcCode<N>(m: Numbers<N>, p: Proc<N>): seq<Line<N>> {
    var k := ProcOut(m, p);
    Prologue(m, p.nslots, p.nparams) + k.code + JumpIfOpen(k.term, 1) + [Lab(1), LoadRet(k.reg), Ret(Reg(k.reg))]
  }

  // ------------------------------- what is refused -------------------------------

  predicate SupportedStmt<N>(s: Stmt<N>) {
    match s
    case Assign(_, e) => Supported(e)
    case Return(e) => Supported(e)
    case If(arms) => SupportedArms(arms)
    case While(c, body) => Supported(c) && SupportedBlock(body)
    case For(_, lo, hi, body) => Supported(lo) && Supported(hi) && SupportedBlock(body)
    case _ => true
  }

  predicate SupportedBlock<N>(b: Block<N>) { b.End? || (SupportedStmt(b.head) && SupportedBlock(b.tail)) }

  predicate SupportedArms<N>(a: Arms<N>) {
    (a.Arm? ==> Supported(a.cond)) && SupportedBlock(a.body) && (a.Arm? ==> SupportedArms(a.rest))
  }
}
