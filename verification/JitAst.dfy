/**
 Routines as the JIT front ends produce them: expressions over numeric slots, structured
 statements, the constant folder, and what programs mean. Numbers are abstract: every
 theorem holds for whatever the arithmetic operations are.
 */
module JitAst {
  datatype ArithOp = Add | Sub | Mul | Div | Mod
  datatype CmpOp = Eq | Ne | Lt | Le | Gt | Ge

  /** Unary operators, and the functions of one argument the lowering knows. */
  datatype UnOp = Neg | Not | Intrinsic(name: string) | NumberOf

  /** Binary operators, and the functions of two arguments the lowering knows. */
  datatype BinOp = Arith(a: ArithOp) | Compare(c: CmpOp) | And | Or | Concat | Power | Max | Min

  /** The operations of the number type; the folder and the generated code use the same ones. */
  datatype Numbers<!N> = Numbers(zero: N, one: N, arith: (ArithOp, N, N) -> N, neg: N -> N,
                                 cmp: (CmpOp, N, N) -> bool, intr: (string, N) -> N, pow: (N, N) -> N)

  datatype Expr<N> =
    | Num(v: N)
    | Str
    | Var(slot: nat)
    | Un(op1: UnOp, e: Expr<N>)
    | Bi(op2: BinOp, l: Expr<N>, r: Expr<N>)
    | OtherCall

  datatype Stmt<N> =
    | Skip
    | Assign(slot: nat, e: Expr<N>)
    | Return(value: Expr<N>)
    | ReturnNothing
    | If(arms: Arms<N>)
    | While(cond: Expr<N>, body: Block<N>)
    | For(slot: nat, lo: Expr<N>, hi: Expr<N>, body: Block<N>)

  datatype Block<N> = End | Then(head: Stmt<N>, tail: Block<N>)

  /** The IF arm, the ELSIF arms in order, and the ELSE body, which may be empty. */
  datatype Arms<N> = Else(body: Block<N>) | Arm(cond: Expr<N>, body: Block<N>, rest: Arms<N>)

  // --------------------------------- expressions ---------------------------------

  function Size<N>(e: Expr<N>): (n: nat)
    ensures n >= 1
  {
    match e
    case Un(_, x) => 1 + Size(x)
    case Bi(_, l, r) => 1 + Size(l) + Size(r)
    case _ => 1
  }

  /** Expressions whose own value is a truth value. */
  predicate IsBool<N>(e: Expr<N>) {
    match e
    case Un(op, _) => op.Not?
    case Bi(op, _, _) => op.Compare? || op.And? || op.Or?
    case _ => false
  }

  function FoldUn<N>(m: Numbers<N>, op: UnOp, c: Expr<N>): Expr<N> {
    if op.Neg? && c.Num? then Num(m.neg(c.v)) else Un(op, c)
  }

  /** Division and modulus by zero are left alone. */
  function FoldBi<N>(m: Numbers<N>, op: BinOp, a: Expr<N>, b: Expr<N>): Expr<N> {
    if op.Arith? && a.Num? && b.Num? && (!(op.a.Div? || op.a.Mod?) || m.cmp(Ne, b.v, m.zero)) then Num(m.arith(op.a, a.v, b.v))
    else Bi(op, a, b)
  }

  /** Folds arithmetic on literals, bottom up; function calls are not looked into. */
  function Fold<N>(m: Numbers<N>, e: Expr<N>): (f: Expr<N>)
    ensures Size(f) <= Size(e)
    ensures IsBool(e) <==> IsBool(f)
  {
    match e
    case Un(op, x) => if op.Neg? || op.Not? then FoldUn(m, op, Fold(m, x)) else e
    case Bi(op, l, r) => if op.Power? || op.Max? || op.Min? then e else FoldBi(m, op, Fold(m, l), Fold(m, r))
    case _ => e
  }

  lemma FoldFacts<N>(m: Numbers<N>, e: Expr<N>)
    ensures Size(Fold(m, e)) <= Size(e)
    ensures IsBool(Fold(m, e)) <==> IsBool(e)
  {
  }

  /** Strings and unknown functions have no numeric meaning; the lowering refuses them. */
  predicate Supported<N>(e: Expr<N>) {
    match e
    case Un(_, x) => Supported(x)
    case Bi(op, l, r) => !op.Concat? && Supported(l) && Supported(r)
    case _ => !e.Str? && !e.OtherCall?
  }

  lemma {:induction false} FoldSupported<N>(m: Numbers<N>, e: Expr<N>)
    ensures Supported(Fold(m, e)) <==> Supported(e)
  {
    if e.Un? { FoldSupported(m, e.e); }
    if e.Bi? {
      FoldSupported(m, e.l);
      FoldSupported(m, e.r);
    }
  }

  /** Variables, the return value, and the one cell that holds the bound of a FOR loop. */
  datatype Mem<N> = Mem(slots: map<nat, N>, ret: N, hi: N)

  function Read<N>(m: Numbers<N>, mem: Mem<N>, slot: nat): N {
    if slot in mem.slots then mem.slots[slot] else m.zero
  }

  function ToNum<N>(m: Numbers<N>, b: bool): N { if b then m.one else m.zero }

  /** Operators on numbers. */
  function Un1<N>(m: Numbers<N>, op: UnOp, a: N): N {
    match op
    case Neg => m.neg(a)
    case Intrinsic(name) => m.intr(name, a)
    case _ => a
  }

  function Bi2<N>(m: Numbers<N>, op: BinOp, a: N, b: N): N {
    match op
    case Arith(o) => m.arith(o, a, b)
    case Power => m.pow(a, b)
    case Max => if m.cmp(Gt, a, b) then a else b
    case Min => if m.cmp(Lt, a, b) then a else b
    case _ => m.zero
  }

  /** The value of an expression read as a number: truth values become one and zero. */
  function EvalNum<N>(m: Numbers<N>, e: Expr<N>, mem: Mem<N>): N
    decreases e, 1
  {
    if IsBool(e) then ToNum(m, EvalBool(m, e, mem)) else
    match e
    case Num(v) => v
    case Var(slot) => Read(m, mem, slot)
    case Un(op, x) => Un1(m, op, EvalNum(m, x, mem))
    case Bi(op, l, r) => Bi2(m, op, EvalNum(m, l, mem), EvalNum(m, r, mem))
    case _ => m.zero
  }

  /** The value of an expression read as a condition: numbers other than zero are true. */
  function EvalBool<N>(m: Numbers<N>, e: Expr<N>, mem: Mem<N>): bool
    decreases e, if IsBool(e) then 0 else 2
  {
    if !IsBool(e) then m.cmp(Ne, EvalNum(m, e, mem), m.zero)
    else if e.Un? then !EvalBool(m, e.e, mem)
    else
      match e.op2
      case Compare(c) => m.cmp(c, EvalNum(m, e.l, mem), EvalNum(m, e.r, mem))
      case And => EvalBool(m, e.l, mem) && EvalBool(m, e.r, mem)
      case _ => EvalBool(m, e.l, mem) || EvalBool(m, e.r, mem)
  }

  /** A comparison read as a number is one where it holds and zero where it does not. */
  lemma {:induction false} ComparisonAsNumber<N>(m: Numbers<N>, c: CmpOp, l: Expr<N>, r: Expr<N>, mem: Mem<N>)
    ensures EvalNum(m, Bi(Compare(c), l, r), mem)
         == if m.cmp(c, EvalNum(m, l, mem), EvalNum(m, r, mem)) then m.one else m.zero
  {
  }

  /** AND, OR and NOT are the logical ones. */
  lemma {:induction false} LogicLaws<N>(m: Numbers<N>, l: Expr<N>, r: Expr<N>, mem: Mem<N>)
    ensures EvalBool(m, Bi(And, l, r), mem) <==> EvalBool(m, l, mem) && EvalBool(m, r, mem)
    ensures EvalBool(m, Bi(Or, l, r), mem) <==> EvalBool(m, l, mem) || EvalBool(m, r, mem)
    ensures EvalBool(m, Un(Not, l), mem) <==> !EvalBool(m, l, mem)
  {
  }

  /** MAX and MIN give one of their arguments, by comparison. */
  lemma {:induction false} MaxMinLaws<N>(m: Numbers<N>, l: Expr<N>, r: Expr<N>, mem: Mem<N>)
    ensures var a, b := EvalNum(m, l, mem), EvalNum(m, r, mem);
            && EvalNum(m, Bi(Max, l, r), mem) == (if m.cmp(Gt, a, b) then a else b)
            && EvalNum(m, Bi(Min, l, r), mem) == (if m.cmp(Lt, a, b) then a else b)
  {
  }

  /** Folding never changes an expression's value, read as a number or as a condition. */
  lemma {:induction false} FoldMeans<N>(m: Numbers<N>, e: Expr<N>, mem: Mem<N>)
    ensures EvalNum(m, Fold(m, e), mem) == EvalNum(m, e, mem)
    ensures EvalBool(m, Fold(m, e), mem) == EvalBool(m, e, mem)
  {
    if e.Un? { FoldMeans(m, e.e, mem); }
    if e.Bi? {
      FoldMeans(m, e.l, mem);
      FoldMeans(m, e.r, mem);
    }
  }
}
