/** The code of a supported expression computes the expression's value and touches nothing else. */
module JitExprs {
  import opened JitAst
  import opened JitMachine
  import opened JitLower

  /** The registers below `r` are as they were. */
  ghost predicate Below<N>(regs: Regs<N>, regs': Regs<N>, r: nat) {
    forall i: nat :: i < r ==> (i in regs' <==> i in regs) && (i in regs ==> regs'[i] == regs[i])
  }

  ghost predicate Holds<N>(regs: Regs<N>, x: Operand<N>, want: Val<N>) {
    if want.NumV? then HasNum(regs, x) && NumOf(regs, x) == want.n else HasBool(regs, x) && BoolOf(regs, x) == want.b
  }

  /** Running `v` keeps memory and the registers below `reg`, and leaves `want` in `v.x`. */
  ghost predicate Computes<N>(m: Numbers<N>, args: seq<N>, v: Value<N>, want: Val<N>, reg: nat, regs: Regs<N>,
                              mem: Mem<N>) {
    var f := Straight(m, args, v.code, regs, mem);
    && f.Go? && f.mem == mem && reg <= v.reg
    && (v.x.Reg? ==> v.x.r < v.reg)
    && Below(regs, f.regs, reg)
    && Holds(f.regs, v.x, want)
  }

  lemma Extend<N>(m: Numbers<N>, args: seq<N>, code: seq<Line<N>>, i: Line<N>, want: Val<N>, r0: nat, reg: nat,
                  regs: Regs<N>, mem: Mem<N>)
    requires var f := Straight(m, args, code, regs, mem);
             f.Go? && f.mem == mem && Below(regs, f.regs, r0) && r0 <= reg && Effect(m, args, i, f.regs, mem) == Go(f.regs[reg := want], mem)
    ensures Straight(m, args, code + [i], regs, mem) == Go(Straight(m, args, code, regs, mem).regs[reg := want], mem)
    ensures Computes(m, args, More(code, i, reg), want, r0, regs, mem)
  {
    hide Effect;
    StraightSplit(m, args, code, [i], regs, mem);
    var f := Straight(m, args, code, regs, mem);
    StraightOne(m, args, i, f.regs, mem);
  }

  lemma HoldsKept<N>(regs: Regs<N>, regs': Regs<N>, x: Operand<N>, want: Val<N>, r: nat)
    requires Holds(regs, x, want) && Below(regs, regs', r) && (x.Reg? ==> x.r < r)
    ensures Holds(regs', x, want)
  {
  }

  /** Two expressions one after the other: the first value survives the second computation. */
  lemma Both<N>(m: Numbers<N>, args: seq<N>, a: Value<N>, b: Value<N>, wa: Val<N>, wb: Val<N>, reg: nat,
                regs: Regs<N>, mem: Mem<N>)
    requires Computes(m, args, a, wa, reg, regs, mem)
    requires Computes(m, args, b, wb, a.reg, Straight(m, args, a.code, regs, mem).regs, mem)
    ensures var f := Straight(m, args, a.code + b.code, regs, mem);
            f.Go? && f.mem == mem && reg <= b.reg && Below(regs, f.regs, reg) && Holds(f.regs, a.x, wa) && Holds(f.regs, b.x, wb)
  {
    hide Holds;
    StraightSplit(m, args, a.code, b.code, regs, mem);
    var f, g := Straight(m, args, a.code, regs, mem), Straight(m, args, a.code + b.code, regs, mem);
    HoldsKept(f.regs, g.regs, a.x, wa, a.reg);
  }

  // ---------------------------- one operator at a time ----------------------------

  /** The value an operator gives, as its operands were read. */
  ghost function UnWant<N>(m: Numbers<N>, op: UnOp, a: Val<N>): Val<N>
    requires a.BoolV? <==> op.Not?
  {
    if op.Not? then BoolV(!a.b) else NumV(Un1(m, op, a.n))
  }

  ghost function BiWant<N>(m: Numbers<N>, op: BinOp, a: Val<N>, b: Val<N>): Val<N>
    requires (a.BoolV? <==> OnBools(op)) && (b.BoolV? <==> OnBools(op))
  {
    match op
    case Compare(c) => BoolV(m.cmp(c, a.n, b.n))
    case And => BoolV(a.b && b.b)
    case Or => BoolV(a.b || b.b)
    case _ => NumV(Bi2(m, op, a.n, b.n))
  }

  lemma UnEffect<N>(m: Numbers<N>, args: seq<N>, op: UnOp, x: Operand<N>, w: Val<N>, d: nat, regs: Regs<N>, mem: Mem<N>)
    requires (w.BoolV? <==> op.Not?) && !op.NumberOf? && Holds(regs, x, w)
    ensures Effect(m, args, UnLine(op, d, x), regs, mem) == Go(regs[d := UnWant(m, op, w)], mem)
  {
  }

  lemma BiEffect<N>(m: Numbers<N>, args: seq<N>, op: BinOp, x: Operand<N>, y: Operand<N>, a: Val<N>, b: Val<N>,
                    d: nat, regs: Regs<N>, mem: Mem<N>)
    requires (a.BoolV? <==> OnBools(op)) && (b.BoolV? <==> OnBools(op)) && Holds(regs, x, a) && Holds(regs, y, b)
    requires !op.Max? && !op.Min? && !op.Concat?
    ensures Effect(m, args, BiLine(op, d, x, y), regs, mem) == Go(regs[d := BiWant(m, op, a, b)], mem)
  {
  }

  lemma SelectEffect<N>(m: Numbers<N>, args: seq<N>, op: BinOp, x: Operand<N>, y: Operand<N>, a: N, b: N, d: nat,
                        regs: Regs<N>, mem: Mem<N>)
    requires (op.Max? || op.Min?) && Holds(regs, x, NumV(a)) && Holds(regs, y, NumV(b))
    ensures Effect(m, args, BiLine(op, d, x, y), regs, mem) == Go(regs[d := BoolV(m.cmp(if op.Max? then Gt else Lt, a, b))], mem)
  {
  }

  lemma Selected<N>(m: Numbers<N>, args: seq<N>, reg: nat, x: Operand<N>, y: Operand<N>, c: bool, a: N, b: N,
                    regs: Regs<N>, mem: Mem<N>)
    requires reg in regs && regs[reg] == BoolV(c) && Holds(regs, x, NumV(a)) && Holds(regs, y, NumV(b))
    ensures Effect(m, args, Select(reg + 1, Reg(reg), x, y), regs, mem) == Go(regs[reg + 1 := NumV(if c then a else b)], mem)
  {
  }

  /** MAX and MIN, in two lines. */
  lemma SelectRight<N>(m: Numbers<N>, args: seq<N>, op: BinOp, code: seq<Line<N>>, x: Operand<N>, y: Operand<N>, a: N,
                       b: N,
                       r0: nat, reg: nat, regs: Regs<N>, mem: Mem<N>)
    requires op.Max? || op.Min?
    requires var f := Straight(m, args, code, regs, mem);
             f.Go? && f.mem == mem && Below(regs, f.regs, r0) && r0 <= reg && Holds(f.regs, x, NumV(a)) && Holds(f.regs, y, NumV(b))
    requires (x.Reg? ==> x.r < reg) && (y.Reg? ==> y.r < reg)
    ensures Computes(m, args, BiOut(op, code, x, y, reg), BiWant(m, op, NumV(a), NumV(b)), r0, regs, mem)
  {
    hide Computes, Straight, Effect, Holds, BiLine;
    var f, c := Straight(m, args, code, regs, mem), m.cmp(if op.Max? then Gt else Lt, a, b);
    SelectEffect(m, args, op, x, y, a, b, reg, f.regs, mem);
    Extend(m, args, code, BiLine(op, reg, x, y), BoolV(c), r0, reg, regs, mem);
    var regs1 := f.regs[reg := BoolV(c)];
    var i: Line<N> := Select(reg + 1, Reg(reg), x, y);
    HoldsKept(f.regs, regs1, x, NumV(a), reg);
    HoldsKept(f.regs, regs1, y, NumV(b), reg);
    Selected(m, args, reg, x, y, c, a, b, regs1, mem);
    Extend(m, args, code + [BiLine(op, reg, x, y)], i, NumV(if c then a else b), r0, reg + 1, regs, mem);
  }

  ghost function Ran<N>(m: Numbers<N>, args: seq<N>, v: Value<N>, regs: Regs<N>, mem: Mem<N>): Regs<N> {
    var f := Straight(m, args, v.code, regs, mem);
    if f.Go? then f.regs else regs
  }

  lemma BiRight<N>(m: Numbers<N>, args: seq<N>, op: BinOp, l: Value<N>, r: Value<N>, a: Val<N>, b: Val<N>, reg: nat,
                   regs: Regs<N>, mem: Mem<N>)
    requires (a.BoolV? <==> OnBools(op)) && (b.BoolV? <==> OnBools(op)) && !op.Concat?
    requires Computes(m, args, l, a, reg, regs, mem)
    requires Computes(m, args, r, b, l.reg, Ran(m, args, l, regs, mem), mem)
    ensures Computes(m, args, BiOut(op, l.code + r.code, l.x, r.x, r.reg), BiWant(m, op, a, b), reg, regs, mem)
  {
    hide Effect, BiLine, Straight, Below, Holds;
    Both(m, args, l, r, a, b, reg, regs, mem);
    var code := l.code + r.code;
    if op.Max? || op.Min? {
      SelectRight(m, args, op, code, l.x, r.x, a.n, b.n, reg, r.reg, regs, mem);
    } else {
      var f := Straight(m, args, code, regs, mem);
      BiEffect(m, args, op, l.x, r.x, a, b, r.reg, f.regs, mem);
      Extend(m, args, code, BiLine(op, r.reg, l.x, r.x), BiWant(m, op, a, b), reg, r.reg, regs, mem);
    }
  }

  lemma UnRight<N>(m: Numbers<N>, args: seq<N>, op: UnOp, v: Value<N>, a: Val<N>, reg: nat, regs: Regs<N>, mem: Mem<N>)
    requires (a.BoolV? <==> op.Not?) && !op.NumberOf? && Computes(m, args, v, a, reg, regs, mem)
    ensures Computes(m, args, More(v.code, UnLine(op, v.reg, v.x), v.reg), UnWant(m, op, a), reg, regs, mem)
  {
    hide Effect, UnLine, Straight, Below, Holds;
    var f := Straight(m, args, v.code, regs, mem);
    UnEffect(m, args, op, v.x, a, v.reg, f.regs, mem);
    Extend(m, args, v.code, UnLine(op, v.reg, v.x), UnWant(m, op, a), reg, v.reg, regs, mem);
  }

  lemma ConvertRight<N>(m: Numbers<N>, args: seq<N>, cond: bool, v: Value<N>, a: Val<N>, reg: nat, regs: Regs<N>,
                        mem: Mem<N>)
    requires (a.NumV? <==> cond) && Computes(m, args, v, a, reg, regs, mem)
    ensures Computes(m, args, More(v.code, if cond then Fcmp(v.reg, Ne, v.x, Const(m.zero)) else ToDouble(v.reg, v.x), v.reg),
                     if cond then BoolV(m.cmp(Ne, a.n, m.zero)) else NumV(ToNum(m, a.b)), reg, regs, mem)
  {
    var i := if cond then Fcmp(v.reg, Ne, v.x, Const(m.zero)) else ToDouble(v.reg, v.x);
    Extend(m, args, v.code, i, if cond then BoolV(m.cmp(Ne, a.n, m.zero)) else NumV(ToNum(m, a.b)), reg, v.reg, regs, mem);
  }

  // ------------------------------- whole expressions -------------------------------

  ghost function Want<N>(m: Numbers<N>, e: Expr<N>, cond: bool, mem: Mem<N>): Val<N> {
    if cond then BoolV(EvalBool(m, e, mem)) else NumV(EvalNum(m, e, mem))
  }

  lemma WantUn<N>(m: Numbers<N>, x: Expr<N>, mem: Mem<N>)
    requires x.Un?
    ensures Want(m, x, IsBool(x), mem) == UnWant(m, x.op1, Want(m, x.e, x.op1.Not?, mem))
  {
  }

  lemma WantBi<N>(m: Numbers<N>, x: Expr<N>, mem: Mem<N>)
    requires x.Bi?
    ensures Want(m, x, IsBool(x), mem) == BiWant(m, x.op2, Want(m, x.l, OnBools(x.op2), mem), Want(m, x.r, OnBools(x.op2), mem))
  {
  }

  lemma WantConverted<N>(m: Numbers<N>, x: Expr<N>, mem: Mem<N>)
    ensures IsBool(x) ==> EvalNum(m, x, mem) == ToNum(m, EvalBool(m, x, mem))
    ensures !IsBool(x) ==> EvalBool(m, x, mem) == m.cmp(Ne, EvalNum(m, x, mem), m.zero)
  {
  }

  lemma WantFolded<N>(m: Numbers<N>, e: Expr<N>, cond: bool, mem: Mem<N>)
    ensures Want(m, Fold(m, e), cond, mem) == Want(m, e, cond, mem)
    ensures Supported(Fold(m, e)) <==> Supported(e)
  {
    FoldMeans(m, e, mem);
    FoldSupported(m, e);
  }

  lemma LeafRight<N>(m: Numbers<N>, args: seq<N>, x: Expr<N>, reg: nat, regs: Regs<N>, mem: Mem<N>)
    requires x.Var? || x.Num?
    ensures Computes(m, args, if x.Var? then More([], Load(reg, x.slot), reg) else Value([], Const(x.v), reg), Want(m, x, false, mem), reg, regs, mem)
  {
    if x.Var? { Extend<N>(m, args, [], Load(reg, x.slot), Want(m, x, false, mem), reg, reg, regs, mem); }
  }

  lemma {:induction false} CodeRight<N>(m: Numbers<N>, args: seq<N>, e: Expr<N>, cond: bool, reg: nat, regs: Regs<N>,
                                        mem: Mem<N>)
    requires Supported(e)
    ensures Computes(m, args, Code(m, e, cond, reg), Want(m, e, cond, mem), reg, regs, mem)
    decreases Size(e), if IsBool(e) == cond then 0 else 1
  {
    hide Computes, Fold, Code, EvalNum, EvalBool, UnLine, BiOut, Straight, More;
    FoldFacts(m, e);
    WantFolded(m, e, cond, mem);
    var x := Fold(m, e);
    if IsBool(x) != cond {
      CodeConverts(m, e, cond, reg);
      CodeRight(m, args, x, !cond, reg, regs, mem);
      ConvertRight(m, args, cond, Code(m, x, !cond, reg), Want(m, x, !cond, mem), reg, regs, mem);
      WantConverted(m, x, mem);
    } else if x.Un? {
      CodeUn(m, e, cond, reg);
      CodeRight(m, args, x.e, x.op1.Not?, reg, regs, mem);
      WantUn(m, x, mem);
      if !x.op1.NumberOf? { UnRight(m, args, x.op1, Code(m, x.e, x.op1.Not?, reg), Want(m, x.e, x.op1.Not?, mem), reg, regs, mem); }
    } else if x.Bi? {
      CodeBi(m, e, cond, reg);
      var k := OnBools(x.op2);
      CodeRight(m, args, x.l, k, reg, regs, mem);
      var a := Code(m, x.l, k, reg);
      CodeRight(m, args, x.r, k, a.reg, Ran(m, args, a, regs, mem), mem);
      WantBi(m, x, mem);
      BiRight(m, args, x.op2, a, Code(m, x.r, k, a.reg), Want(m, x.l, k, mem), Want(m, x.r, k, mem), reg, regs, mem);
    } else {
      CodeLeaf(m, e, cond, reg);
      LeafRight(m, args, x, reg, regs, mem);
    }
  }
}
