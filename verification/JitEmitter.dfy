/** The emitter itself: one object whose buffer, counters and flags every emit routine updates. */
module JitEmitter {
  import opened JitAst
  import opened JitMachine
  import opened JitLower

  predicate IsCall<N>(v: Expr<N>) {
    v.OtherCall? || (v.Un? && (v.op1.Intrinsic? || v.op1.NumberOf?)) || (v.Bi? && (v.op2.Power? || v.op2.Max? || v.op2.Min?))
  }

  /** Folding does not look into calls. */
  lemma CallUnfolded<N>(m: Numbers<N>, v: Expr<N>)
    requires IsCall(v)
    ensures Fold(m, v) == v
  {
  }

  lemma Append<T>(a: seq<T>, b: seq<T>, c: seq<T>)
    ensures a + b + c == a + (b + c)
  {
  }

  class Emitter<!N> {
    const m: Numbers<N>
    var out: seq<Line<N>>
    var reg: nat
    var lbl: nat
    var terminated: bool
    var failed: bool

    constructor (m: Numbers<N>)
      ensures this.m == m && out == [] && reg == 0 && lbl == 0 && !terminated && !failed
    {
      this.m := m;
      out, reg, lbl, terminated, failed := [], 0, 0, false, false;
    }

    // ------------------------------------ lines ------------------------------------

    method NewReg() returns (r: nat)
      modifies `reg
      ensures r == old(reg) && reg == old(reg) + 1
    {
      r := reg;
      reg := reg + 1;
    }

    method NewLabel() returns (l: nat)
      modifies `lbl
      ensures l == old(lbl) && lbl == old(lbl) + 1
    {
      l := lbl;
      lbl := lbl + 1;
    }

    method Emit(i: Line<N>)
      modifies `out
      ensures out == old(out) + [i]
    {
      out := out + [i];
    }

    method Label(l: nat)
      modifies `out, `terminated
      ensures out == old(out) + [Lab(l)] && !terminated
    {
      Emit(Lab(l));
      terminated := false;
    }

    method Br(l: nat)
      modifies `out, `terminated
      ensures out == old(out) + [Jump(l)] && terminated
    {
      Emit(Jump(l));
      terminated := true;
    }

    method BrCond(c: Operand<N>, t: nat, f: nat)
      modifies `out, `terminated
      ensures out == old(out) + [Branch(c, t, f)] && terminated
    {
      Emit(Branch(c, t, f));
      terminated := true;
    }

    method EnsureOpen()
      modifies `out, `lbl, `terminated
      ensures !terminated && lbl == old(lbl) + (if old(terminated) then 1 else 0)
      ensures out == old(out) + if old(terminated) then [Lab(old(lbl))] else []
    {
      if terminated {
        var l := NewLabel();
        Label(l);
      }
    }

    method BrIfOpen(l: nat)
      modifies `out, `terminated
      ensures out == old(out) + JumpIfOpen(old(terminated), l) && terminated
    {
      if !terminated { Br(l); }
    }

    // --------------------------------- expressions ---------------------------------

    /** Two operands, left first. */
    method EmitBoth(l: Expr<N>, r: Expr<N>, cond: bool) returns (x: Operand<N>, y: Operand<N>)
      modifies `out, `reg, `failed
      ensures var a := Code(m, l, cond, old(reg)); var b := Code(m, r, cond, a.reg);
              out == old(out) + (a.code + b.code) && reg == b.reg && x == a.x && y == b.x
      ensures failed <==> old(failed) || !Supported(l) || !Supported(r)
      decreases Size(l) + Size(r), 5
    {
      hide Code, Supported;
      if cond {
        x := EmitBool(l);
        y := EmitBool(r);
      } else {
        x := EmitNum(l);
        y := EmitNum(r);
      }
    }

    /** A condition; what cannot be lowered sets `failed`. */
    method EmitBool(e: Expr<N>) returns (x: Operand<N>)
      modifies `out, `reg, `failed
      ensures var v := Code(m, e, true, old(reg)); out == old(out) + v.code && reg == v.reg && x == v.x
      ensures failed <==> old(failed) || !Supported(e)
      decreases Size(e), if IsBool(e) then 1 else 4
    {
      hide Code, Fold;
      var v := Fold(m, e);
      FoldFacts(m, e);
      FoldSupported(m, e);
      if v.Bi? && (v.op2.Compare? || v.op2.And? || v.op2.Or?) {
        CodeBi(m, e, true, reg);
        var a, b := EmitBoth(v.l, v.r, OnBools(v.op2));
        var r := NewReg();
        Emit(match v.op2 case Compare(c) => Fcmp(r, c, a, b) case And => Logic(r, true, a, b) case _ => Logic(r, false, a, b));
        x := Reg(r);
      } else if v.Un? && v.op1.Not? {
        CodeUn(m, e, true, reg);
        var a := EmitBool(v.e);
        var r := NewReg();
        Emit(Xor(r, a));
        x := Reg(r);
      } else {
        CodeConverts(m, e, true, reg);
        var a := EmitNum(v);
        var r := NewReg();
        Emit(Fcmp(r, Ne, a, Const(m.zero)));
        x := Reg(r);
      }
    }

    /** A function call, which folding leaves as it is. */
    method EmitCall(v: Expr<N>) returns (x: Operand<N>)
      requires IsCall(v)
      modifies `out, `reg, `failed
      ensures var w := Code(m, v, false, old(reg)); out == old(out) + w.code && reg == w.reg && x == w.x
      ensures failed <==> old(failed) || !Supported(v)
      decreases Size(v), 0
    {
      hide Code, Fold;
      CallUnfolded(m, v);
      if v.Un? {
        CodeUn(m, v, false, reg);
        x := EmitNum(v.e);
        if v.op1.Intrinsic? {
          var r := NewReg();
          Emit(Call(r, v.op1.name, x));
          x := Reg(r);
        }
      } else if v.Bi? {
        CodeBi(m, v, false, reg);
        var a, b := EmitBoth(v.l, v.r, false);
        var r := NewReg();
        if v.op2.Power? {
          Emit(Pow(r, a, b));
          x := Reg(r);
        } else {
          Emit(Fcmp(r, if v.op2.Max? then Gt else Lt, a, b));
          var s := NewReg();
          Emit(Select(s, Reg(r), a, b));
          x := Reg(s);
        }
      } else {
        CodeLeaf(m, v, false, reg);
        failed := true;
        x := Const(m.zero);
      }
    }

    /** A number. */
    method EmitNum(e: Expr<N>) returns (x: Operand<N>)
      modifies `out, `reg, `failed
      ensures var v := Code(m, e, false, old(reg)); out == old(out) + v.code && reg == v.reg && x == v.x
      ensures failed <==> old(failed) || !Supported(e)
      decreases Size(e), if IsBool(e) then 3 else 2
    {
      hide Code, Fold;
      var v := Fold(m, e);
      FoldFacts(m, e);
      FoldSupported(m, e);
      match v {
        case Num(n) =>
          CodeLeaf(m, e, false, reg);
          x := Const(n);
        case Str =>
          CodeLeaf(m, e, false, reg);
          failed := true;
          x := Const(m.zero);
        case Var(slot) =>
          CodeLeaf(m, e, false, reg);
          var r := NewReg();
          Emit(Load(r, slot));
          x := Reg(r);
        case OtherCall => x := EmitFoldedCall(e, v);
        case Un(op, y) =>
          if op.Neg? {
            CodeUn(m, e, false, reg);
            var a := EmitNum(y);
            var r := NewReg();
            Emit(Fneg(r, a));
            x := Reg(r);
          } else if op.Not? {
            x := EmitTruth(e, v);
          } else {
            x := EmitFoldedCall(e, v);
          }
        case Bi(op, l, r) =>
          if op.Arith? {
            CodeBi(m, e, false, reg);
            var a, b := EmitBoth(l, r, false);
            var d := NewReg();
            Emit(Bin(d, op.a, a, b));
            x := Reg(d);
          } else if op.Concat? {
            CodeLeaf(m, e, false, reg);
            failed := true;
            x := Const(m.zero);
          } else if op.Power? || op.Max? || op.Min? {
            x := EmitFoldedCall(e, v);
          } else {
            x := EmitTruth(e, v);
          }
      }
    }

    /** A truth value used as a number. */
    method EmitTruth(e: Expr<N>, v: Expr<N>) returns (x: Operand<N>)
      requires v == Fold(m, e) && IsBool(v)
      modifies `out, `reg, `failed
      ensures var w := Code(m, e, false, old(reg)); out == old(out) + w.code && reg == w.reg && x == w.x
      ensures failed <==> old(failed) || !Supported(v)
      decreases Size(v), 2
    {
      hide Code, Fold, Supported;
      CodeConverts(m, e, false, reg);
      var a := EmitBool(v);
      var r := NewReg();
      Emit(ToDouble(r, a));
      x := Reg(r);
    }

    method EmitFoldedCall(e: Expr<N>, v: Expr<N>) returns (x: Operand<N>)
      requires v == Fold(m, e) && IsCall(v)
      modifies `out, `reg, `failed
      ensures var w := Code(m, e, false, old(reg)); out == old(out) + w.code && reg == w.reg && x == w.x
      ensures failed <==> old(failed) || !Supported(v)
      decreases Size(v), 1
    {
      hide Code, Fold, Supported;
      CallUnfolded(m, v);
      CodeSame(m, e, v, false, reg);
      x := EmitCall(v);
    }

    // ---------------------------------- statements ----------------------------------

    /** What the emitter holds after `o` has been emitted, unless something failed. */
    ghost predicate Holds(before: seq<Line<N>>, o: Out<N>)
      reads this
    {
      !failed ==> out == before + o.code && reg == o.reg && lbl == o.lbl && terminated == o.term
    }

    method EmitStmt(s: Stmt<N>, exit: nat)
      modifies this
      ensures failed <==> old(failed) || !SupportedStmt(s)
      ensures Holds(old(out), StmtCode(m, s, old(reg), old(lbl), old(terminated), exit))
      decreases s, 2
    {
      hide OpenCode, SupportedStmt;
      if failed { return; }
      EnsureOpen();
      EmitOpen(s, exit);
    }

    /** A statement into an open block. */
    method EmitOpen(s: Stmt<N>, exit: nat)
      requires !terminated && !failed
      modifies this
      ensures failed <==> !SupportedStmt(s)
      ensures Holds(old(out), OpenCode(m, s, old(reg), old(lbl), exit))
      decreases s, 1
    {
      hide Code, Supported, SupportedBlock, SupportedArms, BlockCode, ArmsCode, ForLines, ForSetup, WhileLines;
      match s {
        case Skip =>
        case Assign(slot, e) =>
          var v := EmitNum(e);
          Emit(Store(slot, v));
        case Return(e) =>
          var v := EmitNum(e);
          Emit(StoreRet(v));
          Br(exit);
        case ReturnNothing =>
          Emit(StoreRet(Const(m.zero)));
          Br(exit);
        case If(arms) =>
          var end := NewLabel();
          EmitArms(arms, exit, end);
          Label(end);
        case While(c, body) => EmitWhile(s, exit);
        case For(slot, lo, hi, body) => EmitFor(s, exit);
      }
    }

    /** Entry into a loop: jump to the test and open it. */
    method EmitEntry(cond: nat)
      modifies `out, `terminated
      ensures out == old(out) + [Jump(cond), Lab(cond)] && !terminated
    {
      Br(cond);
      Label(cond);
    }

    method EmitTurn(c: Operand<N>, body: nat, end: nat)
      modifies `out, `terminated
      ensures out == old(out) + [Branch(c, body, end), Lab(body)] && !terminated
    {
      BrCond(c, body, end);
      Label(body);
    }

    method EmitWhile(s: Stmt<N>, exit: nat)
      requires s.While? && !terminated && !failed
      modifies this
      ensures failed <==> !SupportedStmt(s)
      ensures Holds(old(out), OpenCode(m, s, old(reg), old(lbl), exit))
      decreases s, 0
    {
      hide Code, Supported, SupportedBlock, BlockCode, JumpIfOpen;
      ghost var before := out;
      var cond := NewLabel();
      var body := NewLabel();
      var end := NewLabel();
      EmitEntry(cond);
      ghost var g: seq<Line<N>> := [Jump(cond), Lab(cond)];
      ghost var v := Code(m, s.cond, true, reg);
      var c := EmitBool(s.cond);
      Append(before, g, v.code);
      g := g + v.code;
      EmitTurn(c, body, end);
      Append(before, g, [Branch(c, body, end), Lab(body)]);
      g := g + [Branch(c, body, end), Lab(body)];
      EmitLoopBody(s.body, exit, before, g);
      if !failed { g := g + BlockCode(m, s.body, v.reg, old(lbl) + 3, false, exit).code; }
      Append(before, g, JumpIfOpen(terminated, cond));
      g := g + JumpIfOpen(terminated, cond);
      BrIfOpen(cond);
      Append(before, g, [Lab(end)]);
      Label(end);
    }

    /** A loop body, placed after `before + g`. */
    method EmitLoopBody(b: Block<N>, exit: nat, ghost before: seq<Line<N>>, ghost g: seq<Line<N>>)
      requires !terminated && (!failed ==> out == before + g)
      modifies this
      ensures failed <==> old(failed) || !SupportedBlock(b)
      ensures var k := BlockCode(m, b, old(reg), old(lbl), false, exit); Holds(before, k.(code := g + k.code))
      decreases b, 1
    {
      hide BlockCode, SupportedBlock;
      Append(before, g, BlockCode(m, b, reg, lbl, false, exit).code);
      EmitBlock(b, exit);
    }

    method EmitSetup(slot: nat, lo: Expr<N>, hi: Expr<N>)
      modifies `out, `reg, `failed
      ensures failed <==> old(failed) || !Supported(lo) || !Supported(hi)
      ensures var a := Code(m, lo, false, old(reg)); var h := Code(m, hi, false, a.reg);
              out == old(out) + ForSetup(slot, a, h) && reg == h.reg
    {
      hide Code, Supported;
      var x := EmitNum(lo);
      Emit(Store(slot, x));
      var y := EmitNum(hi);
      Emit(StoreHi(y));
    }

    method EmitTest(slot: nat) returns (c: Operand<N>)
      modifies `out, `reg
      ensures out == old(out) + ForTest(slot, old(reg)) && reg == old(reg) + 3 && c == Reg(old(reg) + 2)
    {
      var cur := NewReg();
      Emit(Load(cur, slot));
      var h := NewReg();
      Emit(LoadHi(h));
      var r := NewReg();
      Emit(Fcmp(r, Le, Reg(cur), Reg(h)));
      c := Reg(r);
    }

    method EmitNext(slot: nat, cond: nat)
      requires !terminated
      modifies `out, `reg, `terminated
      ensures out == old(out) + (ForStep(m, slot, old(reg)) + [Jump(cond)]) && reg == old(reg) + 2 && terminated
    {
      var cv := NewReg();
      Emit(Load(cv, slot));
      var nx := NewReg();
      Emit(Bin(nx, Add, Reg(cv), Const(m.one)));
      Emit(Store(slot, Reg(nx)));
      Br(cond);
    }

    method EmitFor(s: Stmt<N>, exit: nat)
      requires s.For? && !terminated && !failed
      modifies this
      ensures failed <==> !SupportedStmt(s)
      ensures Holds(old(out), OpenCode(m, s, old(reg), old(lbl), exit))
      decreases s, 0
    {
      hide Code, Supported, SupportedBlock, BlockCode, ForSetup, ForLines;
      ghost var setup := ForSetup(s.slot, Code(m, s.lo, false, reg), Code(m, s.hi, false, Code(m, s.lo, false, reg).reg));
      ghost var before := out;
      EmitSetup(s.slot, s.lo, s.hi);
      ghost var r, l := reg, lbl;
      EmitForLoop(s.slot, s.body, exit);
      Append(before, setup, ForLines(m, s.slot, r, BlockCode(m, s.body, r + 3, l + 3, false, exit), l));
    }

    method EmitForLoop(slot: nat, block: Block<N>, exit: nat)
      requires !terminated
      modifies this
      ensures failed <==> old(failed) || !SupportedBlock(block)
      ensures !terminated
      ensures var k := BlockCode(m, block, old(reg) + 3, old(lbl) + 3, false, exit);
              Holds(old(out), Out(ForLines(m, slot, old(reg), k, old(lbl)), if k.term then k.reg else k.reg + 2, k.lbl, false))
      decreases block, 2
    {
      hide SupportedBlock, BlockCode, ForTest, ForStep;
      ghost var before := out;
      var cond := NewLabel();
      var body := NewLabel();
      var end := NewLabel();
      EmitEntry(cond);
      ghost var g: seq<Line<N>> := [Jump(cond), Lab(cond)];
      Append(before, g, ForTest(slot, reg));
      g := g + ForTest(slot, reg);
      var c := EmitTest(slot);
      Append(before, g, [Branch(c, body, end), Lab(body)]);
      EmitTurn(c, body, end);
      g := g + [Branch(c, body, end), Lab(body)];
      EmitLoopBody(block, exit, before, g);
      ghost var k := BlockCode(m, block, old(reg) + 3, old(lbl) + 3, false, exit);
      if !failed { g := g + k.code; }
      if !terminated {
        Append(before, g, ForStep(m, slot, reg) + [Jump(cond)]);
        g := g + (ForStep(m, slot, reg) + [Jump(cond)]);
        EmitNext(slot, cond);
      } else {
        assert g == g + [];
      }
      Append(before, g, [Lab(end)]);
      Label(end);
    }

    /** The arms in order, then the ELSE body. */
    method EmitArms(arms: Arms<N>, exit: nat, end: nat)
      requires !terminated && !failed
      modifies this
      ensures failed <==> !SupportedArms(arms)
      ensures Holds(old(out), ArmsCode(m, arms, old(reg), old(lbl), exit, end))
      decreases arms, 1
    {
      hide Code, Supported, SupportedBlock, BlockCode, ArmLines, JumpIfOpen;
      var rest := arms;
      while rest.Arm?
        invariant !failed ==> !terminated
        invariant SupportedArms(arms) <==> !failed && SupportedArms(rest)
        invariant !failed ==>
                    var a, b := ArmsCode(m, arms, old(reg), old(lbl), exit, end), ArmsCode(m, rest, reg, lbl, exit, end);
                    out + b.code == old(out) + a.code && b.reg == a.reg && b.lbl == a.lbl && b.term == a.term
        invariant rest == arms || rest < arms
        decreases rest
      {
        ghost var before, b := out, Code(m, rest.cond, true, reg);
        ghost var k := BlockCode(m, rest.body, b.reg, lbl + 2, false, exit);
        Append(before, ArmLines(b, k, lbl, end), ArmsCode(m, rest.rest, k.reg, k.lbl, exit, end).code);
        EmitArm(rest.cond, rest.body, exit, end);
        rest := rest.rest;
      }
      EmitBlock(rest.body, exit);
      BrIfOpen(end);
    }

    method EmitArm(e: Expr<N>, body: Block<N>, exit: nat, end: nat)
      requires !failed ==> !terminated
      modifies this
      ensures failed <==> old(failed) || !Supported(e) || !SupportedBlock(body)
      ensures !terminated
      ensures var b := Code(m, e, true, old(reg)); var k := BlockCode(m, body, b.reg, old(lbl) + 2, false, exit);
              Holds(old(out), Out(ArmLines(b, k, old(lbl), end), k.reg, k.lbl, false))
      decreases body, 2
    {
      hide Code, Supported, SupportedBlock, BlockCode, JumpIfOpen;
      ghost var before, g := out, Code(m, e, true, reg).code;
      var c := EmitBool(e);
      var thenLabel := NewLabel();
      var next := NewLabel();
      Append(before, g, [Branch(c, thenLabel, next), Lab(thenLabel)]);
      EmitTurn(c, thenLabel, next);
      g := g + [Branch(c, thenLabel, next), Lab(thenLabel)];
      ghost var k := BlockCode(m, body, reg, lbl, false, exit);
      EmitLoopBody(body, exit, before, g);
      if !failed { g := g + k.code; }
      Append(before, g, JumpIfOpen(terminated, end));
      g := g + JumpIfOpen(terminated, end);
      BrIfOpen(end);
      Append(before, g, [Lab(next)]);
      Label(next);
    }

    /** Statements one after another, stopping at the first that cannot be lowered. */
    method EmitBlock(b: Block<N>, exit: nat)
      modifies this
      ensures failed <==> old(failed) || !SupportedBlock(b)
      ensures Holds(old(out), BlockCode(m, b, old(reg), old(lbl), old(terminated), exit))
      decreases b, 0
    {
      hide SupportedStmt, StmtCode;
      var rest := b;
      while rest.Then? && !failed
        invariant old(failed) ==> failed
        invariant old(failed) || (SupportedBlock(b) <==> !failed && SupportedBlock(rest))
        invariant !failed ==>
                    var k, r := BlockCode(m, b, old(reg), old(lbl), old(terminated), exit), BlockCode(m, rest, reg, lbl, terminated, exit);
                    out + r.code == old(out) + k.code && r.reg == k.reg && r.lbl == k.lbl && r.term == k.term
        invariant rest == b || rest < b
        decreases rest
      {
        EmitStmt(rest.head, exit);
        rest := rest.tail;
      }
    }

    // ---------------------------------- routines ----------------------------------

    /** Slot initialisation. */
    method EmitSlots(nslots: nat, nparams: nat)
      requires out == Prologue(m, 0, nparams)
      modifies `out
      ensures out == Prologue(m, nslots, nparams)
    {
      for i := 0 to nslots
        invariant out == Prologue(m, i, nparams)
      {
        if i < nparams { Emit(StoreArg(i, i)); } else { Emit(Store(i, Const(m.zero))); }
      }
    }

    /**
     A whole routine. It is refused exactly when some expression in it, reachable or not, holds a
     string or an unknown function.
     */
    method EmitProc(p: Proc<N>) returns (ok: bool)
      requires out == [] && reg == 0 && lbl == 0 && !terminated && !failed
      modifies this
      ensures ok <==> SupportedBlock(p.body)
      ensures ok ==> out == ProcCode(m, p)
    {
      hide BlockCode, SupportedBlock;
      var entry := NewLabel();
      Label(entry);
      Emit(StoreRet(Const(m.zero)));
      assert out == Prologue(m, 0, p.nparams);
      EmitSlots(p.nslots, p.nparams);
      var exit := NewLabel();
      EmitBlock(p.body, exit);
      BrIfOpen(exit);
      Label(exit);
      var rv := NewReg();
      Emit(LoadRet(rv));
      Emit(Ret(Reg(rv)));
      ok := !failed;
    }
  }
}
