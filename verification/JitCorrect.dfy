/** Compiler correctness: every routine the lowering accepts, every argument list, every run. */
module JitCorrect {
  import opened JitAst
  import opened JitExec
  import opened JitMachine
  import opened JitLower
  import opened JitShape
  import opened JitExprs
  import opened JitSim

  // --------------------------------- simple statements ---------------------------------

  lemma SimAssign<N>(p: Program<N>, x: nat, exit: nat, s: Stmt<N>, reg: nat, lbl: nat, pc: nat, regs: Regs<N>,
                     mem: Mem<N>, fuel: nat)
    returns (n: nat, c: Conf<N>)
    requires s.Assign? && Ready(p, x, exit) && SupportedStmt(s) && Sits(p, pc, OpenCode(p.m, s, reg, lbl, exit).code)
    ensures Steps(p, At(pc, regs, mem), n) == c
    ensures Lands(Exec(p.m, true, s, mem, fuel), c, n, fuel, pc + |OpenCode(p.m, s, reg, lbl, exit).code|, x)
  {
    hide Ready, Sits, Code, Steps;
    var v := Code(p.m, s.e, false, reg);
    var mem' := Put(mem, s.slot, EvalNum(p.m, s.e, mem));
    var regs' := StoreRuns(p, s.e, reg, Store(s.slot, v.x), mem', pc, regs, mem);
    n, c := |v.code| + 1, At(pc + |v.code| + 1, regs', mem');
  }

  /** Storing the return value and leaving for the exit. */
  lemma ReturnRuns<N>(p: Program<N>, x: nat, exit: nat, e: Expr<N>, reg: nat, pc: nat, regs: Regs<N>, mem: Mem<N>)
    returns (regs': Regs<N>)
    requires Ready(p, x, exit) && Supported(e)
    requires var v := Code(p.m, e, false, reg); Sits(p, pc, v.code + [StoreRet(v.x), Jump(exit)])
    ensures var v := Code(p.m, e, false, reg);
            Steps(p, At(pc, regs, mem), |v.code| + 2) == At(x, regs', mem.(ret := EvalNum(p.m, e, mem)))
  {
    hide Sits, Code, Steps;
    var v := Code(p.m, e, false, reg);
    var mem' := mem.(ret := EvalNum(p.m, e, mem));
    assert v.code + [StoreRet(v.x), Jump(exit)] == (v.code + [StoreRet(v.x)]) + [Jump(exit)];
    SitsSplit(p, pc, v.code + [StoreRet(v.x)], [Jump(exit)]);
    regs' := StoreRuns(p, e, reg, StoreRet(v.x), mem', pc, regs, mem);
    var at := pc + |v.code| + 1;
    SitsOne<N>(p, at, Jump(exit));
    JumpLands(p, at, x, regs', mem');
    StepsThen(p, At(pc, regs, mem), |v.code| + 1, At(at, regs', mem'), 1, At(x, regs', mem'));
  }

  lemma SimReturn<N>(p: Program<N>, x: nat, exit: nat, s: Stmt<N>, reg: nat, lbl: nat, pc: nat, regs: Regs<N>,
                     mem: Mem<N>, fuel: nat)
    returns (n: nat, c: Conf<N>)
    requires (s.Return? || s.ReturnNothing?) && Ready(p, x, exit) && SupportedStmt(s)
             && Sits(p, pc, OpenCode(p.m, s, reg, lbl, exit).code)
    ensures Steps(p, At(pc, regs, mem), n) == c
    ensures Lands(Exec(p.m, true, s, mem, fuel), c, n, fuel, pc + |OpenCode(p.m, s, reg, lbl, exit).code|, x)
    ensures !Exec(p.m, true, s, mem, fuel).Normal?
  {
    hide Ready, Sits, Steps, Fold;
    var e := if s.Return? then s.value else Num(p.m.zero);
    var v := Code(p.m, e, false, reg);
    if s.ReturnNothing? {
      ZeroCode(p.m, reg);
      assert [] + [StoreRet(Const(p.m.zero)), Jump(exit)] == [StoreRet(Const(p.m.zero)), Jump(exit)];
    }
    var regs' := ReturnRuns(p, x, exit, e, reg, pc, regs, mem);
    n, c := |v.code| + 2, At(x, regs', mem.(ret := EvalNum(p.m, e, mem)));
  }

  lemma ZeroCode<N>(m: Numbers<N>, reg: nat)
    ensures Code(m, Num(m.zero), false, reg) == Value([], Const(m.zero), reg)
  {
  }

  // ------------------------------------ FOR set-up ------------------------------------

  ghost function ForStart<N>(m: Numbers<N>, slot: nat, lo: Expr<N>, hi: Expr<N>, mem: Mem<N>): Mem<N> {
    var mem1 := Put(mem, slot, EvalNum(m, lo, mem));
    mem1.(hi := EvalNum(m, hi, mem1))
  }

  lemma SetupRuns<N>(p: Program<N>, slot: nat, lo: Expr<N>, hi: Expr<N>, reg: nat, pc: nat, regs: Regs<N>, mem: Mem<N>)
    returns (regs': Regs<N>)
    requires Supported(lo) && Supported(hi)
    requires var a := Code(p.m, lo, false, reg); Sits(p, pc, ForSetup(slot, a, Code(p.m, hi, false, a.reg)))
    ensures var a := Code(p.m, lo, false, reg); var setup := ForSetup(slot, a, Code(p.m, hi, false, a.reg));
            Steps(p, At(pc, regs, mem), |setup|) == At(pc + |setup|, regs', ForStart(p.m, slot, lo, hi, mem))
  {
    hide Sits, Code, Steps;
    var a := Code(p.m, lo, false, reg);
    var h := Code(p.m, hi, false, a.reg);
    var one, two := a.code + [Store(slot, a.x)], h.code + [StoreHi(h.x)];
    assert one + two == ForSetup(slot, a, h);
    SitsSplit(p, pc, one, two);
    var mem1 := Put(mem, slot, EvalNum(p.m, lo, mem));
    var r1 := StoreRuns(p, lo, reg, Store(slot, a.x), mem1, pc, regs, mem);
    var mem2 := mem1.(hi := EvalNum(p.m, hi, mem1));
    regs' := StoreRuns(p, hi, a.reg, StoreHi(h.x), mem2, pc + |one|, r1, mem1);
    StepsThen(p, At(pc, regs, mem), |one|, At(pc + |one|, r1, mem1), |two|, At(pc + |one| + |two|, regs', mem2));
  }

  // ------------------------------- compound statements -------------------------------

  /** After `n` steps and then `k` more, for fuel that the first part used up in step with `n`. */
  lemma LandsLater<N>(o: Outcome<N>, c: Conf<N>, n: nat, k: nat, fuel: nat, left: nat, next: nat, x: nat)
    requires Lands(o, c, k, left, next, x) && n + left >= fuel
    ensures Lands(o, c, n + k, fuel, next, x)
  {
  }

  /** From the test label of a WHILE loop. */
  lemma {:induction false} SimWhile<N>(p: Program<N>, x: nat, exit: nat, s: Stmt<N>, reg: nat, lbl: nat, pc: nat,
                                       regs: Regs<N>, mem: Mem<N>, fuel: nat)
    returns (n: nat, c: Conf<N>)
    requires s.While? && Ready(p, x, exit) && SupportedStmt(s) && Sits(p, pc, OpenCode(p.m, s, reg, lbl, exit).code)
    ensures Steps(p, At(pc + 1, regs, mem), n) == c
    ensures Lands(Exec(p.m, true, s, mem, fuel), c, n, fuel, pc + |OpenCode(p.m, s, reg, lbl, exit).code|, x)
    decreases fuel, s, 1
  {
    hide Ready, Sits, Code, Steps, BlockCode, LoopAt, LoopLines, EvalBool, ExecBlock;
    var b := Code(p.m, s.cond, true, reg);
    var k := BlockCode(p.m, s.body, b.reg, lbl + 3, false, exit);
    var back := JumpIfOpen<N>(k.term, lbl);
    LoopSits(p, b.code, b.x, k.code, back, lbl, pc);
    var go := EvalBool(p.m, s.cond, mem);
    var r1 := LoopTest(p, x, exit, s.cond, reg, k.code, back, lbl, pc, regs, mem);
    var n1, at := |b.code| + 3, pc + 4 + |b.code|;
    if !go {
      n, c := n1, At(at + 1 + |k.code| + |back|, r1, mem);
    } else if fuel == 0 {
      n, c := n1, At(at, r1, mem);
    } else {
      LoopBody(p, b.code, b.x, k.code, back, lbl, pc);
      var n2, c2 := SimBlock(p, x, exit, s.body, b.reg, lbl + 3, at, r1, mem, fuel - 1);
      StepsThen(p, At(pc + 1, regs, mem), n1, At(at, r1, mem), n2, c2);
      var o := ExecBlock(p.m, true, s.body, mem, fuel - 1);
      if o.Normal? {
        WhileBack(p, x, exit, b.code, b.x, k.code, lbl, pc, c2.regs, c2.mem);
        StepsThen(p, At(pc + 1, regs, mem), n1 + n2, c2, 1, At(pc + 1, c2.regs, c2.mem));
        var n3, c3 := SimWhile(p, x, exit, s, reg, lbl, pc, c2.regs, c2.mem, o.left);
        StepsThen(p, At(pc + 1, regs, mem), n1 + n2 + 1, At(pc + 1, c2.regs, c2.mem), n3, c3);
        n, c := n1 + n2 + 1 + n3, c3;
      } else {
        n, c := n1 + n2, c2;
      }
    }
  }

  lemma LoopTest<N>(p: Program<N>, x: nat, exit: nat, e: Expr<N>, reg: nat, body: seq<Line<N>>, back: seq<Line<N>>,
                    lbl: nat, pc: nat,
                    regs: Regs<N>, mem: Mem<N>) returns (regs': Regs<N>)
    requires Ready(p, x, exit) && Supported(e)
    requires var b := Code(p.m, e, true, reg); LoopAt(p, b.code, b.x, body, back, lbl, pc)
    ensures var b := Code(p.m, e, true, reg);
            var to := if EvalBool(p.m, e, mem) then pc + 4 + |b.code| else pc + 5 + |b.code| + |body| + |back|;
            Steps(p, At(pc + 1, regs, mem), |b.code| + 3) == At(to, regs', mem)
  {
    hide Ready, Code, Steps, EvalBool, EvalNum, Straight, Sits;
    var b := Code(p.m, e, true, reg);
    regs' := ExprRuns(p, e, true, reg, pc + 2, regs, mem);
    TestRuns(p, x, exit, b.code, b.x, body, back, lbl, pc, regs, mem, regs', EvalBool(p.m, e, mem));
  }

  lemma LoopBody<N>(p: Program<N>, test: seq<Line<N>>, c: Operand<N>, body: seq<Line<N>>, back: seq<Line<N>>,
                    lbl: nat, pc: nat)
    requires LoopAt(p, test, c, body, back, lbl, pc)
    ensures Sits(p, pc + 4 + |test|, body)
  {
  }

  /** From the test label of a FOR loop. */
  lemma {:induction false} SimFor<N>(p: Program<N>, x: nat, exit: nat, slot: nat, h: N, body: Block<N>, r: nat,
                                     lbl: nat, pc: nat, regs: Regs<N>, mem: Mem<N>, fuel: nat)
    returns (n: nat, c: Conf<N>)
    requires Ready(p, x, exit) && SupportedBlock(body)
    requires Sits(p, pc, ForLines(p.m, slot, r, BlockCode(p.m, body, r + 3, lbl + 3, false, exit), lbl))
    ensures Steps(p, At(pc + 1, regs, mem), n) == c
    ensures Lands(ExecFor(p.m, true, slot, h, body, mem, fuel), c, n, fuel,
                  pc + |ForLines(p.m, slot, r, BlockCode(p.m, body, r + 3, lbl + 3, false, exit), lbl)|, x)
    decreases fuel, body, 1
  {
    hide Ready, Sits, Steps, BlockCode, LoopAt, LoopLines, ExecBlock, ForTest, ForStep, Bumped, Holds, Straight,
         AllPlain;
    var k := BlockCode(p.m, body, r + 3, lbl + 3, false, exit);
    var test, back := ForTest<N>(slot, r), ForNext(p.m, slot, k, lbl);
    LoopSits(p, test, Reg(r + 2), k.code, back, lbl, pc);
    var go := p.m.cmp(Le, Read(p.m, mem, slot), mem.hi);
    var r1 := TestEffect(p.m, p.args, slot, r, regs, mem);
    TestRuns(p, x, exit, test, Reg(r + 2), k.code, back, lbl, pc, regs, mem, r1, go);
    var n1, at := |test| + 3, pc + 4 + |test|;
    if !go {
      n, c := n1, At(at + 1 + |k.code| + |back|, r1, mem);
    } else if fuel == 0 {
      n, c := n1, At(at, r1, mem);
    } else {
      LoopBody(p, test, Reg(r + 2), k.code, back, lbl, pc);
      var n2, c2 := SimBlock(p, x, exit, body, r + 3, lbl + 3, at, r1, mem, fuel - 1);
      StepsThen(p, At(pc + 1, regs, mem), n1, At(at, r1, mem), n2, c2);
      var o := ExecBlock(p.m, true, body, mem, fuel - 1);
      if o.Normal? {
        var r3 := ForBack(p, x, exit, slot, k.reg, test, Reg(r + 2), k.code, lbl, pc, c2.regs, c2.mem);
        var mem3 := Bumped(p.m, c2.mem, slot);
        StepsThen(p, At(pc + 1, regs, mem), n1 + n2, c2, 4, At(pc + 1, r3, mem3));
        var n3, c3 := SimFor(p, x, exit, slot, h, body, r, lbl, pc, r3, mem3, o.left);
        StepsThen(p, At(pc + 1, regs, mem), n1 + n2 + 4, At(pc + 1, r3, mem3), n3, c3);
        n, c := n1 + n2 + 4 + n3, c3;
      } else {
        n, c := n1 + n2, c2;
      }
    }
  }

  lemma {:induction false} SimBlock<N>(p: Program<N>, x: nat, exit: nat, b: Block<N>, reg: nat, lbl: nat, pc: nat,
                                       regs: Regs<N>, mem: Mem<N>, fuel: nat)
    returns (n: nat, c: Conf<N>)
    requires Ready(p, x, exit) && SupportedBlock(b) && Sits(p, pc, BlockCode(p.m, b, reg, lbl, false, exit).code)
    ensures Steps(p, At(pc, regs, mem), n) == c
    ensures Lands(ExecBlock(p.m, true, b, mem, fuel), c, n, fuel, pc + |BlockCode(p.m, b, reg, lbl, false, exit).code|, x)
    ensures ExecBlock(p.m, true, b, mem, fuel).Normal? ==> !BlockCode(p.m, b, reg, lbl, false, exit).term
    decreases fuel, b, 0
  {
    hide Ready, Sits, Steps, Exec, OpenCode;
    match b {
      case End =>
        n, c := 0, At(pc, regs, mem);
        NoSteps(p, c);
      case Then(s, rest) =>
        var a := OpenCode(p.m, s, reg, lbl, exit);
        var k := BlockCode(p.m, rest, a.reg, a.lbl, a.term, exit);
        SitsSplit(p, pc, a.code, k.code);
        var n1, c1 := SimOpen(p, x, exit, s, reg, lbl, pc, regs, mem, fuel);
        var o := Exec(p.m, true, s, mem, fuel);
        if o.Normal? {
          var n2, c2 := SimBlock(p, x, exit, rest, a.reg, a.lbl, pc + |a.code|, c1.regs, c1.mem, o.left);
          StepsThen(p, At(pc, regs, mem), n1, c1, n2, c2);
          LandsLater(ExecBlock(p.m, true, rest, o.mem, o.left), c2, n1, n2, fuel, o.left, pc + |a.code| + |k.code|, x);
          n, c := n1 + n2, c2;
        } else {
          n, c := n1, c1;
        }
    }
  }

  lemma NoSteps<N>(p: Program<N>, c: Conf<N>)
    ensures Steps(p, c, 0) == c
  {
  }

  // ------------------------------------ IF arms ------------------------------------

  ghost predicate ArmAt<N>(p: Program<N>, b: Value<N>, k: Out<N>, lbl: nat, end: nat, pc: nat) {
    var t := pc + |b.code|;
    var j := t + 2 + |k.code|;
    && Sits(p, pc, b.code)
    && t + 1 < |p.code| && p.code[t] == Branch(b.x, lbl, lbl + 1) && p.code[t + 1] == Lab(lbl)
    && Sits(p, t + 2, k.code)
    && (!k.term ==> j < |p.code| && p.code[j] == Jump(end))
    && ArmNext(b, k, pc) <= |p.code| && p.code[ArmNext(b, k, pc) - 1] == Lab(lbl + 1)
  }

  /** Where the next arm begins. */
  ghost function ArmNext<N>(b: Value<N>, k: Out<N>, pc: nat): nat { pc + |b.code| + |k.code| + if k.term then 3 else 4 }

  lemma ArmSits<N>(p: Program<N>, b: Value<N>, k: Out<N>, lbl: nat, end: nat, pc: nat)
    requires Sits(p, pc, ArmLines(b, k, lbl, end))
    ensures ArmAt(p, b, k, lbl, end, pc) && |ArmLines(b, k, lbl, end)| == ArmNext(b, k, pc) - pc
  {
    hide Sits;
    var turn, back, last: seq<Line<N>> := [Branch(b.x, lbl, lbl + 1), Lab(lbl)], JumpIfOpen(k.term, end), [Lab(lbl + 1)];
    var front := b.code + turn + k.code;
    assert |front| == |b.code| + 2 + |k.code|;
    SitsThree(p, pc, front, back, last);
    SitsThree(p, pc, b.code, turn, k.code);
    SitsTwo(p, pc + |b.code|, turn[0], turn[1]);
    SitsOne<N>(p, pc + |front| + |back|, Lab(lbl + 1));
    if !k.term { SitsOne<N>(p, pc + |front|, Jump(end)); }
  }

  /** The condition of an arm, and the first line of its body or of the next arm. */
  lemma ArmTest<N>(p: Program<N>, x: nat, exit: nat, e: Expr<N>, reg: nat, k: Out<N>, lbl: nat, end: nat, pc: nat,
                   regs: Regs<N>, mem: Mem<N>)
    returns (n: nat, regs': Regs<N>)
    requires Ready(p, x, exit) && Supported(e) && ArmAt(p, Code(p.m, e, true, reg), k, lbl, end, pc)
    ensures Steps(p, At(pc, regs, mem), n)
         == At(if EvalBool(p.m, e, mem) then pc + |Code(p.m, e, true, reg).code| + 2 else ArmNext(Code(p.m, e, true, reg), k, pc), regs', mem)
  {
    hide Code, Steps, EvalBool, EvalNum, Straight, Sits;
    var b, go := Code(p.m, e, true, reg), EvalBool(p.m, e, mem);
    regs' := ExprRuns(p, e, true, reg, pc, regs, mem);
    var t := pc + |b.code|;
    var to := if go then t + 1 else ArmNext(b, k, pc) - 1;
    BranchLands(p, t, to, regs', mem);
    LabelFalls(p, to, regs', mem);
    StepsThen(p, At(t, regs', mem), 1, At(to, regs', mem), 1, At(to + 1, regs', mem));
    StepsThen(p, At(pc, regs, mem), |b.code|, At(t, regs', mem), 2, At(to + 1, regs', mem));
    n := |b.code| + 2;
  }

  /** A body that may fall off its end, followed by a jump to `end` when it can. */
  lemma {:induction false} SimBody<N>(p: Program<N>, x: nat, exit: nat, y: nat, end: nat, b: Block<N>, reg: nat,
                                      lbl: nat, pc: nat, regs: Regs<N>, mem: Mem<N>, fuel: nat)
    returns (n: nat, c: Conf<N>)
    requires Ready(p, x, exit) && y < |p.code| && p.code[y] == Lab(end)
    requires SupportedBlock(b) && Sits(p, pc, BlockCode(p.m, b, reg, lbl, false, exit).code)
    requires var k := BlockCode(p.m, b, reg, lbl, false, exit); !k.term ==> pc + |k.code| < |p.code| && p.code[pc + |k.code|] == Jump(end)
    ensures Steps(p, At(pc, regs, mem), n) == c
    ensures Lands(ExecBlock(p.m, true, b, mem, fuel), c, n, fuel, y, x)
    decreases fuel, b, 1
  {
    hide Sits, Steps, BlockCode, ExecBlock, LabelsUnique;
    n, c := SimBlock(p, x, exit, b, reg, lbl, pc, regs, mem, fuel);
    if ExecBlock(p.m, true, b, mem, fuel).Normal? {
      JumpLands(p, c.pc, y, c.regs, c.mem);
      StepsThen(p, At(pc, regs, mem), n, c, 1, At(y, c.regs, c.mem));
      n, c := n + 1, At(y, c.regs, c.mem);
    }
  }

  lemma {:induction false} SimArms<N>(p: Program<N>, x: nat, exit: nat, y: nat, end: nat, arms: Arms<N>, reg: nat,
                                      lbl: nat, pc: nat, regs: Regs<N>, mem: Mem<N>, fuel: nat)
    returns (n: nat, c: Conf<N>)
    requires Ready(p, x, exit) && y < |p.code| && p.code[y] == Lab(end)
    requires SupportedArms(arms) && Sits(p, pc, ArmsCode(p.m, arms, reg, lbl, exit, end).code)
    ensures Steps(p, At(pc, regs, mem), n) == c
    ensures Lands(ExecArms(p.m, true, arms, mem, fuel), c, n, fuel, y, x)
    decreases fuel, arms, 0
  {
    hide Ready, Sits, Steps, BlockCode, ExecBlock, Code, EvalBool, ArmLines;
    if arms.Else? {
      var k := BlockCode(p.m, arms.body, reg, lbl, false, exit);
      SitsSplit(p, pc, k.code, JumpIfOpen(k.term, end));
      if !k.term { SitsOne<N>(p, pc + |k.code|, Jump(end)); }
      n, c := SimBody(p, x, exit, y, end, arms.body, reg, lbl, pc, regs, mem, fuel);
    } else {
      var b := Code(p.m, arms.cond, true, reg);
      var k := BlockCode(p.m, arms.body, b.reg, lbl + 2, false, exit);
      SitsSplit(p, pc, ArmLines(b, k, lbl, end), ArmsCode(p.m, arms.rest, k.reg, k.lbl, exit, end).code);
      ArmSits(p, b, k, lbl, end, pc);
      var n1, r1 := ArmTest(p, x, exit, arms.cond, reg, k, lbl, end, pc, regs, mem);
      var at := if EvalBool(p.m, arms.cond, mem) then pc + |b.code| + 2 else ArmNext(b, k, pc);
      var n2, c2;
      if EvalBool(p.m, arms.cond, mem) {
        n2, c2 := SimBody(p, x, exit, y, end, arms.body, b.reg, lbl + 2, at, r1, mem, fuel);
      } else {
        n2, c2 := SimArms(p, x, exit, y, end, arms.rest, k.reg, k.lbl, at, r1, mem, fuel);
      }
      StepsThen(p, At(pc, regs, mem), n1, At(at, r1, mem), n2, c2);
      n, c := n1 + n2, c2;
    }
  }

  // --------------------------------- every statement ---------------------------------

  lemma {:induction false} SimIf<N>(p: Program<N>, x: nat, exit: nat, arms: Arms<N>, reg: nat, lbl: nat, pc: nat,
                                    regs: Regs<N>, mem: Mem<N>, fuel: nat)
    returns (n: nat, c: Conf<N>)
    requires Ready(p, x, exit) && SupportedArms(arms)
             && Sits(p, pc, ArmsCode(p.m, arms, reg, lbl + 1, exit, lbl).code + [Lab(lbl)])
    ensures Steps(p, At(pc, regs, mem), n) == c
    ensures Lands(ExecArms(p.m, true, arms, mem, fuel), c, n, fuel, pc + |ArmsCode(p.m, arms, reg, lbl + 1, exit, lbl).code| + 1, x)
    decreases fuel, arms, 1
  {
    hide Ready, Sits, Steps, ArmsCode, ExecArms;
    var a := ArmsCode(p.m, arms, reg, lbl + 1, exit, lbl);
    SitsSplit(p, pc, a.code, [Lab(lbl)]);
    var y := pc + |a.code|;
    SitsOne<N>(p, y, Lab(lbl));
    n, c := SimArms(p, x, exit, y, lbl, arms, reg, lbl + 1, pc, regs, mem, fuel);
    if ExecArms(p.m, true, arms, mem, fuel).Normal? {
      LabelFalls(p, y, c.regs, c.mem);
      StepsThen(p, At(pc, regs, mem), n, c, 1, At(y + 1, c.regs, c.mem));
      n, c := n + 1, At(y + 1, c.regs, c.mem);
    }
  }

  lemma {:induction false} SimForStmt<N>(p: Program<N>, x: nat, exit: nat, s: Stmt<N>, reg: nat, lbl: nat, pc: nat,
                                         regs: Regs<N>, mem: Mem<N>, fuel: nat)
    returns (n: nat, c: Conf<N>)
    requires s.For? && Ready(p, x, exit) && SupportedStmt(s) && Sits(p, pc, OpenCode(p.m, s, reg, lbl, exit).code)
    ensures Steps(p, At(pc, regs, mem), n) == c
    ensures Lands(Exec(p.m, true, s, mem, fuel), c, n, fuel, pc + |OpenCode(p.m, s, reg, lbl, exit).code|, x)
    decreases fuel, s, 1
  {
    hide Ready, Sits, Steps, BlockCode, ForSetup, ExecFor, Code, EvalNum, LoopLines;
    var a := Code(p.m, s.lo, false, reg);
    var h := Code(p.m, s.hi, false, a.reg);
    var k := BlockCode(p.m, s.body, h.reg + 3, lbl + 3, false, exit);
    var setup, loop := ForSetup(s.slot, a, h), ForLines(p.m, s.slot, h.reg, k, lbl);
    SitsSplit(p, pc, setup, loop);
    var mem1 := ForStart(p.m, s.slot, s.lo, s.hi, mem);
    var r1 := SetupRuns(p, s.slot, s.lo, s.hi, reg, pc, regs, mem);
    var at := pc + |setup|;
    LoopSits(p, ForTest(s.slot, h.reg), Reg(h.reg + 2), k.code, ForNext(p.m, s.slot, k, lbl), lbl, at);
    EnterLoop(p, x, exit, ForTest(s.slot, h.reg), Reg(h.reg + 2), k.code, ForNext(p.m, s.slot, k, lbl), lbl, at, r1, mem1);
    StepsThen(p, At(pc, regs, mem), |setup|, At(at, r1, mem1), 1, At(at + 1, r1, mem1));
    var n2, c2 := SimFor(p, x, exit, s.slot, mem1.hi, s.body, h.reg, lbl, at, r1, mem1, fuel);
    StepsThen(p, At(pc, regs, mem), |setup| + 1, At(at + 1, r1, mem1), n2, c2);
    n, c := |setup| + 1 + n2, c2;
  }

  lemma {:induction false} SimWhileStmt<N>(p: Program<N>, x: nat, exit: nat, s: Stmt<N>, reg: nat, lbl: nat, pc: nat,
                                           regs: Regs<N>, mem: Mem<N>, fuel: nat)
    returns (n: nat, c: Conf<N>)
    requires s.While? && Ready(p, x, exit) && SupportedStmt(s) && Sits(p, pc, OpenCode(p.m, s, reg, lbl, exit).code)
    ensures Steps(p, At(pc, regs, mem), n) == c
    ensures Lands(Exec(p.m, true, s, mem, fuel), c, n, fuel, pc + |OpenCode(p.m, s, reg, lbl, exit).code|, x)
    decreases fuel, s, 2
  {
    hide Ready, Sits, Steps, Code, BlockCode, Exec, LoopLines;
    var b := Code(p.m, s.cond, true, reg);
    var k := BlockCode(p.m, s.body, b.reg, lbl + 3, false, exit);
    LoopSits(p, b.code, b.x, k.code, JumpIfOpen(k.term, lbl), lbl, pc);
    EnterLoop(p, x, exit, b.code, b.x, k.code, JumpIfOpen(k.term, lbl), lbl, pc, regs, mem);
    var n2, c2 := SimWhile(p, x, exit, s, reg, lbl, pc, regs, mem, fuel);
    StepsThen(p, At(pc, regs, mem), 1, At(pc + 1, regs, mem), n2, c2);
    n, c := 1 + n2, c2;
  }

  /** One statement, from an open block. */
  lemma {:induction false} SimOpen<N>(p: Program<N>, x: nat, exit: nat, s: Stmt<N>, reg: nat, lbl: nat, pc: nat,
                                      regs: Regs<N>, mem: Mem<N>, fuel: nat)
    returns (n: nat, c: Conf<N>)
    requires Ready(p, x, exit) && SupportedStmt(s) && Sits(p, pc, OpenCode(p.m, s, reg, lbl, exit).code)
    ensures Steps(p, At(pc, regs, mem), n) == c
    ensures Lands(Exec(p.m, true, s, mem, fuel), c, n, fuel, pc + |OpenCode(p.m, s, reg, lbl, exit).code|, x)
    ensures Exec(p.m, true, s, mem, fuel).Normal? ==> !OpenCode(p.m, s, reg, lbl, exit).term
    decreases fuel, s, 3
  {
    hide Ready, Sits, Steps, BlockCode, Code, ArmsCode, ExecArms, ExecBlock, ExecFor;
    match s {
      case Skip => n, c := 0, At(pc, regs, mem); NoSteps(p, c);
      case Assign(_, _) => n, c := SimAssign(p, x, exit, s, reg, lbl, pc, regs, mem, fuel);
      case Return(_) => n, c := SimReturn(p, x, exit, s, reg, lbl, pc, regs, mem, fuel);
      case ReturnNothing => n, c := SimReturn(p, x, exit, s, reg, lbl, pc, regs, mem, fuel);
      case If(arms) => n, c := SimIf(p, x, exit, arms, reg, lbl, pc, regs, mem, fuel);
      case While(_, _) => n, c := SimWhileStmt(p, x, exit, s, reg, lbl, pc, regs, mem, fuel);
      case For(_, _, _, _) => n, c := SimForStmt(p, x, exit, s, reg, lbl, pc, regs, mem, fuel);
    }
  }
}
