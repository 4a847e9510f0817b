/** The generated code does what the routine does: a simulation, statement by statement. */
module JitSim {
  import opened JitAst
  import opened JitExec
  import opened JitMachine
  import opened JitLower
  import opened JitShape
  import opened JitExprs

  /** Labels are unambiguous, and the routine's exit label stands at `x`. */
  ghost predicate Ready<N>(p: Program<N>, x: nat, exit: nat) {
    LabelsUnique(p.code) && x < |p.code| && p.code[x] == Lab(exit)
  }

  /**
   `n` machine steps answer for the outcome `o` of running with `fuel`: the machine stands where
   control goes on, with the same memory, or has been running for at least `fuel` steps.
   */
  ghost predicate Lands<N>(o: Outcome<N>, c: Conf<N>, n: nat, fuel: nat, next: nat, x: nat) {
    && c.At?
    && (o.Normal? ==> c.pc == next && c.mem == o.mem && n + o.left >= fuel)
    && (o.Returned? ==> c.pc == x && c.mem == o.mem)
    && (o.Timeout? ==> n >= fuel)
  }

  lemma StepsThen<N>(p: Program<N>, a: Conf<N>, n: nat, b: Conf<N>, k: nat, c: Conf<N>)
    requires Steps(p, a, n) == b && Steps(p, b, k) == c
    ensures Steps(p, a, n + k) == c
  {
    StepsAdd(p, a, n, k);
  }

  /** Straight-line code at `pc`, with what it does to registers and memory. */
  lemma LinesRun<N>(p: Program<N>, part: seq<Line<N>>, pc: nat, regs: Regs<N>, mem: Mem<N>, regs': Regs<N>,
                    mem': Mem<N>)
    requires Sits(p, pc, part) && AllPlain(part) && Straight(p.m, p.args, part, regs, mem) == Go(regs', mem')
    ensures Steps(p, At(pc, regs, mem), |part|) == At(pc + |part|, regs', mem')
  {
    StepsStraight(p, part, pc, regs, mem);
  }

  lemma ExprRuns<N>(p: Program<N>, e: Expr<N>, cond: bool, reg: nat, pc: nat, regs: Regs<N>, mem: Mem<N>)
    returns (regs': Regs<N>)
    requires Supported(e) && Sits(p, pc, Code(p.m, e, cond, reg).code)
    ensures var v := Code(p.m, e, cond, reg);
            Steps(p, At(pc, regs, mem), |v.code|) == At(pc + |v.code|, regs', mem) && Holds(regs', v.x, Want(p.m, e, cond, mem))
            && AllPlain(v.code) && Straight(p.m, p.args, v.code, regs, mem) == Go(regs', mem)
  {
    hide Code, Straight, Want, Holds, Sits, Steps, Below;
    var v := Code(p.m, e, cond, reg);
    CodeRight(p.m, p.args, e, cond, reg, regs, mem);
    CodeCalc(p.m, e, cond, reg);
    regs' := Straight(p.m, p.args, v.code, regs, mem).regs;
    LinesRun(p, v.code, pc, regs, mem, regs', mem);
  }

  /** An expression followed by a line that stores its value. */
  lemma StoreRuns<N>(p: Program<N>, e: Expr<N>, reg: nat, i: Line<N>, mem': Mem<N>, pc: nat, regs: Regs<N>, mem: Mem<N>)
    returns (regs': Regs<N>)
    requires Supported(e) && Plain(i)
    requires var v := Code(p.m, e, false, reg); Sits(p, pc, v.code + [i])
    requires var v := Code(p.m, e, false, reg);
             forall rs: Regs<N> :: Holds(rs, v.x, Want(p.m, e, false, mem)) ==> Effect(p.m, p.args, i, rs, mem) == Go(rs, mem')
    ensures var v := Code(p.m, e, false, reg);
            Steps(p, At(pc, regs, mem), |v.code| + 1) == At(pc + |v.code| + 1, regs', mem')
  {
    hide Code, Want, Holds, Straight, Effect;
    var v := Code(p.m, e, false, reg);
    SitsSplit(p, pc, v.code, [i]);
    regs' := ExprRuns(p, e, false, reg, pc, regs, mem);
    SitsOne(p, pc + |v.code|, i);
    OneEffect(p, pc + |v.code|, regs', mem);
    StepsOne(p, At(pc + |v.code|, regs', mem));
    StepsThen(p, At(pc, regs, mem), |v.code|, At(pc + |v.code|, regs', mem), 1, At(pc + |v.code| + 1, regs', mem'));
  }

  // ------------------------------------- loops -------------------------------------

  /** Where the parts of a loop stand. */
  ghost predicate LoopAt<N>(p: Program<N>, test: seq<Line<N>>, c: Operand<N>, body: seq<Line<N>>, back: seq<Line<N>>,
                            lbl: nat, pc: nat) {
    var t := pc + 2 + |test|;
    var b := t + 2 + |body|;
    && b + |back| < |p.code|
    && p.code[pc] == Jump(lbl) && p.code[pc + 1] == Lab(lbl)
    && Sits(p, pc + 2, test)
    && p.code[t] == Branch(c, lbl + 1, lbl + 2) && p.code[t + 1] == Lab(lbl + 1)
    && Sits(p, t + 2, body)
    && Sits(p, b, back)
    && p.code[b + |back|] == Lab(lbl + 2)
  }

  lemma SitsTwo<N>(p: Program<N>, pc: nat, i: Line<N>, j: Line<N>)
    requires Sits(p, pc, [i, j])
    ensures pc + 1 < |p.code| && p.code[pc] == i && p.code[pc + 1] == j
  {
    assert [i, j] == [i] + [j];
    SitsSplit(p, pc, [i], [j]);
    SitsOne(p, pc, i);
    SitsOne(p, pc + 1, j);
  }

  lemma SitsThree<N>(p: Program<N>, pc: nat, a: seq<Line<N>>, b: seq<Line<N>>, c: seq<Line<N>>)
    requires Sits(p, pc, a + b + c)
    ensures Sits(p, pc, a) && Sits(p, pc + |a|, b) && Sits(p, pc + |a| + |b|, c)
  {
    hide Sits;
    SitsSplit(p, pc, a + b, c);
    SitsSplit(p, pc, a, b);
  }

  lemma LoopSits<N>(p: Program<N>, test: seq<Line<N>>, c: Operand<N>, body: seq<Line<N>>, back: seq<Line<N>>,
                    lbl: nat, pc: nat)
    requires Sits(p, pc, LoopLines(test, c, body, back, lbl))
    ensures LoopAt(p, test, c, body, back, lbl, pc)
    ensures |LoopLines(test, c, body, back, lbl)| == 5 + |test| + |body| + |back|
  {
    hide Sits;
    var entry, turn, end: seq<Line<N>> := [Jump(lbl), Lab(lbl)], [Branch(c, lbl + 1, lbl + 2), Lab(lbl + 1)], [Lab(lbl + 2)];
    var front := entry + test + turn;
    assert |front| == 4 + |test|;
    SitsSplit(p, pc, front + body + back, end);
    SitsThree(p, pc, front, body, back);
    SitsThree(p, pc, entry, test, turn);
    SitsTwo<N>(p, pc, Jump(lbl), Lab(lbl));
    SitsTwo(p, pc + 2 + |test|, turn[0], turn[1]);
    SitsOne<N>(p, pc + 4 + |test| + |body| + |back|, Lab(lbl + 2));
  }

  /** From the test label, through the test, to the first line of the body or past the loop. */
  lemma TestRuns<N>(p: Program<N>, x: nat, exit: nat, test: seq<Line<N>>, c: Operand<N>, body: seq<Line<N>>,
                    back: seq<Line<N>>, lbl: nat, pc: nat,
                    regs: Regs<N>, mem: Mem<N>, regs': Regs<N>, go: bool)
    requires Ready(p, x, exit) && LoopAt(p, test, c, body, back, lbl, pc)
    requires AllPlain(test) && Straight(p.m, p.args, test, regs, mem) == Go(regs', mem) && Holds(regs', c, BoolV(go))
    ensures Steps(p, At(pc + 1, regs, mem), |test| + 3)
         == At(if go then pc + 4 + |test| else pc + 5 + |test| + |body| + |back|, regs', mem)
  {
    hide Straight, Sits, LabelsUnique, Labels, AllPlain;
    var t := pc + 2 + |test|;
    var to := if go then t + 1 else t + 2 + |body| + |back|;
    LabelFalls(p, pc + 1, regs, mem);
    LinesRun(p, test, pc + 2, regs, mem, regs', mem);
    StepsThen(p, At(pc + 1, regs, mem), 1, At(pc + 2, regs, mem), |test|, At(t, regs', mem));
    BranchLands(p, t, to, regs', mem);
    StepsThen(p, At(pc + 1, regs, mem), 1 + |test|, At(t, regs', mem), 1, At(to, regs', mem));
    LabelFalls(p, to, regs', mem);
    StepsThen(p, At(pc + 1, regs, mem), 2 + |test|, At(to, regs', mem), 1, At(to + 1, regs', mem));
  }

  lemma EnterLoop<N>(p: Program<N>, x: nat, exit: nat, test: seq<Line<N>>, c: Operand<N>, body: seq<Line<N>>,
                     back: seq<Line<N>>, lbl: nat, pc: nat,
                     regs: Regs<N>, mem: Mem<N>)
    requires Ready(p, x, exit) && LoopAt(p, test, c, body, back, lbl, pc)
    ensures Steps(p, At(pc, regs, mem), 1) == At(pc + 1, regs, mem)
  {
    JumpLands(p, pc, pc + 1, regs, mem);
  }

  /** Back to the test from the end of a WHILE body. */
  lemma WhileBack<N>(p: Program<N>, x: nat, exit: nat, test: seq<Line<N>>, c: Operand<N>, body: seq<Line<N>>,
                     lbl: nat, pc: nat, regs: Regs<N>, mem: Mem<N>)
    requires Ready(p, x, exit) && LoopAt(p, test, c, body, [Jump(lbl)], lbl, pc)
    ensures Steps(p, At(pc + 4 + |test| + |body|, regs, mem), 1) == At(pc + 1, regs, mem)
  {
    SitsOne<N>(p, pc + 4 + |test| + |body|, Jump(lbl));
    JumpLands(p, pc + 4 + |test| + |body|, pc + 1, regs, mem);
  }

  /** Back to the test from the end of a FOR body, with the loop variable one larger. */
  lemma ForBack<N>(p: Program<N>, x: nat, exit: nat, slot: nat, r: nat, test: seq<Line<N>>, c: Operand<N>,
                   body: seq<Line<N>>, lbl: nat, pc: nat,
                   regs: Regs<N>, mem: Mem<N>) returns (regs': Regs<N>)
    requires Ready(p, x, exit) && LoopAt(p, test, c, body, ForStep(p.m, slot, r) + [Jump(lbl)], lbl, pc)
    ensures Steps(p, At(pc + 4 + |test| + |body|, regs, mem), 4) == At(pc + 1, regs', Bumped(p.m, mem, slot))
  {
    hide Straight, Steps, AllPlain, Bumped, LabelsUnique;
    var at := pc + 4 + |test| + |body|;
    var step := ForStep(p.m, slot, r);
    regs' := StepEffect(p.m, p.args, slot, r, regs, mem);
    BackRuns(p, x, exit, step, lbl, at, pc + 1, regs, mem, regs', Bumped(p.m, mem, slot));
  }

  lemma BackRuns<N>(p: Program<N>, x: nat, exit: nat, step: seq<Line<N>>, lbl: nat, at: nat, to: nat, regs: Regs<N>,
                    mem: Mem<N>, regs': Regs<N>, mem': Mem<N>)
    requires Ready(p, x, exit) && Sits(p, at, step + [Jump(lbl)]) && to < |p.code| && p.code[to] == Lab(lbl)
    requires AllPlain(step) && Straight(p.m, p.args, step, regs, mem) == Go(regs', mem')
    ensures Steps(p, At(at, regs, mem), |step| + 1) == At(to, regs', mem')
  {
    hide Straight, Sits, AllPlain, LabelsUnique, Labels, Steps, Step;
    SitsSplit(p, at, step, [Jump(lbl)]);
    LinesRun(p, step, at, regs, mem, regs', mem');
    SitsOne<N>(p, at + |step|, Jump(lbl));
    JumpLands(p, at + |step|, to, regs', mem');
    StepsThen(p, At(at, regs, mem), |step|, At(at + |step|, regs', mem'), 1, At(to, regs', mem'));
  }

  lemma StepEffect<N>(m: Numbers<N>, args: seq<N>, slot: nat, r: nat, regs: Regs<N>, mem: Mem<N>)
    returns (regs': Regs<N>)
    ensures Straight(m, args, ForStep(m, slot, r), regs, mem) == Go(regs', Bumped(m, mem, slot))
    ensures AllPlain(ForStep(m, slot, r))
  {
    var code := ForStep(m, slot, r);
    var v := Read(m, mem, slot);
    var r1 := regs[r := NumV(v)];
    regs' := r1[r + 1 := NumV(m.arith(Add, v, m.one))];
    assert code[1..][1..] == [code[2]];
    StraightOne(m, args, code[2], regs', mem);
    assert Straight(m, args, code[1..], r1, mem) == Straight(m, args, [code[2]], regs', mem);
  }

  lemma TestEffect<N>(m: Numbers<N>, args: seq<N>, slot: nat, r: nat, regs: Regs<N>, mem: Mem<N>)
    returns (regs': Regs<N>)
    ensures Straight(m, args, ForTest(slot, r), regs, mem) == Go(regs', mem)
    ensures Holds(regs', Reg(r + 2), BoolV(m.cmp(Le, Read(m, mem, slot), mem.hi)))
    ensures AllPlain<N>(ForTest(slot, r))
  {
    var code := ForTest<N>(slot, r);
    var r1 := regs[r := NumV(Read(m, mem, slot))];
    var r2 := r1[r + 1 := NumV(mem.hi)];
    regs' := r2[r + 2 := BoolV(m.cmp(Le, Read(m, mem, slot), mem.hi))];
    assert code[1..][1..] == [code[2]];
    StraightOne(m, args, code[2], r2, mem);
    assert Straight(m, args, code[1..], r1, mem) == Straight(m, args, [code[2]], r2, mem);
  }
}
