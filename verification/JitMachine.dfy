/**
 The generated code: a flat list of lines in which a label opens a basic block, and the machine
 that runs it. A machine that reads a register no line has written, or jumps to a label that
 does not exist, is stuck.
 */
module JitMachine {
  import opened JitAst

  datatype Operand<N> = Reg(r: nat) | Const(v: N)

  datatype Line<N> =
    | Lab(l: nat)
    | Load(d: nat, slot: nat)
    | LoadHi(d: nat)
    | LoadRet(d: nat)
    | Store(slot: nat, x: Operand<N>)
    | StoreHi(x: Operand<N>)
    | StoreRet(x: Operand<N>)
    | StoreArg(slot: nat, arg: nat)
    | Bin(d: nat, aop: ArithOp, x: Operand<N>, y: Operand<N>)
    | Fneg(d: nat, x: Operand<N>)
    | Fcmp(d: nat, cop: CmpOp, x: Operand<N>, y: Operand<N>)
    | Logic(d: nat, conj: bool, p: Operand<N>, q: Operand<N>)
    | Xor(d: nat, p: Operand<N>)
    | ToDouble(d: nat, p: Operand<N>)
    | Call(d: nat, name: string, x: Operand<N>)
    | Pow(d: nat, x: Operand<N>, y: Operand<N>)
    | Select(d: nat, c: Operand<N>, x: Operand<N>, y: Operand<N>)
    | Jump(t: nat)
    | Branch(c: Operand<N>, t: nat, f: nat)
    | Ret(x: Operand<N>)

  predicate Terminator<N>(i: Line<N>) { i.Jump? || i.Branch? || i.Ret? }

  /** Lines that neither open nor end a block. */
  predicate Plain<N>(i: Line<N>) { !i.Lab? && !Terminator(i) }

  datatype Val<N> = NumV(n: N) | BoolV(b: bool)
  type Regs<N> = map<nat, Val<N>>

  predicate HasNum<N>(regs: Regs<N>, x: Operand<N>) { x.Reg? ==> x.r in regs && regs[x.r].NumV? }

  predicate HasBool<N>(regs: Regs<N>, x: Operand<N>) { x.Reg? && x.r in regs && regs[x.r].BoolV? }

  function NumOf<N>(regs: Regs<N>, x: Operand<N>): N
    requires HasNum(regs, x)
  {
    if x.Const? then x.v else regs[x.r].n
  }

  function BoolOf<N>(regs: Regs<N>, x: Operand<N>): bool
    requires HasBool(regs, x)
  {
    regs[x.r].b
  }

  datatype Flow<N> = Go(regs: Regs<N>, mem: Mem<N>) | Bad

  /** The effect of one plain line. */
  function Effect<N>(m: Numbers<N>, args: seq<N>, i: Line<N>, regs: Regs<N>, mem: Mem<N>): Flow<N> {
    match i
    case Load(d, slot) => Go(regs[d := NumV(if slot in mem.slots then mem.slots[slot] else m.zero)], mem)
    case LoadHi(d) => Go(regs[d := NumV(mem.hi)], mem)
    case LoadRet(d) => Go(regs[d := NumV(mem.ret)], mem)
    case Store(slot, x) => if HasNum(regs, x) then Go(regs, mem.(slots := mem.slots[slot := NumOf(regs, x)])) else Bad
    case StoreHi(x) => if HasNum(regs, x) then Go(regs, mem.(hi := NumOf(regs, x))) else Bad
    case StoreRet(x) => if HasNum(regs, x) then Go(regs, mem.(ret := NumOf(regs, x))) else Bad
    case StoreArg(slot, a) => if a < |args| then Go(regs, mem.(slots := mem.slots[slot := args[a]])) else Bad
    case Bin(d, op, x, y) =>
      if HasNum(regs, x) && HasNum(regs, y) then Go(regs[d := NumV(m.arith(op, NumOf(regs, x), NumOf(regs, y)))], mem) else Bad
    case Fneg(d, x) => if HasNum(regs, x) then Go(regs[d := NumV(m.neg(NumOf(regs, x)))], mem) else Bad
    case Fcmp(d, op, x, y) =>
      if HasNum(regs, x) && HasNum(regs, y) then Go(regs[d := BoolV(m.cmp(op, NumOf(regs, x), NumOf(regs, y)))], mem) else Bad
    case Logic(d, conj, p, q) =>
      if HasBool(regs, p) && HasBool(regs, q)
      then Go(regs[d := BoolV(if conj then BoolOf(regs, p) && BoolOf(regs, q) else BoolOf(regs, p) || BoolOf(regs, q))], mem) else Bad
    case Xor(d, p) => if HasBool(regs, p) then Go(regs[d := BoolV(!BoolOf(regs, p))], mem) else Bad
    case ToDouble(d, p) => if HasBool(regs, p) then Go(regs[d := NumV(if BoolOf(regs, p) then m.one else m.zero)], mem) else Bad
    case Call(d, name, x) => if HasNum(regs, x) then Go(regs[d := NumV(m.intr(name, NumOf(regs, x)))], mem) else Bad
    case Pow(d, x, y) =>
      if HasNum(regs, x) && HasNum(regs, y) then Go(regs[d := NumV(m.pow(NumOf(regs, x), NumOf(regs, y)))], mem) else Bad
    case Select(d, c, x, y) =>
      if HasBool(regs, c) && HasNum(regs, x) && HasNum(regs, y)
      then Go(regs[d := NumV(if BoolOf(regs, c) then NumOf(regs, x) else NumOf(regs, y))], mem) else Bad
    case _ => Bad
  }

  /** Plain lines one after another. */
  function Straight<N>(m: Numbers<N>, args: seq<N>, code: seq<Line<N>>, regs: Regs<N>, mem: Mem<N>): Flow<N> {
    if code == [] then Go(regs, mem)
    else
      var f := Effect(m, args, code[0], regs, mem);
      if f.Bad? then Bad else Straight(m, args, code[1..], f.regs, f.mem)
  }

  lemma {:induction false} StraightSplit<N>(m: Numbers<N>, args: seq<N>, a: seq<Line<N>>, b: seq<Line<N>>,
                                            regs: Regs<N>, mem: Mem<N>)
    ensures var f := Straight(m, args, a, regs, mem);
            Straight(m, args, a + b, regs, mem) == if f.Bad? then Bad else Straight(m, args, b, f.regs, f.mem)
  {
    if a == [] {
      assert a + b == b;
    } else {
      assert (a + b)[0] == a[0] && (a + b)[1..] == a[1..] + b;
      var f := Effect(m, args, a[0], regs, mem);
      if f.Go? { StraightSplit(m, args, a[1..], b, f.regs, f.mem); }
    }
  }

  lemma StraightOne<N>(m: Numbers<N>, args: seq<N>, i: Line<N>, regs: Regs<N>, mem: Mem<N>)
    ensures Straight(m, args, [i], regs, mem) == Effect(m, args, i, regs, mem)
  {
    var f := Effect(m, args, i, regs, mem);
    if f.Go? { assert Straight(m, args, [], f.regs, f.mem) == f; }
    assert [i][1..] == [];
  }

  // ---------------------------------- whole programs ----------------------------------

  datatype Program<!N> = Program(m: Numbers<N>, code: seq<Line<N>>, args: seq<N>)

  datatype Conf<N> = At(pc: nat, regs: Regs<N>, mem: Mem<N>) | Halted(v: N) | Stuck

  /** Where a label is defined; the end of the code, where nothing runs, if nowhere. */
  function Find<N>(code: seq<Line<N>>, l: nat): (i: nat)
    ensures i <= |code|
    ensures i < |code| ==> code[i] == Lab(l)
  {
    if code == [] then 0
    else if code[0].Lab? && code[0].l == l then 0
    else 1 + Find(code[1..], l)
  }

  function Step<N>(p: Program<N>, c: Conf<N>): Conf<N> {
    if !c.At? then c
    else if c.pc >= |p.code| then Stuck
    else
      var i := p.code[c.pc];
      match i
      case Lab(_) => c.(pc := c.pc + 1)
      case Jump(t) => c.(pc := Find(p.code, t))
      case Branch(r, t, f) => if HasBool(c.regs, r) then c.(pc := Find(p.code, if BoolOf(c.regs, r) then t else f)) else Stuck
      case Ret(x) => if HasNum(c.regs, x) then Halted(NumOf(c.regs, x)) else Stuck
      case _ =>
        var f := Effect(p.m, p.args, i, c.regs, c.mem);
        if f.Bad? then Stuck else At(c.pc + 1, f.regs, f.mem)
  }

  ghost function Steps<N>(p: Program<N>, c: Conf<N>, n: nat): Conf<N>
    decreases n
  {
    if n == 0 then c else Steps(p, Step(p, c), n - 1)
  }

  lemma {:induction false} StepsAdd<N>(p: Program<N>, c: Conf<N>, n: nat, k: nat)
    ensures Steps(p, c, n + k) == Steps(p, Steps(p, c, n), k)
    decreases n
  {
    if n > 0 { StepsAdd(p, Step(p, c), n - 1, k); }
  }

  lemma StepsOne<N>(p: Program<N>, c: Conf<N>)
    ensures Steps(p, c, 1) == Step(p, c)
  {
    assert Steps(p, Step(p, c), 0) == Step(p, c);
  }

  /** Once halted the machine stays as it is. */
  lemma {:induction false} HaltedStays<N>(p: Program<N>, c: Conf<N>, n: nat)
    requires !c.At?
    ensures Steps(p, c, n) == c
  {
    if n > 0 { HaltedStays(p, c, n - 1); }
  }

  /** The code of the program from `pc` on begins with `part`. */
  ghost predicate Sits<N>(p: Program<N>, pc: nat, part: seq<Line<N>>) {
    pc + |part| <= |p.code| && p.code[pc..pc + |part|] == part
  }

  lemma SitsSplit<N>(p: Program<N>, pc: nat, a: seq<Line<N>>, b: seq<Line<N>>)
    requires Sits(p, pc, a + b)
    ensures Sits(p, pc, a) && Sits(p, pc + |a|, b)
  {
    assert p.code[pc..pc + |a|] == (a + b)[..|a|] == a;
    assert p.code[pc + |a|..pc + |a| + |b|] == (a + b)[|a|..] == b;
  }

  lemma SitsOne<N>(p: Program<N>, pc: nat, i: Line<N>)
    requires Sits(p, pc, [i])
    ensures pc < |p.code| && p.code[pc] == i
  {
    assert p.code[pc..pc + 1][0] == i;
  }

  predicate AllPlain<N>(code: seq<Line<N>>) { forall i :: 0 <= i < |code| ==> Plain(code[i]) }

  /** A stretch of plain lines takes one step per line. */
  lemma {:induction false} StepsStraight<N>(p: Program<N>, part: seq<Line<N>>, pc: nat, regs: Regs<N>, mem: Mem<N>)
    requires Sits(p, pc, part) && AllPlain(part)
    requires Straight(p.m, p.args, part, regs, mem).Go?
    ensures var f := Straight(p.m, p.args, part, regs, mem);
            Steps(p, At(pc, regs, mem), |part|) == At(pc + |part|, f.regs, f.mem)
  {
    if part != [] {
      assert part == [part[0]] + part[1..];
      SitsSplit(p, pc, [part[0]], part[1..]);
      SitsOne(p, pc, part[0]);
      assert Plain(part[0]) && AllPlain(part[1..]);
      var f := Effect(p.m, p.args, part[0], regs, mem);
      StepsStraight(p, part[1..], pc + 1, f.regs, f.mem);
      OneEffect(p, pc, regs, mem);
    }
  }

  lemma OneEffect<N>(p: Program<N>, pc: nat, regs: Regs<N>, mem: Mem<N>)
    requires pc < |p.code| && Plain(p.code[pc])
    ensures var f := Effect(p.m, p.args, p.code[pc], regs, mem);
            Step(p, At(pc, regs, mem)) == if f.Bad? then Stuck else At(pc + 1, f.regs, f.mem)
  {
  }

  // ------------------------------------ labels ------------------------------------

  function Labels<N>(code: seq<Line<N>>): multiset<nat> {
    if code == [] then multiset{}
    else (if code[0].Lab? then multiset{code[0].l} else multiset{}) + Labels(code[1..])
  }

  lemma {:induction false} LabelsConcat<N>(a: seq<Line<N>>, b: seq<Line<N>>)
    ensures Labels(a + b) == Labels(a) + Labels(b)
  {
    if a == [] {
      assert a + b == b;
    } else {
      assert (a + b)[0] == a[0] && (a + b)[1..] == a[1..] + b;
      LabelsConcat(a[1..], b);
    }
  }

  lemma {:induction false} LabelCounted<N>(code: seq<Line<N>>, i: nat)
    requires i < |code| && code[i].Lab?
    ensures Labels(code)[code[i].l] >= 1
  {
    if i > 0 { LabelCounted(code[1..], i - 1); }
  }

  /** No label is defined twice. */
  ghost predicate LabelsUnique<N>(code: seq<Line<N>>) {
    forall l: nat :: Labels(code)[l] <= 1
  }

  lemma {:induction false} FindIs<N>(code: seq<Line<N>>, i: nat)
    requires i < |code| && code[i].Lab? && Labels(code)[code[i].l] <= 1
    ensures Find(code, code[i].l) == i
  {
    if i > 0 {
      LabelCounted(code[1..], i - 1);
      FindIs(code[1..], i - 1);
    }
  }

  /** A jump to a label that is defined once lands on it. */
  lemma JumpLands<N>(p: Program<N>, pc: nat, at: nat, regs: Regs<N>, mem: Mem<N>)
    requires LabelsUnique(p.code) && pc < |p.code| && at < |p.code| && p.code[at].Lab?
             && p.code[pc] == Jump(p.code[at].l)
    ensures Steps(p, At(pc, regs, mem), 1) == At(at, regs, mem)
  {
    FindIs(p.code, at);
    StepsOne(p, At(pc, regs, mem));
  }

  lemma LabelFalls<N>(p: Program<N>, pc: nat, regs: Regs<N>, mem: Mem<N>)
    requires pc < |p.code| && p.code[pc].Lab?
    ensures Steps(p, At(pc, regs, mem), 1) == At(pc + 1, regs, mem)
  {
    StepsOne(p, At(pc, regs, mem));
  }

  lemma BranchLands<N>(p: Program<N>, pc: nat, at: nat, regs: Regs<N>, mem: Mem<N>)
    requires LabelsUnique(p.code) && pc < |p.code| && p.code[pc].Branch? && HasBool(regs, p.code[pc].c)
    requires at < |p.code| && p.code[at] == Lab(if BoolOf(regs, p.code[pc].c) then p.code[pc].t else p.code[pc].f)
    ensures Steps(p, At(pc, regs, mem), 1) == At(at, regs, mem)
  {
    FindIs(p.code, at);
    StepsOne(p, At(pc, regs, mem));
  }
}
