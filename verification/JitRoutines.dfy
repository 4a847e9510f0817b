/** Whole routines: set-up, body, exit. The main results about the JIT lowering. */
module JitRoutines {
  import opened Basics
  import opened JitAst
  import opened JitExec
  import opened JitMachine
  import opened JitLower
  import opened JitShape
  import opened JitExprs
  import opened JitSim
  import opened JitCorrect

  /** Memory when the body starts: parameters hold the arguments, other slots zero. */
  ghost function Entry<N>(m: Numbers<N>, n: nat, nparams: nat, args: seq<N>, mem: Mem<N>): Mem<N>
    requires nparams <= |args|
  {
    if n == 0 then mem.(ret := m.zero)
    else Put(Entry(m, n - 1, nparams, args, mem), n - 1, if n - 1 < nparams then args[n - 1] else m.zero)
  }

  lemma {:induction false} EntryReads<N>(m: Numbers<N>, n: nat, nparams: nat, args: seq<N>, mem: Mem<N>, i: nat)
    requires nparams <= |args| && i < n
    ensures Read(m, Entry(m, n, nparams, args, mem), i) == if i < nparams then args[i] else m.zero
  {
    if i < n - 1 { EntryReads(m, n - 1, nparams, args, mem, i); }
  }

  /**
   What a routine returns: the stored value, or zero when it ends without RETURN; None if the
   fuel does not suffice. `mem` is whatever memory held before.
   */
  ghost function Result<N>(m: Numbers<N>, shared: bool, proc: Proc<N>, args: seq<N>, mem: Mem<N>, fuel: nat): Option<N>
    requires proc.nparams <= |args|
  {
    var o := ExecBlock(m, shared, proc.body, Entry(m, proc.nslots, proc.nparams, args, mem), fuel);
    if o.Timeout? then None else Some(o.mem.ret)
  }

  function Compiled<N>(m: Numbers<N>, proc: Proc<N>, args: seq<N>): Program<N> { Program(m, ProcCode(m, proc), args) }

  // ------------------------------------- set-up -------------------------------------

  lemma {:induction false} PrologueRuns<N>(p: Program<N>, n: nat, nparams: nat, regs: Regs<N>, mem: Mem<N>)
    requires nparams <= |p.args| && Sits(p, 0, Prologue(p.m, n, nparams))
    ensures |Prologue(p.m, n, nparams)| == n + 2
    ensures Steps(p, At(0, regs, mem), n + 2) == At(n + 2, regs, Entry(p.m, n, nparams, p.args, mem))
  {
    if n == 0 {
      SitsTwo<N>(p, 0, Lab(0), StoreRet(Const(p.m.zero)));
      LabelFalls(p, 0, regs, mem);
      StepsOne(p, At(1, regs, mem));
      StepsThen(p, At(0, regs, mem), 1, At(1, regs, mem), 1, At(2, regs, mem.(ret := p.m.zero)));
    } else {
      SitsSplit(p, 0, Prologue(p.m, n - 1, nparams), [Init(p.m, n - 1, nparams)]);
      PrologueRuns(p, n - 1, nparams, regs, mem);
      SitsOne(p, n + 1, Init(p.m, n - 1, nparams));
      var mem1, mem2 := Entry(p.m, n - 1, nparams, p.args, mem), Entry(p.m, n, nparams, p.args, mem);
      InitRuns(p, n - 1, nparams, regs, mem1);
      StepsThen(p, At(0, regs, mem), n + 1, At(n + 1, regs, mem1), 1, At(n + 2, regs, mem2));
    }
  }

  lemma InitRuns<N>(p: Program<N>, i: nat, nparams: nat, regs: Regs<N>, mem: Mem<N>)
    requires nparams <= |p.args| && i + 2 < |p.code| && p.code[i + 2] == Init(p.m, i, nparams)
    ensures Steps(p, At(i + 2, regs, mem), 1) == At(i + 3, regs, Put(mem, i, if i < nparams then p.args[i] else p.m.zero))
  {
    StepsOne(p, At(i + 2, regs, mem));
  }

  /** Where the body and the exit stand. */
  lemma Layout<N>(p: Program<N>, proc: Proc<N>) returns (x: nat)
    requires p.code == ProcCode(p.m, proc)
    ensures var k := ProcOut(p.m, proc); var pro := Prologue(p.m, proc.nslots, proc.nparams);
            && Sits(p, 0, pro) && Sits(p, |pro|, k.code) && x + 3 == |p.code|
            && p.code[x] == Lab(1) && p.code[x + 1] == LoadRet(k.reg) && p.code[x + 2] == Ret(Reg(k.reg))
            && (!k.term ==> x == |pro| + |k.code| + 1 && p.code[|pro| + |k.code|] == Jump(1))
  {
    hide Prologue, BlockCode;
    var k, pro := ProcOut(p.m, proc), Prologue(p.m, proc.nslots, proc.nparams);
    var back, epi: seq<Line<N>> := JumpIfOpen(k.term, 1), [Lab(1), LoadRet(k.reg), Ret(Reg(k.reg))];
    assert p.code == pro + k.code + back + epi;
    x := |pro| + |k.code| + |back|;
  }

  /** From the exit label: the return slot is loaded and returned. */
  lemma ExitRuns<N>(p: Program<N>, x: nat, r: nat, regs: Regs<N>, mem: Mem<N>)
    requires x + 3 == |p.code| && p.code[x] == Lab(1) && p.code[x + 1] == LoadRet(r) && p.code[x + 2] == Ret(Reg(r))
    ensures Steps(p, At(x, regs, mem), 3) == Halted(mem.ret)
  {
    var regs' := regs[r := NumV(mem.ret)];
    LabelFalls(p, x, regs, mem);
    StepsOne(p, At(x + 1, regs, mem));
    StepsThen(p, At(x, regs, mem), 1, At(x + 1, regs, mem), 1, At(x + 2, regs', mem));
    StepsOne(p, At(x + 2, regs', mem));
    StepsThen(p, At(x, regs, mem), 2, At(x + 2, regs', mem), 1, Halted(mem.ret));
  }

  // ----------------------------------- main results -----------------------------------

  /**
   With fuel that suffices the machine halts with the routine's result; otherwise it is still
   running after as many steps.
   */
  lemma Follows<N>(m: Numbers<N>, proc: Proc<N>, args: seq<N>, regs: Regs<N>, mem: Mem<N>, fuel: nat) returns (n: nat)
    requires SupportedBlock(proc.body) && proc.nparams <= |args|
    ensures var c := Steps(Compiled(m, proc, args), At(0, regs, mem), n); var r := Result(m, true, proc, args, mem, fuel);
            if r.Some? then c == Halted(r.value) else c.At? && n >= fuel
  {
    hide BlockCode, ExecBlock, ProcCode, Prologue, Steps;
    var p := Compiled(m, proc, args);
    var x := Layout(p, proc);
    WellFormed(m, proc);
    var k, at := ProcOut(m, proc), proc.nslots + 2;
    PrologueRuns(p, proc.nslots, proc.nparams, regs, mem);
    var mem1 := Entry(m, proc.nslots, proc.nparams, args, mem);
    var n1, c1 := BodyRuns(p, x, proc, at, regs, mem1, fuel);
    StepsThen(p, At(0, regs, mem), at, At(at, regs, mem1), n1, c1);
    n := at + n1;
    if !ExecBlock(m, true, proc.body, mem1, fuel).Timeout? {
      ExitRuns(p, x, k.reg, c1.regs, c1.mem);
      StepsThen(p, At(0, regs, mem), n, c1, 3, Halted(c1.mem.ret));
      n := n + 3;
    }
  }

  /** The body, up to the exit label whether or not it returns. */
  lemma BodyRuns<N>(p: Program<N>, x: nat, proc: Proc<N>, at: nat, regs: Regs<N>, mem: Mem<N>, fuel: nat)
    returns (n: nat, c: Conf<N>)
    requires LabelsUnique(p.code) && x < |p.code| && p.code[x] == Lab(1) && SupportedBlock(proc.body)
    requires var k := ProcOut(p.m, proc); Sits(p, at, k.code) && (!k.term ==> at + |k.code| < |p.code| && p.code[at + |k.code|] == Jump(1))
    ensures Steps(p, At(at, regs, mem), n) == c
    ensures Lands(ExecBlock(p.m, true, proc.body, mem, fuel), c, n, fuel, x, x)
  {
    hide Sits, BlockCode, ExecBlock, LabelsUnique, Steps;
    n, c := SimBody(p, x, 1, x, 1, proc.body, 0, 2, at, regs, mem, fuel);
  }

  /**
   Compiler correctness. For every supported routine, all arguments and whatever registers and
   memory held before: the machine halts with `v` exactly when the routine returns `v`, and it
   never gets stuck.
   */
  lemma LoweringCorrect<N>(m: Numbers<N>, proc: Proc<N>, args: seq<N>, regs: Regs<N>, mem: Mem<N>, v: N)
    requires SupportedBlock(proc.body) && proc.nparams <= |args|
    ensures (exists n: nat :: Steps(Compiled(m, proc, args), At(0, regs, mem), n) == Halted(v))
       <==> (exists fuel: nat :: Result(m, true, proc, args, mem, fuel) == Some(v))
    ensures forall n: nat :: !Steps(Compiled(m, proc, args), At(0, regs, mem), n).Stuck?
  {
    hide Result, Steps, Compiled;
    var p := Compiled(m, proc, args);
    forall n: nat ensures !Steps(p, At(0, regs, mem), n).Stuck? { Settles(m, proc, args, regs, mem, n); }
    if n: nat :| Steps(p, At(0, regs, mem), n) == Halted(v) {
      Settles(m, proc, args, regs, mem, n);
      assert Result(m, true, proc, args, mem, n + 1) == Some(v);
    }
    if fuel: nat :| Result(m, true, proc, args, mem, fuel) == Some(v) {
      var n := Follows(m, proc, args, regs, mem, fuel);
      assert Steps(p, At(0, regs, mem), n) == Halted(v);
    }
  }

  lemma Settles<N>(m: Numbers<N>, proc: Proc<N>, args: seq<N>, regs: Regs<N>, mem: Mem<N>, n: nat)
    requires SupportedBlock(proc.body) && proc.nparams <= |args|
    ensures var c := Steps(Compiled(m, proc, args), At(0, regs, mem), n);
            !c.Stuck? && (c.Halted? ==> Result(m, true, proc, args, mem, n + 1) == Some(c.v))
  {
    hide Result, Steps, Compiled;
    var p := Compiled(m, proc, args);
    var c := Steps(p, At(0, regs, mem), n);
    var k := Follows(m, proc, args, regs, mem, n + 1);
    var d := Steps(p, At(0, regs, mem), k);
    if k <= n { Stops(p, At(0, regs, mem), k, n); } else { Stops(p, At(0, regs, mem), n, k); }
  }

  /** A machine that has stopped by step `a` is in the same state at every later step. */
  lemma Stops<N>(p: Program<N>, c: Conf<N>, a: nat, b: nat)
    requires a <= b
    ensures !Steps(p, c, a).At? ==> Steps(p, c, b) == Steps(p, c, a)
  {
    StepsAdd(p, c, a, b - a);
    if !Steps(p, c, a).At? { HaltedStays(p, Steps(p, c, a), b - a); }
  }

  /**
   With no FOR loop inside another, the same holds of the routine as written, in which every
   FOR loop has a bound of its own.
   */
  lemma FlatLoweringCorrect<N>(m: Numbers<N>, proc: Proc<N>, args: seq<N>, regs: Regs<N>, mem: Mem<N>, v: N)
    requires SupportedBlock(proc.body) && proc.nparams <= |args| && BlockFlat(proc.body)
    ensures (exists n: nat :: Steps(Compiled(m, proc, args), At(0, regs, mem), n) == Halted(v))
       <==> (exists fuel: nat :: Result(m, false, proc, args, mem, fuel) == Some(v))
  {
    forall fuel: nat ensures Result(m, true, proc, args, mem, fuel) == Result(m, false, proc, args, mem, fuel) {
      SameResult(m, proc, args, mem, fuel);
    }
    ByLowering(m, proc, args, regs, mem, v);
  }

  lemma SameResult<N>(m: Numbers<N>, proc: Proc<N>, args: seq<N>, mem: Mem<N>, fuel: nat)
    requires proc.nparams <= |args| && BlockFlat(proc.body)
    ensures Result(m, true, proc, args, mem, fuel) == Result(m, false, proc, args, mem, fuel)
  {
    BlockSharesSafely(m, proc.body, Entry(m, proc.nslots, proc.nparams, args, mem), fuel);
  }

  lemma ByLowering<N>(m: Numbers<N>, proc: Proc<N>, args: seq<N>, regs: Regs<N>, mem: Mem<N>, v: N)
    requires SupportedBlock(proc.body) && proc.nparams <= |args|
    requires forall fuel: nat :: Result(m, true, proc, args, mem, fuel) == Result(m, false, proc, args, mem, fuel)
    ensures (exists n: nat :: Steps(Compiled(m, proc, args), At(0, regs, mem), n) == Halted(v))
       <==> (exists fuel: nat :: Result(m, false, proc, args, mem, fuel) == Some(v))
  {
    hide Result, Steps, Compiled;
    LoweringCorrect(m, proc, args, regs, mem, v);
    forall fuel: nat | Result(m, false, proc, args, mem, fuel) == Some(v) ensures exists f: nat :: Result(m, true, proc, args, mem, f) == Some(v) {
      assert Result(m, true, proc, args, mem, fuel) == Some(v);
    }
  }
}
