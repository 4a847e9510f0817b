/** One routine from source to machine: what the generated code of a summing loop computes. */
module JitSample {
  import opened Basics
  import opened JitAst
  import opened JitExec
  import opened JitMachine
  import opened JitLower
  import opened JitRoutines

  /** s1 > 0 AND NOT (s1 = 0) */
  function Positive(): Expr<int> {
    Bi(And, Bi(Compare(Gt), Var(1), Num(0)), Un(Not, Bi(Compare(Eq), Var(1), Num(0))))
  }

  /** IF s1 > 0 AND NOT (s1 = 0) THEN s2 := s2 + s1; ELSE s2 := 0; END IF; */
  function Body(): Block<int> {
    Then(If(Arm(Positive(), Then(Assign(2, Bi(Arith(Add), Var(2), Var(1))), End), Else(Then(Assign(2, Num(0)), End)))), End)
  }

  /** FOR s1 IN 1..s0 LOOP body END LOOP; RETURN s2; with s0 the one parameter. */
  function Summing(): Proc<int> { Proc(3, 1, Then(For(1, Num(1), Var(0), Body()), Then(Return(Var(2)), End))) }

  /** i + (i + 1) + ... + n */
  function Total(i: int, n: int): int
    decreases n - i
  {
    if i > n then 0 else i + Total(i + 1, n)
  }

  lemma OneTurn(mem: Mem<int>, fuel: nat)
    requires Read(Ints(), mem, 1) >= 1
    ensures ExecBlock(Ints(), true, Body(), mem, fuel)
         == Normal(Put(mem, 2, Read(Ints(), mem, 2) + Read(Ints(), mem, 1)), fuel)
  {
    var m := Ints();
    var add: Block<int> := Then(Assign(2, Bi(Arith(Add), Var(2), Var(1))), End);
    var mem1 := Put(mem, 2, Read(m, mem, 2) + Read(m, mem, 1));
    assert EvalBool(m, Positive(), mem);
    assert ExecBlock(m, true, add, mem, fuel) == Normal(mem1, fuel);
    assert Exec(m, true, Body().head, mem, fuel) == Normal(mem1, fuel);
  }

  lemma {:induction false} Turns(mem: Mem<int>, n: int, fuel: nat)
    requires Read(Ints(), mem, 1) >= 1 && mem.hi == n && fuel > n - Read(Ints(), mem, 1)
    ensures var o := ExecFor(Ints(), true, 1, n, Body(), mem, fuel);
            o.Normal? && Read(Ints(), o.mem, 2) == Read(Ints(), mem, 2) + Total(Read(Ints(), mem, 1), n)
    decreases n - Read(Ints(), mem, 1)
  {
    hide ExecBlock, Body;
    var m, i := Ints(), Read(Ints(), mem, 1);
    if i <= n {
      OneTurn(mem, fuel - 1);
      var mem1 := Bumped(m, Put(mem, 2, Read(m, mem, 2) + i), 1);
      assert Read(m, mem1, 1) == i + 1 && Read(m, mem1, 2) == Read(m, mem, 2) + i && mem1.hi == n;
      Turns(mem1, n, fuel - 1);
    }
  }

  lemma SummingReturns(n: int, mem: Mem<int>, fuel: nat)
    requires fuel > n && fuel > 0
    ensures Result(Ints(), true, Summing(), [n], mem, fuel) == Some(Total(1, n))
  {
    var m := Ints();
    var mem0 := Entry(m, 3, 1, [n], mem);
    EntryReads(m, 3, 1, [n], mem, 0);
    EntryReads(m, 3, 1, [n], mem, 2);
    hide Entry, Body, ExecFor;
    var mem1 := Put(mem0, 1, 1).(hi := n);
    Turns(mem1, n, fuel);
    var o := ExecFor(m, true, 1, n, Body(), mem1, fuel);
    var loop: Stmt<int> := For(1, Num(1), Var(0), Body());
    assert Exec(m, true, loop, mem0, fuel) == o;
    var ret: Block<int> := Then(Return(Var(2)), End);
    assert ExecBlock(m, true, ret, o.mem, o.left) == Returned(o.mem.(ret := Read(m, o.mem, 2)), o.left);
  }

  lemma SummingSupported()
    ensures SupportedBlock(Summing().body) && Summing().nparams == 1
  {
    assert Supported(Positive());
  }

  /** The code generated for the summing routine halts with the sum, for every argument. */
  lemma SummingCode(n: int, regs: Regs<int>, mem: Mem<int>)
    ensures exists k: nat :: Steps(Compiled(Ints(), Summing(), [n]), At(0, regs, mem), k) == Halted(Total(1, n))
  {
    hide Result, Steps, Compiled, SupportedBlock, Summing, Total, Ints;
    var fuel: nat := if n > 0 then n + 1 else 1;
    SummingSupported();
    SummingReturns(n, mem, fuel);
    LoweringCorrect(Ints(), Summing(), [n], regs, mem, Total(1, n));
  }

  lemma {:induction false} TotalIs(i: int, n: int)
    requires i <= n + 1
    ensures 2 * Total(i, n) == (n - i + 1) * (n + i)
    decreases n - i
  {
    if i <= n { TotalIs(i + 1, n); }
  }
}
