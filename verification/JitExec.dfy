/**
 What structured routines do. Execution carries fuel, one unit per loop iteration, so that it is
 a total function; a routine terminates when some amount of fuel suffices.
 */
module JitExec {
  import opened JitAst

  /** `left` is the fuel that remains. */
  datatype Outcome<N> = Normal(mem: Mem<N>, left: nat) | Returned(mem: Mem<N>, left: nat) | Timeout

  ghost function Put<N>(mem: Mem<N>, slot: nat, v: N): Mem<N> {
    mem.(slots := mem.slots[slot := v])
  }

  /**
   `shared` selects where a FOR loop finds its bound: in the one cell that every FOR loop of
   the routine stores to, as the generated code does, or in a cell of its own.
   */
  ghost function Exec<N>(m: Numbers<N>, shared: bool, s: Stmt<N>, mem: Mem<N>, fuel: nat): (o: Outcome<N>)
    ensures !o.Timeout? ==> o.left <= fuel
    decreases fuel, s, 1
  {
    match s
    case Skip => Normal(mem, fuel)
    case Assign(slot, e) => Normal(Put(mem, slot, EvalNum(m, e, mem)), fuel)
    case Return(e) => Returned(mem.(ret := EvalNum(m, e, mem)), fuel)
    case ReturnNothing => Returned(mem.(ret := m.zero), fuel)
    case If(arms) => ExecArms(m, shared, arms, mem, fuel)
    case While(c, body) =>
      if !EvalBool(m, c, mem) then Normal(mem, fuel)
      else if fuel == 0 then Timeout
      else
        var o := ExecBlock(m, shared, body, mem, fuel - 1);
        if o.Normal? then Exec(m, shared, s, o.mem, o.left) else o
    case For(slot, lo, hi, body) =>
      var mem1 := Put(mem, slot, EvalNum(m, lo, mem));
      var h := EvalNum(m, hi, mem1);
      ExecFor(m, shared, slot, h, body, mem1.(hi := h), fuel)
  }

  ghost function ExecFor<N>(m: Numbers<N>, shared: bool, slot: nat, h: N, body: Block<N>, mem: Mem<N>,
                            fuel: nat): (o: Outcome<N>)
    ensures !o.Timeout? ==> o.left <= fuel
    decreases fuel, body, 1
  {
    if !m.cmp(Le, Read(m, mem, slot), if shared then mem.hi else h) then Normal(mem, fuel)
    else if fuel == 0 then Timeout
    else
      var o := ExecBlock(m, shared, body, mem, fuel - 1);
      if o.Normal? then ExecFor(m, shared, slot, h, body, Bumped(m, o.mem, slot), o.left) else o
  }

  ghost function Bumped<N>(m: Numbers<N>, mem: Mem<N>, slot: nat): Mem<N> {
    Put(mem, slot, m.arith(Add, Read(m, mem, slot), m.one))
  }

  ghost function ExecBlock<N>(m: Numbers<N>, shared: bool, b: Block<N>, mem: Mem<N>, fuel: nat): (o: Outcome<N>)
    ensures !o.Timeout? ==> o.left <= fuel
    decreases fuel, b, 0
  {
    match b
    case End => Normal(mem, fuel)
    case Then(s, rest) =>
      var o := Exec(m, shared, s, mem, fuel);
      if o.Normal? then ExecBlock(m, shared, rest, o.mem, o.left) else o
  }

  ghost function ExecArms<N>(m: Numbers<N>, shared: bool, arms: Arms<N>, mem: Mem<N>, fuel: nat): (o: Outcome<N>)
    ensures !o.Timeout? ==> o.left <= fuel
    decreases fuel, arms, 0
  {
    match arms
    case Else(body) => ExecBlock(m, shared, body, mem, fuel)
    case Arm(c, body, rest) =>
      if EvalBool(m, c, mem) then ExecBlock(m, shared, body, mem, fuel) else ExecArms(m, shared, rest, mem, fuel)
  }

  // --------------------------- one bound cell for every FOR ---------------------------

  /** No FOR loop anywhere inside; `BlockFlat` forbids only a FOR inside another FOR. */
  predicate NoFor<N>(s: Stmt<N>) {
    match s
    case If(arms) => ArmsNoFor(arms)
    case While(_, body) => BlockNoFor(body)
    case For(_, _, _, _) => false
    case _ => true
  }

  predicate BlockNoFor<N>(b: Block<N>) { b.End? || (NoFor(b.head) && BlockNoFor(b.tail)) }

  predicate ArmsNoFor<N>(a: Arms<N>) { BlockNoFor(a.body) && (a.Else? || ArmsNoFor(a.rest)) }

  predicate Flat<N>(s: Stmt<N>) {
    match s
    case If(arms) => ArmsFlat(arms)
    case While(_, body) => BlockFlat(body)
    case For(_, _, _, body) => BlockNoFor(body)
    case _ => true
  }

  predicate BlockFlat<N>(b: Block<N>) { b.End? || (Flat(b.head) && BlockFlat(b.tail)) }

  predicate ArmsFlat<N>(a: Arms<N>) { BlockFlat(a.body) && (a.Else? || ArmsFlat(a.rest)) }

  /** Without FOR the bound cell is neither read nor written. */
  ghost predicate HiKept<N>(mem: Mem<N>, o: Outcome<N>) { o.Normal? ==> o.mem.hi == mem.hi }

  lemma {:induction false} NoForKeepsHi<N>(m: Numbers<N>, s: Stmt<N>, mem: Mem<N>, fuel: nat)
    requires NoFor(s)
    ensures Exec(m, true, s, mem, fuel) == Exec(m, false, s, mem, fuel)
    ensures HiKept(mem, Exec(m, true, s, mem, fuel))
    decreases fuel, s, 1
  {
    match s {
      case If(arms) => ArmsKeepHi(m, arms, mem, fuel);
      case While(c, body) =>
        if EvalBool(m, c, mem) && fuel > 0 {
          BlockKeepsHi(m, body, mem, fuel - 1);
          var o := ExecBlock(m, true, body, mem, fuel - 1);
          if o.Normal? { NoForKeepsHi(m, s, o.mem, o.left); }
        }
      case _ =>
    }
  }

  lemma {:induction false} BlockKeepsHi<N>(m: Numbers<N>, b: Block<N>, mem: Mem<N>, fuel: nat)
    requires BlockNoFor(b)
    ensures ExecBlock(m, true, b, mem, fuel) == ExecBlock(m, false, b, mem, fuel)
    ensures HiKept(mem, ExecBlock(m, true, b, mem, fuel))
    decreases fuel, b, 0
  {
    if b.Then? {
      NoForKeepsHi(m, b.head, mem, fuel);
      var o := Exec(m, true, b.head, mem, fuel);
      if o.Normal? { BlockKeepsHi(m, b.tail, o.mem, o.left); }
    }
  }

  lemma {:induction false} ArmsKeepHi<N>(m: Numbers<N>, a: Arms<N>, mem: Mem<N>, fuel: nat)
    requires ArmsNoFor(a)
    ensures ExecArms(m, true, a, mem, fuel) == ExecArms(m, false, a, mem, fuel)
    ensures HiKept(mem, ExecArms(m, true, a, mem, fuel))
    decreases fuel, a, 0
  {
    BlockKeepsHi(m, a.body, mem, fuel);
    if a.Arm? { ArmsKeepHi(m, a.rest, mem, fuel); }
  }

  lemma {:induction false} ForBoundKept<N>(m: Numbers<N>, slot: nat, h: N, body: Block<N>, mem: Mem<N>, fuel: nat)
    requires BlockNoFor(body) && mem.hi == h
    ensures ExecFor(m, true, slot, h, body, mem, fuel) == ExecFor(m, false, slot, h, body, mem, fuel)
    decreases fuel
  {
    if m.cmp(Le, Read(m, mem, slot), h) && fuel > 0 {
      BlockKeepsHi(m, body, mem, fuel - 1);
      var o := ExecBlock(m, true, body, mem, fuel - 1);
      if o.Normal? { ForBoundKept(m, slot, h, body, Bumped(m, o.mem, slot), o.left); }
    }
  }

  /**
   Where no FOR loop stands inside another, keeping every bound in one shared cell is
   indistinguishable from giving each loop its own.
   */
  lemma {:induction false} FlatSharesSafely<N>(m: Numbers<N>, s: Stmt<N>, mem: Mem<N>, fuel: nat)
    requires Flat(s)
    ensures Exec(m, true, s, mem, fuel) == Exec(m, false, s, mem, fuel)
    decreases fuel, s, 1
  {
    match s {
      case If(arms) => ArmsShareSafely(m, arms, mem, fuel);
      case While(c, body) =>
        if EvalBool(m, c, mem) && fuel > 0 {
          BlockSharesSafely(m, body, mem, fuel - 1);
          var o := ExecBlock(m, true, body, mem, fuel - 1);
          if o.Normal? { FlatSharesSafely(m, s, o.mem, o.left); }
        }
      case For(slot, lo, hi, body) =>
        var mem1 := Put(mem, slot, EvalNum(m, lo, mem));
        var h := EvalNum(m, hi, mem1);
        ForBoundKept(m, slot, h, body, mem1.(hi := h), fuel);
      case _ =>
    }
  }

  lemma {:induction false} BlockSharesSafely<N>(m: Numbers<N>, b: Block<N>, mem: Mem<N>, fuel: nat)
    requires BlockFlat(b)
    ensures ExecBlock(m, true, b, mem, fuel) == ExecBlock(m, false, b, mem, fuel)
    decreases fuel, b, 0
  {
    if b.Then? {
      FlatSharesSafely(m, b.head, mem, fuel);
      var o := Exec(m, true, b.head, mem, fuel);
      if o.Normal? { BlockSharesSafely(m, b.tail, o.mem, o.left); }
    }
  }

  lemma {:induction false} ArmsShareSafely<N>(m: Numbers<N>, a: Arms<N>, mem: Mem<N>, fuel: nat)
    requires ArmsFlat(a)
    ensures ExecArms(m, true, a, mem, fuel) == ExecArms(m, false, a, mem, fuel)
    decreases fuel, a, 0
  {
    BlockSharesSafely(m, a.body, mem, fuel);
    if a.Arm? { ArmsShareSafely(m, a.rest, mem, fuel); }
  }

  // ------------------------------ a nested FOR goes wrong ------------------------------

  function IntArith(op: ArithOp, x: int, y: int): int {
    match op
    case Add => x + y
    case Sub => x - y
    case Mul => x * y
    case Div => if y == 0 then 0 else x / y
    case Mod => if y == 0 then 0 else x % y
  }

  function IntCmp(op: CmpOp, x: int, y: int): bool {
    match op
    case Eq => x == y
    case Ne => x != y
    case Lt => x < y
    case Le => x <= y
    case Gt => x > y
    case Ge => x >= y
  }

  function Ints(): Numbers<int> {
    Numbers(0, 1, IntArith, x => -x, IntCmp, (name, x) => x, (x, y) => x)
  }

  /** FOR s0 IN 1..2 LOOP FOR s1 IN 1..1 LOOP NULL; END LOOP; s2 := s2 + 1; END LOOP */
  function Inner(): Stmt<int> { For(1, Num(1), Num(1), End) }

  function OuterBody(): Block<int> { Then(Inner(), Then(Assign(2, Bi(Arith(Add), Var(2), Num(1))), End)) }

  function Nested(): Stmt<int> { For(0, Num(1), Num(2), OuterBody()) }

  lemma InnerRuns(shared: bool, mem: Mem<int>, fuel: nat)
    requires fuel >= 1
    ensures Exec(Ints(), shared, Inner(), mem, fuel) == Normal(mem.(slots := mem.slots[1 := 2], hi := 1), fuel - 1)
  {
    var m := Ints();
    var mem1 := Put(mem, 1, 1).(hi := 1);
    var o := ExecBlock(m, shared, End, mem1, fuel - 1);
    assert o == Normal(mem1, fuel - 1);
    var mem2 := Bumped(m, mem1, 1);
    assert mem2 == mem.(slots := mem.slots[1 := 2], hi := 1) by {
      assert mem.slots[1 := 1][1 := 2] == mem.slots[1 := 2];
    }
    assert ExecFor(m, shared, 1, 1, End, mem2, fuel - 1) == Normal(mem2, fuel - 1);
    assert ExecFor(m, shared, 1, 1, End, mem1, fuel) == Normal(mem2, fuel - 1);
  }

  lemma BodyRuns(shared: bool, mem: Mem<int>, fuel: nat)
    requires fuel >= 1
    ensures ExecBlock(Ints(), shared, OuterBody(), mem, fuel)
         == Normal(mem.(slots := mem.slots[1 := 2][2 := Read(Ints(), mem, 2) + 1], hi := 1), fuel - 1)
  {
    var m := Ints();
    InnerRuns(shared, mem, fuel);
    var o := Exec(m, shared, Inner(), mem, fuel);
    var add: Stmt<int> := Assign(2, Bi(Arith(Add), Var(2), Num(1)));
    assert Exec(m, shared, add, o.mem, o.left) == Normal(Put(o.mem, 2, Read(m, mem, 2) + 1), fuel - 1);
    assert ExecBlock(m, shared, Then(add, End), o.mem, o.left) == Normal(Put(o.mem, 2, Read(m, mem, 2) + 1), fuel - 1);
  }

  /** One turn of the outer loop; the shared bound cell then holds the inner loop's bound. */
  lemma OuterTurn(shared: bool, mem: Mem<int>, fuel: nat)
    requires fuel >= 2 && Read(Ints(), mem, 0) <= 2 && (shared ==> mem.hi == 2)
    ensures ExecFor(Ints(), shared, 0, 2, OuterBody(), mem, fuel) == ExecFor(Ints(), shared, 0, 2, OuterBody(), Turned(mem), fuel - 2)
    ensures Read(Ints(), Turned(mem), 0) == Read(Ints(), mem, 0) + 1
    ensures Read(Ints(), Turned(mem), 2) == Read(Ints(), mem, 2) + 1
    ensures Turned(mem).hi == 1
  {
    BodyRuns(shared, mem, fuel - 1);
    var o := ExecBlock(Ints(), shared, OuterBody(), mem, fuel - 1);
    assert Bumped(Ints(), o.mem, 0) == Turned(mem);
  }

  ghost function Turned(mem: Mem<int>): Mem<int> {
    Bumped(Ints(), mem.(slots := mem.slots[1 := 2][2 := Read(Ints(), mem, 2) + 1], hi := 1), 0)
  }

  /**
   The outer loop should run twice. With a bound of its own it does; with the shared cell the
   inner loop's bound ends it after one turn, so the two readings differ.
   */
  lemma NestedForStopsEarly(mem: Mem<int>, fuel: nat)
    requires fuel >= 4
    ensures var o := Exec(Ints(), false, Nested(), mem, fuel); o.Normal? && Read(Ints(), o.mem, 2) == Read(Ints(), mem, 2) + 2
    ensures var o := Exec(Ints(), true, Nested(), mem, fuel); o.Normal? && Read(Ints(), o.mem, 2) == Read(Ints(), mem, 2) + 1
    ensures !Flat(Nested())
  {
    var start := Put(mem, 0, 1).(hi := 2);
    OuterTurn(true, start, fuel);
    OuterTurn(false, start, fuel);
    OuterTurn(false, Turned(start), fuel - 2);
  }
}
