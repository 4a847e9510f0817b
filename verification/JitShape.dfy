/**
 The form of the generated code, for every routine: every branch target is defined exactly once,
 every block has exactly one terminator, every register is written by exactly one line.
 */
module JitShape {
  import opened JitAst
  import opened JitMachine
  import opened JitLower

  ghost function Range(lo: nat,
                       hi: nat): multiset<nat> { if hi <= lo then multiset{} else Range(lo, hi - 1) + multiset{hi - 1} }

  lemma {:induction false} RangeAdd(a: nat, b: nat, c: nat)
    requires a <= b <= c
    ensures Range(a, b) + Range(b, c) == Range(a, c)
  {
    if b < c {
      RangeAdd(a, b, c - 1);
      assert Range(a, b) + Range(b, c) == (Range(a, b) + Range(b, c - 1)) + multiset{c - 1};
    }
  }

  lemma {:induction false} RangeCount(lo: nat, hi: nat, x: nat)
    ensures Range(lo, hi)[x] == if lo <= x < hi then 1 else 0
  {
    if lo < hi { RangeCount(lo, hi - 1, x); }
  }

  lemma RangeOne(a: nat)
    ensures Range(a, a + 1) == multiset{a}
  {
    assert Range(a, a) == multiset{};
  }

  lemma RangeTwo(a: nat)
    ensures Range(a, a + 2) == multiset{a} + multiset{a + 1}
  {
    RangeOne(a);
    RangeOne(a + 1);
    RangeAdd(a, a + 1, a + 2);
  }

  lemma RangeThree(a: nat)
    ensures Range(a, a + 3) == multiset{a} + multiset{a + 1} + multiset{a + 2}
  {
    RangeTwo(a);
    RangeOne(a + 2);
    RangeAdd(a, a + 2, a + 3);
  }

  /** The register a line writes, if any. */
  function Dest<N>(i: Line<N>): multiset<nat> {
    match i
    case Load(d, _) => multiset{d}
    case LoadHi(d) => multiset{d}
    case LoadRet(d) => multiset{d}
    case Bin(d, _, _, _) => multiset{d}
    case Fneg(d, _) => multiset{d}
    case Fcmp(d, _, _, _) => multiset{d}
    case Logic(d, _, _, _) => multiset{d}
    case Xor(d, _) => multiset{d}
    case ToDouble(d, _) => multiset{d}
    case Call(d, _, _) => multiset{d}
    case Pow(d, _, _) => multiset{d}
    case Select(d, _, _, _) => multiset{d}
    case _ => multiset{}
  }

  function Dests<N>(code: seq<Line<N>>): multiset<nat> {
    if code == [] then multiset{} else Dest(code[0]) + Dests(code[1..])
  }

  /** Reading the lines of a well-formed list: between blocks, or inside one. */
  datatype Block3 = Between | Inside | Broken

  function Walk1<N>(i: Line<N>, t: Block3): Block3 {
    if t.Between? then (if i.Lab? then Inside else Broken)
    else if t.Inside? then (if i.Lab? then Broken else if Terminator(i) then Between else Inside)
    else Broken
  }

  function Walk<N>(code: seq<Line<N>>, t: Block3): Block3 {
    if code == [] then t else Walk(code[1..], Walk1(code[0], t))
  }

  function Ended(term: bool): Block3 { if term then Between else Inside }

  /** Where a line may go to. */
  function Targets<N>(i: Line<N>): set<nat> {
    match i
    case Jump(t) => {t}
    case Branch(_, t, f) => {t, f}
    case _ => {}
  }

  /** The labels a stretch of code may go to: those it allocates itself, and two others. */
  datatype Zone = Zone(lo: nat, hi: nat, exit: nat, end: nat)

  predicate InZone(t: nat, z: Zone) { z.lo <= t < z.hi || t == z.exit || t == z.end }

  ghost predicate GoesTo<N>(code: seq<Line<N>>, z: Zone) {
    forall i, t :: 0 <= i < |code| && t in Targets(code[i]) ==> InZone(t, z)
  }

  lemma {:induction false} ConcatDests<N>(a: seq<Line<N>>, b: seq<Line<N>>)
    ensures Dests(a + b) == Dests(a) + Dests(b)
  {
    if a == [] {
      assert a + b == b;
    } else {
      assert (a + b)[0] == a[0] && (a + b)[1..] == a[1..] + b;
      ConcatDests(a[1..], b);
    }
  }

  lemma {:induction false} ConcatWalk<N>(a: seq<Line<N>>, b: seq<Line<N>>, t: Block3)
    ensures Walk(a + b, t) == Walk(b, Walk(a, t))
  {
    if a == [] {
      assert a + b == b;
    } else {
      assert (a + b)[0] == a[0] && (a + b)[1..] == a[1..] + b;
      ConcatWalk(a[1..], b, Walk1(a[0], t));
    }
  }

  lemma ConcatGoes<N>(a: seq<Line<N>>, b: seq<Line<N>>, z: Zone)
    requires GoesTo(a, z) && GoesTo(b, z)
    ensures GoesTo(a + b, z)
  {
  }

  /** What is true of a stretch of code, whatever surrounds it. */
  ghost predicate Piece<N>(code: seq<Line<N>>, from: bool, to: bool, labels: multiset<nat>, dests: multiset<nat>,
                           z: Zone) {
    && Walk(code, Ended(from)) == Ended(to)
    && Labels(code) == labels
    && Dests(code) == dests
    && GoesTo(code, z)
  }

  lemma Join<N>(a: seq<Line<N>>, b: seq<Line<N>>, t0: bool, t1: bool, t2: bool,
                la: multiset<nat>, lb: multiset<nat>, l: multiset<nat>, da: multiset<nat>, db: multiset<nat>, d: multiset<nat>, z: Zone)
    requires Piece(a, t0, t1, la, da, z) && Piece(b, t1, t2, lb, db, z)
    requires l == la + lb && d == da + db
    ensures Piece(a + b, t0, t2, l, d, z)
  {
    LabelsConcat(a, b);
    ConcatDests(a, b);
    ConcatWalk(a, b, Ended(t0));
    ConcatGoes(a, b, z);
  }

  lemma {:induction false} PlainPiece<N>(code: seq<Line<N>>, z: Zone)
    requires AllPlain(code)
    ensures Piece(code, false, false, multiset{}, Dests(code), z)
  {
    if code != [] {
      assert AllPlain(code[1..]) && Plain(code[0]);
      PlainPiece(code[1..], z);
      assert forall i :: 0 <= i < |code| ==> Plain(code[i]) && Targets(code[i]) == {};
    }
  }

  lemma OnePiece<N>(i: Line<N>, from: bool, to: bool, z: Zone)
    requires Walk1(i, Ended(from)) == Ended(to)
    requires forall t :: t in Targets(i) ==> InZone(t, z)
    ensures Piece([i], from, to, if i.Lab? then multiset{i.l} else multiset{}, Dest(i), z)
  {
    assert [i][1..] == [];
    assert Walk([i], Ended(from)) == Walk<N>([], Walk1(i, Ended(from)));
    assert Dests([i]) == Dest(i) + Dests<N>([]);
    assert Labels([i]) == (if i.Lab? then multiset{i.l} else multiset{}) + Labels<N>([]);
  }

  /** A terminator and the label that opens the next block. */
  lemma TurnPiece<N>(i: Line<N>, l: nat, z: Zone)
    requires Terminator(i)
    requires forall t :: t in Targets(i) ==> InZone(t, z)
    ensures Piece([i, Lab(l)], false, false, multiset{l}, multiset{}, z)
  {
    hide Piece;
    OnePiece(i, false, true, z);
    OnePiece<N>(Lab(l), true, false, z);
    Join([i], [Lab(l)], false, true, false, multiset{}, multiset{l}, multiset{l}, multiset{}, multiset{}, multiset{}, z);
    assert [i] + [Lab(l)] == [i, Lab(l)];
  }

  // --------------------------------- expressions ---------------------------------

  /** Plain lines that write the registers from `reg` up to the new counter, once each. */
  ghost predicate Calc<N>(code: seq<Line<N>>, reg: nat, reg': nat) {
    reg <= reg' && AllPlain(code) && Dests(code) == Range(reg, reg')
  }

  lemma CalcCat<N>(a: seq<Line<N>>, b: seq<Line<N>>, r0: nat, r1: nat, r2: nat)
    requires Calc(a, r0, r1) && Calc(b, r1, r2)
    ensures Calc(a + b, r0, r2)
  {
    ConcatDests(a, b);
    RangeAdd(r0, r1, r2);
  }

  lemma CalcOne<N>(a: seq<Line<N>>, i: Line<N>, r0: nat, r1: nat)
    requires Calc(a, r0, r1) && Plain(i) && Dest(i) == multiset{r1}
    ensures Calc(a + [i], r0, r1 + 1)
  {
    RangeOne(r1);
    assert [i][1..] == [];
    assert Dests([i]) == Dest(i) + Dests<N>([]);
    CalcCat(a, [i], r0, r1, r1 + 1);
  }

  lemma CalcNone<N>(r: nat)
    ensures Calc<N>([], r, r)
  {
    assert Range(r, r) == multiset{};
  }

  lemma BiCalc<N>(op: BinOp, code: seq<Line<N>>, x: Operand<N>, y: Operand<N>, r0: nat, reg: nat)
    requires Calc(code, r0, reg) && !op.Concat?
    ensures Calc(BiOut(op, code, x, y, reg).code, r0, BiOut(op, code, x, y, reg).reg)
  {
    hide Calc;
    CalcOne(code, BiLine(op, reg, x, y), r0, reg);
    CalcOne(code + [BiLine(op, reg, x, y)], Select(reg + 1, Reg(reg), x, y), r0, reg + 1);
  }

  lemma {:induction false} CodeCalc<N>(m: Numbers<N>, e: Expr<N>, cond: bool, reg: nat)
    ensures Calc(Code(m, e, cond, reg).code, reg, Code(m, e, cond, reg).reg)
    decreases Size(e), if IsBool(e) == cond then 0 else 1
  {
    hide Calc, Fold, Code;
    FoldFacts(m, e);
    var x := Fold(m, e);
    if IsBool(x) != cond {
      CodeConverts(m, e, cond, reg);
      CodeCalc(m, x, !cond, reg);
      var a := Code(m, x, !cond, reg);
      CalcOne(a.code, if cond then Fcmp(a.reg, Ne, a.x, Const(m.zero)) else ToDouble(a.reg, a.x), reg, a.reg);
    } else if x.Un? {
      CodeUn(m, e, cond, reg);
      CodeCalc(m, x.e, x.op1.Not?, reg);
      var a := Code(m, x.e, x.op1.Not?, reg);
      if !x.op1.NumberOf? { CalcOne(a.code, UnLine(x.op1, a.reg, a.x), reg, a.reg); }
    } else if x.Bi? && !x.op2.Concat? {
      CodeBi(m, e, cond, reg);
      var k := OnBools(x.op2);
      CodeCalc(m, x.l, k, reg);
      var a := Code(m, x.l, k, reg);
      CodeCalc(m, x.r, k, a.reg);
      var b := Code(m, x.r, k, a.reg);
      CalcCat(a.code, b.code, reg, a.reg, b.reg);
      BiCalc(x.op2, a.code + b.code, a.x, b.x, reg, b.reg);
    } else {
      CodeLeaf(m, e, cond, reg);
      CalcNone<N>(reg);
      if x.Var? { CalcOne<N>([], Load(reg, x.slot), reg, reg); }
    }
  }

  // ---------------------------------- statements ----------------------------------

  ghost predicate Shaped<N>(o: Out<N>, reg: nat, lbl: nat, term: bool, exit: nat, end: nat) {
    reg <= o.reg && lbl <= o.lbl && Piece(o.code, term, o.term, Range(lbl, o.lbl), Range(reg, o.reg), Zone(lbl, o.lbl, exit, end))
  }

  lemma Widen<N>(code: seq<Line<N>>, t0: bool, t1: bool, l: multiset<nat>, d: multiset<nat>, z: Zone, z': Zone)
    requires Piece(code, t0, t1, l, d, z)
    requires z'.lo <= z.lo && z.hi <= z'.hi && InZone(z.exit, z') && InZone(z.end, z')
    ensures Piece(code, t0, t1, l, d, z')
  {
    assert forall t :: InZone(t, z) ==> InZone(t, z');
  }

  lemma ShapedThen<N>(a: Out<N>, b: Out<N>, reg: nat, lbl: nat, term: bool, exit: nat, end: nat)
    requires Shaped(a, reg, lbl, term, exit, end) && Shaped(b, a.reg, a.lbl, a.term, exit, end)
    ensures Shaped(Cat(a.code, b), reg, lbl, term, exit, end)
  {
    hide Piece, Range;
    var z := Zone(lbl, b.lbl, exit, end);
    Widen(a.code, term, a.term, Range(lbl, a.lbl), Range(reg, a.reg), Zone(lbl, a.lbl, exit, end), z);
    Widen(b.code, a.term, b.term, Range(a.lbl, b.lbl), Range(a.reg, b.reg), Zone(a.lbl, b.lbl, exit, end), z);
    RangeAdd(lbl, a.lbl, b.lbl);
    RangeAdd(reg, a.reg, b.reg);
    Join(a.code, b.code, term, a.term, b.term, Range(lbl, a.lbl), Range(a.lbl, b.lbl), Range(lbl, b.lbl),
         Range(reg, a.reg), Range(a.reg, b.reg), Range(reg, b.reg), z);
  }

  lemma NoLabels(l: nat)
    ensures Range(l, l) == multiset{}
  {
  }

  /** Expression code is a piece that stays inside its block. */
  lemma CalcShaped<N>(code: seq<Line<N>>, reg: nat, reg': nat, lbl: nat, exit: nat, end: nat)
    requires Calc(code, reg, reg')
    ensures Shaped(Out(code, reg', lbl, false), reg, lbl, false, exit, end)
  {
    NoLabels(lbl);
    PlainPiece(code, Zone(lbl, lbl, exit, end));
  }

  /** A line that writes no register and defines no label. */
  lemma LineShaped<N>(i: Line<N>, reg: nat, lbl: nat, to: bool, exit: nat, end: nat)
    requires Walk1(i, Inside) == Ended(to) && !i.Lab? && Dest(i) == multiset{}
    requires forall t :: t in Targets(i) ==> t == exit || t == end
    ensures Shaped(Out([i], reg, lbl, to), reg, lbl, false, exit, end)
  {
    NoLabels(lbl);
    NoLabels(reg);
    OnePiece(i, false, to, Zone(lbl, lbl, exit, end));
  }

  lemma LabelShaped<N>(reg: nat, lbl: nat, exit: nat, end: nat)
    ensures Shaped<N>(Out([Lab(lbl)], reg, lbl + 1, false), reg, lbl, true, exit, end)
  {
    NoLabels(reg);
    RangeOne(lbl);
    OnePiece<N>(Lab(lbl), true, false, Zone(lbl, lbl + 1, exit, end));
  }

  lemma JumpShaped<N>(reg: nat, lbl: nat, term: bool, exit: nat, end: nat)
    ensures Shaped<N>(Out(JumpIfOpen(term, end), reg, lbl, true), reg, lbl, term, exit, end)
  {
    if term {
      NoLabels(reg);
      NoLabels(lbl);
      var none: seq<Line<N>> := [];
      assert Walk(none, Between) == Between && Labels(none) == multiset{} && Dests(none) == multiset{};
    } else {
      LineShaped<N>(Jump(end), reg, lbl, true, exit, end);
    }
  }

  // The compound statements allocate their labels before they define them, so these are put
  // together from pieces whose labels are counted directly.

  lemma WhileShaped<N>(b: Value<N>, k: Out<N>, reg: nat, lbl: nat, exit: nat)
    requires Calc(b.code, reg, b.reg) && Shaped(k, b.reg, lbl + 3, false, exit, exit)
    ensures Shaped(Out(WhileLines(b, k, lbl), k.reg, k.lbl, false), reg, lbl, false, exit, exit)
  {
    hide Piece, Range, Labels, Dests, Walk, GoesTo, AllPlain;
    var z := Zone(lbl, k.lbl, exit, exit);
    TurnPiece<N>(Jump(lbl), lbl, z);
    CalcPiece(b.code, reg, b.reg, z);
    TurnPiece<N>(Branch(b.x, lbl + 1, lbl + 2), lbl + 1, z);
    Widen(k.code, false, k.term, Range(lbl + 3, k.lbl), Range(b.reg, k.reg), Zone(lbl + 3, k.lbl, exit, exit), z);
    JumpPiece<N>(k.term, lbl, z);
    LoopLabels(lbl, k.lbl);
    LoopJoin([Jump(lbl), Lab(lbl)], b.code, [Branch(b.x, lbl + 1, lbl + 2), Lab(lbl + 1)], k, JumpIfOpen(k.term, lbl), lbl + 2,
             multiset{lbl}, multiset{lbl + 1}, lbl + 3, Range(lbl, k.lbl), reg, b.reg, multiset{}, Range(reg, k.reg), z);
  }

  lemma CalcPiece<N>(code: seq<Line<N>>, reg: nat, reg': nat, z: Zone)
    requires Calc(code, reg, reg')
    ensures Piece(code, false, false, multiset{}, Range(reg, reg'), z)
  {
    PlainPiece(code, z);
  }

  lemma JumpPiece<N>(term: bool, l: nat, z: Zone)
    requires InZone(l, z)
    ensures Piece<N>(JumpIfOpen(term, l), term, true, multiset{}, multiset{}, z)
  {
    if term {
      var none: seq<Line<N>> := [];
      assert Walk(none, Between) == Between && Labels(none) == multiset{} && Dests(none) == multiset{};
    } else {
      OnePiece<N>(Jump(l), false, true, z);
    }
  }

  /** Entry, test, branch, body, way back, exit label. */
  lemma LoopJoin<N>(entry: seq<Line<N>>, test: seq<Line<N>>, branch: seq<Line<N>>, k: Out<N>, back: seq<Line<N>>,
                    last: nat,
                    e: multiset<nat>, b: multiset<nat>, lo: nat, l: multiset<nat>, r0: nat, r1: nat, db: multiset<nat>, d: multiset<nat>, z: Zone)
    requires r0 <= r1 <= k.reg && d == Range(r0, k.reg) + db
    requires l == e + b + Range(lo, k.lbl) + multiset{last}
    requires Piece(entry, false, false, e, multiset{}, z)
    requires Piece(test, false, false, multiset{}, Range(r0, r1), z)
    requires Piece(branch, false, false, b, multiset{}, z)
    requires Piece(k.code, false, k.term, Range(lo, k.lbl), Range(r1, k.reg), z)
    requires Piece(back, k.term, true, multiset{}, db, z)
    ensures Piece(entry + test + branch + k.code + back + [Lab(last)], false, false, l, d, z)
  {
    hide Piece, Range;
    var none, all := multiset{}, e + b + Range(lo, k.lbl);
    RangeAdd(r0, r1, k.reg);
    OnePiece<N>(Lab(last), true, false, z);
    Join(entry, test, false, false, false, e, none, e, none, Range(r0, r1), Range(r0, r1), z);
    Join(entry + test, branch, false, false, false, e, b, e + b, Range(r0, r1), none, Range(r0, r1), z);
    Join(entry + test + branch, k.code, false, false, k.term, e + b, Range(lo, k.lbl), all, Range(r0, r1),
         Range(r1, k.reg), Range(r0, k.reg), z);
    Join(entry + test + branch + k.code, back, false, k.term, true, all, none, all, Range(r0, k.reg), db, d, z);
    Join(entry + test + branch + k.code + back, [Lab(last)], false, true, false, all, multiset{last}, l, d, none, d, z);
  }

  lemma LoopLabels(lbl: nat, hi: nat)
    requires lbl + 3 <= hi
    ensures Range(lbl, hi) == multiset{lbl} + multiset{lbl + 1} + Range(lbl + 3, hi) + multiset{lbl + 2}
  {
    RangeThree(lbl);
    RangeAdd(lbl, lbl + 3, hi);
  }

  lemma NoneEmpty<N>(z: Zone)
    ensures Piece<N>([], false, false, multiset{}, multiset{}, z)
  {
    var none: seq<Line<N>> := [];
    assert Walk(none, Inside) == Inside && Labels(none) == multiset{} && Dests(none) == multiset{};
  }

  lemma ArmShaped<N>(b: Value<N>, k: Out<N>, reg: nat, lbl: nat, exit: nat, end: nat)
    requires Calc(b.code, reg, b.reg) && Shaped(k, b.reg, lbl + 2, false, exit, exit)
    ensures Shaped(Out(ArmLines(b, k, lbl, end), k.reg, k.lbl, false), reg, lbl, false, exit, end)
  {
    hide Piece, Range, Labels, Dests, Walk, GoesTo, AllPlain;
    var z := Zone(lbl, k.lbl, exit, end);
    NoneEmpty<N>(z);
    CalcPiece(b.code, reg, b.reg, z);
    TurnPiece<N>(Branch(b.x, lbl, lbl + 1), lbl, z);
    Widen(k.code, false, k.term, Range(lbl + 2, k.lbl), Range(b.reg, k.reg), Zone(lbl + 2, k.lbl, exit, exit), z);
    JumpPiece<N>(k.term, end, z);
    RangeTwo(lbl);
    RangeAdd(lbl, lbl + 2, k.lbl);
    LoopJoin([], b.code, [Branch(b.x, lbl, lbl + 1), Lab(lbl)], k, JumpIfOpen(k.term, end), lbl + 1,
             multiset{}, multiset{lbl}, lbl + 2, Range(lbl, k.lbl), reg, b.reg, multiset{}, Range(reg, k.reg), z);
    assert [] + b.code == b.code;
  }

  // FOR: the bounds are set up, then the loop runs on two loads and a comparison.

  lemma StoreCalc<N>(code: seq<Line<N>>, i: Line<N>, r0: nat, r1: nat)
    requires Calc(code, r0, r1) && Plain(i) && Dest(i) == multiset{}
    ensures Calc(code + [i], r0, r1)
  {
    assert [i][1..] == [];
    assert Dests([i]) == Dest(i) + Dests<N>([]);
    ConcatDests(code, [i]);
  }

  lemma SetupCalc<N>(slot: nat, a: Value<N>, h: Value<N>, reg: nat)
    requires Calc(a.code, reg, a.reg) && Calc(h.code, a.reg, h.reg)
    ensures Calc(ForSetup(slot, a, h), reg, h.reg)
  {
    hide Calc;
    StoreCalc(a.code, Store(slot, a.x), reg, a.reg);
    CalcCat(a.code + [Store(slot, a.x)], h.code, reg, a.reg, h.reg);
    StoreCalc(a.code + [Store(slot, a.x)] + h.code, StoreHi(h.x), reg, h.reg);
  }

  lemma TestCalc<N>(slot: nat, r: nat)
    ensures Calc<N>(ForTest(slot, r), r, r + 3)
  {
    hide Calc;
    CalcNone<N>(r);
    var one: seq<Line<N>> := [Load(r, slot)];
    CalcOne<N>([], Load(r, slot), r, r);
    assert [] + one == one;
    CalcOne<N>(one, LoadHi(r + 1), r, r + 1);
    var two: seq<Line<N>> := [Load(r, slot), LoadHi(r + 1)];
    assert one + [LoadHi(r + 1)] == two;
    CalcOne(two, Fcmp(r + 2, Le, Reg(r), Reg(r + 1)), r, r + 2);
    assert two + [Fcmp(r + 2, Le, Reg(r), Reg(r + 1))] == ForTest(slot, r);
  }

  lemma StepCalc<N>(m: Numbers<N>, slot: nat, r: nat)
    ensures Calc(ForStep(m, slot, r), r, r + 2)
  {
    hide Calc;
    CalcNone<N>(r);
    var one: seq<Line<N>> := [Load(r, slot)];
    CalcOne<N>([], Load(r, slot), r, r);
    assert [] + one == one;
    var two: seq<Line<N>> := [Load(r, slot), Bin(r + 1, Add, Reg(r), Const(m.one))];
    CalcOne(one, two[1], r, r + 1);
    assert one + [two[1]] == two;
    StoreCalc(two, Store(slot, Reg(r + 1)), r, r + 2);
    assert two + [Store(slot, Reg(r + 1))] == ForStep(m, slot, r);
  }

  lemma NextPiece<N>(m: Numbers<N>, slot: nat, k: Out<N>, l: nat, z: Zone)
    requires InZone(l, z)
    ensures Piece(ForNext(m, slot, k, l), k.term, true, multiset{}, if k.term then multiset{} else Range(k.reg, k.reg + 2), z)
  {
    if k.term {
      JumpPiece<N>(true, l, z);
    } else {
      StepCalc(m, slot, k.reg);
      CalcPiece(ForStep(m, slot, k.reg), k.reg, k.reg + 2, z);
      JumpPiece<N>(false, l, z);
      Join(ForStep(m, slot, k.reg), [Jump(l)], false, false, true, multiset{}, multiset{}, multiset{},
           Range(k.reg, k.reg + 2), multiset{}, Range(k.reg, k.reg + 2), z);
    }
  }

  ghost function ForReg<N>(k: Out<N>): nat { if k.term then k.reg else k.reg + 2 }

  lemma ForShaped<N>(m: Numbers<N>, slot: nat, r: nat, k: Out<N>, lbl: nat, exit: nat)
    requires Shaped(k, r + 3, lbl + 3, false, exit, exit)
    ensures Shaped(Out(ForLines(m, slot, r, k, lbl), ForReg(k), k.lbl, false), r, lbl, false, exit, exit)
  {
    hide Piece, Range, Labels, Dests, Walk, GoesTo, AllPlain, Calc, ForNext, ForTest;
    var z := Zone(lbl, k.lbl, exit, exit);
    TurnPiece<N>(Jump(lbl), lbl, z);
    TestCalc<N>(slot, r);
    CalcPiece(ForTest<N>(slot, r), r, r + 3, z);
    TurnPiece<N>(Branch(Reg(r + 2), lbl + 1, lbl + 2), lbl + 1, z);
    Widen(k.code, false, k.term, Range(lbl + 3, k.lbl), Range(r + 3, k.reg), Zone(lbl + 3, k.lbl, exit, exit), z);
    NextPiece(m, slot, k, lbl, z);
    LoopLabels(lbl, k.lbl);
    RangeAdd(r, k.reg, ForReg(k));
    LoopJoin([Jump(lbl), Lab(lbl)], ForTest(slot, r), [Branch(Reg(r + 2), lbl + 1, lbl + 2), Lab(lbl + 1)], k, ForNext(m, slot, k, lbl), lbl + 2,
             multiset{lbl}, multiset{lbl + 1}, lbl + 3, Range(lbl, k.lbl), r, r + 3,
             if k.term then multiset{} else Range(k.reg, k.reg + 2), Range(r, ForReg(k)), z);
  }

  lemma IfShaped<N>(a: Out<N>, reg: nat, lbl: nat, exit: nat)
    requires Shaped(a, reg, lbl + 1, false, exit, lbl) && a.term
    ensures Shaped(Out(a.code + [Lab(lbl)], a.reg, a.lbl, false), reg, lbl, false, exit, exit)
  {
    hide Piece, Range;
    var z := Zone(lbl, a.lbl, exit, exit);
    Widen(a.code, false, true, Range(lbl + 1, a.lbl), Range(reg, a.reg), Zone(lbl + 1, a.lbl, exit, lbl), z);
    OnePiece<N>(Lab(lbl), true, false, z);
    RangeOne(lbl);
    RangeAdd(lbl, lbl + 1, a.lbl);
    Join(a.code, [Lab(lbl)], false, true, false, Range(lbl + 1, a.lbl), multiset{lbl}, Range(lbl, a.lbl),
         Range(reg, a.reg), multiset{}, Range(reg, a.reg), z);
  }

  lemma ElseShaped<N>(k: Out<N>, reg: nat, lbl: nat, exit: nat, end: nat)
    requires Shaped(k, reg, lbl, false, exit, exit)
    ensures Shaped(Out(k.code + JumpIfOpen(k.term, end), k.reg, k.lbl, true), reg, lbl, false, exit, end)
  {
    Widen(k.code, false, k.term, Range(lbl, k.lbl), Range(reg, k.reg), Zone(lbl, k.lbl, exit, exit),
          Zone(lbl, k.lbl, exit, end));
    JumpShaped<N>(k.reg, k.lbl, k.term, exit, end);
    ShapedThen(k, Out(JumpIfOpen(k.term, end), k.reg, k.lbl, true), reg, lbl, false, exit, end);
  }

  lemma {:induction false} OpenShaped<N>(m: Numbers<N>, s: Stmt<N>, reg: nat, lbl: nat, exit: nat)
    ensures Shaped(OpenCode(m, s, reg, lbl, exit), reg, lbl, false, exit, exit)
    decreases s, 0
  {
    hide Shaped, Calc, BlockCode, ArmsCode, Code, ForLines, WhileLines, ForSetup;
    match s {
      case Skip =>
        CalcNone<N>(reg);
        CalcShaped<N>([], reg, reg, lbl, exit, exit);
      case Assign(slot, e) =>
        CodeCalc(m, e, false, reg);
        var v := Code(m, e, false, reg);
        StoreCalc(v.code, Store(slot, v.x), reg, v.reg);
        CalcShaped(v.code + [Store(slot, v.x)], reg, v.reg, lbl, exit, exit);
      case Return(e) =>
        CodeCalc(m, e, false, reg);
        var v := Code(m, e, false, reg);
        ReturnShaped(v, reg, lbl, exit);
      case ReturnNothing =>
        CalcNone<N>(reg);
        ReturnShaped<N>(Value([], Const(m.zero), reg), reg, lbl, exit);
        assert [] + [StoreRet(Const(m.zero)), Jump(exit)] == [StoreRet(Const(m.zero)), Jump(exit)];
      case If(arms) =>
        ArmsShaped(m, arms, reg, lbl + 1, exit, lbl);
        IfShaped(ArmsCode(m, arms, reg, lbl + 1, exit, lbl), reg, lbl, exit);
      case While(c, body) =>
        CodeCalc(m, c, true, reg);
        var b := Code(m, c, true, reg);
        BlockShaped(m, body, b.reg, lbl + 3, false, exit);
        WhileShaped(b, BlockCode(m, body, b.reg, lbl + 3, false, exit), reg, lbl, exit);
      case For(slot, lo, hi, body) =>
        CodeCalc(m, lo, false, reg);
        var a := Code(m, lo, false, reg);
        CodeCalc(m, hi, false, a.reg);
        var h := Code(m, hi, false, a.reg);
        BlockShaped(m, body, h.reg + 3, lbl + 3, false, exit);
        var k := BlockCode(m, body, h.reg + 3, lbl + 3, false, exit);
        ForWhole(m, slot, a, h, k, reg, lbl, exit);
    }
  }

  lemma ReturnShaped<N>(v: Value<N>, reg: nat, lbl: nat, exit: nat)
    requires Calc(v.code, reg, v.reg)
    ensures Shaped(Out(v.code + [StoreRet(v.x), Jump(exit)], v.reg, lbl, true), reg, lbl, false, exit, exit)
  {
    hide Shaped, Calc;
    StoreCalc(v.code, StoreRet(v.x), reg, v.reg);
    var a := v.code + [StoreRet(v.x)];
    CalcShaped(a, reg, v.reg, lbl, exit, exit);
    LineShaped<N>(Jump(exit), v.reg, lbl, true, exit, exit);
    ShapedThen(Out(a, v.reg, lbl, false), Out([Jump(exit)], v.reg, lbl, true), reg, lbl, false, exit, exit);
    assert a + [Jump(exit)] == v.code + [StoreRet(v.x), Jump(exit)];
  }

  lemma ForWhole<N>(m: Numbers<N>, slot: nat, a: Value<N>, h: Value<N>, k: Out<N>, reg: nat, lbl: nat, exit: nat)
    requires Calc(a.code, reg, a.reg) && Calc(h.code, a.reg, h.reg) && Shaped(k, h.reg + 3, lbl + 3, false, exit, exit)
    ensures Shaped(Out(ForSetup(slot, a, h) + ForLines(m, slot, h.reg, k, lbl), ForReg(k), k.lbl, false), reg, lbl, false, exit, exit)
  {
    hide Shaped, Calc, ForSetup, ForLines;
    SetupCalc(slot, a, h, reg);
    CalcShaped(ForSetup(slot, a, h), reg, h.reg, lbl, exit, exit);
    ForShaped(m, slot, h.reg, k, lbl, exit);
    ShapedThen(Out(ForSetup(slot, a, h), h.reg, lbl, false),
               Out(ForLines(m, slot, h.reg, k, lbl), ForReg(k), k.lbl, false), reg, lbl, false, exit, exit);
  }

  lemma {:induction false} StmtShaped<N>(m: Numbers<N>, s: Stmt<N>, reg: nat, lbl: nat, term: bool, exit: nat)
    ensures Shaped(StmtCode(m, s, reg, lbl, term, exit), reg, lbl, term, exit, exit)
    decreases s, 1
  {
    hide Shaped, OpenCode;
    if term {
      OpenShaped(m, s, reg, lbl + 1, exit);
      LabelShaped<N>(reg, lbl, exit, exit);
      ShapedThen(Out([Lab(lbl)], reg, lbl + 1, false), OpenCode(m, s, reg, lbl + 1, exit), reg, lbl, true, exit, exit);
    } else {
      OpenShaped(m, s, reg, lbl, exit);
    }
  }

  lemma {:induction false} ArmsShaped<N>(m: Numbers<N>, arms: Arms<N>, reg: nat, lbl: nat, exit: nat, end: nat)
    ensures Shaped(ArmsCode(m, arms, reg, lbl, exit, end), reg, lbl, false, exit, end)
    ensures ArmsCode(m, arms, reg, lbl, exit, end).term
    decreases arms, 0
  {
    hide Shaped, Calc, BlockCode, Code, ArmLines;
    match arms {
      case Else(body) =>
        BlockShaped(m, body, reg, lbl, false, exit);
        ElseShaped(BlockCode(m, body, reg, lbl, false, exit), reg, lbl, exit, end);
      case Arm(c, body, rest) =>
        CodeCalc(m, c, true, reg);
        var b := Code(m, c, true, reg);
        BlockShaped(m, body, b.reg, lbl + 2, false, exit);
        var k := BlockCode(m, body, b.reg, lbl + 2, false, exit);
        ArmShaped(b, k, reg, lbl, exit, end);
        ArmsShaped(m, rest, k.reg, k.lbl, exit, end);
        ShapedThen(Out(ArmLines(b, k, lbl, end), k.reg, k.lbl, false), ArmsCode(m, rest, k.reg, k.lbl, exit, end),
                   reg, lbl, false, exit, end);
    }
  }

  lemma {:induction false} BlockShaped<N>(m: Numbers<N>, b: Block<N>, reg: nat, lbl: nat, term: bool, exit: nat)
    ensures Shaped(BlockCode(m, b, reg, lbl, term, exit), reg, lbl, term, exit, exit)
    decreases b, 0
  {
    hide Shaped, StmtCode;
    match b {
      case End => NothingShaped<N>(reg, lbl, term, exit);
      case Then(s, rest) =>
        StmtShaped(m, s, reg, lbl, term, exit);
        var a := StmtCode(m, s, reg, lbl, term, exit);
        BlockShaped(m, rest, a.reg, a.lbl, a.term, exit);
        ShapedThen(a, BlockCode(m, rest, a.reg, a.lbl, a.term, exit), reg, lbl, term, exit, exit);
    }
  }

  lemma NothingShaped<N>(reg: nat, lbl: nat, term: bool, exit: nat)
    ensures Shaped<N>(Out([], reg, lbl, term), reg, lbl, term, exit, exit)
  {
    NoLabels(lbl);
    NoLabels(reg);
    var none: seq<Line<N>> := [];
    assert Walk(none, Ended(term)) == Ended(term) && Labels(none) == multiset{} && Dests(none) == multiset{};
  }

  // ---------------------------------- routines ----------------------------------

  lemma {:induction false} PrologueShaped<N>(m: Numbers<N>, n: nat, nparams: nat, z: Zone)
    ensures Piece(Prologue(m, n, nparams), true, false, multiset{0}, multiset{}, z)
  {
    hide Piece;
    if n == 0 {
      OnePiece<N>(Lab(0), true, false, z);
      OnePiece<N>(StoreRet(Const(m.zero)), false, false, z);
      Join([Lab(0)], [StoreRet(Const(m.zero))], true, false, false, multiset{0}, multiset{}, multiset{0}, multiset{},
           multiset{}, multiset{}, z);
      assert [Lab(0)] + [StoreRet(Const(m.zero))] == [Lab(0), StoreRet(Const(m.zero))];
    } else {
      PrologueShaped(m, n - 1, nparams, z);
      OnePiece(Init(m, n - 1, nparams), false, false, z);
      Join(Prologue(m, n - 1, nparams), [Init(m, n - 1, nparams)], true, false, false, multiset{0}, multiset{},
           multiset{0}, multiset{}, multiset{}, multiset{}, z);
    }
  }

  lemma EpiloguePiece<N>(r: nat, z: Zone)
    ensures Piece<N>([Lab(1), LoadRet(r), Ret(Reg(r))], true, true, multiset{1}, multiset{r}, z)
  {
    hide Piece;
    OnePiece<N>(Lab(1), true, false, z);
    OnePiece<N>(LoadRet(r), false, false, z);
    OnePiece<N>(Ret(Reg(r)), false, true, z);
    var two: seq<Line<N>> := [Lab(1), LoadRet(r)];
    Join<N>([Lab(1)], [LoadRet(r)], true, false, false, multiset{1}, multiset{}, multiset{1}, multiset{}, multiset{r}, multiset{r}, z);
    assert [Lab(1)] + [LoadRet(r)] == two;
    Join<N>(two, [Ret(Reg(r))], true, false, true, multiset{1}, multiset{}, multiset{1}, multiset{r}, multiset{}, multiset{r}, z);
    assert two + [Ret(Reg(r))] == [Lab(1), LoadRet(r), Ret(Reg(r))];
  }

  lemma ProcPiece<N>(m: Numbers<N>, p: Proc<N>)
    ensures var k := ProcOut(m, p);
            Piece(ProcCode(m, p), true, true, Range(0, k.lbl), Range(0, k.reg + 1), Zone(0, k.lbl, 1, 1)) && k.lbl >= 2
  {
    hide Piece, Range, BlockCode, Prologue, JumpIfOpen;
    var k := ProcOut(m, p);
    BlockShaped(m, p.body, 0, 2, false, 1);
    var z := Zone(0, k.lbl, 1, 1);
    var pro, back, epi := Prologue(m, p.nslots, p.nparams), JumpIfOpen<N>(k.term, 1), [Lab(1), LoadRet(k.reg), Ret(Reg(k.reg))];
    PrologueShaped(m, p.nslots, p.nparams, z);
    Widen(k.code, false, k.term, Range(2, k.lbl), Range(0, k.reg), Zone(2, k.lbl, 1, 1), z);
    JumpPiece<N>(k.term, 1, z);
    EpiloguePiece<N>(k.reg, z);
    RangeTwo(0);
    RangeAdd(0, 2, k.lbl);
    RangeAdd(0, k.reg, k.reg + 1);
    RangeOne(k.reg);
    var none, l := multiset{}, multiset{0} + Range(2, k.lbl);
    Join(pro, k.code, true, false, k.term, multiset{0}, Range(2, k.lbl), l, none, Range(0, k.reg), Range(0, k.reg), z);
    Join(pro + k.code, back, true, k.term, true, l, none, l, Range(0, k.reg), none, Range(0, k.reg), z);
    Join(pro + k.code + back, epi, true, true, true, l, multiset{1}, Range(0, k.lbl), Range(0, k.reg),
         multiset{k.reg}, Range(0, k.reg + 1), z);
  }

  lemma {:induction false} WalkMeans<N>(code: seq<Line<N>>, t: Block3, i: nat)
    requires !Walk(code, t).Broken? && !t.Broken? && i < |code|
    ensures code[i].Lab? <==> if i == 0 then t.Between? else Terminator(code[i - 1])
    ensures i == |code| - 1 && Walk(code, t).Between? ==> Terminator(code[i])
  {
    BrokenStays(code[1..], Walk1(code[0], t));
    if i > 0 {
      WalkMeans(code[1..], Walk1(code[0], t), i - 1);
    } else if |code| == 1 {
      assert Walk(code[1..], Walk1(code[0], t)) == Walk1(code[0], t);
    }
  }

  lemma {:induction false} BrokenStays<N>(code: seq<Line<N>>, t: Block3)
    ensures t.Broken? ==> Walk(code, t).Broken?
  {
    if code != [] { BrokenStays(code[1..], Walk1(code[0], t)); }
  }

  /** Every target a line may go to. */
  ghost predicate AllDefined<N>(code: seq<Line<N>>) {
    forall i, t :: 0 <= i < |code| && t in Targets(code[i]) ==> Labels(code)[t] == 1
  }

  /** A label stands exactly at the start and after every terminator, and a terminator ends the list. */
  ghost predicate OneTerminatorPerBlock<N>(code: seq<Line<N>>) {
    && |code| > 0 && Terminator(code[|code| - 1])
    && forall i :: 0 <= i < |code| ==> (code[i].Lab? <==> i == 0 || Terminator(code[i - 1]))
  }

  lemma CountsFromPiece<N>(code: seq<Line<N>>, hi: nat, regs: nat)
    requires hi >= 2 && Piece(code, true, true, Range(0, hi), Range(0, regs), Zone(0, hi, 1, 1))
    ensures LabelsUnique(code) && AllDefined(code)
    ensures forall r: nat :: Dests(code)[r] <= 1
  {
    hide Walk, Dests, Range, Labels, Targets;
    forall l: nat ensures Labels(code)[l] == if l < hi then 1 else 0 { RangeCount(0, hi, l); }
    forall r: nat ensures Dests(code)[r] <= 1 { RangeCount(0, regs, r); }
    forall i, t | 0 <= i < |code| && t in Targets(code[i]) ensures Labels(code)[t] == 1 {
      assert InZone(t, Zone(0, hi, 1, 1));
    }
  }

  lemma BlocksFromPiece<N>(code: seq<Line<N>>, l: multiset<nat>, d: multiset<nat>, z: Zone)
    requires Piece(code, true, true, l, d, z) && l != multiset{}
    ensures OneTerminatorPerBlock(code)
  {
    forall i | 0 <= i < |code| ensures code[i].Lab? <==> i == 0 || Terminator(code[i - 1]) { WalkMeans(code, Between, i); }
    WalkMeans(code, Between, |code| - 1);
  }

  /** The form of every routine's code, whether or not any of it is reachable. */
  lemma WellFormed<N>(m: Numbers<N>, p: Proc<N>)
    ensures LabelsUnique(ProcCode(m, p))
    ensures AllDefined(ProcCode(m, p))
    ensures OneTerminatorPerBlock(ProcCode(m, p))
    ensures forall r: nat :: Dests(ProcCode(m, p))[r] <= 1
  {
    hide *;
    var code, k := ProcCode(m, p), ProcOut(m, p);
    ProcPiece(m, p);
    CountsFromPiece(code, k.lbl, k.reg + 1);
    RangeCount(0, k.lbl, 0);
    BlocksFromPiece(code, Range(0, k.lbl), Range(0, k.reg + 1), Zone(0, k.lbl, 1, 1));
  }
}
