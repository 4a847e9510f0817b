/**
 What an insertion may do to a tree, and how a parent absorbs what happened to a child.

 These lemmas carry the whole argument for `BTree.InsertRec`: one about replacing a child
 by one or two trees, one about writing a parent page above its children.
 */
module BTreeGrowth {
  import opened SortedCells
  import opened BTreePages

  /** What an insertion reports to the parent: nothing, or a new right sibling. */
  datatype Split = NoSplit | SplitAt(sep: Key, right: Pgno)

  ghost function ResultMap(st: Store, p: Pgno, d: nat, sp: Split): Table {
    if sp.SplitAt? then Below(st, p, d) + Below(st, sp.right, d) else Below(st, p, d)
  }

  ghost function ResultPages(st: Store, p: Pgno, d: nat, sp: Split): set<Pgno> {
    Footprint(st, p, d) + if sp.SplitAt? then Footprint(st, sp.right, d) else {}
  }

  ghost predicate ResultWellFormed(st: Store, ps: nat, p: Pgno, d: nat, lo: int, hi: int, sp: Split) {
    match sp
    case NoSplit => WellFormed(st, ps, p, d, lo, hi)
    case SplitAt(sep, right) =>
      && lo < sep < hi
      && WellFormed(st, ps, p, d, lo, sep)
      && WellFormed(st, ps, right, d, sep, hi)
      && Footprint(st, p, d) !! Footprint(st, right, d)
  }

  /** Pages outside the tree at p are untouched; the result uses old pages of p and new pages. */
  ghost predicate Confined(st: Store, st': Store, p: Pgno, d: nat, result: set<Pgno>) {
    && st.Keys <= st'.Keys
    && (forall q :: q in st && q !in Footprint(st, p, d) ==> st'[q] == st[q])
    && (forall q :: q in result ==> q in Footprint(st, p, d) || q !in st)
  }

  ghost predicate Grown(st: Store, st': Store, ps: nat, p: Pgno, d: nat, lo: int, hi: int, sp: Split) {
    && ResultWellFormed(st', ps, p, d, lo, hi, sp)
    && Confined(st, st', p, d, ResultPages(st', p, d, sp))
  }

  lemma {:induction false} FootprintInStore(st: Store, ps: nat, p: Pgno, d: nat, lo: int, hi: int)
    requires WellFormed(st, ps, p, d, lo, hi)
    ensures Footprint(st, p, d) <= st.Keys
    decreases d
  {
    if d > 0 {
      var kids, b := Kids(st[p]), Bounds(st[p], lo, hi);
      forall q | q in FootprintKids(st, kids, d - 1) ensures q in st {
        InFootprintKids(st, kids, d - 1, q);
        var i :| 0 <= i < |kids| && q in Footprint(st, kids[i], d - 1);
        FootprintInStore(st, ps, kids[i], d - 1, b[i], b[i + 1]);
      }
    }
  }

  lemma {:induction false} FootprintKidsInStore(st: Store, ps: nat, kids: seq<Pgno>, b: seq<int>, d: nat)
    requires WellFormedKids(st, ps, kids, b, d)
    ensures FootprintKids(st, kids, d) <= st.Keys
  {
    forall q | q in FootprintKids(st, kids, d) ensures q in st {
      InFootprintKids(st, kids, d, q);
      var i :| 0 <= i < |kids| && q in Footprint(st, kids[i], d);
      FootprintInStore(st, ps, kids[i], d, b[i], b[i + 1]);
    }
  }

  /** The children and their bounds after child i became one tree or two. */
  ghost function NewKids(kids: seq<Pgno>, i: nat, sp: Split): (r: seq<Pgno>)
    requires i < |kids|
    ensures sp.SplitAt? ==> |r| == |kids| + 1
    ensures sp.SplitAt? ==> forall j :: 0 <= j < |r| ==> r[j] == if j == i + 1 then sp.right else kids[OldKid(i, sp, j)]
  {
    match sp
    case NoSplit => kids
    case SplitAt(_, right) => kids[..i + 1] + [right] + kids[i + 1..]
  }

  ghost function NewBounds(b: seq<int>, i: nat, sp: Split): (r: seq<int>)
    requires i + 1 < |b|
    ensures sp.SplitAt? ==> |r| == |b| + 1
    ensures sp.SplitAt? ==> forall j :: 0 <= j < |r| ==> r[j] == if j <= i then b[j] else if j == i + 1 then sp.sep else b[j - 1]
  {
    match sp
    case NoSplit => b
    case SplitAt(sep, _) => b[..i + 1] + [sep] + b[i + 1..]
  }

  /** The child that child j of the result comes from. */
  ghost function OldKid(i: nat, sp: Split, j: int): int {
    if sp.NoSplit? || j <= i then j else j - 1
  }

  /** A sibling of the changed child is untouched. */
  lemma {:induction false} SiblingUntouched(st: Store, st': Store, ps: nat, kids: seq<Pgno>, b: seq<int>, d: nat,
                                            i: nat, sp: Split, j: nat)
    requires WellFormedKids(st, ps, kids, b, d)
    requires i < |kids| && j < |kids| && i != j
    requires Grown(st, st', ps, kids[i], d, b[i], b[i + 1], sp)
    ensures Footprint(st', kids[j], d) == Footprint(st, kids[j], d)
    ensures Below(st', kids[j], d) == Below(st, kids[j], d)
    ensures WellFormed(st', ps, kids[j], d, b[j], b[j + 1])
    ensures Footprint(st', kids[j], d) !! ResultPages(st', kids[i], d, sp)
  {
    FootprintInStore(st, ps, kids[j], d, b[j], b[j + 1]);
    assert Footprint(st, kids[i], d) !! Footprint(st, kids[j], d);
    Frame(st, st', ps, kids[j], d);
  }

  lemma {:induction false} SiblingsUntouched(st: Store, st': Store, ps: nat, kids: seq<Pgno>, b: seq<int>, d: nat,
                                             i: nat, sp: Split, x: nat, y: nat)
    requires WellFormedKids(st, ps, kids, b, d)
    requires i < |kids| && x <= y <= |kids| && !(x <= i < y)
    requires Grown(st, st', ps, kids[i], d, b[i], b[i + 1], sp)
    ensures BelowKids(st', kids[x..y], d) == BelowKids(st, kids[x..y], d)
    decreases y - x
  {
    if x < y {
      SiblingUntouched(st, st', ps, kids, b, d, i, sp, x);
      SiblingsUntouched(st, st', ps, kids, b, d, i, sp, x + 1, y);
      assert kids[x..y][1..] == kids[x + 1..y];
    }
  }

  /** Each child of the result is well formed and uses pages of the child it comes from. */
  lemma ResultKid(st: Store, st': Store, ps: nat, kids: seq<Pgno>, b: seq<int>, d: nat, i: nat, sp: Split, j: nat)
    requires WellFormedKids(st, ps, kids, b, d)
    requires i < |kids|
    requires Grown(st, st', ps, kids[i], d, b[i], b[i + 1], sp)
    requires j < |NewKids(kids, i, sp)|
    ensures WellFormed(st', ps, NewKids(kids, i, sp)[j], d, NewBounds(b, i, sp)[j], NewBounds(b, i, sp)[j + 1])
    ensures var o := OldKid(i, sp, j);
            Footprint(st', NewKids(kids, i, sp)[j], d)
            <= if o == i then ResultPages(st', kids[i], d, sp) else Footprint(st, kids[o], d)
  {
    hide WellFormed, Footprint;
    var o := OldKid(i, sp, j);
    if o != i {
      SiblingUntouched(st, st', ps, kids, b, d, i, sp, o);
    }
  }

  lemma KidReplaced(st: Store, st': Store, ps: nat, kids: seq<Pgno>, b: seq<int>, d: nat, i: nat, sp: Split)
    requires WellFormedKids(st, ps, kids, b, d)
    requires i < |kids|
    requires Grown(st, st', ps, kids[i], d, b[i], b[i + 1], sp)
    ensures WellFormedKids(st', ps, NewKids(kids, i, sp), NewBounds(b, i, sp), d)
  {
    hide WellFormed, Footprint;
    var kids', b' := NewKids(kids, i, sp), NewBounds(b, i, sp);
    forall j | 0 <= j < |kids'| ensures WellFormed(st', ps, kids'[j], d, b'[j], b'[j + 1]) {
      ResultKid(st, st', ps, kids, b, d, i, sp, j);
    }
    ApartAfter(st, st', ps, kids, b, d, i, sp);
  }

  lemma KidReplacedPages(st: Store, st': Store, ps: nat, kids: seq<Pgno>, b: seq<int>, d: nat, i: nat, sp: Split,
                         q: Pgno)
    requires WellFormedKids(st, ps, kids, b, d)
    requires i < |kids|
    requires Grown(st, st', ps, kids[i], d, b[i], b[i + 1], sp)
    requires q in FootprintKids(st', NewKids(kids, i, sp), d)
    ensures q in FootprintKids(st, kids, d) || q !in st
  {
    hide WellFormed, Footprint, FootprintKids;
    var kids' := NewKids(kids, i, sp);
    InFootprintKids(st', kids', d, q);
    var j :| 0 <= j < |kids'| && q in Footprint(st', kids'[j], d);
    ResultKid(st, st', ps, kids, b, d, i, sp, j);
    InFootprintKids(st, kids, d, q);
    assert 0 <= OldKid(i, sp, j) < |kids|;
  }

  lemma ApartAfter(st: Store, st': Store, ps: nat, kids: seq<Pgno>, b: seq<int>, d: nat, i: nat, sp: Split)
    requires WellFormedKids(st, ps, kids, b, d)
    requires i < |kids|
    requires Grown(st, st', ps, kids[i], d, b[i], b[i + 1], sp)
    ensures Apart(st', NewKids(kids, i, sp), d)
  {
    hide WellFormed, Footprint;
    var kids' := NewKids(kids, i, sp);
    forall x, y | 0 <= x < y < |kids'| ensures Footprint(st', kids'[x], d) !! Footprint(st', kids'[y], d) {
      var ox, oy := OldKid(i, sp, x), OldKid(i, sp, y);
      ResultKid(st, st', ps, kids, b, d, i, sp, x);
      ResultKid(st, st', ps, kids, b, d, i, sp, y);
      if ox != i { SiblingUntouched(st, st', ps, kids, b, d, i, sp, ox); }
      if oy != i { SiblingUntouched(st, st', ps, kids, b, d, i, sp, oy); }
    }
  }

  /** Only the changed child's part of the map changes. */
  lemma KidReplacedMap(st: Store, st': Store, ps: nat, kids: seq<Pgno>, b: seq<int>, d: nat, i: nat, sp: Split)
    requires WellFormedKids(st, ps, kids, b, d)
    requires i < |kids|
    requires Grown(st, st', ps, kids[i], d, b[i], b[i + 1], sp)
    ensures BelowKids(st', NewKids(kids, i, sp), d)
         == BelowKids(st, kids[..i], d) + ResultMap(st', kids[i], d, sp) + BelowKids(st, kids[i + 1..], d)
  {
    hide WellFormed, Footprint, Below, BelowKids;
    var kids' := NewKids(kids, i, sp);
    var a, z := kids[..i], kids[i + 1..];
    assert BelowKids(st', a, d) == BelowKids(st, a, d) by {
      SiblingsUntouched(st, st', ps, kids, b, d, i, sp, 0, i);
      assert kids[0..i] == a;
    }
    assert BelowKids(st', z, d) == BelowKids(st, z, d) by {
      SiblingsUntouched(st, st', ps, kids, b, d, i, sp, i + 1, |kids|);
      assert kids[i + 1..|kids|] == z;
    }
    BelowKidsSplit(st', kids', i, d);
    assert kids'[..i] == a && kids'[i] == kids[i];
    if sp.SplitAt? {
      var z' := kids'[i + 1..];
      assert z'[0] == sp.right && z'[1..] == z;
      BelowKidsSplit(st', z', 0, d);
      assert z'[..0] == [];
      RegroupSplit(BelowKids(st', a, d), Below(st', kids[i], d), Below(st', sp.right, d), BelowKids(st', z, d));
      BelowNoKids(st', d);
    }
  }

  lemma BelowNoKids(st: Store, d: nat)
    ensures BelowKids(st, [], d) == map[]
  {
  }

  lemma RegroupSplit<K, V>(a: map<K, V>, l: map<K, V>, r: map<K, V>, z: map<K, V>)
    ensures a + l + (map[] + r + z) == a + (l + r) + z
  {
  }

  /** Writing a parent page above well-formed children gives a well-formed tree. */
  lemma {:induction false} ParentWritten(st: Store, ps: nat, p: Pgno, n: Node, d: nat, lo: int, hi: int)
    requires GoodInterior(n, ps)
    requires lo < hi
    requires WellFormedKids(st, ps, Kids(n), Bounds(n, lo, hi), d)
    requires p !in FootprintKids(st, Kids(n), d)
    ensures WellFormed(st[p := n], ps, p, d + 1, lo, hi)
    ensures Below(st[p := n], p, d + 1) == BelowKids(st, Kids(n), d)
    ensures Footprint(st[p := n], p, d + 1) == {p} + FootprintKids(st, Kids(n), d)
  {
    FrameKids(st, st[p := n], ps, Kids(n), d);
  }

  lemma {:induction false} FootprintKidsSlice(st: Store, kids: seq<Pgno>, d: nat, i: nat, j: nat)
    requires i <= j <= |kids|
    ensures FootprintKids(st, kids[i..j], d) <= FootprintKids(st, kids, d)
  {
    forall q | q in FootprintKids(st, kids[i..j], d) ensures q in FootprintKids(st, kids, d) {
      InFootprintKids(st, kids[i..j], d, q);
      var x :| 0 <= x < |kids[i..j]| && q in Footprint(st, kids[i..j][x], d);
      assert kids[i..j][x] == kids[i + x];
      InFootprintKids(st, kids, d, q);
    }
  }

  lemma FootprintKidsApart(st: Store, kids: seq<Pgno>, d: nat, m: nat)
    requires Apart(st, kids, d) && m <= |kids|
    ensures FootprintKids(st, kids[..m], d) !! FootprintKids(st, kids[m..], d)
  {
    hide Footprint, FootprintKids;
    forall q | q in FootprintKids(st, kids[..m], d) ensures q !in FootprintKids(st, kids[m..], d) {
      InFootprintKids(st, kids[..m], d, q);
      InFootprintKids(st, kids[m..], d, q);
      var x :| 0 <= x < m && q in Footprint(st, kids[x], d);
      assert forall y :: m <= y < |kids| ==> q !in Footprint(st, kids[y], d);
    }
  }

  /** Two parents, each above its half of well-formed children, are an interior split. */
  lemma ParentsWritten(st: Store, ps: nat, p: Pgno, l: Node, r: Pgno, n: Node,
                       kids: seq<Pgno>, b: seq<int>, d: nat, m: nat)
    requires GoodInterior(l, ps) && GoodInterior(n, ps)
    requires WellFormedKids(st, ps, kids, b, d)
    requires 0 < m < |kids|
    requires Kids(l) == kids[..m] && Kids(n) == kids[m..]
    requires Bounds(l, b[0], b[m]) == b[..m + 1] && Bounds(n, b[m], b[|kids|]) == b[m..]
    requires p != r && p !in FootprintKids(st, kids, d) && r !in FootprintKids(st, kids, d)
    ensures var st' := st[p := l][r := n];
            && WellFormed(st', ps, p, d + 1, b[0], b[m])
            && WellFormed(st', ps, r, d + 1, b[m], b[|kids|])
            && Footprint(st', p, d + 1) == {p} + FootprintKids(st, kids[..m], d)
            && Footprint(st', r, d + 1) == {r} + FootprintKids(st, kids[m..], d)
            && Footprint(st', p, d + 1) !! Footprint(st', r, d + 1)
            && Below(st', p, d + 1) + Below(st', r, d + 1) == BelowKids(st, kids, d)
  {
    hide WellFormed, Footprint, Below, BelowKids, FootprintKids, WellFormedKids;
    var kl, kr := kids[..m], kids[m..];
    var st1 := st[p := l];
    HalvesWellFormed(st, ps, kids, b, d, m);
    FootprintKidsApart(st, kids, d, m);
    ParentWritten(st, ps, p, l, d, b[0], b[m]);
    FrameKids(st, st1, ps, kr, d);
    ParentWritten(st1, ps, r, n, d, b[m], b[|kids|]);
    Frame(st1, st1[r := n], ps, p, d + 1);
    BelowKidsConcat(st, kl, kr, d);
    assert kids == kl + kr;
  }

  lemma HalvesWellFormed(st: Store, ps: nat, kids: seq<Pgno>, b: seq<int>, d: nat, m: nat)
    requires WellFormedKids(st, ps, kids, b, d)
    requires 0 < m < |kids|
    ensures |b| == |kids| + 1 && Apart(st, kids, d)
    ensures b[0] < b[m] < b[|kids|]
    ensures WellFormedKids(st, ps, kids[..m], b[..m + 1], d)
    ensures WellFormedKids(st, ps, kids[m..], b[m..], d)
    ensures FootprintKids(st, kids[..m], d) <= FootprintKids(st, kids, d)
    ensures FootprintKids(st, kids[m..], d) <= FootprintKids(st, kids, d)
  {
    hide WellFormed, Footprint, FootprintKids;
    assert kids[0..m] == kids[..m] && kids[m..|kids|] == kids[m..];
    assert b[0..m + 1] == b[..m + 1] && b[m..|kids| + 1] == b[m..];
    WellFormedSlice(st, ps, kids, b, d, 0, m);
    WellFormedSlice(st, ps, kids, b, d, m, |kids|);
    FootprintKidsSlice(st, kids, d, 0, m);
    FootprintKidsSlice(st, kids, d, m, |kids|);
  }
}
