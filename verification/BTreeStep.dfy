/**
 From a child's insertion to its parent's: what a written interior page makes of the tree.
 */
module BTreeStep {
  import opened SortedCells
  import opened BTreePages
  import opened BTreeLeaf
  import opened BTreeGrowth

  /** Index of the child a search for k descends into: the number of separators below k. */
  ghost function KidFor(seps: seq<Sep>, k: int): (n: nat)
    ensures n <= |seps|
  {
    if seps == [] then 0 else KidFor(seps[..|seps| - 1], k) + if seps[|seps| - 1].key < k then 1 else 0
  }

  ghost predicate IsKidFor(seps: seq<Sep>, k: int, i: int) {
    && 0 <= i <= |seps|
    && (forall j :: 0 <= j < i ==> seps[j].key < k)
    && (forall j :: i <= j < |seps| ==> k <= seps[j].key)
  }

  lemma {:induction false} KidForUnique(seps: seq<Sep>, k: int, i: nat)
    requires IsKidFor(seps, k, i)
    ensures KidFor(seps, k) == i
  {
    if seps != [] {
      var s1 := seps[..|seps| - 1];
      if i == |seps| {
        assert seps[|seps| - 1].key < k;
        KidForUnique(s1, k, i - 1);
      } else {
        KidForUnique(s1, k, i);
      }
    }
  }

  /** Writing c below page p loses nothing: decided by the one leaf the search ends at. */
  ghost predicate SafeInsert(st: Store, ps: nat, p: Pgno, d: nat, c: Cell)
    decreases d
  {
    p in st && match st[p]
      case Leaf(cells, _) => d == 0 && LeafSafe(ps, cells, c)
      case Interior(seps, _, _) => d > 0 && SafeInsert(st, ps, Kid(st[p], KidFor(seps, c.key)), d - 1, c)
  }

  /** The map after writing c: updated when the insertion was safe, short of a key otherwise. */
  ghost predicate Written(safe: bool, before: Table, after: Table, c: Cell) {
    if safe then after == before[c.key := c.val] else Loses(before[c.key := c.val], after)
  }

  /** The key lies in the range of the child the search descends into. */
  lemma KidRange(n: Node, lo: int, hi: int, k: int, i: nat)
    requires n.Interior? && IsKidFor(n.seps, k, i) && lo < k <= hi
    ensures Bounds(n, lo, hi)[i] < k <= Bounds(n, lo, hi)[i + 1]
  {
    var b := Bounds(n, lo, hi);
    assert i > 0 ==> b[i] == n.seps[i - 1].key;
    assert i < |n.seps| ==> b[i + 1] == n.seps[i].key;
  }

  lemma UpdateMiddle<K, V>(a: map<K, V>, m: map<K, V>, z: map<K, V>, k: K, v: V)
    requires k !in z
    ensures a + m[k := v] + z == (a + m + z)[k := v]
  {
  }

  /** A key missing from the middle part is missing from the whole, when no other part may hold it. */
  lemma LossMiddle(a: Table, m: Table, m': Table, z: Table, c: Cell, lo: int, hi: int)
    requires Loses(m[c.key := c.val], m')
    requires KeysWithin(m, lo, hi) && lo < c.key <= hi
    requires forall k :: k in a ==> k <= lo
    requires forall k :: k in z ==> hi < k
    ensures Loses((a + m + z)[c.key := c.val], a + m' + z)
  {
    var k :| k in m[c.key := c.val] && k !in m';
    assert k in (a + m + z)[c.key := c.val] && k !in a + m' + z;
  }

  /** What the child's map change means for the children together. */
  lemma KidWritten(st: Store, st': Store, ps: nat, kids: seq<Pgno>, b: seq<int>, d: nat, i: nat, sp: Split,
                   safe: bool, c: Cell)
    requires WellFormedKids(st, ps, kids, b, d)
    requires i < |kids| && b[i] < c.key <= b[i + 1]
    requires Grown(st, st', ps, kids[i], d, b[i], b[i + 1], sp)
    requires Written(safe, Below(st, kids[i], d), ResultMap(st', kids[i], d, sp), c)
    ensures Written(safe, BelowKids(st, kids, d), BelowKids(st', NewKids(kids, i, sp), d), c)
  {
    hide WellFormed, Below, BelowKids, ResultMap, Grown, NewKids;
    KidReplacedMap(st, st', ps, kids, b, d, i, sp);
    BelowKidsSplit(st, kids, i, d);
    var a, m, z := BelowKids(st, kids[..i], d), Below(st, kids[i], d), BelowKids(st, kids[i + 1..], d);
    var m' := ResultMap(st', kids[i], d, sp);
    PartsWithin(st, ps, kids, b, d, i);
    if safe {
      UpdateMiddle(a, m, z, c.key, c.val);
    } else {
      LossMiddle(a, m, m', z, c, b[i], b[i + 1]);
    }
  }

  lemma PartsWithin(st: Store, ps: nat, kids: seq<Pgno>, b: seq<int>, d: nat, i: nat)
    requires WellFormedKids(st, ps, kids, b, d)
    requires i < |kids|
    ensures KeysWithin(BelowKids(st, kids[..i], d), b[0], b[i])
    ensures KeysWithin(Below(st, kids[i], d), b[i], b[i + 1])
    ensures KeysWithin(BelowKids(st, kids[i + 1..], d), b[i + 1], b[|kids|])
  {
    hide WellFormed, Below, BelowKids;
    WellFormedSlice(st, ps, kids, b, d, 0, i);
    assert kids[0..i] == kids[..i];
    BelowKidsWithin(st, ps, kids[..i], b[0..i + 1], d);
    WellFormedSlice(st, ps, kids, b, d, i + 1, |kids|);
    assert kids[i + 1..|kids|] == kids[i + 1..];
    BelowKidsWithin(st, ps, kids[i + 1..], b[i + 1..|kids| + 1], d);
    BelowWithin(st, ps, kids[i], d, b[i], b[i + 1]);
  }

  lemma KidInFootprint(st: Store, ps: nat, p: Pgno, d: nat, lo: int, hi: int, i: nat)
    requires WellFormed(st, ps, p, d + 1, lo, hi)
    requires i < |Kids(st[p])|
    ensures Footprint(st, p, d + 1) == {p} + FootprintKids(st, Kids(st[p]), d)
    ensures Footprint(st, Kids(st[p])[i], d) <= Footprint(st, p, d + 1)
    ensures p !in Footprint(st, Kids(st[p])[i], d)
  {
    forall q | q in Footprint(st, Kids(st[p])[i], d) ensures q in FootprintKids(st, Kids(st[p]), d) {
      InFootprintKids(st, Kids(st[p]), d, q);
    }
  }

  /** The child's change, seen from the parent page. */
  lemma KidConfined(st: Store, st': Store, ps: nat, p: Pgno, d: nat, lo: int, hi: int, i: nat, sp: Split)
    requires WellFormed(st, ps, p, d + 1, lo, hi)
    requires i < |Kids(st[p])|
    requires var b := Bounds(st[p], lo, hi); Grown(st, st', ps, Kids(st[p])[i], d, b[i], b[i + 1], sp)
    ensures WellFormedKids(st, ps, Kids(st[p]), Bounds(st[p], lo, hi), d)
    ensures p in st' && st'[p] == st[p]
    ensures p !in FootprintKids(st', NewKids(Kids(st[p]), i, sp), d)
    ensures Confined(st, st', p, d + 1, FootprintKids(st', NewKids(Kids(st[p]), i, sp), d))
  {
    KidInFootprint(st, ps, p, d, lo, hi, i);
    var kids, b := Kids(st[p]), Bounds(st[p], lo, hi);
    assert WellFormedKids(st, ps, kids, b, d) && p !in FootprintKids(st, kids, d);
    hide WellFormed, FootprintKids, NewKids, Footprint, WellFormedKids;
    forall q | q in FootprintKids(st', NewKids(kids, i, sp), d)
      ensures q in FootprintKids(st, kids, d) || q !in st
    {
      KidReplacedPages(st, st', ps, kids, b, d, i, sp, q);
    }
  }

  /** The parent page takes its changed children in place. */
  lemma AbsorbedInPlace(st: Store, st1: Store, ps: nat, p: Pgno, n: Node, d: nat, lo: int, hi: int)
    requires p in st && lo < hi
    requires GoodInterior(n, ps)
    requires WellFormedKids(st1, ps, Kids(n), Bounds(n, lo, hi), d)
    requires p !in FootprintKids(st1, Kids(n), d)
    requires Confined(st, st1, p, d + 1, FootprintKids(st1, Kids(n), d))
    ensures Grown(st, st1[p := n], ps, p, d + 1, lo, hi, NoSplit)
    ensures ResultMap(st1[p := n], p, d + 1, NoSplit) == BelowKids(st1, Kids(n), d)
  {
    PageInFootprint(st, p, d + 1);
    hide WellFormed, WellFormedKids, Footprint, FootprintKids, Below, BelowKids, Bounds;
    ParentWritten(st1, ps, p, n, d, lo, hi);
  }

  lemma PageInFootprint(st: Store, p: Pgno, d: nat)
    ensures p in Footprint(st, p, d)
  {
  }

  lemma SplitConfined(st: Store, st1: Store, p: Pgno, l: Node, r: Pgno, n: Node, d: nat, kids: set<Pgno>,
                      result: set<Pgno>)
    requires Confined(st, st1, p, d, kids)
    requires p in st && r !in st1
    requires result <= {p} + {r} + kids
    ensures Confined(st, st1[p := l][r := n], p, d, result)
  {
    PageInFootprint(st, p, d);
    hide Footprint;
  }

  /** The parent page splits around its changed children. */
  lemma AbsorbedBySplit(st: Store, st1: Store, ps: nat, p: Pgno, l: Node, r: Pgno, n: Node,
                        kids: seq<Pgno>, b: seq<int>, d: nat, m: nat, sep: Key)
    requires WellFormedKids(st1, ps, kids, b, d)
    requires p in st && p !in FootprintKids(st1, kids, d)
    requires Confined(st, st1, p, d + 1, FootprintKids(st1, kids, d))
    requires r !in st1
    requires GoodInterior(l, ps) && GoodInterior(n, ps)
    requires 0 < m < |kids| && b[m] == sep
    requires Kids(l) == kids[..m] && Kids(n) == kids[m..]
    requires Bounds(l, b[0], sep) == b[..m + 1] && Bounds(n, sep, b[|kids|]) == b[m..]
    ensures Grown(st, st1[p := l][r := n], ps, p, d + 1, b[0], b[|kids|], SplitAt(sep, r))
    ensures ResultMap(st1[p := l][r := n], p, d + 1, SplitAt(sep, r)) == BelowKids(st1, kids, d)
  {
    var st2 := st1[p := l][r := n];
    assert ResultWellFormed(st2, ps, p, d + 1, b[0], b[|kids|], SplitAt(sep, r))
        && ResultPages(st2, p, d + 1, SplitAt(sep, r)) <= {p} + {r} + FootprintKids(st1, kids, d)
        && ResultMap(st2, p, d + 1, SplitAt(sep, r)) == BelowKids(st1, kids, d)
    by {
      hide WellFormed, WellFormedKids, Footprint, FootprintKids, Below, BelowKids, Confined, Kids, Bounds, Increasing;
      FootprintKidsInStore(st1, ps, kids, b, d);
      ParentsWritten(st1, ps, p, l, r, n, kids, b, d, m);
      HalvesWellFormed(st1, ps, kids, b, d, m);
    }
    SplitConfined(st, st1, p, l, r, n, d + 1, FootprintKids(st1, kids, d), ResultPages(st2, p, d + 1, SplitAt(sep, r)));
    hide *;
    assert Grown(st, st2, ps, p, d + 1, b[0], b[|kids|], SplitAt(sep, r)) by { GrownIntro(st, st2, ps, p, d + 1, b[0], b[|kids|], SplitAt(sep, r)); }
  }

  lemma GrownIntro(st: Store, st': Store, ps: nat, p: Pgno, d: nat, lo: int, hi: int, sp: Split)
    requires ResultWellFormed(st', ps, p, d, lo, hi, sp)
    requires Confined(st, st', p, d, ResultPages(st', p, d, sp))
    ensures Grown(st, st', ps, p, d, lo, hi, sp)
  {
  }
}
