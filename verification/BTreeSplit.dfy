/**
 Searching a page, and what a leaf split makes of the tree.
 */
module BTreeSplit {
  import opened SortedCells
  import opened BTreePages
  import opened BTreeLeaf
  import opened BTreeGrowth
  import opened BTreeStep

  // ----------------------------- page contents -----------------------------

  ghost predicate LeafRoom(n: Node, ps: nat) {
    n.Leaf? && LEAF_HDR + 2 * |n.cells| <= n.content <= ps - CellBytes(ps, n.cells)
  }

  function NCell(n: Node): nat {
    if n.Leaf? then |n.cells| else |n.seps|
  }

  function CellKey(n: Node, i: nat): Key
    requires i < NCell(n)
  {
    if n.Leaf? then n.cells[i].key else n.seps[i].key
  }

  ghost predicate KeysSorted(n: Node) {
    forall i, j :: 0 <= i < j < NCell(n) ==> CellKey(n, i) < CellKey(n, j)
  }

  /** The first cell whose key is not below `key`, by binary search. */
  method PgFind(n: Node, key: Key) returns (idx: nat, exact: bool)
    requires KeysSorted(n)
    ensures idx <= NCell(n)
    ensures forall j :: 0 <= j < idx ==> CellKey(n, j) < key
    ensures forall j :: idx <= j < NCell(n) ==> key <= CellKey(n, j)
    ensures exact <==> exists j :: 0 <= j < NCell(n) && CellKey(n, j) == key
    ensures exact <==> idx < NCell(n) && CellKey(n, idx) == key
  {
    var lo, hi := 0, NCell(n);
    while lo < hi
      invariant 0 <= lo <= hi <= NCell(n)
      invariant forall j :: 0 <= j < lo ==> CellKey(n, j) < key
      invariant forall j :: hi <= j < NCell(n) ==> key <= CellKey(n, j)
    {
      var mid := (lo + hi) / 2;
      if CellKey(n, mid) < key { lo := mid + 1; } else { hi := mid; }
    }
    idx := lo;
    exact := lo < NCell(n) && CellKey(n, lo) == key;
  }

  lemma LeafPlace(n: Node, key: Key, idx: nat)
    requires n.Leaf? && idx <= |n.cells|
    requires forall j :: 0 <= j < idx ==> CellKey(n, j) < key
    requires forall j :: idx <= j < NCell(n) ==> key <= CellKey(n, j)
    ensures IsPlace(n.cells, key, idx)
  {
    forall j | 0 <= j < idx ensures n.cells[j].key < key { assert CellKey(n, j) < key; }
    forall j | idx <= j < |n.cells| ensures key <= n.cells[j].key { assert key <= CellKey(n, j); }
  }

  lemma InteriorPlace(n: Node, key: Key, idx: nat)
    requires n.Interior? && idx <= |n.seps|
    requires forall j :: 0 <= j < idx ==> CellKey(n, j) < key
    requires forall j :: idx <= j < NCell(n) ==> key <= CellKey(n, j)
    ensures IsKidFor(n.seps, key, idx) && KidFor(n.seps, key) == idx
  {
    forall j | 0 <= j < idx ensures n.seps[j].key < key { assert CellKey(n, j) < key; }
    forall j | idx <= j < |n.seps| ensures key <= n.seps[j].key { assert key <= CellKey(n, j); }
    KidForUnique(n.seps, key, idx);
  }

  lemma PageKeysSorted(st: Store, ps: nat, p: Pgno, d: nat, lo: int, hi: int)
    requires WellFormed(st, ps, p, d, lo, hi)
    ensures KeysSorted(st[p])
    ensures st[p].Leaf? <==> d == 0
  {
    if d > 0 {
      var n, b := st[p], Bounds(st[p], lo, hi);
      assert Increasing(b);
      hide WellFormed, WellFormedKids;
      assert forall i :: 0 <= i < |n.seps| ==> b[i + 1] == n.seps[i].key;
    }
  }

  /** A leaf that cannot take its cells is asked to hold at least four of them. */
  lemma FullLeafHasFour(ps: nat, w: seq<Cell>)
    requires MIN_PAGE_SIZE <= ps && ValuesBounded(w) && !LeafFits(ps, w)
    ensures |w| >= 4
  {
    FewCellsBound(ps, w);
  }

  lemma {:induction false} FewCellsBound(ps: nat, w: seq<Cell>)
    requires MIN_PAGE_SIZE <= ps && ValuesBounded(w)
    ensures |w| <= 1 ==> CellBytes(ps, w) <= MaxPayload(ps)
    ensures |w| <= 2 ==> CellBytes(ps, w) <= 2 * MaxPayload(ps)
    ensures |w| <= 3 ==> CellBytes(ps, w) <= 3 * MaxPayload(ps)
    decreases |w|
  {
    hide CellSize;
    if 0 < |w| <= 3 {
      FewCellsBound(ps, w[..|w| - 1]);
      CellAtMostQuarter(ps, w[|w| - 1]);
    }
  }

  // ------------------------- leaves inside the tree -------------------------

  lemma LeafWritten(st: Store, ps: nat, p: Pgno, n: Node, lo: int, hi: int)
    requires p in st && lo < hi && GoodLeaf(n, ps, lo, hi)
    ensures Grown(st, st[p := n], ps, p, 0, lo, hi, NoSplit)
    ensures ResultMap(st[p := n], p, 0, NoSplit) == ToMap(n.cells)
  {
  }

  lemma LeavesWritten(st: Store, ps: nat, p: Pgno, l: Node, r: Pgno, n: Node, lo: int, sep: Key, hi: int)
    requires p in st && r !in st && lo < sep < hi
    requires GoodLeaf(l, ps, lo, sep) && GoodLeaf(n, ps, sep, hi)
    ensures Grown(st, st[p := l][r := n], ps, p, 0, lo, hi, SplitAt(sep, r))
    ensures ResultMap(st[p := l][r := n], p, 0, SplitAt(sep, r)) == ToMap(l.cells) + ToMap(n.cells)
  {
    assert l.Leaf? && n.Leaf?;
    hide GoodLeaf, ToMap;
  }

  /** Half a sorted run of cells, as a page holds it, keeps to its side of the separator. */
  lemma KeptGood(ps: nat, w: seq<Cell>, i: nat, j: nat, kept: seq<Cell>, lo: int, hi: int)
    requires Sorted(w) && ValuesBounded(w) && i <= j <= |w|
    requires Kept(ps, w[i..j], kept)
    requires forall x :: i <= x < j ==> lo < w[x].key <= hi
    ensures Sorted(kept) && Within(kept, lo, hi) && ValuesBounded(kept)
  {
    hide ToMap, LeafFits, Loses;
    forall x | 0 <= x < |kept| ensures lo < kept[x].key <= hi && |kept[x].val| <= MAX_VALUE_LEN {
      assert kept[x] in w[i..j];
      var y :| 0 <= y < j - i && w[i..j][y] == kept[x];
      assert w[i + y] == kept[x];
    }
  }

  lemma LossLeft(l: Table, l': Table, r: Table, r': Table)
    requires Loses(l, l') && l.Keys !! r'.Keys
    ensures Loses(l + r, l' + r')
  {
    var k :| k in l && k !in l';
    assert k in l + r && k !in l' + r';
  }

  lemma LossRight(l: Table, l': Table, r: Table, r': Table)
    requires Loses(r, r') && r.Keys !! l'.Keys
    ensures Loses(l + r, l' + r')
  {
    var k :| k in r && k !in r';
    assert k in l + r && k !in l' + r';
  }

  /** The two halves together hold the wanted map exactly when both fit. */
  lemma HalvesWritten(ps: nat, w: seq<Cell>, a: seq<Cell>, z: seq<Cell>, lo: int, sep: int, hi: int)
    requires Sorted(w)
    requires Kept(ps, w[..|w| / 2], a) && Kept(ps, w[|w| / 2..], z)
    requires Within(w[..|w| / 2], lo, sep) && Within(w[|w| / 2..], sep, hi)
    requires Within(a, lo, sep) && Within(z, sep, hi)
    ensures HalvesFit(ps, w) ==> ToMap(a) + ToMap(z) == ToMap(w)
    ensures !HalvesFit(ps, w) ==> Loses(ToMap(w), ToMap(a) + ToMap(z))
  {
    hide ToMap, LeafFits, Loses;
    var l, r := w[..|w| / 2], w[|w| / 2..];
    assert l + r == w;
    ToMapConcat(l, r);
    ToMapWithin(l, lo, sep);
    ToMapWithin(a, lo, sep);
    ToMapWithin(r, sep, hi);
    ToMapWithin(z, sep, hi);
    if !LeafFits(ps, l) {
      LossLeft(ToMap(l), ToMap(a), ToMap(r), ToMap(z));
    } else if !LeafFits(ps, r) {
      LossRight(ToMap(l), ToMap(a), ToMap(r), ToMap(z));
    }
  }

  /** The separator is the largest key of the left half. */
  lemma HalvesWithin(w: seq<Cell>, lo: int, hi: int)
    requires |w| >= 2 && Sorted(w) && Within(w, lo, hi)
    ensures var h := |w| / 2; var sep := w[h - 1].key;
            lo < sep < hi && Within(w[..h], lo, sep) && Within(w[h..], sep, hi)
  {
    var h := |w| / 2;
    assert w[h - 1].key < w[h].key;
  }

  lemma KeptHalves(ps: nat, w: seq<Cell>, a: seq<Cell>, z: seq<Cell>, lo: int, hi: int)
    requires |w| >= 2 && Sorted(w) && ValuesBounded(w) && Within(w, lo, hi)
    requires Kept(ps, w[..|w| / 2], a) && Kept(ps, w[|w| / 2..], z)
    ensures var sep := w[|w| / 2 - 1].key;
            && Sorted(a) && Within(a, lo, sep) && ValuesBounded(a)
            && Sorted(z) && Within(z, sep, hi) && ValuesBounded(z)
  {
    hide Kept;
    var h := |w| / 2;
    assert w[0..h] == w[..h] && w[h..|w|] == w[h..];
    KeptGood(ps, w, 0, h, a, lo, w[h - 1].key);
    KeptGood(ps, w, h, |w|, z, w[h - 1].key, hi);
  }

  /** A leaf split around separator w[h-1] is a grown tree holding what the halves hold. */
  lemma SplitGrown(st: Store, ps: nat, p: Pgno, l: Node, r: Pgno, n: Node, w: seq<Cell>, lo: int, hi: int)
    requires p in st && r !in st && |w| >= 2
    requires Sorted(w) && ValuesBounded(w) && Within(w, lo, hi)
    requires LeafRoom(l, ps) && LeafRoom(n, ps)
    requires Kept(ps, w[..|w| / 2], l.cells) && Kept(ps, w[|w| / 2..], n.cells)
    ensures var sep := w[|w| / 2 - 1].key; var sp := SplitAt(sep, r); var st' := st[p := l][r := n];
            && Grown(st, st', ps, p, 0, lo, hi, sp)
            && (HalvesFit(ps, w) ==> ResultMap(st', p, 0, sp) == ToMap(w))
            && (!HalvesFit(ps, w) ==> Loses(ToMap(w), ResultMap(st', p, 0, sp)))
  {
    hide ToMap, LeafFits, Loses, Kept, HalvesFit, Grown, ResultMap, Sorted, Within, ValuesBounded;
    var sep := w[|w| / 2 - 1].key;
    HalvesWithin(w, lo, hi);
    KeptHalves(ps, w, l.cells, n.cells, lo, hi);
    GoodLeafIntro(l, ps, lo, sep);
    GoodLeafIntro(n, ps, sep, hi);
    LeavesWritten(st, ps, p, l, r, n, lo, sep, hi);
    HalvesWritten(ps, w, l.cells, n.cells, lo, sep, hi);
  }

  lemma GoodLeafIntro(n: Node, ps: nat, lo: int, hi: int)
    requires LeafRoom(n, ps) && Sorted(n.cells) && Within(n.cells, lo, hi) && ValuesBounded(n.cells)
    ensures GoodLeaf(n, ps, lo, hi)
  {
  }
}
