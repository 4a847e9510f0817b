/**
 B-tree pages: their sizes in bytes, and the tree a page store holds below a page.

 A tree is read straight off the page store. `Below`, `Footprint` and `WellFormed` take
 the height of a page, so equal leaf depth is part of what `WellFormed` says.
 */
module BTreePages {
  import opened Basics
  import opened SortedCells

  type Pgno = nat

  datatype Sep = Sep(child: Pgno, key: Key)

  /** `content` is the offset where cell bytes begin; deleted cells leave holes above it. */
  datatype Node =
    | Leaf(cells: seq<Cell>, content: int)
    | Interior(seps: seq<Sep>, right: Pgno, content: int)

  type Store = map<Pgno, Node>

  const LEAF_HDR := 8
  const INTERIOR_HDR := 12
  const MIN_PAGE_SIZE := 512
  const MAX_VALUE_LEN := 0x7FFF_FFFF
  const INTERIOR_CELL := 13 // child number, one length byte, 8 key bytes

  // ------------------------------ cell sizes ------------------------------

  function MaxPayload(ps: nat): int { (ps - 12) / 4 }

  function CellHdr(vlen: nat): nat { 1 + 8 + VarintLen(vlen) }

  /** Bytes of a value kept in the leaf; the rest spills to an overflow chain. */
  function LocalLen(ps: nat, vlen: nat): (n: nat)
    ensures n <= vlen
  {
    if CellHdr(vlen) + vlen <= MaxPayload(ps) then vlen
    else
      var budget := MaxPayload(ps) - CellHdr(vlen) - 4;
      if budget < 0 then 0 else if budget > vlen then vlen else budget
  }

  function CellSize(ps: nat, c: Cell): nat {
    var local := LocalLen(ps, |c.val|);
    CellHdr(|c.val|) + local + (if local < |c.val| then 4 else 0)
  }

  /** No table cell takes more than a quarter of a page. */
  lemma CellAtMostQuarter(ps: nat, c: Cell)
    requires MIN_PAGE_SIZE <= ps && |c.val| <= MAX_VALUE_LEN
    ensures CellSize(ps, c) <= MaxPayload(ps)
  {
    assert MaxPayload(ps) >= 125;
    assert CellHdr(|c.val|) <= 14;
  }

  function CellBytes(ps: nat, s: seq<Cell>): nat {
    if s == [] then 0 else CellBytes(ps, s[..|s| - 1]) + CellSize(ps, s[|s| - 1])
  }

  lemma {:induction false} CellBytesConcat(ps: nat, a: seq<Cell>, b: seq<Cell>)
    ensures CellBytes(ps, a + b) == CellBytes(ps, a) + CellBytes(ps, b)
  {
    if b == [] {
      assert a + b == a;
    } else {
      CellBytesConcat(ps, a, b[..|b| - 1]);
      assert (a + b)[..|a + b| - 1] == a + b[..|b| - 1];
    }
  }

  /** Header, one 2-byte pointer per cell, and the cells themselves. */
  function LeafBytes(ps: nat, s: seq<Cell>): nat { LEAF_HDR + 2 * |s| + CellBytes(ps, s) }

  predicate LeafFits(ps: nat, s: seq<Cell>) { LeafBytes(ps, s) <= ps }

  function InteriorBytes(n: nat): nat { INTERIOR_HDR + (2 + INTERIOR_CELL) * n }

  // --------------------------- tree below a page ---------------------------

  function Kid(n: Node, i: nat): Pgno
    requires n.Interior? && i <= |n.seps|
  {
    if i < |n.seps| then n.seps[i].child else n.right
  }

  function Kids(n: Node): (r: seq<Pgno>)
    requires n.Interior?
    ensures |r| == |n.seps| + 1 && forall i :: 0 <= i < |r| ==> r[i] == Kid(n, i)
  {
    seq(|n.seps| + 1, i requires 0 <= i <= |n.seps| => Kid(n, i))
  }

  function SepKeys(n: Node): (r: seq<Key>)
    requires n.Interior?
    ensures |r| == |n.seps| && forall i :: 0 <= i < |r| ==> r[i] == n.seps[i].key
  {
    seq(|n.seps|, i requires 0 <= i < |n.seps| => SepKey(n, i))
  }

  function SepKey(n: Node, i: nat): Key
    requires n.Interior? && i < |n.seps|
  {
    n.seps[i].key
  }

  /** The map held by the leaves below page p. */
  ghost function Below(st: Store, p: Pgno, d: nat): (m: Table)
    decreases d, 0
  {
    if p !in st then map[]
    else match st[p]
      case Leaf(cells, _) => if d == 0 then ToMap(cells) else map[]
      case Interior(_, _, _) => if d == 0 then map[] else BelowKids(st, Kids(st[p]), d - 1)
  }

  ghost function BelowKids(st: Store, kids: seq<Pgno>, d: nat): (m: Table)
    decreases d, 1 + |kids|
  {
    if kids == [] then map[] else Below(st, kids[0], d) + BelowKids(st, kids[1..], d)
  }

  /** The page numbers of the tree below p. */
  ghost function Footprint(st: Store, p: Pgno, d: nat): (s: set<Pgno>)
    ensures p in s
    decreases d, 0
  {
    {p} + if p in st && st[p].Interior? && d > 0 then FootprintKids(st, Kids(st[p]), d - 1) else {}
  }

  ghost function FootprintKids(st: Store, kids: seq<Pgno>, d: nat): (s: set<Pgno>)
    decreases d, 1 + |kids|
  {
    if kids == [] then {} else Footprint(st, kids[0], d) + FootprintKids(st, kids[1..], d)
  }

  /** A leaf without cells, as deletions leave behind. */
  ghost predicate EmptyLeafAt(st: Store, p: Pgno) {
    p in st && st[p].Leaf? && st[p].cells == []
  }

  /** Whatever leaf is empty now was empty before. */
  ghost predicate NoNewEmpty(st: Store, st': Store) {
    forall q :: EmptyLeafAt(st', q) ==> EmptyLeafAt(st, q)
  }

  ghost predicate Increasing(b: seq<int>) {
    forall i, j :: 0 <= i < j < |b| ==> b[i] < b[j]
  }

  ghost predicate GoodLeaf(n: Node, ps: nat, lo: int, hi: int) {
    && n.Leaf?
    && Sorted(n.cells)
    && Within(n.cells, lo, hi)
    && (forall i :: 0 <= i < |n.cells| ==> |n.cells[i].val| <= MAX_VALUE_LEN)
    && LEAF_HDR + 2 * |n.cells| <= n.content <= ps - CellBytes(ps, n.cells)
  }

  ghost predicate GoodInterior(n: Node, ps: nat) {
    && n.Interior?
    && INTERIOR_HDR + 2 * |n.seps| <= n.content <= ps - INTERIOR_CELL * |n.seps|
  }

  /** Bounds of the children's key ranges: child i holds keys in (b[i], b[i+1]]. */
  function Bounds(n: Node, lo: int, hi: int): (b: seq<int>)
    requires n.Interior?
  {
    [lo] + SepKeys(n) + [hi]
  }

  ghost predicate WellFormed(st: Store, ps: nat, p: Pgno, d: nat, lo: int, hi: int)
    decreases d, 0
  {
    && p in st
    && lo < hi
    && if d == 0 then GoodLeaf(st[p], ps, lo, hi)
       else
         && GoodInterior(st[p], ps)
         && WellFormedKids(st, ps, Kids(st[p]), Bounds(st[p], lo, hi), d - 1)
         && p !in FootprintKids(st, Kids(st[p]), d - 1)
  }

  ghost predicate WellFormedKids(st: Store, ps: nat, kids: seq<Pgno>, b: seq<int>, d: nat)
    decreases d, 1
  {
    && |b| == |kids| + 1
    && Increasing(b)
    && (forall i :: 0 <= i < |kids| ==> WellFormed(st, ps, kids[i], d, b[i], b[i + 1]))
    && Apart(st, kids, d)
  }

  /** Sibling subtrees share no page. */
  ghost predicate Apart(st: Store, kids: seq<Pgno>, d: nat) {
    forall i, j :: 0 <= i < j < |kids| ==> Footprint(st, kids[i], d) !! Footprint(st, kids[j], d)
  }

  // ------------------------------- lemmas -------------------------------

  lemma UnionAssoc<K, V>(a: map<K, V>, b: map<K, V>, c: map<K, V>)
    ensures a + b + c == a + (b + c)
  {
  }

  lemma {:induction false} BelowKidsConcat(st: Store, a: seq<Pgno>, b: seq<Pgno>, d: nat)
    ensures BelowKids(st, a + b, d) == BelowKids(st, a, d) + BelowKids(st, b, d)
    decreases |a|
  {
    if a == [] {
      assert a + b == b;
    } else {
      BelowKidsConcat(st, a[1..], b, d);
      assert (a + b)[1..] == a[1..] + b;
      UnionAssoc(Below(st, a[0], d), BelowKids(st, a[1..], d), BelowKids(st, b, d));
    }
  }

  lemma BelowKidsSplit(st: Store, kids: seq<Pgno>, i: nat, d: nat)
    requires i < |kids|
    ensures BelowKids(st, kids, d) == BelowKids(st, kids[..i], d) + Below(st, kids[i], d) + BelowKids(st, kids[i + 1..], d)
  {
    assert kids == kids[..i] + kids[i..];
    BelowKidsConcat(st, kids[..i], kids[i..], d);
    assert kids[i..][1..] == kids[i + 1..];
    UnionAssoc(BelowKids(st, kids[..i], d), Below(st, kids[i], d), BelowKids(st, kids[i + 1..], d));
  }

  lemma {:induction false} InFootprintKids(st: Store, kids: seq<Pgno>, d: nat, q: Pgno)
    ensures q in FootprintKids(st, kids, d) <==> exists i :: 0 <= i < |kids| && q in Footprint(st, kids[i], d)
    decreases |kids|
  {
    if kids != [] {
      InFootprintKids(st, kids[1..], d, q);
      if i :| 0 <= i < |kids| && q in Footprint(st, kids[i], d) {
        if i > 0 { assert kids[1..][i - 1] == kids[i]; }
      }
    }
  }

  /** Trees depend only on the pages of their footprint. */
  lemma {:induction false} Frame(st: Store, st': Store, ps: nat, p: Pgno, d: nat)
    requires forall q :: q in Footprint(st, p, d) && q in st ==> q in st' && st'[q] == st[q]
    requires forall q :: q in Footprint(st, p, d) && q !in st ==> q !in st'
    ensures Footprint(st', p, d) == Footprint(st, p, d)
    ensures Below(st', p, d) == Below(st, p, d)
    ensures forall lo, hi :: WellFormed(st, ps, p, d, lo, hi) ==> WellFormed(st', ps, p, d, lo, hi)
    decreases d, 0
  {
    if p in st && st[p].Interior? && d > 0 {
      FrameKids(st, st', ps, Kids(st[p]), d - 1);
      forall lo, hi | WellFormed(st, ps, p, d, lo, hi)
        ensures WellFormed(st', ps, p, d, lo, hi)
      {
        assert WellFormedKids(st, ps, Kids(st[p]), Bounds(st[p], lo, hi), d - 1);
        assert WellFormedKids(st', ps, Kids(st[p]), Bounds(st[p], lo, hi), d - 1);
      }
    }
  }

  lemma {:induction false} FrameKids(st: Store, st': Store, ps: nat, kids: seq<Pgno>, d: nat)
    requires forall q :: q in FootprintKids(st, kids, d) && q in st ==> q in st' && st'[q] == st[q]
    requires forall q :: q in FootprintKids(st, kids, d) && q !in st ==> q !in st'
    ensures FootprintKids(st', kids, d) == FootprintKids(st, kids, d)
    ensures BelowKids(st', kids, d) == BelowKids(st, kids, d)
    ensures forall i :: 0 <= i < |kids| ==> Footprint(st', kids[i], d) == Footprint(st, kids[i], d)
    ensures forall b :: WellFormedKids(st, ps, kids, b, d) ==> WellFormedKids(st', ps, kids, b, d)
    decreases d, 1 + |kids|
  {
    forall i | 0 <= i < |kids|
      ensures Footprint(st', kids[i], d) == Footprint(st, kids[i], d)
      ensures forall lo, hi :: WellFormed(st, ps, kids[i], d, lo, hi) ==> WellFormed(st', ps, kids[i], d, lo, hi)
    {
      forall q | q in Footprint(st, kids[i], d) ensures q in FootprintKids(st, kids, d) {
        InFootprintKids(st, kids, d, q);
      }
      Frame(st, st', ps, kids[i], d);
    }
    if kids != [] {
      Frame(st, st', ps, kids[0], d);
      FrameKids(st, st', ps, kids[1..], d);
    }
  }

  /** The keys of a well-formed tree are in the tree's key range. */
  lemma {:induction false} BelowWithin(st: Store, ps: nat, p: Pgno, d: nat, lo: int, hi: int)
    requires WellFormed(st, ps, p, d, lo, hi)
    ensures KeysWithin(Below(st, p, d), lo, hi)
    decreases d, 0
  {
    if d > 0 {
      BelowKidsWithin(st, ps, Kids(st[p]), Bounds(st[p], lo, hi), d - 1);
    } else {
      ToMapWithin(st[p].cells, lo, hi);
    }
  }

  lemma {:induction false} BelowKidsWithin(st: Store, ps: nat, kids: seq<Pgno>, b: seq<int>, d: nat)
    requires WellFormedKids(st, ps, kids, b, d)
    ensures KeysWithin(BelowKids(st, kids, d), b[0], b[|kids|])
    decreases d, 1 + |kids|
  {
    if kids != [] {
      BelowWithin(st, ps, kids[0], d, b[0], b[1]);
      WellFormedSlice(st, ps, kids, b, d, 1, |kids|);
      assert kids[1..|kids|] == kids[1..] && b[1..|kids| + 1] == b[1..];
      BelowKidsWithin(st, ps, kids[1..], b[1..], d);
    }
  }

  lemma {:induction false} WellFormedSlice(st: Store, ps: nat, kids: seq<Pgno>, b: seq<int>, d: nat, i: nat, j: nat)
    requires WellFormedKids(st, ps, kids, b, d)
    requires i <= j <= |kids|
    ensures WellFormedKids(st, ps, kids[i..j], b[i..j + 1], d)
  {
    var k, c := kids[i..j], b[i..j + 1];
    forall x | 0 <= x < |k| ensures WellFormed(st, ps, k[x], d, c[x], c[x + 1]) {
      assert k[x] == kids[i + x] && c[x] == b[i + x] && c[x + 1] == b[i + x + 1];
    }
  }
}
