/**
 The b-tree cursor: a stack of pages and child indexes that walks the leaves in either
 direction. Leaves that deletions emptied are skipped going forward.
 */
module Cursors {
  import opened SortedCells
  import opened BTreePages
  import opened BTreeStep
  import opened BTreeSplit
  import opened BTreeOutcomes
  import opened BTreePath
  import opened BTrees

  class Cursor {
    const bt: BTree
    var page: seq<Pgno>
    var cidx: seq<nat>
    var eof: bool
    ghost var lo: seq<int>
    ghost var hi: seq<int>

    /** The stack leads from the root to a leaf. */
    ghost predicate AtLeaf()
      reads this, bt
    {
      && bt.Valid()
      && |page| == |cidx| == |lo| == |hi| == bt.height + 1
      && Path(bt.pages, bt.ps, bt.root, bt.height, page, cidx, lo, hi, bt.height + 1)
      && page[bt.height] in bt.pages && bt.pages[page[bt.height]].Leaf?
    }

    /** The cursor is past the end, or on a cell. */
    ghost predicate Valid()
      reads this, bt
    {
      bt.Valid() && (!eof ==> AtLeaf() && OnCell())
    }

    ghost predicate OnCell()
      reads this, bt
    {
      && |page| == |cidx| == bt.height + 1
      && page[bt.height] in bt.pages && bt.pages[page[bt.height]].Leaf?
      && cidx[bt.height] < |bt.pages[page[bt.height]].cells|
    }

    function Current(): Cell
      requires !eof && OnCell()
      reads this, bt
    {
      bt.pages[page[|page| - 1]].cells[cidx[|cidx| - 1]]
    }

    constructor (bt: BTree)
      requires bt.Valid()
      ensures Valid() && eof && this.bt == bt
    {
      this.bt := bt;
      page, cidx, lo, hi := [], [], [], [];
      eof := true;
    }

    /** Goes down first children from p, which is where level n of the stack starts. */
    method DescendLeftmost(p: Pgno, n: nat, ghost a: int, ghost z: int)
      requires bt.Valid() && StartsAt(bt.pages, bt.ps, bt.root, bt.height, page, cidx, lo, hi, n, p, a, z)
      modifies this
      ensures AtLeaf() && !eof && cidx[bt.height] == 0
      ensures lo[bt.height] == a
    {
      hide Path, StartsAt, Level, Linked, WellFormed, Below;
      var pgno, level := p, n;
      ghost var z' := z;
      StackFits(bt.pages, bt.ps, bt.root, bt.height, page, cidx, lo, hi, level, pgno, a, z');
      while true
        invariant level <= bt.height
        invariant StartsAt(bt.pages, bt.ps, bt.root, bt.height, page, cidx, lo, hi, level, pgno, a, z')
        decreases bt.height - level
      {
        StackFits(bt.pages, bt.ps, bt.root, bt.height, page, cidx, lo, hi, level, pgno, a, z');
        PathPush(bt.pages, bt.ps, bt.root, bt.height, page, cidx, lo, hi, level, pgno, a, z', 0);
        page, cidx := page[..level] + [pgno], cidx[..level] + [0];
        lo, hi := lo[..level] + [a], hi[..level] + [z'];
        PathTop(bt.pages, bt.ps, bt.root, bt.height, page, cidx, lo, hi, level + 1, level);
        var pg := bt.pages[pgno];
        if pg.Leaf? {
          eof := false;
          return;
        }
        PathDown(bt.pages, bt.ps, bt.root, bt.height, page, cidx, lo, hi, level + 1);
        Neighbours(pg, a, z', 0);
        z' := Bounds(pg, a, z')[1];
        pgno, level := Kid(pg, 0), level + 1;
      }
    }

    /** Moves to the first cell index of the next leaf, or past the end. */
    method NextLeaf(ghost a: int)
      requires AtLeaf() && NoneIn(bt.Contents(), a, hi[bt.height])
      modifies this
      ensures eof ==> NoneIn(bt.Contents(), a, MAX_KEY)
      ensures !eof ==> AtLeaf() && cidx[bt.height] == 0 && lo[bt.height] == old(hi[bt.height])
    {
      hide Path, StartsAt, Level, Linked, WellFormed, Below, NoneIn;
      var level := |page| - 1;
      while level > 0
        invariant 0 <= level <= bt.height && AtLeaf()
        invariant page == old(page) && cidx == old(cidx) && lo == old(lo) && hi == old(hi)
        invariant hi[level] == hi[bt.height]
      {
        PathTop(bt.pages, bt.ps, bt.root, bt.height, page, cidx, lo, hi, bt.height + 1, level - 1);
        PathLink(bt.pages, bt.ps, bt.root, bt.height, page, cidx, lo, hi, bt.height + 1, level);
        level := level - 1;
        var pg := bt.pages[page[level]];
        Neighbours(pg, lo[level], hi[level], cidx[level]);
        var nextci := cidx[level] + 1;
        if nextci <= |pg.seps| {
          PathCut(bt.pages, bt.ps, bt.root, bt.height, page, cidx, lo, hi, bt.height + 1, level, nextci);
          cidx := cidx[level := nextci];
          PathDown(bt.pages, bt.ps, bt.root, bt.height, page, cidx, lo, hi, level + 1);
          ghost var b := Bounds(pg, lo[level], hi[level]);
          DescendLeftmost(Kid(pg, nextci), level + 1, b[nextci], b[nextci + 1]);
          return;
        }
      }
      PathRoot(bt.pages, bt.ps, bt.root, bt.height, page, cidx, lo, hi, bt.height + 1);
      eof := true;
    }

    /** Skips leaves that hold no cells. */
    method SkipEmpty(ghost a: int)
      requires bt.Valid()
      requires eof ==> NoneIn(bt.Contents(), a, MAX_KEY)
      requires !eof ==> AtLeaf() && cidx[bt.height] == 0 && a <= lo[bt.height] && NoneIn(bt.Contents(), a, lo[bt.height])
      modifies this
      ensures Valid()
      ensures eof ==> NoneIn(bt.Contents(), a, MAX_KEY)
      ensures !eof ==> Successor(bt.Contents(), a, Current().key)
    {
      hide Path, WellFormed, Below, NoneIn, Successor;
      while !eof && |bt.pages[page[|page| - 1]].cells| == 0
        invariant eof ==> NoneIn(bt.Contents(), a, MAX_KEY)
        invariant !eof ==> AtLeaf() && cidx[bt.height] == 0 && a <= lo[bt.height] && NoneIn(bt.Contents(), a, lo[bt.height])
        decreases if eof then 0 else 1, if eof then 0 else MAX_KEY - lo[bt.height]
      {
        PathTop(bt.pages, bt.ps, bt.root, bt.height, page, cidx, lo, hi, bt.height + 1, bt.height);
        EmptyLeaf(bt.pages, bt.ps, bt.root, bt.height, page, cidx, lo, hi, a);
        NextLeaf(a);
      }
      if !eof {
        FirstCell(bt.pages, bt.ps, bt.root, bt.height, page, cidx, lo, hi, a);
      }
    }

    /** Lands on the least key, or past the end exactly when the map is empty. */
    method First()
      requires bt.Valid()
      modifies this
      ensures Valid()
      ensures eof <==> bt.Contents() == map[]
      ensures !eof ==> Successor(bt.Contents(), -1, Current().key)
    {
      StartAtRoot(bt.pages, bt.ps, bt.root, bt.height);
      page, cidx, lo, hi := [], [], [], [];
      DescendLeftmost(bt.root, 0, -1, MAX_KEY);
      SkipEmpty(-1);
      EmptyIff(bt.Contents());
    }

    /** Moves to the next key in ascending order, or past the end when there is none. */
    method Next()
      requires Valid()
      modifies this
      ensures Valid()
      ensures old(eof) ==> eof
      ensures !old(eof) && eof ==> NoneIn(bt.Contents(), old(Current().key), MAX_KEY)
      ensures !old(eof) && !eof ==> Successor(bt.Contents(), old(Current().key), Current().key)
    {
      hide Path, WellFormed, Below, NoneIn, Successor;
      if eof { return; }
      ghost var k := Current().key;
      var leaf, d := bt.pages[page[|page| - 1]], |cidx| - 1;
      AfterCell(bt.pages, bt.ps, bt.root, bt.height, page, cidx, lo, hi);
      PathIndex(bt.pages, bt.ps, bt.root, bt.height, page, cidx, lo, hi, cidx[d] + 1);
      if cidx[d] + 1 < |leaf.cells| {
        cidx := cidx[d := cidx[d] + 1];
        return;
      }
      cidx := cidx[d := cidx[d] + 1];
      ghost var h0 := hi[d];
      NextLeaf(k);
      SkipEmpty(k);
    }

    /** Lands on the least key that is at least `key`. */
    method Seek(key: Key) returns (exact: bool)
      requires bt.Valid()
      modifies this
      ensures Valid()
      ensures exact <==> key in bt.Contents()
      ensures exact ==> !eof && Current() == Cell(key, bt.Contents()[key])
      ensures eof ==> NoneIn(bt.Contents(), key - 1, MAX_KEY)
      ensures !eof ==> Successor(bt.Contents(), key - 1, Current().key)
    {
      hide Path, StartsAt, Level, Linked, WellFormed, Below, NoneIn, Successor;
      StartAtRoot(bt.pages, bt.ps, bt.root, bt.height);
      page, cidx, lo, hi := [], [], [], [];
      var pgno, level := bt.root, 0;
      ghost var a, z := -1, MAX_KEY;
      while true
        invariant level <= bt.height && a < key <= z
        invariant StartsAt(bt.pages, bt.ps, bt.root, bt.height, page, cidx, lo, hi, level, pgno, a, z)
        decreases bt.height - level
      {
        StackFits(bt.pages, bt.ps, bt.root, bt.height, page, cidx, lo, hi, level, pgno, a, z);
        var pg := bt.pages[pgno];
        var idx, hit := PgFind(pg, key);
        PathPush(bt.pages, bt.ps, bt.root, bt.height, page, cidx, lo, hi, level, pgno, a, z, idx);
        page, cidx := page[..level] + [pgno], cidx[..level] + [idx];
        lo, hi := lo[..level] + [a], hi[..level] + [z];
        PathTop(bt.pages, bt.ps, bt.root, bt.height, page, cidx, lo, hi, level + 1, level);
        if pg.Leaf? {
          LeafPlace(pg, key, idx);
          SoughtCell(bt.pages, bt.ps, bt.root, bt.height, page, cidx, lo, hi, key);
          eof := false;
          exact := hit;
          if idx >= |pg.cells| {
            NextLeaf(key - 1);
            SkipEmpty(key - 1);
          }
          return;
        }
        InteriorPlace(pg, key, idx);
        KidRange(pg, a, z, key, idx);
        PathDown(bt.pages, bt.ps, bt.root, bt.height, page, cidx, lo, hi, level + 1);
        ghost var b := Bounds(pg, a, z);
        a, z := b[idx], b[idx + 1];
        pgno, level := Kid(pg, idx), level + 1;
      }
    }

    // ------------------------------- going backward -------------------------------

    /** Goes down last children from p; past the end when the leaf there is empty. */
    method DescendRightmost(p: Pgno, n: nat, ghost a: int, ghost z: int)
      requires bt.Valid() && StartsAt(bt.pages, bt.ps, bt.root, bt.height, page, cidx, lo, hi, n, p, a, z)
      modifies this
      ensures AtLeaf() && hi[bt.height] == z
      ensures page[bt.height] == RightmostLeaf(bt.pages, p, bt.height - n)
      ensures eof <==> bt.pages[page[bt.height]].cells == []
      ensures !eof ==> cidx[bt.height] == |bt.pages[page[bt.height]].cells| - 1
    {
      hide Path, StartsAt, Level, Linked, WellFormed, Below, RightmostLeaf;
      var pgno, level := p, n;
      ghost var a' := a;
      StackFits(bt.pages, bt.ps, bt.root, bt.height, page, cidx, lo, hi, level, pgno, a', z);
      while true
        invariant level <= bt.height
        invariant StartsAt(bt.pages, bt.ps, bt.root, bt.height, page, cidx, lo, hi, level, pgno, a', z)
        invariant RightmostLeaf(bt.pages, p, bt.height - n) == RightmostLeaf(bt.pages, pgno, bt.height - level)
        decreases bt.height - level
      {
        StackFits(bt.pages, bt.ps, bt.root, bt.height, page, cidx, lo, hi, level, pgno, a', z);
        var pg := bt.pages[pgno];
        var idx := if pg.Leaf? && |pg.cells| > 0 then |pg.cells| - 1 else if pg.Leaf? then 0 else |pg.seps|;
        PathPush(bt.pages, bt.ps, bt.root, bt.height, page, cidx, lo, hi, level, pgno, a', z, idx);
        page, cidx := page[..level] + [pgno], cidx[..level] + [idx];
        lo, hi := lo[..level] + [a'], hi[..level] + [z];
        PathTop(bt.pages, bt.ps, bt.root, bt.height, page, cidx, lo, hi, level + 1, level);
        RightmostStep(bt.pages, pgno, bt.height - level);
        if pg.Leaf? {
          eof := |pg.cells| == 0;
          return;
        }
        PathDown(bt.pages, bt.ps, bt.root, bt.height, page, cidx, lo, hi, level + 1);
        Neighbours(pg, a', z, |pg.seps|);
        a' := Bounds(pg, a', z)[|pg.seps|];
        pgno, level := pg.right, level + 1;
      }
    }

    /** Lands on the largest key; past the end exactly when the rightmost leaf is empty. */
    method Last()
      requires bt.Valid()
      modifies this
      ensures Valid()
      ensures eof <==> EmptyLeafAt(bt.pages, RightmostLeaf(bt.pages, bt.root, bt.height))
      ensures !eof ==> Predecessor(bt.Contents(), MAX_KEY + 1, Current().key)
    {
      hide Path, StartsAt, Level, Linked, WellFormed, Below, RightmostLeaf, Predecessor;
      StartAtRoot(bt.pages, bt.ps, bt.root, bt.height);
      page, cidx, lo, hi := [], [], [], [];
      DescendRightmost(bt.root, 0, -1, MAX_KEY);
      if !eof {
        LastCell(bt.pages, bt.ps, bt.root, bt.height, page, cidx, lo, hi, MAX_KEY + 1);
      }
    }

    /** On the first cell of a leaf, with no leaf before it or with an empty one. */
    ghost predicate AtFirst()
      requires AtLeaf()
      reads this, bt
    {
      cidx[bt.height] == 0 && EmptyOrNone(bt.pages, LeafBefore(bt.pages, page, cidx, bt.height, bt.height))
    }

    /** Moves to the last cell of the leaf before; past the end when there is none or it is empty. */
    method PrevLeaf(ghost a: int)
      requires AtLeaf() && NoneIn(bt.Contents(), lo[bt.height], a - 1) && lo[bt.height] < a
      modifies this
      ensures Valid()
      ensures !eof ==> Predecessor(bt.Contents(), a, Current().key)
      ensures eof <==> EmptyOrNone(bt.pages, old(LeafBefore(bt.pages, page, cidx, bt.height, bt.height)))
      ensures old(LeafBefore(bt.pages, page, cidx, bt.height, bt.height)) == [] ==> NoneIn(bt.Contents(), -1, a - 1)
      ensures eof ==> NoneIn(bt.Contents(), -1, a - 1) || HasEmptyLeaf(bt.pages, bt.root, bt.height)
    {
      hide Path, StartsAt, Level, Linked, WellFormed, Below, NoneIn, RightmostLeaf, Predecessor, HasEmptyLeaf;
      var level := |page| - 1;
      ghost var before := LeafBefore(bt.pages, page, cidx, bt.height, bt.height);
      while level > 0
        invariant 0 <= level <= bt.height && AtLeaf()
        invariant page == old(page) && cidx == old(cidx) && lo == old(lo) && hi == old(hi)
        invariant before == LeafBefore(bt.pages, page, cidx, bt.height, level)
        invariant lo[level] == lo[bt.height]
      {
        PathTop(bt.pages, bt.ps, bt.root, bt.height, page, cidx, lo, hi, bt.height + 1, level - 1);
        PathLink(bt.pages, bt.ps, bt.root, bt.height, page, cidx, lo, hi, bt.height + 1, level);
        level := level - 1;
        var pg := bt.pages[page[level]];
        Neighbours(pg, lo[level], hi[level], cidx[level]);
        if cidx[level] >= 1 {
          var prevci := cidx[level] - 1;
          PathCut(bt.pages, bt.ps, bt.root, bt.height, page, cidx, lo, hi, bt.height + 1, level, prevci);
          cidx := cidx[level := prevci];
          PathDown(bt.pages, bt.ps, bt.root, bt.height, page, cidx, lo, hi, level + 1);
          ghost var b := Bounds(pg, lo[level], hi[level]);
          DescendRightmost(Kid(pg, prevci), level + 1, b[prevci], b[prevci + 1]);
          if eof {
            EmptyOnPath(bt.pages, bt.ps, bt.root, bt.height, page, cidx, lo, hi);
          } else {
            LastCell(bt.pages, bt.ps, bt.root, bt.height, page, cidx, lo, hi, a);
          }
          return;
        }
      }
      PathRoot(bt.pages, bt.ps, bt.root, bt.height, page, cidx, lo, hi, bt.height + 1);
      eof := true;
    }

    /**
     Moves to the next key in descending order. It stops exactly when no cell is before this one
     in its leaf and the leaf before, if there is one, is empty; only so can a smaller key be missed.
     */
    method Prev()
      requires Valid()
      modifies this
      ensures Valid()
      ensures old(eof) ==> eof
      ensures !old(eof) && !eof ==> Predecessor(bt.Contents(), old(Current().key), Current().key)
      ensures !old(eof) ==> (eof <==> old(AtFirst()))
      ensures !old(eof) && eof && old(LeafBefore(bt.pages, page, cidx, bt.height, bt.height)) == []
          ==> NoneIn(bt.Contents(), -1, old(Current().key) - 1)
      ensures !old(eof) && eof ==> NoneIn(bt.Contents(), -1, old(Current().key) - 1) || HasEmptyLeaf(bt.pages, bt.root, bt.height)
    {
      hide Path, WellFormed, Below, NoneIn, Predecessor, HasEmptyLeaf, LeafBefore, EmptyOrNone;
      if eof { return; }
      var d := |cidx| - 1;
      BeforeCell(bt.pages, bt.ps, bt.root, bt.height, page, cidx, lo, hi);
      if cidx[d] > 0 {
        PathIndex(bt.pages, bt.ps, bt.root, bt.height, page, cidx, lo, hi, cidx[d] - 1);
        cidx := cidx[d := cidx[d] - 1];
        return;
      }
      ghost var k := Current().key;
      PrevLeaf(k);
    }
  }

  /** The largest key as the engines ask for it: 0 when the cursor finds no last cell. */
  method MaxRowid(bt: BTree) returns (r: Key)
    requires bt.Valid()
    ensures IsMax(bt.Contents(), r)
       <==> !EmptyLeafAt(bt.pages, RightmostLeaf(bt.pages, bt.root, bt.height)) || NoneIn(bt.Contents(), 0, MAX_KEY)
    ensures EmptyLeafAt(bt.pages, RightmostLeaf(bt.pages, bt.root, bt.height)) ==> r == 0
    ensures bt.Dense() ==> IsMax(bt.Contents(), r)
  {
    if bt.Dense() { DenseMeans(bt); }
    var c := new Cursor(bt);
    c.Last();
    r := if c.eof then 0 else c.Current().key;
  }

  /** A full scan lists exactly the map, in ascending key order, whatever leaves are empty. */
  method Enumerate(bt: BTree) returns (cells: seq<Cell>)
    requires bt.Valid()
    ensures Sorted(cells)
    ensures ToMap(cells) == bt.Contents()
  {
    hide ToMap, Below, WellFormed, Path;
    var c := new Cursor(bt);
    c.First();
    cells := [];
    ghost var last: int := -1;
    ScanStart(bt.Contents());
    while !c.eof
      invariant c.bt == bt && bt.Valid() && c.Valid() && fresh(c)
      invariant Scanned(bt.Contents(), cells, last)
      invariant c.eof ==> NoneIn(bt.Contents(), last, MAX_KEY)
      invariant !c.eof ==> Successor(bt.Contents(), last, c.Current().key)
      decreases if c.eof then 0 else 1, MAX_KEY - last
    {
      CurrentInMap(c);
      ScanStep(bt.Contents(), cells, last, c.Current());
      cells := cells + [c.Current()];
      last := c.Current().key;
      c.Next();
    }
    ScanEnd(bt.Contents(), cells, last);
  }

  function Reversed(s: seq<Cell>): (r: seq<Cell>)
    ensures |r| == |s| && forall i :: 0 <= i < |s| ==> r[i] == s[|s| - 1 - i]
  {
    if s == [] then [] else [s[|s| - 1]] + Reversed(s[..|s| - 1])
  }

  /** Where no leaf has been emptied, last/prev lists exactly the map in descending key order. */
  method EnumerateBack(bt: BTree) returns (cells: seq<Cell>)
    requires bt.Valid() && bt.Dense()
    ensures Sorted(Reversed(cells)) && ToMap(Reversed(cells)) == bt.Contents()
  {
    hide ToMap, Below, WellFormed, Path, DenseTree;
    var c := new Cursor(bt);
    c.Last();
    DenseMeans(bt);
    cells := [];
    ghost var last: int := MAX_KEY + 1;
    BackStart(bt.Contents());
    while !c.eof
      invariant c.bt == bt && bt.Valid() && bt.Dense() && c.Valid() && fresh(c)
      invariant ScannedBack(bt.Contents(), Reversed(cells), last)
      invariant c.eof ==> NoneIn(bt.Contents(), -1, last - 1)
      invariant !c.eof ==> Predecessor(bt.Contents(), last, c.Current().key)
      decreases if c.eof then 0 else 1, last
    {
      CurrentInMap(c);
      BackStep(bt.Contents(), cells, last, c.Current());
      cells := cells + [c.Current()];
      last := c.Current().key;
      DenseMeans(bt);
      c.Prev();
    }
    BackEnd(bt.Contents(), Reversed(cells), last);
  }

  // ---------------------------------- lemmas ----------------------------------

  /** The cells listed so far are the map from key `last` on. */
  ghost predicate ScannedBack(m: Table, cells: seq<Cell>, last: int) {
    && Sorted(cells)
    && Within(cells, last - 1, MAX_KEY)
    && 0 <= last
    && (forall k :: k in ToMap(cells) <==> k in m && last <= k)
    && (forall k :: k in ToMap(cells) && k in m ==> ToMap(cells)[k] == m[k])
  }

  lemma BackStart(m: Table)
    ensures ScannedBack(m, Reversed([]), MAX_KEY + 1)
  {
  }

  lemma BackStep(m: Table, cells: seq<Cell>, last: int, c: Cell)
    requires ScannedBack(m, Reversed(cells), last) && Predecessor(m, last, c.key) && m[c.key] == c.val
    ensures ScannedBack(m, Reversed(cells + [c]), c.key)
  {
    hide ToMap, Reversed, Sorted, Within;
    BackMap(cells, c);
    ConsSorted(c, Reversed(cells), last);
  }

  lemma ConsSorted(c: Cell, s: seq<Cell>, last: int)
    requires Sorted(s) && Within(s, last - 1, MAX_KEY) && c.key < last
    ensures Sorted([c] + s) && Within([c] + s, c.key - 1, MAX_KEY)
  {
  }

  lemma BackMap(cells: seq<Cell>, c: Cell)
    ensures Reversed(cells + [c]) == [c] + Reversed(cells)
    ensures ToMap(Reversed(cells + [c])) == map[c.key := c.val] + ToMap(Reversed(cells))
  {
    var asc := Reversed(cells);
    assert (cells + [c])[..|cells|] == cells;
    ToMapConcat([c], asc);
    ToMapSnoc([], c);
    assert [] + [c] == [c];
  }

  lemma BackEnd(m: Table, cells: seq<Cell>, last: int)
    requires ScannedBack(m, cells, last) && NoneIn(m, -1, last - 1)
    ensures ToMap(cells) == m
  {
    hide ToMap;
  }

  /** A tree whose leaves were never emptied holds no empty leaf, unless it holds nothing. */
  lemma DenseMeans(bt: BTree)
    requires bt.Valid() && bt.Dense()
    ensures HasEmptyLeaf(bt.pages, bt.root, bt.height) ==> bt.Contents() == map[]
    ensures EmptyLeafAt(bt.pages, RightmostLeaf(bt.pages, bt.root, bt.height)) ==> bt.Contents() == map[]
  {
    if HasEmptyLeaf(bt.pages, bt.root, bt.height) {
      var q := EmptyIn(bt.pages, bt.ps, bt.root, bt.height, -1, MAX_KEY);
      assert q == bt.root;
    }
    RightmostIn(bt.pages, bt.ps, bt.root, bt.height, -1, MAX_KEY);
    if EmptyLeafAt(bt.pages, bt.root) { LoneRoot(bt.pages, bt.ps, bt.root, bt.height); }
  }

  lemma LoneRoot(st: Store, ps: nat, root: Pgno, h: nat)
    requires WellFormed(st, ps, root, h, -1, MAX_KEY) && EmptyLeafAt(st, root)
    ensures Below(st, root, h) == map[]
  {
  }

  lemma {:induction false} EmptyIn(st: Store, ps: nat, p: Pgno, d: nat, lo: int, hi: int) returns (q: Pgno)
    requires WellFormed(st, ps, p, d, lo, hi) && HasEmptyLeaf(st, p, d)
    ensures q in Footprint(st, p, d) && EmptyLeafAt(st, q)
    decreases d
  {
    if d == 0 {
      q := p;
    } else {
      var i :| 0 <= i <= |st[p].seps| && HasEmptyLeaf(st, Kid(st[p], i), d - 1);
      var b := Bounds(st[p], lo, hi);
      q := EmptyIn(st, ps, Kids(st[p])[i], d - 1, b[i], b[i + 1]);
      InFootprintKids(st, Kids(st[p]), d - 1, q);
    }
  }

  lemma {:induction false} RightmostIn(st: Store, ps: nat, p: Pgno, d: nat, lo: int, hi: int)
    requires WellFormed(st, ps, p, d, lo, hi)
    ensures RightmostLeaf(st, p, d) in Footprint(st, p, d)
    decreases d
  {
    if d > 0 {
      var kids, b := Kids(st[p]), Bounds(st[p], lo, hi);
      var i := |kids| - 1;
      assert kids[i] == st[p].right;
      RightmostIn(st, ps, kids[i], d - 1, b[i], b[i + 1]);
      InFootprintKids(st, kids, d - 1, RightmostLeaf(st, kids[i], d - 1));
    }
  }

  ghost function RightmostLeaf(st: Store, p: Pgno, d: nat): Pgno
    decreases d
  {
    if d > 0 && p in st && st[p].Interior? then RightmostLeaf(st, st[p].right, d - 1) else p
  }

  lemma RightmostStep(st: Store, p: Pgno, d: nat)
    ensures p in st && st[p].Interior? && d > 0 ==> RightmostLeaf(st, p, d) == RightmostLeaf(st, st[p].right, d - 1)
    ensures p in st && st[p].Leaf? ==> RightmostLeaf(st, p, d) == p
  {
  }

  /** The leaf to the left of where the stack leads, if any: the last one below the nearest earlier child. */
  ghost function LeafBefore(st: Store, page: seq<Pgno>, cidx: seq<nat>, h: nat, level: nat): seq<Pgno>
    requires level < |page| && level < |cidx| && level <= h
  {
    if level == 0 then []
    else
      var p, i := page[level - 1], cidx[level - 1];
      if p in st && st[p].Interior? && 1 <= i <= |st[p].seps| then [RightmostLeaf(st, Kid(st[p], i - 1), h - level)]
      else LeafBefore(st, page, cidx, h, level - 1)
  }

  ghost predicate EmptyOrNone(st: Store, leaf: seq<Pgno>) {
    leaf == [] || EmptyLeafAt(st, leaf[0])
  }

  /** Some leaf of the tree holds no cells, as deletions leave behind. */
  ghost predicate HasEmptyLeaf(st: Store, p: Pgno, d: nat)
    decreases d
  {
    p in st && match st[p]
      case Leaf(cells, _) => cells == []
      case Interior(seps, _, _) => d > 0 && exists i :: 0 <= i <= |seps| && HasEmptyLeaf(st, Kid(st[p], i), d - 1)
  }

  /** r is the largest key, or 0 when there is none. */
  ghost predicate IsMax(m: Table, r: int) {
    NoneIn(m, r, MAX_KEY) && (m != map[] ==> 0 <= r <= MAX_KEY && r in m) && (m == map[] ==> r == 0)
  }

  /** The cells listed so far are the map up to key `last`. */
  ghost predicate Scanned(m: Table, cells: seq<Cell>, last: int) {
    && Sorted(cells)
    && Within(cells, -1, last)
    && last <= MAX_KEY
    && (forall k :: k in ToMap(cells) <==> k in m && k <= last)
    && (forall k :: k in ToMap(cells) && k in m ==> ToMap(cells)[k] == m[k])
  }

  lemma ScanStart(m: Table)
    ensures Scanned(m, [], -1)
  {
  }

  lemma ScanStep(m: Table, cells: seq<Cell>, last: int, c: Cell)
    requires Scanned(m, cells, last) && Successor(m, last, c.key) && m[c.key] == c.val
    ensures Scanned(m, cells + [c], c.key)
  {
    ToMapSnoc(cells, c);
    hide ToMap;
  }

  lemma ScanEnd(m: Table, cells: seq<Cell>, last: int)
    requires Scanned(m, cells, last) && NoneIn(m, last, MAX_KEY)
    ensures ToMap(cells) == m
  {
    hide ToMap;
  }

  lemma CurrentInMap(c: Cursor)
    requires c.Valid() && !c.eof
    ensures c.Current().key in c.bt.Contents() && c.bt.Contents()[c.Current().key] == c.Current().val
  {
    hide Path, Below, ToMap, WellFormed;
    var bt := c.bt;
    LeafOfPath(bt.pages, bt.ps, bt.root, bt.height, c.page, c.cidx, c.lo, c.hi);
    LeafCellAt(bt.Contents(), bt.pages[c.page[bt.height]].cells, c.lo[bt.height], c.hi[bt.height], c.cidx[bt.height]);
  }

  lemma NoneInSuffix(m: Table, k: int, h: int, a: int)
    requires NoneIn(m, k, h) && NoneIn(m, h, a - 1)
    ensures NoneIn(m, k, a - 1)
  {
  }

  lemma LastCell(st: Store, ps: nat, root: Pgno, h: nat, page: seq<Pgno>, cidx: seq<nat>, lo: seq<int>, hi: seq<int>,
                 a: int)
    requires Path(st, ps, root, h, page, cidx, lo, hi, h + 1)
    requires page[h] in st && st[page[h]].Leaf? && st[page[h]].cells != [] && cidx[h] == |st[page[h]].cells| - 1
    requires hi[h] < a && NoneIn(Below(st, root, h), hi[h], a - 1)
    ensures Predecessor(Below(st, root, h), a, st[page[h]].cells[cidx[h]].key)
  {
    hide Path, Below, ToMap;
    LeafOfPath(st, ps, root, h, page, cidx, lo, hi);
    var m, s := Below(st, root, h), st[page[h]].cells;
    LeafCellAt(m, s, lo[h], hi[h], |s| - 1);
    LeafEnd(m, s, lo[h], hi[h]);
    NoneInSuffix(m, s[|s| - 1].key, hi[h], a);
  }

  lemma BeforeCell(st: Store, ps: nat, root: Pgno, h: nat, page: seq<Pgno>, cidx: seq<nat>, lo: seq<int>, hi: seq<int>)
    requires Path(st, ps, root, h, page, cidx, lo, hi, h + 1)
    requires page[h] in st && st[page[h]].Leaf? && cidx[h] < |st[page[h]].cells|
    ensures var s := st[page[h]].cells; var i := cidx[h];
            && lo[h] < s[i].key
            && (i > 0 ==> Predecessor(Below(st, root, h), s[i].key, s[i - 1].key))
            && (i == 0 ==> NoneIn(Below(st, root, h), lo[h], s[i].key - 1))
  {
    hide Path, Below, ToMap;
    LeafOfPath(st, ps, root, h, page, cidx, lo, hi);
    var m, s, i := Below(st, root, h), st[page[h]].cells, cidx[h];
    LeafCellAt(m, s, lo[h], hi[h], i);
    if i > 0 {
      LeafCellAt(m, s, lo[h], hi[h], i - 1);
    }
  }

  /** An empty leaf at the end of a path is an empty leaf of the tree. */
  lemma EmptyOnPath(st: Store, ps: nat, root: Pgno, h: nat, page: seq<Pgno>, cidx: seq<nat>, lo: seq<int>, hi: seq<int>)
    requires Path(st, ps, root, h, page, cidx, lo, hi, h + 1)
    requires EmptyLeafAt(st, page[h])
    ensures HasEmptyLeaf(st, root, h)
  {
    EmptyFrom(st, ps, root, h, page, cidx, lo, hi, 0);
  }

  lemma {:induction false} EmptyFrom(st: Store, ps: nat, root: Pgno, h: nat, page: seq<Pgno>, cidx: seq<nat>,
                                     lo: seq<int>, hi: seq<int>, l: nat)
    requires Path(st, ps, root, h, page, cidx, lo, hi, h + 1)
    requires EmptyLeafAt(st, page[h]) && l <= h
    ensures HasEmptyLeaf(st, page[l], h - l)
    decreases h - l
  {
    if l < h {
      EmptyFrom(st, ps, root, h, page, cidx, lo, hi, l + 1);
      assert Linked(st, page[l], lo[l], hi[l], cidx[l], page[l + 1], lo[l + 1], hi[l + 1]);
    }
  }

  lemma EmptyIff(m: Table)
    ensures NoneIn(m, -1, MAX_KEY) <==> m == map[]
  {
    if m != map[] {
      var k :| k in m;
      assert -1 < k <= MAX_KEY;
    }
  }

  lemma StackFits(st: Store, ps: nat, root: Pgno, h: nat, page: seq<Pgno>, cidx: seq<nat>, lo: seq<int>, hi: seq<int>,
                  n: nat, p: Pgno, a: int, z: int)
    requires StartsAt(st, ps, root, h, page, cidx, lo, hi, n, p, a, z)
    ensures n <= h && n <= |page| && n <= |cidx| && n <= |lo| && n <= |hi|
    ensures p in st && KeysSorted(st[p])
  {
    PageKeysSorted(st, ps, p, h - n, a, z);
  }

  lemma PathLink(st: Store, ps: nat, root: Pgno, h: nat, page: seq<Pgno>, cidx: seq<nat>, lo: seq<int>, hi: seq<int>,
                 n: nat, l: nat)
    requires 0 < l < n && Path(st, ps, root, h, page, cidx, lo, hi, n)
    ensures page[l - 1] in st && st[page[l - 1]].Interior? && cidx[l - 1] <= |st[page[l - 1]].seps|
    ensures var b := Bounds(st[page[l - 1]], lo[l - 1], hi[l - 1]);
            cidx[l - 1] + 1 < |b| && lo[l] == b[cidx[l - 1]] && hi[l] == b[cidx[l - 1] + 1]
  {
    hide Level, Below;
    assert Linked(st, page[l - 1], lo[l - 1], hi[l - 1], cidx[l - 1], page[l], lo[l], hi[l]);
  }

  lemma PathRoot(st: Store, ps: nat, root: Pgno, h: nat, page: seq<Pgno>, cidx: seq<nat>, lo: seq<int>, hi: seq<int>,
                 n: nat)
    requires 0 < n && Path(st, ps, root, h, page, cidx, lo, hi, n)
    ensures lo[0] == -1 && hi[0] == MAX_KEY
  {
    hide Level, Below;
  }

  lemma PathIndex(st: Store, ps: nat, root: Pgno, h: nat, page: seq<Pgno>, cidx: seq<nat>, lo: seq<int>, hi: seq<int>,
                  i: nat)
    requires Path(st, ps, root, h, page, cidx, lo, hi, h + 1)
    ensures Path(st, ps, root, h, page, cidx[h := i], lo, hi, h + 1)
  {
    PathCut(st, ps, root, h, page, cidx, lo, hi, h + 1, h, i);
  }

  lemma LeafOfPath(st: Store, ps: nat, root: Pgno, h: nat, page: seq<Pgno>, cidx: seq<nat>, lo: seq<int>, hi: seq<int>)
    requires Path(st, ps, root, h, page, cidx, lo, hi, h + 1)
    ensures h < |page| && h < |cidx| && h < |lo| && h < |hi|
    ensures page[h] in st && st[page[h]].Leaf? && lo[h] < hi[h]
    ensures var s := st[page[h]].cells; Sorted(s) && Within(s, lo[h], hi[h]) && Agrees(Below(st, root, h), ToMap(s), lo[h], hi[h])
  {
    PathTop(st, ps, root, h, page, cidx, lo, hi, h + 1, h);
    LeafLevel(st, ps, Below(st, root, h), page[h], lo[h], hi[h]);
  }

  lemma EmptyLeaf(st: Store, ps: nat, root: Pgno, h: nat, page: seq<Pgno>, cidx: seq<nat>, lo: seq<int>, hi: seq<int>,
                  a: int)
    requires Path(st, ps, root, h, page, cidx, lo, hi, h + 1)
    requires page[h] in st && st[page[h]].Leaf? && st[page[h]].cells == []
    requires NoneIn(Below(st, root, h), a, lo[h])
    ensures NoneIn(Below(st, root, h), a, hi[h]) && lo[h] < hi[h] <= MAX_KEY
  {
    hide Path, Below, ToMap;
    LeafOfPath(st, ps, root, h, page, cidx, lo, hi);
    LeafEnd(Below(st, root, h), [], lo[h], hi[h]);
    NoneInJoin(Below(st, root, h), a, lo[h], hi[h]);
    RangeBound(st, ps, root, h, page, cidx, lo, hi, h);
  }

  lemma {:induction false} RangeBound(st: Store, ps: nat, root: Pgno, h: nat, page: seq<Pgno>, cidx: seq<nat>,
                                      lo: seq<int>, hi: seq<int>, l: nat)
    requires Path(st, ps, root, h, page, cidx, lo, hi, h + 1) && l <= h
    ensures hi[l] <= MAX_KEY
    decreases l
  {
    hide Level, Below, Path;
    LeafOfPath(st, ps, root, h, page, cidx, lo, hi);
    if l == 0 {
      PathRoot(st, ps, root, h, page, cidx, lo, hi, h + 1);
    } else {
      RangeBound(st, ps, root, h, page, cidx, lo, hi, l - 1);
      PathLink(st, ps, root, h, page, cidx, lo, hi, h + 1, l);
      PathCut(st, ps, root, h, page, cidx, lo, hi, h + 1, l - 1, cidx[l - 1]);
      assert cidx[l - 1 := cidx[l - 1]] == cidx;
      PathDown(st, ps, root, h, page, cidx, lo, hi, l);
    }
  }

  lemma FirstCell(st: Store, ps: nat, root: Pgno, h: nat, page: seq<Pgno>, cidx: seq<nat>, lo: seq<int>, hi: seq<int>,
                  a: int)
    requires Path(st, ps, root, h, page, cidx, lo, hi, h + 1) && cidx[h] == 0
    requires a <= lo[h] && NoneIn(Below(st, root, h), a, lo[h])
    ensures page[h] in st && st[page[h]].Leaf?
    ensures st[page[h]].cells != [] ==> Successor(Below(st, root, h), a, st[page[h]].cells[0].key)
  {
    hide Path, Below, ToMap;
    LeafOfPath(st, ps, root, h, page, cidx, lo, hi);
    var s := st[page[h]].cells;
    if s != [] {
      LeafCellAt(Below(st, root, h), s, lo[h], hi[h], 0);
      NoneInJoin(Below(st, root, h), a, lo[h], s[0].key - 1);
    }
  }

  /** What comes after the cell the cursor is on. */
  lemma AfterCell(st: Store, ps: nat, root: Pgno, h: nat, page: seq<Pgno>, cidx: seq<nat>, lo: seq<int>, hi: seq<int>)
    requires Path(st, ps, root, h, page, cidx, lo, hi, h + 1)
    requires page[h] in st && st[page[h]].Leaf? && cidx[h] < |st[page[h]].cells|
    ensures var s := st[page[h]].cells; var i := cidx[h];
            && s[i].key <= hi[h]
            && (i + 1 < |s| ==> Successor(Below(st, root, h), s[i].key, s[i + 1].key))
            && (i + 1 == |s| ==> NoneIn(Below(st, root, h), s[i].key, hi[h]))
  {
    hide Path, Below, ToMap;
    LeafOfPath(st, ps, root, h, page, cidx, lo, hi);
    var s, i := st[page[h]].cells, cidx[h];
    if i + 1 < |s| {
      LeafCellAt(Below(st, root, h), s, lo[h], hi[h], i + 1);
    } else {
      LeafEnd(Below(st, root, h), s, lo[h], hi[h]);
    }
  }

  lemma SoughtCell(st: Store, ps: nat, root: Pgno, h: nat, page: seq<Pgno>, cidx: seq<nat>, lo: seq<int>,
                   hi: seq<int>, key: Key)
    requires Path(st, ps, root, h, page, cidx, lo, hi, h + 1)
    requires page[h] in st && st[page[h]].Leaf? && IsPlace(st[page[h]].cells, key, cidx[h]) && lo[h] < key <= hi[h]
    ensures var s := st[page[h]].cells; var i := cidx[h];
            && (i < |s| ==> Successor(Below(st, root, h), key - 1, s[i].key))
            && (i == |s| ==> NoneIn(Below(st, root, h), key - 1, hi[h]))
            && (key in Below(st, root, h) <==> Hit(s, i, key))
            && (Hit(s, i, key) ==> s[i].val == Below(st, root, h)[key])
  {
    hide Path, Below, ToMap;
    LeafOfPath(st, ps, root, h, page, cidx, lo, hi);
    var s, i := st[page[h]].cells, cidx[h];
    LeafSought(Below(st, root, h), s, lo[h], hi[h], key, i);
    if i < |s| {
      LeafCellAt(Below(st, root, h), s, lo[h], hi[h], i);
    }
  }
}
