/**
 The table b-tree: descent, in-page insertion with on-demand defragmentation, leaf and
 interior splits, growth of the root in place, and lazy deletion.

 `torn` records that a split dropped a cell: the split loops ignore the result of
 inserting a cell into a half page. `Insert` says exactly when that happens.
 */
module BTrees {
  import opened Basics
  import opened SortedCells
  import opened BTreePages
  import opened BTreeLeaf
  import opened BTreeGrowth
  import opened BTreeStep
  import opened BTreeSplit
  import opened BTreeInterior
  import opened BTreeOutcomes

  class BTree {
    const ps: nat
    const root: Pgno
    var pages: Store
    var torn: bool
    ghost var height: nat

    ghost predicate Valid()
      reads this
    {
      MIN_PAGE_SIZE <= ps && WellFormed(pages, ps, root, height, -1, MAX_KEY) && !torn
    }

    /** The sorted map the tree stands for. */
    ghost function Contents(): Table
      reads this
    {
      Below(pages, root, height)
    }

    /** No leaf is empty, except that the whole tree may be one empty leaf. */
    ghost predicate Dense()
      reads this
    {
      DenseTree(pages, root, height)
    }

    /** An empty leaf on a page that nothing uses. */
    constructor (ps: nat, others: Store)
      requires MIN_PAGE_SIZE <= ps
      ensures Valid() && Dense() && Contents() == map[]
      ensures this.ps == ps && root !in others && pages == others[root := Leaf([], ps)]
    {
      FreshPgno(others.Keys);
      var p: Pgno :| p >= 2 && p !in others.Keys;
      this.ps := ps;
      root := p;
      pages := others[p := Leaf([], ps)];
      torn := false;
      height := 0;
    }

    /** Any page number not in use, as the pager hands them out. */
    method Alloc() returns (p: Pgno)
      ensures p >= 2 && p !in pages
    {
      FreshPgno(pages.Keys);
      p :| p >= 2 && p !in pages.Keys;
    }

    /** Rewrites the cells contiguously at the end of the page. */
    method DefragLeaf(p: Pgno)
      requires p in pages && LeafRoom(pages[p], ps)
      modifies this`pages
      ensures pages == old(pages)[p := Leaf(old(pages)[p].cells, ps - CellBytes(ps, old(pages)[p].cells))]
    {
      var cells, write := pages[p].cells, ps as int;
      for i := 0 to |cells|
        invariant write == ps - CellBytes(ps, cells[..i])
      {
        write := write - CellSize(ps, cells[i]);
        assert cells[..i + 1][..i] == cells[..i];
      }
      assert cells[..|cells|] == cells;
      pages := pages[p := Leaf(cells, write)];
    }

    /** Full exactly when the page cannot hold its cells and c, however they are laid out. */
    method InsertLeafCell(p: Pgno, index: nat, c: Cell) returns (full: bool)
      requires p in pages && LeafRoom(pages[p], ps) && index <= |pages[p].cells|
      modifies this`pages
      ensures p in pages && pages == old(pages)[p := pages[p]] && LeafRoom(pages[p], ps)
      ensures full <==> !LeafFits(ps, InsertAt(old(pages)[p].cells, index, c))
      ensures pages[p].cells == if full then old(pages)[p].cells else InsertAt(old(pages)[p].cells, index, c)
    {
      var n := pages[p];
      CellBytesInsert(ps, n.cells, index, c);
      hide CellSize, CellBytes;
      if n.content - (LEAF_HDR + 2 * |n.cells|) < CellSize(ps, c) + 2 {
        DefragLeaf(p);
        n := pages[p];
        if n.content - (LEAF_HDR + 2 * |n.cells|) < CellSize(ps, c) + 2 {
          return true;
        }
      }
      pages := pages[p := Leaf(InsertAt(n.cells, index, c), n.content - CellSize(ps, c))];
      return false;
    }

    /** Leaves a hole: the content offset stays. */
    method DeleteLeafCell(p: Pgno, index: nat)
      requires p in pages && LeafRoom(pages[p], ps) && index < |pages[p].cells|
      modifies this`pages
      ensures p in pages && pages == old(pages)[p := pages[p]] && LeafRoom(pages[p], ps)
      ensures pages[p].cells == RemoveAt(old(pages)[p].cells, index)
    {
      var n := pages[p];
      CellBytesRemove(ps, n.cells, index);
      pages := pages[p := Leaf(RemoveAt(n.cells, index), n.content)];
    }

    /**
     Adds cells to an empty leaf up to the first that does not fit. The split loops ignore
     that result; what they go on to do to the page is not modelled, only that it is torn.
     */
    method FillLeaf(p: Pgno, cells: seq<Cell>)
      requires p in pages && pages[p] == Leaf([], ps) && LEAF_HDR <= ps
      requires Sorted(cells)
      modifies this`pages, this`torn
      ensures p in pages && pages == old(pages)[p := pages[p]] && LeafRoom(pages[p], ps)
      ensures Kept(ps, cells, pages[p].cells)
      ensures torn == (old(torn) || !LeafFits(ps, cells))
    {
      assert LeafFits(ps, cells[..0]);
      hide LeafFits, CellBytes, Sorted, Kept;
      for i := 0 to |cells|
        invariant p in pages && pages == old(pages)[p := pages[p]] && LeafRoom(pages[p], ps)
        invariant pages[p].cells == cells[..i] && LeafFits(ps, cells[..i])
        invariant torn == old(torn)
      {
        FillFits(ps, cells, i);
        var full := InsertLeafCell(p, i, cells[i]);
        if full {
          torn := true;
          KeptPrefix(ps, cells, i);
          return;
        }
      }
      KeptAll(ps, cells);
    }

    /** Half the cells stay, half go to a new page; the separator is the largest key that stays. */
    method SplitLeaf(p: Pgno, index: nat, c: Cell) returns (sep: Key, right: Pgno)
      requires p in pages && LeafRoom(pages[p], ps) && index <= |pages[p].cells| && LEAF_HDR <= ps
      requires |InsertAt(pages[p].cells, index, c)| >= 2
      requires Sorted(InsertAt(pages[p].cells, index, c))
      modifies this`pages, this`torn
      ensures right !in old(pages) && right in pages && p in pages
      ensures pages == old(pages)[p := pages[p]][right := pages[right]]
      ensures LeafRoom(pages[p], ps) && LeafRoom(pages[right], ps)
      ensures var w := InsertAt(old(pages)[p].cells, index, c);
              && sep == w[|w| / 2 - 1].key
              && Kept(ps, w[..|w| / 2], pages[p].cells) && Kept(ps, w[|w| / 2..], pages[right].cells)
              && torn == (old(torn) || !HalvesFit(ps, w))
    {
      hide LeafFits, HalvesFit, Sorted, Kept, InsertAt, CellBytes;
      var scratch := InsertAt(pages[p].cells, index, c);
      var left := |scratch| / 2;
      SplitFacts(ps, scratch);
      right := Alloc();
      pages := pages[right := Leaf([], ps)][p := Leaf([], ps)];
      FillLeaf(p, scratch[..left]);
      FillLeaf(right, scratch[left..]);
      sep := scratch[left - 1].key;
    }

    /** Writes c into leaf p, splitting it when c does not fit. */
    method InsertIntoLeaf(p: Pgno, c: Cell, ghost lo: int, ghost hi: int) returns (sp: Split)
      requires MIN_PAGE_SIZE <= ps && WellFormed(pages, ps, p, 0, lo, hi)
      requires lo < c.key <= hi && |c.val| <= MAX_VALUE_LEN
      modifies this`pages, this`torn
      ensures Grown(old(pages), pages, ps, p, 0, lo, hi, sp)
      ensures torn == (old(torn) || !SafeInsert(old(pages), ps, p, 0, c))
      ensures Written(SafeInsert(old(pages), ps, p, 0, c), Below(old(pages), p, 0), ResultMap(pages, p, 0, sp), c)
      ensures SafeInsert(old(pages), ps, p, 0, c) ==> NoNewEmpty(old(pages), pages) && !EmptyLeafAt(pages, p)
    {
      hide *;
      ghost var st := pages;
      LeafFacts(st, ps, p, lo, hi);
      var idx, exact := FindInLeaf(p, c.key);
      WantedLeaf(st, ps, p, c, idx, lo, hi);
      ClearLeaf(p, idx, exact, c.key);
      ghost var st1 := pages;
      var full := InsertLeafCell(p, idx, c);
      Overwritten(st, st1, pages, p);
      if full {
        ghost var st2 := pages;
        var sep, right := SplitLeaf(p, idx, c);
        sp := SplitAt(sep, right);
        OverwrittenTwo(st, st2, pages, p, right);
        LeafSplit(st, ps, p, pages[p], right, pages[right], Wanted(st[p].cells, c), c, idx, lo, hi);
        if SafeInsert(st, ps, p, 0, c) { SplitFull(st, pages, ps, p, right, Wanted(st[p].cells, c)); }
      } else {
        sp := NoSplit;
        LeafTook(st, ps, p, pages[p], c, idx, lo, hi);
        TookFull(st, pages, ps, p, c);
      }
    }

    method FindInLeaf(p: Pgno, key: Key) returns (idx: nat, exact: bool)
      requires p in pages && LeafRoom(pages[p], ps) && KeysSorted(pages[p])
      ensures idx <= |pages[p].cells| && IsPlace(pages[p].cells, key, idx)
      ensures exact <==> Hit(pages[p].cells, idx, key)
    {
      idx, exact := PgFind(pages[p], key);
      LeafPlace(pages[p], key, idx);
    }

    /** The old cell with this key goes first, if the search found one. */
    method ClearLeaf(p: Pgno, idx: nat, exact: bool, key: Key)
      requires p in pages && LeafRoom(pages[p], ps) && idx <= |pages[p].cells|
      requires exact <==> Hit(pages[p].cells, idx, key)
      modifies this`pages
      ensures p in pages && pages == old(pages)[p := pages[p]] && LeafRoom(pages[p], ps)
      ensures pages[p].cells == Cleared(old(pages)[p].cells, idx, key)
    {
      if exact { DeleteLeafCell(p, idx); }
    }

    // ------------------------------ interior pages ------------------------------

    method InsertInteriorCell(p: Pgno, index: nat, c: Sep) returns (full: bool)
      requires p in pages && GoodInterior(pages[p], ps) && index <= |pages[p].seps|
      modifies this`pages
      ensures p in pages && pages == old(pages)[p := pages[p]] && GoodInterior(pages[p], ps)
      ensures full <==> ps < InteriorBytes(|old(pages)[p].seps| + 1)
      ensures pages[p].right == old(pages)[p].right
      ensures pages[p].seps == if full then old(pages)[p].seps else InsertAt(old(pages)[p].seps, index, c)
    {
      var n := pages[p];
      if n.content - (INTERIOR_HDR + 2 * |n.seps|) < INTERIOR_CELL + 2 {
        n := Interior(n.seps, n.right, ps - INTERIOR_CELL * |n.seps|);
        pages := pages[p := n];
        if n.content - (INTERIOR_HDR + 2 * |n.seps|) < INTERIOR_CELL + 2 {
          return true;
        }
      }
      pages := pages[p := Interior(InsertAt(n.seps, index, c), n.right, n.content - INTERIOR_CELL)];
      return false;
    }

    /** Writes children i..j and the separators between them to an empty interior page. */
    method FillInterior(p: Pgno, kids: seq<Pgno>, keys: seq<Key>, i: nat, j: nat)
      requires p in pages && pages[p] == Interior([], 0, ps)
      requires i <= j < |kids| && |kids| == |keys| + 1 && InteriorBytes(j - i) <= ps
      modifies this`pages
      ensures p in pages && pages == old(pages)[p := pages[p]] && GoodInterior(pages[p], ps)
      ensures pages[p] == Page(kids, keys, i, j, pages[p].content)
    {
      for x := i to j
        invariant p in pages && pages == old(pages)[p := pages[p]] && GoodInterior(pages[p], ps)
        invariant |pages[p].seps| == x - i
        invariant forall y :: 0 <= y < x - i ==> pages[p].seps[y] == Sep(kids[i + y], keys[i + y])
      {
        var full := InsertInteriorCell(p, x - i, Sep(kids[x], keys[x]));
        assert !full;
      }
      var n := pages[p];
      pages := pages[p := Interior(n.seps, kids[j], n.content)];
    }

    /** Splits a full interior page around its middle key, which moves up. */
    method SplitInterior(p: Pgno, index: nat, child: Pgno, sep: Key, right: Pgno)
      returns (up: Key, q: Pgno, ghost mid: nat)
      requires p in pages && GoodInterior(pages[p], ps) && index <= |pages[p].seps|
      requires child == Kid(pages[p], index) && |pages[p].seps| >= 1
      modifies this`pages
      ensures q !in old(pages) && q in pages && p in pages && mid <= |old(pages)[p].seps|
      ensures pages == old(pages)[p := pages[p]][q := pages[q]]
      ensures GoodInterior(pages[p], ps) && GoodInterior(pages[q], ps)
      ensures var n := old(pages)[p]; var kids, keys := NewKids(Kids(n), index, SplitAt(sep, right)), NewKeys(n, index, sep);
              && |kids| == |keys| + 1 && up == keys[mid]
              && pages[p] == Page(kids, keys, 0, mid, pages[p].content)
              && pages[q] == Page(kids, keys, mid + 1, |keys|, pages[q].content)
    {
      var n := pages[p];
      var keys := NewKeys(n, index, sep);
      var kids := SplitKids(n, index, child, right);
      SplitKidsMeaning(n, index, sep, right);
      mid := |keys| / 2;
      var m := |keys| / 2;
      q := Alloc();
      pages := pages[q := Interior([], 0, ps)][p := Interior([], 0, ps)];
      FillInterior(p, kids, keys, 0, m);
      FillInterior(q, kids, keys, m + 1, |keys|);
      up := keys[m];
    }

    method FindKid(p: Pgno, key: Key) returns (i: nat)
      requires p in pages && GoodInterior(pages[p], ps) && KeysSorted(pages[p])
      ensures i <= |pages[p].seps| && IsKidFor(pages[p].seps, key, i)
    {
      var exact;
      i, exact := PgFind(pages[p], key);
      InteriorPlace(pages[p], key, i);
    }

    /** Puts the cell for a split child into its parent page and redirects the next child. */
    method Redirect(p: Pgno, i: nat, child: Pgno, sep: Key, right: Pgno) returns (full: bool)
      requires p in pages && GoodInterior(pages[p], ps) && i <= |pages[p].seps|
      modifies this`pages
      ensures p in pages && pages == old(pages)[p := pages[p]] && GoodInterior(pages[p], ps)
      ensures full <==> ps < InteriorBytes(|old(pages)[p].seps| + 1)
      ensures full ==> pages[p].seps == old(pages)[p].seps && pages[p].right == old(pages)[p].right
      ensures !full ==> pages[p] == Redirected(old(pages)[p], i, child, sep, right, pages[p].content)
    {
      full := InsertInteriorCell(p, i, Sep(child, sep));
      if !full {
        var n := pages[p];
        if i < |n.seps| - 1 {
          pages := pages[p := Interior(n.seps[i + 1 := Sep(right, n.seps[i + 1].key)], n.right, n.content)];
        } else {
          pages := pages[p := Interior(n.seps, right, n.content)];
        }
      }
    }

    /**
     Writes c below page p. The map below p is updated exactly when the one leaf that the
     search ends at either takes the cell or splits into halves that both fit.
     */
    method InsertRec(p: Pgno, c: Cell, ghost d: nat, ghost lo: int, ghost hi: int) returns (sp: Split)
      requires MIN_PAGE_SIZE <= ps && WellFormed(pages, ps, p, d, lo, hi)
      requires lo < c.key <= hi && |c.val| <= MAX_VALUE_LEN
      modifies this`pages, this`torn
      ensures Grown(old(pages), pages, ps, p, d, lo, hi, sp)
      ensures torn == (old(torn) || !SafeInsert(old(pages), ps, p, d, c))
      ensures Written(SafeInsert(old(pages), ps, p, d, c), Below(old(pages), p, d), ResultMap(pages, p, d, sp), c)
      ensures SafeInsert(old(pages), ps, p, d, c) ==> NoNewEmpty(old(pages), pages) && !EmptyLeafAt(pages, p)
      decreases d
    {
      hide *;
      ghost var st := pages;
      PageKind(st, ps, p, d, lo, hi);
      if pages[p].Leaf? {
        sp := InsertIntoLeaf(p, c, lo, hi);
        return;
      }
      ghost var e := d - 1;
      InteriorMeaning(st, ps, p, e, lo, hi);
      var i := FindKid(p, c.key);
      KidMeaning(st, ps, p, e, lo, hi, c.key, i);
      SafeBelow(st, ps, p, e, c, i);
      var child := Kid(pages[p], i);
      ghost var b := Bounds(st[p], lo, hi);
      var csp := InsertRec(child, c, e, b[i], b[i + 1]);
      ghost var safe, st1 := SafeInsert(st, ps, p, d, c), pages;
      KidConfined(st, st1, ps, p, e, lo, hi, i, csp);
      match csp {
        case NoSplit =>
          PassedUp(st, st1, ps, p, e, lo, hi, i, c, safe);
          InteriorFull(st1, ps, p);
          sp := NoSplit;
        case SplitAt(sep, right) =>
          var full := Redirect(p, i, child, sep, right);
          if full {
            ghost var st2 := pages;
            FullInterior(ps, st[p]);
            SameParts(st[p], st2[p], i);
            var up, q, mid := SplitInterior(p, i, child, sep, right);
            OverwrittenTwo(st1, st2, pages, p, q);
            sp := SplitAt(up, q);
            SplitSeparators(st, st1, ps, p, pages[p], q, pages[q], e, lo, hi, i, sep, right, c, safe,
                            NewKids(Kids(st[p]), i, csp), NewKeys(st[p], i, sep), mid);
            if safe { TwoInterior(st, st1, pages, ps, p, q); }
          } else {
            TookSeparator(st, st1, ps, p, pages[p], e, lo, hi, i, sep, right, c, safe);
            if safe { OneInterior(st, st1, pages, ps, p); }
            sp := NoSplit;
          }
      }
    }

    /** Moves the root's content to a new page and makes the root the parent of both halves. */
    method GrowRoot(sep: Key, right: Pgno)
      requires MIN_PAGE_SIZE <= ps && root in pages
      requires ResultWellFormed(pages, ps, root, height, -1, MAX_KEY, SplitAt(sep, right))
      modifies this`pages, this`height
      ensures WellFormed(pages, ps, root, height, -1, MAX_KEY)
      ensures Contents() == ResultMap(old(pages), root, old(height), SplitAt(sep, right))
      ensures forall q :: q in Footprint(pages, root, height)
                ==> q in ResultPages(old(pages), root, old(height), SplitAt(sep, right)) || q !in old(pages)
      ensures !EmptyLeafAt(old(pages), root) ==> NoNewEmpty(old(pages), pages)
      ensures old(pages).Keys <= pages.Keys
      ensures forall q :: q in old(pages) && q != root ==> pages[q] == old(pages)[q]
    {
      var nl := Alloc();
      var n := Interior([Sep(nl, sep)], right, ps - INTERIOR_CELL);
      RootGrown(pages, ps, root, height, nl, n, sep, right);
      if !EmptyLeafAt(pages, root) { RootFull(pages, pages[nl := pages[root]][root := n], root, nl, n); }
      pages := pages[nl := pages[root]];
      pages := pages[root := n];
      height := height + 1;
    }

    /**
     Writes a key. The root page number never changes, pages of other trees are untouched,
     and the tree ends up valid with exactly the updated map if and only if the leaf for the
     key takes the cell or both halves of its split fit; otherwise some key is lost.
     */
    method Insert(key: Key, val: seq<Byte>)
      requires Valid() && |val| <= MAX_VALUE_LEN
      modifies this
      ensures Valid() <==> SafeInsert(old(pages), ps, root, old(height), Cell(key, val))
      ensures Valid() ==> Contents() == old(Contents())[key := val]
      ensures torn ==> Loses(old(Contents())[key := val], Contents())
      ensures old(pages).Keys <= pages.Keys
      ensures forall q :: q in old(pages) && q !in Footprint(old(pages), root, old(height)) ==> pages[q] == old(pages)[q]
      ensures Valid() && old(Dense()) ==> Dense()
    {
      hide Below, WellFormed, Footprint, SafeInsert, ResultPages, Loses, NoNewEmpty, EmptyLeafAt, DenseTree;
      var sp := InsertRec(root, Cell(key, val), height, -1, MAX_KEY);
      RootInFootprint(old(pages), ps, root, height, sp, pages);
      ghost var st1, h1 := pages, height;
      ResultAtLeast(st1, root, h1, sp);
      NothingNew(st1);
      if sp.SplitAt? {
        GrowRoot(sp.sep, sp.right);
      }
      if !torn && DenseTree(old(pages), root, h1) { StaysDense(old(pages), st1, pages, root, h1, height); }
    }

    /** Deletes a key: pages are never merged, so leaves may become empty. */
    method Remove(key: Key) returns (found: bool)
      requires Valid()
      modifies this`pages
      ensures Valid() && height == old(height)
      ensures Contents() == old(Contents()) - {key}
      ensures found <==> key in old(Contents())
      ensures pages.Keys == old(pages).Keys
      ensures forall q :: q in old(pages) && q !in Footprint(old(pages), root, height) ==> pages[q] == old(pages)[q]
    {
      hide WellFormed, Below, Footprint, LeafFor, Kid, Kids, Bounds, IsKidFor, KeysSorted, LeafRoom, IsPlace,
           Cleared, Hit, GoodInterior, WellFormedKids, BelowKids;
      ghost var st := pages;
      var p := root;
      ghost var d, lo, hi := height, -1, MAX_KEY;
      RootKey(pages, ps, root, height, key);
      PageKind(pages, ps, p, d, lo, hi);
      while pages[p].Interior?
        invariant pages == st && p in pages
        invariant WellFormed(st, ps, p, d, lo, hi) && lo < key <= hi
        invariant LeafFor(st, p, d, key) == LeafFor(st, root, height, key)
        invariant pages[p].Leaf? <==> d == 0
        decreases d
      {
        InteriorMeaning(st, ps, p, d - 1, lo, hi);
        var i := FindKid(p, key);
        KidMeaning(st, ps, p, d - 1, lo, hi, key, i);
        LeafBelow(st, p, d - 1, key, i);
        ghost var b := Bounds(st[p], lo, hi);
        p, d, lo, hi := Kid(pages[p], i), d - 1, b[i], b[i + 1];
        PageKind(pages, ps, p, d, lo, hi);
      }
      LeafFacts(st, ps, p, lo, hi);
      var idx;
      idx, found := FindInLeaf(p, key);
      ClearLeaf(p, idx, found, key);
      AtLeaf(st, p, key);
      LeafCleared(st, ps, root, height, -1, MAX_KEY, key, pages[p], idx, found);
    }
  }
}
