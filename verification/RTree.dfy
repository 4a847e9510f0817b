/** The R-tree: insert, search and delete over the page store. */
module RTrees {
  import opened Basics
  import opened RTreeSplit
  import opened RTreePages
  import opened RTreeGrowth

  const HDR := 8
  const ENTRY_SIZE := 40
  const MIN_PAGE_SIZE := 512

  function Capacity(ps: nat): nat
    requires ps >= MIN_PAGE_SIZE
  {
    (ps - HDR) / ENTRY_SIZE
  }

  /** A page holds its header and as many entries as fit behind it. */
  lemma CapacityFits(ps: nat)
    requires ps >= MIN_PAGE_SIZE
    ensures HDR + ENTRY_SIZE * Capacity(ps) <= ps < HDR + ENTRY_SIZE * (Capacity(ps) + 1)
  {
  }

  // ------------------------------------ search ------------------------------------

  /** The rows' entries a search visits below page p, in order. */
  ghost function Hits(st: Store, p: Pgno, h: nat, q: Box): seq<Entry>
    decreases h, 1, 0
  {
    if p !in st then [] else HitsOf(st, st[p].ents, h, q)
  }

  ghost function HitsOf(st: Store, s: seq<Entry>, h: nat, q: Box): seq<Entry>
    decreases h, 0, |s|
  {
    if s == [] then [] else HitsOf(st, s[..|s| - 1], h, q) + HitsAt(st, s[|s| - 1], h, q)
  }

  ghost function HitsAt(st: Store, e: Entry, h: nat, q: Box): seq<Entry>
    decreases h, 0, 0
  {
    if !Meets(e.bb, q) then [] else if h == 0 then [e] else Hits(st, e.pl, h - 1, q)
  }

  lemma CoversTrans(a: Box, b: Box, c: Box)
    requires Covers(a, b) && Covers(b, c)
    ensures Covers(a, c)
  {
  }

  /** A box that covers the entries of a page covers every row below it. */
  lemma {:induction false} CoversBelow(st: Store, cap: nat, p: Pgno, h: nat, b: Box, e: Entry)
    requires Sound(st, cap, p, h) && CoversAll(b, st[p].ents) && e in Below(st, p, h)
    ensures Covers(b, e.bb)
    decreases h
  {
    if h == 0 {
      assert e in st[p].ents;
    } else {
      var i := SumIn(st, st[p].ents, h - 1, e);
      KidIn(st, cap, st[p].ents, h - 1, i);
      CoversBelow(st, cap, st[p].ents[i].pl, h - 1, st[p].ents[i].bb, e);
      CoversTrans(b, st[p].ents[i].bb, e.bb);
    }
  }

  lemma {:induction false} SumIn(st: Store, s: seq<Entry>, h: nat, e: Entry) returns (i: nat)
    requires e in Sum(st, s, h)
    ensures i < |s| && e in Below(st, s[i].pl, h)
  {
    if e in Below(st, s[0].pl, h) {
      i := 0;
    } else {
      var k := SumIn(st, s[1..], h, e);
      i := k + 1;
    }
  }

  lemma LastSum(st: Store, cap: nat, s: seq<Entry>, h: nat)
    requires s != []
    ensures Sum(st, s, h) == Sum(st, s[..|s| - 1], h) + Below(st, s[|s| - 1].pl, h)
    ensures Kids(st, cap, s, h) ==> Kids(st, cap, s[..|s| - 1], h) && Sound(st, cap, s[|s| - 1].pl, h)
  {
    hide *;
    assert s == s[..|s| - 1] + [s[|s| - 1]];
    Concat(st, cap, s[..|s| - 1], [s[|s| - 1]], h);
    One(st, cap, s[|s| - 1], h);
  }

  /** Search visits an entry exactly as often as the tree holds it, if its box meets q, and never otherwise. */
  lemma {:induction false} HitsExact(st: Store, cap: nat, p: Pgno, h: nat, q: Box, e: Entry)
    requires Sound(st, cap, p, h)
    ensures multiset(Hits(st, p, h, q))[e] == if Meets(e.bb, q) then Below(st, p, h)[e] else 0
    decreases h, 1, 0
  {
    if h == 0 { LeafHits(st, st[p].ents, q, e); } else { KidHits(st, cap, st[p].ents, h, q, e); }
  }

  lemma {:induction false} LeafHits(st: Store, s: seq<Entry>, q: Box, e: Entry)
    ensures multiset(HitsOf(st, s, 0, q))[e] == if Meets(e.bb, q) then multiset(s)[e] else 0
    decreases |s|
  {
    if s != [] {
      LeafHits(st, s[..|s| - 1], q, e);
      assert s == s[..|s| - 1] + [s[|s| - 1]];
    }
  }

  lemma {:induction false} KidHits(st: Store, cap: nat, s: seq<Entry>, h: nat, q: Box, e: Entry)
    requires h > 0 && Kids(st, cap, s, h - 1) && Boxes(st, s)
    ensures multiset(HitsOf(st, s, h, q))[e] == if Meets(e.bb, q) then Sum(st, s, h - 1)[e] else 0
    decreases h, 0, |s|
  {
    hide Below, Sound, Meets, Covers, CoversAll;
    if s != [] {
      var c := s[|s| - 1];
      LastSum(st, cap, s, h - 1);
      KidHits(st, cap, s[..|s| - 1], h, q, e);
      KidHit(st, cap, c, h, q, e);
    }
  }

  lemma {:induction false} KidHit(st: Store, cap: nat, c: Entry, h: nat, q: Box, e: Entry)
    requires h > 0 && Sound(st, cap, c.pl, h - 1) && CoversAll(c.bb, st[c.pl].ents)
    ensures multiset(HitsAt(st, c, h, q))[e] == if Meets(e.bb, q) then Below(st, c.pl, h - 1)[e] else 0
    decreases h, 0, 0
  {
    if Meets(c.bb, q) {
      HitsExact(st, cap, c.pl, h - 1, q, e);
    } else if e in Below(st, c.pl, h - 1) {
      CoversBelow(st, cap, c.pl, h - 1, c.bb, e);
    }
  }

  function Rowids(s: seq<Entry>): (r: seq<nat>)
    ensures |r| == |s| && forall i :: 0 <= i < |s| ==> r[i] == s[i].pl
  {
    seq(|s|, i requires 0 <= i < |s| => s[i].pl)
  }

  // --------------------------------- what methods need ---------------------------------

  lemma RootIn(st: Store, cap: nat, p: Pgno, h: nat)
    requires Sound(st, cap, p, h)
    ensures p in st
  {
  }

  lemma ChildIn(st: Store, st1: Store, cap: nat, p: Pgno, h: nat, i: nat, e: Entry, sp: Split)
    requires h > 0 && Sound(st, cap, p, h) && i < |st[p].ents| && Grew(st, st1, cap, st[p].ents[i].pl, h - 1, e, sp)
    ensures st[p].ents[i].pl in st1 && p in st1 && st1[p] == st[p]
  {
    hide Kids, Feet, Sum, Boxes;
    KidIn(st, cap, st[p].ents, h - 1, i);
  }

  lemma IsGrowing(st: Store, st1: Store, cap: nat, p: Pgno, h: nat, i: nat, c: Entry, e: Entry, sp: Split)
    requires h > 0 && Sound(st, cap, p, h) && i < |st[p].ents| && Grew(st, st1, cap, st[p].ents[i].pl, h - 1, e, sp)
    requires c.pl == st[p].ents[i].pl && c.pl in st1 && CoversAll(c.bb, st1[c.pl].ents)
    ensures KidGrowing(st, st1, cap, p, h, i, c, e, sp)
  {
  }

  lemma ShrankIn(st: Store, st1: Store, cap: nat, p: Pgno, h: nat, gone: Entry)
    requires Shrank(st, st1, cap, p, h, gone)
    ensures p in st1
  {
  }

  lemma IsShrinking(st: Store, st1: Store, cap: nat, p: Pgno, h: nat, i: nat, c: Entry, gone: Entry)
    requires h > 0 && Sound(st, cap, p, h) && i < |st[p].ents| && Shrank(st, st1, cap, st[p].ents[i].pl, h - 1, gone)
    requires c.pl == st[p].ents[i].pl && c.pl in st1 && CoversAll(c.bb, st1[c.pl].ents)
    ensures KidChanged(st, st1, cap, p, h, i, c)
  {
  }

  /** No row with this rowid below the child has a box that meets bb. */
  ghost predicate NoneIn(st: Store, c: Entry, h: nat, rowid: nat, bb: Box) {
    forall e :: e in Below(st, c.pl, h) && e.pl == rowid ==> !Meets(e.bb, bb)
  }

  lemma NoneMeets(st: Store, cap: nat, p: Pgno, h: nat, i: nat, rowid: nat, bb: Box)
    requires h > 0 && Sound(st, cap, p, h) && i < |st[p].ents| && !Meets(st[p].ents[i].bb, bb)
    ensures NoneIn(st, st[p].ents[i], h - 1, rowid, bb)
  {
    hide Kids, Feet, Sum;
    var c := st[p].ents[i];
    KidIn(st, cap, st[p].ents, h - 1, i);
    forall e | e in Below(st, c.pl, h - 1) ensures !Meets(e.bb, bb) { CoversBelow(st, cap, c.pl, h - 1, c.bb, e); }
  }

  lemma NoneBelow(st: Store, s: seq<Entry>, h: nat, rowid: nat, bb: Box)
    requires forall k :: 0 <= k < |s| ==> NoneIn(st, s[k], h, rowid, bb)
    ensures forall e :: e in Sum(st, s, h) && e.pl == rowid ==> !Meets(e.bb, bb)
  {
    forall e | e in Sum(st, s, h) && e.pl == rowid ensures !Meets(e.bb, bb) {
      var i := SumIn(st, s, h, e);
      assert NoneIn(st, s[i], h, rowid, bb);
    }
  }

  // ------------------------------------- the tree -------------------------------------

  /** The child that needs least enlargement; among equals, one of the smallest. */
  method ChooseChild(s: seq<Entry>, bb: Box) returns (best: nat)
    requires s != []
    ensures best < |s|
    ensures forall i :: 0 <= i < |s| ==> Enlarge(s[best].bb, bb) <= Enlarge(s[i].bb, bb)
    ensures forall i :: 0 <= i < |s| && Enlarge(s[best].bb, bb) == Enlarge(s[i].bb, bb) ==> Area(s[best].bb) <= Area(s[i].bb)
  {
    hide Enlarge, Area;
    best := 0;
    var bestEnl, bestArea := Enlarge(s[0].bb, bb), Area(s[0].bb);
    for i := 1 to |s|
      invariant best < |s| && bestEnl == Enlarge(s[best].bb, bb) && bestArea == Area(s[best].bb)
      invariant forall k :: 0 <= k < i
                  ==> bestEnl < Enlarge(s[k].bb, bb) || (bestEnl == Enlarge(s[k].bb, bb) && bestArea <= Area(s[k].bb))
    {
      var enl, ar := Enlarge(s[i].bb, bb), Area(s[i].bb);
      if enl < bestEnl || (enl == bestEnl && ar < bestArea) { bestEnl, bestArea, best := enl, ar, i; }
    }
  }

  class RTree {
    const cap: nat
    const root: Pgno
    var pages: Store
    ghost var height: nat

    ghost predicate Valid()
      reads this
    {
      cap >= 12 && Sound(pages, cap, root, height)
    }

    /** Every row's entry, with multiplicity. */
    ghost function Contents(): multiset<Entry>
      requires Valid()
      reads this
    {
      Below(pages, root, height)
    }

    /** An empty leaf, on a page the store does not use. */
    constructor (ps: nat, pages: Store)
      requires ps >= MIN_PAGE_SIZE
      ensures Valid() && Contents() == multiset{} && root !in pages
      ensures this.pages == pages[root := Leaf([])]
    {
      FreshPgno(pages.Keys);
      var r: Pgno :| r !in pages.Keys;
      cap := Capacity(ps);
      root := r;
      this.pages := pages[r := Leaf([])];
      height := 0;
    }

    method Alloc() returns (p: Pgno)
      ensures p !in pages
    {
      FreshPgno(pages.Keys);
      p :| p !in pages.Keys;
    }

    /** Adds to a page's list, dealing it out to the page and a new one when it is full. */
    method AddOrSplit(p: Pgno, add: Entry) returns (sp: Split)
      requires cap >= 1 && p in pages && |pages[p].ents| <= cap
      modifies `pages
      ensures Added(old(pages), pages, cap, p, add, sp)
    {
      hide CoversAll, Union;
      var node := pages[p];
      if |node.ents| < cap {
        pages := pages[p := node.(ents := node.ents + [add])];
        return NoSplit;
      }
      var all := node.ents + [add];
      var ga, gb := QuadSplit(all, cap);
      var sib := Alloc();
      var b := Pick(all, gb);
      var bb := CoverOf(b);
      pages := pages[sib := node.(ents := b)][p := node.(ents := Pick(all, ga))];
      sp := NewSibling(sib, bb);
    }

    method NodeInsert(p: Pgno, e: Entry, ghost h: nat) returns (sp: Split)
      requires cap >= 1 && Sound(pages, cap, p, h)
      modifies `pages
      ensures Grew(old(pages), pages, cap, p, h, e, sp)
      decreases h
    {
      hide Grew, Kids, Feet, Sum, Boxes, CoversAll, NodeReady, Added, Covers;
      ghost var st := pages;
      if pages[p].Leaf? {
        sp := AddOrSplit(p, e);
        LeafGrows(st, pages, cap, p, e, sp);
        return;
      }
      var ents := pages[p].ents;
      var best := ChooseChild(ents, e.bb);
      var child := ents[best].pl;
      KidIn(st, cap, ents, h - 1, best);
      var cs := NodeInsert(child, e, h - 1);
      ghost var st1 := pages;
      ChildIn(st, st1, cap, p, h, best, e, cs);
      var cover := CoverOf(pages[child].ents);
      var c := Entry(cover, child);
      IsGrowing(st, st1, cap, p, h, best, c, e, cs);
      KidGrew(st, st1, cap, p, h, best, c, e, cs);
      pages := pages[p := Interior(ents[best := c])];
      if cs.NewSibling? {
        var ne := Entry(cs.bb, cs.pgno);
        sp := AddOrSplit(p, ne);
        AddedGrows(st, st1, pages, cap, p, h, ents[best := c], ne, e, sp);
      } else {
        sp := NoSplit;
        assert ents[best := c] + [] == ents[best := c];
        WriteGrows(st, st1, pages, cap, p, h, ents[best := c], e);
      }
    }

    /** Adds one row; the root stays on its page. */
    method Insert(bb: Box, rowid: nat)
      requires Valid()
      modifies `pages, `height
      ensures Valid() && Contents() == old(Contents()) + multiset{Entry(bb, rowid)}
      ensures Others(old(pages), pages, old(Foot(pages, root, height)))
    {
      hide Sound, Below, Foot, Others, CoversAll, Union;
      var e := Entry(bb, rowid);
      ghost var st := pages;
      var sp := NodeInsert(root, e, height);
      if sp.NewSibling? {
        ghost var st1 := pages;
        RootIn(st1, cap, root, height);
        var child := Alloc();
        pages := pages[child := pages[root]];
        var cover := CoverOf(pages[child].ents);
        pages := pages[root := Interior([Entry(cover, child), Entry(sp.bb, sp.pgno)])];
        RootGrows(st, st1, pages, cap, root, height, e, sp, child, cover);
        height := height + 1;
      }
    }

    /** The rowids of the rows whose boxes meet q, each as often as it is stored. */
    method Search(q: Box) returns (rows: seq<nat>)
      requires Valid()
      ensures rows == Rowids(Hits(pages, root, height, q))
      ensures forall e :: multiset(Hits(pages, root, height, q))[e] == if Meets(e.bb, q) then Contents()[e] else 0
    {
      forall e ensures multiset(Hits(pages, root, height, q))[e] == if Meets(e.bb, q) then Contents()[e] else 0 {
        HitsExact(pages, cap, root, height, q, e);
      }
      rows := NodeSearch(root, q, height);
    }

    method NodeSearch(p: Pgno, q: Box, ghost h: nat) returns (rows: seq<nat>)
      requires Sound(pages, cap, p, h)
      ensures rows == Rowids(Hits(pages, p, h, q))
      decreases h
    {
      hide Kids, Feet, Boxes, Meets;
      var s, leaf := pages[p].ents, pages[p].Leaf?;
      rows := [];
      for i := 0 to |s|
        invariant rows == Rowids(HitsOf(pages, s[..i], h, q))
      {
        assert s[..i + 1][..i] == s[..i];
        if Meets(s[i].bb, q) {
          if leaf {
            rows := rows + [s[i].pl];
          } else {
            KidIn(pages, cap, s, h - 1, i);
            var below := NodeSearch(s[i].pl, q, h - 1);
            rows := rows + below;
          }
        }
      }
      assert s[..|s|] == s;
    }

    /**
     Removes one row with this rowid. When none is found, no stored row with this rowid has a
     box that meets the one given.
     */
    method Delete(bb: Box, rowid: nat) returns (found: bool)
      requires Valid()
      modifies `pages
      ensures Valid()
      ensures found ==> exists e: Entry :: e.pl == rowid && e in old(Contents()) && Contents() == old(Contents()) - multiset{e}
      ensures !found ==> pages == old(pages) && forall e :: e in Contents() && e.pl == rowid ==> !Meets(e.bb, bb)
      ensures Others(old(pages), pages, old(Foot(pages, root, height)))
    {
      ghost var gone;
      found, gone := NodeDelete(root, bb, rowid, height);
    }

    method NodeDelete(p: Pgno, bb: Box, rowid: nat, ghost h: nat) returns (found: bool, ghost gone: Entry)
      requires Sound(pages, cap, p, h)
      modifies `pages
      ensures found ==> gone.pl == rowid && Shrank(old(pages), pages, cap, p, h, gone)
      ensures !found ==> pages == old(pages) && forall e :: e in Below(pages, p, h) && e.pl == rowid ==> !Meets(e.bb, bb)
      decreases h, 0
    {
      hide Kids, Feet, Sum, Boxes, CoversAll, Covers, Shrank, Meets;
      ghost var st := pages;
      var s := pages[p].ents;
      found, gone := false, Entry(bb, rowid);
      if pages[p].Leaf? {
        var i := 0;
        while i < |s| && s[i].pl != rowid
          invariant 0 <= i <= |s|
          invariant forall k :: 0 <= k < i ==> s[k].pl != rowid
        {
          i := i + 1;
        }
        if i < |s| {
          pages := pages[p := Leaf(s[..i] + s[i + 1..])];
          LeafShrinks(st, pages, cap, p, i);
          found, gone := true, s[i];
        }
        return;
      }
      var i := 0;
      while i < |s| && !found
        invariant 0 <= i <= |s|
        invariant !found ==> pages == st && forall k :: 0 <= k < i ==> NoneIn(st, s[k], h - 1, rowid, bb)
        invariant found ==> gone.pl == rowid && Shrank(st, pages, cap, p, h, gone)
        decreases |s| - i, !found
      {
        found, gone := DeleteBelow(p, i, bb, rowid, h);
        i := i + 1;
      }
      if !found { NoneBelow(st, s, h - 1, rowid, bb); }
    }

    /** One child of an interior page; its covering box is refreshed if it lost a row. */
    method DeleteBelow(p: Pgno, i: nat, bb: Box, rowid: nat, ghost h: nat) returns (found: bool, ghost gone: Entry)
      requires h > 0 && Sound(pages, cap, p, h) && i < |pages[p].ents|
      modifies `pages
      ensures found ==> gone.pl == rowid && Shrank(old(pages), pages, cap, p, h, gone)
      ensures !found ==> pages == old(pages) && NoneIn(pages, pages[p].ents[i], h - 1, rowid, bb)
      decreases h - 1, 1
    {
      hide Kids, Feet, Sum, Boxes, CoversAll, Covers, Shrank, Meets, Below;
      ghost var st := pages;
      var s := pages[p].ents;
      found, gone := false, Entry(bb, rowid);
      KidIn(st, cap, s, h - 1, i);
      if !Meets(s[i].bb, bb) {
        NoneMeets(st, cap, p, h, i, rowid, bb);
        return;
      }
      var child := s[i].pl;
      found, gone := NodeDelete(child, bb, rowid, h - 1);
      if found {
        ghost var st1 := pages;
        ShrankIn(st, st1, cap, child, h - 1, gone);
        var cover := CoverOf(pages[child].ents);
        var c := Entry(cover, child);
        IsShrinking(st, st1, cap, p, h, i, c, gone);
        pages := pages[p := Interior(s[i := c])];
        KidShrank(st, st1, pages, cap, p, h, i, c, gone);
      }
    }
  }
}
