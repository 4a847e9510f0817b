/** How inserting an entry below a page changes the store, and why that keeps the tree sound. */
module RTreeGrowth {
  import opened RTreeSplit
  import opened RTreePages

  datatype Split = NoSplit | NewSibling(pgno: Pgno, bb: Box)

  /** Pages outside `foot` are as they were. */
  ghost predicate Others(st: Store, st': Store, foot: set<Pgno>) {
    st.Keys <= st'.Keys && forall q :: q in st && q !in foot ==> st'[q] == st[q]
  }

  /** Pages added to a tree were not in use before. */
  ghost predicate OnlyFresh(st: Store, before: set<Pgno>, after: set<Pgno>) {
    forall q :: q in after && q in st ==> q in before
  }

  /** The tree at p, and the sibling if there is one, hold what p held and e. */
  ghost predicate Grew(st: Store, st': Store, cap: nat, p: Pgno, h: nat, e: Entry, sp: Split) {
    && Changed(st, st', cap, p, h)
    && (sp.NoSplit? ==> Below(st', p, h) == Below(st, p, h) + multiset{e})
    && (sp.NewSibling? ==>
          && Sound(st', cap, sp.pgno, h) && OnlyFresh(st, Foot(st, p, h), Foot(st', sp.pgno, h))
          && Foot(st', p, h) !! Foot(st', sp.pgno, h)
          && Below(st', p, h) + Below(st', sp.pgno, h) == Below(st, p, h) + multiset{e}
          && CoversAll(sp.bb, st'[sp.pgno].ents))
  }

  /** What adding one entry to a page's list does: the list fits, or it is dealt out to two pages. */
  ghost predicate Added(st: Store, st': Store, cap: nat, p: Pgno, add: Entry, sp: Split)
    requires p in st
  {
    if |st[p].ents| < cap then sp.NoSplit? && st' == st[p := st[p].(ents := st[p].ents + [add])]
    else
      && sp.NewSibling? && sp.pgno !in st && p in st' && sp.pgno in st'
      && st' == st[sp.pgno := st'[sp.pgno]][p := st'[p]]
      && (st'[p].Leaf? <==> st[p].Leaf?) && (st'[sp.pgno].Leaf? <==> st[p].Leaf?)
      && multiset(st'[p].ents) + multiset(st'[sp.pgno].ents) == multiset(st[p].ents + [add])
      && MinFill(cap) <= |st'[p].ents| <= cap && MinFill(cap) <= |st'[sp.pgno].ents| <= cap
      && CoversAll(sp.bb, st'[sp.pgno].ents)
  }

  lemma LeafGrows(st: Store, st': Store, cap: nat, p: Pgno, e: Entry, sp: Split)
    requires Sound(st, cap, p, 0) && Added(st, st', cap, p, e, sp)
    ensures Grew(st, st', cap, p, 0, e, sp)
  {
    assert multiset(st[p].ents + [e]) == multiset(st[p].ents) + multiset{e};
  }

  // ----------------------------------- interior -----------------------------------

  /** The children of p are ready, in st1, for p to be rewritten with the list s. */
  ghost predicate NodeReady(st: Store, st1: Store, cap: nat, p: Pgno, h: nat, s: seq<Entry>, e: Entry) {
    && h > 0 && p in st && p in st1
    && Kids(st1, cap, s, h - 1) && Boxes(st1, s) && p !in Feet(st1, s, h - 1)
    && OnlyFresh(st, Foot(st, p, h), Feet(st1, s, h - 1))
    && Others(st, st1, Foot(st, p, h))
    && Sum(st1, s, h - 1) == Below(st, p, h) + multiset{e}
  }

  /** A list around position i, and what its parts hold. */
  lemma Around(st: Store, cap: nat, s: seq<Entry>, i: nat, h: nat)
    requires i < |s| && Kids(st, cap, s, h)
    ensures Kids(st, cap, s[..i] + s[i + 1..], h) && Sound(st, cap, s[i].pl, h)
    ensures Foot(st, s[i].pl, h) !! Feet(st, s[..i] + s[i + 1..], h)
    ensures Feet(st, s, h) == Foot(st, s[i].pl, h) + Feet(st, s[..i] + s[i + 1..], h)
    ensures Sum(st, s, h) == Below(st, s[i].pl, h) + Sum(st, s[..i] + s[i + 1..], h)
  {
    hide *;
    assert s == s[..i] + [s[i]] + s[i + 1..];
    Moved(st, cap, s[..i], s[i + 1..], [s[i]], h);
    One(st, cap, s[i], h);
  }

  /** The same list with the child at i replaced, and possibly a sibling of it at the end. */
  lemma Replaced(st: Store, cap: nat, s: seq<Entry>, i: nat, c: Entry, h: nat)
    requires i < |s|
    requires Kids(st, cap, s[..i] + s[i + 1..], h) && Sound(st, cap, c.pl, h)
             && Foot(st, c.pl, h) !! Feet(st, s[..i] + s[i + 1..], h)
    ensures Kids(st, cap, s[i := c], h)
    ensures Feet(st, s[i := c], h) == Foot(st, c.pl, h) + Feet(st, s[..i] + s[i + 1..], h)
    ensures Sum(st, s[i := c], h) == Below(st, c.pl, h) + Sum(st, s[..i] + s[i + 1..], h)
  {
    hide *;
    assert s[i := c] == s[..i] + [c] + s[i + 1..];
    Moved(st, cap, s[..i], s[i + 1..], [c], h);
    One(st, cap, c, h);
  }

  lemma Appended(st: Store, cap: nat, s: seq<Entry>, c: Entry, h: nat)
    requires Kids(st, cap, s, h) && Sound(st, cap, c.pl, h) && Foot(st, c.pl, h) !! Feet(st, s, h)
    ensures Kids(st, cap, s + [c], h)
    ensures Feet(st, s + [c], h) == Feet(st, s, h) + Foot(st, c.pl, h)
    ensures Sum(st, s + [c], h) == Sum(st, s, h) + Below(st, c.pl, h)
  {
    hide *;
    Concat(st, cap, s, [c], h);
    One(st, cap, c, h);
  }

  /** The list of p after the child at i has grown. */
  function NewList(s: seq<Entry>, i: nat, c: Entry, sp: Split): seq<Entry>
    requires i < |s|
  {
    s[i := c] + if sp.NewSibling? then [Entry(sp.bb, sp.pgno)] else []
  }

  /** The tree at p was rewritten, and nothing else; pages it gained were not in use. */
  ghost predicate Changed(st: Store, st': Store, cap: nat, p: Pgno, h: nat) {
    Others(st, st', Foot(st, p, h)) && Sound(st', cap, p, h) && OnlyFresh(st, Foot(st, p, h), Foot(st', p, h))
  }

  /** The child of p at i was rewritten; c is its entry with a fresh covering box. */
  ghost predicate KidChanged(st: Store, st1: Store, cap: nat, p: Pgno, h: nat, i: nat, c: Entry) {
    && h > 0 && Sound(st, cap, p, h) && i < |st[p].ents|
    && c.pl == st[p].ents[i].pl && c.pl in st1 && CoversAll(c.bb, st1[c.pl].ents)
    && Changed(st, st1, cap, c.pl, h - 1)
  }

  ghost predicate KidGrowing(st: Store, st1: Store, cap: nat, p: Pgno, h: nat, i: nat, c: Entry, e: Entry, sp: Split) {
    KidChanged(st, st1, cap, p, h, i, c) && Grew(st, st1, cap, c.pl, h - 1, e, sp)
  }

  /** The children next to the one that grew are untouched. */
  lemma RestKept(st: Store, st1: Store, cap: nat, p: Pgno, h: nat, i: nat, c: Entry)
    requires KidChanged(st, st1, cap, p, h, i, c)
    ensures var s := st[p].ents; var r := s[..i] + s[i + 1..];
            && Kids(st, cap, r, h - 1) && Kids(st1, cap, r, h - 1)
            && Feet(st1, r, h - 1) == Feet(st, r, h - 1) && Sum(st1, r, h - 1) == Sum(st, r, h - 1)
            && Foot(st, c.pl, h - 1) !! Feet(st, r, h - 1) && Feet(st, r, h - 1) <= st.Keys
            && SameOn(st, st1, Feet(st, r, h - 1))
            && Foot(st, p, h) == {p} + Foot(st, c.pl, h - 1) + Feet(st, r, h - 1)
            && Below(st, p, h) == Below(st, c.pl, h - 1) + Sum(st, r, h - 1)
            && p !in Foot(st, c.pl, h - 1) && p !in Feet(st, r, h - 1) && p in st1
  {
    hide Kids, Feet, Sum, Boxes;
    var s := st[p].ents;
    var r := s[..i] + s[i + 1..];
    Around(st, cap, s, i, h - 1);
    FeetIn(st, cap, r, h - 1);
    FrameKids(st, st1, cap, r, h - 1);
  }

  lemma BoxesKept(st: Store, st1: Store, cap: nat, p: Pgno, h: nat, i: nat, c: Entry)
    requires KidChanged(st, st1, cap, p, h, i, c)
    ensures Boxes(st1, st[p].ents[i := c])
  {
    hide Kids, Feet, Sum, Foot, Below;
    var s := st[p].ents;
    var r := s[..i] + s[i + 1..];
    RestKept(st, st1, cap, p, h, i, c);
    assert Boxes(st, r);
    FrameBoxes(st, st1, cap, r, h - 1);
    forall k | 0 <= k < |s| && k != i ensures s[k].pl in st1 && CoversAll(s[k].bb, st1[s[k].pl].ents) {
      assert s[k] == r[if k < i then k else k - 1];
    }
  }

  lemma BoxesMore(st: Store, s: seq<Entry>, e: Entry)
    requires Boxes(st, s) && e.pl in st && CoversAll(e.bb, st[e.pl].ents)
    ensures Boxes(st, s + [e])
  {
  }

  lemma KidGrew(st: Store, st1: Store, cap: nat, p: Pgno, h: nat, i: nat, c: Entry, e: Entry, sp: Split)
    requires KidGrowing(st, st1, cap, p, h, i, c, e, sp)
    ensures NodeReady(st, st1, cap, p, h, NewList(st[p].ents, i, c, sp), e)
  {
    hide Kids, Feet, Sum, Foot, Below, Boxes, CoversAll;
    var s := st[p].ents;
    var r := s[..i] + s[i + 1..];
    RestKept(st, st1, cap, p, h, i, c);
    BoxesKept(st, st1, cap, p, h, i, c);
    Replaced(st1, cap, s, i, c, h - 1);
    if sp.NewSibling? {
      var n := Entry(sp.bb, sp.pgno);
      Appended(st1, cap, s[i := c], n, h - 1);
      BoxesMore(st1, s[i := c], n);
      assert Below(st1, c.pl, h - 1) + Sum(st, r, h - 1) + Below(st1, sp.pgno, h - 1)
          == Below(st1, c.pl, h - 1) + Below(st1, sp.pgno, h - 1) + Sum(st, r, h - 1);
    } else {
      assert NewList(s, i, c, sp) == s[i := c];
    }
  }

  /** Rewriting p with a list that fits. */
  lemma WriteGrows(st: Store, st1: Store, st2: Store, cap: nat, p: Pgno, h: nat, s: seq<Entry>, e: Entry)
    requires NodeReady(st, st1, cap, p, h, s, e) && 1 <= |s| <= cap
    requires st2 == st1[p := Interior(s)]
    ensures Grew(st, st2, cap, p, h, e, NoSplit)
  {
    hide Kids, Feet, Sum, Boxes;
    FeetIn(st1, cap, s, h - 1);
    FrameKids(st1, st2, cap, s, h - 1);
    FrameBoxes(st1, st2, cap, s, h - 1);
  }

  /** Half of a list, as the list of a page of its own. */
  lemma HalfSound(st1: Store, st2: Store, cap: nat, q: Pgno, h: nat, s: seq<Entry>)
    requires Kids(st1, cap, s, h) && Boxes(st1, s) && q !in Feet(st1, s, h) && 1 <= |s| <= cap
    requires SameOn(st1, st2, Feet(st1, s, h)) && q in st2 && st2[q] == Interior(s)
    ensures Sound(st2, cap, q, h + 1) && Foot(st2, q, h + 1) == {q} + Feet(st1, s, h)
            && Below(st2, q, h + 1) == Sum(st1, s, h)
  {
    hide Kids, Feet, Sum, Boxes;
    FrameKids(st1, st2, cap, s, h);
    FrameBoxes(st1, st2, cap, s, h);
  }

  lemma Dealt(st1: Store, cap: nat, s: seq<Entry>, a: seq<Entry>, b: seq<Entry>, h: nat)
    requires Kids(st1, cap, s, h) && Boxes(st1, s) && multiset(a) + multiset(b) == multiset(s)
    ensures Kids(st1, cap, a, h) && Kids(st1, cap, b, h) && Feet(st1, a, h) !! Feet(st1, b, h)
    ensures Feet(st1, s, h) == Feet(st1, a, h) + Feet(st1, b, h) && Sum(st1, s, h) == Sum(st1, a, h) + Sum(st1, b, h)
    ensures Boxes(st1, a) && Boxes(st1, b)
  {
    hide Kids, Feet, Sum;
    assert multiset(a + b) == multiset(s);
    Reordered(st1, cap, s, a + b, h);
    Concat(st1, cap, a, b, h);
    assert forall i :: 0 <= i < |a| ==> a[i] in multiset(s);
    assert forall i :: 0 <= i < |b| ==> b[i] in multiset(s);
    assert forall x :: x in multiset(s) ==> x in s;
  }

  /** Dealing the list out to p and a new page. */
  lemma SplitGrows(st: Store, st1: Store, st2: Store, cap: nat, p: Pgno, h: nat, s: seq<Entry>, e: Entry,
                   a: seq<Entry>, b: seq<Entry>, sp: Split)
    requires NodeReady(st, st1, cap, p, h, s, e) && multiset(a) + multiset(b) == multiset(s) && 1 <= |a| <= cap
             && 1 <= |b| <= cap
    requires sp.NewSibling? && sp.pgno !in st1 && st2 == st1[sp.pgno := Interior(b)][p := Interior(a)]
             && CoversAll(sp.bb, b)
    ensures Grew(st, st2, cap, p, h, e, sp)
  {
    hide Kids, Feet, Sum, Boxes, Foot, Sound, Below, CoversAll;
    Dealt(st1, cap, s, a, b, h - 1);
    FeetIn(st1, cap, s, h - 1);
    HalfSound(st1, st2, cap, p, h - 1, a);
    HalfSound(st1, st2, cap, sp.pgno, h - 1, b);
    SelfFoot(st, p, h);
  }

  lemma SelfFoot(st: Store, p: Pgno, h: nat)
    ensures p in Foot(st, p, h)
  {
  }

  /** Adding to p's list the sibling of a child that split. */
  lemma AddedGrows(st: Store, st1: Store, st2: Store, cap: nat, p: Pgno, h: nat, s: seq<Entry>, add: Entry, e: Entry,
                   sp: Split)
    requires cap >= 1 && NodeReady(st, st1, cap, p, h, s + [add], e) && |s| <= cap
    requires Added(st1[p := Interior(s)], st2, cap, p, add, sp)
    ensures Grew(st, st2, cap, p, h, e, sp)
  {
    hide NodeReady, Grew, CoversAll;
    var mid := st1[p := Interior(s)];
    if |s| < cap {
      assert st2 == st1[p := Interior(s + [add])];
      WriteGrows(st, st1, st2, cap, p, h, s + [add], e);
    } else {
      assert st2 == st1[sp.pgno := st2[sp.pgno]][p := st2[p]];
      SplitGrows(st, st1, st2, cap, p, h, s + [add], e, st2[p].ents, st2[sp.pgno].ents, sp);
    }
  }

  // ------------------------------------ the root ------------------------------------

  /** The old root's contents move to a new page; the root keeps its number. */
  lemma RootGrows(st: Store, st1: Store, st2: Store, cap: nat, root: Pgno, h: nat, e: Entry, sp: Split, child: Pgno,
                  bb: Box)
    requires cap >= 2 && sp.NewSibling? && Sound(st, cap, root, h) && Grew(st, st1, cap, root, h, e, sp)
             && child !in st1 && CoversAll(bb, st1[root].ents)
    requires st2 == st1[child := st1[root]][root := Interior([Entry(bb, child), Entry(sp.bb, sp.pgno)])]
    ensures Sound(st2, cap, root, h + 1) && Below(st2, root, h + 1) == Below(st, root, h) + multiset{e}
    ensures Others(st, st2, Foot(st, root, h))
  {
    hide Kids, Sum, Feet;
    var mid := st1[child := st1[root]];
    FootIn(st1, cap, root, h);
    FootIn(st1, cap, sp.pgno, h);
    Moves(st1, mid, cap, root, child, h);
    Frame(st1, mid, cap, sp.pgno, h);
    var a, b := Entry(bb, child), Entry(sp.bb, sp.pgno);
    One(mid, cap, a, h);
    Appended(mid, cap, [a], b, h);
    assert [a] + [b] == [a, b];
    SelfFoot(st1, root, h);
    HalfSound(mid, st2, cap, root, h, [a, b]);
  }

  /** A page copied to an unused number roots the same tree. */
  lemma Moves(st: Store, st': Store, cap: nat, p: Pgno, q: Pgno, h: nat)
    requires Sound(st, cap, p, h) && q !in st && st' == st[q := st[p]]
    ensures Sound(st', cap, q, h) && Below(st', q, h) == Below(st, p, h)
            && Foot(st', q, h) == Foot(st, p, h) - {p} + {q}
  {
    hide Kids, Sum, Feet;
    if h > 0 {
      FeetIn(st, cap, st[p].ents, h - 1);
      FrameKids(st, st', cap, st[p].ents, h - 1);
      FrameBoxes(st, st', cap, st[p].ents, h - 1);
    }
  }

  // ------------------------------------- delete -------------------------------------

  /** The tree at p lost exactly one entry. */
  ghost predicate Shrank(st: Store, st': Store, cap: nat, p: Pgno, h: nat, gone: Entry) {
    Changed(st, st', cap, p, h) && gone in Below(st, p, h) && Below(st', p, h) == Below(st, p, h) - multiset{gone}
  }

  lemma LeafShrinks(st: Store, st': Store, cap: nat, p: Pgno, i: nat)
    requires Sound(st, cap, p, 0) && i < |st[p].ents|
    requires st' == st[p := Leaf(st[p].ents[..i] + st[p].ents[i + 1..])]
    ensures Shrank(st, st', cap, p, 0, st[p].ents[i])
  {
    var s := st[p].ents;
    assert s == s[..i] + [s[i]] + s[i + 1..];
    assert multiset(s) == multiset(s[..i] + s[i + 1..]) + multiset{s[i]};
  }

  lemma KidShrank(st: Store, st1: Store, st2: Store, cap: nat, p: Pgno, h: nat, i: nat, c: Entry, gone: Entry)
    requires KidChanged(st, st1, cap, p, h, i, c) && Shrank(st, st1, cap, c.pl, h - 1, gone)
    requires st2 == st1[p := Interior(st[p].ents[i := c])]
    ensures Shrank(st, st2, cap, p, h, gone)
  {
    hide Kids, Feet, Sum, Boxes, CoversAll, Foot, Below;
    var s := st[p].ents;
    var r := s[..i] + s[i + 1..];
    RestKept(st, st1, cap, p, h, i, c);
    BoxesKept(st, st1, cap, p, h, i, c);
    Replaced(st1, cap, s, i, c, h - 1);
    FeetIn(st1, cap, s[i := c], h - 1);
    HalfSound(st1, st2, cap, p, h - 1, s[i := c]);
    Lose(Below(st, c.pl, h - 1), Sum(st, r, h - 1), gone);
  }

  lemma Lose(a: multiset<Entry>, b: multiset<Entry>, gone: Entry)
    requires gone in a
    ensures (a - multiset{gone}) + b == a + b - multiset{gone}
  {
  }
}
