/**
 Outcomes of writing one cell: what the pages a `BTree` method leaves behind mean.
 */
module BTreeOutcomes {
  import opened SortedCells
  import opened BTreePages
  import opened BTreeLeaf
  import opened BTreeGrowth
  import opened BTreeStep
  import opened BTreeSplit
  import opened BTreeInterior

  lemma SplitFacts(ps: nat, w: seq<Cell>)
    requires Sorted(w)
    ensures Sorted(w[..|w| / 2]) && Sorted(w[|w| / 2..])
    ensures HalvesFit(ps, w) <==> LeafFits(ps, w[..|w| / 2]) && LeafFits(ps, w[|w| / 2..])
  {
  }

  lemma LeafFacts(st: Store, ps: nat, p: Pgno, lo: int, hi: int)
    requires WellFormed(st, ps, p, 0, lo, hi)
    ensures p in st && LeafRoom(st[p], ps) && KeysSorted(st[p])
  {
    PageKeysSorted(st, ps, p, 0, lo, hi);
  }

  lemma Overwritten(st: Store, st1: Store, st2: Store, p: Pgno)
    requires p in st1 && p in st2 && st1 == st[p := st1[p]] && st2 == st1[p := st2[p]]
    ensures st2 == st[p := st2[p]]
  {
  }

  lemma OverwrittenTwo(st: Store, st1: Store, st2: Store, p: Pgno, r: Pgno)
    requires p in st1 && p in st2 && r in st2 && p != r
    requires st1 == st[p := st1[p]] && st2 == st1[p := st2[p]][r := st2[r]]
    ensures st2 == st[p := st2[p]][r := st2[r]]
  {
  }

  lemma FillFits(ps: nat, cells: seq<Cell>, i: nat)
    requires i < |cells|
    ensures LeafFits(ps, cells) ==> LeafFits(ps, cells[..i + 1])
    ensures InsertAt(cells[..i], i, cells[i]) == cells[..i + 1]
  {
    CellBytesPrefix(ps, cells, i + 1);
  }

  lemma KeptPrefix(ps: nat, cells: seq<Cell>, i: nat)
    requires Sorted(cells) && i < |cells| && !LeafFits(ps, cells)
    ensures Kept(ps, cells, cells[..i])
  {
    hide LeafFits, ToMap;
    var k := cells[i].key;
    ToMapKeys(cells, k);
    ToMapKeys(cells[..i], k);
    assert Hit(cells, i, k);
    assert k in ToMap(cells) && k !in ToMap(cells[..i]);
  }

  lemma KeptAll(ps: nat, cells: seq<Cell>)
    requires Sorted(cells) && LeafFits(ps, cells[..|cells|])
    ensures Kept(ps, cells, cells[..|cells|]) && LeafFits(ps, cells)
  {
    assert cells[..|cells|] == cells;
  }

  lemma LeafMeaning(st: Store, ps: nat, p: Pgno, lo: int, hi: int, c: Cell)
    requires WellFormed(st, ps, p, 0, lo, hi)
    ensures p in st && lo < hi && GoodLeaf(st[p], ps, lo, hi)
    ensures Sorted(st[p].cells) && Within(st[p].cells, lo, hi) && ValuesBounded(st[p].cells)
    ensures Below(st, p, 0) == ToMap(st[p].cells)
    ensures SafeInsert(st, ps, p, 0, c) <==> LeafSafe(ps, st[p].cells, c)
  {
  }

  lemma WantedFacts(s: seq<Cell>, c: Cell, i: nat, lo: int, hi: int)
    requires Sorted(s) && IsPlace(s, c.key, i)
    requires Within(s, lo, hi) && lo < c.key <= hi
    requires ValuesBounded(s) && |c.val| <= MAX_VALUE_LEN
    ensures Sorted(Wanted(s, c)) && Within(Wanted(s, c), lo, hi) && ValuesBounded(Wanted(s, c))
    ensures ToMap(Wanted(s, c)) == ToMap(s)[c.key := c.val]
  {
    hide *;
    WantedMap(s, c, i);
    WantedSorted(s, c, i);
    WantedWithin(s, c, i, lo, hi);
  }

  /** A leaf that took its cell, as an outcome of an insertion. */
  lemma LeafTook(st: Store, ps: nat, p: Pgno, n: Node, c: Cell, i: nat, lo: int, hi: int)
    requires WellFormed(st, ps, p, 0, lo, hi) && IsPlace(st[p].cells, c.key, i)
    requires lo < c.key <= hi && |c.val| <= MAX_VALUE_LEN
    requires LeafRoom(n, ps) && n.cells == Wanted(st[p].cells, c) && LeafFits(ps, n.cells)
    ensures SafeInsert(st, ps, p, 0, c)
    ensures Grown(st, st[p := n], ps, p, 0, lo, hi, NoSplit)
    ensures Written(true, Below(st, p, 0), ResultMap(st[p := n], p, 0, NoSplit), c)
  {
    hide LeafFits, ToMap, Wanted, WellFormed, Grown, ResultMap, Below, SafeInsert, Sorted, Within, ValuesBounded,
         GoodLeaf, CellBytes;
    LeafMeaning(st, ps, p, lo, hi, c);
    WantedFacts(st[p].cells, c, i, lo, hi);
    GoodLeafIntro(n, ps, lo, hi);
    LeafWritten(st, ps, p, n, lo, hi);
  }

  /** A leaf that split, as an outcome of an insertion. */
  lemma LeafSplit(st: Store, ps: nat, p: Pgno, l: Node, r: Pgno, n: Node, w: seq<Cell>, c: Cell, i: nat, lo: int,
                  hi: int)
    requires WellFormed(st, ps, p, 0, lo, hi) && IsPlace(st[p].cells, c.key, i)
    requires lo < c.key <= hi && |c.val| <= MAX_VALUE_LEN
    requires r !in st && LeafRoom(l, ps) && LeafRoom(n, ps)
    requires w == Wanted(st[p].cells, c) && |w| >= 2 && !LeafFits(ps, w)
    requires Kept(ps, w[..|w| / 2], l.cells) && Kept(ps, w[|w| / 2..], n.cells)
    ensures SafeInsert(st, ps, p, 0, c) <==> HalvesFit(ps, w)
    ensures var sp := SplitAt(w[|w| / 2 - 1].key, r); var st' := st[p := l][r := n];
            && Grown(st, st', ps, p, 0, lo, hi, sp)
            && Written(SafeInsert(st, ps, p, 0, c), Below(st, p, 0), ResultMap(st', p, 0, sp), c)
  {
    hide LeafFits, ToMap, Wanted, WellFormed, Grown, ResultMap, Below, SafeInsert, Sorted, Within, ValuesBounded,
         GoodLeaf, CellBytes, Kept, HalvesFit, Loses, IsPlace;
    LeafMeaning(st, ps, p, lo, hi, c);
    WantedFacts(st[p].cells, c, i, lo, hi);
    SplitGrown(st, ps, p, l, r, n, w, lo, hi);
  }

  lemma WantedLeaf(st: Store, ps: nat, p: Pgno, c: Cell, i: nat, lo: int, hi: int)
    requires MIN_PAGE_SIZE <= ps && WellFormed(st, ps, p, 0, lo, hi)
    requires IsPlace(st[p].cells, c.key, i) && |c.val| <= MAX_VALUE_LEN
    ensures var s := st[p].cells;
            && i <= |Cleared(s, i, c.key)|
            && Wanted(s, c) == InsertAt(Cleared(s, i, c.key), i, c)
            && Sorted(Wanted(s, c))
            && LEAF_HDR <= ps
            && (!LeafFits(ps, Wanted(s, c)) ==> |Wanted(s, c)| >= 4)
  {
    var s := st[p].cells;
    assert GoodLeaf(st[p], ps, lo, hi);
    hide LeafFits, ToMap, WellFormed;
    WantedMap(s, c, i);
    WantedSorted(s, c, i);
    hide Wanted, Cleared;
    ValuesStayBounded(s, c, i);
    if !LeafFits(ps, Wanted(s, c)) { FullLeafHasFour(ps, Wanted(s, c)); }
  }

  lemma ValuesStayBounded(s: seq<Cell>, c: Cell, i: nat)
    requires Sorted(s) && IsPlace(s, c.key, i) && ValuesBounded(s) && |c.val| <= MAX_VALUE_LEN
    ensures ValuesBounded(Wanted(s, c))
  {
    WantedWithin(s, c, i, -1, MAX_KEY);
  }

  // ------------------------------ interior pages ------------------------------

  /** What the search and the parent page of a well-formed interior page look like. */
  lemma InteriorMeaning(st: Store, ps: nat, p: Pgno, d: nat, lo: int, hi: int)
    requires WellFormed(st, ps, p, d + 1, lo, hi)
    ensures p in st && lo < hi && GoodInterior(st[p], ps) && KeysSorted(st[p])
    ensures |Kids(st[p])| == |st[p].seps| + 1 && |Bounds(st[p], lo, hi)| == |st[p].seps| + 2
    ensures WellFormedKids(st, ps, Kids(st[p]), Bounds(st[p], lo, hi), d)
    ensures Below(st, p, d + 1) == BelowKids(st, Kids(st[p]), d)
  {
    PageKeysSorted(st, ps, p, d + 1, lo, hi);
  }

  lemma KidMeaning(st: Store, ps: nat, p: Pgno, d: nat, lo: int, hi: int, k: Key, i: nat)
    requires WellFormed(st, ps, p, d + 1, lo, hi)
    requires lo < k <= hi && IsKidFor(st[p].seps, k, i)
    ensures i < |Kids(st[p])| && Kids(st[p])[i] == Kid(st[p], i)
    ensures var b := Bounds(st[p], lo, hi);
            |b| == |Kids(st[p])| + 1 && WellFormed(st, ps, Kid(st[p], i), d, b[i], b[i + 1]) && b[i] < k <= b[i + 1]
  {
    KidRange(st[p], lo, hi, k, i);
    assert WellFormedKids(st, ps, Kids(st[p]), Bounds(st[p], lo, hi), d);
    assert Kids(st[p])[i] == Kid(st[p], i);
    hide WellFormed;
  }

  lemma SafeBelow(st: Store, ps: nat, p: Pgno, d: nat, c: Cell, i: nat)
    requires p in st && st[p].Interior? && IsKidFor(st[p].seps, c.key, i)
    ensures SafeInsert(st, ps, p, d + 1, c) <==> SafeInsert(st, ps, Kid(st[p], i), d, c)
  {
    KidForUnique(st[p].seps, c.key, i);
  }

  /** A child grew in place: so did its parent, whose page is untouched. */
  lemma PassedUp(st: Store, st1: Store, ps: nat, p: Pgno, d: nat, lo: int, hi: int, i: nat, c: Cell, safe: bool)
    requires WellFormed(st, ps, p, d + 1, lo, hi)
    requires lo < c.key <= hi && IsKidFor(st[p].seps, c.key, i)
    requires var b := Bounds(st[p], lo, hi); i + 1 < |b| && Grown(st, st1, ps, Kid(st[p], i), d, b[i], b[i + 1], NoSplit)
    requires Written(safe, Below(st, Kid(st[p], i), d), ResultMap(st1, Kid(st[p], i), d, NoSplit), c)
    ensures Grown(st, st1, ps, p, d + 1, lo, hi, NoSplit)
    ensures Written(safe, Below(st, p, d + 1), ResultMap(st1, p, d + 1, NoSplit), c)
  {
    hide *;
    InteriorMeaning(st, ps, p, d, lo, hi);
    KidMeaning(st, ps, p, d, lo, hi, c.key, i);
    var n, kids, b := st[p], Kids(st[p]), Bounds(st[p], lo, hi);
    KidConfined(st, st1, ps, p, d, lo, hi, i, NoSplit);
    KidReplaced(st, st1, ps, kids, b, d, i, NoSplit);
    KidWritten(st, st1, ps, kids, b, d, i, NoSplit, safe, c);
    SameKids(kids, b, i);
    AbsorbedInPlace(st, st1, ps, p, n, d, lo, hi);
    assert st1[p := n] == st1;
  }

  lemma SameKids(kids: seq<Pgno>, b: seq<int>, i: nat)
    requires i < |kids| && i + 1 < |b|
    ensures NewKids(kids, i, NoSplit) == kids && NewBounds(b, i, NoSplit) == b
  {
  }

  /** A child split and its parent page had room for the new separator. */
  lemma TookSeparator(st: Store, st1: Store, ps: nat, p: Pgno, n: Node, d: nat, lo: int, hi: int, i: nat,
                      sep: Key, r: Pgno, c: Cell, safe: bool)
    requires WellFormed(st, ps, p, d + 1, lo, hi)
    requires lo < c.key <= hi && IsKidFor(st[p].seps, c.key, i)
    requires var b := Bounds(st[p], lo, hi); i + 1 < |b| && Grown(st, st1, ps, Kid(st[p], i), d, b[i], b[i + 1], SplitAt(sep, r))
    requires Written(safe, Below(st, Kid(st[p], i), d), ResultMap(st1, Kid(st[p], i), d, SplitAt(sep, r)), c)
    requires GoodInterior(n, ps) && n == Redirected(st[p], i, Kid(st[p], i), sep, r, n.content)
    ensures Grown(st, st1[p := n], ps, p, d + 1, lo, hi, NoSplit)
    ensures Written(safe, Below(st, p, d + 1), ResultMap(st1[p := n], p, d + 1, NoSplit), c)
  {
    hide *;
    InteriorMeaning(st, ps, p, d, lo, hi);
    KidMeaning(st, ps, p, d, lo, hi, c.key, i);
    var kids, b, sp := Kids(st[p]), Bounds(st[p], lo, hi), SplitAt(sep, r);
    KidConfined(st, st1, ps, p, d, lo, hi, i, sp);
    KidReplaced(st, st1, ps, kids, b, d, i, sp);
    KidWritten(st, st1, ps, kids, b, d, i, sp, safe, c);
    RedirectedKids(st[p], i, sep, r, n.content);
    RedirectedBounds(st[p], lo, hi, i, sep, r, n.content);
    GoodIsInterior(n, ps);
    AbsorbedInPlace(st, st1, ps, p, n, d, lo, hi);
  }

  lemma GoodIsInterior(n: Node, ps: nat)
    requires GoodInterior(n, ps)
    ensures n.Interior?
  {
  }

  /** A child split and so did its parent page, around the middle key. */
  lemma SplitSeparators(st: Store, st1: Store, ps: nat, p: Pgno, l: Node, q: Pgno, n: Node, d: nat, lo: int, hi: int,
                        i: nat, sep: Key, r: Pgno, c: Cell, safe: bool, kids': seq<Pgno>, keys: seq<Key>, mid: nat)
    requires WellFormed(st, ps, p, d + 1, lo, hi)
    requires lo < c.key <= hi && IsKidFor(st[p].seps, c.key, i)
    requires var b := Bounds(st[p], lo, hi); i + 1 < |b| && Grown(st, st1, ps, Kid(st[p], i), d, b[i], b[i + 1], SplitAt(sep, r))
    requires Written(safe, Below(st, Kid(st[p], i), d), ResultMap(st1, Kid(st[p], i), d, SplitAt(sep, r)), c)
    requires q !in st1 && GoodInterior(l, ps) && GoodInterior(n, ps)
    requires i < |Kids(st[p])| && kids' == NewKids(Kids(st[p]), i, SplitAt(sep, r)) && keys == NewKeys(st[p], i, sep)
    requires |kids'| == |keys| + 1 && mid < |keys|
    requires l == Page(kids', keys, 0, mid, l.content) && n == Page(kids', keys, mid + 1, |keys|, n.content)
    ensures Grown(st, st1[p := l][q := n], ps, p, d + 1, lo, hi, SplitAt(keys[mid], q))
    ensures Written(safe, Below(st, p, d + 1), ResultMap(st1[p := l][q := n], p, d + 1, SplitAt(keys[mid], q)), c)
  {
    hide *;
    InteriorMeaning(st, ps, p, d, lo, hi);
    KidMeaning(st, ps, p, d, lo, hi, c.key, i);
    var kids, b, sp := Kids(st[p]), Bounds(st[p], lo, hi), SplitAt(sep, r);
    KidConfined(st, st1, ps, p, d, lo, hi, i, sp);
    KidReplaced(st, st1, ps, kids, b, d, i, sp);
    KidWritten(st, st1, ps, kids, b, d, i, sp, safe, c);
    NewKeysBounds(st[p], lo, hi, i, sep, r);
    var b': seq<int> := [lo] + keys + [hi];
    HalfPages(kids', keys, lo, hi, mid, l.content, n.content);
    GoodIsInterior(l, ps);
    GoodIsInterior(n, ps);
    AbsorbedBySplit(st, st1, ps, p, l, q, n, kids', b', d, mid + 1, keys[mid]);
  }

  /** A tree whose top page was copied to a new page number. */
  lemma CopiedTop(st: Store, ps: nat, p: Pgno, d: nat, lo: int, hi: int, q: Pgno)
    requires WellFormed(st, ps, p, d, lo, hi) && q !in st
    ensures var st' := st[q := st[p]];
            && WellFormed(st', ps, q, d, lo, hi)
            && Below(st', q, d) == Below(st, p, d)
            && Footprint(st', q, d) == Footprint(st, p, d) - {p} + {q}
  {
    if d > 0 {
      TopKids(st, ps, p, d - 1, lo, hi);
      CopiedKids(st, ps, p, d - 1, lo, hi, q);
    }
  }

  lemma TopKids(st: Store, ps: nat, p: Pgno, d: nat, lo: int, hi: int)
    requires WellFormed(st, ps, p, d + 1, lo, hi)
    ensures FootprintKids(st, Kids(st[p]), d) <= st.Keys
    ensures Footprint(st, p, d + 1) == {p} + FootprintKids(st, Kids(st[p]), d)
    ensures p !in FootprintKids(st, Kids(st[p]), d)
  {
    FootprintKidsInStore(st, ps, Kids(st[p]), Bounds(st[p], lo, hi), d);
  }

  lemma CopiedKids(st: Store, ps: nat, p: Pgno, d: nat, lo: int, hi: int, q: Pgno)
    requires WellFormed(st, ps, p, d + 1, lo, hi) && q !in st
    ensures var st' := st[q := st[p]];
            && WellFormed(st', ps, q, d + 1, lo, hi)
            && Below(st', q, d + 1) == Below(st, p, d + 1)
            && Footprint(st', q, d + 1) == {q} + FootprintKids(st, Kids(st[p]), d)
  {
    hide *;
    InteriorMeaning(st, ps, p, d, lo, hi);
    TopKids(st, ps, p, d, lo, hi);
    ParentWritten(st, ps, q, st[p], d, lo, hi);
  }

  lemma TwoKids(st: Store, ps: nat, n: Node, a: Pgno, z: Pgno, d: nat, lo: int, sep: Key, hi: int)
    requires n.Interior? && n.seps == [Sep(a, sep)] && n.right == z
    requires WellFormed(st, ps, a, d, lo, sep) && WellFormed(st, ps, z, d, sep, hi)
    requires Footprint(st, a, d) !! Footprint(st, z, d)
    requires lo < sep < hi
    ensures Kids(n) == [a, z]
    ensures WellFormedKids(st, ps, Kids(n), Bounds(n, lo, hi), d)
    ensures FootprintKids(st, Kids(n), d) == Footprint(st, a, d) + Footprint(st, z, d)
    ensures BelowKids(st, Kids(n), d) == Below(st, a, d) + Below(st, z, d)
  {
    assert Kids(n) == [a, z];
    assert Bounds(n, lo, hi) == [lo, sep, hi];
    hide WellFormed, Footprint, Below;
    PairKids(st, a, z, d);
  }

  lemma PairKids(st: Store, a: Pgno, z: Pgno, d: nat)
    ensures FootprintKids(st, [a, z], d) == Footprint(st, a, d) + Footprint(st, z, d)
    ensures BelowKids(st, [a, z], d) == Below(st, a, d) + Below(st, z, d)
  {
    hide Footprint, Below;
    assert [a, z][1..] == [z] && [z][1..] == [];
    assert BelowKids(st, [], d) == map[] && FootprintKids(st, [], d) == {};
    assert BelowKids(st, [z], d) == Below(st, z, d) && FootprintKids(st, [z], d) == Footprint(st, z, d);
  }

  /** The root's content moved down, and the root page became its parent. */
  lemma RootGrown(st: Store, ps: nat, root: Pgno, d: nat, nl: Pgno, n: Node, sep: Key, r: Pgno)
    requires ResultWellFormed(st, ps, root, d, -1, MAX_KEY, SplitAt(sep, r)) && root in st
    requires nl !in st && GoodInterior(n, ps) && n.seps == [Sep(nl, sep)] && n.right == r
    ensures var st' := st[nl := st[root]][root := n];
            && WellFormed(st', ps, root, d + 1, -1, MAX_KEY)
            && Below(st', root, d + 1) == ResultMap(st, root, d, SplitAt(sep, r))
            && Footprint(st', root, d + 1) == ResultPages(st, root, d, SplitAt(sep, r)) + {nl}
  {
    hide WellFormed, Footprint, Below, WellFormedKids, FootprintKids, BelowKids, Bounds, Kids, GoodInterior;
    var st1 := st[nl := st[root]];
    CopiedTop(st, ps, root, d, -1, sep, nl);
    FootprintInStore(st, ps, r, d, sep, MAX_KEY);
    FootprintInStore(st, ps, root, d, -1, sep);
    Frame(st, st1, ps, r, d);
    PageInFootprint(st, root, d);
    GoodIsInterior(n, ps);
    TwoKids(st1, ps, n, nl, r, d, -1, sep, MAX_KEY);
    ParentWritten(st1, ps, root, n, d, -1, MAX_KEY);
  }

  function SplitKids(n: Node, i: nat, left: Pgno, right: Pgno): (r: seq<Pgno>)
    requires n.Interior? && i <= |n.seps|
  {
    seq(|n.seps| + 2, x requires 0 <= x < |n.seps| + 2 =>
      if x < i then Kid(n, x) else if x == i then left else if x == i + 1 then right else Kid(n, x - 1))
  }

  lemma SplitKidsMeaning(n: Node, i: nat, sep: Key, right: Pgno)
    requires n.Interior? && i <= |n.seps|
    ensures SplitKids(n, i, Kid(n, i), right) == NewKids(Kids(n), i, SplitAt(sep, right))
  {
    var a, b := SplitKids(n, i, Kid(n, i), right), NewKids(Kids(n), i, SplitAt(sep, right));
    forall x | 0 <= x < |a| ensures a[x] == b[x] {
    }
  }

  lemma PageKind(st: Store, ps: nat, p: Pgno, d: nat, lo: int, hi: int)
    requires WellFormed(st, ps, p, d, lo, hi)
    ensures p in st && (st[p].Leaf? <==> d == 0)
  {
  }

  /** A page too full for another separator holds many of them. */
  lemma FullInterior(ps: nat, n: Node)
    requires MIN_PAGE_SIZE <= ps && GoodInterior(n, ps) && ps < InteriorBytes(|n.seps| + 1)
    ensures |n.seps| >= 1
  {
  }

  /** Defragmenting a page changes neither its children nor its keys. */
  lemma SameParts(n: Node, n': Node, i: nat)
    requires n.Interior? && n'.Interior? && n.seps == n'.seps && n.right == n'.right && i <= |n.seps|
    ensures Kids(n) == Kids(n') && Kid(n, i) == Kid(n', i)
    ensures forall sep :: NewKeys(n, i, sep) == NewKeys(n', i, sep)
  {
  }

  lemma RootInFootprint(st: Store, ps: nat, root: Pgno, d: nat, sp: Split, st': Store)
    requires Grown(st, st', ps, root, d, -1, MAX_KEY, sp)
    ensures root in Footprint(st, root, d) && root in st'
  {
    PageInFootprint(st, root, d);
  }

  // --------------------------------- removal ---------------------------------

  /** The leaf a search for k ends at. */
  ghost function LeafFor(st: Store, p: Pgno, d: nat, k: Key): Pgno
    decreases d
  {
    if d > 0 && p in st && st[p].Interior? then LeafFor(st, Kid(st[p], KidFor(st[p].seps, k)), d - 1, k) else p
  }

  lemma LeafBelow(st: Store, p: Pgno, d: nat, k: Key, i: nat)
    requires p in st && st[p].Interior? && IsKidFor(st[p].seps, k, i)
    ensures LeafFor(st, p, d + 1, k) == LeafFor(st, Kid(st[p], i), d, k)
  {
    KidForUnique(st[p].seps, k, i);
  }

  lemma AtLeaf(st: Store, p: Pgno, k: Key)
    ensures LeafFor(st, p, 0, k) == p
  {
  }

  lemma RootKey(st: Store, ps: nat, root: Pgno, d: nat, k: Key)
    ensures -1 < k <= MAX_KEY
  {
  }

  lemma RemoveMiddle<K, V>(a: map<K, V>, m: map<K, V>, z: map<K, V>, k: K)
    requires k !in a && k !in z
    ensures a + (m - {k}) + z == (a + m + z) - {k}
  {
  }

  lemma KidRemoved(st: Store, st': Store, ps: nat, kids: seq<Pgno>, b: seq<int>, d: nat, i: nat, k: Key)
    requires WellFormedKids(st, ps, kids, b, d)
    requires i < |kids| && b[i] < k <= b[i + 1]
    requires Grown(st, st', ps, kids[i], d, b[i], b[i + 1], NoSplit)
    requires Below(st', kids[i], d) == Below(st, kids[i], d) - {k}
    ensures BelowKids(st', kids, d) == BelowKids(st, kids, d) - {k}
    ensures k in BelowKids(st, kids, d) <==> k in Below(st, kids[i], d)
  {
    hide WellFormed, Below, BelowKids, Grown, NewKids;
    SameKids(kids, b, i);
    KidReplacedMap(st, st', ps, kids, b, d, i, NoSplit);
    BelowKidsSplit(st, kids, i, d);
    PartsWithin(st, ps, kids, b, d, i);
    RemoveMiddle(BelowKids(st, kids[..i], d), Below(st, kids[i], d), BelowKids(st, kids[i + 1..], d), k);
  }

  /** Clearing k from the leaf a search for it ends at takes k, and nothing else, out of the tree. */
  lemma {:induction false} LeafCleared(st: Store, ps: nat, p: Pgno, d: nat, lo: int, hi: int, k: Key, n: Node,
                                       idx: nat, found: bool)
    requires WellFormed(st, ps, p, d, lo, hi) && lo < k <= hi
    requires var q := LeafFor(st, p, d, k);
             && q in st && st[q].Leaf? && LeafRoom(n, ps)
             && idx <= |st[q].cells| && IsPlace(st[q].cells, k, idx) && n.cells == Cleared(st[q].cells, idx, k)
             && (found <==> Hit(st[q].cells, idx, k))
    ensures var st' := st[LeafFor(st, p, d, k) := n];
            && Grown(st, st', ps, p, d, lo, hi, NoSplit)
            && Below(st', p, d) == Below(st, p, d) - {k}
    ensures found <==> k in Below(st, p, d)
    decreases d, 0
  {
    if d == 0 {
      LeafClearedHere(st, ps, p, lo, hi, k, n, idx);
    } else {
      LeafClearedBelow(st, ps, p, d - 1, lo, hi, k, n, idx, found);
    }
  }

  lemma LeafClearedHere(st: Store, ps: nat, p: Pgno, lo: int, hi: int, k: Key, n: Node, idx: nat)
    requires WellFormed(st, ps, p, 0, lo, hi) && lo < k <= hi
    requires LeafRoom(n, ps) && IsPlace(st[p].cells, k, idx) && n.cells == Cleared(st[p].cells, idx, k)
    ensures var st' := st[p := n];
            && Grown(st, st', ps, p, 0, lo, hi, NoSplit)
            && Below(st', p, 0) == Below(st, p, 0) - {k}
    ensures Hit(st[p].cells, idx, k) <==> k in Below(st, p, 0)
  {
    hide ToMap, CellBytes, WellFormed, Below, Cleared, Grown, IsPlace, SafeInsert, GoodLeaf;
    LeafMeaning(st, ps, p, lo, hi, Cell(k, []));
    var s := st[p].cells;
    ClearedMap(s, idx, k);
    PlaceDecides(s, k, idx);
    ClearedGood(s, idx, k, lo, hi);
    GoodLeafIntro(n, ps, lo, hi);
    LeafWritten(st, ps, p, n, lo, hi);
  }

  lemma ClearedGood(s: seq<Cell>, i: nat, k: Key, lo: int, hi: int)
    requires Sorted(s) && Within(s, lo, hi) && ValuesBounded(s) && IsPlace(s, k, i)
    ensures Sorted(Cleared(s, i, k)) && Within(Cleared(s, i, k), lo, hi) && ValuesBounded(Cleared(s, i, k))
  {
    hide RemoveAt;
    ClearedPlace(s, k, i);
    var r := Cleared(s, i, k);
    forall x | 0 <= x < |r| ensures lo < r[x].key <= hi && |r[x].val| <= MAX_VALUE_LEN {
      assert r[x] == s[if x < i then x else if Hit(s, i, k) then x + 1 else x];
    }
  }

  lemma LeafClearedBelow(st: Store, ps: nat, p: Pgno, d: nat, lo: int, hi: int, k: Key, n: Node, idx: nat, found: bool)
    requires WellFormed(st, ps, p, d + 1, lo, hi) && lo < k <= hi
    requires var q := LeafFor(st, p, d + 1, k);
             && q in st && st[q].Leaf? && LeafRoom(n, ps)
             && idx <= |st[q].cells| && IsPlace(st[q].cells, k, idx) && n.cells == Cleared(st[q].cells, idx, k)
             && (found <==> Hit(st[q].cells, idx, k))
    ensures var st' := st[LeafFor(st, p, d + 1, k) := n];
            && Grown(st, st', ps, p, d + 1, lo, hi, NoSplit)
            && Below(st', p, d + 1) == Below(st, p, d + 1) - {k}
    ensures found <==> k in Below(st, p, d + 1)
    decreases d, 1
  {
    hide *;
    InteriorMeaning(st, ps, p, d, lo, hi);
    var i := KidPlace(st, ps, p, d, lo, hi, k);
    KidMeaning(st, ps, p, d, lo, hi, k, i);
    LeafBelow(st, p, d, k, i);
    var kids, b, q := Kids(st[p]), Bounds(st[p], lo, hi), LeafFor(st, p, d + 1, k);
    var st1 := st[q := n];
    LeafCleared(st, ps, kids[i], d, b[i], b[i + 1], k, n, idx, found);
    KidConfined(st, st1, ps, p, d, lo, hi, i, NoSplit);
    KidReplaced(st, st1, ps, kids, b, d, i, NoSplit);
    KidRemoved(st, st1, ps, kids, b, d, i, k);
    SameKids(kids, b, i);
    AbsorbedInPlace(st, st1, ps, p, st[p], d, lo, hi);
    assert st1[p := st[p]] == st1;
    NoSplitMap(st1, p, d + 1);
  }

  lemma NoSplitMap(st: Store, p: Pgno, d: nat)
    ensures ResultMap(st, p, d, NoSplit) == Below(st, p, d)
  {
  }

  lemma KidPlace(st: Store, ps: nat, p: Pgno, d: nat, lo: int, hi: int, k: Key) returns (i: nat)
    requires WellFormed(st, ps, p, d + 1, lo, hi)
    ensures i <= |st[p].seps| && IsKidFor(st[p].seps, k, i)
  {
    PageKeysSorted(st, ps, p, d + 1, lo, hi);
    var n := st[p];
    hide WellFormed;
    assert forall x, y :: 0 <= x < y < |n.seps| ==> CellKey(n, x) < CellKey(n, y);
    i := 0;
    while i < |n.seps| && n.seps[i].key < k
      invariant i <= |n.seps| && forall j :: 0 <= j < i ==> n.seps[j].key < k
    {
      i := i + 1;
    }
    forall j | i <= j < |n.seps| ensures k <= n.seps[j].key {
      if i < j { assert CellKey(n, i) < CellKey(n, j); }
    }
  }

  // ------------------------- insertion leaves no empty leaf -------------------------

  lemma TookFull(st: Store, st': Store, ps: nat, p: Pgno, c: Cell)
    requires p in st && p in st' && st' == st[p := st'[p]] && st[p].Leaf? && LeafRoom(st'[p], ps)
             && st'[p].cells == Wanted(st[p].cells, c)
    ensures NoNewEmpty(st, st') && !EmptyLeafAt(st', p)
  {
  }

  lemma SplitFull(st: Store, st': Store, ps: nat, p: Pgno, r: Pgno, w: seq<Cell>)
    requires p in st && p in st' && r in st' && st' == st[p := st'[p]][r := st'[r]] && p != r && LeafRoom(st'[p], ps)
             && LeafRoom(st'[r], ps)
    requires |w| >= 2 && HalvesFit(ps, w) && Kept(ps, w[..|w| / 2], st'[p].cells)
             && Kept(ps, w[|w| / 2..], st'[r].cells)
    ensures NoNewEmpty(st, st') && !EmptyLeafAt(st', p)
  {
    assert st'[p].cells == w[..|w| / 2] && st'[r].cells == w[|w| / 2..];
  }

  lemma InteriorFull(st: Store, ps: nat, p: Pgno)
    requires p in st && GoodInterior(st[p], ps)
    ensures !EmptyLeafAt(st, p)
  {
  }

  /** Interior pages written over or beside others are not leaves. */
  lemma OneInterior(st: Store, st1: Store, st2: Store, ps: nat, p: Pgno)
    requires NoNewEmpty(st, st1) && p in st2 && st2 == st1[p := st2[p]] && GoodInterior(st2[p], ps)
    ensures NoNewEmpty(st, st2) && !EmptyLeafAt(st2, p)
  {
  }

  lemma TwoInterior(st: Store, st1: Store, st2: Store, ps: nat, p: Pgno, q: Pgno)
    requires NoNewEmpty(st, st1) && p in st2 && q in st2 && st2 == st1[p := st2[p]][q := st2[q]]
    requires GoodInterior(st2[p], ps) && GoodInterior(st2[q], ps)
    ensures NoNewEmpty(st, st2) && !EmptyLeafAt(st2, p)
  {
  }

  /** The old root's content, not an empty leaf, moved to a new page. */
  lemma RootFull(st: Store, st': Store, root: Pgno, nl: Pgno, n: Node)
    requires root in st && !EmptyLeafAt(st, root) && n.Interior? && st' == st[nl := st[root]][root := n]
    ensures NoNewEmpty(st, st')
  {
  }

  /** No leaf of the tree is empty, except that a tree may be a lone empty root. */
  ghost predicate DenseTree(st: Store, root: Pgno, d: nat) {
    forall q :: q in Footprint(st, root, d) && q != root ==> !EmptyLeafAt(st, q)
  }

  lemma StaysDense(st: Store, st1: Store, st2: Store, root: Pgno, d: nat, d': nat)
    requires DenseTree(st, root, d) && NoNewEmpty(st, st1) && NoNewEmpty(st1, st2)
    requires forall q :: q in Footprint(st2, root, d') && q in st ==> q in Footprint(st, root, d)
    ensures DenseTree(st2, root, d')
  {
  }

  lemma NothingNew(st: Store)
    ensures NoNewEmpty(st, st)
  {
  }

  lemma ResultAtLeast(st: Store, p: Pgno, d: nat, sp: Split)
    ensures Footprint(st, p, d) <= ResultPages(st, p, d, sp)
  {
  }
}
