/**
 The stack of ancestors a cursor keeps, level by level, and what each level knows about
 the whole map: inside its key range the map is what lies below its page.
 */
module BTreePath {
  import opened SortedCells
  import opened BTreePages
  import opened BTreeGrowth
  import opened BTreeStep
  import opened BTreeSplit
  import opened BTreeOutcomes

  /** No key of m lies in (a, h]. */
  ghost predicate NoneIn(m: Table, a: int, h: int) {
    forall k :: k in m ==> !(a < k <= h)
  }

  /** k is the least key of m above a. */
  ghost predicate Successor(m: Table, a: int, k: int) {
    0 <= k <= MAX_KEY && k in m && a < k && NoneIn(m, a, k - 1)
  }

  /** k is the largest key of m below a. */
  ghost predicate Predecessor(m: Table, a: int, k: int) {
    0 <= k <= MAX_KEY && k in m && k < a && NoneIn(m, k, a - 1)
  }

  /** Inside (lo, hi] the two maps are the same. */
  ghost predicate Agrees(m: Table, part: Table, lo: int, hi: int) {
    forall k: Key :: lo < k <= hi ==> (k in m <==> k in part) && (k in m ==> m[k] == part[k])
  }

  ghost predicate Level(st: Store, ps: nat, m: Table, p: Pgno, d: nat, lo: int, hi: int) {
    WellFormed(st, ps, p, d, lo, hi) && Agrees(m, Below(st, p, d), lo, hi)
  }

  /** Page q with range (lo', hi'] is child i of page p with range (lo, hi]. */
  ghost predicate Linked(st: Store, p: Pgno, lo: int, hi: int, i: nat, q: Pgno, lo': int, hi': int) {
    && p in st && st[p].Interior? && i <= |st[p].seps|
    && q == Kid(st[p], i)
    && lo' == Bounds(st[p], lo, hi)[i] && hi' == Bounds(st[p], lo, hi)[i + 1]
  }

  lemma AgreesMiddle(m: Table, a: Table, part: Table, z: Table, lo: int, hi: int, lo': int, hi': int)
    requires Agrees(m, a + part + z, lo, hi)
    requires lo <= lo' <= hi' <= hi
    requires KeysWithin(a, lo, lo') && KeysWithin(z, hi', hi)
    ensures Agrees(m, part, lo', hi')
  {
  }

  lemma BoundsInside(n: Node, lo: int, hi: int, i: nat)
    requires n.Interior? && Increasing(Bounds(n, lo, hi)) && i <= |n.seps|
    ensures var b := Bounds(n, lo, hi);
            |b| == |n.seps| + 2 && lo <= b[i] < b[i + 1] <= hi && b[0] == lo && b[|n.seps| + 1] == hi
  {
    var b := Bounds(n, lo, hi);
    assert b[0] == lo && b[|n.seps| + 1] == hi;
    assert i > 0 ==> b[0] < b[i];
    assert i < |n.seps| ==> b[i + 1] < b[|n.seps| + 1];
  }

  lemma KidsIncreasing(st: Store, ps: nat, kids: seq<Pgno>, b: seq<int>, d: nat)
    requires WellFormedKids(st, ps, kids, b, d)
    ensures |b| == |kids| + 1 && Increasing(b)
    ensures forall i :: 0 <= i < |kids| ==> WellFormed(st, ps, kids[i], d, b[i], b[i + 1])
  {
  }

  /** A level's knowledge carries over to any child. */
  lemma LevelDown(st: Store, ps: nat, m: Table, p: Pgno, d: nat, lo: int, hi: int, i: nat)
    requires Level(st, ps, m, p, d + 1, lo, hi) && p in st && st[p].Interior? && i <= |st[p].seps|
    ensures var b := Bounds(st[p], lo, hi);
            |b| == |st[p].seps| + 2 && lo <= b[i] < b[i + 1] <= hi && Level(st, ps, m, Kid(st[p], i), d, b[i], b[i + 1])
  {
    hide WellFormed, Below, BelowKids, WellFormedKids, Agrees, Bounds, Kids, KeysWithin;
    InteriorMeaning(st, ps, p, d, lo, hi);
    var n, kids, b := st[p], Kids(st[p]), Bounds(st[p], lo, hi);
    KidAt(n, i);
    KidsIncreasing(st, ps, kids, b, d);
    BoundsInside(n, lo, hi, i);
    PartsWithin(st, ps, kids, b, d, i);
    BelowKidsSplit(st, kids, i, d);
    AgreesMiddle(m, BelowKids(st, kids[..i], d), Below(st, kids[i], d), BelowKids(st, kids[i + 1..], d), lo, hi, b[i],
                 b[i + 1]);
  }

  lemma KidAt(n: Node, i: nat)
    requires n.Interior? && i <= |n.seps|
    ensures |Kids(n)| == |n.seps| + 1 && Kids(n)[i] == Kid(n, i)
  {
  }

  /** Neighbouring children share a bound, and the last child ends where its parent ends. */
  lemma Neighbours(n: Node, lo: int, hi: int, i: nat)
    requires n.Interior? && i <= |n.seps|
    ensures var b := Bounds(n, lo, hi);
            |b| == |n.seps| + 2 && b[0] == lo && (i == |n.seps| ==> b[i + 1] == hi)
  {
  }

  // ---------------------------------- leaves ----------------------------------

  lemma LeafLevel(st: Store, ps: nat, m: Table, p: Pgno, lo: int, hi: int)
    requires Level(st, ps, m, p, 0, lo, hi)
    ensures p in st && st[p].Leaf? && Sorted(st[p].cells) && Within(st[p].cells, lo, hi)
    ensures Agrees(m, ToMap(st[p].cells), lo, hi) && LeafRoom(st[p], ps) && KeysSorted(st[p])
  {
    LeafFacts(st, ps, p, lo, hi);
  }

  /** The cell at i is in the map, and the keys between two neighbouring cells are not. */
  lemma LeafCellAt(m: Table, s: seq<Cell>, lo: int, hi: int, i: nat)
    requires Sorted(s) && Within(s, lo, hi) && Agrees(m, ToMap(s), lo, hi) && i < |s|
    ensures s[i].key in m && m[s[i].key] == s[i].val
    ensures NoneIn(m, if i == 0 then lo else s[i - 1].key, s[i].key - 1)
  {
    ToMapAt(s, i);
    forall k | k in m ensures !((if i == 0 then lo else s[i - 1].key as int) < k <= s[i].key - 1) {
      ToMapKeys(s, k);
      hide ToMap;
      assert forall j :: Hit(s, j, k) && j < i ==> s[j].key <= s[i - 1].key;
      assert forall j :: Hit(s, j, k) && i <= j ==> s[i].key <= s[j].key;
    }
  }

  /** Above the last cell of a leaf there is nothing up to the end of its range. */
  lemma LeafEnd(m: Table, s: seq<Cell>, lo: int, hi: int)
    requires Sorted(s) && Within(s, lo, hi) && Agrees(m, ToMap(s), lo, hi)
    ensures NoneIn(m, if s == [] then lo else s[|s| - 1].key, hi)
  {
    forall k | k in m ensures !((if s == [] then lo else s[|s| - 1].key as int) < k <= hi) {
      ToMapKeys(s, k);
      hide ToMap;
      assert forall j :: Hit(s, j, k) ==> s[j].key <= s[|s| - 1].key;
    }
  }

  /** Below the cells of a search place there is nothing between them and the key searched for. */
  lemma LeafSought(m: Table, s: seq<Cell>, lo: int, hi: int, key: Key, i: nat)
    requires Sorted(s) && Within(s, lo, hi) && Agrees(m, ToMap(s), lo, hi) && lo < key <= hi && IsPlace(s, key, i)
    ensures i < |s| ==> Successor(m, key - 1, s[i].key)
    ensures i == |s| ==> NoneIn(m, key - 1, hi)
    ensures key in m <==> Hit(s, i, key)
  {
    PlaceDecides(s, key, i);
    if i < |s| {
      LeafCellAt(m, s, lo, hi, i);
    } else {
      LeafEnd(m, s, lo, hi);
    }
  }

  lemma NoneInJoin(m: Table, a: int, h: int, h': int)
    requires NoneIn(m, a, h) && NoneIn(m, h, h')
    ensures NoneIn(m, a, h')
  {
  }

  // -------------------------------- whole paths --------------------------------

  /** The first n levels of a cursor's stack. */
  ghost predicate Path(st: Store, ps: nat, root: Pgno, h: nat, page: seq<Pgno>, cidx: seq<nat>, lo: seq<int>,
                       hi: seq<int>, n: nat) {
    && n <= h + 1 && n <= |page| && n <= |cidx| && n <= |lo| && n <= |hi|
    && (n > 0 ==> page[0] == root && lo[0] == -1 && hi[0] == MAX_KEY)
    && (forall l :: 0 <= l < n ==> Level(st, ps, Below(st, root, h), page[l], h - l, lo[l], hi[l]))
    && (forall l :: 0 < l < n ==> Linked(st, page[l - 1], lo[l - 1], hi[l - 1], cidx[l - 1], page[l], lo[l], hi[l]))
  }

  /** The page the next level would start at: the root, or the child the level above points to. */
  ghost predicate StartsAt(st: Store, ps: nat, root: Pgno, h: nat, page: seq<Pgno>, cidx: seq<nat>, lo: seq<int>,
                           hi: seq<int>, n: nat, p: Pgno, a: int, z: int)
  {
    && n <= h
    && Path(st, ps, root, h, page, cidx, lo, hi, n)
    && Level(st, ps, Below(st, root, h), p, h - n, a, z)
    && if n == 0 then p == root && a == -1 && z == MAX_KEY
       else Linked(st, page[n - 1], lo[n - 1], hi[n - 1], cidx[n - 1], p, a, z)
  }

  lemma StartAtRoot(st: Store, ps: nat, root: Pgno, h: nat)
    requires WellFormed(st, ps, root, h, -1, MAX_KEY)
    ensures StartsAt(st, ps, root, h, [], [], [], [], 0, root, -1, MAX_KEY)
  {
    hide WellFormed, Below;
  }

  /** Pushing a level. */
  lemma PathPush(st: Store, ps: nat, root: Pgno, h: nat, page: seq<Pgno>, cidx: seq<nat>, lo: seq<int>, hi: seq<int>,
                 n: nat, p: Pgno, a: int, z: int, i: nat)
    requires StartsAt(st, ps, root, h, page, cidx, lo, hi, n, p, a, z)
    ensures Path(st, ps, root, h, page[..n] + [p], cidx[..n] + [i], lo[..n] + [a], hi[..n] + [z], n + 1)
  {
    hide Level, Linked, Below;
    var page', cidx', lo', hi' := page[..n] + [p], cidx[..n] + [i], lo[..n] + [a], hi[..n] + [z];
    forall l | 0 <= l < n + 1 ensures Level(st, ps, Below(st, root, h), page'[l], h - l, lo'[l], hi'[l]) {
      if l < n { assert page'[l] == page[l]; }
    }
    forall l | 0 < l < n + 1 ensures Linked(st, page'[l - 1], lo'[l - 1], hi'[l - 1], cidx'[l - 1], page'[l], lo'[l], hi'[l]) {
      if l < n { assert page'[l] == page[l]; } else { assert page'[l] == p; }
    }
  }

  /** After a push the chosen child is where the next level starts. */
  lemma PathDown(st: Store, ps: nat, root: Pgno, h: nat, page: seq<Pgno>, cidx: seq<nat>, lo: seq<int>, hi: seq<int>,
                 n: nat)
    requires 0 < n <= h && Path(st, ps, root, h, page, cidx, lo, hi, n)
    requires page[n - 1] in st && st[page[n - 1]].Interior? && cidx[n - 1] <= |st[page[n - 1]].seps|
    ensures var b := Bounds(st[page[n - 1]], lo[n - 1], hi[n - 1]); var i := cidx[n - 1];
            && |b| == |st[page[n - 1]].seps| + 2
            && lo[n - 1] <= b[i] < b[i + 1] <= hi[n - 1]
            && StartsAt(st, ps, root, h, page, cidx, lo, hi, n, Kid(st[page[n - 1]], i), b[i], b[i + 1])
  {
    hide Level, Below, Bounds, Kid;
    assert Level(st, ps, Below(st, root, h), page[n - 1], h - (n - 1), lo[n - 1], hi[n - 1]);
    LevelDown(st, ps, Below(st, root, h), page[n - 1], h - n, lo[n - 1], hi[n - 1], cidx[n - 1]);
  }

  lemma PathTop(st: Store, ps: nat, root: Pgno, h: nat, page: seq<Pgno>, cidx: seq<nat>, lo: seq<int>, hi: seq<int>,
                n: nat, l: nat)
    requires l < n && Path(st, ps, root, h, page, cidx, lo, hi, n)
    ensures page[l] in st && (st[page[l]].Leaf? <==> l == h)
    ensures KeysSorted(st[page[l]]) && lo[l] < hi[l]
  {
    PageKeysSorted(st, ps, page[l], h - l, lo[l], hi[l]);
  }

  /** Dropping levels, and pointing the last remaining one to another child. */
  lemma PathCut(st: Store, ps: nat, root: Pgno, h: nat, page: seq<Pgno>, cidx: seq<nat>, lo: seq<int>, hi: seq<int>,
                n: nat, l: nat, i: nat)
    requires l < n && Path(st, ps, root, h, page, cidx, lo, hi, n)
    ensures Path(st, ps, root, h, page, cidx[l := i], lo, hi, l + 1)
  {
    hide Level, Linked, Below;
  }
}
