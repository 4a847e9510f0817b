/**
 Interior pages as arrays of children and separators, the way a split takes them apart.
 */
module BTreeInterior {
  import opened SortedCells
  import opened BTreePages
  import opened BTreeLeaf
  import opened BTreeGrowth

  /** The interior page over children i..j with the separators between them. */
  function Page(kids: seq<Pgno>, keys: seq<Key>, i: nat, j: nat, content: int): (n: Node)
    requires i <= j < |kids| && |kids| == |keys| + 1
  {
    Interior(seq(j - i, x requires 0 <= x < j - i => Sep(kids[i + x], keys[i + x])), kids[j], content)
  }

  lemma PageParts(kids: seq<Pgno>, keys: seq<Key>, i: nat, j: nat, content: int)
    requires i <= j < |kids| && |kids| == |keys| + 1
    ensures Kids(Page(kids, keys, i, j, content)) == kids[i..j + 1]
    ensures SepKeys(Page(kids, keys, i, j, content)) == keys[i..j]
  {
  }

  /** The separators of n with `sep` put before separator i. */
  function NewKeys(n: Node, i: nat, sep: Key): (r: seq<Key>)
    requires n.Interior? && i <= |n.seps|
    ensures |r| == |n.seps| + 1
  {
    InsertAt(SepKeys(n), i, sep)
  }

  lemma InsertBetween(keys: seq<int>, lo: int, hi: int, i: nat, x: int)
    requires i <= |keys|
    ensures var b := [lo] + keys + [hi];
            b[..i + 1] + [x] + b[i + 1..] == [lo] + InsertAt(keys, i, x) + [hi]
  {
    var b := [lo] + keys + [hi];
    assert b[..i + 1] == [lo] + keys[..i];
    assert b[i + 1..] == keys[i..] + [hi];
  }

  lemma NewKeysBounds(n: Node, lo: int, hi: int, i: nat, sep: Key, r: Pgno)
    requires n.Interior? && i <= |n.seps|
    ensures NewBounds(Bounds(n, lo, hi), i, SplitAt(sep, r)) == [lo] + NewKeys(n, i, sep) + [hi]
  {
    InsertBetween(SepKeys(n), lo, hi, i, sep);
  }

  /** The page after the cell for the split child was inserted and the next child redirected. */
  function Redirected(n: Node, i: nat, child: Pgno, sep: Key, r: Pgno, content: int): (n': Node)
    requires n.Interior? && i <= |n.seps|
  {
    var seps := InsertAt(n.seps, i, Sep(child, sep));
    if i < |n.seps| then Interior(seps[i + 1 := Sep(r, seps[i + 1].key)], n.right, content)
    else Interior(seps, r, content)
  }

  lemma RedirectedKids(n: Node, i: nat, sep: Key, r: Pgno, content: int)
    requires n.Interior? && i <= |n.seps|
    ensures Kids(Redirected(n, i, Kid(n, i), sep, r, content)) == NewKids(Kids(n), i, SplitAt(sep, r))
  {
    var a, b := Kids(Redirected(n, i, Kid(n, i), sep, r, content)), NewKids(Kids(n), i, SplitAt(sep, r));
    forall j | 0 <= j < |a| ensures a[j] == b[j] {
    }
  }

  lemma RedirectedKeys(n: Node, i: nat, sep: Key, r: Pgno, content: int)
    requires n.Interior? && i <= |n.seps|
    ensures SepKeys(Redirected(n, i, Kid(n, i), sep, r, content)) == NewKeys(n, i, sep)
  {
    var a, b := SepKeys(Redirected(n, i, Kid(n, i), sep, r, content)), NewKeys(n, i, sep);
    forall j | 0 <= j < |a| ensures a[j] == b[j] {
    }
  }

  lemma RedirectedBounds(n: Node, lo: int, hi: int, i: nat, sep: Key, r: Pgno, content: int)
    requires n.Interior? && i <= |n.seps|
    ensures Bounds(Redirected(n, i, Kid(n, i), sep, r, content), lo, hi) == NewBounds(Bounds(n, lo, hi), i, SplitAt(sep, r))
  {
    NewKeysBounds(n, lo, hi, i, sep, r);
    RedirectedKeys(n, i, sep, r, content);
    hide NewBounds, Redirected, NewKeys;
  }

  /** Splitting the arrays at a middle key gives two pages with the right children and bounds. */
  lemma HalfPages(kids: seq<Pgno>, keys: seq<Key>, lo: int, hi: int, mid: nat, c: int, c': int)
    requires |kids| == |keys| + 1 && mid < |keys|
    ensures var l, r := Page(kids, keys, 0, mid, c), Page(kids, keys, mid + 1, |keys|, c');
            var b := [lo] + keys + [hi];
            && Kids(l) == kids[..mid + 1] && Kids(r) == kids[mid + 1..]
            && Bounds(l, lo, keys[mid]) == b[..mid + 2] && Bounds(r, keys[mid], hi) == b[mid + 1..]
  {
    PageParts(kids, keys, 0, mid, c);
    PageParts(kids, keys, mid + 1, |keys|, c');
    hide Page;
    assert kids[0..mid + 1] == kids[..mid + 1] && kids[mid + 1..|keys| + 1] == kids[mid + 1..];
    BoundsOf(Page(kids, keys, 0, mid, c), keys[0..mid], lo, keys[mid]);
    BoundsOf(Page(kids, keys, mid + 1, |keys|, c'), keys[mid + 1..|keys|], keys[mid], hi);
    SliceBounds(keys, lo, hi, mid);
  }

  lemma BoundsOf(n: Node, keys: seq<Key>, lo: int, hi: int)
    requires n.Interior? && SepKeys(n) == keys
    ensures Bounds(n, lo, hi) == [lo] + keys + [hi]
  {
  }

  lemma SliceBounds(keys: seq<Key>, lo: int, hi: int, mid: nat)
    requires mid < |keys|
    ensures var b: seq<int> := [lo] + keys + [hi];
            && [lo] + keys[0..mid] + [keys[mid] as int] == b[..mid + 2]
            && [keys[mid] as int] + keys[mid + 1..|keys|] + [hi] == b[mid + 1..]
  {
  }
}
