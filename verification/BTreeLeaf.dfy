/**
 What happens to the cells of one leaf when a key is written, and when a full leaf splits.
 */
module BTreeLeaf {
  import opened SortedCells
  import opened BTreePages

  function InsertAt<T>(s: seq<T>, i: nat, x: T): (r: seq<T>)
    requires i <= |s|
    ensures |r| == |s| + 1
    ensures forall j :: 0 <= j < |r| ==> r[j] == if j < i then s[j] else if j == i then x else s[j - 1]
  {
    s[..i] + [x] + s[i..]
  }

  function RemoveAt<T>(s: seq<T>, i: nat): (r: seq<T>)
    requires i < |s|
    ensures |r| == |s| - 1
    ensures forall j :: 0 <= j < |r| ==> r[j] == if j < i then s[j] else s[j + 1]
  {
    s[..i] + s[i + 1..]
  }

  /** The place of key k, counted. */
  ghost function Rank(s: seq<Cell>, k: int): (n: nat)
    ensures n <= |s|
  {
    if s == [] then 0 else Rank(s[..|s| - 1], k) + if s[|s| - 1].key < k then 1 else 0
  }

  lemma {:induction false} PlaceIsRank(s: seq<Cell>, k: int, i: nat)
    requires IsPlace(s, k, i)
    ensures Rank(s, k) == i
  {
    if s != [] {
      var s1 := s[..|s| - 1];
      if i == |s| {
        assert s[|s| - 1].key < k;
        PlaceIsRank(s1, k, i - 1);
      } else {
        PlaceIsRank(s1, k, i);
      }
    }
  }

  /** The leaf without the cell that c replaces. */
  ghost function Cleared(s: seq<Cell>, i: nat, k: Key): (r: seq<Cell>)
    requires i <= |s|
  {
    if Hit(s, i, k) then RemoveAt(s, i) else s
  }

  /** The cells a leaf is asked to hold once c is written: c at its place, replacing an equal key. */
  ghost function Wanted(s: seq<Cell>, c: Cell): (r: seq<Cell>) {
    var i := Rank(s, c.key);
    var s1 := Cleared(s, i, c.key);
    if i <= |s1| then InsertAt(s1, i, c) else s1
  }

  lemma ClearedMap(s: seq<Cell>, i: nat, k: Key)
    requires Sorted(s) && IsPlace(s, k, i)
    ensures ToMap(Cleared(s, i, k)) == ToMap(s) - {k}
  {
    hide ToMap;
    if Hit(s, i, k) {
      var a, b := s[..i], s[i + 1..];
      assert s == a + [s[i]] + b;
      ToMapRemove(a, s[i], b);
    } else {
      PlaceDecides(s, k, i);
      assert ToMap(s) - {k} == ToMap(s);
    }
  }

  lemma RemoveThenUpdate<K, V>(m: map<K, V>, k: K, v: V)
    ensures (m - {k})[k := v] == m[k := v]
  {
  }

  lemma WantedMap(s: seq<Cell>, c: Cell, i: nat)
    requires Sorted(s) && IsPlace(s, c.key, i)
    ensures i <= |Cleared(s, i, c.key)| && Wanted(s, c) == InsertAt(Cleared(s, i, c.key), i, c)
    ensures ToMap(Wanted(s, c)) == ToMap(s)[c.key := c.val]
  {
    hide ToMap;
    PlaceIsRank(s, c.key, i);
    var s1 := Cleared(s, i, c.key);
    ClearedPlace(s, c.key, i);
    ToMapInsert(s1[..i], c, s1[i..]);
    assert s1[..i] + s1[i..] == s1;
    ClearedMap(s, i, c.key);
    RemoveThenUpdate(ToMap(s), c.key, c.val);
  }

  lemma ClearedPlace(s: seq<Cell>, k: Key, i: nat)
    requires Sorted(s) && IsPlace(s, k, i)
    ensures var s1 := Cleared(s, i, k);
            && i <= |s1|
            && (forall j :: 0 <= j < i ==> s1[j] == s[j])
            && (forall j :: i <= j < |s1| ==> s1[j] == s[if Hit(s, i, k) then j + 1 else j])
            && (forall j :: i <= j < |s1| ==> k < s1[j].key)
  {
  }

  ghost predicate ValuesBounded(s: seq<Cell>) {
    forall i :: 0 <= i < |s| ==> |s[i].val| <= MAX_VALUE_LEN
  }

  /** Every wanted cell is c or an old cell on the same side of c's key. */
  lemma WantedAt(s: seq<Cell>, c: Cell, i: nat)
    requires Sorted(s) && IsPlace(s, c.key, i)
    ensures var w := Wanted(s, c);
            && i < |w|
            && w[i] == c
            && (forall j :: 0 <= j < i ==> w[j] == s[j])
            && |w| == (if Hit(s, i, c.key) then |s| else |s| + 1)
            && (forall j :: i < j < |w| ==> w[j] == s[if Hit(s, i, c.key) then j else j - 1] && c.key < w[j].key)
  {
    hide Cleared, Rank;
    PlaceIsRank(s, c.key, i);
    ClearedPlace(s, c.key, i);
    ClearedLength(s, i, c.key);
  }

  lemma ClearedLength(s: seq<Cell>, i: nat, k: Key)
    requires i <= |s|
    ensures |Cleared(s, i, k)| == if Hit(s, i, k) then |s| - 1 else |s|
  {
  }

  lemma WantedSorted(s: seq<Cell>, c: Cell, i: nat)
    requires Sorted(s) && IsPlace(s, c.key, i)
    ensures Sorted(Wanted(s, c))
  {
    WantedAt(s, c, i);
    hide Wanted, Hit;
    var w := Wanted(s, c);
    forall x, y | 0 <= x < y < |w| ensures w[x].key < w[y].key {
      if y <= i || x >= i {
      } else {
        assert w[x] == s[x];
      }
    }
  }

  lemma WantedWithin(s: seq<Cell>, c: Cell, i: nat, lo: int, hi: int)
    requires Sorted(s) && IsPlace(s, c.key, i)
    requires Within(s, lo, hi) && lo < c.key <= hi
    requires ValuesBounded(s) && |c.val| <= MAX_VALUE_LEN
    ensures Within(Wanted(s, c), lo, hi) && ValuesBounded(Wanted(s, c))
  {
    WantedAt(s, c, i);
    hide Wanted, Hit, Sorted, IsPlace;
    var w := Wanted(s, c);
    forall j | 0 <= j < |w| ensures lo < w[j].key <= hi && |w[j].val| <= MAX_VALUE_LEN {
      if j < i {
        assert w[j] == s[j];
      } else if j > i {
        var o := if Hit(s, i, c.key) then j else j - 1;
        assert w[j] == s[o];
      }
    }
  }

  // ------------------------------- splitting -------------------------------

  /** Both halves of a split fit their pages. */
  ghost predicate HalvesFit(ps: nat, w: seq<Cell>) {
    LeafFits(ps, w[..|w| / 2]) && LeafFits(ps, w[|w| / 2..])
  }

  /** Writing c into leaf cells s loses nothing: no split, or both halves fit. */
  ghost predicate LeafSafe(ps: nat, s: seq<Cell>, c: Cell) {
    LeafFits(ps, Wanted(s, c)) || HalvesFit(ps, Wanted(s, c))
  }

  /** Some key of the first map is missing from the second. */
  ghost predicate Loses(want: Table, have: Table) {
    exists k :: k in want && k !in have
  }

  /** What a page holds after cells were added one by one, up to the first that did not fit. */
  ghost predicate Kept(ps: nat, cells: seq<Cell>, kept: seq<Cell>) {
    && Sorted(kept)
    && (forall i :: 0 <= i < |kept| ==> kept[i] in cells)
    && (LeafFits(ps, cells) ==> kept == cells)
    && (!LeafFits(ps, cells) ==> Loses(ToMap(cells), ToMap(kept)))
  }

  lemma CellBytesPrefix(ps: nat, s: seq<Cell>, i: nat)
    requires i <= |s|
    ensures CellBytes(ps, s[..i]) <= CellBytes(ps, s)
    ensures LeafBytes(ps, s[..i]) <= LeafBytes(ps, s)
  {
    CellBytesConcat(ps, s[..i], s[i..]);
    assert s == s[..i] + s[i..];
  }

  lemma CellBytesInsert(ps: nat, s: seq<Cell>, i: nat, c: Cell)
    requires i <= |s|
    ensures CellBytes(ps, InsertAt(s, i, c)) == CellBytes(ps, s) + CellSize(ps, c)
  {
    hide CellSize;
    CellBytesConcat(ps, s[..i] + [c], s[i..]);
    CellBytesSnoc(ps, s[..i], c);
    CellBytesConcat(ps, s[..i], s[i..]);
    assert s == s[..i] + s[i..];
  }

  lemma CellBytesSnoc(ps: nat, s: seq<Cell>, c: Cell)
    ensures CellBytes(ps, s + [c]) == CellBytes(ps, s) + CellSize(ps, c)
  {
    assert (s + [c])[..|s|] == s;
  }

  lemma CellBytesRemove(ps: nat, s: seq<Cell>, i: nat)
    requires i < |s|
    ensures CellBytes(ps, RemoveAt(s, i)) <= CellBytes(ps, s)
  {
    hide CellSize;
    var r := RemoveAt(s, i);
    CellBytesInsert(ps, r, i, s[i]);
    assert InsertAt(r, i, s[i]) == s;
  }
}
