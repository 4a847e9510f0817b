/**
 Cells of a table b-tree page, ordered by key, and the map they stand for.

 A table key is an 8-byte big-endian rowid, so comparing the key bytes is comparing
 unsigned 64-bit numbers; `Codec.BigEndianOrder` states that fact about the bytes.
 */
module SortedCells {
  import opened Basics

  type Key = k: nat | k < 0x1_0000_0000_0000_0000
  type Table = map<Key, seq<Byte>>

  datatype Cell = Cell(key: Key, val: seq<Byte>)

  const MAX_KEY: int := 0xFFFF_FFFF_FFFF_FFFF

  ghost predicate Sorted(s: seq<Cell>) {
    forall i, j :: 0 <= i < j < |s| ==> s[i].key < s[j].key
  }

  ghost predicate Within(s: seq<Cell>, lo: int, hi: int) {
    forall i :: 0 <= i < |s| ==> lo < s[i].key <= hi
  }

  /** i is the place of k: the first index whose key is not below k. */
  ghost predicate IsPlace(s: seq<Cell>, k: int, i: int) {
    && 0 <= i <= |s|
    && (forall j :: 0 <= j < i ==> s[j].key < k)
    && (forall j :: i <= j < |s| ==> k <= s[j].key)
  }

  ghost predicate Hit(s: seq<Cell>, i: int, k: int) {
    0 <= i < |s| && s[i].key == k
  }

  /** The map that sorted cells stand for. */
  ghost function ToMap(s: seq<Cell>): (m: Table) {
    if s == [] then map[] else ToMap(s[..|s| - 1])[s[|s| - 1].key := s[|s| - 1].val]
  }

  ghost predicate KeysWithin(m: Table, lo: int, hi: int) {
    forall k :: k in m ==> lo < k <= hi
  }

  lemma {:induction false} ToMapConcat(a: seq<Cell>, b: seq<Cell>)
    ensures ToMap(a + b) == ToMap(a) + ToMap(b)
  {
    if b == [] {
      assert a + b == a;
    } else {
      var b1 := b[..|b| - 1];
      ToMapConcat(a, b1);
      assert (a + b)[..|a + b| - 1] == a + b1;
    }
  }

  lemma {:induction false} ToMapKeys(s: seq<Cell>, k: Key)
    ensures k in ToMap(s) <==> exists i :: Hit(s, i, k)
  {
    if s != [] {
      var s1 := s[..|s| - 1];
      ToMapKeys(s1, k);
      if Hit(s, |s| - 1, k) {
      } else if i :| Hit(s, i, k) {
        assert Hit(s1, i, k);
      } else if k in ToMap(s) {
        var i :| Hit(s1, i, k);
        assert Hit(s, i, k);
      }
    }
  }

  lemma ToMapWithin(s: seq<Cell>, lo: int, hi: int)
    requires Within(s, lo, hi)
    ensures KeysWithin(ToMap(s), lo, hi)
  {
    forall k | k in ToMap(s) ensures lo < k <= hi {
      ToMapKeys(s, k);
    }
  }

  /** The map reads back each cell's value under its key. */
  lemma {:induction false} ToMapAt(s: seq<Cell>, i: nat)
    requires Sorted(s) && i < |s|
    ensures s[i].key in ToMap(s) && ToMap(s)[s[i].key] == s[i].val
  {
    if i < |s| - 1 {
      ToMapAt(s[..|s| - 1], i);
    }
  }

  lemma ToMapSnoc(a: seq<Cell>, c: Cell)
    ensures ToMap(a + [c]) == ToMap(a)[c.key := c.val]
  {
    assert (a + [c])[..|a|] == a;
  }

  lemma UpdateLeft<K, V>(a: map<K, V>, b: map<K, V>, k: K, v: V)
    requires k !in b
    ensures a[k := v] + b == (a + b)[k := v]
  {
  }

  lemma UpdateThenRemove<K, V>(m: map<K, V>, k: K, v: V)
    requires k !in m
    ensures m[k := v] - {k} == m
  {
  }

  lemma ToMapAbsent(a: seq<Cell>, b: seq<Cell>, k: Key)
    requires forall i :: 0 <= i < |a| ==> a[i].key != k
    requires forall i :: 0 <= i < |b| ==> b[i].key != k
    ensures k !in ToMap(a + b)
  {
    ToMapConcat(a, b);
    ToMapKeys(a, k);
    ToMapKeys(b, k);
  }

  /** A cell put before cells with other keys updates the map at its key. */
  lemma ToMapInsert(a: seq<Cell>, c: Cell, b: seq<Cell>)
    requires forall i :: 0 <= i < |b| ==> b[i].key != c.key
    ensures ToMap(a + [c] + b) == ToMap(a + b)[c.key := c.val]
  {
    var ma, mb := ToMap(a), ToMap(b);
    assert c.key !in mb by { ToMapKeys(b, c.key); }
    assert ToMap(a + [c] + b) == ma[c.key := c.val] + mb by {
      ToMapConcat(a + [c], b);
      ToMapSnoc(a, c);
    }
    assert ToMap(a + b) == ma + mb by { ToMapConcat(a, b); }
    UpdateLeft(ma, mb, c.key, c.val);
  }

  /** Taking out a cell takes its key out of the map. */
  lemma ToMapRemove(a: seq<Cell>, c: Cell, b: seq<Cell>)
    requires forall i :: 0 <= i < |a| ==> a[i].key != c.key
    requires forall i :: 0 <= i < |b| ==> b[i].key != c.key
    ensures ToMap(a + b) == ToMap(a + [c] + b) - {c.key}
  {
    hide ToMap;
    ToMapAbsent(a, b, c.key);
    ToMapInsert(a, c, b);
    UpdateThenRemove(ToMap(a + b), c.key, c.val);
  }

  /** A key is in the map exactly when its place holds it. */
  lemma PlaceDecides(s: seq<Cell>, k: Key, i: nat)
    requires Sorted(s) && IsPlace(s, k, i)
    ensures k in ToMap(s) <==> Hit(s, i, k)
  {
    ToMapKeys(s, k);
    assert forall j :: Hit(s, j, k) ==> i <= j && !(s[i].key < s[j].key);
  }
}
