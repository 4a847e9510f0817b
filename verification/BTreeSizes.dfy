/**
 When splitting a leaf by cell count is safe. The split ignores cell sizes, so a half can
 be larger than a page; these lemmas say for which cells that cannot happen.
 */
module BTreeSizes {
  import opened Basics
  import opened SortedCells
  import opened BTreePages
  import opened BTreeLeaf
  import opened BTreeSplit
  import opened BTreeOutcomes

  /** Bytes of the old cells that go to the half the new cell does not go to. */
  ghost function OtherHalf(s: seq<Cell>, i: nat, c: Cell): seq<Cell>
    requires i <= |s|
  {
    var w := InsertAt(s, i, c);
    if i < |w| / 2 then w[|w| / 2..] else w[..|w| / 2]
  }

  lemma LeafBytesConcat(ps: nat, a: seq<Cell>, b: seq<Cell>)
    ensures LeafBytes(ps, a + b) == LeafBytes(ps, a) + LeafBytes(ps, b) - LEAF_HDR
  {
    CellBytesConcat(ps, a, b);
  }

  lemma LeafBytesInsert(ps: nat, s: seq<Cell>, i: nat, c: Cell)
    requires i <= |s|
    ensures LeafBytes(ps, InsertAt(s, i, c)) == LeafBytes(ps, s) + CellSize(ps, c) + 2
  {
    hide CellSize, CellBytes;
    CellBytesInsert(ps, s, i, c);
  }

  /** The other half holds old cells only. */
  lemma OtherHalfIsOld(s: seq<Cell>, i: nat, c: Cell)
    requires i <= |s|
    ensures OtherHalf(s, i, c) == if i < (|s| + 1) / 2 then s[(|s| + 1) / 2 - 1..] else s[..(|s| + 1) / 2]
  {
    var o, h := OtherHalf(s, i, c), (|s| + 1) / 2;
    var e := if i < h then s[h - 1..] else s[..h];
    forall x | 0 <= x < |o| ensures o[x] == e[x] {
    }
  }

  /** A split loses nothing when the other half takes away at least the size of the new cell. */
  lemma OtherHalfSuffices(ps: nat, s: seq<Cell>, i: nat, c: Cell)
    requires i <= |s| && |s| >= 1 && LeafFits(ps, s)
    requires CellBytes(ps, OtherHalf(s, i, c)) >= CellSize(ps, c)
    ensures HalvesFit(ps, InsertAt(s, i, c))
  {
    hide CellSize, CellBytes, InsertAt;
    var w, o := InsertAt(s, i, c), OtherHalf(s, i, c);
    InsertedLength(s, i, c);
    var h := |w| / 2;
    LeafBytesInsert(ps, s, i, c);
    assert w[..h] + w[h..] == w;
    LeafBytesConcat(ps, w[..h], w[h..]);
    OtherHalfIsOld(s, i, c);
    OldHalfFits(ps, s, if i < h then h - 1 else h);
  }

  lemma InsertedLength(s: seq<Cell>, i: nat, c: Cell)
    requires i <= |s|
    ensures |InsertAt(s, i, c)| == |s| + 1
  {
  }

  lemma OldHalfFits(ps: nat, s: seq<Cell>, h: nat)
    requires h <= |s| && LeafFits(ps, s)
    ensures LeafFits(ps, s[..h]) && LeafFits(ps, s[h..])
  {
    hide CellSize;
    assert s == s[..h] + s[h..];
    CellBytesConcat(ps, s[..h], s[h..]);
  }

  /** No cell is more than twice another. */
  ghost predicate Similar(ps: nat, s: seq<Cell>, c: Cell) {
    forall x :: 0 <= x < |s| ==> CellSize(ps, c) <= 2 * CellSize(ps, s[x])
  }

  lemma TwoSimilarCells(ps: nat, s: seq<Cell>, c: Cell)
    requires |s| >= 2 && Similar(ps, s, c)
    ensures CellBytes(ps, s) >= CellSize(ps, c)
  {
    hide CellSize;
    var s1 := s[..|s| - 1];
    assert CellBytes(ps, s) == CellBytes(ps, s1) + CellSize(ps, s[|s| - 1]);
    assert CellBytes(ps, s1) == CellBytes(ps, s1[..|s1| - 1]) + CellSize(ps, s1[|s1| - 1]);
    assert s1[|s1| - 1] == s[|s| - 2];
  }

  /**
   Writing a cell at most twice as large as each old cell is safe in every leaf; a leaf
   splits only when it already holds at least three other cells.
   */
  lemma SimilarSizesSafe(ps: nat, s: seq<Cell>, c: Cell, i: nat)
    requires MIN_PAGE_SIZE <= ps && Sorted(s) && IsPlace(s, c.key, i) && ValuesBounded(s) && |c.val| <= MAX_VALUE_LEN
    requires LeafFits(ps, s) && Similar(ps, s, c)
    ensures LeafSafe(ps, s, c)
    ensures !LeafFits(ps, Wanted(s, c)) ==> |Cleared(s, i, c.key)| >= 3
  {
    hide CellSize, CellBytes, LeafFits, Wanted, Cleared, HalvesFit, InsertAt, OtherHalf;
    WantedMap(s, c, i);
    ClearedOld(ps, s, i, c);
    var s1 := Cleared(s, i, c.key);
    InsertedLength(s1, i, c);
    if !LeafFits(ps, Wanted(s, c)) {
      ValuesStayBounded(s, c, i);
      FullLeaf(ps, Wanted(s, c));
      OtherHalfIsOld(s1, i, c);
      TwoSimilarCells(ps, OtherHalf(s1, i, c), c);
      OtherHalfSuffices(ps, s1, i, c);
    }
  }

  lemma FullLeaf(ps: nat, w: seq<Cell>)
    requires MIN_PAGE_SIZE <= ps && ValuesBounded(w) && !LeafFits(ps, w)
    ensures |w| >= 4
  {
    hide *;
    FullLeafHasFour(ps, w);
  }

  lemma ClearedOld(ps: nat, s: seq<Cell>, i: nat, c: Cell)
    requires Sorted(s) && IsPlace(s, c.key, i) && LeafFits(ps, s) && Similar(ps, s, c)
    ensures LeafFits(ps, Cleared(s, i, c.key)) && Similar(ps, Cleared(s, i, c.key), c)
  {
    hide CellSize, CellBytes, RemoveAt;
    ClearedPlace(s, c.key, i);
    if Hit(s, i, c.key) {
      CellBytesRemove(ps, s, i);
      RemovedLength(s, i);
    }
  }

  lemma RemovedLength(s: seq<Cell>, i: nat)
    requires i < |s|
    ensures |RemoveAt(s, i)| == |s| - 1
  {
  }

  // ------------------------- a leaf that loses a cell -------------------------

  function Filled(n: nat): (v: seq<Byte>)
    ensures |v| == n
  {
    seq(n, _ => 0)
  }

  function Large(k: Key): Cell { Cell(k, Filled(115)) }
  function Small(k: Key): Cell { Cell(k, []) }

  lemma UnevenSizes(k: Key)
    ensures CellSize(512, Large(k)) == 125 && CellSize(512, Small(k)) == 10
  {
  }

  function LargeCells(): seq<Cell> { [Large(0), Large(1), Large(2)] }
  function SmallCells(): seq<Cell> { [Small(10), Small(11), Small(12), Small(13)] }

  /** Three cells of 125 bytes, then four of 10 bytes. */
  function UnevenLeaf(): seq<Cell> { LargeCells() + SmallCells() }

  lemma UnevenWanted()
    ensures Sorted(UnevenLeaf())
    ensures Wanted(UnevenLeaf(), Large(3)) == [Large(0), Large(1), Large(2), Large(3)] + SmallCells()
  {
    var s := UnevenLeaf();
    assert IsPlace(s, 3, 3) && !Hit(s, 3, 3);
    hide Wanted, InsertAt, Filled, CellSize, CellBytes;
    WantedMap(s, Large(3), 3);
    InsertedThird(LargeCells(), SmallCells(), Large(3));
  }

  lemma InsertedThird(a: seq<Cell>, b: seq<Cell>, c: Cell)
    requires |a| == 3
    ensures InsertAt(a + b, 3, c) == [a[0], a[1], a[2], c] + b
  {
  }

  lemma UnevenBytes()
    ensures CellBytes(512, UnevenLeaf()) == 415
    ensures CellBytes(512, [Large(0), Large(1), Large(2), Large(3)]) == 500
    ensures CellBytes(512, [Large(0), Large(1), Large(2), Large(3)] + SmallCells()) == 540
  {
    hide CellSize, CellBytes, Large, Small;
    UnevenSizes(0); UnevenSizes(1); UnevenSizes(2); UnevenSizes(3);
    UnevenSizes(10); UnevenSizes(11); UnevenSizes(12); UnevenSizes(13);
    FourCells(512, Large(0), Large(1), Large(2), Large(3));
    FourCells(512, Small(10), Small(11), Small(12), Small(13));
    ThreeCells(512, Large(0), Large(1), Large(2));
    CellBytesConcat(512, LargeCells(), SmallCells());
    CellBytesConcat(512, [Large(0), Large(1), Large(2), Large(3)], SmallCells());
  }

  /** On a 512-byte page a fourth 125-byte cell does not fit next to the first three. */
  lemma UnevenSplitLosesACell()
    ensures Sorted(UnevenLeaf()) && LeafFits(512, UnevenLeaf()) && !LeafSafe(512, UnevenLeaf(), Large(3))
  {
    hide CellSize, CellBytes, Large, Small, Wanted, Sorted;
    UnevenWanted();
    UnevenBytes();
    var l := [Large(0), Large(1), Large(2), Large(3)];
    assert (l + SmallCells())[..4] == l;
  }

  lemma ThreeCells(ps: nat, a: Cell, b: Cell, c: Cell)
    ensures CellBytes(ps, [a, b, c]) == CellSize(ps, a) + CellSize(ps, b) + CellSize(ps, c)
  {
    hide CellSize;
    CellBytesSnoc(ps, [], a);
    CellBytesSnoc(ps, [a], b);
    CellBytesSnoc(ps, [a, b], c);
    assert [] + [a] == [a] && [a] + [b] == [a, b] && [a, b] + [c] == [a, b, c];
  }

  lemma FourCells(ps: nat, a: Cell, b: Cell, c: Cell, d: Cell)
    ensures CellBytes(ps, [a, b, c, d]) == CellSize(ps, a) + CellSize(ps, b) + CellSize(ps, c) + CellSize(ps, d)
  {
    hide CellSize;
    ThreeCells(ps, a, b, c);
    CellBytesSnoc(ps, [a, b, c], d);
    assert [a, b, c] + [d] == [a, b, c, d];
  }
}
