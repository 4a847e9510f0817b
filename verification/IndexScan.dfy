/**
 A table with one ascending index. Index entries are only ever added, so an old snapshot still
 finds its rows by their old keys; a scan re-checks the version it may see.
 */
module IndexScan {
  import opened Basics
  import opened Mvcc
  import opened TxnManagers
  import opened Versions
  import opened Values
  import opened KeyOrder
  import opened Engines

  const MAX_INDEXED := 32

  /** The indexed columns of a record, NULL where it has none, and the rowid. */
  function KeyOf(cols: seq<nat>, rec: Record, r: Rowid): (k: Key)
    ensures |k| == |cols| + 1 && k[|cols|] == Int(r)
  {
    seq(|cols|, i requires 0 <= i < |cols| => Column(rec, cols[i])) + [Int(r)]
  }

  function Column(rec: Record, c: nat): Value { if c < |rec| then rec[c] else Null }

  predicate Indexable(cols: seq<nat>, rec: Record) {
    |rec| <= MAX_INDEXED && forall i :: 0 <= i < |cols| ==> Keyable(Column(rec, cols[i]))
  }

  datatype Bound = Open | At(v: Value, incl: bool)

  datatype Range = Range(lo: Bound, hi: Bound)

  predicate KeyableRange(g: Range) { (g.lo.At? ==> Keyable(g.lo.v)) && (g.hi.At? ==> Keyable(g.hi.v)) }

  predicate AboveLo(g: Range, v: Value)
    requires KeyableRange(g) && Keyable(v)
  {
    g.lo.At? ==> ValueCompare(v, g.lo.v) > 0 || (ValueCompare(v, g.lo.v) == 0 && g.lo.incl)
  }

  predicate BelowHi(g: Range, v: Value)
    requires KeyableRange(g) && Keyable(v)
  {
    g.hi.At? ==> ValueCompare(v, g.hi.v) < 0 || (ValueCompare(v, g.hi.v) == 0 && g.hi.incl)
  }

  /** v is within the bounds, in the order of values. */
  ghost predicate Inside(g: Range, v: Value) {
    && (g.lo.At? ==> Below(g.lo.v, v) || (g.lo.v == v && g.lo.incl))
    && (g.hi.At? ==> Below(v, g.hi.v) || (g.hi.v == v && g.hi.incl))
  }

  /** The two tests of the scan decide it. */
  lemma InsideIff(g: Range, v: Value)
    requires KeyableRange(g) && Keyable(v)
    ensures Inside(g, v) <==> AboveLo(g, v) && BelowHi(g, v)
  {
    hide ValueCompare, Below;
    if g.lo.At? { ValueMeans(v, g.lo.v); }
    if g.hi.At? { ValueMeans(v, g.hi.v); }
  }

  // --------------------------------- what the index covers ---------------------------------

  /** Every version of row r has its key in the index. */
  ghost predicate CoversRow(cols: seq<nat>, keys: seq<Key>, hist: map<Vid, Version<Record>>, v: Version<Record>,
                            r: Rowid)
    decreases v.prev
  {
    && Indexable(cols, v.rec) && KeyOf(cols, v.rec, r) in keys
    && (v.prev in hist && hist[v.prev].prev < v.prev ==> CoversRow(cols, keys, hist, hist[v.prev], r))
  }

  ghost predicate CoversAll(cols: seq<nat>, keys: seq<Key>, t: Rows<Record>) {
    forall r :: r in t.main ==> CoversRow(cols, keys, t.hist, t.main[r], r)
  }

  /** Every entry names its row in the last column. */
  ghost predicate Entries(cols: seq<nat>, keys: seq<Key>) {
    forall i :: 0 <= i < |keys| ==> |keys[i]| == |cols| + 1 && keys[i][|cols|].Int? && keys[i][|cols|].i >= 0
  }

  /** The visible version's key is in the index. */
  lemma {:induction false} VisibleCovered(cols: seq<nat>, keys: seq<Key>, hist: map<Vid, Version<Record>>,
                                          v: Version<Record>, r: Rowid, seen: iset<Txnid>)
    requires CoversRow(cols, keys, hist, v, r) && Resolve(hist, v, seen).Some?
    ensures Indexable(cols, Resolve(hist, v, seen).value) && KeyOf(cols, Resolve(hist, v, seen).value, r) in keys
    decreases v.prev
  {
    if !Shows(seen, v.xmin, v.xmax) { VisibleCovered(cols, keys, hist, hist[v.prev], r, seen); }
  }

  /** Adding keys and history entries does not uncover a chain. */
  lemma {:induction false} StillCovered(cols: seq<nat>, keys: seq<Key>, keys': seq<Key>, t: Rows<Record>,
                                        hist': map<Vid, Version<Record>>, v: Version<Record>, r: Rowid)
    requires WellChained(t) && LinkOk(t.hist, v) && CoversRow(cols, keys, t.hist, v, r)
    requires forall k :: k in keys ==> k in keys'
    requires 0 !in hist' && forall x :: x in t.hist ==> x in hist' && hist'[x] == t.hist[x]
    ensures CoversRow(cols, keys', hist', v, r)
    decreases v.prev
  {
    if v.prev in t.hist { StillCovered(cols, keys, keys', t, hist', t.hist[v.prev], r); }
  }

  ghost predicate Grows(keys: seq<Key>, keys': seq<Key>, k: Key) {
    forall x :: x in keys' <==> x in keys || x == k
  }

  lemma InsertCovers(cols: seq<nat>, keys: seq<Key>, keys': seq<Key>, t: Rows<Record>, w: Txnid, r: Rowid, rec: Record)
    requires WellChained(t) && CoversAll(cols, keys, t) && Indexable(cols, rec)
             && Grows(keys, keys', KeyOf(cols, rec, r))
    ensures CoversAll(cols, keys', InsertRow(t, w, r, rec))
  {
    var t' := InsertRow(t, w, r, rec);
    forall q | q in t'.main ensures CoversRow(cols, keys', t'.hist, t'.main[q], q) {
      if q != r { StillCovered(cols, keys, keys', t, t'.hist, t.main[q], q); }
    }
  }

  lemma RemoveCovers(cols: seq<nat>, keys: seq<Key>, t: Rows<Record>, w: Txnid, r: Rowid)
    requires CoversAll(cols, keys, t) && r in t.main
    ensures CoversAll(cols, keys, RemoveRow(t, w, r))
  {
    var t' := RemoveRow(t, w, r);
    forall q | q in t'.main ensures CoversRow(cols, keys, t'.hist, t'.main[q], q) {
      assert CoversRow(cols, keys, t.hist, t.main[q], q);
    }
  }

  lemma UpdateCovers(cols: seq<nat>, keys: seq<Key>, keys': seq<Key>, t: Rows<Record>, w: Txnid, r: Rowid,
                     rec: Record, vid: Vid)
    requires WellChained(t) && CoversAll(cols, keys, t) && r in t.main && NextVid(t.hist, vid)
    requires Indexable(cols, rec) && Grows(keys, keys', KeyOf(cols, rec, r))
    ensures CoversAll(cols, keys', UpdateRow(t, w, r, rec, vid))
  {
    var t' := UpdateRow(t, w, r, rec, vid);
    forall q | q in t'.main ensures CoversRow(cols, keys', t'.hist, t'.main[q], q) {
      StillCovered(cols, keys, keys', t, t'.hist, t.main[q], q);
      if q == r {
        var o := t.main[r].(xmax := w);
        assert CoversRow(cols, keys', t'.hist, t.main[r], r);
        assert CoversRow(cols, keys', t'.hist, o, r);
        assert t'.hist[vid] == o;
      }
    }
  }

  // ------------------------------------- scanning -------------------------------------

  ghost predicate Wanted(g: Range, k: Key)
    requires KeyableRange(g) && KeyableKey(k) && k != []
  {
    AboveLo(g, k[0]) && BelowHi(g, k[0])
  }

  function RowOf(cols: seq<nat>, k: Key): Rowid
    requires |k| == |cols| + 1 && k[|cols|].Int? && k[|cols|].i >= 0
  {
    k[|cols|].i
  }

  /** Entry j leads to x: its row is visible, and x is the row with its visible record. */
  ghost predicate LeadsTo(cols: seq<nat>, keys: seq<Key>, t: Rows<Record>, seen: iset<Txnid>, j: nat,
                          x: (Rowid, Record))
    requires Entries(cols, keys) && j < |keys|
  {
    x.0 == RowOf(cols, keys[j]) && Lookup(t, x.0, seen) == Some(x.1)
  }

  /** Yielded so far: one row for each entry before n that is wanted and leads to a visible row, in their order. */
  ghost predicate Progress(cols: seq<nat>, keys: seq<Key>, t: Rows<Record>, seen: iset<Txnid>, g: Range,
                           rows: seq<(Rowid, Record)>, at: seq<nat>, n: nat)
    requires Sorted(keys) && Entries(cols, keys) && KeyableRange(g) && n <= |keys|
  {
    && |at| == |rows| && (forall i, j :: 0 <= i < j < |at| ==> at[i] < at[j])
    && (forall i :: 0 <= i < |at| ==> at[i] < n && Wanted(g, keys[at[i]]) && LeadsTo(cols, keys, t, seen, at[i], rows[i]))
    && (forall j: nat :: j < n && Wanted(g, keys[j]) && Lookup(t, RowOf(cols, keys[j]), seen).Some? ==> j in at)
  }

  /** One row for each entry inside the range that leads to a visible row, in key order. */
  ghost predicate FollowsIndex(cols: seq<nat>, keys: seq<Key>, t: Rows<Record>, seen: iset<Txnid>, g: Range,
                               rows: seq<(Rowid, Record)>, at: seq<nat>)
    requires Entries(cols, keys) && |cols| >= 1
  {
    && |at| == |rows| && (forall i, j :: 0 <= i < j < |at| ==> at[i] < at[j])
    && (forall i :: 0 <= i < |at| ==> at[i] < |keys| && Inside(g, keys[at[i]][0]) && LeadsTo(cols, keys, t, seen, at[i], rows[i]))
    && (forall j: nat :: j < |keys| && Inside(g, keys[j][0]) && Lookup(t, RowOf(cols, keys[j]), seen).Some? ==> j in at)
  }

  /** Visible rows only, and every visible row whose leading value is in range. */
  ghost predicate IsIndexScan(cols: seq<nat>, t: Rows<Record>, seen: iset<Txnid>, g: Range, rows: seq<(Rowid, Record)>)
    requires |cols| >= 1
  {
    && (forall i :: 0 <= i < |rows| ==> Lookup(t, rows[i].0, seen) == Some(rows[i].1))
    && (forall r: Rowid :: InRange(cols, t, seen, g, r) ==> (r, Lookup(t, r, seen).value) in rows)
  }

  /** Row r is visible with an indexable record whose value in the first indexed column is inside the range. */
  ghost predicate InRange(cols: seq<nat>, t: Rows<Record>, seen: iset<Txnid>, g: Range, r: Rowid)
    requires |cols| >= 1
  {
    var found := Lookup(t, r, seen);
    found.Some? && Indexable(cols, found.value) && Inside(g, if cols[0] < |found.value| then found.value[cols[0]] else Null)
  }

  /** Entries before the place of the lower bound are below the range. */
  lemma BeforeStart(cols: seq<nat>, keys: seq<Key>, t: Rows<Record>, seen: iset<Txnid>, g: Range, n: nat)
    requires Sorted(keys) && Entries(cols, keys) && KeyableRange(g) && n <= |keys|
    requires g.lo.At? ==> Place(keys, [g.lo.v], n)
    requires g.lo.Open? ==> n == 0
    ensures Progress(cols, keys, t, seen, g, [], [], n)
  {
    hide Lookup, KeyCompare, ValueCompare;
    forall j | 0 <= j < n ensures !Wanted(g, keys[j]) { BelowProbe(keys[j], g.lo.v); }
  }

  /** Once an entry is past the upper bound, so are all that follow. */
  lemma PastEnd(cols: seq<nat>, keys: seq<Key>, t: Rows<Record>, seen: iset<Txnid>, g: Range,
                rows: seq<(Rowid, Record)>, at: seq<nat>, n: nat)
    requires Sorted(keys) && Entries(cols, keys) && KeyableRange(g) && n < |keys|
             && Progress(cols, keys, t, seen, g, rows, at, n)
    requires !BelowHi(g, keys[n][0])
    ensures Progress(cols, keys, t, seen, g, rows, at, |keys|)
  {
    hide Lookup, KeyCompare, ValueCompare, LeadsTo;
    forall j | n <= j < |keys| ensures !Wanted(g, keys[j]) { StillPast(keys, g, n, j); }
  }

  lemma StillPast(keys: seq<Key>, g: Range, n: nat, j: nat)
    requires Sorted(keys) && KeyableRange(g) && n <= j < |keys| && keys[n] != [] && keys[j] != []
             && !BelowHi(g, keys[n][0])
    ensures !BelowHi(g, keys[j][0])
  {
    hide KeyCompare, ValueCompare;
    if n < j {
      LeadOrder(keys[n], keys[j]);
      var a, b, h := keys[n][0], keys[j][0], g.hi.v;
      ValueOrder(a, b);
      ValueOrder(a, h);
      ValueOrder(b, h);
      if ValueCompare(b, h) < 0 && a != b { ValueTrans(a, b, h); }
    }
  }

  /** One more entry. */
  lemma OneMore(cols: seq<nat>, keys: seq<Key>, t: Rows<Record>, seen: iset<Txnid>, g: Range,
                rows: seq<(Rowid, Record)>, at: seq<nat>, n: nat, rows': seq<(Rowid, Record)>, at': seq<nat>)
    requires Sorted(keys) && Entries(cols, keys) && KeyableRange(g) && n < |keys|
             && Progress(cols, keys, t, seen, g, rows, at, n)
    requires var r := RowOf(cols, keys[n]); var found := Lookup(t, r, seen);
             if Wanted(g, keys[n]) && found.Some? then rows' == rows + [(r, found.value)] && at' == at + [n]
             else rows' == rows && at' == at
    ensures Progress(cols, keys, t, seen, g, rows', at', n + 1)
  {
    hide Lookup, KeyCompare, ValueCompare, Wanted, Sorted;
    assert forall j :: j in at ==> j in at';
    if at' != at { assert at'[|at|] == n; }
  }

  /** With the index covering every version, the entries lead to every visible row in range. */
  lemma Complete(cols: seq<nat>, keys: seq<Key>, t: Rows<Record>, seen: iset<Txnid>, g: Range,
                 rows: seq<(Rowid, Record)>, at: seq<nat>)
    requires |cols| >= 1 && Sorted(keys) && Entries(cols, keys) && KeyableRange(g)
             && Progress(cols, keys, t, seen, g, rows, at, |keys|)
    requires CoversAll(cols, keys, t)
    ensures FollowsIndex(cols, keys, t, seen, g, rows, at) && IsIndexScan(cols, t, seen, g, rows)
  {
    hide KeyCompare, AboveLo, BelowHi, Inside, Resolve, CoversRow, Keyable;
    forall j: nat | j < |keys| ensures Wanted(g, keys[j]) <==> Inside(g, keys[j][0]) { InsideIff(g, keys[j][0]); }
    forall r: Rowid | InRange(cols, t, seen, g, r) ensures (r, Lookup(t, r, seen).value) in rows {
      VisibleCovered(cols, keys, t.hist, t.main[r], r, seen);
      var rec := Lookup(t, r, seen).value;
      var k := KeyOf(cols, rec, r);
      var j :| 0 <= j < |keys| && keys[j] == k;
      assert k[0] == Column(rec, cols[0]);
      assert Wanted(g, keys[j]) && RowOf(cols, keys[j]) == r && j in at;
      var i :| 0 <= i < |at| && at[i] == j;
      assert rows[i] == (r, rec);
    }
  }

  /** Between integer bounds the scan yields every visible row whose leading integer lies between them. */
  lemma BetweenIntegers(cols: seq<nat>, t: Rows<Record>, seen: iset<Txnid>, lo: int, hi: int,
                        rows: seq<(Rowid, Record)>,
                        r: Rowid, rec: Record, v: int)
    requires |cols| >= 1 && IsIndexScan(cols, t, seen, Range(At(Int(lo), true), At(Int(hi), true)), rows)
    requires Lookup(t, r, seen) == Some(rec) && Indexable(cols, rec) && cols[0] < |rec| && rec[cols[0]] == Int(v)
    requires lo <= v <= hi
    ensures (r, rec) in rows
  {
    hide Lookup;
    assert InRange(cols, t, seen, Range(At(Int(lo), true), At(Int(hi), true)), r);
  }

  // ----------------------------- agreement with a full scan -----------------------------

  /** The rowids of the rows that satisfy a predicate. */
  ghost function Chosen(rows: seq<(Rowid, Record)>, p: Record -> bool): set<Rowid> {
    set i | 0 <= i < |rows| && p(rows[i].1) :: rows[i].0
  }

  /**
   After the predicate is applied again, an index range scan finds the same rowids as a full
   scan, for every predicate that holds only of records in the range.
   */
  lemma IndexAgrees(cols: seq<nat>, t: Rows<Record>, seen: iset<Txnid>, g: Range, rows: seq<(Rowid, Record)>,
                    full: seq<(Rowid, Record)>, p: Record -> bool)
    requires |cols| >= 1 && IsIndexScan(cols, t, seen, g, rows) && IsScan(t, seen, full)
    requires forall r: Rowid :: Lookup(t, r, seen).Some? && p(Lookup(t, r, seen).value) ==> InRange(cols, t, seen, g, r)
    ensures Chosen(rows, p) == Chosen(full, p)
  {
    hide Lookup, InRange;
    forall r | r in Chosen(rows, p) ensures r in Chosen(full, p) {
      var i :| 0 <= i < |rows| && p(rows[i].1) && rows[i].0 == r;
      var j :| 0 <= j < |full| && full[j].0 == r;
      assert full[j].1 == rows[i].1;
    }
    forall r | r in Chosen(full, p) ensures r in Chosen(rows, p) {
      var j :| 0 <= j < |full| && p(full[j].1) && full[j].0 == r;
      var x := (r, full[j].1);
      assert x in rows;
      var i :| 0 <= i < |rows| && rows[i] == x;
    }
  }

  lemma InsertChained(t: Rows<Record>, w: Txnid, r: Rowid, rec: Record)
    requires WellChained(t)
    ensures WellChained(InsertRow(t, w, r, rec))
  {
    var t' := InsertRow(t, w, r, rec);
    forall q | q in t'.main ensures LinkOk(t'.hist, t'.main[q]) { if q != r { assert LinkOk(t.hist, t.main[q]); } }
  }

  lemma PlaceIn(keys: seq<Key>, v: Value, i: nat)
    requires Sorted(keys) && KeyableKey([v]) && Place(keys, [v], i)
    ensures i <= |keys|
  {
  }

  lemma KeyIn(keys: seq<Key>, i: nat)
    requires Sorted(keys) && i < |keys|
    ensures KeyableKey(keys[i])
  {
  }

  lemma LookupBy(t: Rows<Record>, r: Rowid, seen: iset<Txnid>)
    ensures Lookup(t, r, seen) == if r in t.main then Resolve(t.hist, t.main[r], seen) else None
  {
  }

  // ------------------------------------- the table -------------------------------------

  class IndexedTable {
    const rows: RowEngine
    const cols: seq<nat>
    var keys: seq<Key>

    ghost predicate Valid()
      reads this, rows
    {
      && 1 <= |cols| < MAX_KEY_VALUES && Sorted(keys) && Entries(cols, keys)
      && WellChained(rows.View()) && CoversAll(cols, keys, rows.View())
    }

    constructor (cols: seq<nat>)
      requires 1 <= |cols| < MAX_KEY_VALUES
      ensures Valid() && fresh(rows) && keys == [] && rows.View() == Rows(map[], map[]) && this.cols == cols
    {
      rows := new RowEngine();
      this.cols := cols;
      keys := [];
    }

    /** Adds one entry for a version. */
    method Apply(r: Rowid, rec: Record)
      requires |cols| < MAX_KEY_VALUES && Sorted(keys) && Entries(cols, keys) && Indexable(cols, rec)
      modifies `keys
      ensures Sorted(keys) && Entries(cols, keys) && Grows(old(keys), keys, KeyOf(cols, rec, r))
    {
      var k := KeyOf(cols, rec, r);
      keys := Put(keys, k);
      forall i | 0 <= i < |keys| ensures |keys[i]| == |cols| + 1 && keys[i][|cols|].Int? && keys[i][|cols|].i >= 0 {
        assert keys[i] in keys;
      }
    }

    method Insert(w: Txnid, r: Rowid, rec: Record)
      requires Valid() && Indexable(cols, rec)
      modifies this, rows
      ensures rows.View() == InsertRow(old(rows.View()), w, r, rec) && Grows(old(keys), keys, KeyOf(cols, rec, r))
      ensures Valid()
    {
      hide Sorted, Entries, CoversAll, WellChained, KeyOf;
      ghost var t := rows.View();
      rows.Insert(w, r, rec);
      Apply(r, rec);
      InsertCovers(cols, old(keys), keys, t, w, r, rec);
      InsertChained(t, w, r, rec);
    }

    /** The old version's entry stays: an older snapshot may still need it. */
    method Update(w: Txnid, r: Rowid, rec: Record) returns (found: bool)
      requires Valid() && Indexable(cols, rec)
      modifies this, rows
      ensures found <==> r in old(rows.main)
      ensures !found ==> rows.View() == old(rows.View()) && keys == old(keys)
      ensures found ==> exists vid :: NextVid(old(rows.hist), vid) && rows.View() == UpdateRow(old(rows.View()), w, r, rec, vid)
      ensures Valid()
    {
      hide Sorted, Entries, CoversAll, KeyOf;
      ghost var t := rows.View();
      found := rows.Update(w, r, rec);
      if found {
        ghost var vid :| NextVid(t.hist, vid) && rows.View() == UpdateRow(t, w, r, rec, vid);
        Apply(r, rec);
        UpdateCovers(cols, old(keys), keys, t, w, r, rec, vid);
        ChainsKept(t, w, r, rec, vid);
      }
    }

    method Remove(w: Txnid, r: Rowid) returns (found: bool)
      requires Valid()
      modifies this, rows
      ensures found <==> r in old(rows.main)
      ensures rows.View() == if found then RemoveRow(old(rows.View()), w, r) else old(rows.View())
      ensures keys == old(keys) && Valid()
    {
      hide Sorted, Entries, CoversAll;
      ghost var t := rows.View();
      found := rows.Remove(w, r);
      if found {
        RemoveCovers(cols, keys, t, w, r);
        ChainsKept(t, w, r, [], 0);
      }
    }

    /** Walks the entries in key order from the lower bound to the upper and fetches each row's visible version. */
    method RangeScan(m: TxnManager, s: Snapshot, asof: Txnid, g: Range)
      returns (found: seq<(Rowid, Record)>, ghost at: seq<nat>)
      requires Valid() && m.Valid() && KeyableRange(g)
      ensures FollowsIndex(cols, keys, rows.View(), Observed(m.View(), s, asof), g, found, at)
      ensures IsIndexScan(cols, rows.View(), Observed(m.View(), s, asof), g, found)
    {
      hide Sorted, CoversAll, Observed, Lookup, Progress, IsIndexScan, FollowsIndex, ValueCompare, Place;
      ghost var seen, t := Observed(m.View(), s, asof), rows.View();
      found, at := [], [];
      var i := 0;
      if g.lo.At? {
        i := Find(keys, [g.lo.v]);
        PlaceIn(keys, g.lo.v, i);
      }
      BeforeStart(cols, keys, t, seen, g, i);
      while i < |keys|
        invariant i <= |keys| && Progress(cols, keys, t, seen, g, found, at, i)
      {
        var k := keys[i];
        KeyIn(keys, i);
        if !BelowHi(g, k[0]) {
          PastEnd(cols, keys, t, seen, g, found, at, i);
          break;
        }
        var skip, r := !AboveLo(g, k[0]), RowOf(cols, k);
        ghost var before, at0 := found, at;
        if !skip && r in rows.main {
          var rec := ResolveVisible(m, s, asof, rows.hist, rows.main[r]);
          if rec.Some? { found, at := found + [(r, rec.value)], at + [i]; }
        }
        LookupBy(t, r, seen);
        OneMore(cols, keys, t, seen, g, before, at0, i, found, at);
        i := i + 1;
      }
      Complete(cols, keys, t, seen, g, found, at);
    }
  }
}
