/**
 The columnar engine shows what the row engine shows. Two databases take the same operations,
 one over `Rows`, one over header map, history and columns. At every point the columns, put
 together, are the row engine's records padded with NULL, so every scan agrees.
 */
module EngineEquivalence {
  import opened Basics
  import opened Mvcc
  import opened Versions
  import opened Values
  import opened Engines
  import opened ColumnStore
  import opened TxnManagers
  import opened SnapshotIsolation

  ghost function PadVersion(v: Version<Record>, n: nat): Version<Record> {
    v.(rec := Pad(v.rec, n))
  }

  ghost function PadRows(t: Rows<Record>, n: nat): Rows<Record> {
    Rows(map r | r in t.main :: PadVersion(t.main[r], n), map v | v in t.hist :: PadVersion(t.hist[v], n))
  }

  ghost function PadFound(o: Option<Record>, n: nat): Option<Record> {
    if o.Some? then Some(Pad(o.value, n)) else None
  }

  lemma {:induction false} ResolvePadded(t: Rows<Record>, v: Version<Record>, seen: iset<Txnid>, n: nat)
    ensures Resolve(PadRows(t, n).hist, PadVersion(v, n), seen) == PadFound(Resolve(t.hist, v, seen), n)
    decreases v.prev
  {
    if v.prev in t.hist && t.hist[v.prev].prev < v.prev {
      ResolvePadded(t, t.hist[v.prev], seen, n);
    }
  }

  /** Every read of the padded rows is the padded read. */
  lemma LookupPadded(t: Rows<Record>, r: Rowid, seen: iset<Txnid>, n: nat)
    ensures Lookup(PadRows(t, n), r, seen) == PadFound(Lookup(t, r, seen), n)
  {
    if r in t.main {
      ResolvePadded(t, t.main[r], seen, n);
    }
  }

  lemma PadCommutes(t: Rows<Record>, w: Txnid, r: Rowid, rec: Record, vid: Vid, n: nat)
    ensures PadRows(InsertRow(t, w, r, rec), n) == InsertRow(PadRows(t, n), w, r, Pad(rec, n))
    ensures r in t.main ==> PadRows(RemoveRow(t, w, r), n) == RemoveRow(PadRows(t, n), w, r)
    ensures r in t.main ==> PadRows(UpdateRow(t, w, r, rec, vid), n) == UpdateRow(PadRows(t, n), w, r, Pad(rec, n), vid)
  {
    hide Pad;
  }

  lemma PadKeepsVids(t: Rows<Record>, vid: Vid, n: nat)
    ensures NextVid(t.hist, vid) <==> NextVid(PadRows(t, n).hist, vid)
  {
    var h := PadRows(t, n).hist;
    assert forall v :: v in h <==> v in t.hist;
    hide PadRows;
  }

  // ----------------------------- the columnar database -----------------------------

  /** What the columnar engine keeps: the columns as the cache shows them and as the last commit left them. */
  datatype ColDb = ColDb(reg: Registry, cur: Columnar, saved: Columnar, writer: Option<Txnid>,
                         writable: set<Txnid>, snaps: map<Txnid, Snapshot>)

  ghost predicate ColMayWrite(c: ColDb, t: Txnid) {
    t in c.snaps && t in c.writable && (c.writer == None || c.writer == Some(t))
  }

  ghost predicate ColSeesLive(c: ColDb, t: Txnid, r: Rowid) {
    t in c.snaps && r in c.cur.meta && c.cur.meta[r].xmax == 0 && XidVisible(c.reg, c.snaps[t], c.cur.meta[r].xmin)
  }

  ghost predicate ColEndsAlone(c: ColDb, t: Txnid) {
    t in c.snaps && (t in c.writable ==> c.writer == None || c.writer == Some(t))
  }

  ghost predicate ColAllowed(c: ColDb, op: Op<Record>) {
    match op
    case OpBegin(_) => true
    case OpRefresh(t) => t in c.snaps
    case OpInsert(t, r, _) => ColMayWrite(c, t) && r !in c.cur.meta
    case OpUpdate(t, r, _, vid) => ColMayWrite(c, t) && ColSeesLive(c, t, r) && NextVid(c.cur.hist, vid)
    case OpRemove(t, r) => ColMayWrite(c, t) && ColSeesLive(c, t, r)
    case OpCommit(t) => ColEndsAlone(c, t)
    case OpRollback(t) => ColEndsAlone(c, t)
  }

  /** Commit makes the columns durable, rollback brings the durable ones back. */
  ghost function ColDo(c: ColDb, op: Op<Record>): ColDb
    requires ColAllowed(c, op) && ValidRegistry(c.reg)
  {
    match op
    case OpBegin(canWrite) =>
      var reg := Apply(c.reg, Began);
      RegistryKept(c.reg, Began);
      var t := c.reg.next;
      c.(reg := reg, snaps := c.snaps[t := Snap(reg, t)], writable := if canWrite then c.writable + {t} else c.writable)
    case OpRefresh(t) => c.(snaps := c.snaps[t := Snap(c.reg, t)])
    case OpInsert(t, r, rec) => c.(cur := ColInsert(c.cur, t, r, rec), writer := Some(t))
    case OpUpdate(t, r, rec, vid) => c.(cur := ColUpdate(c.cur, t, r, rec, vid), writer := Some(t))
    case OpRemove(t, r) => c.(cur := ColRemove(c.cur, t, r), writer := Some(t))
    case OpCommit(t) => ColClosing(c, t, Committed).(saved := if t in c.writable then c.cur else c.saved)
    case OpRollback(t) => ColClosing(c, t, Aborted).(cur := if t in c.writable then c.saved else c.cur)
  }

  ghost function ColClosing(c: ColDb, t: Txnid, how: XState): ColDb {
    c.(reg := Apply(c.reg, Ended(t, how)), snaps := c.snaps - {t}, writable := c.writable - {t},
       writer := if c.writer == Some(t) then None else c.writer)
  }

  ghost function NewColumns(n: nat): Columnar { Columnar(map[], map[], seq(n, i => map[])) }

  ghost function NewColDb(base: Txnid, n: nat): ColDb {
    ColDb(Registry(base, base + 1, map[]), NewColumns(n), NewColumns(n), None, {}, map[])
  }

  // ------------------------------ step by step ------------------------------

  /** The columns stand for the rows with every record padded. */
  ghost predicate SameTable(t: Rows<Record>, c: Columnar, n: nat) {
    |c.cols| == n && ViewOf(c) == PadRows(t, n)
  }

  ghost predicate Mirrors(d: Db<Record>, c: ColDb, n: nat) {
    && SameTable(d.cur, c.cur, n) && SameTable(d.saved, c.saved, n)
    && c.reg == d.reg && c.writer == d.writer && c.writable == d.writable && c.snaps == d.snaps
  }

  lemma InsertMirrors(t: Rows<Record>, c: Columnar, n: nat, w: Txnid, r: Rowid, rec: Record)
    requires n <= MAX_COLUMNS && SameTable(t, c, n)
    ensures SameTable(InsertRow(t, w, r, rec), ColInsert(c, w, r, rec), n)
  {
    hide Pad, PadRows, ViewOf;
    InsertViewed(c, w, r, rec);
    PadCommutes(t, w, r, rec, 0, n);
  }

  lemma UpdateMirrors(t: Rows<Record>, c: Columnar, n: nat, w: Txnid, r: Rowid, rec: Record, vid: Vid)
    requires n <= MAX_COLUMNS && SameTable(t, c, n) && r in t.main
    ensures r in c.meta && SameTable(UpdateRow(t, w, r, rec, vid), ColUpdate(c, w, r, rec, vid), n)
  {
    hide Pad, PadRows, ViewOf, Assembled;
    TableFacts(t, c, n, r);
    UpdateViewed(c, w, r, rec, vid);
    PadCommutes(t, w, r, rec, vid, n);
  }

  lemma RemoveMirrors(t: Rows<Record>, c: Columnar, n: nat, w: Txnid, r: Rowid)
    requires SameTable(t, c, n) && r in t.main
    ensures r in c.meta && SameTable(RemoveRow(t, w, r), ColRemove(c, w, r), n)
  {
    hide Pad, PadRows, ViewOf;
    TableFacts(t, c, n, r);
    RemoveViewed(c, w, r);
    PadCommutes(t, w, r, [], 0, n);
  }

  /** Headers and version ids are those of the row engine. */
  lemma TableFacts(t: Rows<Record>, c: Columnar, n: nat, r: Rowid)
    requires SameTable(t, c, n)
    ensures r in c.meta <==> r in t.main
    ensures r in t.main ==> c.meta[r].xmin == t.main[r].xmin && c.meta[r].xmax == t.main[r].xmax
    ensures forall vid :: NextVid(c.hist, vid) <==> NextVid(t.hist, vid)
  {
    hide Pad;
    Viewed(c);
    assert ViewOf(c).main.Keys == t.main.Keys;
    assert r in t.main ==> ViewOf(c).main[r] == PadVersion(t.main[r], n);
    forall vid ensures NextVid(c.hist, vid) <==> NextVid(t.hist, vid) { PadKeepsVids(t, vid, n); }
  }

  lemma SameAllowed(d: Db<Record>, c: ColDb, n: nat, op: Op<Record>)
    requires Mirrors(d, c, n)
    ensures Allowed(d, op) <==> ColAllowed(c, op)
  {
    hide SameTable, XidVisible, NextVid;
    match op {
      case OpInsert(_, r, _) => TableFacts(d.cur, c.cur, n, r);
      case OpUpdate(_, r, _, _) => TableFacts(d.cur, c.cur, n, r);
      case OpRemove(_, r) => TableFacts(d.cur, c.cur, n, r);
      case _ =>
    }
  }

  lemma StepMirrors(d: Db<Record>, c: ColDb, n: nat, op: Op<Record>)
    requires n <= MAX_COLUMNS && ValidRegistry(d.reg) && Mirrors(d, c, n) && Allowed(d, op)
    ensures ColAllowed(c, op) && Mirrors(Do(d, op), ColDo(c, op), n)
  {
    hide SameTable, ValidRegistry, Apply, Snap, XidVisible, NextVid, InsertRow, UpdateRow, RemoveRow, ColInsert,
         ColUpdate, ColRemove;
    SameAllowed(d, c, n, op);
    match op {
      case OpInsert(t, r, rec) => InsertMirrors(d.cur, c.cur, n, t, r, rec);
      case OpUpdate(t, r, rec, vid) => UpdateMirrors(d.cur, c.cur, n, t, r, rec, vid);
      case OpRemove(t, r) => RemoveMirrors(d.cur, c.cur, n, t, r);
      case _ =>
    }
  }

  // ----------------------------------- runs -----------------------------------

  ghost function DbRun(d: Db<Record>, ops: seq<Op<Record>>): Option<Db<Record>>
    decreases |ops|
  {
    if ops == [] then Some(d)
    else if ValidRegistry(d.reg) && Allowed(d, ops[0]) then DbRun(Do(d, ops[0]), ops[1..])
    else None
  }

  ghost function ColRun(c: ColDb, ops: seq<Op<Record>>): Option<ColDb>
    decreases |ops|
  {
    if ops == [] then Some(c)
    else if ValidRegistry(c.reg) && ColAllowed(c, ops[0]) then ColRun(ColDo(c, ops[0]), ops[1..])
    else None
  }

  /** A trace that one database admits the other admits too, and they end up mirroring each other. */
  lemma {:induction false} RunsMirror(d: Db<Record>, c: ColDb, n: nat, ops: seq<Op<Record>>)
    requires n <= MAX_COLUMNS && Mirrors(d, c, n)
    ensures DbRun(d, ops).Some? <==> ColRun(c, ops).Some?
    ensures DbRun(d, ops).Some? ==> Mirrors(DbRun(d, ops).value, ColRun(c, ops).value, n)
    decreases |ops|
  {
    hide Do, ColDo, Allowed, ColAllowed, SameTable, ValidRegistry;
    if ops != [] {
      SameAllowed(d, c, n, ops[0]);
      if ValidRegistry(d.reg) && Allowed(d, ops[0]) {
        StepMirrors(d, c, n, ops[0]);
        RunsMirror(Do(d, ops[0]), ColDo(c, ops[0]), n, ops[1..]);
      }
    }
  }

  lemma StartMirrors(base: Txnid, n: nat)
    ensures Mirrors(NewDb(base, Rows(map[], map[])), NewColDb(base, n), n)
  {
  }

  // ----------------------------------- scans -----------------------------------

  /** A scan is determined by what it scans: same rowids, same order, same records. */
  lemma {:induction false} ScanUnique(t: Rows<Record>, seen: iset<Txnid>, a: seq<(Rowid, Record)>,
                                      b: seq<(Rowid, Record)>)
    requires IsScan(t, seen, a) && IsScan(t, seen, b)
    ensures a == b
  {
    hide Lookup;
    forall i | 0 <= i < |a| && i < |b| && (forall j :: 0 <= j < i ==> a[j] == b[j]) ensures a[i] == b[i] {
      NextRowSame(t, seen, a, b, i);
    }
    var k := PrefixSame(a, b);
    if |a| != |b| {
      if |a| < |b| { NoExtraRow(t, seen, a, b); } else { NoExtraRow(t, seen, b, a); }
    }
  }

  lemma NextRowSame(t: Rows<Record>, seen: iset<Txnid>, a: seq<(Rowid, Record)>, b: seq<(Rowid, Record)>, i: nat)
    requires IsScan(t, seen, a) && IsScan(t, seen, b) && i < |a| && i < |b|
    requires forall j :: 0 <= j < i ==> a[j] == b[j]
    ensures a[i] == b[i]
  {
    hide Lookup;
    assert Lookup(t, a[i].0, seen).Some? && Lookup(t, b[i].0, seen).Some?;
    var x :| 0 <= x < |b| && b[x].0 == a[i].0;
    var y :| 0 <= y < |a| && a[y].0 == b[i].0;
    Ordered(a);
    Ordered(b);
    assert x >= i && y >= i;
  }

  lemma Ordered(a: seq<(Rowid, Record)>)
    requires forall i, j :: 0 <= i < j < |a| ==> a[i].0 < a[j].0
    ensures forall i, j :: 0 <= i < |a| && 0 <= j < |a| ==> (a[i].0 <= a[j].0 <==> i <= j)
  {
  }

  lemma PrefixSame(a: seq<(Rowid, Record)>, b: seq<(Rowid, Record)>) returns (k: nat)
    requires forall i :: 0 <= i < |a| && i < |b| && (forall j :: 0 <= j < i ==> a[j] == b[j]) ==> a[i] == b[i]
    ensures k <= |a| && k <= |b| && (k == |a| || k == |b|)
    ensures forall j :: 0 <= j < k ==> a[j] == b[j]
  {
    k := 0;
    while k < |a| && k < |b|
      invariant k <= |a| && k <= |b| && forall j :: 0 <= j < k ==> a[j] == b[j]
    {
      k := k + 1;
    }
  }

  lemma NoExtraRow(t: Rows<Record>, seen: iset<Txnid>, a: seq<(Rowid, Record)>, b: seq<(Rowid, Record)>)
    requires IsScan(t, seen, a) && IsScan(t, seen, b) && forall j :: 0 <= j < |a| && j < |b| ==> a[j] == b[j]
    ensures |a| >= |b|
  {
    hide Lookup;
    Ordered(b);
    if b != [] {
      RowHasPlace(t, seen, a, b, |b| - 1);
    }
  }

  lemma RowHasPlace(t: Rows<Record>, seen: iset<Txnid>, a: seq<(Rowid, Record)>, b: seq<(Rowid, Record)>, n: nat)
    requires IsScan(t, seen, a) && IsScan(t, seen, b) && forall j :: 0 <= j < |a| && j < |b| ==> a[j] == b[j]
    requires n < |b|
    ensures n < |a|
  {
    hide Lookup;
    Ordered(b);
    assert Lookup(t, b[n].0, seen).Some?;
    var x :| 0 <= x < |a| && a[x].0 == b[n].0;
  }

  ghost function PadScan(rows: seq<(Rowid, Record)>, n: nat): seq<(Rowid, Record)> {
    seq(|rows|, i requires 0 <= i < |rows| => (rows[i].0, Pad(rows[i].1, n)))
  }

  /**
   For every snapshot and every AS OF version, the columnar scan is the row scan with each
   record padded: the same rowids in the same order with the same decoded values.
   */
  lemma ScansEqual(t: Rows<Record>, seen: iset<Txnid>, n: nat, rows: seq<(Rowid, Record)>,
                   colRows: seq<(Rowid, Record)>)
    requires IsScan(t, seen, rows) && IsScan(PadRows(t, n), seen, colRows)
    ensures colRows == PadScan(rows, n)
  {
    hide Lookup, Pad, PadRows;
    var p := PadScan(rows, n);
    forall i | 0 <= i < |p| ensures Lookup(PadRows(t, n), p[i].0, seen) == Some(p[i].1) {
      LookupPadded(t, rows[i].0, seen, n);
    }
    forall r | Lookup(PadRows(t, n), r, seen).Some? ensures exists i :: 0 <= i < |p| && p[i].0 == r {
      LookupPadded(t, r, seen, n);
      var i :| 0 <= i < |rows| && rows[i].0 == r;
      assert p[i].0 == r;
    }
    ScanUnique(PadRows(t, n), seen, colRows, p);
  }

  // -------------------------------- the engines agree --------------------------------

  /** The row database after a trace from empty tables. */
  ghost function RowAfter(base: Txnid, ops: seq<Op<Record>>): Option<Db<Record>> {
    DbRun(NewDb(base, Rows(map[], map[])), ops)
  }

  /** The columnar database after the same trace, for a table of n columns. */
  ghost function ColAfter(base: Txnid, n: nat, ops: seq<Op<Record>>): Option<ColDb> {
    ColRun(NewColDb(base, n), ops)
  }

  /**
   After any trace of operations from empty tables of at most 64 columns, whatever ids are
   seen, the full scan of the columns is the full scan of the rows with every record padded.
   */
  lemma EnginesAgree(base: Txnid, n: nat, ops: seq<Op<Record>>, seen: iset<Txnid>,
                     rows: seq<(Rowid, Record)>, colRows: seq<(Rowid, Record)>)
    requires n <= MAX_COLUMNS
    ensures RowAfter(base, ops).Some? <==> ColAfter(base, n, ops).Some?
    ensures BothScanned(base, n, ops, seen, rows, colRows) ==> colRows == PadScan(rows, n) && SameValues(rows, colRows, n)
  {
    hide DbRun, ColRun, IsScan, PadScan, SameValues;
    StartMirrors(base, n);
    RunsMirror(NewDb(base, Rows(map[], map[])), NewColDb(base, n), n, ops);
    if BothScanned(base, n, ops, seen, rows, colRows) {
      ScansEqual(RowAfter(base, ops).value.cur, seen, n, rows, colRows);
      PaddedSame(rows, n);
    }
  }

  /** The same rowids in the same order; each record has n values, those of the row's and NULL past its end. */
  ghost predicate SameValues(rows: seq<(Rowid, Record)>, colRows: seq<(Rowid, Record)>, n: nat) {
    && |colRows| == |rows|
    && (forall i :: 0 <= i < |rows| ==> colRows[i].0 == rows[i].0 && |colRows[i].1| == n)
    && (forall i, j :: 0 <= i < |rows| && 0 <= j < n ==> colRows[i].1[j] == if j < |rows[i].1| then rows[i].1[j] else Null)
  }

  lemma PaddedSame(rows: seq<(Rowid, Record)>, n: nat)
    ensures SameValues(rows, PadScan(rows, n), n)
  {
  }

  /** Full scans of both databases after the trace. */
  ghost predicate BothScanned(base: Txnid, n: nat, ops: seq<Op<Record>>, seen: iset<Txnid>,
                              rows: seq<(Rowid, Record)>, colRows: seq<(Rowid, Record)>) {
    && RowAfter(base, ops).Some? && IsScan(RowAfter(base, ops).value.cur, seen, rows)
    && ColAfter(base, n, ops).Some? && IsScan(ViewOf(ColAfter(base, n, ops).value.cur), seen, colRows)
  }

  ghost predicate AlwaysAgree(n: nat) {
    forall base, ops, seen, rows, colRows :: BothScanned(base, n, ops, seen, rows, colRows) ==> colRows == PadScan(rows, n)
  }

  /** The limit is exact: a wider table comes back cut off after 64 columns. */
  lemma AgreeIff(n: nat)
    ensures AlwaysAgree(n) <==> n <= MAX_COLUMNS
  {
    hide BothScanned, PadScan;
    if n <= MAX_COLUMNS {
      forall base, ops, seen, rows, colRows | BothScanned(base, n, ops, seen, rows, colRows) ensures colRows == PadScan(rows, n) {
        EnginesAgree(base, n, ops, seen, rows, colRows);
      }
    } else {
      var ops, colRows := WideTable(n);
      assert BothScanned(0, n, ops, iset{1}, [(7, [])], colRows);
    }
  }

  /** One inserted row, in a table of more than 64 columns. */
  lemma WideTable(n: nat) returns (ops: seq<Op<Record>>, colRows: seq<(Rowid, Record)>)
    requires n > MAX_COLUMNS
    ensures BothScanned(0, n, ops, iset{1}, [(7, [])], colRows) && colRows != PadScan([(7, [])], n)
  {
    var o1, o2: Op<Record> := OpBegin(true), OpInsert(1, 7, []);
    ops := [o1, o2];
    var d0, c0 := NewDb<Record>(0, Rows(map[], map[])), NewColDb(0, n);
    var d1, c1 := Do(d0, o1), ColDo(c0, o1);
    RegistryKept(d0.reg, Began);
    assert Allowed(d1, o2) && ColAllowed(c1, o2);
    var d2, c2 := Do(d1, o2), ColDo(c1, o2);
    TwoSteps(d0, c0, o1, o2);
    var rec := Assembled(c2.cur.cols, 7);
    colRows := [(7, rec)];
    LoneRow(d2.cur, 1, 7, []);
    assert ViewOf(c2.cur).main == map[7 := Version(1, 0, 0, rec)];
    LoneRow(ViewOf(c2.cur), 1, 7, rec);
    assert |PadScan([(7, [])], n)[0].1| == n && |colRows[0].1| == MAX_COLUMNS;
  }

  lemma LoneRow(t: Rows<Record>, w: Txnid, r: Rowid, rec: Record)
    requires t.main == map[r := Version(w, 0, 0, rec)]
    ensures IsScan(t, iset{w}, [(r, rec)])
  {
    assert Lookup(t, r, iset{w}) == Some(rec);
    assert [(r, rec)][0].0 == r;
  }

  lemma TwoSteps(d: Db<Record>, c: ColDb, o1: Op<Record>, o2: Op<Record>)
    requires ValidRegistry(d.reg) && Allowed(d, o1) && ValidRegistry(c.reg) && ColAllowed(c, o1)
    requires var d1 := Do(d, o1); ValidRegistry(d1.reg) && Allowed(d1, o2)
    requires var c1 := ColDo(c, o1); ValidRegistry(c1.reg) && ColAllowed(c1, o2)
    ensures DbRun(d, [o1, o2]) == Some(Do(Do(d, o1), o2)) && ColRun(c, [o1, o2]) == Some(ColDo(ColDo(c, o1), o2))
  {
    hide Do, ColDo, Allowed, ColAllowed;
    assert [o1, o2][1..] == [o2] && [o2][1..] == [];
    var d1, c1 := Do(d, o1), ColDo(c, o1);
    assert DbRun(d1, [o2]) == DbRun(Do(d1, o2), []);
    assert ColRun(c1, [o2]) == ColRun(ColDo(c1, o2), []);
  }

  lemma {:induction false} RunReaches(d: Db<Record>, a: Spec<Record>, ops: seq<Op<Record>>)
    requires Inv(d, a) && DbRun(d, ops).Some?
    ensures WellChained(DbRun(d, ops).value.cur)
    decreases |ops|
  {
    hide Do, Allowed, Tell, SavedOk, SnapsOk, Shown, IdsIn;
    if ops == [] {
      InvChained(d, a);
    } else {
      StepKept(d, a, ops[0]);
      RunReaches(Do(d, ops[0]), Tell(a, d, ops[0]), ops[1..]);
    }
  }

  lemma InvChained(d: Db<Record>, a: Spec<Record>)
    requires Inv(d, a)
    ensures WellChained(d.cur)
  {
    hide WellChained, IdsIn, Shown, Closed, OwnShown, Same, Seen;
  }

  lemma PaddedChained(t: Rows<Record>, n: nat)
    requires WellChained(t)
    ensures WellChained(PadRows(t, n))
  {
    hide Pad;
    var p := PadRows(t, n);
    forall v | v in p.hist ensures p.hist[v].prev < v && LinkOk(p.hist, p.hist[v]) { assert LinkOk(t.hist, t.hist[v]); }
    forall r | r in p.main ensures LinkOk(p.hist, p.main[r]) { assert LinkOk(t.hist, t.main[r]); }
  }

  lemma BothChained(base: Txnid, n: nat, ops: seq<Op<Record>>)
    requires n <= MAX_COLUMNS && RowAfter(base, ops).Some?
    ensures WellChained(RowAfter(base, ops).value.cur)
    ensures ColAfter(base, n, ops).Some? && WellChained(ViewOf(ColAfter(base, n, ops).value.cur))
  {
    hide DbRun, ColRun, WellChained, Inv;
    EmptyInv<Record>(base);
    RunReaches(NewDb(base, Rows(map[], map[])), Spec(map[], map[], map[]), ops);
    StartMirrors(base, n);
    RunsMirror(NewDb(base, Rows(map[], map[])), NewColDb(base, n), n, ops);
    PaddedChained(RowAfter(base, ops).value.cur, n);
  }

  /** The two engine objects, after the same trace: their scans, for any snapshot or AS OF version. */
  method ScanBoth(re: RowEngine, ce: ColEngine, m: TxnManager, s: Snapshot, asof: Txnid, ghost base: Txnid,
                  ghost ops: seq<Op<Record>>)
    returns (rows: seq<(Rowid, Record)>, colRows: seq<(Rowid, Record)>)
    requires m.Valid() && |ce.cols| <= MAX_COLUMNS && RowAfter(base, ops).Some?
             && re.View() == RowAfter(base, ops).value.cur
    requires ColAfter(base, |ce.cols|, ops).Some? && ce.State() == ColAfter(base, |ce.cols|, ops).value.cur
    ensures colRows == PadScan(rows, |ce.cols|) && SameValues(rows, colRows, |ce.cols|)
    ensures IsScan(re.View(), Observed(m.View(), s, asof), rows)
  {
    hide RowAfter, ColAfter, IsScan, Observed, WellChained, ViewOf, PadScan, AgreesOn, AlwaysAgree, SameValues;
    BothChained(base, |ce.cols|, ops);
    rows := re.Scan(m, s, asof);
    ghost var full;
    colRows, full := ce.Scan(m, s, asof, None);
    EnginesAgree(base, |ce.cols|, ops, Observed(m.View(), s, asof), rows, colRows);
  }
}
