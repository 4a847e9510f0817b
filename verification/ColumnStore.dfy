/**
 The columnar engine: a header map, a history of whole records, and one map per column. The
 current record of a row exists nowhere; every read puts it together from the columns.
 */
module ColumnStore {
  import opened Basics
  import opened Mvcc
  import opened TxnManagers
  import opened Versions
  import opened Values
  import opened Engines

  /** No read puts more columns than this together. */
  const MAX_COLUMNS := 64

  datatype Header = Header(xmin: Txnid, xmax: Txnid, prev: Vid)

  type Column = map<Rowid, Value>

  datatype Columnar = Columnar(meta: map<Rowid, Header>, hist: map<Vid, Version<Record>>, cols: seq<Column>)

  // --------------------------------- operations ---------------------------------

  function Width(cols: seq<Column>): nat { if |cols| <= MAX_COLUMNS then |cols| else MAX_COLUMNS }

  function Cell(col: Column, r: Rowid): Value { if r in col then col[r] else Null }

  /** A row's record, column by column; at most `MAX_COLUMNS` of them. */
  ghost function Assembled(cols: seq<Column>, r: Rowid): (rec: Record)
    ensures |rec| == Width(cols)
  {
    seq(Width(cols), i requires 0 <= i < Width(cols) => Cell(cols[i], r))
  }

  /** One value written to every column; NULL where the record is too short. */
  ghost function PutCells(cols: seq<Column>, r: Rowid, rec: Record): (out: seq<Column>)
    ensures |out| == |cols|
  {
    seq(|cols|, i requires 0 <= i < |cols| => cols[i][r := if i < |rec| then rec[i] else Null])
  }

  ghost function ColInsert(c: Columnar, w: Txnid, r: Rowid, rec: Record): Columnar {
    Columnar(c.meta[r := Header(w, 0, 0)], c.hist, PutCells(c.cols, r, rec))
  }

  /** The old record is read back from the columns before they are overwritten. */
  ghost function ColUpdate(c: Columnar, w: Txnid, r: Rowid, rec: Record, vid: Vid): Columnar
    requires r in c.meta
  {
    var o := c.meta[r];
    Columnar(c.meta[r := Header(w, 0, vid)], c.hist[vid := Version(o.xmin, w, o.prev, Assembled(c.cols, r))], PutCells(c.cols, r, rec))
  }

  ghost function ColRemove(c: Columnar, w: Txnid, r: Rowid): Columnar
    requires r in c.meta
  {
    c.(meta := c.meta[r := c.meta[r].(xmax := w)])
  }

  // ----------------------------- the rows they stand for -----------------------------

  /** Headers from the header map, current records from the columns, older ones from the history. */
  ghost function ViewOf(c: Columnar): Rows<Record> {
    Rows(map r | r in c.meta :: Version(c.meta[r].xmin, c.meta[r].xmax, c.meta[r].prev, Assembled(c.cols, r)), c.hist)
  }

  /** Columns beyond the record are NULL, values beyond the columns are dropped. */
  ghost function Pad(rec: Record, ncol: nat): (r: Record)
    ensures |r| == ncol
  {
    seq(ncol, i requires 0 <= i < ncol => if i < |rec| then rec[i] else Null)
  }

  /** Writing a row's cells and putting them together again pads the record; other rows do not change. */
  lemma CellsAssembled(cols: seq<Column>, r: Rowid, rec: Record)
    requires |cols| <= MAX_COLUMNS
    ensures Assembled(PutCells(cols, r, rec), r) == Pad(rec, |cols|)
    ensures forall q :: q != r ==> Assembled(PutCells(cols, r, rec), q) == Assembled(cols, q)
  {
    var out := PutCells(cols, r, rec);
    assert forall i :: 0 <= i < |cols| ==> Assembled(out, r)[i] == Pad(rec, |cols|)[i];
    forall q | q != r ensures Assembled(out, q) == Assembled(cols, q) {
      assert forall i :: 0 <= i < |cols| ==> Assembled(out, q)[i] == Assembled(cols, q)[i];
    }
  }

  lemma InsertViewed(c: Columnar, w: Txnid, r: Rowid, rec: Record)
    requires |c.cols| <= MAX_COLUMNS
    ensures ViewOf(ColInsert(c, w, r, rec)) == InsertRow(ViewOf(c), w, r, Pad(rec, |c.cols|))
  {
    hide Assembled, PutCells, Pad;
    CellsAssembled(c.cols, r, rec);
  }

  lemma UpdateViewed(c: Columnar, w: Txnid, r: Rowid, rec: Record, vid: Vid)
    requires |c.cols| <= MAX_COLUMNS && r in c.meta
    ensures ViewOf(ColUpdate(c, w, r, rec, vid)) == UpdateRow(ViewOf(c), w, r, Pad(rec, |c.cols|), vid)
  {
    hide Assembled, PutCells, Pad;
    CellsAssembled(c.cols, r, rec);
  }

  lemma RemoveViewed(c: Columnar, w: Txnid, r: Rowid)
    requires r in c.meta
    ensures ViewOf(ColRemove(c, w, r)) == RemoveRow(ViewOf(c), w, r)
  {
    hide Assembled;
  }

  /** A wider table does not get its records back: the columns past the limit are never read. */
  lemma WideRecordsCut(c: Columnar, w: Txnid, r: Rowid, rec: Record)
    requires |c.cols| > MAX_COLUMNS
    ensures ViewOf(ColInsert(c, w, r, rec)).main[r].rec != Pad(rec, |c.cols|)
  {
    assert |Assembled(PutCells(c.cols, r, rec), r)| == MAX_COLUMNS;
  }

  // ----------------------------------- masks -----------------------------------

  type Mask = Option<seq<bool>>

  predicate Marked(mask: Mask, i: nat) { mask.Some? ==> i < |mask.value| && mask.value[i] }

  /** The marked columns of a record; the others are NULL. */
  ghost function Masked(mask: Mask, rec: Record): (out: Record)
    ensures |out| == |rec|
  {
    seq(|rec|, i requires 0 <= i < |rec| => if Marked(mask, i) then rec[i] else Null)
  }

  /** Same rowids in the same order, and the marked columns are those of the full rows. */
  ghost predicate AgreesOn(mask: Mask, rows: seq<(Rowid, Record)>, full: seq<(Rowid, Record)>) {
    && |rows| == |full|
    && forall i :: 0 <= i < |rows| ==> rows[i].0 == full[i].0 && RecordAgrees(mask, rows[i].1, full[i].1)
  }

  ghost predicate RecordAgrees(mask: Mask, rec: Record, full: Record) {
    |rec| == |full| && forall i: nat :: i < |rec| && Marked(mask, i) ==> rec[i] == full[i]
  }

  lemma NoMask(rows: seq<(Rowid, Record)>, full: seq<(Rowid, Record)>)
    requires AgreesOn(None, rows, full)
    ensures rows == full
  {
    forall i | 0 <= i < |rows| ensures rows[i] == full[i] {
      assert RecordAgrees(None, rows[i].1, full[i].1);
      assert rows[i].1 == full[i].1;
    }
  }

  lemma NoRows(mask: Mask)
    ensures AgreesOn(mask, [], [])
  {
  }

  lemma OneMore(mask: Mask, rows: seq<(Rowid, Record)>, full: seq<(Rowid, Record)>, r: Rowid, rec: Record,
                whole: Record)
    requires AgreesOn(mask, rows, full) && RecordAgrees(mask, rec, whole)
    ensures AgreesOn(mask, rows + [(r, rec)], full + [(r, whole)])
  {
  }

  // ------------------------------------ the code ------------------------------------

  class ColEngine {
    var meta: map<Rowid, Header>
    var hist: map<Vid, Version<Record>>
    var cols: seq<Column>

    ghost function State(): Columnar
      reads this
    {
      Columnar(meta, hist, cols)
    }

    constructor (ncol: nat)
      ensures State() == Columnar(map[], map[], seq(ncol, i => map[]))
    {
      meta, hist, cols := map[], map[], seq(ncol, i => map[]);
    }

    /** The row's record from the columns that are marked. */
    method Reassemble(r: Rowid, mask: Mask) returns (rec: Record)
      requires mask.Some? ==> |mask.value| >= Width(cols)
      ensures rec == Masked(mask, Assembled(cols, r))
    {
      var nc := if |cols| > MAX_COLUMNS then MAX_COLUMNS else |cols|;
      rec := [];
      for i := 0 to nc
        invariant |rec| == i
        invariant forall j :: 0 <= j < i ==> rec[j] == Masked(mask, Assembled(cols, r))[j]
      {
        if mask.Some? && !mask.value[i] {
          rec := rec + [Null];
        } else {
          rec := rec + [Cell(cols[i], r)];
        }
      }
    }

    method PutColumns(r: Rowid, rec: Record)
      modifies this`cols
      ensures cols == PutCells(old(cols), r, rec)
    {
      for i := 0 to |cols|
        invariant |cols| == |old(cols)|
        invariant forall j :: 0 <= j < |cols| ==> cols[j] == if j < i then PutCells(old(cols), r, rec)[j] else old(cols)[j]
      {
        var col: Column := cols[i][r := if i < |rec| then rec[i] else Null];
        cols := cols[i := col];
      }
    }

    method Insert(w: Txnid, r: Rowid, rec: Record)
      modifies this
      ensures State() == ColInsert(old(State()), w, r, rec)
    {
      meta := meta[r := Header(w, 0, 0)];
      PutColumns(r, rec);
    }

    method Update(w: Txnid, r: Rowid, rec: Record) returns (found: bool)
      requires 0 !in hist
      modifies this
      ensures found <==> r in old(meta)
      ensures !found ==> State() == old(State())
      ensures found ==> exists vid :: NextVid(old(hist), vid) && State() == ColUpdate(old(State()), w, r, rec, vid)
    {
      if r !in meta { return false; }
      var o := meta[r];
      var was := Reassemble(r, None);
      assert was == Assembled(cols, r);
      var vid := FreshVid(hist);
      hist := hist[vid := Version(o.xmin, w, o.prev, was)];
      meta := meta[r := Header(w, 0, vid)];
      PutColumns(r, rec);
      assert State() == ColUpdate(old(State()), w, r, rec, vid);
      return true;
    }

    method Remove(w: Txnid, r: Rowid) returns (found: bool)
      modifies this
      ensures found <==> r in old(meta)
      ensures State() == if found then ColRemove(old(State()), w, r) else old(State())
    {
      if r !in meta { return false; }
      meta := meta[r := Header(meta[r].xmin, w, meta[r].prev)];
      return true;
    }

    /** The visible record: assembled under the mask when the newest version shows, else whole from the history. */
    method ResolveCol(m: TxnManager, s: Snapshot, asof: Txnid, r: Rowid, mask: Mask) returns (found: Option<Record>)
      requires m.Valid() && WellChained(ViewOf(State())) && r in meta
      requires mask.Some? ==> |mask.value| >= Width(cols)
      ensures found.Some? <==> Lookup(ViewOf(State()), r, Observed(m.View(), s, asof)).Some?
      ensures found.Some? ==> RecordAgrees(mask, found.value, Lookup(ViewOf(State()), r, Observed(m.View(), s, asof)).value)
    {
      var h := meta[r];
      ghost var seen, v := Observed(m.View(), s, asof), ViewOf(State()).main[r];
      var vis := CheckVisible(m, s, asof, h.xmin, h.xmax);
      if vis {
        var rec := Reassemble(r, mask);
        return Some(rec);
      }
      var vid := h.prev;
      while vid != 0 && vid in hist
        invariant Resolve(hist, v, seen) == if vid in hist then Resolve(hist, hist[vid], seen) else None
        decreases vid
      {
        var o := hist[vid];
        var hv := CheckVisible(m, s, asof, o.xmin, o.xmax);
        if hv { return Some(o.rec); }
        vid := o.prev;
      }
      return None;
    }

    /** A full scan; without a mask the rows are exactly the visible ones. */
    method Scan(m: TxnManager, s: Snapshot, asof: Txnid, mask: Mask)
      returns (rows: seq<(Rowid, Record)>, ghost full: seq<(Rowid, Record)>)
      requires m.Valid() && WellChained(ViewOf(State()))
      requires mask.Some? ==> |mask.value| >= Width(cols)
      ensures IsScan(ViewOf(State()), Observed(m.View(), s, asof), full) && AgreesOn(mask, rows, full)
      ensures mask == None ==> IsScan(ViewOf(State()), Observed(m.View(), s, asof), rows)
    {
      hide Lookup, Observed, Resolve, Assembled, RecordAgrees, ViewOf, ScannedTo, AgreesOn, IsScan, WellChained;
      ghost var seen, t := Observed(m.View(), s, asof), ViewOf(State());
      Viewed(State());
      rows, full := [], [];
      var k := LeastFrom(meta.Keys, 0);
      ghost var from: Rowid := 0;
      StartScan(t, seen);
      NoRows(mask);
      while k.Some?
        invariant k.Some? ==> k.value in meta && k.value >= from && forall x :: x in meta && x >= from ==> k.value <= x
        invariant k == None ==> forall x :: x in meta ==> x < from
        invariant ScannedTo(t, seen, full, from) && AgreesOn(mask, rows, full)
        decreases k.Some?, |set x | x in meta && x >= from|
      {
        var r := k.value;
        var found := ResolveCol(m, s, asof, r, mask);
        LookupIs(t, r, seen);
        ScanRow(t, seen, full, from, r, Lookup(t, r, seen));
        FewerLeft(meta.Keys, from, r);
        if found.Some? {
          OneMore(mask, rows, full, r, found.value, Lookup(t, r, seen).value);
          rows, full := rows + [(r, found.value)], full + [(r, Lookup(t, r, seen).value)];
        }
        from := r + 1;
        k := LeastFrom(meta.Keys, r + 1);
      }
      EndScan(t, seen, full, from);
      if mask == None { NoMask(rows, full); }
    }
  }

  lemma Viewed(c: Columnar)
    ensures ViewOf(c).main.Keys == c.meta.Keys && ViewOf(c).hist == c.hist
  {
  }
}
