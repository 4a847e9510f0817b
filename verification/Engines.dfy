/**
 What both table engines use to read, and the row engine, which stores whole records. Its
 operations are proved to be those on `Rows`.
 */
module Engines {
  import opened Basics
  import opened Mvcc
  import opened TxnManagers
  import opened Versions
  import opened Values

  type Record = seq<Value>

  /** Which ids a read observes: those of a snapshot, or AS OF a version when that is not 0. */
  ghost function Observed(reg: Registry, s: Snapshot, asof: Txnid): iset<Txnid> {
    if asof != 0 then SeenAsOf(reg, asof) else Seen(reg, s)
  }

  method CheckVisible(m: TxnManager, s: Snapshot, asof: Txnid, xmin: Txnid, xmax: Txnid) returns (vis: bool)
    requires m.Valid()
    ensures vis == Shows(Observed(m.View(), s, asof), xmin, xmax)
    ensures vis == if asof == 0 then Visible(m.View(), s, xmin, xmax) else VisibleAsOf(m.View(), xmin, xmax, asof)
  {
    VisibleIsShows(m.View(), s, asof, xmin, xmax);
    if asof != 0 {
      vis := VisibleAsOfCheck(m, xmin, xmax, asof);
    } else {
      vis := m.IsVisible(s, xmin, xmax);
    }
  }

  method VisibleAsOfCheck(m: TxnManager, xmin: Txnid, xmax: Txnid, asof: Txnid) returns (vis: bool)
    requires m.Valid()
    ensures vis == VisibleAsOf(m.View(), xmin, xmax, asof)
  {
    var st := m.State(xmin);
    if st != Committed { return false; }
    if xmin > asof { return false; }
    if xmax == 0 { return true; }
    st := m.State(xmax);
    if st == Committed && xmax <= asof { return false; }
    return true;
  }

  /** One past the largest version id. */
  method FreshVid(hist: map<Vid, Version<Record>>) returns (vid: Vid)
    requires 0 !in hist
    ensures NextVid(hist, vid)
  {
    var rest, top := hist.Keys, 0;
    while rest != {}
      invariant rest <= hist.Keys
      invariant forall v :: v in hist && v !in rest ==> v <= top
      invariant top == 0 || top in hist
      decreases |rest|
    {
      var v :| v in rest;
      rest := rest - {v};
      if v > top { top := v; }
    }
    vid := top + 1;
  }

  /** Walks a chain from v to the first visible version. Version ids only go down, so it ends. */
  method ResolveVisible(m: TxnManager, s: Snapshot, asof: Txnid, hist: map<Vid, Version<Record>>, v: Version<Record>)
    returns (found: Option<Record>)
    requires m.Valid()
    requires forall x :: x in hist ==> hist[x].prev < x
    ensures found == Resolve(hist, v, Observed(m.View(), s, asof))
  {
    var work := v;
    while true
      invariant Resolve(hist, work, Observed(m.View(), s, asof)) == Resolve(hist, v, Observed(m.View(), s, asof))
      decreases work.prev
    {
      var vis := CheckVisible(m, s, asof, work.xmin, work.xmax);
      if vis { return Some(work.rec); }
      if work.prev == 0 || work.prev !in hist { return None; }
      work := hist[work.prev];
    }
  }

  /** Rows as a scan yields them: ascending rowids, each visible row once. */
  ghost predicate IsScan(t: Rows<Record>, seen: iset<Txnid>, rows: seq<(Rowid, Record)>) {
    && (forall i, j :: 0 <= i < j < |rows| ==> rows[i].0 < rows[j].0)
    && (forall i :: 0 <= i < |rows| ==> Lookup(t, rows[i].0, seen) == Some(rows[i].1))
    && (forall r :: Lookup(t, r, seen).Some? ==> exists i :: 0 <= i < |rows| && rows[i].0 == r)
  }

  method LeastFrom(keys: set<Rowid>, from: Rowid) returns (k: Option<Rowid>)
    ensures k == None ==> forall x :: x in keys ==> x < from
    ensures k.Some? ==> k.value in keys && k.value >= from && forall x :: x in keys && x >= from ==> k.value <= x
  {
    var rest := keys;
    k := None;
    while rest != {}
      invariant rest <= keys
      invariant k == None ==> forall x :: x in keys && x !in rest ==> x < from
      invariant k.Some? ==> k.value in keys && k.value >= from && forall x :: x in keys && x !in rest && x >= from ==> k.value <= x
      decreases |rest|
    {
      var x :| x in rest;
      rest := rest - {x};
      if x >= from && (k == None || x < k.value) { k := Some(x); }
    }
  }

  // -------------------------------- row engine --------------------------------

  class RowEngine {
    var main: map<Rowid, Version<Record>>
    var hist: map<Vid, Version<Record>>

    ghost function View(): Rows<Record>
      reads this
    {
      Rows(main, hist)
    }

    constructor ()
      ensures View() == Rows(map[], map[])
    {
      main, hist := map[], map[];
    }

    method Insert(w: Txnid, r: Rowid, rec: Record)
      modifies this
      ensures View() == InsertRow(old(View()), w, r, rec)
    {
      main := main[r := Version(w, 0, 0, rec)];
    }

    method Update(w: Txnid, r: Rowid, rec: Record) returns (found: bool)
      requires 0 !in hist
      modifies this
      ensures found <==> r in old(main)
      ensures !found ==> View() == old(View())
      ensures found ==> exists vid :: NextVid(old(hist), vid) && View() == UpdateRow(old(View()), w, r, rec, vid)
    {
      if r !in main { return false; }
      var o := main[r];
      var vid := FreshVid(hist);
      hist := hist[vid := Version(o.xmin, w, o.prev, o.rec)];
      main := main[r := Version(w, 0, vid, rec)];
      assert View() == UpdateRow(old(View()), w, r, rec, vid);
      return true;
    }

    method Remove(w: Txnid, r: Rowid) returns (found: bool)
      modifies this
      ensures found <==> r in old(main)
      ensures View() == if found then RemoveRow(old(View()), w, r) else old(View())
    {
      if r !in main { return false; }
      var o := main[r];
      main := main[r := Version(o.xmin, w, o.prev, o.rec)];
      return true;
    }

    method SeekRowid(m: TxnManager, s: Snapshot, r: Rowid) returns (found: Option<Record>)
      requires m.Valid() && WellChained(View())
      ensures found == Lookup(View(), r, Seen(m.View(), s))
    {
      if r !in main { return None; }
      found := ResolveVisible(m, s, 0, hist, main[r]);
    }

    /** A full scan yields exactly the visible rows in ascending rowid order. */
    method Scan(m: TxnManager, s: Snapshot, asof: Txnid) returns (rows: seq<(Rowid, Record)>)
      requires m.Valid() && WellChained(View())
      ensures IsScan(View(), Observed(m.View(), s, asof), rows)
    {
      hide Lookup, Observed, Resolve;
      ghost var seen := Observed(m.View(), s, asof);
      rows := [];
      var k := LeastFrom(main.Keys, 0);
      ghost var from: Rowid := 0;
      StartScan(View(), seen);
      while k.Some?
        invariant k.Some? ==> k.value in main && k.value >= from && forall x :: x in main && x >= from ==> k.value <= x
        invariant k == None ==> forall x :: x in main ==> x < from
        invariant ScannedTo(View(), seen, rows, from)
        decreases k.Some?, |set x | x in main && x >= from|
      {
        var r := k.value;
        var found := ResolveVisible(m, s, asof, hist, main[r]);
        ScanRow(View(), seen, rows, from, r, found);
        FewerLeft(main.Keys, from, r);
        if found.Some? { rows := rows + [(r, found.value)]; }
        from := r + 1;
        k := LeastFrom(main.Keys, r + 1);
      }
      EndScan(View(), seen, rows, from);
    }
  }

  lemma FewerLeft(keys: set<Rowid>, from: Rowid, r: Rowid)
    requires r in keys && r >= from
    ensures |set x | x in keys && x >= r + 1| < |set x | x in keys && x >= from|
  {
    var a, b := set x | x in keys && x >= r + 1, set x | x in keys && x >= from;
    assert a + {r} <= b && r !in a;
    CardinalityMonotone(a + {r}, b);
  }

  lemma {:induction false} CardinalityMonotone<T>(a: set<T>, b: set<T>)
    requires a <= b
    ensures |a| <= |b|
    decreases b
  {
    if a != {} {
      var x :| x in a;
      CardinalityMonotone(a - {x}, b - {x});
    }
  }

  /** The rows listed so far are the visible rows below `from`. */
  ghost predicate ScannedTo(t: Rows<Record>, seen: iset<Txnid>, rows: seq<(Rowid, Record)>, from: Rowid) {
    && (forall i, j :: 0 <= i < j < |rows| ==> rows[i].0 < rows[j].0)
    && (forall i :: 0 <= i < |rows| ==> rows[i].0 < from && Lookup(t, rows[i].0, seen) == Some(rows[i].1))
    && (forall r: Rowid :: r < from && Lookup(t, r, seen).Some? ==> exists i :: 0 <= i < |rows| && rows[i].0 == r)
  }

  lemma StartScan(t: Rows<Record>, seen: iset<Txnid>)
    ensures ScannedTo(t, seen, [], 0)
  {
  }

  lemma ScanRow(t: Rows<Record>, seen: iset<Txnid>, rows: seq<(Rowid, Record)>, from: Rowid, r: Rowid,
                found: Option<Record>)
    requires ScannedTo(t, seen, rows, from)
    requires r in t.main && r >= from && forall x :: x in t.main && x >= from ==> r <= x
    requires found == Resolve(t.hist, t.main[r], seen)
    ensures ScannedTo(t, seen, if found.Some? then rows + [(r, found.value)] else rows, r + 1)
  {
    hide Resolve;
    assert Lookup(t, r, seen) == found;
    assert forall q: Rowid :: from <= q < r ==> Lookup(t, q, seen) == None;
    hide Lookup;
    var rows' := if found.Some? then rows + [(r, found.value)] else rows;
    forall q: Rowid | q < r + 1 && Lookup(t, q, seen).Some? ensures exists i :: 0 <= i < |rows'| && rows'[i].0 == q {
      if q == r {
        assert rows'[|rows|].0 == q;
      } else {
        var i :| 0 <= i < |rows| && rows[i].0 == q;
        assert rows'[i].0 == q;
      }
    }
  }

  lemma EndScan(t: Rows<Record>, seen: iset<Txnid>, rows: seq<(Rowid, Record)>, from: Rowid)
    requires ScannedTo(t, seen, rows, from) && forall x :: x in t.main ==> x < from
    ensures IsScan(t, seen, rows)
  {
  }

  lemma LookupIs(t: Rows<Record>, r: Rowid, seen: iset<Txnid>)
    requires r in t.main
    ensures Lookup(t, r, seen) == Resolve(t.hist, t.main[r], seen)
  {
  }
}
