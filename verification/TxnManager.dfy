/**
 The transaction manager: record table, active list and id counter, changed in place by
 begin, commit and rollback. Each method is one event of the registry it stands for.
 */
module TxnManagers {
  import opened Mvcc

  datatype XRec = XRec(id: Txnid, state: XState)

  ghost predicate DistinctIds(recs: seq<XRec>) {
    forall i, j :: 0 <= i < j < |recs| ==> recs[i].id != recs[j].id
  }

  ghost predicate Distinct(s: seq<Txnid>) {
    forall i, j :: 0 <= i < j < |s| ==> s[i] != s[j]
  }

  ghost function Table(recs: seq<XRec>): (m: map<Txnid, XState>)
  {
    if recs == [] then map[] else Table(recs[..|recs| - 1])[recs[|recs| - 1].id := recs[|recs| - 1].state]
  }

  lemma {:induction false} TableHas(recs: seq<XRec>, x: Txnid)
    ensures x in Table(recs) <==> exists i :: 0 <= i < |recs| && recs[i].id == x
  {
    if recs != [] {
      var r1 := recs[..|recs| - 1];
      TableHas(r1, x);
      assert forall i :: 0 <= i < |r1| ==> r1[i] == recs[i];
      if x in Table(r1) {
        var i :| 0 <= i < |r1| && r1[i].id == x;
        assert recs[i].id == x;
      }
    }
  }

  lemma {:induction false} TableAt(recs: seq<XRec>, i: nat)
    requires DistinctIds(recs) && i < |recs|
    ensures recs[i].id in Table(recs) && Table(recs)[recs[i].id] == recs[i].state
  {
    if i < |recs| - 1 {
      TableAt(recs[..|recs| - 1], i);
      assert recs[i].id != recs[|recs| - 1].id;
    }
  }

  lemma {:induction false} TableSet(recs: seq<XRec>, i: nat, st: XState)
    requires DistinctIds(recs) && i < |recs|
    ensures DistinctIds(recs[i := XRec(recs[i].id, st)])
    ensures Table(recs[i := XRec(recs[i].id, st)]) == Table(recs)[recs[i].id := st]
  {
    var r' := recs[i := XRec(recs[i].id, st)];
    var n := |recs| - 1;
    if i < n {
      TableSet(recs[..n], i, st);
      assert r'[..n] == recs[..n][i := XRec(recs[i].id, st)];
      assert recs[i].id != recs[n].id;
    } else {
      assert r'[..n] == recs[..n];
    }
  }

  lemma TableAdd(recs: seq<XRec>, id: Txnid, st: XState)
    requires DistinctIds(recs) && forall i :: 0 <= i < |recs| ==> recs[i].id != id
    ensures DistinctIds(recs + [XRec(id, st)])
    ensures Table(recs + [XRec(id, st)]) == Table(recs)[id := st]
  {
    assert (recs + [XRec(id, st)])[..|recs|] == recs;
  }

  /** Membership in a snapshot's active list, by the loop that visibility uses. */
  method InActive(s: Snapshot, xid: Txnid) returns (found: bool)
    ensures found <==> xid in s.active
  {
    for i := 0 to |s.active|
      invariant xid !in s.active[..i]
    {
      if s.active[i] == xid { return true; }
    }
    return false;
  }

  class TxnManager {
    var base: Txnid
    var next: Txnid
    var recs: seq<XRec>
    var active: seq<Txnid>

    ghost function View(): Registry
      reads this
    {
      Registry(base, next, Table(recs))
    }

    /** The record table covers this session's ids once each; the active list is the ACTIVE ids. */
    ghost predicate Valid()
      reads this
    {
      && DistinctIds(recs) && ValidRegistry(View())
      && Distinct(active) && forall x :: x in active <==> StateOf(View(), x) == Active
    }

    constructor (maxTxnid: Txnid)
      ensures Valid() && View() == Registry(maxTxnid, maxTxnid + 1, map[])
    {
      base, next := maxTxnid, maxTxnid + 1;
      recs, active := [], [];
    }

    method SetState(id: Txnid, st: XState)
      requires DistinctIds(recs)
      modifies this`recs
      ensures DistinctIds(recs) && Table(recs) == old(Table(recs))[id := st]
    {
      for i := 0 to |recs|
        invariant recs == old(recs)
        invariant forall j :: 0 <= j < i ==> recs[j].id != id
      {
        if recs[i].id == id {
          TableSet(recs, i, st);
          recs := recs[i := XRec(recs[i].id, st)];
          return;
        }
      }
      TableAdd(recs, id, st);
      recs := recs + [XRec(id, st)];
    }

    method State(xid: Txnid) returns (st: XState)
      requires Valid()
      ensures st == StateOf(View(), xid)
    {
      if xid == 0 { return Aborted; }
      if xid <= base { return Committed; }
      TableHas(recs, xid);
      for i := 0 to |recs|
        invariant forall j :: 0 <= j < i ==> recs[j].id != xid
      {
        if recs[i].id == xid {
          TableAt(recs, i);
          return recs[i].state;
        }
      }
      return Aborted;
    }

    /** Takes one id out by moving the last one into its place. */
    method ActiveRemove(id: Txnid)
      requires Distinct(active)
      modifies this`active
      ensures Distinct(active)
      ensures forall x :: x in active <==> x in old(active) && x != id
    {
      for i := 0 to |active|
        invariant active == old(active)
        invariant id !in active[..i]
      {
        if active[i] == id {
          var n := |active| - 1;
          SwapOut(active, i);
          active := active[i := active[n]][..n];
          return;
        }
      }
    }

    method TakeSnapshot(id: Txnid) returns (s: Snapshot)
      requires Valid()
      ensures s.self == id && TakenIn(View(), s)
    {
      s := Snapshot(id, next, active);
    }

    /** A new transaction: the next id, active, with a snapshot that lists it and every other active id. */
    method Begin() returns (id: Txnid, s: Snapshot)
      requires Valid()
      modifies this
      ensures Valid() && View() == Apply(old(View()), Began)
      ensures id == old(next) && s.self == id && TakenIn(View(), s) && SnapshotOf(View(), s)
    {
      id := next;
      assert id !in active by { assert StateOf(View(), id) != Active; }
      next := next + 1;
      SetState(id, Active);
      active := active + [id];
      s := TakeSnapshot(id);
    }

    /** Commit or rollback, after the pager did its part. */
    method End(id: Txnid, how: XState)
      requires Valid() && StateOf(View(), id) == Active && how != Active
      modifies this
      ensures Valid() && View() == Apply(old(View()), Ended(id, how))
    {
      SetState(id, how);
      ActiveRemove(id);
    }

    method IsVisible(s: Snapshot, xmin: Txnid, xmax: Txnid) returns (vis: bool)
      requires Valid()
      ensures vis == Visible(View(), s, xmin, xmax)
    {
      var v := IsXidVisible(s, xmin);
      if !v { return false; }
      if xmax == 0 { return true; }
      if xmax == s.self { return false; }
      v := IsXidVisible(s, xmax);
      return !v;
    }

    method IsXidVisible(s: Snapshot, xid: Txnid) returns (vis: bool)
      requires Valid()
      ensures vis == XidVisible(View(), s, xid)
    {
      if xid == s.self { return true; }
      var st := State(xid);
      if st != Committed { return false; }
      if xid >= s.xmax { return false; }
      var a := InActive(s, xid);
      return !a;
    }
  }

  lemma SwapOut(s: seq<Txnid>, i: nat)
    requires Distinct(s) && i < |s|
    ensures var r := s[i := s[|s| - 1]][..|s| - 1];
            Distinct(r) && forall x :: x in r <==> x in s && x != s[i]
  {
    var n := |s| - 1;
    var r := s[i := s[n]][..n];
    assert forall j :: 0 <= j < |r| ==> r[j] == if j == i then s[n] else s[j];
    forall x ensures x in r <==> x in s && x != s[i] {
      if x in s && x != s[i] {
        var j :| 0 <= j < |s| && s[j] == x;
        assert r[if j == n then i else j] == x;
      }
    }
  }
}
