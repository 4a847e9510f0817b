/**
 Snapshots, visibility, and the transaction registry that decides commit states.

 `Registry` is the abstract value of a `TxnManager`: which ids were handed out and how each
 ended. The stability theorems are about every run of the registry.
 */
module Mvcc {
  type Txnid = nat

  datatype XState = Active | Committed | Aborted

  /** `self` is the owner, `xmax` one past the highest id handed out when it was taken. */
  datatype Snapshot = Snapshot(self: Txnid, xmax: Txnid, active: seq<Txnid>)

  /** Ids up to `base` committed in earlier sessions; `state` covers base+1 .. next-1. */
  datatype Registry = Registry(base: Txnid, next: Txnid, state: map<Txnid, XState>)

  ghost predicate ValidRegistry(r: Registry) {
    && r.base < r.next
    && (forall x :: x in r.state <==> r.base < x < r.next)
  }

  function StateOf(r: Registry, xid: Txnid): XState {
    if xid == 0 then Aborted
    else if xid <= r.base then Committed
    else if xid in r.state then r.state[xid]
    else Aborted
  }

  // ------------------------------- visibility -------------------------------

  predicate XidVisible(r: Registry, s: Snapshot, xid: Txnid) {
    if xid == s.self then true
    else if StateOf(r, xid) != Committed then false
    else if xid >= s.xmax then false
    else xid !in s.active
  }

  predicate Visible(r: Registry, s: Snapshot, xmin: Txnid, xmax: Txnid) {
    if !XidVisible(r, s, xmin) then false
    else if xmax == 0 then true
    else if xmax == s.self then false
    else !XidVisible(r, s, xmax)
  }

  predicate VisibleAsOf(r: Registry, xmin: Txnid, xmax: Txnid, asof: Txnid) {
    if StateOf(r, xmin) != Committed then false
    else if xmin > asof then false
    else if xmax == 0 then true
    else !(StateOf(r, xmax) == Committed && xmax <= asof)
  }

  /** The ids whose effects a snapshot observes. */
  ghost function Seen(r: Registry, s: Snapshot): iset<Txnid> {
    iset x: Txnid | XidVisible(r, s, x)
  }

  /** The ids whose effects AS OF v observes. */
  ghost function SeenAsOf(r: Registry, asof: Txnid): iset<Txnid> {
    iset x: Txnid | StateOf(r, x) == Committed && x <= asof
  }

  /** A version is visible when its creator is seen and its deleter, if any, is not. */
  ghost predicate Shows(seen: iset<Txnid>, xmin: Txnid, xmax: Txnid) {
    xmin in seen && (xmax == 0 || xmax !in seen)
  }

  /** Both visibility rules are that one rule, each for its own set of ids. */
  lemma VisibleIsShows(r: Registry, s: Snapshot, asof: Txnid, xmin: Txnid, xmax: Txnid)
    ensures Visible(r, s, xmin, xmax) <==> Shows(Seen(r, s), xmin, xmax)
    ensures VisibleAsOf(r, xmin, xmax, asof) <==> Shows(SeenAsOf(r, asof), xmin, xmax)
  {
  }

  // ---------------------------------- runs ----------------------------------

  datatype Event = Began | Ended(xid: Txnid, how: XState)

  ghost predicate Enabled(r: Registry, e: Event) {
    match e
    case Began => true
    case Ended(xid, how) => StateOf(r, xid) == Active && how != Active
  }

  ghost function Apply(r: Registry, e: Event): Registry {
    match e
    case Began => Registry(r.base, r.next + 1, r.state[r.next := Active])
    case Ended(xid, how) => r.(state := r.state[xid := how])
  }

  ghost predicate Run(r: Registry, es: seq<Event>, r': Registry)
    decreases |es|
  {
    if es == [] then r' == r else Enabled(r, es[0]) && Run(Apply(r, es[0]), es[1..], r')
  }

  /** A snapshot as the manager takes it: it lists exactly the active ids. */
  ghost predicate TakenIn(r: Registry, s: Snapshot) {
    s.xmax == r.next && forall x :: x in s.active <==> StateOf(r, x) == Active
  }

  /** A snapshot that was taken earlier in the run: every id below its bound was active then, or is finished. */
  ghost predicate SnapshotOf(r: Registry, s: Snapshot) {
    s.xmax <= r.next && forall x :: 0 < x < s.xmax && StateOf(r, x) == Active ==> x in s.active
  }

  lemma RegistryKept(r: Registry, e: Event)
    requires ValidRegistry(r) && Enabled(r, e)
    ensures ValidRegistry(Apply(r, e))
  {
  }

  /** One step changes neither what a snapshot sees nor that it is a snapshot of the run. */
  lemma SeenKept(r: Registry, s: Snapshot, e: Event)
    requires ValidRegistry(r) && Enabled(r, e) && SnapshotOf(r, s)
    ensures SnapshotOf(Apply(r, e), s)
    ensures Seen(Apply(r, e), s) == Seen(r, s)
  {
    var r' := Apply(r, e);
    forall x: Txnid ensures XidVisible(r', s, x) <==> XidVisible(r, s, x) {
      if x != s.self && x < s.xmax && x !in s.active {
        assert StateOf(r, x) != Active || x == 0;
      }
    }
  }

  /** Whatever transactions begin, commit or abort later, a snapshot's answer for a version never changes. */
  lemma {:induction false} VisibilityStable(r: Registry, s: Snapshot, es: seq<Event>, r': Registry, xmin: Txnid,
                                            xmax: Txnid)
    requires ValidRegistry(r) && SnapshotOf(r, s) && Run(r, es, r')
    ensures Visible(r', s, xmin, xmax) == Visible(r, s, xmin, xmax)
    decreases |es|
  {
    if es != [] {
      var r1 := Apply(r, es[0]);
      RegistryKept(r, es[0]);
      SeenKept(r, s, es[0]);
      VisibilityStable(r1, s, es[1..], r', xmin, xmax);
      VisibleIsShows(r, s, 0, xmin, xmax);
      VisibleIsShows(r1, s, 0, xmin, xmax);
    }
  }

  ghost predicate Finished(r: Registry, v: Txnid) {
    v < r.next && forall x :: 0 < x <= v ==> StateOf(r, x) != Active
  }

  lemma {:induction false} FinishedKept(r: Registry, v: Txnid, es: seq<Event>, r': Registry)
    requires ValidRegistry(r) && Finished(r, v) && Run(r, es, r')
    ensures SeenAsOf(r', v) == SeenAsOf(r, v)
    decreases |es|
  {
    if es != [] {
      var r1 := Apply(r, es[0]);
      RegistryKept(r, es[0]);
      forall x | 0 <= x <= v ensures StateOf(r1, x) == StateOf(r, x) {
      }
      FinishedKept(r1, v, es[1..], r');
    }
  }

  /**
   AS OF v gives the same answer for every version after every later run if and only if
   v was handed out and no id up to v is still active.
   */
  lemma AsOfStableIff(r: Registry, v: Txnid)
    requires ValidRegistry(r)
    ensures Finished(r, v)
       <==> forall es, r', xmin, xmax :: Run(r, es, r') ==> VisibleAsOf(r', xmin, xmax, v) == VisibleAsOf(r, xmin, xmax, v)
  {
    if Finished(r, v) {
      forall es, r', xmin, xmax | Run(r, es, r')
        ensures VisibleAsOf(r', xmin, xmax, v) == VisibleAsOf(r, xmin, xmax, v)
      {
        FinishedKept(r, v, es, r');
        var s := Snapshot(0, 0, []);
        VisibleIsShows(r, s, v, xmin, xmax);
        VisibleIsShows(r', s, v, xmin, xmax);
      }
    } else {
      AsOfUnstable(r, v);
    }
  }

  /** An unfinished id up to v can still commit and bring its versions into AS OF v. */
  lemma AsOfUnstable(r: Registry, v: Txnid)
    requires ValidRegistry(r) && !Finished(r, v)
    ensures exists es, r', xmin, xmax :: Run(r, es, r') && VisibleAsOf(r', xmin, xmax, v) != VisibleAsOf(r, xmin, xmax, v)
  {
    if x :| 0 < x <= v && StateOf(r, x) == Active {
      var e := Ended(x, Committed);
      RunOne(r, e);
      assert VisibleAsOf(Apply(r, e), x, 0, v) && !VisibleAsOf(r, x, 0, v);
    } else {
      var r1 := Apply(r, Began);
      var e := Ended(r.next, Committed);
      var r2 := Apply(r1, e);
      RunOne(r1, e);
      assert [Began, e][1..] == [e];
      assert Run(r, [Began, e], r2);
      assert VisibleAsOf(r2, r.next, 0, v) && !VisibleAsOf(r, r.next, 0, v);
    }
  }

  lemma RunOne(r: Registry, e: Event)
    requires Enabled(r, e)
    ensures Run(r, [e], Apply(r, e))
  {
    assert [e][1..] == [];
  }
}
