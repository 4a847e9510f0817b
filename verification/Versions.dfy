/**
 Row versions as the row engine stores them: the live version of a row in the main tree,
 older versions in the history tree, linked by version ids that only go down.
 */
module Versions {
  import opened Basics
  import opened Mvcc

  type Rowid = nat
  type Vid = nat

  /** `xmax` 0 means live; `prev` 0 means there is no older version. */
  datatype Version<R> = Version(xmin: Txnid, xmax: Txnid, prev: Vid, rec: R)

  datatype Rows<R> = Rows(main: map<Rowid, Version<R>>, hist: map<Vid, Version<R>>)

  // ------------------------------- operations -------------------------------

  ghost function InsertRow<R>(t: Rows<R>, w: Txnid, r: Rowid, rec: R): Rows<R> {
    t.(main := t.main[r := Version(w, 0, 0, rec)])
  }

  /** The old version moves to the history under `vid`, marked as superseded. */
  ghost function UpdateRow<R>(t: Rows<R>, w: Txnid, r: Rowid, rec: R, vid: Vid): Rows<R>
    requires r in t.main
  {
    Rows(t.main[r := Version(w, 0, vid, rec)], t.hist[vid := t.main[r].(xmax := w)])
  }

  /** A tombstone: the version stays, marked as deleted. */
  ghost function RemoveRow<R>(t: Rows<R>, w: Txnid, r: Rowid): Rows<R>
    requires r in t.main
  {
    t.(main := t.main[r := t.main[r].(xmax := w)])
  }

  /** One more than the largest version id in use. */
  ghost predicate NextVid<R>(hist: map<Vid, Version<R>>, vid: Vid) {
    vid > 0 && vid !in hist && (forall v :: v in hist ==> v < vid) && (vid == 1 || vid - 1 in hist)
  }

  // -------------------------------- invariants --------------------------------

  /** A version's predecessor exists, is older, and was superseded by the version's creator. */
  ghost predicate LinkOk<R>(hist: map<Vid, Version<R>>, v: Version<R>) {
    v.prev != 0 ==> v.prev in hist && hist[v.prev].xmax == v.xmin
  }

  ghost predicate WellChained<R(!new)>(t: Rows<R>) {
    && 0 !in t.hist
    && (forall v :: v in t.hist ==> t.hist[v].prev < v && LinkOk(t.hist, t.hist[v]))
    && (forall r :: r in t.main ==> LinkOk(t.hist, t.main[r]))
  }

  /** Whoever sees a version's creator sees the creators of all older versions. */
  ghost predicate LinkClosed<R>(hist: map<Vid, Version<R>>, v: Version<R>, seen: iset<Txnid>) {
    v.prev in hist && v.xmin in seen ==> hist[v.prev].xmin in seen
  }

  ghost predicate Closed<R>(t: Rows<R>, seen: iset<Txnid>) {
    && (forall v :: v in t.hist ==> LinkClosed(t.hist, t.hist[v], seen))
    && (forall r :: r in t.main ==> LinkClosed(t.hist, t.main[r], seen))
  }

  // --------------------------------- resolving ---------------------------------

  /** The record of the first version in the chain from v that the ids in `seen` show. */
  ghost function Resolve<R>(hist: map<Vid, Version<R>>, v: Version<R>, seen: iset<Txnid>): Option<R>
    decreases v.prev
  {
    if Shows(seen, v.xmin, v.xmax) then Some(v.rec)
    else if v.prev in hist && hist[v.prev].prev < v.prev then Resolve(hist, hist[v.prev], seen)
    else None
  }

  ghost function Lookup<R>(t: Rows<R>, r: Rowid, seen: iset<Txnid>): Option<R> {
    if r in t.main then Resolve(t.hist, t.main[r], seen) else None
  }

  ghost predicate Same<R>(t: Rows<R>, t': Rows<R>, seen: iset<Txnid>) {
    forall r :: Lookup(t, r, seen) == Lookup(t', r, seen)
  }

  /** Nothing is visible below a version whose creator is seen. */
  lemma {:induction false} OlderHidden<R(!new)>(t: Rows<R>, v: Version<R>, seen: iset<Txnid>)
    requires WellChained(t) && Closed(t, seen) && 0 !in seen
    requires v.prev in t.hist && LinkOk(t.hist, v) && LinkClosed(t.hist, v, seen) && v.xmin in seen
    ensures Resolve(t.hist, t.hist[v.prev], seen) == None
    decreases v.prev
  {
    var o := t.hist[v.prev];
    if o.prev in t.hist {
      OlderHidden(t, o, seen);
    }
  }

  /** The versions of a chain, newest first. */
  ghost function Chain<R>(hist: map<Vid, Version<R>>, v: Version<R>): seq<Version<R>>
    decreases v.prev
  {
    if v.prev in hist && hist[v.prev].prev < v.prev then [v] + Chain(hist, hist[v.prev]) else [v]
  }

  ghost predicate ShowsAt<R>(c: seq<Version<R>>, i: int, seen: iset<Txnid>) {
    0 <= i < |c| && Shows(seen, c[i].xmin, c[i].xmax)
  }

  /** At most one version of a chain is visible, and resolving returns it. */
  lemma {:induction false} OneVisible<R(!new)>(t: Rows<R>, v: Version<R>, seen: iset<Txnid>, i: nat, j: nat)
    requires WellChained(t) && Closed(t, seen) && LinkOk(t.hist, v) && LinkClosed(t.hist, v, seen) && 0 !in seen
    requires ShowsAt(Chain(t.hist, v), i, seen) && ShowsAt(Chain(t.hist, v), j, seen)
    ensures i == j && Resolve(t.hist, v, seen) == Some(Chain(t.hist, v)[i].rec)
    decreases v.prev
  {
    if v.prev in t.hist {
      var o := t.hist[v.prev];
      var c := Chain(t.hist, o);
      assert forall x :: x > 0 ==> (ShowsAt(Chain(t.hist, v), x, seen) <==> ShowsAt(c, x - 1, seen));
      if v.xmin in seen {
        OlderHidden(t, v, seen);
        ShownIsFound(t, o, seen, if i > 0 then i - 1 else if j > 0 then j - 1 else 0);
      } else {
        OneVisible(t, o, seen, i - 1, j - 1);
      }
    }
  }

  lemma {:induction false} ShownIsFound<R(!new)>(t: Rows<R>, v: Version<R>, seen: iset<Txnid>, i: nat)
    requires WellChained(t)
    ensures ShowsAt(Chain(t.hist, v), i, seen) ==> Resolve(t.hist, v, seen).Some?
    decreases v.prev
  {
    if i > 0 && v.prev in t.hist && t.hist[v.prev].prev < v.prev {
      ShownIsFound(t, t.hist[v.prev], seen, i - 1);
      assert Chain(t.hist, v)[1..] == Chain(t.hist, t.hist[v.prev]);
    }
  }

  // -------------------------- steps, seen from outside --------------------------

  /** A new history entry does not change what older chains resolve to. */
  lemma {:induction false} HistGrows<R(!new)>(t: Rows<R>, vid: Vid, o: Version<R>, v: Version<R>, seen: iset<Txnid>)
    requires WellChained(t) && NextVid(t.hist, vid) && LinkOk(t.hist, v)
    ensures v.prev != vid && Resolve(t.hist[vid := o], v, seen) == Resolve(t.hist, v, seen)
    decreases v.prev
  {
    if v.prev in t.hist {
      HistGrows(t, vid, o, t.hist[v.prev], seen);
    }
  }

  lemma UpdatedOthers<R(!new)>(t: Rows<R>, w: Txnid, r: Rowid, rec: R, vid: Vid, q: Rowid, seen: iset<Txnid>)
    requires WellChained(t) && NextVid(t.hist, vid) && r in t.main && q != r
    ensures Lookup(UpdateRow(t, w, r, rec, vid), q, seen) == Lookup(t, q, seen)
  {
    if q in t.main {
      HistGrows(t, vid, t.main[r].(xmax := w), t.main[q], seen);
    }
  }

  /** Who does not see the writer sees the same rows before and after a write. */
  lemma WriteHidden<R(!new)>(t: Rows<R>, w: Txnid, r: Rowid, rec: R, vid: Vid, seen: iset<Txnid>)
    requires WellChained(t) && w !in seen
    ensures r !in t.main ==> Same(InsertRow(t, w, r, rec), t, seen)
    ensures r in t.main && t.main[r].xmax == 0 ==> Same(RemoveRow(t, w, r), t, seen)
    ensures r in t.main && t.main[r].xmax == 0 && NextVid(t.hist, vid) ==> Same(UpdateRow(t, w, r, rec, vid), t, seen)
  {
    if r in t.main && t.main[r].xmax == 0 && NextVid(t.hist, vid) {
      var t' := UpdateRow(t, w, r, rec, vid);
      var o := t.main[r].(xmax := w);
      forall q ensures Lookup(t', q, seen) == Lookup(t, q, seen) {
        if q != r {
          UpdatedOthers(t, w, r, rec, vid, q, seen);
        } else {
          HistGrows(t, vid, o, t.main[r], seen);
          OldVersionShows(t, vid, t.main[r], w, seen);
        }
      }
    }
  }

  lemma OldVersionShows<R(!new)>(t: Rows<R>, vid: Vid, v: Version<R>, w: Txnid, seen: iset<Txnid>)
    requires WellChained(t) && NextVid(t.hist, vid) && LinkOk(t.hist, v) && w !in seen && v.xmax == 0
    ensures var h := t.hist[vid := v.(xmax := w)]; Resolve(h, v.(xmax := w), seen) == Resolve(h, v, seen)
  {
  }

  /** Who sees the writer sees the row as written, and every other row as before. */
  ghost predicate Wrote<R>(t: Rows<R>, t': Rows<R>, seen: iset<Txnid>, r: Rowid, what: Option<R>) {
    Lookup(t', r, seen) == what && forall q :: q != r ==> Lookup(t', q, seen) == Lookup(t, q, seen)
  }

  lemma InsertSeen<R(!new)>(t: Rows<R>, w: Txnid, r: Rowid, rec: R, seen: iset<Txnid>)
    requires WellChained(t) && Closed(t, seen) && w in seen && r !in t.main
    ensures Closed(InsertRow(t, w, r, rec), seen) && Wrote(t, InsertRow(t, w, r, rec), seen, r, Some(rec))
  {
  }

  lemma RemoveSeen<R(!new)>(t: Rows<R>, w: Txnid, r: Rowid, seen: iset<Txnid>)
    requires WellChained(t) && Closed(t, seen) && w in seen && 0 !in seen && r in t.main && t.main[r].xmin in seen
    ensures Closed(RemoveRow(t, w, r), seen) && Wrote(t, RemoveRow(t, w, r), seen, r, None)
  {
    if t.main[r].prev in t.hist {
      OlderHidden(t, t.main[r], seen);
    }
  }

  lemma UpdateSeen<R(!new)>(t: Rows<R>, w: Txnid, r: Rowid, rec: R, vid: Vid, seen: iset<Txnid>)
    requires WellChained(t) && Closed(t, seen) && NextVid(t.hist, vid)
    requires w in seen && r in t.main && t.main[r].xmin in seen
    ensures Closed(UpdateRow(t, w, r, rec, vid), seen) && Wrote(t, UpdateRow(t, w, r, rec, vid), seen, r, Some(rec))
  {
    forall q | q != r ensures Lookup(UpdateRow(t, w, r, rec, vid), q, seen) == Lookup(t, q, seen) {
      UpdatedOthers(t, w, r, rec, vid, q, seen);
    }
    UpdateClosed(t, w, r, rec, vid, seen);
  }

  /** Sets that already contain the creator of the replaced version stay closed. */
  lemma UpdateClosed<R(!new)>(t: Rows<R>, w: Txnid, r: Rowid, rec: R, vid: Vid, seen: iset<Txnid>)
    requires WellChained(t) && Closed(t, seen) && NextVid(t.hist, vid) && r in t.main
    requires w in seen ==> t.main[r].xmin in seen
    ensures Closed(UpdateRow(t, w, r, rec, vid), seen)
  {
    var t' := UpdateRow(t, w, r, rec, vid);
    forall v | v in t'.hist ensures LinkClosed(t'.hist, t'.hist[v], seen) {
      if v != vid { assert LinkClosed(t.hist, t.hist[v], seen) && LinkOk(t.hist, t.hist[v]); } else { assert LinkClosed(t.hist, t.main[r], seen); }
    }
    forall q | q in t'.main ensures LinkClosed(t'.hist, t'.main[q], seen) {
      if q != r { assert LinkClosed(t.hist, t.main[q], seen) && LinkOk(t.hist, t.main[q]); }
    }
  }

  lemma ChainsKept<R(!new)>(t: Rows<R>, w: Txnid, r: Rowid, rec: R, vid: Vid)
    requires WellChained(t)
    ensures r !in t.main ==> WellChained(InsertRow(t, w, r, rec))
    ensures r in t.main ==> WellChained(RemoveRow(t, w, r))
    ensures r in t.main && NextVid(t.hist, vid) ==> WellChained(UpdateRow(t, w, r, rec, vid))
  {
    if r in t.main && NextVid(t.hist, vid) {
      var t' := UpdateRow(t, w, r, rec, vid);
      forall v | v in t'.hist ensures t'.hist[v].prev < v && LinkOk(t'.hist, t'.hist[v]) {
        if v != vid { assert LinkOk(t.hist, t.hist[v]); } else { assert LinkOk(t.hist, t.main[r]); }
      }
      forall q | q in t'.main ensures LinkOk(t'.hist, t'.main[q]) {
        if q != r { assert LinkOk(t.hist, t.main[q]); }
      }
    }
  }
}
