/**
 Snapshot isolation over every run of one writer at a time and any number of readers.

 `Db` is what the engine keeps: the registry, the physical rows as the shared cache shows
 them, the rows the last commit made durable, and the open snapshots. `Spec` is the simple
 story: one committed table, the committed table each transaction started from, and the
 writes of the transaction that is writing. The theorem is that they agree.
 */
module SnapshotIsolation {
  import opened Basics
  import opened Mvcc
  import opened Versions

  datatype Db<R> = Db(reg: Registry, cur: Rows<R>, saved: Rows<R>, writer: Option<Txnid>,
                      writable: set<Txnid>, snaps: map<Txnid, Snapshot>)

  datatype Spec<R> = Spec(committed: map<Rowid, R>, base: map<Txnid, map<Rowid, R>>, own: map<Rowid, Option<R>>)

  datatype Op<R> =
    | OpBegin(canWrite: bool)
    | OpRefresh(t: Txnid)
    | OpInsert(t: Txnid, r: Rowid, rec: R)
    | OpUpdate(t: Txnid, r: Rowid, rec: R, vid: Vid)
    | OpRemove(t: Txnid, r: Rowid)
    | OpCommit(t: Txnid)
    | OpRollback(t: Txnid)

  // ------------------------------ engine steps ------------------------------

  ghost predicate MayWrite<R>(d: Db<R>, t: Txnid) {
    t in d.snaps && t in d.writable && (d.writer == None || d.writer == Some(t))
  }

  /** The row's newest version is live and its creator is visible to t. */
  ghost predicate SeesLive<R>(d: Db<R>, t: Txnid, r: Rowid) {
    t in d.snaps && r in d.cur.main && d.cur.main[r].xmax == 0 && XidVisible(d.reg, d.snaps[t], d.cur.main[r].xmin)
  }

  /**
   The discipline: one transaction at a time has uncommitted changes; inserts go to fresh
   rowids; updates and removes go to live versions the writer sees; and a writable
   transaction ends only while no other one has uncommitted changes, because ending it
   commits or discards every dirty page.
   */
  ghost predicate Allowed<R>(d: Db<R>, op: Op<R>) {
    match op
    case OpBegin(_) => true
    case OpRefresh(t) => t in d.snaps
    case OpInsert(t, r, _) => MayWrite(d, t) && r !in d.cur.main
    case OpUpdate(t, r, _, vid) => MayWrite(d, t) && SeesLive(d, t, r) && NextVid(d.cur.hist, vid)
    case OpRemove(t, r) => MayWrite(d, t) && SeesLive(d, t, r)
    case OpCommit(t) => EndsAlone(d, t)
    case OpRollback(t) => EndsAlone(d, t)
  }

  ghost predicate EndsAlone<R>(d: Db<R>, t: Txnid) {
    t in d.snaps && (t in d.writable ==> d.writer == None || d.writer == Some(t))
  }

  ghost function Snap(reg: Registry, t: Txnid): Snapshot
    requires ValidRegistry(reg)
  {
    Snapshot(t, reg.next, ActiveIds(reg, reg.next))
  }

  ghost function ActiveIds(reg: Registry, n: nat): (s: seq<Txnid>)
    ensures forall x: Txnid :: x in s <==> x < n && StateOf(reg, x) == Active
  {
    if n == 0 then [] else ActiveIds(reg, n - 1) + if StateOf(reg, n - 1) == Active then [n - 1] else []
  }

  ghost function Do<R>(d: Db<R>, op: Op<R>): Db<R>
    requires Allowed(d, op) && ValidRegistry(d.reg)
  {
    match op
    case OpBegin(canWrite) =>
      var reg := Apply(d.reg, Began);
      RegistryKept(d.reg, Began);
      var t := d.reg.next;
      d.(reg := reg, snaps := d.snaps[t := Snap(reg, t)], writable := if canWrite then d.writable + {t} else d.writable)
    case OpRefresh(t) => d.(snaps := d.snaps[t := Snap(d.reg, t)])
    case OpInsert(t, r, rec) => d.(cur := InsertRow(d.cur, t, r, rec), writer := Some(t))
    case OpUpdate(t, r, rec, vid) => d.(cur := UpdateRow(d.cur, t, r, rec, vid), writer := Some(t))
    case OpRemove(t, r) => d.(cur := RemoveRow(d.cur, t, r), writer := Some(t))
    case OpCommit(t) => Closing(d, t, Committed).(saved := if t in d.writable then d.cur else d.saved)
    case OpRollback(t) => Closing(d, t, Aborted).(cur := if t in d.writable then d.saved else d.cur)
  }

  ghost function Closing<R>(d: Db<R>, t: Txnid, how: XState): Db<R> {
    d.(reg := Apply(d.reg, Ended(t, how)), snaps := d.snaps - {t}, writable := d.writable - {t},
       writer := if d.writer == Some(t) then None else d.writer)
  }

  // ------------------------------- the simple story -------------------------------

  ghost function Get<R>(m: map<Rowid, R>, r: Rowid): Option<R> {
    if r in m then Some(m[r]) else None
  }

  /** A table with the writes put over it. */
  ghost function Overlay<R>(m: map<Rowid, R>, own: map<Rowid, Option<R>>): map<Rowid, R> {
    map r | r in m.Keys + own.Keys && (r in own ==> own[r].Some?) :: if r in own then own[r].value else m[r]
  }

  ghost function Tell<R>(a: Spec<R>, d: Db<R>, op: Op<R>): Spec<R> {
    match op
    case OpBegin(_) => a.(base := a.base[d.reg.next := a.committed])
    case OpRefresh(t) => a.(base := a.base[t := a.committed])
    case OpInsert(t, r, rec) => a.(own := a.own[r := Some(rec)])
    case OpUpdate(t, r, rec, _) => a.(own := a.own[r := Some(rec)])
    case OpRemove(t, r) => a.(own := a.own[r := None])
    case OpCommit(t) =>
      if d.writer == Some(t) then Spec(Overlay(a.committed, a.own), a.base - {t}, map[]) else a.(base := a.base - {t})
    case OpRollback(t) =>
      if d.writer == Some(t) then Spec(a.committed, a.base - {t}, map[]) else a.(base := a.base - {t})
  }

  /** What transaction t reads for row r, by the simple story. */
  ghost function Reads<R>(a: Spec<R>, d: Db<R>, t: Txnid, r: Rowid): Option<R>
    requires t in a.base
  {
    if d.writer == Some(t) && r in a.own then a.own[r] else Get(a.base[t], r)
  }

  // --------------------------------- invariant ---------------------------------

  ghost function CommittedIds(reg: Registry): iset<Txnid> {
    iset x: Txnid | StateOf(reg, x) == Committed
  }

  ghost predicate IdOk(ids: iset<Txnid>, xmin: Txnid, xmax: Txnid) {
    xmin in ids && (xmax == 0 || xmax in ids)
  }

  /** Every id stored in a version is one of `ids`. */
  ghost predicate IdsIn<R>(t: Rows<R>, ids: iset<Txnid>) {
    && (forall v :: v in t.hist ==> IdOk(ids, t.hist[v].xmin, t.hist[v].xmax))
    && (forall r :: r in t.main ==> IdOk(ids, t.main[r].xmin, t.main[r].xmax))
  }

  ghost predicate Shown<R>(t: Rows<R>, seen: iset<Txnid>, m: map<Rowid, R>) {
    forall r :: Lookup(t, r, seen) == Get(m, r)
  }

  /** Over the saved rows, `seen` shows the writer's own writes. */
  ghost predicate OwnShown<R>(cur: Rows<R>, saved: Rows<R>, own: map<Rowid, Option<R>>, seen: iset<Txnid>) {
    && Closed(cur, seen)
    && forall r :: Lookup(cur, r, seen) == if r in own then own[r] else Lookup(saved, r, seen)
  }

  ghost predicate SnapsOk<R>(d: Db<R>) {
    && ValidRegistry(d.reg)
    && (forall t :: t in d.snaps <==> StateOf(d.reg, t) == Active)
    && (forall t :: t in d.snaps ==> d.snaps[t].self == t && SnapshotOf(d.reg, d.snaps[t]))
    && d.writable <= d.snaps.Keys
    && (d.writer.Some? ==> d.writer.value in d.snaps && d.writer.value in d.writable)
  }

  ghost predicate SavedOk<R(!new)>(d: Db<R>, a: Spec<R>) {
    && WellChained(d.saved) && IdsIn(d.saved, CommittedIds(d.reg))
    && Shown(d.saved, CommittedIds(d.reg), a.committed)
    && a.base.Keys == d.snaps.Keys
    && (forall t :: t in d.snaps ==> Closed(d.saved, Seen(d.reg, d.snaps[t])) && Shown(d.saved, Seen(d.reg, d.snaps[t]), a.base[t]))
  }

  ghost predicate CurOk<R(!new)>(d: Db<R>, a: Spec<R>) {
    match d.writer
    case None => d.cur == d.saved && a.own == map[]
    case Some(w) =>
      && w in d.snaps
      && WellChained(d.cur) && IdsIn(d.cur, CommittedIds(d.reg) + iset{w})
      && d.saved.main.Keys <= d.cur.main.Keys
      && (forall seen: iset<Txnid> :: w !in seen ==> Same(d.cur, d.saved, seen))
      && (forall seen: iset<Txnid> :: w !in seen && Closed(d.saved, seen) ==> Closed(d.cur, seen))
      && OwnShown(d.cur, d.saved, a.own, Seen(d.reg, d.snaps[w]))
      && OwnShown(d.cur, d.saved, a.own, CommittedIds(d.reg) + iset{w})
  }

  ghost predicate Inv<R(!new)>(d: Db<R>, a: Spec<R>) {
    SnapsOk(d) && SavedOk(d, a) && CurOk(d, a)
  }

  // -------------------------------- the theorem --------------------------------

  /** The visible version of each row is what the simple story says, for every open transaction. */
  lemma ReadsAgree<R(!new)>(d: Db<R>, a: Spec<R>, t: Txnid, r: Rowid)
    requires Inv(d, a) && t in d.snaps
    ensures t in a.base && Lookup(d.cur, r, Seen(d.reg, d.snaps[t])) == Reads(a, d, t, r)
  {
    hide Lookup, Closed, WellChained, IdsIn, Seen;
    var seen := Seen(d.reg, d.snaps[t]);
    if d.writer.Some? && d.writer.value != t {
      WriterUnseen(d, t);
      assert Same(d.cur, d.saved, seen);
    }
    assert Shown(d.saved, seen, a.base[t]);
  }

  lemma WriterUnseen<R>(d: Db<R>, t: Txnid)
    requires SnapsOk(d) && t in d.snaps && d.writer.Some? && d.writer.value != t
    ensures d.writer.value !in Seen(d.reg, d.snaps[t])
  {
  }

  ghost function NewDb<R>(base: Txnid, rows: Rows<R>): Db<R> {
    Db(Registry(base, base + 1, map[]), rows, rows, None, {}, map[])
  }

  /** Every id stored in a version lies in 1..base. */
  ghost predicate StoredUpTo<R>(t: Rows<R>, base: Txnid) {
    && (forall v :: v in t.hist ==> 0 < t.hist[v].xmin <= base && t.hist[v].xmax <= base)
    && (forall r :: r in t.main ==> 0 < t.main[r].xmin <= base && t.main[r].xmax <= base)
  }

  /** The newest record of every row that no one has removed. */
  ghost function LiveRecords<R>(t: Rows<R>): map<Rowid, R> {
    map r | r in t.main && t.main[r].xmax == 0 :: t.main[r].rec
  }

  /** Whoever sees every stored id reads the live newest records. */
  lemma LiveShown<R(!new)>(t: Rows<R>, ids: iset<Txnid>)
    requires WellChained(t) && IdsIn(t, ids) && 0 !in ids
    ensures Shown(t, ids, LiveRecords(t))
  {
    AllSeenClosed(t, ids, ids);
    forall r ensures Lookup(t, r, ids) == Get(LiveRecords(t), r) {
      if r in t.main && t.main[r].xmax != 0 && t.main[r].prev in t.hist {
        OlderHidden(t, t.main[r], ids);
      }
    }
  }

  /** A database opened over rows of earlier sessions shows their live newest records. */
  lemma InitInv<R(!new)>(base: Txnid, rows: Rows<R>)
    requires WellChained(rows) && StoredUpTo(rows, base)
    ensures Inv(NewDb(base, rows), Spec(LiveRecords(rows), map[], map[]))
  {
    hide Lookup, WellChained, LiveRecords;
    LiveShown(rows, CommittedIds(NewDb(base, rows).reg));
  }

  /** A new database. */
  lemma EmptyInv<R(!new)>(base: Txnid)
    ensures Inv(NewDb(base, Rows<R>.Rows(map[], map[])), Spec<R>.Spec(map[], map[], map[]))
  {
    var none: Rows<R> := Rows(map[], map[]);
    assert LiveRecords(none) == map[];
    InitInv(base, none);
  }

  // ------------------------------ begin and refresh ------------------------------

  lemma AllSeenClosed<R(!new)>(t: Rows<R>, ids: iset<Txnid>, seen: iset<Txnid>)
    requires WellChained(t) && IdsIn(t, ids) && ids <= seen
    ensures Closed(t, seen)
  {
  }

  /** Ids that occur nowhere in the rows do not matter. */
  lemma {:induction false} ResolveOnIds<R(!new)>(t: Rows<R>, v: Version<R>, ids: iset<Txnid>, s1: iset<Txnid>,
                                          s2: iset<Txnid>)
    requires IdsIn(t, ids) && IdOk(ids, v.xmin, v.xmax)
    requires forall x :: x in ids ==> (x in s1 <==> x in s2)
    ensures Resolve(t.hist, v, s1) == Resolve(t.hist, v, s2)
    decreases v.prev
  {
    if v.prev in t.hist && t.hist[v.prev].prev < v.prev {
      ResolveOnIds(t, t.hist[v.prev], ids, s1, s2);
    }
  }

  lemma SameOnIds<R(!new)>(t: Rows<R>, ids: iset<Txnid>, s1: iset<Txnid>, s2: iset<Txnid>, m: map<Rowid, R>)
    requires IdsIn(t, ids) && forall x :: x in ids ==> (x in s1 <==> x in s2)
    requires Shown(t, s1, m)
    ensures Shown(t, s2, m)
  {
    forall r ensures Lookup(t, r, s2) == Get(m, r) {
      assert Lookup(t, r, s1) == Get(m, r);
      if r in t.main { ResolveOnIds(t, t.main[r], ids, s1, s2); }
    }
  }

  /** A snapshot taken now sees exactly the committed ids and its owner. */
  lemma SnapSees(reg: Registry, t: Txnid)
    requires ValidRegistry(reg) && StateOf(reg, t) == Active
    ensures Seen(reg, Snap(reg, t)) == CommittedIds(reg) + iset{t}
    ensures SnapshotOf(reg, Snap(reg, t))
  {
    var s := Snap(reg, t);
    forall x: Txnid ensures XidVisible(reg, s, x) <==> x in CommittedIds(reg) + iset{t} {
      if StateOf(reg, x) == Committed { assert x < reg.next; }
    }
  }

  lemma FreshSnapshot<R(!new)>(rows: Rows<R>, reg: Registry, t: Txnid, m: map<Rowid, R>)
    requires ValidRegistry(reg) && StateOf(reg, t) == Active
    requires WellChained(rows) && IdsIn(rows, CommittedIds(reg)) && Shown(rows, CommittedIds(reg), m)
    ensures Closed(rows, Seen(reg, Snap(reg, t))) && Shown(rows, Seen(reg, Snap(reg, t)), m)
    ensures SnapshotOf(reg, Snap(reg, t))
  {
    hide WellChained, IdsIn, Shown, Closed, Snap;
    SnapSees(reg, t);
    var s1, s2 := CommittedIds(reg), Seen(reg, Snap(reg, t));
    AllSeenClosed(rows, s1, s2);
    SameOnIds(rows, s1, s1, s2, m);
  }

  lemma BeginState(reg: Registry)
    requires ValidRegistry(reg)
    ensures var r' := Apply(reg, Began);
            && ValidRegistry(r') && StateOf(r', reg.next) == Active && StateOf(reg, reg.next) != Active
            && CommittedIds(r') == CommittedIds(reg)
            && (forall x :: x != reg.next ==> StateOf(r', x) == StateOf(reg, x))
  {
    var r' := Apply(reg, Began);
    assert forall x :: x != reg.next ==> StateOf(r', x) == StateOf(reg, x);
    assert forall x: Txnid :: x in CommittedIds(r') <==> x in CommittedIds(reg);
  }

  lemma BeginKept<R(!new)>(d: Db<R>, a: Spec<R>, canWrite: bool)
    requires Inv(d, a)
    ensures Inv(Do(d, OpBegin(canWrite)), Tell(a, d, OpBegin(canWrite)))
  {
    hide WellChained, IdsIn, Shown, Closed, Same, OwnShown, Seen, CommittedIds, StateOf, Apply, ValidRegistry,
         SnapshotOf, Snap;
    var d', a' := Do(d, OpBegin(canWrite)), Tell(a, d, OpBegin(canWrite));
    BeginState(d.reg);
    var t := d.reg.next;
    FreshSnapshot(d.saved, d'.reg, t, a.committed);
    forall x | x in d.snaps
      ensures SnapshotOf(d'.reg, d.snaps[x]) && Seen(d'.reg, d.snaps[x]) == Seen(d.reg, d.snaps[x])
    {
      StepSeen(d.reg, d.snaps[x], Began);
    }
    SnapSelf(d'.reg, t);
  }

  lemma SnapSelf(reg: Registry, t: Txnid)
    requires ValidRegistry(reg)
    ensures Snap(reg, t).self == t
  {
  }

  lemma StepSeen(r: Registry, s: Snapshot, e: Event)
    requires ValidRegistry(r) && Enabled(r, e) && SnapshotOf(r, s)
    ensures SnapshotOf(Apply(r, e), s) && Seen(Apply(r, e), s) == Seen(r, s)
  {
    SeenKept(r, s, e);
  }

  lemma RefreshKept<R(!new)>(d: Db<R>, a: Spec<R>, t: Txnid)
    requires Inv(d, a) && t in d.snaps
    ensures Inv(Do(d, OpRefresh(t)), Tell(a, d, OpRefresh(t)))
  {
    hide WellChained, IdsIn, Shown, Closed, Same, OwnShown, Seen, CommittedIds, StateOf, Apply, ValidRegistry,
         SnapshotOf, Snap;
    var d', a' := Do(d, OpRefresh(t)), Tell(a, d, OpRefresh(t));
    FreshSnapshot(d.saved, d.reg, t, a.committed);
    SnapSelf(d.reg, t);
    SnapSees(d.reg, t);
  }

  // --------------------------------- writing ---------------------------------

  ghost predicate IsWrite<R>(op: Op<R>) {
    op.OpInsert? || op.OpUpdate? || op.OpRemove?
  }

  ghost function What<R>(op: Op<R>): Option<R>
    requires IsWrite(op)
  {
    if op.OpRemove? then None else Some(op.rec)
  }

  /** The rows after a write. */
  ghost function Write<R>(t: Rows<R>, op: Op<R>): Rows<R>
    requires IsWrite(op) && (!op.OpInsert? ==> op.r in t.main)
  {
    match op
    case OpInsert(w, r, rec) => InsertRow(t, w, r, rec)
    case OpUpdate(w, r, rec, vid) => UpdateRow(t, w, r, rec, vid)
    case OpRemove(w, r) => RemoveRow(t, w, r)
  }

  ghost predicate WriteOk<R>(t: Rows<R>, op: Op<R>) {
    && IsWrite(op)
    && (if op.OpInsert? then op.r !in t.main else op.r in t.main && t.main[op.r].xmax == 0)
    && (op.OpUpdate? ==> NextVid(t.hist, op.vid))
  }

  /** Seen without the writer: nothing changes. */
  lemma WriteUnseen<R(!new)>(t: Rows<R>, op: Op<R>, seen: iset<Txnid>)
    requires WellChained(t) && WriteOk(t, op) && op.t !in seen
    ensures Same(Write(t, op), t, seen)
    ensures Closed(t, seen) ==> Closed(Write(t, op), seen)
  {
    match op {
      case OpInsert(w, r, rec) => WriteHidden(t, w, r, rec, 0, seen);
      case OpUpdate(w, r, rec, vid) =>
        WriteHidden(t, w, r, rec, vid, seen);
        if Closed(t, seen) { UpdateClosed(t, w, r, rec, vid, seen); }
      case OpRemove(w, r) => RemoveHidden(t, w, r, seen);
    }
  }

  lemma RemoveHidden<R(!new)>(t: Rows<R>, w: Txnid, r: Rowid, seen: iset<Txnid>)
    requires WellChained(t) && r in t.main && t.main[r].xmax == 0 && w !in seen
    ensures Same(RemoveRow(t, w, r), t, seen)
    ensures Closed(t, seen) ==> Closed(RemoveRow(t, w, r), seen)
  {
    WriteHidden(t, w, r, t.main[r].rec, 0, seen);
  }

  /** Seen with the writer: the row is as written, the rest is as before. */
  lemma WriteSeen<R(!new)>(t: Rows<R>, op: Op<R>, seen: iset<Txnid>)
    requires WellChained(t) && WriteOk(t, op) && Closed(t, seen) && op.t in seen && 0 !in seen
    requires !op.OpInsert? ==> t.main[op.r].xmin in seen
    ensures Closed(Write(t, op), seen) && Wrote(t, Write(t, op), seen, op.r, What(op))
  {
    match op {
      case OpInsert(w, r, rec) => InsertSeen(t, w, r, rec, seen);
      case OpUpdate(w, r, rec, vid) => UpdateSeen(t, w, r, rec, vid, seen);
      case OpRemove(w, r) => RemoveSeen(t, w, r, seen);
    }
  }

  lemma WriteChained<R(!new)>(t: Rows<R>, op: Op<R>)
    requires WellChained(t) && WriteOk(t, op)
    ensures WellChained(Write(t, op)) && t.main.Keys <= Write(t, op).main.Keys
  {
    match op {
      case OpInsert(w, r, rec) => ChainsKept(t, w, r, rec, 0);
      case OpUpdate(w, r, rec, vid) => ChainsKept(t, w, r, rec, vid);
      case OpRemove(w, r) => ChainsKept(t, w, r, t.main[r].rec, 0);
    }
  }

  lemma WriteIds<R(!new)>(t: Rows<R>, op: Op<R>, ids: iset<Txnid>)
    requires WriteOk(t, op) && IdsIn(t, ids) && op.t in ids
    ensures IdsIn(Write(t, op), ids)
  {
  }

  lemma OwnWritten<R(!new)>(cur: Rows<R>, saved: Rows<R>, own: map<Rowid, Option<R>>, op: Op<R>, seen: iset<Txnid>)
    requires WellChained(cur) && WriteOk(cur, op) && op.t in seen && 0 !in seen
    requires OwnShown(cur, saved, own, seen)
    requires !op.OpInsert? ==> cur.main[op.r].xmin in seen
    ensures OwnShown(Write(cur, op), saved, own[op.r := What(op)], seen)
  {
    hide WellChained, Closed, Lookup, Write;
    WriteSeen(cur, op, seen);
    var cur' := Write(cur, op);
    forall r ensures Lookup(cur', r, seen) == if r in own[op.r := What(op)] then own[op.r := What(op)][r] else Lookup(saved, r, seen) {
      assert Lookup(cur, r, seen) == if r in own then own[r] else Lookup(saved, r, seen);
    }
  }

  /** A transaction that writes nothing yet is a writer with no writes. */
  lemma StartWriting<R(!new)>(d: Db<R>, a: Spec<R>, w: Txnid)
    requires Inv(d, a) && MayWrite(d, w)
    ensures Inv(d.(writer := Some(w)), a)
  {
    if d.writer == None {
      hide WellChained, Lookup, StateOf, XidVisible, Closed, IdsIn;
      WidenIds(d.saved, CommittedIds(d.reg), w);
      AllSeenClosed(d.saved, CommittedIds(d.reg), CommittedIds(d.reg) + iset{w});
    }
  }

  lemma WidenIds<R(!new)>(t: Rows<R>, ids: iset<Txnid>, w: Txnid)
    requires IdsIn(t, ids)
    ensures IdsIn(t, ids + iset{w})
  {
  }

  lemma IdFacts<R>(d: Db<R>, t: Txnid, seen: iset<Txnid>)
    requires SnapsOk(d) && t in d.snaps
    ensures t in Seen(d.reg, d.snaps[t]) && 0 !in Seen(d.reg, d.snaps[t])
    ensures 0 !in CommittedIds(d.reg) + iset{t}
  {
    assert StateOf(d.reg, t) == Active && t != 0;
  }

  lemma WriteKept<R(!new)>(d: Db<R>, a: Spec<R>, op: Op<R>)
    requires Inv(d, a) && IsWrite(op) && Allowed(d, op)
    ensures Inv(Do(d, op), Tell(a, d, op))
  {
    var w := op.t;
    assert MayWrite(d, w);
    StartWriting(d, a, w);
    AllowedWrite(d, op);
    Written(d.(writer := Some(w)), a, op);
    assert Do(d, op) == d.(cur := Write(d.cur, op), writer := Some(w));
  }

  lemma AllowedWrite<R>(d: Db<R>, op: Op<R>)
    requires IsWrite(op) && Allowed(d, op)
    ensures WriteOk(d.cur, op)
    ensures !op.OpInsert? ==> d.cur.main[op.r].xmin in Seen(d.reg, d.snaps[op.t])
  {
  }

  lemma Written<R(!new)>(d: Db<R>, a: Spec<R>, op: Op<R>)
    requires Inv(d, a) && IsWrite(op) && d.writer == Some(op.t) && WriteOk(d.cur, op)
    requires !op.OpInsert? ==> d.cur.main[op.r].xmin in Seen(d.reg, d.snaps[op.t])
    ensures Inv(d.(cur := Write(d.cur, op)), a.(own := a.own[op.r := What(op)]))
  {
    hide Write, What, Lookup, WellChained, Closed, OwnShown, Seen, CommittedIds, Shown, StateOf, SnapsOk, IdsIn,
         WriteOk, Same, SavedOk;
    SnapFact(d, op.t);
    IdFacts(d, op.t, CommittedIds(d.reg));
    WriteChained(d.cur, op);
    var all := CommittedIds(d.reg) + iset{op.t};
    WriteIds(d.cur, op, all);
    OwnWritten(d.cur, d.saved, a.own, op, Seen(d.reg, d.snaps[op.t]));
    CreatorKnown(d.cur, op, all);
    OwnWritten(d.cur, d.saved, a.own, op, all);
    forall seen: iset<Txnid> | op.t !in seen ensures Same(Write(d.cur, op), d.saved, seen)
      ensures Closed(d.saved, seen) ==> Closed(Write(d.cur, op), seen) {
      WriteUnseen(d.cur, op, seen);
      assert Same(d.cur, d.saved, seen);
      SameTrans(Write(d.cur, op), d.cur, d.saved, seen);
    }
    SavedUnchanged(d, a, op);
  }

  lemma SnapFact<R>(d: Db<R>, t: Txnid)
    requires SnapsOk(d) && d.writer == Some(t)
    ensures t in d.snaps
  {
  }

  lemma SavedUnchanged<R(!new)>(d: Db<R>, a: Spec<R>, op: Op<R>)
    requires IsWrite(op) && (!op.OpInsert? ==> op.r in d.cur.main)
    ensures SnapsOk(d) <==> SnapsOk(d.(cur := Write(d.cur, op)))
    ensures SavedOk(d, a) <==> SavedOk(d.(cur := Write(d.cur, op)), a.(own := a.own[op.r := What(op)]))
  {
    hide Write, What, Lookup, WellChained, Closed, Seen, Shown, StateOf, IdsIn, CommittedIds;
  }

  lemma CreatorKnown<R(!new)>(t: Rows<R>, op: Op<R>, ids: iset<Txnid>)
    requires WriteOk(t, op) && IdsIn(t, ids)
    ensures !op.OpInsert? ==> op.r in t.main && t.main[op.r].xmin in ids
  {
  }

  lemma SameTrans<R>(t1: Rows<R>, t2: Rows<R>, t3: Rows<R>, seen: iset<Txnid>)
    requires Same(t1, t2, seen) && Same(t2, t3, seen)
    ensures Same(t1, t3, seen)
  {
    hide Lookup;
  }

  // --------------------------------- ending ---------------------------------

  lemma EndState(reg: Registry, t: Txnid, how: XState)
    requires ValidRegistry(reg) && StateOf(reg, t) == Active && how != Active
    ensures var r' := Apply(reg, Ended(t, how));
            && ValidRegistry(r') && StateOf(r', t) == how
            && (forall x: Txnid :: x != t ==> StateOf(r', x) == StateOf(reg, x))
            && CommittedIds(r') == CommittedIds(reg) + (if how == Committed then iset{t} else iset{})
            && t !in CommittedIds(reg)
  {
    var r' := Apply(reg, Ended(t, how));
    assert forall x: Txnid :: x != t ==> StateOf(r', x) == StateOf(reg, x);
    assert forall x: Txnid :: x in CommittedIds(r') <==> x in CommittedIds(reg) + (if how == Committed then iset{t} else iset{});
  }

  /** Ending t leaves every other transaction's snapshot and view as it was. */
  lemma OthersSee<R(!new)>(d: Db<R>, t: Txnid, how: XState)
    requires SnapsOk(d) && t in d.snaps && how != Active
    ensures forall x :: x in d.snaps && x != t ==>
              SnapshotOf(Apply(d.reg, Ended(t, how)), d.snaps[x])
              && Seen(Apply(d.reg, Ended(t, how)), d.snaps[x]) == Seen(d.reg, d.snaps[x])
  {
    hide Seen, Apply, StateOf, SnapshotOf;
    forall x | x in d.snaps && x != t
      ensures SnapshotOf(Apply(d.reg, Ended(t, how)), d.snaps[x])
              && Seen(Apply(d.reg, Ended(t, how)), d.snaps[x]) == Seen(d.reg, d.snaps[x])
    {
      StepSeen(d.reg, d.snaps[x], Ended(t, how));
    }
  }

  lemma ClosingSnaps<R(!new)>(d: Db<R>, t: Txnid, how: XState)
    requires SnapsOk(d) && t in d.snaps && how != Active
    ensures SnapsOk(Closing(d, t, how))
  {
    hide Seen, Apply, StateOf, SnapshotOf, ValidRegistry;
    EndState(d.reg, t, how);
    OthersSee(d, t, how);
  }

  /** The saved rows after t ended without having written. */
  lemma ClosingSaved<R(!new)>(d: Db<R>, a: Spec<R>, t: Txnid, how: XState)
    requires SnapsOk(d) && SavedOk(d, a) && t in d.snaps && how != Active
    ensures SavedOk(Closing(d, t, how), a.(base := a.base - {t}))
  {
    hide Seen, Apply, StateOf, SnapshotOf, ValidRegistry, Shown, IdsIn, Closed, WellChained, CommittedIds;
    EndState(d.reg, t, how);
    OthersSee(d, t, how);
    var c, c' := CommittedIds(d.reg), CommittedIds(Apply(d.reg, Ended(t, how)));
    IdsGrow(d.saved, c, c');
    SameOnIds(d.saved, c, c, c', a.committed);
  }

  lemma IdsGrow<R(!new)>(t: Rows<R>, ids: iset<Txnid>, more: iset<Txnid>)
    requires IdsIn(t, ids) && ids <= more
    ensures IdsIn(t, more)
  {
  }

  lemma ClosedOnIds<R(!new)>(t: Rows<R>, ids: iset<Txnid>, s1: iset<Txnid>, s2: iset<Txnid>)
    requires IdsIn(t, ids) && (forall x :: x in ids ==> (x in s1 <==> x in s2)) && Closed(t, s1)
    ensures Closed(t, s2)
  {
    forall v | v in t.hist ensures LinkClosed(t.hist, t.hist[v], s2) {
      assert LinkClosed(t.hist, t.hist[v], s1) && IdOk(ids, t.hist[v].xmin, t.hist[v].xmax);
    }
    forall r | r in t.main ensures LinkClosed(t.hist, t.main[r], s2) {
      assert LinkClosed(t.hist, t.main[r], s1) && IdOk(ids, t.main[r].xmin, t.main[r].xmax);
    }
  }

  lemma LookupOnIds<R(!new)>(t: Rows<R>, ids: iset<Txnid>, s1: iset<Txnid>, s2: iset<Txnid>, r: Rowid)
    requires IdsIn(t, ids) && forall x :: x in ids ==> (x in s1 <==> x in s2)
    ensures Lookup(t, r, s1) == Lookup(t, r, s2)
  {
    if r in t.main { ResolveOnIds(t, t.main[r], ids, s1, s2); }
  }

  lemma OwnOnIds<R(!new)>(cur: Rows<R>, saved: Rows<R>, own: map<Rowid, Option<R>>, ids: iset<Txnid>, s1: iset<Txnid>,
                   s2: iset<Txnid>)
    requires IdsIn(cur, ids) && IdsIn(saved, ids) && forall x :: x in ids ==> (x in s1 <==> x in s2)
    requires OwnShown(cur, saved, own, s1)
    ensures OwnShown(cur, saved, own, s2)
  {
    hide Closed, Lookup, IdsIn;
    ClosedOnIds(cur, ids, s1, s2);
    forall r ensures Lookup(cur, r, s2) == if r in own then own[r] else Lookup(saved, r, s2) {
      assert Lookup(cur, r, s1) == if r in own then own[r] else Lookup(saved, r, s1);
      LookupOnIds(cur, ids, s1, s2, r);
      LookupOnIds(saved, ids, s1, s2, r);
    }
  }

  /** Another transaction is writing while t, which cannot write, ends. */
  lemma ClosingReader<R(!new)>(d: Db<R>, a: Spec<R>, t: Txnid, how: XState)
    requires Inv(d, a) && t in d.snaps && how != Active && d.writer.Some? && d.writer.value != t
    ensures CurOk(Closing(d, t, how), a.(base := a.base - {t}))
  {
    hide Seen, Apply, StateOf, SnapshotOf, ValidRegistry, Shown, IdsIn, Closed, WellChained, CommittedIds, Lookup,
         OwnShown, Same;
    var w := d.writer.value;
    EndState(d.reg, t, how);
    OthersSee(d, t, how);
    var c, c' := CommittedIds(d.reg), CommittedIds(Apply(d.reg, Ended(t, how)));
    IdsGrow(d.cur, c + iset{w}, c' + iset{w});
    IdsGrow(d.saved, c, c + iset{w});
    OwnOnIds(d.cur, d.saved, a.own, c + iset{w}, c + iset{w}, c' + iset{w});
  }

  /** Committing the writer's rows. */
  lemma CommitSaved<R(!new)>(d: Db<R>, a: Spec<R>, w: Txnid)
    requires Inv(d, a) && d.writer == Some(w)
    ensures var d' := Closing(d, w, Committed).(saved := d.cur);
            SavedOk(d', Spec(Overlay(a.committed, a.own), a.base - {w}, map[]))
  {
    hide Seen, Apply, StateOf, SnapshotOf, ValidRegistry, Shown, IdsIn, Closed, WellChained, CommittedIds, OwnShown,
         Same, Lookup;
    EndState(d.reg, w, Committed);
    OthersSee(d, w, Committed);
    var c := CommittedIds(d.reg);
    CommitShown(d.cur, d.saved, a.committed, a.own, c, w);
    OwnClosed(d.cur, d.saved, a.own, c + iset{w});
    forall x | x in d.snaps && x != w
      ensures Closed(d.cur, Seen(d.reg, d.snaps[x])) && Shown(d.cur, Seen(d.reg, d.snaps[x]), a.base[x])
    {
      var seen := Seen(d.reg, d.snaps[x]);
      WriterUnseen(d, x);
      assert Same(d.cur, d.saved, seen);
      SameShown(d.cur, d.saved, seen, a.base[x]);
    }
  }

  lemma OwnClosed<R(!new)>(cur: Rows<R>, saved: Rows<R>, own: map<Rowid, Option<R>>, seen: iset<Txnid>)
    requires OwnShown(cur, saved, own, seen)
    ensures Closed(cur, seen)
  {
  }

  lemma SameShown<R>(t: Rows<R>, t': Rows<R>, seen: iset<Txnid>, m: map<Rowid, R>)
    requires Same(t, t', seen) && Shown(t', seen, m)
    ensures Shown(t, seen, m)
  {
    hide Lookup;
  }

  lemma CommitShown<R(!new)>(cur: Rows<R>, saved: Rows<R>, m: map<Rowid, R>, own: map<Rowid, Option<R>>,
                      c: iset<Txnid>, w: Txnid)
    requires IdsIn(saved, c) && w !in c && Shown(saved, c, m) && OwnShown(cur, saved, own, c + iset{w})
    ensures Shown(cur, c + iset{w}, Overlay(m, own))
  {
    hide Lookup, IdsIn, Closed;
    forall r ensures Lookup(cur, r, c + iset{w}) == Get(Overlay(m, own), r) {
      LookupOnIds(saved, c, c, c + iset{w}, r);
      assert Lookup(saved, r, c) == Get(m, r);
      assert Lookup(cur, r, c + iset{w}) == if r in own then own[r] else Lookup(saved, r, c + iset{w});
    }
  }

  lemma EndKept<R(!new)>(d: Db<R>, a: Spec<R>, op: Op<R>)
    requires Inv(d, a) && (op.OpCommit? || op.OpRollback?) && Allowed(d, op)
    ensures Inv(Do(d, op), Tell(a, d, op))
  {
    hide Seen, Apply, StateOf, SnapshotOf, ValidRegistry, Shown, IdsIn, Closed, WellChained, CommittedIds, OwnShown,
         Same, Lookup, Overlay;
    var t, how := op.t, if op.OpCommit? then Committed else Aborted;
    ClosingSnaps(d, t, how);
    if d.writer == Some(t) && op.OpCommit? {
      CommitSaved(d, a, t);
    } else {
      ClosingSaved(d, a, t, how);
      if d.writer.Some? && d.writer.value != t {
        ClosingReader(d, a, t, how);
      }
    }
  }

  // ---------------------------------- runs ----------------------------------

  ghost predicate Reaches<R(!new)>(d: Db<R>, a: Spec<R>, ops: seq<Op<R>>, d': Db<R>, a': Spec<R>)
    decreases |ops|
  {
    if ops == [] then d' == d && a' == a
    else ValidRegistry(d.reg) && Allowed(d, ops[0]) && Reaches(Do(d, ops[0]), Tell(a, d, ops[0]), ops[1..], d', a')
  }

  lemma StepKept<R(!new)>(d: Db<R>, a: Spec<R>, op: Op<R>)
    requires Inv(d, a) && Allowed(d, op)
    ensures ValidRegistry(d.reg) && Inv(Do(d, op), Tell(a, d, op))
  {
    hide Do, Tell, SavedOk, CurOk;
    match op {
      case OpBegin(canWrite) => BeginKept(d, a, canWrite);
      case OpRefresh(t) => RefreshKept(d, a, t);
      case OpInsert(_, _, _) => WriteKept(d, a, op);
      case OpUpdate(_, _, _, _) => WriteKept(d, a, op);
      case OpRemove(_, _) => WriteKept(d, a, op);
      case OpCommit(_) => EndKept(d, a, op);
      case OpRollback(_) => EndKept(d, a, op);
    }
  }

  lemma {:induction false} RunKept<R(!new)>(d: Db<R>, a: Spec<R>, ops: seq<Op<R>>, d': Db<R>, a': Spec<R>)
    requires Inv(d, a) && Reaches(d, a, ops, d', a')
    ensures Inv(d', a')
    decreases |ops|
  {
    hide Inv, Do, Tell;
    if ops != [] {
      StepKept(d, a, ops[0]);
      RunKept(Do(d, ops[0]), Tell(a, d, ops[0]), ops[1..], d', a');
    }
  }

  /**
   After every allowed run of a database opened over rows of earlier sessions, every open
   transaction reads, for every row, exactly its own writes over the committed table its
   snapshot was taken from; that table starts as the live newest records of those rows.
   */
  lemma SnapshotsRead<R(!new)>(base: Txnid, rows: Rows<R>, ops: seq<Op<R>>, d: Db<R>, a: Spec<R>, t: Txnid, r: Rowid)
    requires WellChained(rows) && StoredUpTo(rows, base)
    requires Reaches(NewDb(base, rows), Spec(LiveRecords(rows), map[], map[]), ops, d, a)
    requires t in d.snaps
    ensures t in a.base && Lookup(d.cur, r, Seen(d.reg, d.snaps[t])) == Reads(a, d, t, r)
  {
    hide Inv, Reaches, WellChained, LiveRecords, StoredUpTo;
    InitInv(base, rows);
    RunKept(NewDb(base, rows), Spec(LiveRecords(rows), map[], map[]), ops, d, a);
    ReadsAgree(d, a, t, r);
  }

  /** At most one version of a row is visible to an open transaction. */
  lemma OneVersionVisible<R(!new)>(d: Db<R>, a: Spec<R>, t: Txnid, r: Rowid, i: nat, j: nat)
    requires Inv(d, a) && t in d.snaps && r in d.cur.main
    requires ShowsAt(Chain(d.cur.hist, d.cur.main[r]), i, Seen(d.reg, d.snaps[t]))
    requires ShowsAt(Chain(d.cur.hist, d.cur.main[r]), j, Seen(d.reg, d.snaps[t]))
    ensures i == j
  {
    hide Lookup, IdsIn, Seen, Chain, ShowsAt, Shown, Same, Resolve;
    var seen := Seen(d.reg, d.snaps[t]);
    IdFacts(d, t, seen);
    CurClosed(d, a, t);
    OneVisible(d.cur, d.cur.main[r], seen, i, j);
  }

  lemma CurClosed<R(!new)>(d: Db<R>, a: Spec<R>, t: Txnid)
    requires Inv(d, a) && t in d.snaps
    ensures WellChained(d.cur) && Closed(d.cur, Seen(d.reg, d.snaps[t]))
  {
    hide Lookup, IdsIn, Seen, WellChained, Closed, Shown, Same;
    if d.writer.Some? && d.writer.value != t { WriterUnseen(d, t); }
  }

  // ------------------- ending a writable transaction at the wrong time -------------------

  /** What a rollback of a writable transaction does to the pages, whoever made them dirty. */
  ghost function Discard<R>(d: Db<R>, t: Txnid): Db<R> {
    Closing(d, t, Aborted).(cur := d.saved)
  }

  /** If t rolls back while w has uncommitted writes, w reads as if it had written nothing. */
  lemma ForeignRollbackReads<R(!new)>(d: Db<R>, a: Spec<R>, t: Txnid, w: Txnid, r: Rowid)
    requires Inv(d, a) && t in d.snaps && d.writer == Some(w) && w != t && w in d.snaps && w in a.base
    ensures Lookup(Discard(d, t).cur, r, Seen(Discard(d, t).reg, d.snaps[w])) == Get(a.base[w], r)
  {
    hide Lookup, IdsIn, WellChained, Closed, Same, OwnShown, Apply, StateOf;
    OthersSee(d, t, Aborted);
    assert Lookup(d.saved, r, Seen(d.reg, d.snaps[w])) == Get(a.base[w], r);
  }

  /**
   If t rolls back while w has uncommitted writes, w goes on reading its writes if and only
   if they changed nothing.
   */
  lemma ForeignRollbackIff<R(!new)>(d: Db<R>, a: Spec<R>, t: Txnid, w: Txnid)
    requires Inv(d, a) && t in d.snaps && d.writer == Some(w) && w != t && w in d.snaps && w in a.base
    ensures (forall r :: Lookup(Discard(d, t).cur, r, Seen(Discard(d, t).reg, d.snaps[w])) == Reads(a, d, w, r))
       <==> (forall r :: r in a.own ==> a.own[r] == Get(a.base[w], r))
  {
    hide Lookup, Inv, Discard, Seen, Get;
    forall r ensures Lookup(Discard(d, t).cur, r, Seen(Discard(d, t).reg, d.snaps[w])) == Get(a.base[w], r) {
      ForeignRollbackReads(d, a, t, w, r);
    }
    if forall r :: Lookup(Discard(d, t).cur, r, Seen(Discard(d, t).reg, d.snaps[w])) == Reads(a, d, w, r) {
      forall r | r in a.own ensures a.own[r] == Get(a.base[w], r) {
        assert Lookup(Discard(d, t).cur, r, Seen(Discard(d, t).reg, d.snaps[w])) == Reads(a, d, w, r);
      }
    }
  }

  /** d is reached by two writable transactions, of which the first inserts row 7. */
  ghost predicate OneInserted<R(!new)>(d: Db<R>, a: Spec<R>, rec: R) {
    && Reaches(NewDb(0, Rows(map[], map[])), Spec(map[], map[], map[]), [OpBegin(true), OpBegin(true), OpInsert(1, 7, rec)], d, a)
    && d.writer == Some(1) && 1 in d.snaps && 2 in d.snaps && 2 in d.writable && 1 in a.base
    && 7 in a.own && a.own[7] == Some(rec) && Get(a.base[1], 7) == None
  }

  /**
   Two writable transactions; the first inserts and reads its insert, the second rolls back:
   the first no longer reads what it inserted.
   */
  lemma ForeignRollbackLosesAWrite<R(!new)>(rec: R) returns (d: Db<R>, a: Spec<R>)
    ensures OneInserted(d, a, rec)
    ensures Lookup(d.cur, 7, Seen(d.reg, d.snaps[1])) == Some(rec)
    ensures Lookup(Discard(d, 2).cur, 7, Seen(Discard(d, 2).reg, d.snaps[1])) == None
  {
    d, a := InsertUnderTwo(rec);
    var ops := [OpBegin(true), OpBegin(true), OpInsert(1, 7, rec)];
    hide Reaches, Inv, Discard, Lookup, Seen;
    var none: Rows<R> := Rows(map[], map[]);
    assert LiveRecords(none) == map[];
    SnapshotsRead(0, none, ops, d, a, 1, 7);
    EmptyInv<R>(0);
    RunKept(NewDb(0, Rows(map[], map[])), Spec(map[], map[], map[]), ops, d, a);
    ForeignRollbackReads(d, a, 2, 1, 7);
  }

  lemma InsertUnderTwo<R(!new)>(rec: R) returns (d: Db<R>, a: Spec<R>)
    ensures OneInserted(d, a, rec)
  {
    var d0, a0 := NewDb(0, Rows<R>.Rows(map[], map[])), Spec<R>.Spec(map[], map[], map[]);
    var o1, o3 := Op<R>.OpBegin(true), Op<R>.OpInsert(1, 7, rec);
    var d1, a1 := Do(d0, o1), Tell(a0, d0, o1);
    assert ValidRegistry(d1.reg) by { RegistryKept(d0.reg, Began); }
    var d2, a2 := Do(d1, o1), Tell(a1, d1, o1);
    assert ValidRegistry(d2.reg) by { RegistryKept(d1.reg, Began); }
    assert Allowed(d2, o3);
    ThreeSteps(d0, a0, o1, o1, o3);
    d, a := Do(d2, o3), Tell(a2, d2, o3);
  }

  lemma ThreeSteps<R(!new)>(d0: Db<R>, a0: Spec<R>, o1: Op<R>, o2: Op<R>, o3: Op<R>)
    requires ValidRegistry(d0.reg) && Allowed(d0, o1)
    requires var d1 := Do(d0, o1); ValidRegistry(d1.reg) && Allowed(d1, o2)
    requires var d2 := Do(Do(d0, o1), o2); ValidRegistry(d2.reg) && Allowed(d2, o3)
    ensures var d1, a1 := Do(d0, o1), Tell(a0, d0, o1);
            var d2, a2 := Do(d1, o2), Tell(a1, d1, o2);
            Reaches(d0, a0, [o1, o2, o3], Do(d2, o3), Tell(a2, d2, o3))
  {
    hide Do, Tell, Allowed;
    var d1, a1 := Do(d0, o1), Tell(a0, d0, o1);
    var d2, a2 := Do(d1, o2), Tell(a1, d1, o2);
    var d3, a3 := Do(d2, o3), Tell(a2, d2, o3);
    assert [o1, o2, o3][1..] == [o2, o3] && [o2, o3][1..] == [o3] && [o3][1..] == [];
    assert Reaches(d2, a2, [o3], d3, a3);
    assert Reaches(d1, a1, [o2, o3], d3, a3);
  }
}
