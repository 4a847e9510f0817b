/**
 What AS OF and a reopened database read after whole runs. Both look at the committed ids up to
 some id: AS OF the one it is given, a reopened database the one the last writable commit stored.
 */
module TimeTravel {
  import opened Basics
  import opened Mvcc
  import opened Versions
  import opened SnapshotIsolation

  /** The committed tables of a run, oldest first, each with the id that left it. */
  type Past<R> = seq<(Txnid, map<Rowid, R>)>

  /** The table left by the last of the ids up to v. */
  ghost function TableAt<R>(past: Past<R>, v: Txnid): map<Rowid, R> {
    if past == [] then map[]
    else if past[|past| - 1].0 <= v then past[|past| - 1].1
    else TableAt(past[..|past| - 1], v)
  }

  ghost function Top<R>(past: Past<R>): Txnid { if past == [] then 0 else past[|past| - 1].0 }

  ghost predicate Commits<R>(d: Db<R>, op: Op<R>) { op.OpCommit? && d.writer == Some(op.t) }

  ghost function Remember<R>(past: Past<R>, a: Spec<R>, d: Db<R>, op: Op<R>): Past<R> {
    if Commits(d, op) then past + [(op.t, Overlay(a.committed, a.own))] else past
  }

  /** A writer commits only after all writers with smaller ids. */
  ghost predicate InOrder<R>(past: Past<R>, d: Db<R>, op: Op<R>) { Commits(d, op) ==> op.t > Top(past) }

  /** A run whose writers commit in the order of their ids. */
  ghost predicate ReachesInOrder<R(!new)>(d: Db<R>, a: Spec<R>, past: Past<R>, ops: seq<Op<R>>, d': Db<R>, a': Spec<R>,
                                          past': Past<R>)
    decreases |ops|
  {
    if ops == [] then d' == d && a' == a && past' == past
    else
      && ValidRegistry(d.reg) && Allowed(d, ops[0]) && InOrder(past, d, ops[0])
      && ReachesInOrder(Do(d, ops[0]), Tell(a, d, ops[0]), Remember(past, a, d, ops[0]), ops[1..], d', a', past')
  }

  // --------------------------------- invariant ---------------------------------

  ghost predicate InRange(x: Txnid, n: Txnid) { 0 < x <= n }

  ghost function UpTo(n: Txnid): iset<Txnid> { iset x: Txnid | InRange(x, n) }

  ghost function Writing<R>(d: Db<R>): iset<Txnid> { iset x: Txnid | d.writer == Some(x) }

  ghost predicate PastOk<R(!new)>(d: Db<R>, a: Spec<R>, past: Past<R>) {
    && past != [] && past[|past| - 1].1 == a.committed && d.reg.base <= Top(past)
    && IdsIn(d.saved, UpTo(Top(past))) && IdsIn(d.cur, UpTo(Top(past)) + Writing(d))
    && forall v: Txnid :: v >= d.reg.base ==> Shown(d.saved, SeenAsOf(d.reg, v), TableAt(past, v))
  }

  /** As long as the saved rows stay, an event does not change what AS OF shows of them. */
  lemma AsOfKept<R(!new)>(t: Rows<R>, reg: Registry, reg': Registry, v: Txnid, m: map<Rowid, R>)
    requires IdsIn(t, CommittedIds(reg)) && CommittedIds(reg) <= CommittedIds(reg')
    requires Shown(t, SeenAsOf(reg, v), m)
    ensures Shown(t, SeenAsOf(reg', v), m)
  {
    hide Lookup, IdsIn;
    forall r ensures Lookup(t, r, SeenAsOf(reg', v)) == Get(m, r) {
      LookupOnIds(t, CommittedIds(reg), SeenAsOf(reg, v), SeenAsOf(reg', v), r);
    }
  }

  lemma CommittedGrows(r: Registry, e: Event)
    requires ValidRegistry(r) && Enabled(r, e)
    ensures CommittedIds(r) <= CommittedIds(Apply(r, e)) && Apply(r, e).base == r.base
  {
  }

  lemma IdsMore<R>(t: Rows<R>, a: iset<Txnid>, b: iset<Txnid>)
    requires IdsIn(t, a) && a <= b
    ensures IdsIn(t, b)
  {
  }

  // ------------------------------------ steps ------------------------------------

  lemma BeginPast<R(!new)>(d: Db<R>, a: Spec<R>, past: Past<R>, op: Op<R>)
    requires Inv(d, a) && PastOk(d, a, past) && (op.OpBegin? || op.OpRefresh?) && Allowed(d, op)
    ensures PastOk(Do(d, op), Tell(a, d, op), past)
  {
    hide Shown, IdsIn, TableAt, SeenAsOf, CommittedIds, WellChained, Closed, CurOk;
    if op.OpBegin? {
      CommittedGrows(d.reg, Began);
      forall v: Txnid | v >= d.reg.base ensures Shown(d.saved, SeenAsOf(Do(d, op).reg, v), TableAt(past, v)) {
        AsOfKept(d.saved, d.reg, Do(d, op).reg, v, TableAt(past, v));
      }
    }
  }

  lemma WritePast<R(!new)>(d: Db<R>, a: Spec<R>, past: Past<R>, op: Op<R>)
    requires Inv(d, a) && PastOk(d, a, past) && IsWrite(op) && Allowed(d, op)
    ensures PastOk(Do(d, op), Tell(a, d, op), past)
  {
    hide Shown, TableAt, SeenAsOf, WellChained, Closed, SavedOk, CommittedIds, Seen;
    var d' := Do(d, op);
    IdsMore(d.cur, UpTo(Top(past)) + Writing(d), UpTo(Top(past)) + Writing(d'));
  }

  lemma EndPast<R(!new)>(d: Db<R>, a: Spec<R>, past: Past<R>, op: Op<R>)
    requires Inv(d, a) && PastOk(d, a, past) && (op.OpCommit? || op.OpRollback?) && Allowed(d, op) && !Commits(d, op)
    ensures PastOk(Do(d, op), Tell(a, d, op), past)
  {
    hide Shown, IdsIn, TableAt, SeenAsOf, CommittedIds, WellChained, Closed, OwnShown, Same, UpTo, Enabled, Apply;
    var d' := Do(d, op);
    var how := if op.OpCommit? then Committed else Aborted;
    assert Enabled(d.reg, Ended(op.t, how)) by { ActiveEnds(d, op.t, how); }
    CommittedGrows(d.reg, Ended(op.t, how));
    forall v: Txnid | v >= d.reg.base ensures Shown(d.saved, SeenAsOf(d'.reg, v), TableAt(past, v)) {
      AsOfKept(d.saved, d.reg, d'.reg, v, TableAt(past, v));
    }
    IdsMore(d.saved, UpTo(Top(past)), UpTo(Top(past)) + Writing(d'));
    if d.writer == Some(op.t) { assert d'.cur == d.saved; }
  }

  lemma ActiveEnds<R>(d: Db<R>, t: Txnid, how: XState)
    requires SnapsOk(d) && t in d.snaps && how != Active
    ensures Enabled(d.reg, Ended(t, how))
  {
  }

  /** A commit adds its table for its own id and later ones, and leaves earlier AS OF reads alone. */
  lemma CommitPast<R(!new)>(d: Db<R>, a: Spec<R>, past: Past<R>, op: Op<R>)
    requires Inv(d, a) && PastOk(d, a, past) && Allowed(d, op) && Commits(d, op) && op.t > Top(past)
    ensures PastOk(Do(d, op), Tell(a, d, op), Remember(past, a, d, op))
  {
    hide Inv, Do, Tell, PastOk;
    StepKept(d, a, op);
    var w, d', past' := op.t, Do(d, op), Remember(past, a, d, op);
    CommitFacts(d, a, past, op);
    assert past'[..|past|] == past;
    forall v: Txnid | v >= d'.reg.base ensures Shown(d'.saved, SeenAsOf(d'.reg, v), TableAt(past', v)) {
      if v < w {
        EarlierAsOf(d, a, past, op, v);
      } else {
        LaterAsOf(d', Tell(a, d, op), w, v);
      }
    }
    assert PastOk(d', Tell(a, d, op), past') by { PastIs(d', Tell(a, d, op), past'); }
  }

  lemma PastIs<R(!new)>(d: Db<R>, a: Spec<R>, past: Past<R>)
    requires past != [] && past[|past| - 1].1 == a.committed && d.reg.base <= Top(past)
    requires IdsIn(d.saved, UpTo(Top(past))) && IdsIn(d.cur, UpTo(Top(past)) + Writing(d))
    requires forall v: Txnid :: v >= d.reg.base ==> Shown(d.saved, SeenAsOf(d.reg, v), TableAt(past, v))
    ensures PastOk(d, a, past)
  {
  }

  lemma CommitFacts<R(!new)>(d: Db<R>, a: Spec<R>, past: Past<R>, op: Op<R>)
    requires Inv(d, a) && PastOk(d, a, past) && Allowed(d, op) && Commits(d, op) && op.t > Top(past)
    ensures ValidRegistry(d.reg)
    ensures var d', a', past' := Do(d, op), Tell(a, d, op), Remember(past, a, d, op);
            && d'.cur == d.cur == d'.saved && d'.writer == None && d'.reg.base == d.reg.base <= Top(past')
            && a'.committed == Overlay(a.committed, a.own)
            && IdsIn(d'.saved, UpTo(Top(past'))) && IdsIn(d'.cur, UpTo(Top(past')) + Writing(d'))
  {
    hide Shown, IdsIn, TableAt, SeenAsOf, CommittedIds, WellChained, Closed, OwnShown, Same, Overlay;
    IdsMore(d.cur, UpTo(Top(past)) + Writing(d), UpTo(op.t));
    IdsMore(d.cur, UpTo(op.t), UpTo(op.t) + Writing(Do(d, op)));
  }

  lemma EarlierAsOf<R(!new)>(d: Db<R>, a: Spec<R>, past: Past<R>, op: Op<R>, v: Txnid)
    requires Inv(d, a) && PastOk(d, a, past) && Allowed(d, op) && Commits(d, op) && d.reg.base <= v < op.t
    ensures ValidRegistry(d.reg) && Shown(Do(d, op).saved, SeenAsOf(Do(d, op).reg, v), TableAt(past, v))
  {
    hide Lookup, IdsIn, TableAt, CommittedIds, WellChained, Closed, OwnShown, Apply, Shown, Same, Enabled;
    var reg' := Do(d, op).reg;
    assert Enabled(d.reg, Ended(op.t, Committed)) by { ActiveEnds(d, op.t, Committed); }
    CommittedGrows(d.reg, Ended(op.t, Committed));
    AsOfKept(d.saved, d.reg, reg', v, TableAt(past, v));
    assert Same(d.cur, d.saved, SeenAsOf(reg', v));
    SameShown(d.cur, d.saved, SeenAsOf(reg', v), TableAt(past, v));
  }

  lemma LaterAsOf<R(!new)>(d: Db<R>, a: Spec<R>, top: Txnid, v: Txnid)
    requires Inv(d, a) && IdsIn(d.saved, UpTo(top)) && top <= v
    ensures Shown(d.saved, SeenAsOf(d.reg, v), a.committed)
  {
    hide Lookup, WellChained, Closed, CurOk, SnapsOk;
    forall r ensures Lookup(d.saved, r, SeenAsOf(d.reg, v)) == Get(a.committed, r) {
      LookupOnIds(d.saved, UpTo(top), SeenAsOf(d.reg, v), CommittedIds(d.reg), r);
    }
  }

  lemma StepPast<R(!new)>(d: Db<R>, a: Spec<R>, past: Past<R>, op: Op<R>)
    requires Inv(d, a) && PastOk(d, a, past) && Allowed(d, op) && InOrder(past, d, op)
    ensures ValidRegistry(d.reg) && PastOk(Do(d, op), Tell(a, d, op), Remember(past, a, d, op))
  {
    hide Do, Tell, SavedOk, CurOk, PastOk;
    match op {
      case OpBegin(_) => BeginPast(d, a, past, op);
      case OpRefresh(_) => BeginPast(d, a, past, op);
      case OpInsert(_, _, _) => WritePast(d, a, past, op);
      case OpUpdate(_, _, _, _) => WritePast(d, a, past, op);
      case OpRemove(_, _) => WritePast(d, a, past, op);
      case OpCommit(_) => if Commits(d, op) { CommitPast(d, a, past, op); } else { EndPast(d, a, past, op); }
      case OpRollback(_) => EndPast(d, a, past, op);
    }
  }

  lemma {:induction false} RunPast<R(!new)>(d: Db<R>, a: Spec<R>, past: Past<R>, ops: seq<Op<R>>, d': Db<R>,
                                            a': Spec<R>, past': Past<R>)
    requires Inv(d, a) && PastOk(d, a, past) && ReachesInOrder(d, a, past, ops, d', a', past')
    ensures Inv(d', a') && PastOk(d', a', past')
    decreases |ops|
  {
    hide Inv, Do, Tell, PastOk, Allowed;
    if ops != [] {
      StepPast(d, a, past, ops[0]);
      StepKept(d, a, ops[0]);
      RunPast(Do(d, ops[0]), Tell(a, d, ops[0]), Remember(past, a, d, ops[0]), ops[1..], d', a', past');
    }
  }

  // ------------------------------------ AS OF ------------------------------------

  /**
   After every run in which writers commit in the order of their ids, AS OF v reads, for every
   row, the table left by the last committed writer up to v. Ids up to base are earlier sessions.
   */
  lemma AsOfReads<R(!new)>(base: Txnid, rows: Rows<R>, ops: seq<Op<R>>, d: Db<R>, a: Spec<R>, past: Past<R>, v: Txnid,
                           r: Rowid)
    requires WellChained(rows) && StoredUpTo(rows, base) && v >= base
    requires var m := LiveRecords(rows); ReachesInOrder(NewDb(base, rows), Spec(m, map[], map[]), [(base, m)], ops, d, a, past)
    ensures Lookup(d.cur, r, SeenAsOf(d.reg, v)) == Get(TableAt(past, v), r)
  {
    hide ReachesInOrder, Lookup, WellChained, Inv, TableAt, IdsIn, StoredUpTo, LiveRecords;
    var m := LiveRecords(rows);
    var d0, a0 := NewDb(base, rows), Spec(m, map[], map[]);
    InitInv(base, rows);
    StartPast(base, rows);
    BaseKept(d0, a0, [(base, m)], ops, d, a, past);
    RunPast(d0, a0, [(base, m)], ops, d, a, past);
    CurAsOf(d, a, v);
    var seen := SeenAsOf(d.reg, v);
    assert Shown(d.saved, seen, TableAt(past, v));
    assert Lookup(d.cur, r, seen) == Lookup(d.saved, r, seen) == Get(TableAt(past, v), r);
  }

  lemma StartPast<R(!new)>(base: Txnid, rows: Rows<R>)
    requires WellChained(rows) && StoredUpTo(rows, base)
    ensures PastOk(NewDb(base, rows), Spec(LiveRecords(rows), map[], map[]), [(base, LiveRecords(rows))])
  {
    hide Lookup, WellChained, LiveRecords, Shown;
    var d, past := NewDb(base, rows), [(base, LiveRecords(rows))];
    forall v: Txnid | v >= base ensures Shown(rows, SeenAsOf(d.reg, v), TableAt(past, v)) {
      LiveShown(rows, SeenAsOf(d.reg, v));
    }
  }

  lemma {:induction false} BaseKept<R(!new)>(d: Db<R>, a: Spec<R>, past: Past<R>, ops: seq<Op<R>>, d': Db<R>,
                                             a': Spec<R>, past': Past<R>)
    requires ReachesInOrder(d, a, past, ops, d', a', past')
    ensures d'.reg.base == d.reg.base
    decreases |ops|
  {
    if ops != [] {
      BaseKept(Do(d, ops[0]), Tell(a, d, ops[0]), Remember(past, a, d, ops[0]), ops[1..], d', a', past');
    }
  }

  /** AS OF does not see the writer that is still at it. */
  lemma CurAsOf<R(!new)>(d: Db<R>, a: Spec<R>, v: Txnid)
    requires Inv(d, a)
    ensures Same(d.cur, d.saved, SeenAsOf(d.reg, v))
  {
    hide Lookup, WellChained, Closed, OwnShown, Seen, IdsIn, SavedOk;
    if d.writer.Some? { assert d.writer.value !in SeenAsOf(d.reg, v); }
  }

  /**
   Out of order it can fail. Where no older version of a seen one is unseen, w's remove takes
   effect for those who see w if and only if they also see the creator of the version it marks,
   or saw nothing in the row anyway.
   */
  lemma RemoveSeenIff<R(!new)>(t: Rows<R>, w: Txnid, r: Rowid, seen: iset<Txnid>)
    requires WellChained(t) && Closed(t, seen) && 0 !in seen
    requires r in t.main && t.main[r].xmax == 0 && w in seen
    ensures Lookup(RemoveRow(t, w, r), r, seen) == None
       <==> t.main[r].xmin in seen || Lookup(t, r, seen) == None
  {
    var v := t.main[r];
    if v.xmin in seen && v.prev in t.hist { OlderHidden(t, v, seen); }
  }

  /** The older transaction removes, after the younger updated: AS OF the older one the row is back. */
  lemma LateRemoveResurfaces<R(!new)>(first: R, second: R)
    ensures var rows := Rows(map[7 := Version(1, 0, 0, first)], map[]);
            var left := RemoveRow(UpdateRow(rows, 3, 7, second, 1), 2, 7);
            var reg := Registry(1, 4, map[2 := Committed, 3 := Committed]);
            Lookup(left, 7, SeenAsOf(reg, 2)) == Some(first) && Lookup(left, 7, SeenAsOf(reg, 3)) == None
  {
    var rows := Rows(map[7 := Version(1, 0, 0, first)], map[]);
    var left := RemoveRow(UpdateRow(rows, 3, 7, second, 1), 2, 7);
    var reg := Registry(1, 4, map[2 := Committed, 3 := Committed]);
    assert left.main[7] == Version(3, 2, 1, second) && left.hist[1] == Version(1, 3, 0, first);
    assert Resolve(left.hist, left.hist[1], SeenAsOf(reg, 3)) == None;
    assert Resolve(left.hist, left.hist[1], SeenAsOf(reg, 2)) == Some(first);
    assert !Shows(SeenAsOf(reg, 2), 3, 2) && !Shows(SeenAsOf(reg, 3), 3, 2);
  }

  // ---------------------------------- reopening ----------------------------------

  /** A database opened over the saved rows with `mark` as the last id reads them AS OF mark. */
  lemma ReopenIsAsOf<R(!new)>(d: Db<R>, a: Spec<R>, mark: Txnid, r: Rowid)
    requires Inv(d, a)
    ensures Lookup(d.saved, r, CommittedIds(NewDb(mark, d.saved).reg)) == Lookup(d.saved, r, SeenAsOf(d.reg, mark))
  {
    hide Lookup, WellChained, Closed, CurOk, SnapsOk, Shown, IdsIn;
    LookupOnIds(d.saved, CommittedIds(d.reg), CommittedIds(NewDb(mark, d.saved).reg), SeenAsOf(d.reg, mark), r);
  }

  /** The version a chain shows. */
  ghost function ShownVersion<R>(hist: map<Vid, Version<R>>, v: Version<R>, seen: iset<Txnid>): Option<Version<R>>
    decreases v.prev
  {
    if Shows(seen, v.xmin, v.xmax) then Some(v)
    else if v.prev in hist && hist[v.prev].prev < v.prev then ShownVersion(hist, hist[v.prev], seen)
    else None
  }

  /** It is the version whose record is read. */
  lemma {:induction false} ShownIsRead<R(!new)>(hist: map<Vid, Version<R>>, v: Version<R>, seen: iset<Txnid>)
    ensures var o := ShownVersion(hist, v, seen);
            Resolve(hist, v, seen) == if o.Some? then Some(o.value.rec) else None
    decreases v.prev
  {
    if v.prev in hist && hist[v.prev].prev < v.prev { ShownIsRead(hist, hist[v.prev], seen); }
  }

  /** Some version was made by mark at the latest and superseded or removed after it. */
  ghost predicate Straddles<R>(chain: seq<Version<R>>, mark: Txnid) {
    exists i :: 0 <= i < |chain| && chain[i].xmin <= mark < chain[i].xmax
  }

  /** What must hold of a row for a session that knows the ids up to mark to show the same of it. */
  ghost predicate KeptBy<R>(t: Rows<R>, r: Rowid, mark: Txnid)
    requires r in t.main
  {
    if t.main[r].xmax == 0 then t.main[r].xmin <= mark else !Straddles(Chain(t.hist, t.main[r]), mark)
  }

  /**
   A session that knows the ids up to `mark` shows the same version of a row as one that knows
   all, if and only if the row is live and its newest version is not later, or it is removed and
   no version of it lived across mark.
   */
  lemma SameVersionIff<R(!new)>(t: Rows<R>, ids: iset<Txnid>, mark: Txnid, r: Rowid)
    requires WellChained(t) && IdsIn(t, ids) && 0 !in ids && r in t.main
    ensures SameVersion(t, r, UpTo(mark), ids) <==> KeptBy(t, r, mark)
  {
    var v := t.main[r];
    if v.xmax == 0 {
      if v.xmin > mark { ShownOlder(t, v, UpTo(mark)); }
    } else {
      AllSeenClosed(t, ids, ids);
      if v.prev in t.hist {
        OlderHidden(t, v, ids);
        ShownIsRead(t.hist, t.hist[v.prev], ids);
      }
      NoneShownIff(t, ids, v, mark);
    }
  }

  /** What shows below a version is not that version. */
  lemma {:induction false} ShownOlder<R(!new)>(t: Rows<R>, v: Version<R>, seen: iset<Txnid>)
    requires WellChained(t) && v.xmax == 0 && v.xmin > 0 && LinkOk(t.hist, v) && !Shows(seen, v.xmin, v.xmax)
    ensures ShownVersion(t.hist, v, seen) != Some(v)
  {
    if v.prev in t.hist { SupersededShown(t, t.hist[v.prev], seen); }
  }

  lemma {:induction false} SupersededShown<R(!new)>(t: Rows<R>, v: Version<R>, seen: iset<Txnid>)
    requires WellChained(t) && LinkOk(t.hist, v)
    ensures ShownVersion(t.hist, v, seen).Some? ==> var o := ShownVersion(t.hist, v, seen).value; o == v || o.prev < v.prev
    decreases v.prev
  {
    if v.prev in t.hist { SupersededShown(t, t.hist[v.prev], seen); }
  }

  lemma {:induction false} NoneShownIff<R(!new)>(t: Rows<R>, ids: iset<Txnid>, v: Version<R>, mark: Txnid)
    requires WellChained(t) && IdsIn(t, ids) && 0 !in ids && LinkOk(t.hist, v) && v.xmin in ids && v.xmax != 0
    ensures ShownVersion(t.hist, v, UpTo(mark)) == None <==> !Straddles(Chain(t.hist, v), mark)
    decreases v.prev
  {
    var c := Chain(t.hist, v);
    assert c[0] == v;
    if v.prev in t.hist {
      var o := t.hist[v.prev];
      NoneShownIff(t, ids, o, mark);
      assert c[1..] == Chain(t.hist, o);
      if Straddles(c, mark) && !(v.xmin <= mark < v.xmax) {
        var i :| 0 <= i < |c| && c[i].xmin <= mark < c[i].xmax;
        assert c[1..][i - 1] == c[i];
      }
      if Straddles(c[1..], mark) {
        var i :| 0 <= i < |c[1..]| && c[1..][i].xmin <= mark < c[1..][i].xmax;
        assert c[i + 1] == c[1..][i];
      }
    }
  }

  /** The next session shows the same version of every row exactly when that holds of every row. */
  lemma ReopenIff<R(!new)>(d: Db<R>, a: Spec<R>, mark: Txnid)
    requires Inv(d, a)
    ensures (forall r :: r in d.saved.main ==> SameVersion(d.saved, r, CommittedIds(NewDb(mark, d.saved).reg), CommittedIds(d.reg)))
       <==> (forall r :: r in d.saved.main ==> KeptBy(d.saved, r, mark))
  {
    hide ShownVersion, KeptBy, WellChained, IdsIn, Closed, Shown, CurOk, SnapsOk;
    assert CommittedIds(NewDb(mark, d.saved).reg) == UpTo(mark);
    forall r | r in d.saved.main ensures SameVersion(d.saved, r, UpTo(mark), CommittedIds(d.reg)) <==> KeptBy(d.saved, r, mark) {
      SameVersionIff(d.saved, CommittedIds(d.reg), mark, r);
    }
  }

  ghost predicate SameVersion<R>(t: Rows<R>, r: Rowid, s1: iset<Txnid>, s2: iset<Txnid>)
    requires r in t.main
  {
    ShownVersion(t.hist, t.main[r], s1) == ShownVersion(t.hist, t.main[r], s2)
  }

  /**
   Once every stored id is at most the recorded one, what the next session starts from is the
   committed table, and its rows meet what `SnapshotsRead` asks of them.
   */
  lemma ReopenKeeps<R(!new)>(d: Db<R>, a: Spec<R>, mark: Txnid)
    requires Inv(d, a) && StoredUpTo(d.saved, mark)
    ensures WellChained(d.saved) && LiveRecords(d.saved) == a.committed
    ensures Inv(NewDb(mark, d.saved), Spec(a.committed, map[], map[]))
  {
    hide Lookup, Closed, CurOk, SnapsOk, WellChained;
    LiveShown(d.saved, CommittedIds(d.reg));
    var m := LiveRecords(d.saved);
    forall r ensures (r in m <==> r in a.committed) && (r in m && r in a.committed ==> m[r] == a.committed[r]) {
      assert Lookup(d.saved, r, CommittedIds(d.reg)) == Get(m, r) == Get(a.committed, r);
    }
    assert m == a.committed;
    InitInv(mark, d.saved);
  }

  /** The id the file records: that of the last commit of a writable transaction. */
  ghost function MarkAfter<R(!new)>(d: Db<R>, mark: Txnid, ops: seq<Op<R>>): Txnid
    decreases |ops|
  {
    if ops == [] || !ValidRegistry(d.reg) || !Allowed(d, ops[0]) then mark
    else
      var op := ops[0];
      MarkAfter(Do(d, op), if op.OpCommit? && op.t in d.writable then op.t else mark, ops[1..])
  }

  /**
   After a run in which writers commit in the order of their ids, and no writable transaction
   with a smaller id than the last of them commits after it, the next session starts from the
   committed table.
   */
  lemma SessionsRead<R(!new)>(base: Txnid, rows: Rows<R>, ops: seq<Op<R>>, d: Db<R>, a: Spec<R>, past: Past<R>)
    requires WellChained(rows) && StoredUpTo(rows, base)
    requires var m := LiveRecords(rows); ReachesInOrder(NewDb(base, rows), Spec(m, map[], map[]), [(base, m)], ops, d, a, past)
    requires Top(past) <= MarkAfter(NewDb(base, rows), base, ops)
    ensures WellChained(d.saved) && StoredUpTo(d.saved, MarkAfter(NewDb(base, rows), base, ops))
    ensures LiveRecords(d.saved) == a.committed
  {
    hide ReachesInOrder, Lookup, WellChained, Inv, TableAt, Shown, LiveRecords, MarkAfter;
    InitInv(base, rows);
    StartPast(base, rows);
    RunPast(NewDb(base, rows), Spec(LiveRecords(rows), map[], map[]), [(base, LiveRecords(rows))], ops, d, a, past);
    ReopenKeeps(d, a, MarkAfter(NewDb(base, rows), base, ops));
  }

  /**
   The second of two writable transactions inserts and commits, then the first commits: the file
   records the first one's id, and the next session does not see the row.
   */
  lemma LateCommitLosesARow<R(!new)>(rec: R) returns (ops: seq<Op<R>>, d: Db<R>, a: Spec<R>)
    ensures var none := Rows<R>.Rows(map[], map[]);
            && Reaches(NewDb(0, none), Spec(map[], map[], map[]), ops, d, a)
            && MarkAfter(NewDb(0, none), 0, ops) == 1
    ensures a.committed == map[7 := rec]
    ensures Lookup(d.saved, 7, CommittedIds(NewDb(1, d.saved).reg)) == None
  {
    hide Inv, Reaches, MarkAfter, Snap, ValidRegistry, Lookup, CommittedIds;
    var d0, a0 := NewDb(0, Rows<R>.Rows(map[], map[])), Spec<R>.Spec(map[], map[], map[]);
    var o1, o3, o4, o5 := Op<R>.OpBegin(true), Op<R>.OpInsert(2, 7, rec), Op<R>.OpCommit(2), Op<R>.OpCommit(1);
    ops := [o1] + ([o1] + ([o3] + ([o4] + ([o5] + []))));
    EmptyInv<R>(0);
    var d1, a1 := Taken(d0, a0, 0, o1, [o1] + ([o3] + ([o4] + ([o5] + []))));
    var d2, a2 := Taken(d1, a1, 0, o1, [o3] + ([o4] + ([o5] + [])));
    var d3, a3 := Taken(d2, a2, 0, o3, [o4] + ([o5] + []));
    var d4, a4 := Taken(d3, a3, 0, o4, [o5] + []);
    d, a := Taken(d4, a4, 2, o5, []);
    Arrived(d, a, 1);
    assert a.committed == map[7 := rec];
    assert d.saved == Rows(map[7 := Version(2, 0, 0, rec)], map[]);
    LaterIdUnseen(rec);
  }

  lemma LaterIdUnseen<R>(rec: R)
    ensures var t := Rows(map[7 := Version(2, 0, 0, rec)], map[]); Lookup(t, 7, CommittedIds(NewDb(1, t).reg)) == None
  {
  }

  lemma Arrived<R(!new)>(d: Db<R>, a: Spec<R>, mark: Txnid)
    ensures Reaches(d, a, [], d, a) && MarkAfter(d, mark, []) == mark
  {
  }

  /** One step in front of a run. */
  lemma Taken<R(!new)>(d: Db<R>, a: Spec<R>, mark: Txnid, op: Op<R>, rest: seq<Op<R>>) returns (d1: Db<R>, a1: Spec<R>)
    requires Inv(d, a) && Allowed(d, op)
    ensures ValidRegistry(d.reg) && d1 == Do(d, op) && a1 == Tell(a, d, op) && Inv(d1, a1)
    ensures forall d', a' :: Reaches(d1, a1, rest, d', a') ==> Reaches(d, a, [op] + rest, d', a')
    ensures MarkAfter(d, mark, [op] + rest) == MarkAfter(d1, if op.OpCommit? && op.t in d.writable then op.t else mark, rest)
  {
    StepKept(d, a, op);
    d1, a1 := Do(d, op), Tell(a, d, op);
    hide Inv, Do, Tell, Allowed;
    assert ([op] + rest)[1..] == rest;
  }
}
