/**
 What each operation does to what transactions read, in terms of reads alone. All of it holds in
 every state a run can reach.
 */
module ReadLaws {
  import opened Basics
  import opened Mvcc
  import opened Versions
  import opened SnapshotIsolation

  /** What open transaction t reads at row r. */
  ghost function Read<R>(d: Db<R>, t: Txnid, r: Rowid): Option<R>
    requires t in d.snaps
  {
    Lookup(d.cur, r, Seen(d.reg, d.snaps[t]))
  }

  /** A write is read back by its transaction; every other read of anybody is as before. */
  lemma WriteReads<R(!new)>(d: Db<R>, a: Spec<R>, op: Op<R>, x: Txnid, r: Rowid)
    requires Inv(d, a) && IsWrite(op) && Allowed(d, op) && x in d.snaps
    ensures ValidRegistry(d.reg) && x in Do(d, op).snaps
    ensures Read(Do(d, op), x, r)
         == if x != op.t || r != op.r then Read(d, x, r) else if op.OpRemove? then None else Some(op.rec)
  {
    hide Inv, Lookup, Seen;
    StepKept(d, a, op);
    ReadsAgree(d, a, x, r);
    ReadsAgree(Do(d, op), Tell(a, d, op), x, r);
    NoWriterNoWrites(d, a);
  }

  lemma NoWriterNoWrites<R(!new)>(d: Db<R>, a: Spec<R>)
    requires Inv(d, a)
    ensures d.writer == None ==> a.own == map[]
  {
  }

  /** A transaction's end changes no read of the others. */
  lemma EndReads<R(!new)>(d: Db<R>, a: Spec<R>, op: Op<R>, x: Txnid, r: Rowid)
    requires Inv(d, a) && (op.OpCommit? || op.OpRollback?) && Allowed(d, op) && x in d.snaps && x != op.t
    ensures ValidRegistry(d.reg) && x in Do(d, op).snaps && Read(Do(d, op), x, r) == Read(d, x, r)
  {
    hide Inv, Lookup, Seen;
    StepKept(d, a, op);
    ReadsAgree(d, a, x, r);
    ReadsAgree(Do(d, op), Tell(a, d, op), x, r);
  }

  /** Nor does a begin, and the new transaction reads the committed table. */
  lemma BeginReads<R(!new)>(d: Db<R>, a: Spec<R>, canWrite: bool, x: Txnid, r: Rowid)
    requires Inv(d, a)
    ensures ValidRegistry(d.reg) && d.reg.next in Do(d, OpBegin(canWrite)).snaps && d.reg.next !in d.snaps
    ensures Read(Do(d, OpBegin(canWrite)), d.reg.next, r) == Get(a.committed, r)
    ensures x in d.snaps ==> x in Do(d, OpBegin(canWrite)).snaps && Read(Do(d, OpBegin(canWrite)), x, r) == Read(d, x, r)
  {
    hide Lookup, Seen, SavedOk, CurOk;
    var op: Op<R> := OpBegin(canWrite);
    NextIsNew(d, a);
    hide Inv, SnapsOk;
    StepKept(d, a, op);
    ReadsAgree(Do(d, op), Tell(a, d, op), d.reg.next, r);
    if x in d.snaps {
      ReadsAgree(d, a, x, r);
      ReadsAgree(Do(d, op), Tell(a, d, op), x, r);
    }
  }

  lemma NextIsNew<R(!new)>(d: Db<R>, a: Spec<R>)
    requires Inv(d, a)
    ensures ValidRegistry(d.reg) && d.reg.next !in d.snaps && d.writer != Some(d.reg.next) && d.reg.next !in a.base
  {
  }

  /** A refreshed transaction reads, apart from its own writes, what a new one would. */
  lemma RefreshReads<R(!new)>(d: Db<R>, a: Spec<R>, t: Txnid, r: Rowid)
    requires Inv(d, a) && t in d.snaps
    ensures ValidRegistry(d.reg) && t in Do(d, OpRefresh(t)).snaps
    ensures Read(Do(d, OpRefresh(t)), t, r) == if d.writer == Some(t) && r in a.own then Read(d, t, r) else Get(a.committed, r)
  {
    hide Inv, Lookup, Seen;
    var op: Op<R> := OpRefresh(t);
    StepKept(d, a, op);
    ReadsAgree(d, a, t, r);
    ReadsAgree(Do(d, op), Tell(a, d, op), t, r);
  }

  /**
   After the writer commits, a new transaction reads at every row the writer wrote what the writer
   read there, and elsewhere what it would have read before the commit.
   */
  lemma CommitShows<R(!new)>(d: Db<R>, a: Spec<R>, t: Txnid, b: bool, r: Rowid)
    requires Inv(d, a) && d.writer == Some(t) && Allowed(d, OpCommit(t))
    ensures ValidRegistry(d.reg) && ValidRegistry(Do(d, OpCommit(t)).reg) && t in d.snaps
    ensures d.reg.next in Do(Do(d, OpCommit(t)), OpBegin(b)).snaps && d.reg.next in Do(d, OpBegin(b)).snaps
    ensures Read(Do(Do(d, OpCommit(t)), OpBegin(b)), d.reg.next, r)
         == if r in a.own then Read(d, t, r) else Read(Do(d, OpBegin(b)), d.reg.next, r)
  {
    hide Inv, Lookup, Seen;
    var op: Op<R> := OpCommit(t);
    StepKept(d, a, op);
    ReadsAgree(d, a, t, r);
    BeginReads(d, a, b, t, r);
    BeginReads(Do(d, op), Tell(a, d, op), b, t, r);
  }

  /** After the writer rolls back, a new transaction reads what it would have read before. */
  lemma RollbackHides<R(!new)>(d: Db<R>, a: Spec<R>, t: Txnid, b: bool, r: Rowid)
    requires Inv(d, a) && d.writer == Some(t) && Allowed(d, OpRollback(t))
    ensures ValidRegistry(d.reg) && ValidRegistry(Do(d, OpRollback(t)).reg)
    ensures d.reg.next in Do(Do(d, OpRollback(t)), OpBegin(b)).snaps && d.reg.next in Do(d, OpBegin(b)).snaps
    ensures Read(Do(Do(d, OpRollback(t)), OpBegin(b)), d.reg.next, r) == Read(Do(d, OpBegin(b)), d.reg.next, r)
  {
    hide Inv, Lookup, Seen;
    var op: Op<R> := OpRollback(t);
    StepKept(d, a, op);
    BeginReads(d, a, b, t, r);
    BeginReads(Do(d, op), Tell(a, d, op), b, t, r);
  }
}
