/**
 Whole lives of a database over its log: commits, crashes in the middle of a commit, checkpoints
 and crashes in the middle of a checkpoint, each crash followed by a reopening that recovers.
 Frames reach the disk in the order they are written.
 */
module WalSessions {
  import opened WalLog
  import opened Wals

  /** The files, the salts in use and the number of frames in use. */
  datatype Store<P> = Store(db: map<Pgno, P>, s1: Salt, s2: Salt, log: seq<Slot<P>>, nframe: nat)

  datatype Event<P> =
    | Commit(batch: seq<Write<P>>)
    | CrashedCommit(batch: seq<Write<P>>, written: nat)
    | FullCheckpoint
    | CrashedCopy
    | CrashedReset

  /** A fresh log over a database file. */
  ghost function Fresh<P>(db: map<Pgno, P>, s1: Salt, s2: Salt): Store<P> { Store(db, s1, s2, [], 0) }

  /** Opening the files keeps the frames up to the last commit the chain reaches. */
  ghost predicate Reopened<P(!new)>(st: Store<P>) {
    exists e :: ChainEnds(st.s1, st.s2, st.log, e) && st.nframe == LastCommit(st.log, e)
  }

  ghost function Next<P>(st: Store<P>, ws: seq<Write<P>>): seq<Slot<P>>
    requires st.nframe <= |st.log|
  {
    Frames(st.s1, st.s2, PrevSum(st.s1, st.log, st.nframe), ws)
  }

  /**
   The log after only the first `written` frames of a batch were written whole: behind them
   a slot is torn or holds what it held before.
   */
  ghost predicate CutShort<P>(st: Store<P>, ws: seq<Write<P>>, written: nat, log': seq<Slot<P>>)
    requires st.nframe <= |st.log| && written <= |ws|
  {
    var c := st.nframe;
    && c + written <= |log'|
    && (forall i :: 0 <= i < c ==> log'[i] == st.log[i])
    && (forall i :: c <= i < c + written ==> log'[i] == Next(st, ws)[i - c])
    && (forall i :: c + written <= i < |log'| ==> Torn(log'[i]) || (i < |st.log| && log'[i] == st.log[i]))
  }

  ghost predicate Step<P(!new)>(st: Store<P>, ev: Event<P>, st': Store<P>) {
    && st.nframe <= |st.log|
    && match ev
       case Commit(ws) =>
         && IsBatch(ws)
         && st' == st.(log := Overwrite(st.log, st.nframe, Next(st, ws)), nframe := st.nframe + |ws|)
       case CrashedCommit(ws, written) =>
         && IsBatch(ws) && written < |ws|
         && st' == st.(log := st'.log, nframe := st'.nframe)
         && CutShort(st, ws, written, st'.log) && Reopened(st')
       case FullCheckpoint =>
         st' == Store(Content(st.db, st.log, st.nframe), NextSalt1(st.s1), NextSalt2(st.s2), [], 0)
       case CrashedCopy =>
         && st' == st.(db := st'.db, nframe := st'.nframe)
         && PartlyCopied(st.db, st.log, st.nframe, st'.db) && Reopened(st')
       case CrashedReset =>
         st' == Store(Content(st.db, st.log, st.nframe), st'.s1, st'.s2, [], 0)
  }

  ghost predicate RunsTo<P(!new)>(st: Store<P>, evs: seq<Event<P>>, st': Store<P>)
    decreases |evs|
  {
    if evs == [] then st' == st else exists mid :: Step(st, evs[0], mid) && RunsTo(mid, evs[1..], st')
  }

  /** The batches whose commit completed. */
  ghost function Batches<P>(evs: seq<Event<P>>): seq<seq<Write<P>>> {
    if evs == [] then []
    else (if evs[0].Commit? then [evs[0].batch] else []) + Batches(evs[1..])
  }

  ghost predicate Sound<P>(st: Store<P>) {
    && Chained(st.s1, st.s2, st.log, st.nframe) && TailHarmless(st.log, st.nframe)
    && (st.nframe > 0 ==> st.log[st.nframe - 1].key.dbsize != 0)
  }

  ghost function Shown<P>(st: Store<P>): map<Pgno, P>
    requires st.nframe <= |st.log|
  {
    Content(st.db, st.log, st.nframe)
  }

  /** Reopening a sound store finds exactly the frames in use. */
  lemma ReopenKeeps<P>(st: Store<P>, e: nat)
    requires Sound(st) && ChainEnds(st.s1, st.s2, st.log, e)
    ensures LastCommit(st.log, e) == st.nframe
  {
    ChainWithin(st.s1, st.s2, st.log, st.nframe, e);
    LastCommitSkips(st.log, st.nframe, e);
  }

  lemma CommitStep<P(!new)>(st: Store<P>, ws: seq<Write<P>>, st': Store<P>)
    requires Sound(st) && Step(st, Commit(ws), st')
    ensures Sound(st') && Shown(st') == Applied(Shown(st), ws)
  {
    hide Content, Applied, SlotOk, PrevSum, Frames;
    OverwriteChained(st.s1, st.s2, st.log, st.nframe, ws);
    FramesLength(st.s1, st.s2, PrevSum(st.s1, st.log, st.nframe), ws);
    OverwriteAt(st.log, st.nframe, Next(st, ws));
    FramesAt(st.s1, st.s2, PrevSum(st.s1, st.log, st.nframe), ws, |ws| - 1);
    ContentPrefix(st.db, st.log, st'.log, st.nframe);
    ContentAfter(st.db, st, ws, st'.log, |ws|);
    assert ws[..|ws|] == ws;
  }

  lemma {:induction false} ContentAfter<P>(db: map<Pgno, P>, st: Store<P>, ws: seq<Write<P>>, log': seq<Slot<P>>,
                                           k: nat)
    requires st.nframe <= |st.log| && k <= |ws| && st.nframe + k <= |log'|
    requires forall i :: st.nframe <= i < st.nframe + k ==> log'[i] == Next(st, ws)[i - st.nframe]
    ensures Content(db, log', st.nframe + k) == Applied(Content(db, log', st.nframe), ws[..k])
  {
    hide Frames;
    if k > 0 {
      ContentAfter(db, st, ws, log', k - 1);
      FramesAt(st.s1, st.s2, PrevSum(st.s1, st.log, st.nframe), ws, k - 1);
      assert ws[..k][..k - 1] == ws[..k - 1];
    }
  }

  /** A commit that was cut short leaves no trace. */
  lemma CutStep<P(!new)>(st: Store<P>, ws: seq<Write<P>>, written: nat, st': Store<P>)
    requires Sound(st) && Step(st, CrashedCommit(ws, written), st')
    ensures Sound(st') && st'.nframe == st.nframe && Shown(st') == Shown(st)
  {
    hide Content, SlotOk, Frames, PrevSum;
    FramesLength(st.s1, st.s2, PrevSum(st.s1, st.log, st.nframe), ws);
    TailStaysHarmless(st.s1, st.s2, st.log, st.nframe, ws, written, st'.log);
    ContentPrefix(st.db, st.log, st'.log, st.nframe);
    var cut := st.(log := st'.log);
    SoundPrefix(st, cut);
    var e :| ChainEnds(st.s1, st.s2, st'.log, e) && st'.nframe == LastCommit(st'.log, e);
    ReopenKeeps(cut, e);
  }

  lemma SoundPrefix<P>(st: Store<P>, cut: Store<P>)
    requires Sound(st) && cut == st.(log := cut.log) && TailHarmless(cut.log, st.nframe)
    requires st.nframe <= |cut.log| && forall i :: 0 <= i < st.nframe ==> cut.log[i] == st.log[i]
    ensures Sound(cut)
  {
    hide SlotOk;
  }

  lemma CopyStep<P(!new)>(st: Store<P>, st': Store<P>)
    requires Sound(st) && Step(st, CrashedCopy, st')
    ensures Sound(st') && Shown(st') == Shown(st)
  {
    hide Content, SlotOk, PartlyCopied, TailHarmless, PrevSum;
    SoundBound(st);
    var e :| ChainEnds(st.s1, st.s2, st.log, e) && st'.nframe == LastCommit(st.log, e);
    ReopenKeeps(st, e);
    ContentOverCopy(st.db, st'.db, st.log, st.nframe);
  }

  lemma ResetStep<P(!new)>(st: Store<P>, ev: Event<P>, st': Store<P>)
    requires Sound(st) && Step(st, ev, st') && (ev.FullCheckpoint? || ev.CrashedReset?)
    ensures Sound(st') && Shown(st') == Shown(st)
  {
    hide NextSalt1, NextSalt2;
    ContentNone(st'.db, st'.log);
  }

  lemma {:induction false} RunsSound<P(!new)>(st: Store<P>, evs: seq<Event<P>>, st': Store<P>)
    requires Sound(st) && RunsTo(st, evs, st')
    ensures Sound(st') && Shown(st') == Applied(Shown(st), Flat(Batches(evs)))
    decreases |evs|
  {
    hide Sound, Shown, Applied, Flat, Step;
    SoundBound(st);
    if evs == [] {
      NoneApplied(Shown(st));
    } else {
      var mid :| Step(st, evs[0], mid) && RunsTo(mid, evs[1..], st');
      match evs[0] {
        case Commit(ws) => CommitStep(st, ws, mid);
        case CrashedCommit(ws, written) => CutStep(st, ws, written, mid);
        case CrashedCopy => CopyStep(st, mid);
        case _ => ResetStep(st, evs[0], mid);
      }
      SoundBound(mid);
      RunsSound(mid, evs[1..], st');
      SoundBound(st');
      if evs[0].Commit? {
        FlatFirst(evs[0].batch, Batches(evs[1..]));
        AppliedTwice(Shown(st), evs[0].batch, Flat(Batches(evs[1..])));
      } else {
        assert Batches(evs) == Batches(evs[1..]);
      }
    }
  }

  lemma SoundBound<P>(st: Store<P>)
    requires Sound(st)
    ensures st.nframe <= |st.log|
  {
  }

  lemma NoneApplied<P>(m: map<Pgno, P>)
    ensures Applied(m, Flat([])) == m
  {
  }

  lemma {:induction false} AppliedTwice<P>(m: map<Pgno, P>, ws: seq<Write<P>>, vs: seq<Write<P>>)
    ensures Applied(m, ws + vs) == Applied(Applied(m, ws), vs)
    decreases |vs|
  {
    if vs == [] {
      assert ws + vs == ws;
    } else {
      AppliedTwice(m, ws, vs[..|vs| - 1]);
      assert (ws + vs)[..|ws + vs| - 1] == ws + vs[..|vs| - 1];
    }
  }

  lemma {:induction false} FlatFirst<P>(b: seq<Write<P>>, bs: seq<seq<Write<P>>>)
    ensures Flat([b] + bs) == b + Flat(bs)
    decreases |bs|
  {
    var all := [b] + bs;
    if bs == [] {
      assert all[..0] == [] && all[0] == b;
    } else {
      FlatFirst(b, bs[..|bs| - 1]);
      assert all[..|all| - 1] == [b] + bs[..|bs| - 1];
    }
  }

  /** Any batch can be committed to any store. */
  lemma CommitPossible<P(!new)>(st: Store<P>, ws: seq<Write<P>>) returns (st': Store<P>)
    requires Sound(st) && IsBatch(ws)
    ensures Step(st, Commit(ws), st')
  {
    hide SlotOk, Frames, IsBatch, TailHarmless, Overwrite, PrevSum;
    st' := st.(log := Overwrite(st.log, st.nframe, Next(st, ws)), nframe := st.nframe + |ws|);
  }

  /** Any commit can be cut short at any frame. */
  lemma CutPossible<P(!new)>(st: Store<P>, ws: seq<Write<P>>, written: nat) returns (st': Store<P>)
    requires Sound(st) && IsBatch(ws) && written < |ws|
    ensures Step(st, CrashedCommit(ws, written), st')
  {
    hide SlotOk, Frames, IsBatch, TailHarmless, PrevSum, Chained, ChainEnds;
    SoundBound(st);
    FramesLength(st.s1, st.s2, PrevSum(st.s1, st.log, st.nframe), ws);
    var fs := Next(st, ws);
    var log := st.log[..st.nframe] + fs[..written];
    NothingChained(st.s1, st.s2, log);
    var e := ChainEndExists(st.s1, st.s2, log, 0);
    EndInLog(st.s1, st.s2, log, e);
    st' := st.(log := log, nframe := LastCommit(log, e));
    assert Reopened(st');
  }

  lemma NothingChained<P>(s1: Salt, s2: Salt, log: seq<Slot<P>>)
    ensures Chained(s1, s2, log, 0)
  {
  }

  lemma EndInLog<P>(s1: Salt, s2: Salt, log: seq<Slot<P>>, e: nat)
    requires ChainEnds(s1, s2, log, e)
    ensures e <= |log|
  {
  }

  lemma {:induction false} ChainEndExists<P>(s1: Salt, s2: Salt, log: seq<Slot<P>>, n: nat) returns (e: nat)
    requires Chained(s1, s2, log, n)
    ensures ChainEnds(s1, s2, log, e)
    decreases |log| - n
  {
    hide SlotOk;
    if n < |log| && SlotOk(s1, s2, PrevSum(s1, log, n), log[n]) {
      e := ChainEndExists(s1, s2, log, n + 1);
    } else {
      e := n;
    }
  }

  /**
   Over every sequence of commits, checkpoints and crashes, the store shows the pages of exactly
   the batches whose commit completed, in order, over the file it started from; and reopening it
   at the end shows the same.
   */
  lemma SessionsAtomic<P(!new)>(db: map<Pgno, P>, s1: Salt, s2: Salt, evs: seq<Event<P>>, st: Store<P>, e: nat)
    requires RunsTo(Fresh(db, s1, s2), evs, st) && ChainEnds(st.s1, st.s2, st.log, e)
    ensures st.nframe == LastCommit(st.log, e)
    ensures Content(st.db, st.log, LastCommit(st.log, e)) == Applied(db, Flat(Batches(evs)))
  {
    hide RunsTo, Batches, Flat, Applied;
    ContentNone(db, Fresh(db, s1, s2).log);
    RunsSound(Fresh(db, s1, s2), evs, st);
    ReopenKeeps(st, e);
  }

  // ------------------------------- the object in use -------------------------------

  lemma FlatLength<P>(bs: seq<seq<Write<P>>>, i: nat)
    requires i < |bs|
    ensures Flat(bs[..i + 1]) == Flat(bs[..i]) + bs[i]
  {
    assert bs[..i + 1][..i] == bs[..i];
  }

  /**
   Commits batches through one log object, loses the file behind any k frames in a crash, and
   opens what is left with a new object.
   */
  method CommitCrashReopen<P(==, !new)>(s1: Salt, s2: Salt, bs: seq<seq<Write<P>>>, k: nat, rest: seq<Slot<P>>)
    returns (w: Wal<P>)
    requires forall b :: 0 <= b < |bs| ==> IsBatch(bs[b])
    requires k <= |Flat(bs)|
    requires rest == [] || Torn(rest[0])
    ensures w.Valid() && forall db :: w.View(db) == Applied(db, Flat(bs[..WholeBatches(bs, k)]))
  {
    hide Frames, Applied, Content, SlotOk, Flat, Indexed, IsBatch, WholeBatches, Overwrite;
    var first := new Wal([], s1, s2);
    NoFrames<P>(s1, s2);
    for i := 0 to |bs|
      invariant fresh(first) && first.Valid() && first.salt1 == s1 && first.salt2 == s2
      invariant first.nframe == |Flat(bs[..i])| && first.log == Frames(s1, s2, Seed(s1), Flat(bs[..i]))
    {
      OneMoreBatch(s1, s2, Flat(bs[..i]), bs[i]);
      FlatLength(bs, i);
      first.AppendBatch(bs[i]);
    }
    assert bs[..|bs|] == bs;
    FramesLength(s1, s2, Seed(s1), Flat(bs));
    var file := first.log[..k] + rest;
    TornFails(s1, s2, first.log, k, rest);
    w := new Wal(file, s1, s2);
    ghost var e :| ChainEnds(s1, s2, file, e) && w.nframe == LastCommit(file, e);
    forall db ensures w.View(db) == Applied(db, Flat(bs[..WholeBatches(bs, k)])) {
      RecoveryIsAtomic(s1, s2, db, bs, k, file, e);
    }
  }

  lemma NoFrames<P>(s1: Salt, s2: Salt)
    ensures Flat<P>([]) == [] && Frames<P>(s1, s2, Seed(s1), []) == []
  {
  }

  lemma OneMoreBatch<P>(s1: Salt, s2: Salt, ws: seq<Write<P>>, vs: seq<Write<P>>)
    ensures var log := Frames(s1, s2, Seed(s1), ws);
            && |log| == |ws|
            && Overwrite(log, |ws|, Frames(s1, s2, PrevSum(s1, log, |ws|), vs)) == Frames(s1, s2, Seed(s1), ws + vs)
  {
    hide Frames;
    FramesLength(s1, s2, Seed(s1), ws);
    FramesConcat(s1, s2, Seed(s1), ws, vs);
  }

  lemma TornFails<P>(s1: Salt, s2: Salt, log: seq<Slot<P>>, k: nat, rest: seq<Slot<P>>)
    requires k <= |log| && (rest == [] || Torn(rest[0]))
    ensures var file := log[..k] + rest;
            && (forall i :: 0 <= i < k ==> file[i] == log[i])
            && (k == |file| || !SlotOk(s1, s2, PrevSum(s1, file, k), file[k]))
  {
  }
}
