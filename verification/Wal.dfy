/**
 The log file in use: recovery, appending, reading pages, and the checkpoint that folds the
 log into the database file. The fixed-size frame layout (version 1) is modelled.
 */
module Wals {
  import opened WalLog

  /** map[p] is one more than the index of the last of the first n frames that holds page p. */
  ghost predicate Indexed<P>(index: map<Pgno, nat>, log: seq<Slot<P>>, n: nat) {
    && n <= |log|
    && (forall p :: p in index ==> 0 < index[p] <= n && log[index[p] - 1].key.pgno == p
                                   && forall i :: index[p] <= i < n ==> log[i].key.pgno != p)
    && (forall i :: 0 <= i < n ==> log[i].key.pgno in index)
  }

  lemma {:induction false} IndexReads<P>(index: map<Pgno, nat>, db: map<Pgno, P>, log: seq<Slot<P>>, n: nat, p: Pgno)
    requires Indexed(index, log, n)
    ensures p in index ==> p in Content(db, log, n) && Content(db, log, n)[p] == log[index[p] - 1].page
    ensures p !in index ==> (p in Content(db, log, n) <==> p in db) && (p in db ==> Content(db, log, n)[p] == db[p])
  {
    if p in index {
      LatestWins(db, log, n, p, index[p]);
    } else {
      NeverLogged(db, log, n, p);
    }
  }

  lemma {:induction false} LatestWins<P>(db: map<Pgno, P>, log: seq<Slot<P>>, n: nat, p: Pgno, j: nat)
    requires 0 < j <= n <= |log| && log[j - 1].key.pgno == p && forall i :: j <= i < n ==> log[i].key.pgno != p
    ensures p in Content(db, log, n) && Content(db, log, n)[p] == log[j - 1].page
  {
    if j < n { LatestWins(db, log, n - 1, p, j); }
  }

  lemma {:induction false} NeverLogged<P>(db: map<Pgno, P>, log: seq<Slot<P>>, n: nat, p: Pgno)
    requires n <= |log| && forall i :: 0 <= i < n ==> log[i].key.pgno != p
    ensures p in Content(db, log, n) <==> p in db
    ensures p in db ==> Content(db, log, n)[p] == db[p]
  {
    if n > 0 { NeverLogged(db, log, n - 1, p); }
  }

  lemma IndexGrows<P>(index: map<Pgno, nat>, log: seq<Slot<P>>, n: nat)
    requires Indexed(index, log, n) && n < |log|
    ensures Indexed(index[log[n].key.pgno := n + 1], log, n + 1)
  {
  }

  lemma IndexFrame<P>(index: map<Pgno, nat>, log: seq<Slot<P>>, log': seq<Slot<P>>, n: nat)
    requires Indexed(index, log, n) && n <= |log'| && forall i :: 0 <= i < n ==> log'[i] == log[i]
    ensures Indexed(index, log', n)
  {
  }

  /** Checks salts and checksums frame by frame and remembers the last commit. */
  method FollowChain<P(==)>(file: seq<Slot<P>>, s1: Salt, s2: Salt) returns (committed: nat, ghost e: nat)
    ensures ChainEnds(s1, s2, file, e) && committed == LastCommit(file, e)
  {
    var idx := 0;
    committed := 0;
    var rolling := Seed(s1);
    while idx < |file|
      invariant 0 <= committed <= idx <= |file|
      invariant Chained(s1, s2, file, idx) && rolling == PrevSum(s1, file, idx)
      invariant committed == LastCommit(file, idx)
    {
      var f := file[idx];
      if f.key.salt1 != s1 || f.key.salt2 != s2 { break; }
      if f.crc1 != Link(rolling, f.key, f.page) || f.crc2 != Alone(f.key, f.page) { break; }
      rolling := f.crc1;
      idx := idx + 1;
      if f.key.dbsize != 0 { committed := idx; }
    }
    e := idx;
  }

  method BuildIndex<P>(file: seq<Slot<P>>, n: nat) returns (index: map<Pgno, nat>)
    requires n <= |file|
    ensures Indexed(index, file, n)
  {
    index := map[];
    for i := 0 to n
      invariant Indexed(index, file, i)
    {
      IndexGrows(index, file, i);
      index := index[file[i].key.pgno := i + 1];
    }
  }

  class Wal<P(==, !new)> {
    /** the log file: frames after the header */
    var log: seq<Slot<P>>
    var salt1: Salt
    var salt2: Salt
    var nframe: nat
    var index: map<Pgno, nat>

    ghost predicate Valid()
      reads this
    {
      Chained(salt1, salt2, log, nframe) && Indexed(index, log, nframe)
    }

    /** The pages readers see over a database file. */
    ghost function View(db: map<Pgno, P>): map<Pgno, P>
      requires Valid()
      reads this
    {
      Content(db, log, nframe)
    }

    /**
     Opens a log file: follows the chain, then keeps the frames up to the last commit.
     Slots behind that point stay in the file.
     */
    constructor (file: seq<Slot<P>>, s1: Salt, s2: Salt)
      ensures Valid() && log == file && salt1 == s1 && salt2 == s2
      ensures exists e :: ChainEnds(s1, s2, file, e) && nframe == LastCommit(file, e)
    {
      var committed, e := FollowChain(file, s1, s2);
      var ix := BuildIndex(file, committed);
      log, salt1, salt2 := file, s1, s2;
      index, nframe := ix, committed;
    }

    /** The latest logged image of a page, or nothing when the page is only in the database file. */
    method ReadPage(p: Pgno) returns (page: seq<P>)
      requires Valid()
      ensures page == [] ==> forall db :: (p in View(db) <==> p in db) && (p in db ==> View(db)[p] == db[p])
      ensures page != [] ==> |page| == 1 && forall db :: p in View(db) && View(db)[p] == page[0]
    {
      forall db { IndexReads(index, db, log, nframe, p); }
      if p !in index { return []; }
      return [log[index[p] - 1].page];
    }

    /** Writes one frame over slot nframe, chained to the frame before it. */
    method Append(w: Write<P>)
      requires Valid()
      modifies this
      ensures Valid() && salt1 == old(salt1) && salt2 == old(salt2)
      ensures nframe == old(nframe) + 1
      ensures log == Overwrite(old(log), old(nframe), [FrameFor(salt1, salt2, PrevSum(salt1, old(log), old(nframe)), w)])
      ensures forall db :: View(db) == Content(db, old(log), old(nframe))[w.pgno := w.page]
    {
      hide Indexed, Content, SlotOk;
      var seed := if nframe == 0 then Seed(salt1) else log[nframe - 1].crc1;
      var key := FrameKey(w.pgno, w.dbsize, salt1, salt2);
      var f := Slot(key, w.page, Link(seed, key, w.page), Alone(key, w.page));
      AppendedFrame(salt1, salt2, log, nframe, index, w);
      log := log[..nframe] + [f] + if nframe + 1 < |log| then log[nframe + 1..] else [];
      index := index[w.pgno := nframe + 1];
      nframe := nframe + 1;
    }

    /** Appends the frames of one commit, the last one marked. */
    method AppendBatch(ws: seq<Write<P>>)
      requires Valid()
      modifies this
      ensures Valid() && salt1 == old(salt1) && salt2 == old(salt2)
      ensures nframe == old(nframe) + |ws|
      ensures log == Overwrite(old(log), old(nframe), Frames(salt1, salt2, PrevSum(salt1, old(log), old(nframe)), ws))
      ensures forall db :: View(db) == Applied(Content(db, old(log), old(nframe)), ws)
    {
      hide Indexed, Content, SlotOk, Overwrite, FrameFor, Frames, PrevSum;
      AppendNone(salt1, salt2, log, nframe);
      for i := 0 to |ws|
        invariant Valid() && salt1 == old(salt1) && salt2 == old(salt2)
        invariant nframe == old(nframe) + i
        invariant log == Overwrite(old(log), old(nframe), Frames(salt1, salt2, PrevSum(salt1, old(log), old(nframe)), ws[..i]))
        invariant forall db :: View(db) == Applied(Content(db, old(log), old(nframe)), ws[..i])
      {
        AppendTwice(salt1, salt2, old(log), old(nframe), ws[..i], [ws[i]]);
        OneFrame(salt1, salt2, PrevSum(salt1, log, nframe), ws[i]);
        Append(ws[i]);
        assert ws[..i + 1] == ws[..i] + [ws[i]];
      }
      assert ws[..|ws|] == ws;
    }

    /**
     Copies the latest image of every logged page into the database file, then restarts
     the log with new salts. At every moment of the copying the disk is one that
     `CheckpointSafe` covers.
     */
    method Checkpoint(db: map<Pgno, P>) returns (db': map<Pgno, P>)
      requires Valid()
      modifies this
      ensures Valid() && nframe == 0 && log == []
      ensures db' == Content(db, old(log), old(nframe)) && View(db') == db'
      ensures salt1 == NextSalt1(old(salt1)) && salt2 == NextSalt2(old(salt2))
    {
      hide Content, SlotOk, NextSalt2, NextSalt1;
      db' := CopyPages(index, db, log, nframe);
      salt1, salt2 := NextSalt1(salt1), NextSalt2(salt2);
      nframe, index, log := 0, map[], [];
      ContentNone(db', log);
    }
  }

  /** Copies page by page; whenever it is interrupted, the file is a partial copy. */
  method CopyPages<P>(index: map<Pgno, nat>, db: map<Pgno, P>, log: seq<Slot<P>>, n: nat) returns (db': map<Pgno, P>)
    requires Indexed(index, log, n)
    ensures db' == Content(db, log, n)
  {
    hide Content, PartlyCopied;
    db' := db;
    var left := index.Keys;
    CopyStart(db, log, n);
    while left != {}
      invariant left <= index.Keys && PartlyCopied(db, log, n, db')
      invariant forall p :: p in index && p !in left ==> p in db' && db'[p] == log[index[p] - 1].page
      decreases |left|
    {
      var p :| p in left;
      CopyOne(db, log, n, db', p, index[p] - 1, log[index[p] - 1].page);
      db' := db'[p := log[index[p] - 1].page];
      left := left - {p};
    }
    CopyEnd(index, db, log, n, db');
  }

  /** Whatever is written over a logged page, be it a torn image, the file is a partial copy. */
  lemma CopyOne<P>(db: map<Pgno, P>, log: seq<Slot<P>>, n: nat, db': map<Pgno, P>, p: Pgno, i: nat, page: P)
    requires n <= |log| && PartlyCopied(db, log, n, db') && i < n && log[i].key.pgno == p
    ensures PartlyCopied(db, log, n, db'[p := page])
  {
  }

  lemma CopyStart<P>(db: map<Pgno, P>, log: seq<Slot<P>>, n: nat)
    requires n <= |log|
    ensures PartlyCopied(db, log, n, db)
  {
  }

  lemma CopyEnd<P>(index: map<Pgno, nat>, db: map<Pgno, P>, log: seq<Slot<P>>, n: nat, db': map<Pgno, P>)
    requires Indexed(index, log, n) && PartlyCopied(db, log, n, db')
    requires forall p :: p in index ==> p in db' && db'[p] == log[index[p] - 1].page
    ensures db' == Content(db, log, n)
  {
    hide Content;
    var full := Content(db, log, n);
    forall p ensures p in full <==> p in db' {
      IndexReads(index, db, log, n, p);
    }
    forall p | p in db' ensures p in full && db'[p] == full[p] {
      IndexReads(index, db, log, n, p);
    }
  }

  lemma AppendNone<P(!new)>(s1: Salt, s2: Salt, log: seq<Slot<P>>, n: nat)
    requires n <= |log|
    ensures Overwrite(log, n, Frames(s1, s2, PrevSum(s1, log, n), [])) == log
    ensures forall db :: Applied(Content(db, log, n), []) == Content(db, log, n)
  {
  }

  lemma OneFrame<P>(s1: Salt, s2: Salt, prev: Sum<P>, w: Write<P>)
    ensures Frames(s1, s2, prev, [w]) == [FrameFor(s1, s2, prev, w)]
  {
  }

  lemma AppendedFrame<P(!new)>(s1: Salt, s2: Salt, log: seq<Slot<P>>, n: nat, index: map<Pgno, nat>, w: Write<P>)
    requires Chained(s1, s2, log, n) && Indexed(index, log, n)
    ensures var log' := Overwrite(log, n, [FrameFor(s1, s2, PrevSum(s1, log, n), w)]);
            && Chained(s1, s2, log', n + 1) && Indexed(index[w.pgno := n + 1], log', n + 1)
            && forall db :: Content(db, log', n + 1) == Content(db, log, n)[w.pgno := w.page]
  {
    hide Indexed;
    var f := FrameFor(s1, s2, PrevSum(s1, log, n), w);
    var log' := Overwrite(log, n, [f]);
    OverwriteAt(log, n, [f]);
    IndexFrame(index, log, log', n);
    IndexGrows(index, log', n);
    forall db ensures Content(db, log', n + 1) == Content(db, log, n)[w.pgno := w.page] {
      ContentPrefix(db, log, log', n);
    }
  }

  // ---------------------------------- checkpoint ----------------------------------

  function NextSalt2(s: Salt): Salt {
    ((s as bv32) ^ 0xA5A5_A5A5) as int
  }

  /** What is on disk: the database file, the log header's salts if there is one, the log. */
  datatype Disk<P> = Disk(db: map<Pgno, P>, header: seq<(Salt, Salt)>, log: seq<Slot<P>>)

  /** The pages a reopened database shows: recovered log over the database file. */
  ghost predicate Shows<P(!new)>(d: Disk<P>, m: map<Pgno, P>) {
    if d.header == [] then m == d.db
    else exists e :: ChainEnds(d.header[0].0, d.header[0].1, d.log, e) && m == Content(d.db, d.log, LastCommit(d.log, e))
  }

  function NextSalt1(s: Salt): Salt { (s + 0x9E37_79B9) % 0x1_0000_0000 }

  /** The places where a crash can strike a checkpoint of disk d whose log holds n frames. */
  ghost predicate CrashedCheckpoint<P>(d: Disk<P>, n: nat, d': Disk<P>)
    requires n <= |d.log|
  {
    // some pages copied, in any order, perhaps in part
    || (d'.header == d.header && d'.log == d.log && PartlyCopied(d.db, d.log, n, d'.db))
    // all copied and synced, log truncated
    || (d'.db == Content(d.db, d.log, n) && d'.header == [] && d'.log == [])
    // header written, whole or torn, with or without the truncation having reached the disk
    || (d'.db == Content(d.db, d.log, n) && |d'.header| == 1 && (d'.log == [] || d'.log == d.log))
  }

  /** Pages without a frame among the first n are as they were; the others may hold anything. */
  ghost predicate PartlyCopied<P>(db: map<Pgno, P>, log: seq<Slot<P>>, n: nat, db': map<Pgno, P>)
    requires n <= |log|
  {
    forall p :: (forall i :: 0 <= i < n ==> log[i].key.pgno != p)
           ==> (p in db <==> p in db') && (p in db ==> db'[p] == db[p])
  }

  /** Laying the log over a partly copied file gives what it gives over the original file. */
  lemma {:induction false} ContentOverCopy<P>(db: map<Pgno, P>, db': map<Pgno, P>, log: seq<Slot<P>>, n: nat)
    requires n <= |log| && PartlyCopied(db, log, n, db')
    ensures Content(db', log, n) == Content(db, log, n)
  {
    var full, again := Content(db, log, n), Content(db', log, n);
    forall p ensures p in full <==> p in again {
      PageDecided(db, db', log, n, p);
    }
    forall p | p in full && p in again ensures full[p] == again[p] {
      PageDecided(db, db', log, n, p);
    }
  }

  lemma PageDecided<P>(db: map<Pgno, P>, db': map<Pgno, P>, log: seq<Slot<P>>, n: nat, p: Pgno)
    requires n <= |log| && PartlyCopied(db, log, n, db')
    ensures p in Content(db, log, n) <==> p in Content(db', log, n)
    ensures p in Content(db, log, n) ==> Content(db', log, n)[p] == Content(db, log, n)[p]
  {
    hide Content;
    if i :| 0 <= i < n && log[i].key.pgno == p {
      var j := LastOf(log, n, p, i);
      LatestWins(db, log, n, p, j);
      LatestWins(db', log, n, p, j);
    } else {
      NeverLogged(db, log, n, p);
      NeverLogged(db', log, n, p);
    }
  }

  lemma {:induction false} LastOf<P>(log: seq<Slot<P>>, n: nat, p: Pgno, i: nat) returns (j: nat)
    requires i < n <= |log| && log[i].key.pgno == p
    ensures 0 < j <= n && log[j - 1].key.pgno == p && forall x :: j <= x < n ==> log[x].key.pgno != p
  {
    if log[n - 1].key.pgno == p { j := n; } else { j := LastOf(log, n - 1, p, i); }
  }

  /** Under other salts nothing of a log is recovered. */
  lemma OldLogRejected<P>(s1: Salt, s2: Salt, t1: Salt, t2: Salt, log: seq<Slot<P>>, n: nat, e: nat)
    requires Chained(s1, s2, log, n) && n > 0 && (t1, t2) != (s1, s2)
    requires ChainEnds(t1, t2, log, e)
    ensures e == 0
  {
    assert SlotOk(s1, s2, PrevSum(s1, log, 0), log[0]);
    assert !SlotOk(t1, t2, PrevSum(t1, log, 0), log[0]);
  }

  /** The salts a checkpoint writes reject every frame of the log it folded. */
  lemma FoldedLogRejected<P>(s1: Salt, s2: Salt, log: seq<Slot<P>>, n: nat, e: nat)
    requires Chained(s1, s2, log, n) && n > 0 && ChainEnds(NextSalt1(s1), NextSalt2(s2), log, e)
    ensures e == 0
  {
    hide NextSalt2, SlotOk;
    OldLogRejected(s1, s2, NextSalt1(s1), NextSalt2(s2), log, n, e);
  }

  /**
   A crash at any step of a checkpoint leaves the logical content of every page unchanged,
   even when it tears the page being copied or the new header.
   */
  lemma CheckpointSafe<P(!new)>(d: Disk<P>, e: nat, d': Disk<P>, m: map<Pgno, P>)
    requires |d.header| == 1 && ChainEnds(d.header[0].0, d.header[0].1, d.log, e)
    requires e > 0 || d.log == []
    requires CrashedCheckpoint(d, LastCommit(d.log, e), d')
    requires Shows(d', m)
    ensures m == Content(d.db, d.log, LastCommit(d.log, e))
  {
    hide Content, SlotOk, PartlyCopied;
    var s1, s2 := d.header[0].0, d.header[0].1;
    var n := LastCommit(d.log, e);
    var full := Content(d.db, d.log, n);
    if d'.header != [] {
      var e' :| ChainEnds(d'.header[0].0, d'.header[0].1, d'.log, e') && m == Content(d'.db, d'.log, LastCommit(d'.log, e'));
      if d'.log == d.log && d'.header[0] == d.header[0] {
        ChainEndUnique(s1, s2, d.log, e, e');
        CopiedAll(d.db, d.log, n);
        ContentOverCopy(d.db, d'.db, d.log, n);
      } else {
        if d'.log == d.log && e > 0 {
          OldLogRejected(s1, s2, d'.header[0].0, d'.header[0].1, d.log, e, e');
        }
        ContentNone(d'.db, d'.log);
      }
    }
  }

  lemma CopiedAll<P>(db: map<Pgno, P>, log: seq<Slot<P>>, n: nat)
    requires n <= |log|
    ensures PartlyCopied(db, log, n, Content(db, log, n))
  {
    forall p | forall i :: 0 <= i < n ==> log[i].key.pgno != p
      ensures (p in db <==> p in Content(db, log, n)) && (p in db ==> Content(db, log, n)[p] == db[p])
    {
      NeverLogged(db, log, n, p);
    }
  }

  lemma ContentNone<P>(db: map<Pgno, P>, log: seq<Slot<P>>)
    ensures Content(db, log, 0) == db
  {
  }
}
