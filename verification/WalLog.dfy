/**
 The write-ahead log as a sequence of frames with a checksum chain.

 Checksums are symbolic: two sums are equal only when they were computed over equal data,
 which is what treating the chain as collision-free means.
 */
module WalLog {
  type Pgno = nat

  type Salt = s: nat | s < 0x1_0000_0000

  /** The 16 bytes a checksum covers besides the page. */
  datatype FrameKey = FrameKey(pgno: Pgno, dbsize: nat, salt1: Salt, salt2: Salt)

  datatype Sum<P> = Seed(salt: Salt) | Link(prev: Sum<P>, key: FrameKey, page: P) | Alone(key: FrameKey, page: P)

  /** One frame slot of the log file; what is on disk may be anything. */
  datatype Slot<P> = Slot(key: FrameKey, page: P, crc1: Sum<P>, crc2: Sum<P>)

  /** What a commit appends: pages in order, the last one carrying the database size. */
  datatype Write<P> = Write(pgno: Pgno, page: P, dbsize: nat)

  // --------------------------------- validity ---------------------------------

  ghost function PrevSum<P>(salt1: Salt, log: seq<Slot<P>>, i: nat): Sum<P>
    requires i <= |log|
  {
    if i == 0 then Seed(salt1) else log[i - 1].crc1
  }

  ghost predicate SlotOk<P>(salt1: Salt, salt2: Salt, prev: Sum<P>, s: Slot<P>) {
    && s.key.salt1 == salt1 && s.key.salt2 == salt2
    && s.crc1 == Link(prev, s.key, s.page)
    && s.crc2 == Alone(s.key, s.page)
  }

  /** The first n slots form a chain. */
  ghost predicate Chained<P>(salt1: Salt, salt2: Salt, log: seq<Slot<P>>, n: nat) {
    n <= |log| && forall i :: 0 <= i < n ==> SlotOk(salt1, salt2, PrevSum(salt1, log, i), log[i])
  }

  /** n is where the chain ends: at the end of the log, or before the first slot that fails. */
  ghost predicate ChainEnds<P>(salt1: Salt, salt2: Salt, log: seq<Slot<P>>, n: nat) {
    Chained(salt1, salt2, log, n) && (n == |log| || !SlotOk(salt1, salt2, PrevSum(salt1, log, n), log[n]))
  }

  /** The number of slots up to and including the last commit among the first n. */
  ghost function LastCommit<P>(log: seq<Slot<P>>, n: nat): (c: nat)
    requires n <= |log|
    ensures c <= n
    ensures c > 0 ==> log[c - 1].key.dbsize != 0
    ensures forall i :: c <= i < n ==> log[i].key.dbsize == 0
  {
    if n == 0 then 0 else if log[n - 1].key.dbsize != 0 then n else LastCommit(log, n - 1)
  }

  lemma ChainEndUnique<P>(salt1: Salt, salt2: Salt, log: seq<Slot<P>>, n: nat, m: nat)
    requires ChainEnds(salt1, salt2, log, n) && ChainEnds(salt1, salt2, log, m)
    ensures n == m
  {
  }

  // ------------------------------- logical content -------------------------------

  /** Pages after the first n frames are laid over the database file. */
  ghost function Content<P>(db: map<Pgno, P>, log: seq<Slot<P>>, n: nat): map<Pgno, P>
    requires n <= |log|
  {
    if n == 0 then db else Content(db, log, n - 1)[log[n - 1].key.pgno := log[n - 1].page]
  }

  ghost function Applied<P>(db: map<Pgno, P>, ws: seq<Write<P>>): map<Pgno, P> {
    if ws == [] then db else Applied(db, ws[..|ws| - 1])[ws[|ws| - 1].pgno := ws[|ws| - 1].page]
  }

  lemma {:induction false} ContentPrefix<P>(db: map<Pgno, P>, a: seq<Slot<P>>, b: seq<Slot<P>>, n: nat)
    requires n <= |a| && n <= |b| && forall i :: 0 <= i < n ==> a[i] == b[i]
    ensures Content(db, a, n) == Content(db, b, n)
  {
    if n > 0 { ContentPrefix(db, a, b, n - 1); }
  }

  // --------------------------------- appending ---------------------------------

  ghost function FrameFor<P>(salt1: Salt, salt2: Salt, prev: Sum<P>, w: Write<P>): Slot<P> {
    var key := FrameKey(w.pgno, w.dbsize, salt1, salt2);
    Slot(key, w.page, Link(prev, key, w.page), Alone(key, w.page))
  }

  /** The frames that appending ws after sum `prev` produces. */
  ghost function Frames<P>(salt1: Salt, salt2: Salt, prev: Sum<P>, ws: seq<Write<P>>): (fs: seq<Slot<P>>)
    ensures |fs| == |ws|
    decreases |ws|
  {
    if ws == [] then []
    else var f := FrameFor(salt1, salt2, prev, ws[0]); [f] + Frames(salt1, salt2, f.crc1, ws[1..])
  }

  lemma {:induction false} FramesAt<P>(salt1: Salt, salt2: Salt, prev: Sum<P>, ws: seq<Write<P>>, i: nat)
    requires i < |ws|
    ensures var fs := Frames(salt1, salt2, prev, ws);
            fs[i] == FrameFor(salt1, salt2, if i == 0 then prev else fs[i - 1].crc1, ws[i])
    decreases |ws|
  {
    if i > 0 {
      var f := FrameFor(salt1, salt2, prev, ws[0]);
      FramesAt(salt1, salt2, f.crc1, ws[1..], i - 1);
    }
  }

  /** The sum the next frame is chained to once the frames of ws follow `prev`. */
  ghost function LastSum<P>(salt1: Salt, salt2: Salt, prev: Sum<P>, ws: seq<Write<P>>): Sum<P> {
    if ws == [] then prev else Frames(salt1, salt2, prev, ws)[|ws| - 1].crc1
  }

  lemma FramesNone<P>(salt1: Salt, salt2: Salt, prev: Sum<P>)
    ensures Frames(salt1, salt2, prev, []) == [] && LastSum(salt1, salt2, prev, []) == prev
  {
  }

  lemma FramesFirst<P>(salt1: Salt, salt2: Salt, prev: Sum<P>, ws: seq<Write<P>>)
    requires ws != []
    ensures var f := FrameFor(salt1, salt2, prev, ws[0]);
            && Frames(salt1, salt2, prev, ws) == [f] + Frames(salt1, salt2, f.crc1, ws[1..])
            && LastSum(salt1, salt2, prev, ws) == LastSum(salt1, salt2, f.crc1, ws[1..])
  {
  }

  lemma {:induction false} FramesConcat<P>(salt1: Salt, salt2: Salt, prev: Sum<P>, ws: seq<Write<P>>, vs: seq<Write<P>>)
    ensures Frames(salt1, salt2, prev, ws + vs)
         == Frames(salt1, salt2, prev, ws) + Frames(salt1, salt2, LastSum(salt1, salt2, prev, ws), vs)
    decreases |ws|
  {
    hide Frames, LastSum;
    if ws == [] {
      FramesNone(salt1, salt2, prev);
      assert ws + vs == vs;
    } else {
      var f := FrameFor(salt1, salt2, prev, ws[0]);
      FramesConcat(salt1, salt2, f.crc1, ws[1..], vs);
      FramesFirst(salt1, salt2, prev, ws);
      FramesFirst(salt1, salt2, prev, ws + vs);
      assert (ws + vs)[1..] == ws[1..] + vs;
    }
  }

  ghost predicate IsBatch<P>(ws: seq<Write<P>>) {
    ws != [] && ws[|ws| - 1].dbsize != 0 && forall i :: 0 <= i < |ws| - 1 ==> ws[i].dbsize == 0
  }

  ghost function Flat<P>(bs: seq<seq<Write<P>>>): seq<Write<P>> {
    if bs == [] then [] else Flat(bs[..|bs| - 1]) + bs[|bs| - 1]
  }

  /** How many of the batches lie wholly within the first k writes. */
  ghost function WholeBatches<P>(bs: seq<seq<Write<P>>>, k: nat): (n: nat)
    ensures n <= |bs|
  {
    if bs == [] then 0 else if |Flat(bs)| <= k then |bs| else WholeBatches(bs[..|bs| - 1], k)
  }

  // --------------------------- recovery after a crash ---------------------------

  /** The log after frames for `ws` were appended to an empty log and a crash kept k of them. */
  ghost predicate CrashLeft<P>(salt1: Salt, salt2: Salt, ws: seq<Write<P>>, k: nat, log: seq<Slot<P>>) {
    && k <= |ws| && k <= |log|
    && (forall i :: 0 <= i < k ==> log[i] == Frames(salt1, salt2, Seed(salt1), ws)[i])
    && (k == |log| || !SlotOk(salt1, salt2, PrevSum(salt1, log, k), log[k]))
  }

  lemma CrashChain<P>(salt1: Salt, salt2: Salt, ws: seq<Write<P>>, k: nat, log: seq<Slot<P>>)
    requires CrashLeft(salt1, salt2, ws, k, log)
    ensures ChainEnds(salt1, salt2, log, k)
    ensures forall i :: 0 <= i < k
              ==> log[i].key.dbsize == ws[i].dbsize && log[i].key.pgno == ws[i].pgno && log[i].page == ws[i].page
  {
    forall i | 0 <= i < k
      ensures SlotOk(salt1, salt2, PrevSum(salt1, log, i), log[i])
      ensures log[i].key.dbsize == ws[i].dbsize && log[i].key.pgno == ws[i].pgno && log[i].page == ws[i].page
    {
      FramesAt(salt1, salt2, Seed(salt1), ws, i);
    }
  }

  lemma {:induction false} FlatWhole<P>(bs: seq<seq<Write<P>>>, k: nat)
    requires forall b :: 0 <= b < |bs| ==> IsBatch(bs[b])
    ensures var whole := bs[..WholeBatches(bs, k)];
            |Flat(whole)| <= |Flat(bs)| && |Flat(whole)| <= k && Flat(bs)[..|Flat(whole)|] == Flat(whole)
  {
    if bs != [] && |Flat(bs)| > k {
      var b1 := bs[..|bs| - 1];
      FlatWhole(b1, k);
      assert bs[..WholeBatches(bs, k)] == b1[..WholeBatches(b1, k)];
      assert Flat(bs)[..|Flat(b1)|] == Flat(b1);
    } else {
      assert bs[..|bs|] == bs;
    }
  }

  /** Inside the batches that are not whole, no write up to k is a commit. */
  lemma {:induction false} NoCommitPast<P>(bs: seq<seq<Write<P>>>, k: nat, i: nat)
    requires forall b :: 0 <= b < |bs| ==> IsBatch(bs[b])
    requires |Flat(bs[..WholeBatches(bs, k)])| <= i < k && i < |Flat(bs)|
    ensures Flat(bs)[i].dbsize == 0
  {
    assert bs[..|bs|] == bs;
    if |Flat(bs)| > k {
      var b1 := bs[..|bs| - 1];
      assert bs[..WholeBatches(bs, k)] == b1[..WholeBatches(b1, k)];
      if i < |Flat(b1)| {
        NoCommitPast(b1, k, i);
      } else {
        assert Flat(bs)[i] == bs[|bs| - 1][i - |Flat(b1)|];
      }
    }
  }

  lemma {:induction false} WholeEndsInCommit<P>(bs: seq<seq<Write<P>>>)
    requires bs != [] && forall b :: 0 <= b < |bs| ==> IsBatch(bs[b])
    ensures Flat(bs) != [] && Flat(bs)[|Flat(bs)| - 1].dbsize != 0
  {
    var z := bs[|bs| - 1];
    assert IsBatch(z);
    assert Flat(bs)[|Flat(bs)| - 1] == z[|z| - 1];
  }

  /** Recovery keeps exactly the whole batches among the frames that survived. */
  lemma RecoveredIsWhole<P>(salt1: Salt, salt2: Salt, bs: seq<seq<Write<P>>>, k: nat, log: seq<Slot<P>>)
    requires forall b :: 0 <= b < |bs| ==> IsBatch(bs[b])
    requires CrashLeft(salt1, salt2, Flat(bs), k, log)
    ensures LastCommit(log, k) == |Flat(bs[..WholeBatches(bs, k)])|
  {
    hide CrashLeft, IsBatch, Flat, WholeBatches, Frames, SlotOk;
    KeptLength(salt1, salt2, Flat(bs), k, log);
    CrashChain(salt1, salt2, Flat(bs), k, log);
    FlatWhole(bs, k);
    var n := |Flat(bs[..WholeBatches(bs, k)])|;
    forall i | n <= i < k ensures log[i].key.dbsize == 0 {
      NoCommitPast(bs, k, i);
    }
    if n > 0 {
      NonEmptyWhole(bs, WholeBatches(bs, k));
      WholeEndsInCommit(bs[..WholeBatches(bs, k)]);
      assert Flat(bs)[n - 1] == Flat(bs[..WholeBatches(bs, k)])[n - 1];
    }
  }

  lemma KeptLength<P>(salt1: Salt, salt2: Salt, ws: seq<Write<P>>, k: nat, log: seq<Slot<P>>)
    requires CrashLeft(salt1, salt2, ws, k, log)
    ensures k <= |ws| && k <= |log|
  {
  }

  lemma NonEmptyWhole<P>(bs: seq<seq<Write<P>>>, n: nat)
    requires n <= |bs| && |Flat(bs[..n])| > 0
    ensures bs[..n] != []
  {
  }

  lemma {:induction false} ContentIsApplied<P>(db: map<Pgno, P>, log: seq<Slot<P>>, ws: seq<Write<P>>, n: nat)
    requires n <= |log| && n <= |ws|
    requires forall i :: 0 <= i < n ==> log[i].key.pgno == ws[i].pgno && log[i].page == ws[i].page
    ensures Content(db, log, n) == Applied(db, ws[..n])
  {
    if n > 0 {
      ContentIsApplied(db, log, ws, n - 1);
      assert ws[..n][..n - 1] == ws[..n - 1];
    }
  }

  /**
   After any commit batches and a crash that left any prefix of their frames followed by
   something that fails the chain, recovery rebuilds the pages of the whole batches, and
   nothing of the batch that was cut.
   */
  lemma RecoveryIsAtomic<P>(salt1: Salt, salt2: Salt, db: map<Pgno, P>, bs: seq<seq<Write<P>>>, k: nat,
                            log: seq<Slot<P>>, n: nat)
    requires forall b :: 0 <= b < |bs| ==> IsBatch(bs[b])
    requires CrashLeft(salt1, salt2, Flat(bs), k, log)
    requires ChainEnds(salt1, salt2, log, n)
    ensures Content(db, log, LastCommit(log, n)) == Applied(db, Flat(bs[..WholeBatches(bs, k)]))
  {
    hide CrashLeft, IsBatch, Flat, WholeBatches, Frames, SlotOk, ChainEnds, Content, Applied;
    KeptLength(salt1, salt2, Flat(bs), k, log);
    CrashChain(salt1, salt2, Flat(bs), k, log);
    ChainEndUnique(salt1, salt2, log, n, k);
    RecoveredIsWhole(salt1, salt2, bs, k, log);
    FlatWhole(bs, k);
    ContentIsApplied(db, log, Flat(bs), LastCommit(log, k));
  }

  // ------------------------------- the stale tail -------------------------------

  /** The file after frames were written from slot c on: later slots keep what they held. */
  ghost function Overwrite<P>(log: seq<Slot<P>>, c: nat, fs: seq<Slot<P>>): seq<Slot<P>>
    requires c <= |log|
  {
    log[..c] + fs + if c + |fs| < |log| then log[c + |fs|..] else []
  }

  /** A slot that some crash tore: it fails whatever precedes it. */
  ghost predicate Torn<P>(s: Slot<P>) {
    s.crc2 != Alone(s.key, s.page)
  }

  /** No slot from c on can be taken for a commit. */
  ghost predicate TailHarmless<P>(log: seq<Slot<P>>, c: nat) {
    forall i :: c <= i < |log| ==> log[i].key.dbsize == 0 || Torn(log[i])
  }

  lemma OverwriteChained<P>(salt1: Salt, salt2: Salt, log: seq<Slot<P>>, c: nat, ws: seq<Write<P>>)
    requires Chained(salt1, salt2, log, c)
    ensures Chained(salt1, salt2, Overwrite(log, c, Frames(salt1, salt2, PrevSum(salt1, log, c), ws)), c + |ws|)
  {
    hide Frames, SlotOk, Overwrite, PrevSum;
    var fs := Frames(salt1, salt2, PrevSum(salt1, log, c), ws);
    FramesLength(salt1, salt2, PrevSum(salt1, log, c), ws);
    OverwriteAt(log, c, fs);
    var log' := Overwrite(log, c, fs);
    forall i | 0 <= i < c + |ws| ensures SlotOk(salt1, salt2, PrevSum(salt1, log', i), log'[i]) {
      if i < c {
        SamePrev(salt1, log, log', i);
      } else {
        FrameOk(salt1, salt2, PrevSum(salt1, log, c), ws, i - c);
        PrevInFrames(salt1, log, log', c, fs, i);
      }
    }
  }

  lemma SamePrev<P>(salt1: Salt, log: seq<Slot<P>>, log': seq<Slot<P>>, i: nat)
    requires i <= |log| && i <= |log'| && forall j :: 0 <= j < i ==> log'[j] == log[j]
    ensures PrevSum(salt1, log', i) == PrevSum(salt1, log, i)
  {
  }

  lemma PrevInFrames<P>(salt1: Salt, log: seq<Slot<P>>, log': seq<Slot<P>>, c: nat, fs: seq<Slot<P>>, i: nat)
    requires c <= |log| && c <= i < c + |fs| <= |log'|
    requires forall j :: 0 <= j < c ==> log'[j] == log[j]
    requires forall j :: c <= j < c + |fs| ==> log'[j] == fs[j - c]
    ensures PrevSum(salt1, log', i) == if i == c then PrevSum(salt1, log, c) else fs[i - c - 1].crc1
  {
  }

  lemma OverwriteAt<P>(log: seq<Slot<P>>, c: nat, fs: seq<Slot<P>>)
    requires c <= |log|
    ensures |Overwrite(log, c, fs)| >= c + |fs|
    ensures forall i :: 0 <= i < c ==> Overwrite(log, c, fs)[i] == log[i]
    ensures forall i :: c <= i < c + |fs| ==> Overwrite(log, c, fs)[i] == fs[i - c]
  {
  }

  lemma OverwriteTwice<P>(log: seq<Slot<P>>, c: nat, fs: seq<Slot<P>>, gs: seq<Slot<P>>)
    requires c <= |log|
    ensures c + |fs| <= |Overwrite(log, c, fs)|
    ensures Overwrite(Overwrite(log, c, fs), c + |fs|, gs) == Overwrite(log, c, fs + gs)
  {
    OverwriteAt(log, c, fs);
  }

  /** Appending two runs of frames one after the other is appending them together. */
  lemma AppendTwice<P>(salt1: Salt, salt2: Salt, log: seq<Slot<P>>, c: nat, ws: seq<Write<P>>, vs: seq<Write<P>>)
    requires c <= |log|
    ensures var once := Overwrite(log, c, Frames(salt1, salt2, PrevSum(salt1, log, c), ws));
            && c + |ws| <= |once|
            && Overwrite(once, c + |ws|, Frames(salt1, salt2, PrevSum(salt1, once, c + |ws|), vs))
            == Overwrite(log, c, Frames(salt1, salt2, PrevSum(salt1, log, c), ws + vs))
  {
    hide Frames, Overwrite;
    var prev := PrevSum(salt1, log, c);
    var fs := Frames(salt1, salt2, prev, ws);
    FramesLength(salt1, salt2, prev, ws);
    OverwriteAt(log, c, fs);
    assert PrevSum(salt1, Overwrite(log, c, fs), c + |ws|) == LastSum(salt1, salt2, prev, ws);
    FramesConcat(salt1, salt2, prev, ws, vs);
    OverwriteTwice(log, c, fs, Frames(salt1, salt2, LastSum(salt1, salt2, prev, ws), vs));
  }

  lemma FrameOk<P>(salt1: Salt, salt2: Salt, prev: Sum<P>, ws: seq<Write<P>>, i: nat)
    requires i < |ws|
    ensures var fs := Frames(salt1, salt2, prev, ws);
            i < |fs| && SlotOk(salt1, salt2, if i == 0 then prev else fs[i - 1].crc1, fs[i])
  {
    FramesAt(salt1, salt2, prev, ws, i);
  }

  /** After appending over a harmless tail, recovery finds the appended frames and nothing stale. */
  lemma NothingRevived<P>(salt1: Salt, salt2: Salt, log: seq<Slot<P>>, c: nat, ws: seq<Write<P>>, e: nat)
    requires Chained(salt1, salt2, log, c) && TailHarmless(log, c)
    requires ChainEnds(salt1, salt2, Overwrite(log, c, Frames(salt1, salt2, PrevSum(salt1, log, c), ws)), e)
    ensures var log' := Overwrite(log, c, Frames(salt1, salt2, PrevSum(salt1, log, c), ws));
            c + |ws| <= e && LastCommit(log', e) == LastCommit(log', c + |ws|)
  {
    hide Frames;
    var fs := Frames(salt1, salt2, PrevSum(salt1, log, c), ws);
    FramesLength(salt1, salt2, PrevSum(salt1, log, c), ws);
    var log' := Overwrite(log, c, fs);
    OverwriteChained(salt1, salt2, log, c, ws);
    var m := c + |ws|;
    assert m <= e;
    assert forall i :: m <= i < |log'| ==> log'[i] == log[i];
    assert forall i :: m <= i < e ==> log'[i].key.dbsize == 0;
    LastCommitSkips(log', m, e);
  }

  lemma FramesLength<P>(salt1: Salt, salt2: Salt, prev: Sum<P>, ws: seq<Write<P>>)
    ensures |Frames(salt1, salt2, prev, ws)| == |ws|
  {
  }

  lemma {:induction false} LastCommitSkips<P>(log: seq<Slot<P>>, m: nat, e: nat)
    requires m <= e <= |log| && forall i :: m <= i < e ==> log[i].key.dbsize == 0
    ensures LastCommit(log, e) == LastCommit(log, m)
  {
    if m < e { LastCommitSkips(log, m, e - 1); }
  }

  /** A crash while a batch is being appended in order leaves a harmless tail again. */
  lemma TailStaysHarmless<P>(salt1: Salt, salt2: Salt, log: seq<Slot<P>>, c: nat, ws: seq<Write<P>>, j: nat,
                             log': seq<Slot<P>>)
    requires c <= |log| && TailHarmless(log, c) && IsBatch(ws) && j < |ws|
    requires var fs := Frames(salt1, salt2, PrevSum(salt1, log, c), ws);
             c + j <= |log'| && (forall i :: 0 <= i < c ==> log'[i] == log[i])
             && (forall i :: c <= i < c + j ==> log'[i] == fs[i - c])
             && (forall i :: c + j <= i < |log'| ==> Torn(log'[i]) || (i < |log| && log'[i] == log[i]))
    ensures TailHarmless(log', c)
  {
    var prev := PrevSum(salt1, log, c);
    forall i | c <= i < |log'| ensures log'[i].key.dbsize == 0 || Torn(log'[i]) {
      if i < c + j {
        FramesAt(salt1, salt2, prev, ws, i - c);
      }
    }
  }

  /** The frames a checksum was computed over, oldest first, and the salt it started from. */
  ghost function History<P>(s: Sum<P>): seq<(FrameKey, P)> {
    match s
    case Link(prev, key, page) => History(prev) + [(key, page)]
    case _ => []
  }

  ghost function Root<P>(s: Sum<P>): Sum<P> {
    match s
    case Link(prev, _, _) => Root(prev)
    case _ => s
  }

  ghost function Told<P>(log: seq<Slot<P>>, n: nat): seq<(FrameKey, P)>
    requires n <= |log|
  {
    seq(n, i requires 0 <= i < n => (log[i].key, log[i].page))
  }

  lemma ToldMore<P>(log: seq<Slot<P>>, n: nat)
    requires 0 < n <= |log|
    ensures Told(log, n) == Told(log, n - 1) + [(log[n - 1].key, log[n - 1].page)]
  {
  }

  lemma ChainLast<P>(salt1: Salt, salt2: Salt, log: seq<Slot<P>>, n: nat)
    requires Chained(salt1, salt2, log, n) && n > 0
    ensures n <= |log| && Chained(salt1, salt2, log, n - 1)
    ensures log[n - 1].crc1 == Link(PrevSum(salt1, log, n - 1), log[n - 1].key, log[n - 1].page)
  {
  }

  lemma {:induction false} ChainTells<P>(salt1: Salt, salt2: Salt, log: seq<Slot<P>>, n: nat)
    requires Chained(salt1, salt2, log, n)
    ensures n <= |log| && History(PrevSum(salt1, log, n)) == Told(log, n) && Root(PrevSum(salt1, log, n)) == Seed(salt1)
  {
    hide SlotOk;
    if n > 0 {
      ChainLast(salt1, salt2, log, n);
      ChainTells(salt1, salt2, log, n - 1);
      ToldMore(log, n);
    } else {
      assert Told(log, 0) == [];
    }
  }

  lemma {:induction false} SumsDetermined<P>(a: Sum<P>, b: Sum<P>)
    requires History(a) == History(b) && Root(a) == Root(b)
    ensures a == b
  {
    match a {
      case Link(p, k, g) =>
        assert History(a)[|History(a)| - 1] == (k, g);
        match b {
          case Link(q, k', g') =>
            assert History(b)[|History(b)| - 1] == (k', g');
            assert History(p) == History(a)[..|History(a)| - 1] && History(q) == History(b)[..|History(b)| - 1];
            SumsDetermined(p, q);
          case _ =>
        }
      case _ =>
    }
  }

  /** s is intact and its checksum was computed over exactly the frames `told` and itself. */
  ghost predicate Continues<P>(salt1: Salt, salt2: Salt, s: Slot<P>, told: seq<(FrameKey, P)>) {
    && !Torn(s) && s.key.salt1 == salt1 && s.key.salt2 == salt2
    && s.crc1.Link? && s.crc1.key == s.key && s.crc1.page == s.page
    && Root(s.crc1) == Seed(salt1) && History(s.crc1.prev) == told
  }

  /**
   A slot left over behind a valid chain is taken as its continuation if and only if it is
   intact and was written after frames identical to the ones now before it.
   */
  lemma StaleAdoptedIff<P>(salt1: Salt, salt2: Salt, log: seq<Slot<P>>, m: nat)
    requires Chained(salt1, salt2, log, m) && m < |log|
    ensures SlotOk(salt1, salt2, PrevSum(salt1, log, m), log[m])
       <==> Continues(salt1, salt2, log[m], Told(log, m))
  {
    ChainTells(salt1, salt2, log, m);
    var s := log[m];
    if s.crc1.Link? && Root(s.crc1) == Seed(salt1) && History(s.crc1.prev) == Told(log, m) {
      SumsDetermined(s.crc1.prev, PrevSum(salt1, log, m));
    }
  }

  /** Behind the first m slots there is a commit, reached over slots that all continue the frames before them. */
  ghost predicate StaleCommit<P>(salt1: Salt, salt2: Salt, log: seq<Slot<P>>, m: nat) {
    exists i :: m <= i < |log| && log[i].key.dbsize != 0 && ContinueTo(salt1, salt2, log, m, i)
  }

  ghost predicate ContinueTo<P>(salt1: Salt, salt2: Salt, log: seq<Slot<P>>, m: nat, i: nat)
    requires i < |log|
  {
    forall j :: m <= j <= i ==> Continues(salt1, salt2, log[j], Told(log, j))
  }

  lemma {:induction false} ContinuedChain<P>(salt1: Salt, salt2: Salt, log: seq<Slot<P>>, m: nat, i: nat)
    requires Chained(salt1, salt2, log, m) && m <= i < |log| && ContinueTo(salt1, salt2, log, m, i)
    ensures Chained(salt1, salt2, log, i + 1)
    decreases i
  {
    hide Continues, Told, SlotOk;
    if m < i { ContinuedChain(salt1, salt2, log, m, i - 1); }
    StaleAdoptedIff(salt1, salt2, log, i);
  }

  lemma ChainContinues<P>(salt1: Salt, salt2: Salt, log: seq<Slot<P>>, m: nat, e: nat, i: nat)
    requires Chained(salt1, salt2, log, e) && m <= i < e
    ensures ContinueTo(salt1, salt2, log, m, i)
  {
    hide Continues, Told, SlotOk;
    forall j | m <= j <= i ensures Continues(salt1, salt2, log[j], Told(log, j)) {
      StaleAdoptedIff(salt1, salt2, log, j);
    }
  }

  /**
   Appending over any tail revives something of it as committed data if and only if the tail
   holds a commit that is intact, as is every slot before it, and each of them was written
   after frames identical to the ones now before it.
   */
  lemma RevivedIff<P>(salt1: Salt, salt2: Salt, log: seq<Slot<P>>, c: nat, ws: seq<Write<P>>, e: nat)
    requires Chained(salt1, salt2, log, c)
    requires ChainEnds(salt1, salt2, Overwrite(log, c, Frames(salt1, salt2, PrevSum(salt1, log, c), ws)), e)
    ensures var log' := Overwrite(log, c, Frames(salt1, salt2, PrevSum(salt1, log, c), ws));
            && c + |ws| <= e
            && (LastCommit(log', e) != LastCommit(log', c + |ws|) <==> StaleCommit(salt1, salt2, log', c + |ws|))
  {
    hide Frames, Overwrite, SlotOk, ContinueTo, PrevSum;
    var log' := Overwrite(log, c, Frames(salt1, salt2, PrevSum(salt1, log, c), ws));
    OverwriteChained(salt1, salt2, log, c, ws);
    var m := c + |ws|;
    ChainWithin(salt1, salt2, log', m, e);
    if StaleCommit(salt1, salt2, log', m) {
      var i :| m <= i < |log'| && log'[i].key.dbsize != 0 && ContinueTo(salt1, salt2, log', m, i);
      ContinuedChain(salt1, salt2, log', m, i);
      ChainWithin(salt1, salt2, log', i + 1, e);
    } else {
      forall i | m <= i < e ensures log'[i].key.dbsize == 0 {
        ChainContinues(salt1, salt2, log', m, e, i);
      }
      LastCommitSkips(log', m, e);
    }
  }

  lemma ChainWithin<P>(salt1: Salt, salt2: Salt, log: seq<Slot<P>>, m: nat, e: nat)
    requires Chained(salt1, salt2, log, m) && ChainEnds(salt1, salt2, log, e)
    ensures m <= e <= |log|
  {
  }

  /**
   Three frames of one batch; a crash keeps the first and the last but not the middle one.
   Repeating the batch up to the middle frame makes the old commit frame count.
   */
  lemma ReorderedWriteRevives<P>(salt1: Salt, salt2: Salt, a: Write<P>, b: Write<P>, z: Write<P>, torn: Slot<P>)
    requires IsBatch([a, b, z]) && Torn(torn)
    ensures var fs := Frames(salt1, salt2, Seed(salt1), [a, b, z]);
            var crashed := [fs[0], torn, fs[2]];
            && ChainEnds(salt1, salt2, crashed, 1) && LastCommit(crashed, 1) == 0
            && (var again := Overwrite(crashed, 0, Frames(salt1, salt2, Seed(salt1), [a, b]));
                ChainEnds(salt1, salt2, again, 3) && LastCommit(again, 3) == 3)
  {
    var ws := [a, b, z];
    var fs := Frames(salt1, salt2, Seed(salt1), ws);
    FramesAt(salt1, salt2, Seed(salt1), ws, 0);
    FramesAt(salt1, salt2, Seed(salt1), ws, 1);
    FramesAt(salt1, salt2, Seed(salt1), ws, 2);
    var crashed := [fs[0], torn, fs[2]];
    assert LastCommit(crashed, 1) == 0;
    var gs := Frames(salt1, salt2, Seed(salt1), [a, b]);
    FramesAt(salt1, salt2, Seed(salt1), [a, b], 0);
    FramesAt(salt1, salt2, Seed(salt1), [a, b], 1);
    assert gs == [fs[0], fs[1]];
    var again := Overwrite(crashed, 0, gs);
    assert again == [fs[0], fs[1], fs[2]];
  }
}
