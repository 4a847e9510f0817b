/** The lock table: shared and exclusive locks with wait-die conflict resolution. */
module Locks {
  type Txn = nat
  datatype Mode = Shared | Excl
  datatype Resource = Resource(kind: nat, id: nat, sub: nat)
  datatype Holder = Holder(txn: Txn, mode: Mode)
  datatype Verdict = Ok | Busy | Abort

  /** The newest holder stands first. */
  type Table = map<Resource, seq<Holder>>

  function HoldersOf(t: Table, r: Resource): seq<Holder> { if r in t then t[r] else [] }

  predicate Conflict(a: Mode, b: Mode) { a.Excl? || b.Excl? }

  // --------------------------------- what is kept ---------------------------------

  predicate Distinct(s: seq<Holder>) { forall i, j :: 0 <= i < j < |s| ==> s[i].txn != s[j].txn }

  predicate ExclAlone(s: seq<Holder>) { forall i :: 0 <= i < |s| && s[i].mode.Excl? ==> |s| == 1 }

  predicate Sound(s: seq<Holder>) { Distinct(s) && ExclAlone(s) }

  predicate SoundTable(t: Table) { forall r :: r in t ==> Sound(t[r]) }

  predicate Holds(s: seq<Holder>, txn: Txn) { exists i :: 0 <= i < |s| && s[i].txn == txn }

  /** The holders a request conflicts with: any other holder for an upgrade, conflicting modes otherwise. */
  predicate InTheWay(s: seq<Holder>, txn: Txn, mode: Mode, h: Holder) {
    h.txn != txn && if Holds(s, txn) then mode.Excl? && Holder(txn, Excl) !in s else Conflict(mode, h.mode)
  }

  /** The holder a refusal is decided against: the first one in the way. */
  ghost predicate DecidesAt(s: seq<Holder>, txn: Txn, mode: Mode, i: nat) {
    i < |s| && InTheWay(s, txn, mode, s[i]) && forall k :: 0 <= k < i ==> !InTheWay(s, txn, mode, s[k])
  }

  ghost predicate Free(s: seq<Holder>, txn: Txn, mode: Mode) {
    forall i :: 0 <= i < |s| ==> !InTheWay(s, txn, mode, s[i])
  }

  /** What a request is told. */
  ghost predicate Answers(s: seq<Holder>, txn: Txn, mode: Mode, v: Verdict) {
    if Free(s, txn, mode) then v.Ok?
    else exists i: nat :: DecidesAt(s, txn, mode, i) && v == if txn < s[i].txn then Busy else Abort
  }

  /** The holders once a request is granted: an upgrade in place, or a new first holder. */
  function Granted(s: seq<Holder>, txn: Txn, mode: Mode): seq<Holder> {
    if !Holds(s, txn) then [Holder(txn, mode)] + s
    else if mode.Shared? then s
    else Upgraded(s, txn)
  }

  function Upgraded(s: seq<Holder>, txn: Txn): (o: seq<Holder>)
    ensures |o| == |s| && forall i :: 0 <= i < |s| ==> o[i] == if s[i].txn == txn then Holder(txn, Excl) else s[i]
  {
    seq(|s|, i requires 0 <= i < |s| => if s[i].txn == txn then Holder(txn, Excl) else s[i])
  }

  function Without(s: seq<Holder>, txn: Txn): seq<Holder> {
    if s == [] then [] else (if s[0].txn == txn then [] else [s[0]]) + Without(s[1..], txn)
  }

  lemma FirstTwoDiffer(s: seq<Holder>)
    requires Distinct(s)
    ensures |s| >= 2 ==> s[0].txn != s[1].txn
  {
  }

  lemma HoldersSound(t: Table, r: Resource)
    requires SoundTable(t)
    ensures Sound(HoldersOf(t, r)) && Distinct(HoldersOf(t, r))
  {
  }

  /** Granting a request that nothing stands in the way of keeps the holders sound. */
  lemma GrantKeeps(s: seq<Holder>, txn: Txn, mode: Mode)
    requires Sound(s) && Free(s, txn, mode)
    ensures Sound(Granted(s, txn, mode))
    ensures exists i :: 0 <= i < |Granted(s, txn, mode)| && Granted(s, txn, mode)[i].txn == txn
                     && (mode.Excl? ==> Granted(s, txn, mode)[i].mode.Excl?)
  {
    var o := Granted(s, txn, mode);
    if Holds(s, txn) {
      var i :| 0 <= i < |s| && s[i].txn == txn;
      if mode.Excl? && Holder(txn, Excl) !in s {
        FirstTwoDiffer(s);
        forall k | 0 <= k < |s| ensures s[k].txn == txn { assert !InTheWay(s, txn, mode, s[k]); }
      } else if mode.Excl? {
        assert Upgraded(s, txn) == s;
      }
      assert o[i].txn == txn && (mode.Excl? ==> o[i].mode.Excl?);
    } else {
      assert o[0] == Holder(txn, mode);
      forall k | 0 <= k < |s| ensures s[k].mode.Shared? && mode.Shared? { assert !InTheWay(s, txn, mode, s[k]); }
      assert s != [] ==> s[0].mode.Shared? && mode.Shared?;
      assert forall k :: 0 < k < |o| ==> o[k] == s[k - 1];
    }
  }

  lemma {:induction false} WithoutIs(s: seq<Holder>, txn: Txn)
    ensures forall h :: h in Without(s, txn) <==> h in s && h.txn != txn
    ensures |Without(s, txn)| <= |s|
  {
    if s != [] { WithoutIs(s[1..], txn); }
  }

  lemma {:induction false} WithoutDistinct(s: seq<Holder>, txn: Txn)
    requires Distinct(s)
    ensures Distinct(Without(s, txn))
  {
    if s != [] {
      var w := Without(s[1..], txn);
      WithoutDistinct(s[1..], txn);
      WithoutIs(s[1..], txn);
      forall i | 0 <= i < |w| ensures w[i].txn != s[0].txn { assert w[i] in w; }
    }
  }

  /** Releasing removes the transaction's locks and nothing else. */
  lemma ReleaseKeeps(s: seq<Holder>, txn: Txn)
    requires Sound(s)
    ensures Sound(Without(s, txn)) && !Holds(Without(s, txn), txn)
    ensures forall h :: h in Without(s, txn) <==> h in s && h.txn != txn
  {
    WithoutIs(s, txn);
    WithoutDistinct(s, txn);
    var w := Without(s, txn);
    forall i | 0 <= i < |w| ensures w[i].txn != txn && (w[i].mode.Excl? ==> |w| == 1) { assert w[i] in w; }
  }

  // ------------------------------------ every run ------------------------------------

  datatype Op = Acquire(txn: Txn, res: Resource, mode: Mode) | ReleaseAll(txn: Txn)

  function Released(t: Table, txn: Txn): Table { map r | r in t :: Without(t[r], txn) }

  ghost function Do(t: Table, op: Op): Table {
    match op
    case Acquire(txn, r, mode) => if Free(HoldersOf(t, r), txn, mode) then t[r := Granted(HoldersOf(t, r), txn, mode)] else t
    case ReleaseAll(txn) => Released(t, txn)
  }

  ghost function Run(t: Table, ops: seq<Op>): Table
    decreases |ops|
  {
    if ops == [] then t else Run(Do(t, ops[0]), ops[1..])
  }

  lemma DoKeeps(t: Table, op: Op)
    requires SoundTable(t)
    ensures SoundTable(Do(t, op))
  {
    match op {
      case Acquire(txn, r, mode) => if Free(HoldersOf(t, r), txn, mode) { GrantKeeps(HoldersOf(t, r), txn, mode); }
      case ReleaseAll(txn) => forall r | r in t ensures Sound(Without(t[r], txn)) { ReleaseKeeps(t[r], txn); }
    }
  }

  /** Whatever is acquired and released: an exclusive holder is alone, and nobody holds a resource twice. */
  lemma {:induction false} RunKeeps(t: Table, ops: seq<Op>)
    requires SoundTable(t)
    ensures SoundTable(Run(t, ops))
    decreases |ops|
  {
    if ops != [] {
      DoKeeps(t, ops[0]);
      RunKeeps(Do(t, ops[0]), ops[1..]);
    }
  }

  // ------------------------------ who holds what, step by step ------------------------------

  /** txn holds r at least in the given mode. */
  ghost predicate HasLock(t: Table, r: Resource, txn: Txn, mode: Mode) {
    Holder(txn, Excl) in HoldersOf(t, r) || (mode.Shared? && Holder(txn, Shared) in HoldersOf(t, r))
  }

  /** A request can be granted exactly when no other holder's mode conflicts with it. */
  lemma FreeIff(s: seq<Holder>, txn: Txn, mode: Mode)
    requires Sound(s)
    ensures Free(s, txn, mode) <==> forall h :: h in s && h.txn != txn ==> mode.Shared? && h.mode.Shared?
  {
    if Free(s, txn, mode) {
      forall h | h in s && h.txn != txn ensures mode.Shared? && h.mode.Shared? {
        var i :| 0 <= i < |s| && s[i] == h;
        assert !InTheWay(s, txn, mode, s[i]);
        if Holds(s, txn) {
          var k :| 0 <= k < |s| && s[k].txn == txn;
          assert |s| > 1 && forall x :: 0 <= x < |s| ==> s[x].mode.Shared?;
          assert s[k] == Holder(txn, Shared);
        }
      }
    } else {
      var i :| 0 <= i < |s| && InTheWay(s, txn, mode, s[i]);
      assert s[i] in s;
    }
  }

  lemma InGranted(s: seq<Holder>, txn: Txn, mode: Mode, h: Holder)
    requires Sound(s) && Free(s, txn, mode)
    ensures h.txn != txn ==> (h in Granted(s, txn, mode) <==> h in s)
    ensures h.txn == txn && h in Granted(s, txn, mode) && h !in s ==> h.mode == mode
    ensures Holder(txn, Excl) in s ==> Holder(txn, Excl) in Granted(s, txn, mode)
    ensures Holder(txn, Excl) in Granted(s, txn, mode) || (mode.Shared? && Holder(txn, Shared) in Granted(s, txn, mode))
  {
    hide Sound, Free;
    var o := Granted(s, txn, mode);
    if Holds(s, txn) && mode.Excl? {
      var k :| 0 <= k < |s| && s[k].txn == txn;
      assert o[k] == Holder(txn, Excl);
      if h in s { var i :| 0 <= i < |s| && s[i] == h; assert h.txn != txn ==> o[i] == h; }
      if h in o { var i :| 0 <= i < |o| && o[i] == h; assert h.txn != txn ==> s[i] == h; }
      if h !in s && h in o && h.txn == txn { var i :| 0 <= i < |o| && o[i] == h; }
    } else if Holds(s, txn) {
      var k :| 0 <= k < |s| && s[k].txn == txn;
      assert s[k] in s && (s[k] == Holder(txn, Excl) || s[k] == Holder(txn, Shared));
    } else {
      assert o[0] == Holder(txn, mode);
      assert forall i :: 0 < i < |o| ==> o[i] == s[i - 1];
    }
  }

  /** What a request leaves: others keep exactly what they hold, the requester holds what it was granted. */
  ghost predicate Acquired(t: Table, t': Table, txn: Txn, r: Resource, mode: Mode) {
    && (forall q :: q != r ==> HoldersOf(t', q) == HoldersOf(t, q))
    && (forall h: Holder :: h.txn != txn ==> (h in HoldersOf(t', r) <==> h in HoldersOf(t, r)))
    && (forall h: Holder :: h.txn == txn && h in HoldersOf(t', r) && h !in HoldersOf(t, r) ==> h.mode == mode)
    && (Holder(txn, Excl) in HoldersOf(t, r) ==> Holder(txn, Excl) in HoldersOf(t', r))
    && HasLock(t', r, txn, mode)
  }

  lemma GrantAcquires(t: Table, txn: Txn, r: Resource, mode: Mode)
    requires SoundTable(t) && Free(HoldersOf(t, r), txn, mode)
    ensures Acquired(t, t[r := Granted(HoldersOf(t, r), txn, mode)], txn, r, mode)
  {
    hide Free, Granted;
    HoldersSound(t, r);
    forall h: Holder ensures h.txn != txn ==> (h in Granted(HoldersOf(t, r), txn, mode) <==> h in HoldersOf(t, r)) {
      InGranted(HoldersOf(t, r), txn, mode, h);
    }
    forall h: Holder | h.txn == txn && h in Granted(HoldersOf(t, r), txn, mode) && h !in HoldersOf(t, r) ensures h.mode == mode {
      InGranted(HoldersOf(t, r), txn, mode, h);
    }
    InGranted(HoldersOf(t, r), txn, mode, Holder(txn, mode));
  }

  /** Exactly the holders that are not txn are left, with their modes. */
  ghost predicate OnlyReleased(t: Table, t': Table, txn: Txn) {
    forall r, h :: h in HoldersOf(t', r) <==> h in HoldersOf(t, r) && h.txn != txn
  }

  /** A release takes away the transaction's locks and leaves everybody else's. */
  lemma ReleasedHolders(t: Table, txn: Txn)
    ensures OnlyReleased(t, Released(t, txn), txn)
  {
    forall r, h ensures h in HoldersOf(Released(t, txn), r) <==> h in HoldersOf(t, r) && h.txn != txn {
      WithoutIs(HoldersOf(t, r), txn);
    }
  }

  /** Until it releases, a transaction keeps every lock it holds, whatever the others do. */
  lemma {:induction false} LocksKept(t: Table, ops: seq<Op>, r: Resource, txn: Txn, mode: Mode)
    requires SoundTable(t) && HasLock(t, r, txn, mode) && ReleaseAll(txn) !in ops
    ensures HasLock(Run(t, ops), r, txn, mode)
    decreases |ops|
  {
    if ops != [] {
      hide Free, Granted, Released;
      DoKeeps(t, ops[0]);
      match ops[0] {
        case Acquire(x, q, m) =>
          if Free(HoldersOf(t, q), x, m) { GrantAcquires(t, x, q, m); }
        case ReleaseAll(x) => ReleasedHolders(t, x);
      }
      LocksKept(Do(t, ops[0]), ops[1..], r, txn, mode);
    }
  }

  /** Two transactions never hold a resource at once unless both share it, after any run. */
  lemma HeldApart(ops: seq<Op>, r: Resource, a: Txn, b: Txn, m: Mode)
    requires a != b && HasLock(Run(map[], ops), r, a, Excl)
    ensures !HasLock(Run(map[], ops), r, b, m)
  {
    RunKeeps(map[], ops);
    var s := HoldersOf(Run(map[], ops), r);
    var i :| 0 <= i < |s| && s[i] == Holder(a, Excl);
    assert |s| == 1;
  }

  // ------------------------------------- waiting -------------------------------------

  /** `w` is told to wait, and `h` is the holder that decided it. */
  ghost predicate Waits(t: Table, w: Txn, h: Txn) {
    exists r, mode, i: nat :: WaitsAt(t, w, h, r, mode, i)
  }

  ghost predicate WaitsAt(t: Table, w: Txn, h: Txn, r: Resource, mode: Mode, i: nat) {
    var s := HoldersOf(t, r);
    Answers(s, w, mode, Busy) && DecidesAt(s, w, mode, i) && s[i].txn == h
  }

  /** Only an older transaction waits, and only for a younger one. */
  lemma WaitsForYounger(t: Table, w: Txn, h: Txn)
    requires Waits(t, w, h)
    ensures w < h
  {
    var r, mode, i: nat :| WaitsAt(t, w, h, r, mode, i);
    var s := HoldersOf(t, r);
    var j: nat :| DecidesAt(s, w, mode, j) && Busy == if w < s[j].txn then Busy else Abort;
    assert i == j;
  }

  ghost predicate WaitPath(t: Table, path: seq<Txn>) {
    forall i :: 0 <= i < |path| - 1 ==> Waits(t, path[i], path[i + 1])
  }

  /** Following the deciding holders never comes back: the wait-for relation has no cycle. */
  lemma {:induction false} NoWaitCycle(t: Table, path: seq<Txn>)
    requires |path| >= 2 && WaitPath(t, path)
    ensures path[0] < path[|path| - 1]
    decreases |path|
  {
    WaitsForYounger(t, path[0], path[1]);
    if |path| > 2 {
      var rest := path[1..];
      forall i | 0 <= i < |rest| - 1 ensures Waits(t, rest[i], rest[i + 1]) { assert Waits(t, path[i + 1], path[i + 1 + 1]); }
      NoWaitCycle(t, rest);
    }
  }

  /** A transaction at least as young as every holder is never told to wait. */
  lemma YoungestNeverWaits(t: Table, r: Resource, txn: Txn, mode: Mode, v: Verdict)
    requires forall i :: 0 <= i < |HoldersOf(t, r)| ==> HoldersOf(t, r)[i].txn <= txn
    requires Answers(HoldersOf(t, r), txn, mode, v)
    ensures !v.Busy?
  {
  }

  // ---------------------- waiting for everybody who is in the way ----------------------

  /** `h` holds a lock that stands in the way of a request on which `w` was told to wait. */
  ghost predicate Blocks(t: Table, w: Txn, h: Holder, r: Resource, mode: Mode) {
    Answers(HoldersOf(t, r), w, mode, Busy) && h in HoldersOf(t, r) && InTheWay(HoldersOf(t, r), w, mode, h)
  }

  /**
   The decision looks at one holder only. Here 7 waits although the older 5 is in its way too,
   and 5 waits for 7, so each keeps the other from going on.
   */
  lemma OlderHolderOverlooked()
    ensures exists ops: seq<Op>, a: Resource, b: Resource ::
      Blocks(Run(map[], ops), 7, Holder(5, Shared), a, Excl) && Blocks(Run(map[], ops), 5, Holder(7, Excl), b, Excl)
  {
    var a, b := Resource(0, 1, 0), Resource(0, 2, 0);
    var ops := [Acquire(5, a, Shared), Acquire(9, a, Shared), Acquire(7, b, Excl)];
    var t1: Table := map[a := [Holder(5, Shared)]];
    var t2: Table := map[a := [Holder(9, Shared), Holder(5, Shared)]];
    var t3: Table := map[a := [Holder(9, Shared), Holder(5, Shared)], b := [Holder(7, Excl)]];
    assert Granted([], 5, Shared) == [Holder(5, Shared)];
    assert Do(map[], ops[0]) == t1;
    assert !Holds(t1[a], 9) && Free(t1[a], 9, Shared);
    assert Granted(t1[a], 9, Shared) == t2[a];
    assert Do(t1, ops[1]) == t2;
    assert Granted([], 7, Excl) == [Holder(7, Excl)] && HoldersOf(t2, b) == [];
    assert Do(t2, ops[2]) == t3;
    assert ops[1..][0] == ops[1] && ops[1..][1..] == ops[2..] && ops[2..][1..] == [];
    assert Run(t2, ops[2..]) == Run(t3, []) == t3;
    assert Run(map[], ops) == t3;
    assert DecidesAt(t3[a], 7, Excl, 0) && InTheWay(t3[a], 7, Excl, t3[a][1]);
    assert DecidesAt(t3[b], 5, Excl, 0);
    assert Blocks(Run(map[], ops), 7, Holder(5, Shared), a, Excl)
           && Blocks(Run(map[], ops), 5, Holder(7, Excl), b, Excl);
  }

  /** Wait-die as it is usually stated: wait only if older than every holder in the way. */
  ghost function WaitDie(s: seq<Holder>, txn: Txn, mode: Mode): Verdict {
    if Free(s, txn, mode) then Ok
    else if forall i :: 0 <= i < |s| && InTheWay(s, txn, mode, s[i]) ==> txn < s[i].txn then Busy
    else Abort
  }

  /**
   The answer is wait-die's exactly when the first holder in the way and the oldest one are on the
   same side of the requester.
   */
  lemma WaitDieIff(s: seq<Holder>, txn: Txn, mode: Mode, v: Verdict, first: nat, oldest: nat)
    requires Answers(s, txn, mode, v) && DecidesAt(s, txn, mode, first)
    requires oldest < |s| && InTheWay(s, txn, mode, s[oldest])
    requires forall i :: 0 <= i < |s| && InTheWay(s, txn, mode, s[i]) ==> s[oldest].txn <= s[i].txn
    ensures v == WaitDie(s, txn, mode) <==> (txn < s[first].txn <==> txn < s[oldest].txn)
  {
    assert InTheWay(s, txn, mode, s[first]);
    var j: nat :| DecidesAt(s, txn, mode, j) && v == if txn < s[j].txn then Busy else Abort;
    assert j == first;
  }

  /** The oldest holder in the way of a request is younger than the requester. */
  ghost predicate OldestIsYounger(s: seq<Holder>, txn: Txn, mode: Mode) {
    exists o :: 0 <= o < |s| && Oldest(s, txn, mode, o) && txn < s[o].txn
  }

  ghost predicate Oldest(s: seq<Holder>, txn: Txn, mode: Mode, o: nat) {
    && o < |s| && InTheWay(s, txn, mode, s[o])
    && forall i :: 0 <= i < |s| && InTheWay(s, txn, mode, s[i]) ==> s[o].txn <= s[i].txn
  }

  lemma {:induction false} OldestExists(s: seq<Holder>, txn: Txn, mode: Mode, i: nat, n: nat) returns (o: nat)
    requires i < n <= |s| && InTheWay(s, txn, mode, s[i])
    ensures o < n && InTheWay(s, txn, mode, s[o])
    ensures forall k :: 0 <= k < n && InTheWay(s, txn, mode, s[k]) ==> s[o].txn <= s[k].txn
    decreases n
  {
    hide InTheWay;
    if j :| 0 <= j < n - 1 && InTheWay(s, txn, mode, s[j]) {
      o := OldestExists(s, txn, mode, j, n - 1);
      if InTheWay(s, txn, mode, s[n - 1]) && s[n - 1].txn < s[o].txn { o := n - 1; }
    } else {
      o := i;
    }
  }

  /** Everybody who blocks a waiter is younger than it if and only if the oldest holder in the way is. */
  lemma BlockersYoungerIff(t: Table, w: Txn, r: Resource, mode: Mode)
    requires Answers(HoldersOf(t, r), w, mode, Busy)
    ensures (forall h :: Blocks(t, w, h, r, mode) ==> w < h.txn) <==> OldestIsYounger(HoldersOf(t, r), w, mode)
  {
    var s := HoldersOf(t, r);
    var i: nat :| DecidesAt(s, w, mode, i);
    var o := OldestExists(s, w, mode, i, |s|);
    assert Oldest(s, w, mode, o);
    assert Blocks(t, w, s[o], r, mode);
    if OldestIsYounger(s, w, mode) {
      var o' :| 0 <= o' < |s| && Oldest(s, w, mode, o') && w < s[o'].txn;
      forall h | Blocks(t, w, h, r, mode) ensures w < h.txn {
        var k :| 0 <= k < |s| && s[k] == h;
      }
    }
  }

  datatype Request = Request(txn: Txn, res: Resource, mode: Mode)

  /** Each transaction in the sequence waits, and the next one holds a lock in its way. */
  ghost predicate BlockPath(t: Table, path: seq<Request>) {
    forall i {:trigger path[i]} :: 0 <= i < |path| - 1 ==> BlockedBy(t, path[i], path[i + 1].txn)
  }

  ghost predicate BlockedBy(t: Table, q: Request, h: Txn) {
    exists m :: Blocks(t, q.txn, Holder(h, m), q.res, q.mode)
  }

  lemma BlockerYounger(t: Table, q: Request, h: Txn)
    requires BlockedBy(t, q, h) && OldestIsYounger(HoldersOf(t, q.res), q.txn, q.mode)
    ensures q.txn < h
  {
    hide Answers, InTheWay, OldestIsYounger;
    var m :| Blocks(t, q.txn, Holder(h, m), q.res, q.mode);
    BlockersYoungerIff(t, q.txn, q.res, q.mode);
  }

  /**
   Where the oldest holder in the way of every waiter is younger than it, following all blocking
   holders never comes back: nobody waits for itself.
   */
  lemma {:induction false} NoBlockCycle(t: Table, path: seq<Request>)
    requires |path| >= 2 && BlockPath(t, path)
    requires forall q :: q in path ==> OldestIsYounger(HoldersOf(t, q.res), q.txn, q.mode)
    ensures path[0].txn < path[|path| - 1].txn
    decreases |path|
  {
    hide BlockedBy, OldestIsYounger;
    BlockerYounger(t, path[0], path[1].txn);
    if |path| > 2 {
      var rest := path[1..];
      forall i | 0 <= i < |rest| - 1 ensures BlockedBy(t, rest[i], rest[i + 1].txn) {
        assert rest[i] == path[i + 1];
      }
      NoBlockCycle(t, rest);
    }
  }

  lemma AlreadyHeld(t: Table, r: Resource, s: seq<Holder>, self: nat, txn: Txn, mode: Mode)
    requires s == HoldersOf(t, r) && self < |s| && s[self].txn == txn && (mode.Shared? || s[self].mode.Excl?)
             && Sound(s)
    ensures Free(s, txn, mode) && Granted(s, txn, mode) == s && r in t
    ensures Do(t, Op.Acquire(txn, r, mode)) == t
  {
    assert Holds(s, txn) && s[self] in s;
    if mode.Excl? {
      assert s[self] == Holder(txn, Excl);
      assert Upgraded(s, txn) == s;
    }
    assert t[r := s] == t;
  }

  lemma Decided(s: seq<Holder>, self: nat, txn: Txn, mode: Mode, i: nat)
    requires self <= |s| && (self == |s| <==> !Holds(s, txn)) && Distinct(s) && i < |s|
    requires self < |s| ==> mode.Excl? && s[self] == Holder(txn, Shared) && s[i].txn != txn
    requires self == |s| ==> Conflict(mode, s[i].mode)
    requires forall k :: 0 <= k < i ==> !InTheWay(s, txn, mode, s[k])
    ensures DecidesAt(s, txn, mode, i) && !Free(s, txn, mode)
  {
    assert InTheWay(s, txn, mode, s[i]);
  }

  lemma NotYet(s: seq<Holder>, self: nat, txn: Txn, mode: Mode, i: nat)
    requires self <= |s| && (self == |s| <==> !Holds(s, txn)) && i < |s|
    requires self < |s| ==> s[i].txn == txn
    requires self == |s| ==> !Conflict(mode, s[i].mode)
    ensures !InTheWay(s, txn, mode, s[i])
  {
  }

  // ------------------------------------- the code -------------------------------------

  class LockManager {
    var table: Table

    ghost predicate Valid()
      reads this
    {
      SoundTable(table)
    }

    constructor ()
      ensures Valid() && table == map[]
    {
      table := map[];
    }

    /** Grants the lock, or says whether to wait or to give up; a refusal changes nothing. */
    method Acquire(txn: Txn, r: Resource, mode: Mode) returns (v: Verdict)
      requires Valid()
      modifies this
      ensures Valid()
      ensures Answers(HoldersOf(old(table), r), txn, mode, v)
      ensures table == Do(old(table), Op.Acquire(txn, r, mode))
      ensures v.Ok? <==> forall h :: h in HoldersOf(old(table), r) && h.txn != txn ==> mode.Shared? && h.mode.Shared?
      ensures if v.Ok? then Acquired(old(table), table, txn, r, mode) else table == old(table)
    {
      hide Sound, Granted, InTheWay, Acquired;
      var s := HoldersOf(table, r);
      HoldersSound(table, r);
      FreeIff(s, txn, mode);
      if Free(s, txn, mode) { GrantAcquires(table, txn, r, mode); }
      var self := FindSelf(s, txn);
      if self < |s| && (mode.Shared? || s[self].mode.Excl?) {
        AlreadyHeld(table, r, s, self, txn, mode);
        return Ok;
      }
      for i := 0 to |s|
        invariant forall k :: 0 <= k < i ==> !InTheWay(s, txn, mode, s[k])
        invariant self < |s| ==> mode.Excl? && s[self] == Holder(txn, Shared)
        invariant table == old(table)
      {
        if (self < |s| && s[i].txn != txn) || (self == |s| && Conflict(mode, s[i].mode)) {
          Decided(s, self, txn, mode, i);
          return if txn < s[i].txn then Busy else Abort;
        }
        NotYet(s, self, txn, mode, i);
      }
      GrantKeeps(s, txn, mode);
      table := table[r := Granted(s, txn, mode)];
      v := Ok;
    }

    /** Drops every lock of the transaction. */
    method ReleaseAll(txn: Txn)
      requires Valid()
      modifies this
      ensures Valid()
      ensures table == Do(old(table), Op.ReleaseAll(txn))
      ensures OnlyReleased(old(table), table, txn)
      ensures forall r :: r in table ==> !Holds(table[r], txn)
    {
      hide Sound, Without, Holds, OnlyReleased;
      ghost var was := table;
      DoKeeps(table, Op.ReleaseAll(txn));
      forall r | r in table ensures !Holds(Without(table[r], txn), txn) { ReleaseKeeps(table[r], txn); }
      var todo, done: Table := table.Keys, map[];
      while todo != {}
        invariant table == old(table)
        invariant todo <= table.Keys && done.Keys == table.Keys - todo
        invariant forall r :: r in done ==> done[r] == Without(table[r], txn)
        decreases |todo|
      {
        var r :| r in todo;
        var kept := Unlink(table[r], txn);
        done := done[r := kept];
        todo := todo - {r};
      }
      assert done == Released(was, txn);
      table := done;
      ReleasedHolders(was, txn);
    }
  }

  /** The requester's own entry, or the length if it has none. */
  method FindSelf(s: seq<Holder>, txn: Txn) returns (self: nat)
    ensures self <= |s| && (self < |s| ==> s[self].txn == txn) && (self == |s| <==> !Holds(s, txn))
  {
    self := |s|;
    for i := 0 to |s|
      invariant self <= |s| && (self < |s| ==> s[self].txn == txn)
      invariant self == |s| <==> forall k :: 0 <= k < i ==> s[k].txn != txn
    {
      if s[i].txn == txn { self := i; }
    }
  }

  method Unlink(s: seq<Holder>, txn: Txn) returns (kept: seq<Holder>)
    ensures kept == Without(s, txn)
  {
    kept := [];
    for i := 0 to |s|
      invariant kept + Without(s[i..], txn) == Without(s, txn)
    {
      assert s[i..][1..] == s[i + 1..];
      if s[i].txn != txn { kept := kept + [s[i]]; }
    }
    assert Without(s[|s|..], txn) == [];
  }
}
