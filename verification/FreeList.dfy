/**
 The free-list: a chain of trunk pages, each listing free leaf pages. Trunks are free too.
 */
module FreeList {
  type Pgno = nat

  datatype Header = Header(pageSize: nat, changeCounter: nat, dbSize: nat, freeHead: Pgno, freeCount: nat,
                           catalogRoot: Pgno, schemaCookie: nat, maxTxnid: nat)

  /** A page as the layer above reads it. */
  datatype Page = Data(bytes: seq<nat>) | Trunk(next: Pgno, leaves: seq<Pgno>) | Head(hdr: Header)

  type Pages = map<Pgno, Page>

  const HEADER_PAGE: Pgno := 1
  const ZERO_PAGE := Data([])

  /** How many leaves a trunk page holds. */
  function PerTrunk(pageSize: nat): nat {
    if pageSize < 9 then 0 else (pageSize - 9) / 4
  }

  /** `trunks` is the chain of trunk pages from `head`. */
  ghost predicate TrunkChain(pages: Pages, head: Pgno, trunks: seq<Pgno>)
    decreases |trunks|
  {
    if trunks == [] then head == 0
    else head != 0 && head == trunks[0] && head in pages && pages[head].Trunk? && TrunkChain(pages, pages[head].next, trunks[1..])
  }

  /** Every free page, trunks and leaves. */
  ghost function FreeSeq(pages: Pages, trunks: seq<Pgno>): seq<Pgno> {
    if trunks == [] then []
    else
      [trunks[0]] + (if trunks[0] in pages && pages[trunks[0]].Trunk? then pages[trunks[0]].leaves else [])
      + FreeSeq(pages, trunks[1..])
  }

  ghost predicate NoRepeats(s: seq<Pgno>) {
    forall i, j :: 0 <= i < j < |s| ==> s[i] != s[j]
  }

  ghost predicate InFile(s: seq<Pgno>, dbSize: nat) {
    forall i :: 0 <= i < |s| ==> 2 <= s[i] <= dbSize
  }

  /** The free-list is a list of different pages of the file, and the header counts them. */
  ghost predicate FreeOk(pages: Pages, h: Header, trunks: seq<Pgno>) {
    && h.dbSize >= 1
    && TrunkChain(pages, h.freeHead, trunks)
    && NoRepeats(FreeSeq(pages, trunks))
    && InFile(FreeSeq(pages, trunks), h.dbSize)
    && h.freeCount == |FreeSeq(pages, trunks)|
  }

  ghost function Elements(s: seq<Pgno>): set<Pgno> {
    set p | p in s
  }

  ghost function FreeSet(pages: Pages, trunks: seq<Pgno>): set<Pgno> {
    Elements(FreeSeq(pages, trunks))
  }

  /** Pages of the file that are neither the header nor free. */
  ghost function Live(h: Header, free: set<Pgno>): set<Pgno> {
    set p: Pgno | 2 <= p <= h.dbSize && p !in free
  }

  lemma {:induction false} DistinctCount(s: seq<Pgno>)
    requires NoRepeats(s)
    ensures |Elements(s)| == |s|
  {
    if s == [] {
      assert Elements(s) == {};
    } else {
      var t, z := s[..|s| - 1], s[|s| - 1];
      DistinctCount(t);
      assert z !in t;
      assert Elements(s) == Elements(t) + {z};
    }
  }

  // ----------------------------------- frames -----------------------------------

  lemma {:induction false} ChainFrame(a: Pages, b: Pages, head: Pgno, trunks: seq<Pgno>)
    requires TrunkChain(a, head, trunks)
    requires forall t :: t in trunks && t in a ==> t in b && b[t] == a[t]
    ensures TrunkChain(b, head, trunks) && FreeSeq(b, trunks) == FreeSeq(a, trunks)
    decreases |trunks|
  {
    if trunks != [] {
      assert trunks[0] in trunks;
      forall t | t in trunks[1..] ensures t in trunks { }
      ChainFrame(a, b, a[head].next, trunks[1..]);
    }
  }

  lemma {:induction false} TrunksAreFree(pages: Pages, head: Pgno, trunks: seq<Pgno>, t: Pgno)
    requires TrunkChain(pages, head, trunks) && t in trunks
    ensures t in FreeSeq(pages, trunks) && t in pages
    decreases |trunks|
  {
    if t != trunks[0] {
      TrunksAreFree(pages, pages[head].next, trunks[1..], t);
    }
  }

  /** The first trunk stands for itself and its leaves; the other trunks are elsewhere. */
  lemma HeadApart(pages: Pages, head: Pgno, trunks: seq<Pgno>)
    requires TrunkChain(pages, head, trunks) && trunks != [] && NoRepeats(FreeSeq(pages, trunks))
    ensures head !in trunks[1..]
    ensures forall t :: t in trunks[1..] ==> t !in pages[head].leaves
    ensures FreeSeq(pages, trunks) == [head] + pages[head].leaves + FreeSeq(pages, trunks[1..])
  {
    var l, r := pages[head].leaves, FreeSeq(pages, trunks[1..]);
    forall t | t in trunks[1..] ensures t != head && t !in l {
      TrunksAreFree(pages, pages[head].next, trunks[1..], t);
      var i :| 0 <= i < |r| && r[i] == t;
      TailDiffers(head, l, r, i);
    }
  }

  lemma TailDiffers(x: Pgno, l: seq<Pgno>, r: seq<Pgno>, i: nat)
    requires NoRepeats([x] + l + r) && i < |r|
    ensures r[i] != x && r[i] !in l
  {
    var s := [x] + l + r;
    assert s[1 + |l| + i] == r[i] && s[0] == x;
    assert forall j :: 0 <= j < |l| ==> s[1 + j] == l[j];
  }

  // --------------------------------- list changes ---------------------------------

  /** Writing the first trunk's leaf list changes only its part of the free-list. */
  lemma LeavesChanged(pages: Pages, head: Pgno, trunks: seq<Pgno>, leaves: seq<Pgno>)
    requires TrunkChain(pages, head, trunks) && trunks != [] && NoRepeats(FreeSeq(pages, trunks))
    ensures var b := pages[head := Trunk(pages[head].next, leaves)];
            && TrunkChain(b, head, trunks)
            && FreeSeq(b, trunks) == [head] + leaves + FreeSeq(pages, trunks[1..])
  {
    var b := pages[head := Trunk(pages[head].next, leaves)];
    HeadApart(pages, head, trunks);
    ChainFrame(pages, b, pages[head].next, trunks[1..]);
  }

  lemma DropOne(x: Pgno, l: seq<Pgno>, r: seq<Pgno>)
    requires NoRepeats([x] + l + r) && l != []
    ensures NoRepeats([x] + l[..|l| - 1] + r) && l[|l| - 1] !in [x] + l[..|l| - 1] + r
    ensures forall y :: y in [x] + l + r <==> y == l[|l| - 1] || y in [x] + l[..|l| - 1] + r
  {
    var s, t, z := [x] + l + r, [x] + l[..|l| - 1] + r, l[|l| - 1];
    assert s[|l|] == z;
    assert forall i :: 0 <= i < |t| ==> t[i] == s[if i < |l| then i else i + 1];
    forall y | y in s ensures y == z || y in t {
      var i :| 0 <= i < |s| && s[i] == y;
      if i < |l| { assert t[i] == y; } else if i > |l| { assert t[i - 1] == y; }
    }
  }

  lemma AddOne(x: Pgno, l: seq<Pgno>, r: seq<Pgno>, z: Pgno)
    requires NoRepeats([x] + l + r) && z !in [x] + l + r
    ensures NoRepeats([x] + (l + [z]) + r)
    ensures forall y :: y in [x] + (l + [z]) + r <==> y == z || y in [x] + l + r
  {
    var s, t := [x] + l + r, [x] + (l + [z]) + r;
    assert t[|l| + 1] == z;
    assert forall i :: 0 <= i < |t| && i != |l| + 1 ==> t[i] == s[if i <= |l| then i else i - 1];
    forall y | y in s ensures y in t {
      var i :| 0 <= i < |s| && s[i] == y;
      assert t[if i <= |l| then i else i + 1] == y;
    }
  }

  /** What allocation does to the list: the page it hands out, the new header and the new pages. */
  ghost function AllocPage(pages: Pages, h: Header): (Pgno, Header, Pages)
    requires h.freeHead != 0 ==> h.freeHead in pages && pages[h.freeHead].Trunk?
  {
    if h.freeHead == 0 then (h.dbSize + 1, h.(dbSize := h.dbSize + 1), pages[h.dbSize + 1 := ZERO_PAGE])
    else
      var t := pages[h.freeHead];
      var n := if h.freeCount == 0 then 0 else h.freeCount - 1;
      if t.leaves != [] then
        var p := t.leaves[|t.leaves| - 1];
        (p, h.(freeCount := n), pages[h.freeHead := Trunk(t.next, t.leaves[..|t.leaves| - 1])][p := ZERO_PAGE])
      else (h.freeHead, h.(freeHead := t.next, freeCount := n), pages[h.freeHead := ZERO_PAGE])
  }

  ghost function AllocTrunks(pages: Pages, h: Header, trunks: seq<Pgno>): seq<Pgno> {
    if h.freeHead != 0 && h.freeHead in pages && pages[h.freeHead].Trunk? && pages[h.freeHead].leaves == [] && trunks != []
    then trunks[1..] else trunks
  }

  /** Allocation takes one free page, or one past the end when none is free, and nothing else. */
  lemma AllocKeeps(pages: Pages, h: Header, trunks: seq<Pgno>)
    requires FreeOk(pages, h, trunks)
    ensures h.freeHead != 0 ==> h.freeHead in pages && pages[h.freeHead].Trunk?
    ensures var (p, h', pages') := AllocPage(pages, h); var trunks' := AllocTrunks(pages, h, trunks);
            && FreeOk(pages', h', trunks')
            && FreeSet(pages', trunks') == FreeSet(pages, trunks) - {p}
            && (if h.freeCount == 0 then p == h.dbSize + 1 == h'.dbSize else p in FreeSet(pages, trunks) && h'.dbSize == h.dbSize)
            && (forall q :: q in Live(h, FreeSet(pages, trunks)) && q in pages ==> q in pages' && pages'[q] == pages[q])
            && h' == h.(dbSize := h'.dbSize, freeHead := h'.freeHead, freeCount := h'.freeCount)
  {
    if trunks == [] {
      AllocAtEnd(pages, h);
    } else if pages[h.freeHead].leaves != [] {
      AllocLeaf(pages, h, trunks);
    } else {
      AllocTrunk(pages, h, trunks);
    }
  }

  lemma AllocAtEnd(pages: Pages, h: Header)
    requires FreeOk(pages, h, [])
    ensures var (p, h', pages') := AllocPage(pages, h);
            && FreeOk(pages', h', []) && AllocTrunks(pages, h, []) == [] && p == h.dbSize + 1
            && FreeSet(pages', []) == {} && FreeSet(pages, []) == {}
            && h.freeCount == 0 && h'.dbSize == h.dbSize + 1
  {
  }

  lemma AllocLeaf(pages: Pages, h: Header, trunks: seq<Pgno>)
    requires FreeOk(pages, h, trunks) && trunks != [] && pages[h.freeHead].leaves != []
    ensures var (p, h', pages') := AllocPage(pages, h);
            && FreeOk(pages', h', trunks) && FreeSet(pages', trunks) == FreeSet(pages, trunks) - {p}
            && p in FreeSet(pages, trunks) && h'.dbSize == h.dbSize && h.freeCount > 0
            && (forall q :: q in Live(h, FreeSet(pages, trunks)) && q in pages ==> q in pages' && pages'[q] == pages[q])
  {
    var head := h.freeHead;
    var l, r := pages[head].leaves, FreeSeq(pages, trunks[1..]);
    var l' := l[..|l| - 1];
    var p := l[|l| - 1];
    HeadApart(pages, head, trunks);
    assert NoRepeats([head] + l + r);
    LeavesChanged(pages, head, trunks, l');
    DropOne(head, l, r);
    var b := pages[head := Trunk(pages[head].next, l')];
    var pages' := b[p := ZERO_PAGE];
    assert p !in trunks by {
      assert p in l;
      assert forall t :: t in trunks ==> t == trunks[0] || t in trunks[1..];
      assert head in [head] + l' + r;
    }
    ChainFrame(b, pages', head, trunks);
    var s, s' := FreeSeq(pages, trunks), FreeSeq(pages', trunks);
    assert s == [head] + l + r && s' == [head] + l' + r;
    InFileSub(s, s', h.dbSize);
    assert p in s && head in s;
  }

  lemma InFileSub(s: seq<Pgno>, t: seq<Pgno>, dbSize: nat)
    requires InFile(s, dbSize) && forall y :: y in t ==> y in s
    ensures InFile(t, dbSize)
  {
    forall i | 0 <= i < |t| ensures 2 <= t[i] <= dbSize {
      assert t[i] in s;
    }
  }

  lemma AllocTrunk(pages: Pages, h: Header, trunks: seq<Pgno>)
    requires FreeOk(pages, h, trunks) && trunks != [] && pages[h.freeHead].leaves == []
    ensures var (p, h', pages') := AllocPage(pages, h); var trunks' := trunks[1..];
            && AllocTrunks(pages, h, trunks) == trunks'
            && FreeOk(pages', h', trunks') && FreeSet(pages', trunks') == FreeSet(pages, trunks) - {p}
            && p in FreeSet(pages, trunks) && h'.dbSize == h.dbSize && h.freeCount > 0
            && (forall q :: q in Live(h, FreeSet(pages, trunks)) && q in pages ==> q in pages' && pages'[q] == pages[q])
  {
    var head, rest := h.freeHead, trunks[1..];
    HeadApart(pages, head, trunks);
    var pages' := pages[head := ZERO_PAGE];
    ChainFrame(pages, pages', pages[head].next, rest);
    var s, r := FreeSeq(pages, trunks), FreeSeq(pages, rest);
    assert s == [head] + r;
    assert forall i :: 0 <= i < |r| ==> r[i] == s[i + 1];
    InFileSub(s, r, h.dbSize);
    assert s[0] == head && head in s;
    assert head !in r by { assert forall i :: 0 <= i < |r| ==> r[i] != s[0]; }
  }

  // ------------------------------------ freeing ------------------------------------

  ghost function FreePage(pages: Pages, h: Header, p: Pgno): (Header, Pages) {
    if h.freeHead != 0 && h.freeHead in pages && pages[h.freeHead].Trunk? && |pages[h.freeHead].leaves| < PerTrunk(h.pageSize) then
      (h.(freeCount := h.freeCount + 1),
       pages[h.freeHead := Trunk(pages[h.freeHead].next, pages[h.freeHead].leaves + [p])])
    else (h.(freeHead := p, freeCount := h.freeCount + 1), pages[p := Trunk(h.freeHead, [])])
  }

  ghost function FreeTrunks(pages: Pages, h: Header, trunks: seq<Pgno>, p: Pgno): seq<Pgno> {
    if h.freeHead != 0 && h.freeHead in pages && pages[h.freeHead].Trunk? && |pages[h.freeHead].leaves| < PerTrunk(h.pageSize)
    then trunks else [p] + trunks
  }

  /** Freeing a live page adds exactly that page to the list and changes no other live page. */
  lemma FreeKeeps(pages: Pages, h: Header, trunks: seq<Pgno>, p: Pgno)
    requires FreeOk(pages, h, trunks) && p in Live(h, FreeSet(pages, trunks))
    ensures var (h', pages') := FreePage(pages, h, p); var trunks' := FreeTrunks(pages, h, trunks, p);
            && FreeOk(pages', h', trunks')
            && FreeSet(pages', trunks') == FreeSet(pages, trunks) + {p}
            && h' == h.(freeHead := h'.freeHead, freeCount := h'.freeCount)
            && (forall q :: q in Live(h, FreeSet(pages, trunks)) && q != p && q in pages ==> q in pages' && pages'[q] == pages[q])
  {
    if h.freeHead != 0 && |pages[h.freeHead].leaves| < PerTrunk(h.pageSize) {
      FreeAsLeaf(pages, h, trunks, p);
    } else {
      FreeAsTrunk(pages, h, trunks, p);
    }
  }

  lemma FreeAsLeaf(pages: Pages, h: Header, trunks: seq<Pgno>, p: Pgno)
    requires FreeOk(pages, h, trunks) && p in Live(h, FreeSet(pages, trunks)) && trunks != []
    ensures var pages' := pages[h.freeHead := Trunk(pages[h.freeHead].next, pages[h.freeHead].leaves + [p])];
            && FreeOk(pages', h.(freeCount := h.freeCount + 1), trunks)
            && FreeSet(pages', trunks) == FreeSet(pages, trunks) + {p}
            && h.freeHead in FreeSet(pages, trunks)
  {
    var head := h.freeHead;
    var l, r := pages[head].leaves, FreeSeq(pages, trunks[1..]);
    HeadApart(pages, head, trunks);
    var s := [head] + l + r;
    assert NoRepeats(s) && p !in s;
    AddOne(head, l, r, p);
    LeavesChanged(pages, head, trunks, l + [p]);
    var s' := [head] + (l + [p]) + r;
    assert s[0] == head && head in s;
    InFileAdd(s, s', h.dbSize, p);
  }

  lemma InFileAdd(s: seq<Pgno>, t: seq<Pgno>, dbSize: nat, p: Pgno)
    requires InFile(s, dbSize) && 2 <= p <= dbSize && forall y :: y in t ==> y == p || y in s
    ensures InFile(t, dbSize)
  {
    forall i | 0 <= i < |t| ensures 2 <= t[i] <= dbSize {
      assert t[i] in t;
    }
  }

  lemma FreeAsTrunk(pages: Pages, h: Header, trunks: seq<Pgno>, p: Pgno)
    requires FreeOk(pages, h, trunks) && p in Live(h, FreeSet(pages, trunks))
    ensures var pages' := pages[p := Trunk(h.freeHead, [])];
            && FreeOk(pages', h.(freeHead := p, freeCount := h.freeCount + 1), [p] + trunks)
            && FreeSet(pages', [p] + trunks) == FreeSet(pages, trunks) + {p}
  {
    var pages' := pages[p := Trunk(h.freeHead, [])];
    var s := FreeSeq(pages, trunks);
    forall t | t in trunks ensures t != p { TrunksAreFree(pages, h.freeHead, trunks, t); }
    ChainFrame(pages, pages', h.freeHead, trunks);
    var trunks' := [p] + trunks;
    assert trunks'[1..] == trunks && trunks'[0] == p;
    var s' := FreeSeq(pages', trunks');
    assert s' == [p] + s;
    assert p !in s;
    InFileAdd(s, s', h.dbSize, p);
  }

  // ------------------------------- room on a trunk page -------------------------------

  /** A trunk page holds its type, two numbers and one number for each leaf. */
  ghost predicate TrunksFit(pages: Pages, pageSize: nat, trunks: seq<Pgno>) {
    forall t :: t in trunks && t in pages && pages[t].Trunk? && pages[t].leaves != []
           ==> 1 + 4 + 4 + 4 * |pages[t].leaves| <= pageSize
  }

  lemma AllocFits(pages: Pages, h: Header, trunks: seq<Pgno>)
    requires FreeOk(pages, h, trunks) && TrunksFit(pages, h.pageSize, trunks)
    ensures h.freeHead != 0 ==> h.freeHead in pages && pages[h.freeHead].Trunk?
    ensures TrunksFit(AllocPage(pages, h).2, h.pageSize, AllocTrunks(pages, h, trunks))
  {
  }

  /** A new trunk is made exactly when there is none or the entry does not fit the first one. */
  lemma FreeFits(pages: Pages, h: Header, trunks: seq<Pgno>, p: Pgno)
    requires FreeOk(pages, h, trunks) && TrunksFit(pages, h.pageSize, trunks)
    ensures TrunksFit(FreePage(pages, h, p).1, h.pageSize, FreeTrunks(pages, h, trunks, p))
    ensures FreePage(pages, h, p).0.freeHead == h.freeHead
       <==> p == h.freeHead || (h.freeHead != 0 && 1 + 4 + 4 + 4 * (|pages[h.freeHead].leaves| + 1) <= h.pageSize)
  {
  }
}
