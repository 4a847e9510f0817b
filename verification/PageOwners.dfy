/**
 Who owns each page, over every sequence of allocations, frees and writes. A page is owned from
 the moment it is handed out until it is given back; nothing here defines it as "not free".
 */
module PageOwners {
  import opened FreeList

  /** `owned` maps every page handed out and not given back to what its owner last wrote there. */
  datatype File = File(pages: Pages, hdr: Header, owned: map<Pgno, Page>)

  datatype Op = Alloc | Free(p: Pgno) | Write(p: Pgno, data: Page)

  /** Owners free and write only what is theirs. */
  ghost predicate Allowed(f: File, op: Op) {
    match op
    case Alloc => f.hdr.freeHead != 0 ==> f.hdr.freeHead in f.pages && f.pages[f.hdr.freeHead].Trunk?
    case Free(p) => p in f.owned
    case Write(p, _) => p in f.owned
  }

  ghost function Do(f: File, op: Op): File
    requires Allowed(f, op)
  {
    match op
    case Alloc =>
      var (p, h, pages) := AllocPage(f.pages, f.hdr);
      File(pages, h, f.owned[p := ZERO_PAGE])
    case Free(p) =>
      var (h, pages) := FreePage(f.pages, f.hdr, p);
      File(pages, h, f.owned - {p})
    case Write(p, data) => f.(pages := f.pages[p := data], owned := f.owned[p := data])
  }

  /** A new file is its header page. */
  ghost function NewFile(h: Header): File { File(map[HEADER_PAGE := Head(h)], h, map[]) }

  ghost predicate IsNew(h: Header) { h.dbSize == 1 && h.freeHead == 0 && h.freeCount == 0 }

  /** Header, owned and free pages together are the file, each page exactly one of them. */
  ghost predicate Conserved(f: File, free: set<Pgno>) {
    && (forall p: Pgno :: 1 <= p <= f.hdr.dbSize <==> p == HEADER_PAGE || p in f.owned || p in free)
    && HEADER_PAGE !in f.owned && HEADER_PAGE !in free && f.owned.Keys !! free
    && |free| == f.hdr.freeCount
  }

  ghost predicate Kept(f: File, trunks: seq<Pgno>) {
    && FreeOk(f.pages, f.hdr, trunks) && TrunksFit(f.pages, f.hdr.pageSize, trunks)
    && Conserved(f, FreeSet(f.pages, trunks))
    && (forall p :: p in f.owned ==> p in f.pages && f.pages[p] == f.owned[p])
  }

  /** Only the size and the free-list fields differ. */
  ghost predicate SameFile(h: Header, h': Header) {
    h' == h.(dbSize := h'.dbSize, freeHead := h'.freeHead, freeCount := h'.freeCount)
  }

  lemma OwnedIsLive(f: File, trunks: seq<Pgno>)
    requires Kept(f, trunks)
    ensures f.owned.Keys == Live(f.hdr, FreeSet(f.pages, trunks))
  {
    var live := Live(f.hdr, FreeSet(f.pages, trunks));
    assert forall p :: p in f.owned.Keys <==> p in live;
  }

  lemma Counted(pages: Pages, h: Header, trunks: seq<Pgno>)
    requires FreeOk(pages, h, trunks)
    ensures |FreeSet(pages, trunks)| == h.freeCount
  {
    DistinctCount(FreeSeq(pages, trunks));
  }

  /** The page handed out was nobody's, and is in the file. */
  lemma AllocKept(f: File, trunks: seq<Pgno>) returns (trunks': seq<Pgno>)
    requires Kept(f, trunks)
    ensures Allowed(f, Alloc) && Kept(Do(f, Alloc), trunks') && SameFile(f.hdr, Do(f, Alloc).hdr)
    ensures AllocPage(f.pages, f.hdr).0 !in f.owned && AllocPage(f.pages, f.hdr).0 != HEADER_PAGE
  {
    hide FreeOk, FreeSet, Live, TrunksFit;
    AllocFits(f.pages, f.hdr, trunks);
    AllocKeeps(f.pages, f.hdr, trunks);
    OwnedIsLive(f, trunks);
    trunks' := AllocTrunks(f.pages, f.hdr, trunks);
    var (p, h, pages) := AllocPage(f.pages, f.hdr);
    Counted(pages, h, trunks');
    InTheFile(f, trunks, p);
    Zeroed(f.pages, f.hdr);
  }

  lemma Zeroed(pages: Pages, h: Header)
    requires h.freeHead != 0 ==> h.freeHead in pages && pages[h.freeHead].Trunk?
    ensures var (p, _, pages') := AllocPage(pages, h); p in pages' && pages'[p] == ZERO_PAGE
  {
  }

  lemma InTheFile(f: File, trunks: seq<Pgno>, p: Pgno)
    requires Kept(f, trunks)
    ensures p in FreeSet(f.pages, trunks) ==> 2 <= p <= f.hdr.dbSize && p !in f.owned
    ensures p == f.hdr.dbSize + 1 ==> p !in f.owned && p >= 2
    ensures f.hdr.freeCount == 0 ==> FreeSet(f.pages, trunks) == {}
  {
    hide FreeSet;
  }

  lemma FreeKept(f: File, trunks: seq<Pgno>, p: Pgno) returns (trunks': seq<Pgno>)
    requires Kept(f, trunks) && p in f.owned
    ensures Kept(Do(f, Free(p)), trunks') && SameFile(f.hdr, Do(f, Free(p)).hdr)
  {
    hide FreeOk, FreeSet, Live, FreePage, TrunksFit;
    FreeFits(f.pages, f.hdr, trunks, p);
    OwnedIsLive(f, trunks);
    FreeKeeps(f.pages, f.hdr, trunks, p);
    trunks' := FreeTrunks(f.pages, f.hdr, trunks, p);
    var (h, pages) := FreePage(f.pages, f.hdr, p);
    Counted(pages, h, trunks');
  }

  lemma WriteKept(f: File, trunks: seq<Pgno>, p: Pgno, data: Page)
    requires Kept(f, trunks) && p in f.owned
    ensures Kept(Do(f, Write(p, data)), trunks) && SameFile(f.hdr, Do(f, Write(p, data)).hdr)
  {
    forall t | t in trunks ensures t != p { TrunksAreFree(f.pages, f.hdr.freeHead, trunks, t); }
    ChainFrame(f.pages, f.pages[p := data], f.hdr.freeHead, trunks);
  }

  // ----------------------------------- every sequence -----------------------------------

  ghost predicate Reaches(f: File, ops: seq<Op>, f': File)
    decreases |ops|
  {
    if ops == [] then f' == f else Allowed(f, ops[0]) && Reaches(Do(f, ops[0]), ops[1..], f')
  }

  lemma {:induction false} RunKept(f: File, trunks: seq<Pgno>, ops: seq<Op>, f': File) returns (trunks': seq<Pgno>)
    requires Kept(f, trunks) && Reaches(f, ops, f')
    ensures Kept(f', trunks') && SameFile(f.hdr, f'.hdr)
    decreases |ops|
  {
    hide Kept, Do;
    if ops == [] {
      trunks' := trunks;
    } else {
      var mid: seq<Pgno>;
      match ops[0] {
        case Alloc => mid := AllocKept(f, trunks);
        case Free(p) => mid := FreeKept(f, trunks, p);
        case Write(p, data) => WriteKept(f, trunks, p, data); mid := trunks;
      }
      trunks' := RunKept(Do(f, ops[0]), mid, ops[1..], f');
    }
  }

  /**
   Pages are conserved. After every sequence of allocations, frees and writes on a new file, the
   pages of the file are the disjoint union of the header, the pages handed out and not given
   back, and the pages on the free-list, which the header counts; no trunk holds more than its
   page takes; every owned page holds what its owner last wrote; and the rest of the header is as
   it was.
   */
  lemma PagesConserved(h: Header, ops: seq<Op>, f: File) returns (trunks: seq<Pgno>)
    requires IsNew(h) && Reaches(NewFile(h), ops, f)
    ensures FreeOk(f.pages, f.hdr, trunks) && Conserved(f, FreeSet(f.pages, trunks))
    ensures TrunksFit(f.pages, f.hdr.pageSize, trunks)
    ensures f.hdr == h.(dbSize := f.hdr.dbSize, freeHead := f.hdr.freeHead, freeCount := f.hdr.freeCount)
    ensures forall p :: p in f.owned ==> p in f.pages && f.pages[p] == f.owned[p]
  {
    var f0 := NewFile(h);
    assert FreeSeq(f0.pages, []) == [] && FreeSet(f0.pages, []) == {};
    trunks := RunKept(f0, [], ops, f);
  }

  /** Allocation never fails in a reachable file, and never hands out the header or an owned page. */
  lemma AllocatesUnowned(h: Header, ops: seq<Op>, f: File)
    requires IsNew(h) && Reaches(NewFile(h), ops, f)
    ensures Allowed(f, Alloc) && AllocPage(f.pages, f.hdr).0 !in f.owned && AllocPage(f.pages, f.hdr).0 != HEADER_PAGE
  {
    hide Reaches;
    var trunks := PagesConserved(h, ops, f);
    var t := AllocKept(f, trunks);
  }
}
