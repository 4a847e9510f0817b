/**
 The pager: a cache of clean and dirty pages over the durable images, a header, a free-list
 and a stack of savepoints. It stands for a stack of states: the current one on top of the
 ones at which savepoints were opened, over the last committed one.
 */
module Pagers {
  import opened FreeList
  import Savepoints

  datatype Cached = Cached(data: Page, dirty: bool)

  /** Header and images of the pages that were dirty when the savepoint was opened. */
  datatype Savepoint = Savepoint(hdr: Header, imgs: Pages)

  datatype State = State(pages: Pages, hdr: Header)

  /** Commit and rollback-to collect at most this many dirty pages. */
  const MAX_COLLECTED := 2112

  ghost function DirtyPages(cache: map<Pgno, Cached>): Pages {
    map p | p in cache && cache[p].dirty :: cache[p].data
  }

  ghost function Level(durable: Pages, sp: Savepoint): State {
    State(durable + sp.imgs, sp.hdr)
  }

  ghost function Min(a: nat, b: nat): nat { if a < b then a else b }

  lemma WriteOver(durable: Pages, cache: map<Pgno, Cached>, p: Pgno, data: Page)
    ensures durable + DirtyPages(cache[p := Cached(data, true)]) == (durable + DirtyPages(cache))[p := data]
    ensures DirtyPages(cache).Keys + {p} == DirtyPages(cache[p := Cached(data, true)]).Keys
  {
  }

  lemma CacheClean(durable: Pages, cache: map<Pgno, Cached>, p: Pgno)
    requires p in durable && p !in cache
    ensures DirtyPages(cache[p := Cached(durable[p], false)]) == DirtyPages(cache)
  {
  }

  /** Page 1 holds a header, and clean cached pages are what is durable. */
  ghost predicate CacheOk(durable: Pages, cache: map<Pgno, Cached>) {
    && HEADER_PAGE in durable && durable[HEADER_PAGE].Head?
    && (forall p :: p in cache && !cache[p].dirty ==> p in durable && cache[p].data == durable[p])
  }

  /** Pages saved by a savepoint are still dirty, and an inner savepoint saved them too. */
  ghost predicate Nested(sps: seq<Savepoint>, dirty: set<Pgno>) {
    && (forall i :: 0 <= i < |sps| ==> sps[i].imgs.Keys <= dirty)
    && (forall i, j :: 0 <= i < j < |sps| ==> sps[i].imgs.Keys <= sps[j].imgs.Keys)
  }

  ghost function Levels(durable: Pages, sps: seq<Savepoint>): seq<State> {
    seq(|sps|, i requires 0 <= i < |sps| => Level(durable, sps[i]))
  }

  // ---------------------------------- opening ----------------------------------

  /** The header of a brand-new database, after the commit that writes it. */
  function NewHeader(pageSize: nat): Header { Header(pageSize, 1, 1, 0, 0, 0, 0, 0) }

  function Resized(h: Header, logSize: nat): Header { if logSize != 0 then h.(dbSize := logSize) else h }

  ghost predicate HasHeader(pages: Pages) { HEADER_PAGE in pages && pages[HEADER_PAGE].Head? }

  /** h' is h with the size the log recorded, if it recorded one. */
  ghost predicate OpenedFrom(h: Header, logSize: nat, h': Header) {
    && h' == h.(dbSize := h'.dbSize)
    && (logSize == 0 ==> h'.dbSize == h.dbSize) && (logSize != 0 ==> h'.dbSize == logSize)
  }

  /** The database file under the logged pages; a file without a header gets a new one. */
  ghost function Recovered(main: Pages, logged: Pages, pageSize: nat): Pages {
    if HasHeader(main) || HasHeader(logged) then main + logged
    else (main + logged)[HEADER_PAGE := Head(NewHeader(pageSize))]
  }

  /** The header in the database file is the newest one but for the size the log recorded. */
  ghost predicate HeaderCurrent(main: Pages, logged: Pages, logSize: nat) {
    match (HasHeader(main), HasHeader(logged))
    case (true, true) => Resized(main[HEADER_PAGE].hdr, logSize) == logged[HEADER_PAGE].hdr
    case (true, false) => logSize == 0 || logSize == main[HEADER_PAGE].hdr.dbSize
    case (false, true) => logSize == 0 || logSize == logged[HEADER_PAGE].hdr.dbSize
    case (false, false) => true
  }

  /** The header a commit writes. */
  function Counted(h: Header): Header { h.(changeCounter := (h.changeCounter + 1) % 0x1_0000_0000) }

  /**
   A page taken off the free-list and committed, a crash before the next checkpoint: the header
   that is opened still starts the free-list at the page, which is no trunk any more.
   */
  lemma CrashForgetsAllocation(h: Header)
    requires h.dbSize == 2 && h.freeHead == 2 && h.freeCount == 1
    ensures var main: Pages := map[1 := Head(h), 2 := Trunk(0, [])];
            && FreeOk(main, h, [2])
            && (var (p, h', pages) := AllocPage(main, h);
                var logged: Pages := map[1 := Head(Counted(h')), 2 := pages[2]];
                && p == 2 && FreeOk(main + logged, Counted(h'), [])
                && !HeaderCurrent(main, logged, h'.dbSize)
                && forall trunks :: !FreeOk(main + logged, Resized(h, h'.dbSize), trunks))
  {
    var main: Pages := map[1 := Head(h), 2 := Trunk(0, [])];
    assert TrunkChain(main, 2, [2]) by { assert [2][1..] == []; }
    assert FreeSeq(main, [2]) == [2] by { assert [2][1..] == []; }
    var (p, h', pages) := AllocPage(main, h);
    var logged: Pages := map[1 := Head(Counted(h')), 2 := pages[2]];
    assert FreeSeq(main + logged, []) == [];
    forall trunks ensures !TrunkChain(main + logged, 2, trunks) { }
  }

  /** Page size, catalog root, schema cookie and largest transaction id are as before. */
  ghost predicate SameButList(h: Header, h': Header) {
    h' == h.(dbSize := h'.dbSize, freeHead := h'.freeHead, freeCount := h'.freeCount, changeCounter := h'.changeCounter)
  }

  class Pager {
    var durable: Pages
    var cache: map<Pgno, Cached>
    var hdr: Header
    var sps: seq<Savepoint>
    var inTxn: bool

    ghost predicate Valid()
      reads this
    {
      CacheOk(durable, cache) && Nested(sps, DirtyPages(cache).Keys)
    }

    ghost function Cur(): State
      reads this
    {
      State(durable + DirtyPages(cache), hdr)
    }

    /** The states at which the open savepoints were set, outermost first. */
    ghost function Stack(): seq<State>
      reads this
    {
      Levels(durable, sps)
    }

    ghost function States(): Savepoints.Stacked<State>
      reads this
    {
      Savepoints.Stacked(Cur(), Stack())
    }

    ghost function Committed(): State
      requires Valid()
      reads this
    {
      State(durable, durable[HEADER_PAGE].hdr)
    }

    /**
     Opens the database file and what recovery found in the log. The header is taken from the
     database file when it has one, with only the size brought up to date, so the opened state
     is the committed one exactly when nothing else in the header was logged.
     */
    constructor (main: Pages, logged: Pages, logSize: nat, pageSize: nat)
      requires HEADER_PAGE in logged ==> logged[HEADER_PAGE].Head?
      ensures Valid() && Stack() == [] && !inTxn && DirtyPages(cache) == map[]
      ensures Committed().pages == Recovered(main, logged, pageSize)
      ensures forall p :: p != HEADER_PAGE ==> PageIn(Cur().pages, p) == PageIn(if p in logged then logged else main, p)
      ensures !HasHeader(main) && !HasHeader(logged) ==> hdr == Header(pageSize, 1, 1, 0, 0, 0, 0, 0)
      ensures HasHeader(main) ==> OpenedFrom(main[HEADER_PAGE].hdr, logSize, hdr)
      ensures !HasHeader(main) && HasHeader(logged) ==> OpenedFrom(logged[HEADER_PAGE].hdr, logSize, hdr)
      ensures HasHeader(logged) ==> Committed().hdr == logged[HEADER_PAGE].hdr
      ensures HasHeader(main) && !HasHeader(logged) ==> Committed().hdr == main[HEADER_PAGE].hdr
      ensures Cur() == Committed() <==> HeaderCurrent(main, logged, logSize)
    {
      if HEADER_PAGE in main && main[HEADER_PAGE].Head? {
        durable := main + logged;
        hdr := Resized(main[HEADER_PAGE].hdr, logSize);
      } else if HEADER_PAGE in logged {
        durable := main + logged;
        hdr := Resized(logged[HEADER_PAGE].hdr, logSize);
      } else {
        durable := (main + logged)[HEADER_PAGE := Head(NewHeader(pageSize))];
        hdr := NewHeader(pageSize);
      }
      cache, sps, inTxn := map[], [], false;
      new;
      assert durable + DirtyPages(cache) == durable;
    }

    /** Reads a page through the cache. */
    method Get(p: Pgno) returns (data: Page)
      requires Valid() && p in Cur().pages
      modifies this`cache
      ensures Valid() && Cur() == old(Cur()) && Stack() == old(Stack()) && durable == old(durable)
      ensures data == Cur().pages[p] && p in cache && DirtyPages(cache) == DirtyPages(old(cache))
    {
      if p !in cache {
        CacheClean(durable, cache, p);
        cache := cache[p := Cached(durable[p], false)];
      }
      data := cache[p].data;
    }

    /** Changes a page in the cache and marks it dirty. */
    method Put(p: Pgno, data: Page)
      requires Valid()
      modifies this`cache
      ensures Valid() && Stack() == old(Stack())
      ensures Cur() == State(old(Cur()).pages[p := data], hdr)
      ensures DirtyPages(cache).Keys == DirtyPages(old(cache)).Keys + {p}
    {
      WriteOver(durable, cache, p, data);
      cache := cache[p := Cached(data, true)];
    }

    /** Hands out a zeroed page: from the free-list when it has one, else one past the end. */
    method Alloc(ghost trunks: seq<Pgno>) returns (p: Pgno)
      requires Valid() && FreeOk(Cur().pages, hdr, trunks)
      modifies this`cache, this`hdr
      ensures Valid() && Stack() == old(Stack())
      ensures HeadIsTrunk(old(Cur()).pages, old(hdr)) && (p, hdr, Cur().pages) == AllocPage(old(Cur()).pages, old(hdr))
      ensures FreeOk(Cur().pages, hdr, AllocTrunks(old(Cur()).pages, old(hdr), trunks))
    {
      hide FreeOk, FreeSet, Live, DirtyPages, CacheOk, Nested, Levels, AllocTrunks;
      ghost var was, h := Cur().pages, hdr;
      AllocKeeps(was, hdr, trunks);
      CountPositive(was, hdr, trunks);
      if hdr.freeHead != 0 {
        var head := hdr.freeHead;
        var t := Get(head);
        if |t.leaves| > 0 {
          p := t.leaves[|t.leaves| - 1];
          Put(head, Trunk(t.next, t.leaves[..|t.leaves| - 1]));
          hdr := hdr.(freeCount := hdr.freeCount - 1);
        } else {
          p := head;
          hdr := hdr.(freeHead := t.next, freeCount := hdr.freeCount - 1);
        }
      } else {
        hdr := hdr.(dbSize := hdr.dbSize + 1);
        p := hdr.dbSize;
      }
      Put(p, ZERO_PAGE);
    }

    /** Puts a live page on the free-list: as a leaf of the first trunk, or as a new trunk. */
    method Free(p: Pgno, ghost trunks: seq<Pgno>) returns (ok: bool)
      requires Valid() && FreeOk(Cur().pages, hdr, trunks)
      requires p in Cur().pages
      requires 2 <= p ==> p in Live(hdr, FreeSet(Cur().pages, trunks))
      modifies this`cache, this`hdr
      ensures Valid() && Stack() == old(Stack())
      ensures ok <==> 2 <= p
      ensures !ok ==> Cur() == old(Cur())
      ensures ok ==> (hdr, Cur().pages) == FreePage(old(Cur()).pages, old(hdr), p)
      ensures ok ==> FreeOk(Cur().pages, hdr, FreeTrunks(old(Cur()).pages, old(hdr), trunks, p))
      ensures ok && Elements(trunks) <= DirtyPages(old(cache)).Keys
          ==> DirtyPages(cache).Keys == DirtyPages(old(cache)).Keys + Elements(FreeTrunks(old(Cur()).pages, old(hdr), trunks, p))
    {
      hide FreeOk, FreeSet, Live, DirtyPages, CacheOk, Nested, Levels, FreeTrunks, Elements;
      if p == 0 || p == HEADER_PAGE { return false; }
      AllocKeeps(Cur().pages, hdr, trunks);
      TrunksAfter(Cur().pages, hdr, trunks, p);
      FreeKeeps(Cur().pages, hdr, trunks, p);
      if hdr.freeHead != 0 {
        var t := Get(hdr.freeHead);
        if |t.leaves| < PerTrunk(hdr.pageSize) {
          Put(hdr.freeHead, Trunk(t.next, t.leaves + [p]));
          hdr := hdr.(freeCount := hdr.freeCount + 1);
          return true;
        }
      }
      var was := Get(p);
      Put(p, Trunk(hdr.freeHead, []));
      hdr := hdr.(freeHead := p, freeCount := hdr.freeCount + 1);
      return true;
    }

    // -------------------------------- savepoints --------------------------------

    method SetSavepoint() returns (level: nat)
      requires Valid()
      modifies this`sps
      ensures Valid() && Cur() == old(Cur())
      ensures Stack() == old(Stack()) + [Cur()] && level == |old(Stack())|
      ensures States() == Savepoints.Do(old(States()), Savepoints.Save)
    {
      level := |sps|;
      var imgs: Pages := map p | p in cache && cache[p].dirty :: cache[p].data;
      sps := sps + [Savepoint(hdr, imgs)];
    }

    method Release(level: int) returns (ok: bool)
      requires Valid()
      modifies this`sps
      ensures Valid() && Cur() == old(Cur())
      ensures ok <==> 0 <= level < |old(Stack())|
      ensures Stack() == if ok then old(Stack())[..level] else old(Stack())
      ensures States() == Savepoints.Do(old(States()), Savepoints.Release(level))
    {
      if level < 0 || level >= |sps| { return false; }
      sps := sps[..level];
      return true;
    }

    /** Collects dirty pages, up to the limit. */
    method CollectDirty() returns (pgs: set<Pgno>)
      ensures pgs <= DirtyPages(cache).Keys
      ensures |pgs| == Min(|DirtyPages(cache).Keys|, MAX_COLLECTED)
      ensures pgs == DirtyPages(cache).Keys <==> |DirtyPages(cache).Keys| <= MAX_COLLECTED
    {
      var dirty := set p | p in cache && cache[p].dirty;
      assert dirty == DirtyPages(cache).Keys;
      pgs := TakeUpTo(dirty, MAX_COLLECTED);
    }

    /**
     Reverts to a savepoint and keeps it. Every collected page is back at its image; with at
     most 2112 dirty pages that is every page, so the whole state is the one on the stack.
     */
    method RollbackTo(level: int) returns (ok: bool, ghost done: set<Pgno>)
      requires Valid()
      modifies this`cache, this`hdr, this`sps
      ensures Valid()
      ensures ok <==> 0 <= level < |old(Stack())|
      ensures !ok ==> Cur() == old(Cur()) && Stack() == old(Stack())
      ensures ok ==> Stack() == old(Stack())[..level + 1] && hdr == old(Stack())[level].hdr
      ensures ok ==> MayCollect(old(cache), done)
      ensures ok ==> forall p :: PageIn(Cur().pages, p) == if p in done then PageIn(old(Stack())[level].pages, p) else PageIn(old(Cur()).pages, p)
      ensures ok && |DirtyPages(old(cache)).Keys| <= MAX_COLLECTED ==> Cur() == old(Stack())[level]
      ensures |DirtyPages(old(cache)).Keys| <= MAX_COLLECTED ==> States() == Savepoints.Do(old(States()), Savepoints.RollbackTo(level))
    {
      hide DirtyPages, CacheOk, Nested, Levels, Restored, PageIn, Min, Level, Savepoints.Do;
      done := {};
      Savepoints.RollbackIs(States(), level);
      if level < 0 || level >= |sps| { LevelsLength(durable, sps); return false, done; }
      var sp := sps[level];
      var collected := CollectDirty();
      LevelsCut(durable, sps, level);
      NestedLevel(sps, DirtyPages(cache).Keys, level);
      RestoreMeaning(durable, cache, collected, sp);
      NestedCut(sps, DirtyPages(cache).Keys, DirtyPages(Restored(cache, collected, sp.imgs)).Keys, level);
      sps := sps[..level + 1];
      cache := Restored(cache, collected, sp.imgs);
      hdr := sp.hdr;
      done := collected;
      return true, done;
    }

    /** Drops every dirty page and every savepoint; the header comes back from page 1. */
    method Rollback()
      requires Valid()
      modifies this
      ensures Valid() && Stack() == [] && Cur() == old(Committed()) && Committed() == old(Committed())
      ensures DirtyPages(cache) == map[] && !inTxn
    {
      hide Levels;
      NoLevels(durable);
      cache := map p | p in cache && !cache[p].dirty :: cache[p];
      hdr := durable[HEADER_PAGE].hdr;
      inTxn := false;
      sps := [];
      assert durable + DirtyPages(cache) == durable;
    }

    /**
     Writes the header into page 1 and makes the collected dirty pages durable. Nothing stays
     dirty exactly when there were at most 2112 dirty pages, page 1 included.
     */
    method Commit() returns (ghost written: set<Pgno>)
      requires Valid()
      modifies this
      ensures Valid() && Stack() == [] && !inTxn
      ensures hdr == old(hdr).(changeCounter := (old(hdr).changeCounter + 1) % 0x1_0000_0000)
      ensures Cur() == State(old(Cur()).pages[HEADER_PAGE := Head(hdr)], hdr)
      ensures |written| == Min(|DirtyPages(old(cache)).Keys + {HEADER_PAGE}|, MAX_COLLECTED)
      ensures HEADER_PAGE in written ==> Committed().hdr == hdr
      ensures DirtyPages(cache) == map[] <==> |DirtyPages(old(cache)).Keys + {HEADER_PAGE}| <= MAX_COLLECTED
      ensures |DirtyPages(old(cache)).Keys + {HEADER_PAGE}| <= MAX_COLLECTED ==> Committed() == Cur()
    {
      hide DirtyPages, CacheOk, Nested, Levels, Cleaned, Collected, Min;
      hdr := Counted(hdr);
      Put(HEADER_PAGE, Head(hdr));
      HeaderCached(durable, cache, Head(hdr));
      var collected := CollectDirty();
      MakeDurable(collected);
      inTxn := false;
      written := collected;
    }

    /** Appends the collected pages to the log and marks them clean. */
    method MakeDurable(collected: set<Pgno>)
      requires Valid() && collected <= DirtyPages(cache).Keys && HEADER_PAGE in cache && cache[HEADER_PAGE].data.Head?
      modifies this`durable, this`cache, this`sps
      ensures Valid() && Stack() == [] && Cur() == old(Cur())
      ensures HEADER_PAGE in collected ==> durable[HEADER_PAGE] == old(cache)[HEADER_PAGE].data
      ensures DirtyPages(cache) == map[] <==> collected == DirtyPages(old(cache)).Keys
      ensures collected == DirtyPages(old(cache)).Keys ==> durable == Cur().pages
    {
      hide DirtyPages, CacheOk, Nested, Levels, Cleaned, Collected;
      CommitMeaning(durable, cache, collected);
      durable := durable + Collected(cache, collected);
      cache := Cleaned(cache, collected);
      sps := [];
      NoLevels(durable);
    }

    // ---------------------------------- vacuum ----------------------------------

    /** Walks the trunks and marks every free page. */
    method MarkFree(ghost trunks: seq<Pgno>) returns (isFree: set<Pgno>)
      requires Valid() && FreeOk(Cur().pages, hdr, trunks)
      modifies this`cache
      ensures Valid() && Cur() == old(Cur()) && Stack() == old(Stack()) && DirtyPages(cache) == DirtyPages(old(cache))
      ensures isFree == FreeSet(Cur().pages, trunks)
    {
      hide DirtyPages, CacheOk, Nested, Levels, NoRepeats, InFile;
      isFree := {};
      var trunk := hdr.freeHead;
      ghost var rest := trunks;
      while trunk != 0
        invariant Valid() && Cur() == old(Cur()) && Stack() == old(Stack())
                  && DirtyPages(cache) == DirtyPages(old(cache))
        invariant TrunkChain(Cur().pages, trunk, rest)
        invariant isFree + Elements(FreeSeq(Cur().pages, rest)) == FreeSet(Cur().pages, trunks)
        decreases |rest|
      {
        var t := Get(trunk);
        MarkOne(Cur().pages, trunk, rest);
        isFree := isFree + {trunk} + (set l | l in t.leaves);
        trunk, rest := t.next, rest[1..];
      }
    }

    /** Starts over with an empty free-list and frees the kept pages one by one. */
    method Rebuild(kept: seq<Pgno>) returns (ghost trunks: seq<Pgno>)
      requires Valid() && hdr.dbSize >= 1
      requires NoRepeats(kept) && InFile(kept, hdr.dbSize)
      requires forall p :: p in kept ==> p in Cur().pages
      modifies this`cache, this`hdr
      ensures Valid() && Stack() == old(Stack())
      ensures FreeOk(Cur().pages, hdr, trunks) && FreeSet(Cur().pages, trunks) == Elements(kept)
      ensures hdr == old(hdr).(freeHead := hdr.freeHead, freeCount := hdr.freeCount)
      ensures old(Cur()).pages.Keys == Cur().pages.Keys
      ensures forall p :: p in old(Cur()).pages && p !in kept ==> Cur().pages[p] == old(Cur()).pages[p]
      ensures DirtyPages(cache).Keys == DirtyPages(old(cache)).Keys + Elements(trunks)
    {
      hide DirtyPages, CacheOk, Nested, Levels, FreeOk, FreeSet, FreePage, FreeTrunks;
      hdr := hdr.(freeHead := 0, freeCount := 0);
      trunks := [];
      EmptyList(Cur().pages, hdr);
      assert kept[..0] == [];
      for i := 0 to |kept|
        invariant Valid() && Stack() == old(Stack())
        invariant FreeOk(Cur().pages, hdr, trunks) && FreeSet(Cur().pages, trunks) == Elements(kept[..i])
        invariant hdr == old(hdr).(freeHead := hdr.freeHead, freeCount := hdr.freeCount)
        invariant old(Cur()).pages.Keys == Cur().pages.Keys
        invariant forall p :: p in old(Cur()).pages && p !in kept ==> Cur().pages[p] == old(Cur()).pages[p]
        invariant DirtyPages(cache).Keys == DirtyPages(old(cache)).Keys + Elements(trunks)
      {
        ghost var pages, h := Cur().pages, hdr;
        KeptIsLive(hdr, kept, i);
        TrunksAfter(pages, h, trunks, kept[i]);
        FreeKeeps(pages, h, trunks, kept[i]);
        FreeWrites(pages, h, trunks, kept[i]);
        var ok := Free(kept[i], trunks);
        trunks := FreeTrunks(pages, h, trunks, kept[i]);
        KeptMore(kept, i);
      }
      assert kept[..|kept|] == kept;
    }

    /**
     Shrinks the file past the free pages at its end. Exactly the free pages at or below the
     new size stay free, nothing but free pages is cut off, and no live page changes. The
     result is durable when the trunks of the new list and page 1 are at most 2112 pages.
     */
    method Vacuum(ghost trunks: seq<Pgno>) returns (done: bool, ghost trunks': seq<Pgno>)
      requires Valid() && FreeOk(Cur().pages, hdr, trunks) && DirtyPages(cache) == map[] && Cur() == Committed()
      requires forall p: Pgno :: 1 <= p <= hdr.dbSize ==> p in Cur().pages
      modifies this
      ensures Valid()
      ensures done <==> !old(inTxn) && old(hdr).dbSize in FreeSet(old(Cur()).pages, trunks)
      ensures !done ==> Cur() == old(Cur()) && Committed() == Cur() && trunks' == trunks
      ensures SameButList(old(hdr), hdr)
      ensures done && |trunks'| < MAX_COLLECTED ==> Committed() == Cur()
      ensures done ==> FreeOk(Cur().pages, hdr, trunks')
      ensures done ==> 1 <= hdr.dbSize < old(hdr).dbSize && hdr.dbSize !in FreeSet(old(Cur()).pages, trunks)
      ensures done ==> forall p: Pgno :: hdr.dbSize < p <= old(hdr).dbSize ==> p in FreeSet(old(Cur()).pages, trunks)
      ensures done ==> FreeSet(Cur().pages, trunks') == set p | p in FreeSet(old(Cur()).pages, trunks) && p <= hdr.dbSize
      ensures done ==> forall p :: p in Live(old(hdr), FreeSet(old(Cur()).pages, trunks))
                         ==> p in Cur().pages && Cur().pages[p] == old(Cur()).pages[p]
    {
      hide DirtyPages, CacheOk, Nested, Levels, FreeOk, FreeSet, Live, Elements;
      trunks' := trunks;
      ghost var before, h := Cur().pages, hdr;
      FreeFacts(before, h, trunks);
      if inTxn || hdr.dbSize <= 1 || hdr.freeCount == 0 { return false, trunks'; }
      inTxn := true;
      var isFree := MarkFree(trunks);
      var newSize := LastUsed(isFree, hdr.dbSize);
      if newSize == hdr.dbSize {
        Rollback();
        return false, trunks';
      }
      var kept := KeptPages(isFree, newSize);
      trunks' := Shrink(kept, newSize);
      KeptSet(kept, isFree, newSize);
      LiveUntouched(before, Cur().pages, h, isFree, kept, newSize);
      return true, trunks';
    }

    /** Rebuilds the free-list from the kept pages, commits the smaller size and cuts the file. */
    method Shrink(kept: seq<Pgno>, newSize: nat) returns (ghost trunks: seq<Pgno>)
      requires Valid() && 1 <= newSize < hdr.dbSize && NoRepeats(kept)
      requires forall p :: p in kept ==> 2 <= p <= newSize && p in Cur().pages
      modifies this
      ensures Valid() && !inTxn && hdr.dbSize == newSize && SameButList(old(hdr), hdr)
      ensures FreeOk(Cur().pages, hdr, trunks) && FreeSet(Cur().pages, trunks) == Elements(kept)
      ensures forall p :: p in old(Cur()).pages && p !in kept && 2 <= p <= newSize
                ==> p in Cur().pages && Cur().pages[p] == old(Cur()).pages[p]
      ensures DirtyPages(old(cache)) == map[] && |trunks| < MAX_COLLECTED ==> Committed() == Cur()
    {
      hide DirtyPages, CacheOk, Nested, Levels, FreeOk, FreeSet, Live, Min, Elements, CutAt, NoRepeats, InFile;
      KeptInFile(kept, newSize, hdr.dbSize);
      trunks := Rebuild(kept);
      ghost var pages := Cur().pages;
      SmallerFile(pages, hdr, trunks, kept, newSize);
      TrunksCounted(pages, hdr, trunks);
      ghost var h := hdr.(dbSize := newSize);
      CommitShorter(newSize);
      HeaderRewritten(pages, h, hdr, trunks, newSize);
      LiveSame(old(Cur().pages), pages, kept, newSize, Head(hdr));
    }

    /** Commits with a smaller size in the header, then cuts the file there. */
    method CommitShorter(newSize: nat)
      requires Valid() && newSize >= 1
      modifies this
      ensures Valid() && !inTxn
      ensures hdr == old(hdr).(dbSize := newSize, changeCounter := hdr.changeCounter)
      ensures Cur() == State(CutAt(old(Cur()).pages[HEADER_PAGE := Head(hdr)], newSize), hdr)
      ensures |DirtyPages(old(cache)).Keys + {HEADER_PAGE}| <= MAX_COLLECTED ==> Committed() == Cur()
    {
      hide DirtyPages, CacheOk, Nested, Levels, Min, CutAt;
      hdr := hdr.(dbSize := newSize);
      var written := Commit();
      Truncate(newSize);
    }

    /** Cuts the database file and drops cached pages behind the new end. */
    method Truncate(newSize: nat)
      requires Valid() && newSize >= 1
      modifies this`durable, this`cache, this`sps
      ensures Valid()
      ensures Cur() == State(CutAt(old(Cur()).pages, newSize), hdr)
      ensures Committed() == State(CutAt(old(Committed()).pages, newSize), old(Committed()).hdr)
    {
      sps := [];
      durable := CutAt(durable, newSize);
      cache := map p | p in cache && p <= newSize :: cache[p];
      assert durable + DirtyPages(cache) == CutAt(old(Cur()).pages, newSize);
    }
  }

  function CutAt(pages: Pages, n: nat): Pages {
    map p | p in pages && p <= n :: pages[p]
  }

  lemma LiveSame(before: Pages, pages: Pages, kept: seq<Pgno>, n: nat, head: Page)
    requires forall p :: p in before && p !in kept ==> p in pages && pages[p] == before[p]
    ensures forall p :: p in before && p !in kept && 2 <= p <= n
              ==> p in CutAt(pages[HEADER_PAGE := head], n) && CutAt(pages[HEADER_PAGE := head], n)[p] == before[p]
  {
  }

  /** The last page that is not free: the file can end there. */
  method LastUsed(isFree: set<Pgno>, dbSize: nat) returns (newSize: nat)
    requires dbSize >= 1
    ensures 1 <= newSize <= dbSize && (newSize == 1 || newSize !in isFree)
    ensures forall p: Pgno :: newSize < p <= dbSize ==> p in isFree
  {
    newSize := dbSize;
    while newSize >= 2 && newSize in isFree
      invariant 1 <= newSize <= dbSize
      invariant forall p: Pgno :: newSize < p <= dbSize ==> p in isFree
    {
      newSize := newSize - 1;
    }
  }

  lemma KeptSet(kept: seq<Pgno>, isFree: set<Pgno>, newSize: nat)
    requires forall p :: p in kept <==> p in isFree && 2 <= p <= newSize
    requires forall p :: p in isFree ==> 2 <= p
    ensures Elements(kept) == set p | p in isFree && p <= newSize
  {
  }

  /** The free pages up to the new size, in ascending order. */
  method KeptPages(isFree: set<Pgno>, newSize: nat) returns (kept: seq<Pgno>)
    requires newSize >= 1
    ensures NoRepeats(kept)
    ensures forall p :: p in kept <==> p in isFree && 2 <= p <= newSize
  {
    kept := [];
    for g := 2 to newSize + 1
      invariant forall i, j :: 0 <= i < j < |kept| ==> kept[i] < kept[j]
      invariant forall i :: 0 <= i < |kept| ==> kept[i] < g
      invariant forall p :: p in kept <==> p in isFree && 2 <= p < g
    {
      if g in isFree { kept := kept + [g]; }
    }
  }

  lemma MarkOne(pages: Pages, trunk: Pgno, rest: seq<Pgno>)
    requires TrunkChain(pages, trunk, rest) && trunk != 0
    ensures rest != [] && trunk in pages && pages[trunk].Trunk? && TrunkChain(pages, pages[trunk].next, rest[1..])
    ensures Elements(FreeSeq(pages, rest)) == {trunk} + Elements(pages[trunk].leaves) + Elements(FreeSeq(pages, rest[1..]))
  {
  }

  lemma EmptyList(pages: Pages, h: Header)
    requires h.freeHead == 0 && h.freeCount == 0 && h.dbSize >= 1
    ensures FreeOk(pages, h, []) && FreeSet(pages, []) == Elements([])
  {
  }

  lemma KeptIsLive(h: Header, kept: seq<Pgno>, i: nat)
    requires i < |kept| && NoRepeats(kept) && InFile(kept, h.dbSize)
    ensures kept[i] in Live(h, Elements(kept[..i]))
  {
    assert kept[i] !in kept[..i];
  }

  lemma KeptMore(kept: seq<Pgno>, i: nat)
    requires i < |kept|
    ensures Elements(kept[..i + 1]) == Elements(kept[..i]) + {kept[i]}
  {
    assert kept[..i + 1] == kept[..i] + [kept[i]];
  }

  /** Freeing writes only the page itself or a page that is already free. */
  lemma FreeWrites(pages: Pages, h: Header, trunks: seq<Pgno>, p: Pgno)
    requires FreeOk(pages, h, trunks) && p in pages
    ensures FreePage(pages, h, p).1.Keys == pages.Keys
    ensures forall q :: q in pages && q != p && q !in FreeSet(pages, trunks) ==> FreePage(pages, h, p).1[q] == pages[q]
  {
    if trunks != [] {
      TrunksAreFree(pages, h.freeHead, trunks, h.freeHead);
    }
  }

  /** Freeing writes one trunk: the first one, or the page as a new first one. */
  lemma TrunksAfter(pages: Pages, h: Header, trunks: seq<Pgno>, p: Pgno)
    requires FreeOk(pages, h, trunks)
    ensures var joins := h.freeHead != 0 && h.freeHead in pages && pages[h.freeHead].Trunk? && |pages[h.freeHead].leaves| < PerTrunk(h.pageSize);
            && (joins ==> h.freeHead in Elements(trunks))
            && Elements(FreeTrunks(pages, h, trunks, p)) == if joins then Elements(trunks) else Elements(trunks) + {p}
  {
  }

  lemma TrunksCounted(pages: Pages, h: Header, trunks: seq<Pgno>)
    requires FreeOk(pages, h, trunks)
    ensures |Elements(trunks) + {HEADER_PAGE}| == |trunks| + 1
    ensures {} + Elements(trunks) == Elements(trunks)
  {
    TrunksNoRepeats(pages, trunks);
    DistinctCount(trunks);
    forall t | t in trunks ensures t != HEADER_PAGE {
      TrunksAreFree(pages, h.freeHead, trunks, t);
      var s := FreeSeq(pages, trunks);
      var i :| 0 <= i < |s| && s[i] == t;
    }
  }

  lemma {:induction false} TrunksNoRepeats(pages: Pages, trunks: seq<Pgno>)
    requires NoRepeats(FreeSeq(pages, trunks))
    ensures NoRepeats(trunks)
    ensures forall t :: t in trunks ==> t in FreeSeq(pages, trunks)
    decreases |trunks|
  {
    if trunks != [] {
      var s, rest := FreeSeq(pages, trunks), FreeSeq(pages, trunks[1..]);
      var k := |s| - |rest|;
      assert s[k..] == rest;
      forall i, j | 0 <= i < j < |rest| ensures rest[i] != rest[j] { assert s[k + i] != s[k + j]; }
      TrunksNoRepeats(pages, trunks[1..]);
      forall j | 1 <= j < |trunks| ensures trunks[j] != trunks[0] {
        assert trunks[j] == trunks[1..][j - 1] && trunks[1..][j - 1] in trunks[1..];
        var i :| 0 <= i < |rest| && rest[i] == trunks[j];
        assert s[k + i] == trunks[j] && s[0] == trunks[0];
      }
    }
  }

  lemma FreeFacts(pages: Pages, h: Header, trunks: seq<Pgno>)
    requires FreeOk(pages, h, trunks)
    ensures h.dbSize >= 1 && (h.freeCount == 0 ==> FreeSet(pages, trunks) == {})
    ensures forall p :: p in FreeSet(pages, trunks) ==> 2 <= p <= h.dbSize
  {
    var s := FreeSeq(pages, trunks);
    forall p | p in FreeSet(pages, trunks) ensures 2 <= p <= h.dbSize {
      var i :| 0 <= i < |s| && s[i] == p;
    }
  }

  lemma KeptInFile(kept: seq<Pgno>, newSize: nat, dbSize: nat)
    requires newSize <= dbSize && forall p :: p in kept ==> 2 <= p <= newSize
    ensures InFile(kept, dbSize)
  {
    forall i | 0 <= i < |kept| ensures 2 <= kept[i] <= dbSize {
      assert kept[i] in kept;
    }
  }

  lemma SmallerFile(pages: Pages, h: Header, trunks: seq<Pgno>, kept: seq<Pgno>, newSize: nat)
    requires FreeOk(pages, h, trunks) && FreeSet(pages, trunks) == Elements(kept) && newSize >= 1
    requires forall p :: p in kept ==> 2 <= p <= newSize
    ensures FreeOk(pages, h.(dbSize := newSize), trunks)
  {
    var s := FreeSeq(pages, trunks);
    forall i | 0 <= i < |s| ensures 2 <= s[i] <= newSize {
      assert s[i] in Elements(s);
    }
  }

  /** Writing page 1 and cutting the file leaves the free-list alone. */
  lemma HeaderRewritten(pages: Pages, h: Header, h': Header, trunks: seq<Pgno>, newSize: nat)
    requires FreeOk(pages, h, trunks) && h.dbSize == newSize && h' == h.(changeCounter := h'.changeCounter)
    ensures var pages' := CutAt(pages[HEADER_PAGE := Head(h')], newSize);
            FreeOk(pages', h', trunks) && FreeSet(pages', trunks) == FreeSet(pages, trunks)
  {
    var pages' := CutAt(pages[HEADER_PAGE := Head(h')], newSize);
    forall t | t in trunks && t in pages ensures t in pages' && pages'[t] == pages[t] {
      TrunksAreFree(pages, h.freeHead, trunks, t);
      var s := FreeSeq(pages, trunks);
      var i :| 0 <= i < |s| && s[i] == t;
    }
    ChainFrame(pages, pages', h.freeHead, trunks);
  }

  lemma LiveUntouched(before: Pages, after: Pages, h: Header, isFree: set<Pgno>, kept: seq<Pgno>, newSize: nat)
    requires forall p :: p in before && p !in kept && 2 <= p <= newSize ==> p in after && after[p] == before[p]
    requires forall p: Pgno :: newSize < p <= h.dbSize ==> p in isFree
    requires forall p :: p in kept ==> p in isFree
    requires forall p: Pgno :: 1 <= p <= h.dbSize ==> p in before
    ensures forall p :: p in Live(h, isFree) ==> p in before && p in after && after[p] == before[p]
  {
  }

  lemma HeaderCached(durable: Pages, cache: map<Pgno, Cached>, head: Page)
    requires HEADER_PAGE in DirtyPages(cache).Keys && (durable + DirtyPages(cache))[HEADER_PAGE] == head
    ensures HEADER_PAGE in cache && cache[HEADER_PAGE].data == head
  {
  }

  lemma NoLevels(durable: Pages)
    ensures Levels(durable, []) == [] && forall dirty :: Nested([], dirty)
  {
  }

  lemma LevelsLength(durable: Pages, sps: seq<Savepoint>)
    ensures |Levels(durable, sps)| == |sps|
  {
  }

  lemma LevelsCut(durable: Pages, sps: seq<Savepoint>, level: nat)
    requires level < |sps|
    ensures |Levels(durable, sps)| == |sps| && Levels(durable, sps[..level + 1]) == Levels(durable, sps)[..level + 1]
    ensures Levels(durable, sps)[level] == State(durable + sps[level].imgs, sps[level].hdr)
  {
  }

  lemma NestedLevel(sps: seq<Savepoint>, dirty: set<Pgno>, level: nat)
    requires Nested(sps, dirty) && level < |sps|
    ensures sps[level].imgs.Keys <= dirty
  {
  }

  lemma NestedCut(sps: seq<Savepoint>, dirty: set<Pgno>, dirty': set<Pgno>, level: nat)
    requires Nested(sps, dirty) && level < |sps| && sps[level].imgs.Keys <= dirty'
    ensures Nested(sps[..level + 1], dirty')
  {
  }

  method TakeUpTo(all: set<Pgno>, limit: nat) returns (some: set<Pgno>)
    ensures some <= all && |some| == Min(|all|, limit)
    ensures some == all <==> |all| <= limit
  {
    some := {};
    var rest := all;
    while rest != {} && |some| < limit
      invariant some !! rest && some + rest == all && |some| <= limit
      decreases |rest|
    {
      var p :| p in rest;
      rest := rest - {p};
      some := some + {p};
    }
    SubsetCount(some, all);
  }

  lemma SubsetCount(a: set<Pgno>, b: set<Pgno>)
    requires a <= b
    ensures |a| <= |b| && (|a| == |b| <==> a == b)
  {
    assert b == a + (b - a);
  }

  lemma CountPositive(pages: Pages, h: Header, trunks: seq<Pgno>)
    requires FreeOk(pages, h, trunks)
    ensures h.freeHead != 0 ==> h.freeCount > 0
  {
  }

  ghost predicate HeadIsTrunk(pages: Pages, h: Header) {
    h.freeHead != 0 ==> h.freeHead in pages && pages[h.freeHead].Trunk?
  }

  ghost function PageIn(pages: Pages, p: Pgno): seq<Page> {
    if p in pages then [pages[p]] else []
  }

  /** Collected pages get their saved image back, or leave the cache when they had none. */
  function Restored(cache: map<Pgno, Cached>, collected: set<Pgno>, imgs: Pages): map<Pgno, Cached> {
    map p | p in cache && (p in collected ==> p in imgs) :: if p in collected then Cached(imgs[p], true) else cache[p]
  }

  function Cleaned(cache: map<Pgno, Cached>, collected: set<Pgno>): map<Pgno, Cached> {
    map p | p in cache :: if p in collected then Cached(cache[p].data, false) else cache[p]
  }

  function Collected(cache: map<Pgno, Cached>, collected: set<Pgno>): Pages {
    map p | p in collected && p in cache :: cache[p].data
  }

  lemma RestoreMeaning(durable: Pages, cache: map<Pgno, Cached>, collected: set<Pgno>, sp: Savepoint)
    requires CacheOk(durable, cache) && collected <= DirtyPages(cache).Keys && sp.imgs.Keys <= DirtyPages(cache).Keys
    ensures var c := Restored(cache, collected, sp.imgs);
            && CacheOk(durable, c)
            && (forall p :: PageIn(durable + DirtyPages(c), p)
                            == if p in collected then PageIn(durable + sp.imgs, p) else PageIn(durable + DirtyPages(cache), p))
            && (collected == DirtyPages(cache).Keys ==> durable + DirtyPages(c) == durable + sp.imgs)
            && sp.imgs.Keys <= DirtyPages(c).Keys
  {
    var c := Restored(cache, collected, sp.imgs);
    if collected == DirtyPages(cache).Keys {
      assert DirtyPages(c) == sp.imgs;
    }
  }

  /** A set of pages that collecting may leave: all dirty ones, or as many as the limit lets through. */
  ghost predicate MayCollect(cache: map<Pgno, Cached>, pgs: set<Pgno>) {
    pgs <= DirtyPages(cache).Keys && |pgs| == Min(|DirtyPages(cache).Keys|, MAX_COLLECTED)
  }

  /** The pages after rolling back to a savepoint with a given set collected. */
  ghost function RolledBack(durable: Pages, cache: map<Pgno, Cached>, pgs: set<Pgno>, imgs: Pages): Pages {
    durable + DirtyPages(Restored(cache, pgs, imgs))
  }

  /**
   Rolling back restores every page of the savepoint, whichever pages are collected, if and only
   if at most 2112 pages are dirty or nothing has changed since it was set.
   */
  lemma RollbackExact(durable: Pages, cache: map<Pgno, Cached>, sp: Savepoint)
    requires CacheOk(durable, cache) && sp.imgs.Keys <= DirtyPages(cache).Keys
    ensures (forall pgs :: MayCollect(cache, pgs) ==> RolledBack(durable, cache, pgs, sp.imgs) == durable + sp.imgs)
       <==> (|DirtyPages(cache).Keys| <= MAX_COLLECTED || durable + DirtyPages(cache) == durable + sp.imgs)
  {
    hide CacheOk, Restored;
    var dirty := DirtyPages(cache).Keys;
    forall pgs | MayCollect(cache, pgs)
      ensures (|dirty| <= MAX_COLLECTED || durable + DirtyPages(cache) == durable + sp.imgs)
          ==> RolledBack(durable, cache, pgs, sp.imgs) == durable + sp.imgs
    {
      RestoreMeaning(durable, cache, pgs, sp);
      SubsetCount(pgs, dirty);
      SamePages(RolledBack(durable, cache, pgs, sp.imgs), durable + DirtyPages(cache), durable + sp.imgs, pgs);
    }
    if |dirty| > MAX_COLLECTED && durable + DirtyPages(cache) != durable + sp.imgs {
      var p := Changed(durable, cache, sp.imgs);
      var pgs := SomeOf(dirty - {p}, MAX_COLLECTED);
      RestoreMeaning(durable, cache, pgs, sp);
      assert MayCollect(cache, pgs);
      assert PageIn(RolledBack(durable, cache, pgs, sp.imgs), p) != PageIn(durable + sp.imgs, p);
    }
  }

  /** With 2113 new pages written, some are still there after rolling back to before the first. */
  lemma TooManyDirty(h: Header) returns (cache: map<Pgno, Cached>, pgs: set<Pgno>)
    ensures var durable: Pages := map[HEADER_PAGE := Head(h)];
            CacheOk(durable, cache) && MayCollect(cache, pgs) && RolledBack(durable, cache, pgs, map[]) != durable
  {
    hide RolledBack, MayCollect;
    var durable: Pages := map[HEADER_PAGE := Head(h)];
    var many := PagesFrom(2, MAX_COLLECTED + 1);
    cache := map p | p in many :: Cached(ZERO_PAGE, true);
    assert DirtyPages(cache).Keys == many;
    assert durable + map[] == durable;
    var p :| p in many;
    assert p in durable + DirtyPages(cache) && p !in durable;
    RollbackExact(durable, cache, Savepoint(h, map[]));
    pgs :| MayCollect(cache, pgs) && RolledBack(durable, cache, pgs, map[]) != durable;
  }

  lemma {:induction false} PagesFrom(first: Pgno, n: nat) returns (pgs: set<Pgno>)
    ensures |pgs| == n && forall p :: p in pgs ==> first <= p
    decreases n
  {
    if n == 0 {
      pgs := {};
    } else {
      pgs := PagesFrom(first + 1, n - 1);
      pgs := pgs + {first};
    }
  }

  lemma SamePages(a: Pages, b: Pages, c: Pages, pgs: set<Pgno>)
    requires forall p :: PageIn(a, p) == if p in pgs then PageIn(c, p) else PageIn(b, p)
    ensures b == c ==> a == c
  {
    if b == c {
      forall p ensures (p in a <==> p in c) && (p in a && p in c ==> a[p] == c[p]) {
        assert PageIn(a, p) == PageIn(c, p);
      }
    }
  }

  lemma Changed(durable: Pages, cache: map<Pgno, Cached>, imgs: Pages) returns (p: Pgno)
    requires imgs.Keys <= DirtyPages(cache).Keys && durable + DirtyPages(cache) != durable + imgs
    ensures p in DirtyPages(cache) && PageIn(durable + DirtyPages(cache), p) != PageIn(durable + imgs, p)
  {
    var a, b := durable + DirtyPages(cache), durable + imgs;
    if q :| q in a && q !in b {
      p := q;
    } else {
      assert a.Keys == b.Keys;
      p :| p in a && a[p] != b[p];
    }
  }

  lemma {:induction false} SomeOf(all: set<Pgno>, n: nat) returns (some: set<Pgno>)
    requires n <= |all|
    ensures some <= all && |some| == n
    decreases n
  {
    if n == 0 {
      some := {};
    } else {
      var p :| p in all;
      some := SomeOf(all - {p}, n - 1);
      some := some + {p};
    }
  }

  lemma CommitMeaning(durable: Pages, cache: map<Pgno, Cached>, collected: set<Pgno>)
    requires CacheOk(durable, cache) && collected <= DirtyPages(cache).Keys
    requires HEADER_PAGE in cache && cache[HEADER_PAGE].data.Head?
    ensures var d, c := durable + Collected(cache, collected), Cleaned(cache, collected);
            && CacheOk(d, c) && d + DirtyPages(c) == durable + DirtyPages(cache)
            && (HEADER_PAGE in collected ==> d[HEADER_PAGE] == cache[HEADER_PAGE].data)
            && (DirtyPages(c) == map[] <==> collected == DirtyPages(cache).Keys)
            && (collected == DirtyPages(cache).Keys ==> d == durable + DirtyPages(cache))
  {
    var d, c := durable + Collected(cache, collected), Cleaned(cache, collected);
    assert DirtyPages(c).Keys == DirtyPages(cache).Keys - collected;
    if DirtyPages(c) == map[] {
      forall p | p in DirtyPages(cache) ensures p in collected {
        assert p !in DirtyPages(c).Keys;
      }
    }
  }
}
