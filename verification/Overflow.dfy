/**
 Overflow chains: the part of a value that does not fit its leaf cell, spread over pages that
 each hold the number of the next one and up to `per` bytes.
 */
module Overflow {
  import opened Basics

  type Pgno = nat

  datatype Page = Page(next: Pgno, data: seq<Byte>)
  type Store = map<Pgno, Page>

  function Flat(chunks: seq<seq<Byte>>): seq<Byte> {
    if chunks == [] then [] else Flat(chunks[..|chunks| - 1]) + chunks[|chunks| - 1]
  }

  lemma FlatMore(chunks: seq<seq<Byte>>, c: seq<Byte>)
    ensures Flat(chunks + [c]) == Flat(chunks) + c
  {
    assert (chunks + [c])[..|chunks|] == chunks;
  }

  /** Full chunks, except that the last may be shorter; none is empty. */
  ghost predicate Chunked(chunks: seq<seq<Byte>>, per: nat) {
    && (forall i :: 0 <= i < |chunks| ==> 0 < |chunks[i]| <= per)
    && (forall i :: 0 <= i < |chunks| - 1 ==> |chunks[i]| == per)
  }

  /** The pages `ids` hold the chunks in order, each naming the next; nothing follows the last. */
  ghost predicate Chain(st: Store, per: nat, ids: seq<Pgno>, chunks: seq<seq<Byte>>) {
    && |ids| == |chunks| && Chunked(chunks, per)
    && (forall i, j :: 0 <= i < j < |ids| ==> ids[i] != ids[j])
    && (forall i :: 0 <= i < |ids| ==> ids[i] != 0 && ids[i] in st && |st[ids[i]].data| == per && chunks[i] <= st[ids[i]].data)
    && (forall i :: 0 <= i < |ids| ==> st[ids[i]].next == if i + 1 < |ids| then ids[i + 1] else 0)
  }

  /** Next to the pages of st, which are as they were, exactly the pages `ids` are in use. */
  ghost predicate Beside(st: Store, st': Store, ids: seq<Pgno>) {
    && (forall q :: q in st ==> q in st' && st'[q] == st[q] && q !in ids)
    && (forall q :: q in st' <==> q in st || q in ids)
  }

  lemma BesideMore(st: Store, st': Store, ids: seq<Pgno>, cur: Pgno, page: Page)
    requires Beside(st, st', ids) && cur !in st'
    ensures var st1 := st'[cur := page];
            Beside(st, if ids == [] then st1 else st1[ids[|ids| - 1] := st1[ids[|ids| - 1]].(next := cur)], ids + [cur])
  {
    assert ids != [] ==> ids[|ids| - 1] in ids;
  }

  function First(ids: seq<Pgno>): Pgno { if ids == [] then 0 else ids[0] }

  /** One more page at the end. */
  lemma Extended(st: Store, per: nat, ids: seq<Pgno>, chunks: seq<seq<Byte>>, cur: Pgno, c: seq<Byte>, page: Page)
    requires Chain(st, per, ids, chunks) && cur != 0 && cur !in st && 0 < |c| <= per
    requires |ids| > 0 ==> |chunks[|ids| - 1]| == per
    requires page.next == 0 && |page.data| == per && c <= page.data
    ensures var st1 := st[cur := page];
            Chain(if ids == [] then st1 else st1[ids[|ids| - 1] := st1[ids[|ids| - 1]].(next := cur)], per, ids + [cur], chunks + [c])
  {
  }

  lemma {:induction false} FlatPrefix(chunks: seq<seq<Byte>>, i: nat)
    requires i <= |chunks|
    ensures |Flat(chunks[..i])| <= |Flat(chunks)|
    decreases |chunks|
  {
    if i < |chunks| {
      FlatPrefix(chunks[..|chunks| - 1], i);
      assert chunks[..|chunks| - 1][..i] == chunks[..i];
    } else {
      assert chunks[..i] == chunks;
    }
  }

  /** How much the reader takes from page i is exactly its chunk. */
  lemma TakesChunk(chunks: seq<seq<Byte>>, per: nat, i: nat)
    requires Chunked(chunks, per) && i < |chunks|
    ensures var left := |Flat(chunks)| - |Flat(chunks[..i])|; |chunks[i]| == if per < left then per else left
    ensures |Flat(chunks[..i + 1])| == |Flat(chunks[..i])| + |chunks[i]| <= |Flat(chunks)|
  {
    assert chunks[..i + 1] == chunks[..i] + [chunks[i]];
    FlatMore(chunks[..i], chunks[i]);
    FlatPrefix(chunks, i + 1);
    if i + 1 < |chunks| {
      assert chunks[..i + 2] == chunks[..i + 1] + [chunks[i + 1]];
      FlatMore(chunks[..i + 1], chunks[i + 1]);
      FlatPrefix(chunks, i + 2);
    } else {
      assert chunks[..i + 1] == chunks;
    }
  }

  class OverflowStore {
    const per: nat
    var pages: Store

    constructor (ps: nat)
      requires ps > 4
      ensures per == ps - 4 && pages == map[]
    {
      per := ps - 4;
      pages := map[];
    }

    /** Spreads the bytes over new pages. */
    method Write(data: seq<Byte>) returns (first: Pgno, ghost ids: seq<Pgno>, ghost chunks: seq<seq<Byte>>)
      requires per > 0
      modifies `pages
      ensures Chain(pages, per, ids, chunks) && Flat(chunks) == data && first == First(ids)
      ensures Beside(old(pages), pages, ids)
    {
      hide Chain, Beside, Flat;
      first, ids, chunks := 0, [], [];
      var prev, off := 0, 0;
      StartChain(pages, per);
      while off < |data|
        invariant off <= |data| && Flat(chunks) == data[..off]
        invariant Chain(pages, per, ids, chunks) && first == First(ids) && prev == Last(ids)
        invariant off < |data| && ids != [] ==> |chunks| == |ids| && |chunks[|ids| - 1]| == per
        invariant Beside(old(pages), pages, ids)
      {
        var chunk := if per < |data| - off then per else |data| - off;
        var c := data[off..off + chunk];
        ChainIds(pages, per, ids, chunks);
        FlatMore(chunks, c);
        assert data[..off + chunk] == data[..off] + c;
        var cur := AppendPage(prev, c, ids, chunks, old(pages));
        if first == 0 { first := cur; }
        ids, chunks := ids + [cur], chunks + [c];
        prev, off := cur, off + chunk;
        ChainIds(pages, per, ids, chunks);
      }
      assert data[..off] == data;
    }

    /** One page more, linked from the last one. */
    method AppendPage(prev: Pgno, c: seq<Byte>, ghost ids: seq<Pgno>, ghost chunks: seq<seq<Byte>>, ghost st: Store)
      returns (cur: Pgno)
      requires Chain(pages, per, ids, chunks) && prev == Last(ids) && 0 < |c| <= per
      requires |chunks| == |ids| && (ids != [] ==> |chunks[|ids| - 1]| == per) && Beside(st, pages, ids)
      modifies `pages
      ensures Chain(pages, per, ids + [cur], chunks + [c]) && Beside(st, pages, ids + [cur]) && cur != 0
    {
      hide Chain, Beside;
      cur := Alloc();
      var page := Page(0, c + seq(per - |c|, i => 0));
      ChainIds(pages, per, ids, chunks);
      Extended(pages, per, ids, chunks, cur, c, page);
      BesideMore(st, pages, ids, cur, page);
      pages := pages[cur := page];
      if prev != 0 { pages := pages[prev := pages[prev].(next := cur)]; }
    }

    method Alloc() returns (p: Pgno)
      ensures p != 0 && p !in pages
    {
      FreshPgno(pages.Keys);
      p :| p != 0 && p !in pages.Keys;
    }

    /** Reads back what was written. */
    method Get(first: Pgno, len: nat, ghost ids: seq<Pgno>, ghost chunks: seq<seq<Byte>>) returns (data: seq<Byte>)
      requires Chain(pages, per, ids, chunks) && first == First(ids) && len == |Flat(chunks)|
      ensures data == Flat(chunks)
    {
      data := [];
      var p := first;
      ghost var i := 0;
      while |data| < len && p != 0
        invariant 0 <= i <= |ids| && data == Flat(chunks[..i])
        invariant p == if i < |ids| then ids[i] else 0
        decreases |ids| - i
      {
        TakesChunk(chunks, per, i);
        var chunk := if per < len - |data| then per else len - |data|;
        FlatMore(chunks[..i], chunks[i]);
        assert chunks[..i + 1] == chunks[..i] + [chunks[i]];
        assert pages[p].data[..chunk] == chunks[i];
        data := data + pages[p].data[..chunk];
        NextOf(pages, per, ids, chunks, i);
        p := pages[p].next;
        i := i + 1;
      }
      Whole(chunks, per, i);
    }

    /** Gives back exactly the chain's pages. */
    method Free(first: Pgno, ghost ids: seq<Pgno>, ghost chunks: seq<seq<Byte>>)
      requires Chain(pages, per, ids, chunks) && first == First(ids)
      modifies `pages
      ensures pages == old(pages) - set q | q in ids
    {
      var p := first;
      ghost var i := 0;
      while p != 0
        invariant 0 <= i <= |ids| && p == if i < |ids| then ids[i] else 0
        invariant pages == old(pages) - set q | q in ids[..i]
        decreases |ids| - i
      {
        assert p !in ids[..i];
        NextOf(old(pages), per, ids, chunks, i);
        var next := pages[p].next;
        pages := pages - {p};
        assert ids[..i + 1] == ids[..i] + [p];
        p := next;
        i := i + 1;
      }
      assert ids[..i] == ids;
    }
  }

  function Last(ids: seq<Pgno>): Pgno { if ids == [] then 0 else ids[|ids| - 1] }

  lemma StartChain(st: Store, per: nat)
    ensures Chain(st, per, [], []) && Beside(st, st, []) && Flat([]) == []
  {
  }

  lemma ChainIds(st: Store, per: nat, ids: seq<Pgno>, chunks: seq<seq<Byte>>)
    requires Chain(st, per, ids, chunks)
    ensures |ids| == |chunks| && forall i :: 0 <= i < |ids| ==> ids[i] != 0 && ids[i] in st
  {
  }

  lemma NextOf(st: Store, per: nat, ids: seq<Pgno>, chunks: seq<seq<Byte>>, i: nat)
    requires Chain(st, per, ids, chunks) && i < |ids|
    ensures ids[i] in st && st[ids[i]].next == if i + 1 < |ids| then ids[i + 1] else 0
    ensures i + 1 < |ids| ==> ids[i + 1] != 0
  {
  }

  /** Reading stops early only when every chunk has been read. */
  lemma Whole(chunks: seq<seq<Byte>>, per: nat, i: nat)
    requires Chunked(chunks, per) && i <= |chunks| && (i == |chunks| || |Flat(chunks[..i])| >= |Flat(chunks)|)
    ensures Flat(chunks[..i]) == Flat(chunks)
  {
    if i < |chunks| { TakesChunk(chunks, per, i); } else { assert chunks[..i] == chunks; }
  }
}
