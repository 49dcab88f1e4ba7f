// The end of a compaction: the free ends of the chunks become the free list again.
module Rebuild {
  import opened Header
  import opened FreeHeap
  import opened FreeTable
  import opened FreeMoves
  import opened FreeList
  import opened Sweep

  ghost predicate TablesOk(fl: FreeList)
    reads fl
  {
    fl.firstFit ==> fl.TableOk() && fl.BeyondOk()
  }

  // Everything on the list is passed, and nothing lies across the place where merging goes on.
  ghost predicate Passed(fl: FreeList)
    reads fl
  {
    fl.Valid() && TablesOk(fl) && fl.mk == |fl.list| && Boundary(fl.hd, fl.sweepHp)
  }

  // ---- Cutting what is not free yet ----

  // The block at b, in use, is cut after n words.
  lemma CutOk(hd: map<int, Hd>, next: map<int, int>, list: seq<int>, chunks: set<Chunk>, max: nat, b: int, n: nat)
    requires HeapOk(hd, next, list, chunks) && b in hd && hd[b].color == White && n < hd[b].size
    ensures var hd' := Split(hd, b, n, White, White);
      && HeapOk(hd', next, list, chunks) && Total(hd', list) == Total(hd, list) && Sizes(hd', list) == Sizes(hd, list)
      && (Separated(hd, max) ==> Separated(hd', max)) && b + n + 1 !in hd
  {
    hide Total;
    var hd', r := Split(hd, b, n, White, White), b + n + 1;
    SplitTiled(hd, chunks, b, n, White, White);
    ListIn(hd, next, list);
    assert Listed(hd, list, b) && Listed(hd, list, r);
    forall x ensures Listed(hd', list, x) {
      assert Listed(hd, list, x);
    }
    forall i | 0 <= i < |list| ensures list[i] != b && list[i] != r {
      assert list[i] in list;
    }
    TotalSame(hd, hd', list);
    if Separated(hd, max) {
      forall x, y ensures NoTouch(hd', max, x, y) {
        assert NoTouch(hd, max, x, y);
      }
    }
  }

  // What is above the place where merging goes on, and was in use, is as it was; and so is what was a fragment.
  lemma StillThere(hd0: map<int, Hd>, hd: map<int, Hd>, next: map<int, int>, list: seq<int>, chunks: set<Chunk>,
                   x: int, b: int)
    requires Tiled(hd0, chunks) && HeapOk(hd, next, list, chunks) && Boundary(hd, x)
    requires (forall e :: e in list ==> e <= x) && forall e :: e > x ==> KeptUse(hd0, hd, e, true)
    requires b in hd0 && hd0[b].color == White && b > x
    ensures b in hd && hd[b] == hd0[b]
  {
    if hd0[b].size == 0 {
      assert Inside(hd0, chunks, b) && Covered(hd, chunks, b - 1);
      var e :| Holds(hd, e, b - 1);
      assert Side(hd, x, e) && KeptUse(hd0, hd, e, true) && Apart(hd0, e, b) && Listed(hd, list, e);
      assert KeptUse(hd0, hd, b, true);
    } else {
      assert KeptUse(hd0, hd, b, true);
    }
  }

  // ---- caml_make_free_blocks ----

  // No block between lo and hi is in use; the others are as they were.
  ghost predicate FreedAt(hd0: map<int, Hd>, hd: map<int, Hd>, lo: int, hi: int, b: int) {
    if lo < b <= hi then !InUse(hd, b) else KeptUse(hd0, hd, b, true)
  }

  ghost predicate Freed(hd0: map<int, Hd>, hd: map<int, Hd>, lo: int, hi: int) {
    forall b :: FreedAt(hd0, hd, lo, hi, b)
  }

  ghost predicate FreedPart(hd0: map<int, Hd>, hd: map<int, Hd>, lo: int, hi: int, p: int) {
    forall b :: b <= p || b > hi ==> FreedAt(hd0, hd, lo, hi, b)
  }

  // The block that begins at p, and has size words with its header, is not cut yet.
  ghost predicate Uncut(hd: map<int, Hd>, p: int, size: nat) {
    size > 0 ==> p + 1 in hd && hd[p + 1] == Hd(size - 1, White)
  }

  lemma PartStart(hd: map<int, Hd>, lo: int, hi: int)
    ensures FreedPart(hd, hd, lo, hi, lo)
  {
  }

  lemma PartEnd(hd0: map<int, Hd>, hd: map<int, Hd>, lo: int, hi: int)
    requires FreedPart(hd0, hd, lo, hi, hi)
    ensures Freed(hd0, hd, lo, hi)
  {
  }

  // hd1 is hd with the piece cut off, and hd2 is that with the piece merged.
  lemma PartNext(hd0: map<int, Hd>, hd: map<int, Hd>, hd1: map<int, Hd>, hd2: map<int, Hd>, chunks: set<Chunk>,
                 lo: int, hi: int, p: int, sz: nat, size: nat)
    requires FreedPart(hd0, hd, lo, hi, p) && lo <= p && 0 < sz <= size && p + size == hi
    requires Tiled(hd1, chunks) && p + 1 in hd1 && hd1[p + 1].size == sz - 1
    requires KeepsOthers(hd, hd1, {p + 1, p + sz + 1}) && (sz == size ==> hd1 == hd)
    requires FreesOnly(hd1, hd2, p + 1)
    ensures FreedPart(hd0, hd2, lo, hi, p + sz)
  {
    forall b | b <= p + sz || b > hi ensures FreedAt(hd0, hd2, lo, hi, b) {
      assert KeptBut(hd1, hd2, p + 1, b);
      if p < b <= p + sz {
        assert Apart(hd1, p + 1, b);
      } else {
        assert FreedAt(hd0, hd, lo, hi, b);
        if sz < size { assert KeptUse(hd, hd1, b, true); }
      }
    }
  }

  lemma CutKeeps(hd: map<int, Hd>, b: int, n: nat)
    requires b in hd && n < hd[b].size
    ensures KeepsOthers(hd, Split(hd, b, n, White, White), {b, b + n + 1})
  {
  }

  // One turn of the loop: sz of the words left get a header, and are merged.
  method MakePiece(fl: FreeList, p: int, sz: nat, size: nat, ghost hd0: map<int, Hd>, ghost lo: int)
    requires fl.Valid() && TablesOk(fl) && fl.mk == |fl.list| && p == fl.sweepHp && lo <= p
    requires 0 < sz <= size && Uncut(fl.hd, p, size) && FreedPart(hd0, fl.hd, lo, p + size, p)
    modifies fl
    ensures Passed(fl) && fl.chunks == old(fl.chunks) && fl.sweepHp == p + sz
    ensures Uncut(fl.hd, p + sz, size - sz) && FreedPart(hd0, fl.hd, lo, p + size, p + sz)
    ensures old(Separated(fl.hd, fl.maxWosize)) ==> Separated(fl.hd, fl.maxWosize)
  {
    hide HeapOk;
    hide Total;
    hide Sizes;
    hide Separated;
    hide FreedPart;
    hide FreesOnly;
    hide EndsAt;
    hide Boundary;
    hide Maxima;
    hide EntriesAt;
    hide Resumes;
    hide KeepsOthers;
    ghost var hd := fl.hd;
    if sz < size {
      CutOk(fl.hd, fl.next, fl.list, fl.chunks, fl.maxWosize, p + 1, sz - 1);
      CutKeeps(fl.hd, p + 1, sz - 1);
      CutFragment(fl.hd, fl.lastFragment, p, p + 1, sz - 1);
      fl.hd := Split(fl.hd, p + 1, sz - 1, White, White);
    } else {
      SameUse(hd, {p + 1, p + sz + 1});
    }
    ghost var hd1 := fl.hd;
    TilesThere(fl.hd, fl.next, fl.list, fl.chunks);
    var adj := fl.MergeBlock(p + 1);
    PartNext(hd0, hd, hd1, fl.hd, fl.chunks, lo, p + size, p, sz, size);
    TilesThere(fl.hd, fl.next, fl.list, fl.chunks);
    EndBoundary(fl.hd, fl.chunks, p + 1, adj);
    if sz < size {
      FreedAbove(hd1, fl.hd, p + 1, adj);
      StillThere(hd1, fl.hd, fl.next, fl.list, fl.chunks, adj, p + sz + 1);
    }
  }

  lemma CutFragment(hd: map<int, Hd>, f: int, x: int, b: int, n: nat)
    requires FragmentAt(hd, f, x) && b in hd && n < hd[b].size && b > x
    ensures FragmentAt(Split(hd, b, n, White, White), f, x)
  {
  }

  lemma SameUse(hd: map<int, Hd>, but: set<int>)
    ensures KeepsOthers(hd, hd, but)
  {
  }

  lemma FreedAbove(hd: map<int, Hd>, hd': map<int, Hd>, bp: int, x: int)
    requires FreesOnly(hd, hd', bp) && bp <= x + 1
    ensures forall e :: e > x && e != bp ==> KeptUse(hd, hd', e, true)
  {
    forall e | e > x && e != bp ensures KeptUse(hd, hd', e, true) {
      assert KeptBut(hd, hd', bp, e);
    }
  }

  // The size words from p on, which count as one block, become free blocks.
  method MakeFreeBlocks(fl: FreeList, p0: int, size0: nat)
    requires fl.Valid() && TablesOk(fl) && fl.mk == |fl.list| && p0 == fl.sweepHp
    requires size0 > 0 && Uncut(fl.hd, p0, size0)
    modifies fl
    ensures Passed(fl) && fl.chunks == old(fl.chunks) && fl.sweepHp == p0 + size0
    ensures old(Separated(fl.hd, fl.maxWosize)) ==> Separated(fl.hd, fl.maxWosize)
    ensures Freed(old(fl.hd), fl.hd, p0, p0 + size0)
  {
    hide FreedPart;
    ghost var hd0, hi := fl.hd, p0 + size0;
    var p, size: nat := p0, size0;
    PartStart(hd0, p0, hi);
    while size > 0
      invariant fl.Valid() && TablesOk(fl) && fl.mk == |fl.list| && p == fl.sweepHp && p + size == hi && p >= p0
      invariant Uncut(fl.hd, p, size) && fl.chunks == old(fl.chunks)
      invariant size == 0 ==> Boundary(fl.hd, p)
      invariant old(Separated(fl.hd, fl.maxWosize)) ==> Separated(fl.hd, fl.maxWosize)
      invariant FreedPart(hd0, fl.hd, p0, hi, p)
      decreases size
    {
      var sz := if size > fl.maxWosize + 1 then fl.maxWosize + 1 else size;
      MakePiece(fl, p, sz, size, hd0, p0);
      size := size - sz;
      p := p + sz;
    }
    PartEnd(hd0, fl.hd, p0, hi);
  }
  // ---- The free ends of all chunks ----

  // The free end of chunk c begins at ends[c] and is not cut yet.
  ghost predicate EndOk(hd: map<int, Hd>, heap: seq<Chunk>, ends: seq<int>, c: nat) {
    && c < |heap| == |ends| && heap[c].lo <= ends[c] <= heap[c].hi
    && Uncut(hd, ends[c], heap[c].hi - ends[c])
  }

  ghost predicate EndHas(heap: seq<Chunk>, ends: seq<int>, c: nat, b: int) {
    c < |heap| == |ends| && ends[c] < b <= heap[c].hi
  }

  ghost predicate InEnd(heap: seq<Chunk>, ends: seq<int>, n: nat, b: int) {
    exists c: nat :: c < n && EndHas(heap, ends, c, b)
  }

  // In the free ends of the first n chunks nothing is in use; all else is as it was.
  ghost predicate DoneAt(hd0: map<int, Hd>, hd: map<int, Hd>, heap: seq<Chunk>, ends: seq<int>, n: nat, b: int) {
    if InEnd(heap, ends, n, b) then !InUse(hd, b) else KeptUse(hd0, hd, b, true)
  }

  ghost predicate Done(hd0: map<int, Hd>, hd: map<int, Hd>, heap: seq<Chunk>, ends: seq<int>, n: nat) {
    forall b :: DoneAt(hd0, hd, heap, ends, n, b)
  }

  lemma DoneNone(hd: map<int, Hd>, heap: seq<Chunk>, ends: seq<int>)
    ensures Done(hd, hd, heap, ends, 0)
  {
  }

  lemma DoneNext(hd0: map<int, Hd>, hd: map<int, Hd>, hd': map<int, Hd>, heap: seq<Chunk>, ends: seq<int>, n: nat)
    requires n < |heap| == |ends| && Done(hd0, hd, heap, ends, n)
    requires if ends[n] < heap[n].hi then Freed(hd, hd', ends[n], heap[n].hi) else hd' == hd
    ensures Done(hd0, hd', heap, ends, n + 1)
  {
    var m := n + 1;
    forall b ensures DoneAt(hd0, hd', heap, ends, m, b) {
      assert InEnd(heap, ends, m, b) <==> InEnd(heap, ends, n, b) || EndHas(heap, ends, n, b);
      assert DoneAt(hd0, hd, heap, ends, n, b);
      if ends[n] < heap[n].hi { assert FreedAt(hd, hd', ends[n], heap[n].hi, b); }
    }
  }

  // The ends of the first n chunks are below x.
  ghost predicate EndsPassed(heap: seq<Chunk>, ends: seq<int>, n: nat, x: int) {
    n <= |heap| == |ends| && forall c :: 0 <= c < n && ends[c] < heap[c].hi ==> heap[c].hi <= x
  }

  lemma EndStays(hd0: map<int, Hd>, hd: map<int, Hd>, next: map<int, int>, list: seq<int>, chunks: set<Chunk>,
                 heap: seq<Chunk>, ends: seq<int>, n: nat, x: int)
    requires Tiled(hd0, chunks) && HeapOk(hd, next, list, chunks) && Boundary(hd, x)
    requires (forall e :: e in list ==> e <= x) && Done(hd0, hd, heap, ends, n) && EndsPassed(heap, ends, n, x)
    requires EndOk(hd0, heap, ends, n) && x < heap[n].lo
    ensures EndOk(hd, heap, ends, n)
  {
    hide Tiled;
    hide HeapOk;
    if ends[n] < heap[n].hi {
      forall e | e > x ensures KeptUse(hd0, hd, e, true) {
        assert DoneAt(hd0, hd, heap, ends, n, e);
      }
      StillThere(hd0, hd, next, list, chunks, x, ends[n] + 1);
    }
  }

  // With everything passed, merging can go on further up.
  lemma MoveOn(hd: map<int, Hd>, list: seq<int>, flMerge: int, f: int, x: int, x': int)
    requires MergeAt(list, flMerge, |list|, x) && FragmentAt(hd, f, x) && x < x'
    ensures MergeAt(list, flMerge, |list|, x') && FragmentAt(hd, f, x')
    ensures forall e :: e in list ==> e <= x
  {
  }

  lemma BelowAll(hd: map<int, Hd>, chunks: set<Chunk>)
    requires Tiled(hd, chunks)
    ensures Boundary(hd, 0)
  {
    forall b ensures Side(hd, 0, b) {
      assert Inside(hd, chunks, b);
    }
  }

  lemma FirstLow(heap: seq<Chunk>, chunks: set<Chunk>, n: nat)
    requires Ordered(heap, chunks) && n + 1 < |heap|
    ensures heap[n].hi < heap[n + 1].lo
  {
  }

  // The end of caml_compact_heap: hd0 is the blocks that were kept and, as one block each, the free ends of
  // the chunks.
  method RebuildFreeList(fl: FreeList, heap: seq<Chunk>, ends: seq<int>, hd0: map<int, Hd>, ghost chunks: set<Chunk>)
    requires Tiled(hd0, chunks) && (forall b :: !IsBlue(hd0, b)) && Ordered(heap, chunks)
    requires |ends| == |heap| && (heap != [] ==> heap[0].lo > 0)
    requires forall c: nat :: c < |heap| ==> EndOk(hd0, heap, ends, c)
    modifies fl
    ensures Passed(fl) && fl.chunks == chunks && Separated(fl.hd, fl.maxWosize)
    ensures Done(hd0, fl.hd, heap, ends, |heap|)
  {
    hide Tiled;
    hide HeapOk;
    hide Total;
    hide Separated;
    hide Boundary;
    hide MergeAt;
    hide FragmentAt;
    hide Ordered;
    hide Done;
    hide Freed;
    hide Uncut;
    hide IsBlue;
    fl.Reset(hd0, chunks);
    BelowAll(hd0, chunks);
    DoneNone(hd0, heap, ends);
    for c := 0 to |heap|
      invariant Passed(fl) && fl.chunks == chunks && Separated(fl.hd, fl.maxWosize)
      invariant Done(hd0, fl.hd, heap, ends, c) && EndsPassed(heap, ends, c, fl.sweepHp)
      invariant c < |heap| ==> fl.sweepHp < heap[c].lo
    {
      ghost var hd, x := fl.hd, fl.sweepHp;
      assert EndOk(hd0, heap, ends, c);
      if ends[c] < heap[c].hi {
        MoveOn(fl.hd, fl.list, fl.flMerge, fl.lastFragment, x, ends[c]);
        EndStays(hd0, hd, fl.next, fl.list, chunks, heap, ends, c, x);
        fl.sweepHp := ends[c];
        MakeFreeBlocks(fl, ends[c], heap[c].hi - ends[c]);
      }
      DoneNext(hd0, hd, fl.hd, heap, ends, c);
      if c + 1 < |heap| { FirstLow(heap, chunks, c); }
    }
  }
}
