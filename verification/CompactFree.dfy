// From the compactor to the free list: how the blocks that were kept and the free ends cut the heap.
module CompactFree {
  import opened Header
  import opened CompactHeap
  import opened CompactThread
  import opened CompactPlace
  import opened CompactGraph
  import opened Compact
  import opened CompactWeak
  import FH = FreeHeap
  import FL = FreeList
  import Sweep
  import Rebuild

  // The chunks do not touch: each has a head of its own before it.
  ghost predicate Gaps(h: Heap) {
    forall c, d :: 0 <= c < d < |h.chunks| ==> h.chunks[c].start + h.chunks[c].size < h.chunks[d].start
  }

  function ChunkSpan(c: Chunk): FH.Chunk {
    FH.Chunk(c.start, c.start + c.size)
  }

  function Spans(chunks: seq<Chunk>): seq<FH.Chunk> {
    seq(|chunks|, c requires 0 <= c < |chunks| => ChunkSpan(chunks[c]))
  }

  ghost function SpanSet(chunks: seq<Chunk>): set<FH.Chunk> {
    set c | c in Spans(chunks)
  }

  // Where the free ends of the chunks begin.
  function Ends(chunks: seq<Chunk>, alloc: seq<nat>): seq<int>
    requires |alloc| == |chunks|
  {
    seq(|chunks|, c requires 0 <= c < |chunks| => chunks[c].start + alloc[c])
  }

  // The blocks from x up to limit, as their headers tell.
  function Walk(m: seq<Word>, x: nat, limit: nat): map<int, FH.Hd>
    decreases limit - x
  {
    if x < limit && x < |m| && m[x].Hdr? then
      Walk(m, x + 1 + m[x].wosize, limit)[x + 1 := FH.Hd(m[x].wosize, m[x].color)]
    else map[]
  }

  // Those of the first c chunks, up to what is in use of each.
  function Blocks(m: seq<Word>, chunks: seq<Chunk>, alloc: seq<nat>, c: nat): map<int, FH.Hd>
    requires c <= |chunks| == |alloc|
  {
    if c == 0 then map[]
    else
      var lo := chunks[c - 1].start;
      Blocks(m, chunks, alloc, c - 1) + Walk(m, lo, lo + alloc[c - 1])
  }

  // And the free ends of the first c chunks, one block each.
  function WithEnds(hd: map<int, FH.Hd>, chunks: seq<Chunk>, alloc: seq<nat>, c: nat): map<int, FH.Hd>
    requires c <= |chunks| == |alloc|
  {
    if c == 0 then hd
    else
      var ch, n := chunks[c - 1], alloc[c - 1];
      if n < ch.size then WithEnds(hd, chunks, alloc, c - 1)[ch.start + n + 1 := FH.Hd(ch.size - n - 1, White)]
      else WithEnds(hd, chunks, alloc, c - 1)
  }

  function AfterHeap(m: seq<Word>, chunks: seq<Chunk>, alloc: seq<nat>): map<int, FH.Hd>
    requires |chunks| == |alloc|
  {
    WithEnds(Blocks(m, chunks, alloc, |alloc|), chunks, alloc, |alloc|)
  }

  // ---- Where blocks and ends are ----

  ghost predicate IsKept(h: Heap, kept: seq<bool>, k: nat, b: int)
    requires |kept| == |h.blks| && |h.chunks| > 0
  {
    k < |kept| && kept[k] && b == NewHp(h, kept, k) + 1
  }

  ghost predicate IsEnd(chunks: seq<Chunk>, alloc: seq<nat>, c: nat, b: int) {
    c < |chunks| == |alloc| && alloc[c] < chunks[c].size && b == chunks[c].start + alloc[c] + 1
  }

  // Block k is in the part of chunk c that is in use.
  ghost predicate Within(h: Heap, kept: seq<bool>, alloc: seq<nat>, k: nat, c: nat)
    requires |kept| == |h.blks| && k < |kept| && |h.chunks| > 0
  {
    && c < |h.chunks| == |alloc| && h.chunks[c].start <= NewHp(h, kept, k)
    && NewHp(h, kept, k) + h.blks[k].wosize + 1 <= h.chunks[c].start + alloc[c]
  }

  predicate Sized(h: Heap, kept: seq<bool>, alloc: seq<nat>) {
    |kept| == |h.blks| && |h.chunks| == |alloc| > 0
  }

  // The blocks kept have been placed, and the chunks are in use up to alloc.
  ghost predicate Ready(h: Heap, kept: seq<bool>, alloc: seq<nat>)
    requires Sized(h, kept, alloc)
  {
    && h.Tiled() && Gaps(h)
    && PlaceAll(h, kept, |kept|).Some? && PlaceAll(h, kept, |kept|).value.alloc == alloc
  }

  lemma {:induction false} AllocGrows(h: Heap, kept: seq<bool>, k: nat, n: nat, c: nat)
    requires h.Tiled() && |kept| == |h.blks| && k <= n <= |kept| && c < |h.chunks|
    requires PlaceAll(h, kept, n).Some?
    ensures PlaceAll(h, kept, k).Some?
    ensures PlaceAll(h, kept, k).value.alloc[c] <= PlaceAll(h, kept, n).value.alloc[c]
    decreases n
  {
    hide Heap.Tiled;
    if k < n {
      SucceedsPrefix(h, kept, n - 1, n);
      AllocGrows(h, kept, k, n - 1, c);
      if kept[n - 1] { var d := PlaceStep(h, kept, n - 1); }
    }
  }

  lemma WithinChunk(h: Heap, kept: seq<bool>, alloc: seq<nat>, k: nat) returns (c: nat)
    requires Sized(h, kept, alloc) && Ready(h, kept, alloc) && k < |kept| && kept[k]
    ensures Within(h, kept, alloc, k, c)
  {
    hide Heap.Tiled;
    hide PlaceAll;
    SucceedsPrefix(h, kept, k + 1, |kept|);
    c := PlaceStep(h, kept, k);
    AllocGrows(h, kept, k + 1, |kept|, c);
  }

  lemma OneOwner(h: Heap, kept: seq<bool>, alloc: seq<nat>, i: nat, j: nat, x: nat)
    requires Sized(h, kept, alloc) && Ready(h, kept, alloc) && i < |kept| && j < |kept| && i != j
    requires InNew(h, kept, i, x)
    ensures !InNew(h, kept, j, x)
  {
    hide Heap.Tiled;
    hide PlaceAll;
    hide InNew;
    hide InSome;
    hide CompactPlace.InUse;
    PlacementPacked(h, kept, |kept|);
  }

  // Two blocks have no word in common.
  lemma NewApart(h: Heap, kept: seq<bool>, alloc: seq<nat>, i: nat, j: nat)
    requires Sized(h, kept, alloc) && Ready(h, kept, alloc) && i < |kept| && j < |kept| && i != j && kept[i] && kept[j]
    ensures var a, b := NewHp(h, kept, i), NewHp(h, kept, j);
      a + h.blks[i].wosize + 1 <= b || b + h.blks[j].wosize + 1 <= a
  {
    hide Heap.Tiled;
    hide PlaceAll;
    hide NewHp;
    OneOwner(h, kept, alloc, i, j, NewHp(h, kept, i));
    OneOwner(h, kept, alloc, j, i, NewHp(h, kept, j));
  }

  // A block and a free end of a chunk have none.
  lemma EndApart(h: Heap, kept: seq<bool>, alloc: seq<nat>, k: nat, c: nat)
    requires Sized(h, kept, alloc) && Ready(h, kept, alloc) && k < |kept| && kept[k] && c < |h.chunks|
    ensures var a := NewHp(h, kept, k);
      a + h.blks[k].wosize + 1 <= h.chunks[c].start + alloc[c] || a >= h.chunks[c].start + h.chunks[c].size
  {
    hide PlaceAll;
    hide NewHp;
    var d := WithinChunk(h, kept, alloc, k);
    AllocFits(h, kept, alloc, d);
    if d < c { assert h.chunks[d].start + h.chunks[d].size < h.chunks[c].start; }
    if c < d { assert h.chunks[c].start + h.chunks[c].size < h.chunks[d].start; }
  }

  lemma AllocFits(h: Heap, kept: seq<bool>, alloc: seq<nat>, c: nat)
    requires Sized(h, kept, alloc) && Ready(h, kept, alloc) && c < |h.chunks|
    ensures |alloc| == |h.chunks| && alloc[c] <= h.chunks[c].size && h.chunks[c].start > 0
  {
    hide Heap.Tiled;
    hide PlaceAll;
    PlaceAllBehind(h, kept, |kept|);
    BehindFits(h, PlaceAll(h, kept, |kept|).value, |kept|);
  }

  // ---- What the map has ----

  ghost predicate KeptAt(h: Heap, kept: seq<bool>, hd: map<int, FH.Hd>, k: nat)
    requires |kept| == |h.blks| && k < |kept| && |h.chunks| > 0
  {
    var b := NewHp(h, kept, k) + 1;
    b in hd && hd[b] == FH.Hd(h.blks[k].wosize, White)
  }

  ghost predicate EndAt(chunks: seq<Chunk>, alloc: seq<nat>, hd: map<int, FH.Hd>, c: nat)
    requires c < |chunks| == |alloc|
  {
    alloc[c] < chunks[c].size ==>
      var b := chunks[c].start + alloc[c] + 1;
      b in hd && hd[b] == FH.Hd(chunks[c].size - alloc[c] - 1, White)
  }

  ghost predicate Known(h: Heap, kept: seq<bool>, alloc: seq<nat>, n: nat, m: nat, b: int)
    requires |kept| == |h.blks| && |h.chunks| > 0
  {
    (exists k: nat :: k < n && IsKept(h, kept, k, b)) || (exists c: nat :: c < m && IsEnd(h.chunks, alloc, c, b))
  }

  // The map has the first n blocks and the first m free ends, and nothing else.
  ghost predicate Cut(h: Heap, kept: seq<bool>, alloc: seq<nat>, hd: map<int, FH.Hd>, n: nat, m: nat)
    requires |kept| == |h.blks| && n <= |kept| && |h.chunks| == |alloc| > 0 && m <= |alloc|
  {
    && (forall k: nat :: k < n && kept[k] ==> KeptAt(h, kept, hd, k))
    && (forall c: nat :: c < m ==> EndAt(h.chunks, alloc, hd, c))
    && (forall b :: b in hd ==> Known(h, kept, alloc, n, m, b))
  }

  // What b is.
  lemma Kind(h: Heap, kept: seq<bool>, alloc: seq<nat>, hd: map<int, FH.Hd>, b: int) returns (end: bool, k: nat)
    requires Sized(h, kept, alloc) && Cut(h, kept, alloc, hd, |kept|, |alloc|) && b in hd
    ensures end ==> k < |alloc| && IsEnd(h.chunks, alloc, k, b) && EndAt(h.chunks, alloc, hd, k)
    ensures !end ==> k < |kept| && IsKept(h, kept, k, b) && KeptAt(h, kept, hd, k)
  {
    hide NewHp;
    hide KeptAt;
    hide EndAt;
    assert Known(h, kept, alloc, |kept|, |alloc|, b);
    end := !exists i: nat :: i < |kept| && IsKept(h, kept, i, b);
    if end {
      k :| k < |alloc| && IsEnd(h.chunks, alloc, k, b);
    } else {
      k :| k < |kept| && IsKept(h, kept, k, b);
    }
  }

  lemma KeptOf(h: Heap, kept: seq<bool>, alloc: seq<nat>, hd: map<int, FH.Hd>, k: nat)
    requires Sized(h, kept, alloc) && Cut(h, kept, alloc, hd, |kept|, |alloc|)
    requires k < |kept| && kept[k]
    ensures KeptAt(h, kept, hd, k)
  {
  }

  lemma EndOf(h: Heap, kept: seq<bool>, alloc: seq<nat>, hd: map<int, FH.Hd>, c: nat)
    requires Sized(h, kept, alloc) && Cut(h, kept, alloc, hd, |kept|, |alloc|)
    requires c < |alloc|
    ensures EndAt(h.chunks, alloc, hd, c)
  {
  }

  // ---- Walking over the blocks that were kept ----

  ghost predicate HeaderAt(h: Heap, kept: seq<bool>, m: seq<Word>, k: nat)
    requires |kept| == |h.blks| && k < |kept| && |h.chunks| > 0
  {
    var x := NewHp(h, kept, k);
    x < |m| && m[x] == Hdr(h.blks[k].wosize, h.blks[k].tag, White)
  }

  // The blocks that were kept have their headers at their new places.
  ghost predicate Headed(h: Heap, kept: seq<bool>, m: seq<Word>)
    requires |kept| == |h.blks| && |h.chunks| > 0
  {
    forall k: nat :: k < |kept| && kept[k] ==> HeaderAt(h, kept, m, k)
  }

  ghost predicate BlockIs(h: Heap, kept: seq<bool>, b: int, d: FH.Hd, k: nat)
    requires |kept| == |h.blks| && |h.chunks| > 0
  {
    k < |kept| && IsKept(h, kept, k, b) && d == FH.Hd(h.blks[k].wosize, White)
  }

  // The map has only blocks that were kept ...
  ghost predicate Genuine(h: Heap, kept: seq<bool>, hd: map<int, FH.Hd>)
    requires |kept| == |h.blks| && |h.chunks| > 0
  {
    forall b :: b in hd ==> exists k :: BlockIs(h, kept, b, hd[b], k)
  }

  // ... and all those that are in chunk c from x on.
  ghost predicate HasFrom(h: Heap, kept: seq<bool>, alloc: seq<nat>, hd: map<int, FH.Hd>, c: nat, x: int)
    requires Sized(h, kept, alloc)
  {
    forall k: nat :: k < |kept| && kept[k] && Within(h, kept, alloc, k, c) && NewHp(h, kept, k) >= x ==>
      NewHp(h, kept, k) + 1 in hd
  }

  ghost predicate Begins(h: Heap, kept: seq<bool>, x: int, k: nat)
    requires |kept| == |h.blks| && |h.chunks| > 0
  {
    k < |kept| && kept[k] && NewHp(h, kept, k) == x
  }

  // A word in use of a chunk is one of a block that is in that chunk.
  lemma OwnerOf(h: Heap, kept: seq<bool>, alloc: seq<nat>, x: nat, c: nat) returns (k: nat)
    requires Sized(h, kept, alloc) && Ready(h, kept, alloc) && c < |h.chunks|
    requires h.chunks[c].start <= x < h.chunks[c].start + alloc[c]
    ensures k < |kept| && InNew(h, kept, k, x) && Within(h, kept, alloc, k, c)
  {
    hide Ready;
    hide NewHp;
    k := UsedBy(h, kept, alloc, x, c);
    var d := WithinChunk(h, kept, alloc, k);
    AllocFits(h, kept, alloc, c);
    AllocFits(h, kept, alloc, d);
    if d != c { GapBetween(h, kept, alloc, c, d); }
  }

  // Where a chunk begins, a block does; and where a block ends, if the chunk is still in use there.
  lemma BeginsAt(h: Heap, kept: seq<bool>, alloc: seq<nat>, x: nat, c: nat, j: nat) returns (k: nat)
    requires Sized(h, kept, alloc) && Ready(h, kept, alloc) && c < |h.chunks|
    requires h.chunks[c].start <= x < h.chunks[c].start + alloc[c]
    requires x == h.chunks[c].start || (j < |kept| && kept[j] && x == NewHp(h, kept, j) + h.blks[j].wosize + 1)
    ensures Begins(h, kept, x, k) && Within(h, kept, alloc, k, c)
  {
    hide Ready;
    hide NewHp;
    k := OwnerOf(h, kept, alloc, x, c);
    if x != h.chunks[c].start && k != j { NewApart(h, kept, alloc, k, j); }
  }

  lemma WalkOne(h: Heap, kept: seq<bool>, alloc: seq<nat>, hd: map<int, FH.Hd>, c: nat, k: nat)
    requires Sized(h, kept, alloc) && Ready(h, kept, alloc) && k < |kept| && kept[k]
    requires Genuine(h, kept, hd) && HasFrom(h, kept, alloc, hd, c, NewHp(h, kept, k) + h.blks[k].wosize + 1)
    ensures var x := NewHp(h, kept, k); var hd' := hd[x + 1 := FH.Hd(h.blks[k].wosize, White)];
      Genuine(h, kept, hd') && HasFrom(h, kept, alloc, hd', c, x)
  {
    hide Ready;
    hide NewHp;
    var x := NewHp(h, kept, k);
    var d := FH.Hd(h.blks[k].wosize, White);
    var hd' := hd[x + 1 := d];
    forall b | b in hd' ensures exists i :: BlockIs(h, kept, b, hd'[b], i) {
      if b == x + 1 {
        assert BlockIs(h, kept, b, d, k);
      } else {
        var i :| BlockIs(h, kept, b, hd[b], i);
      }
    }
    forall j: nat | j < |kept| && kept[j] && Within(h, kept, alloc, j, c) && NewHp(h, kept, j) >= x
      ensures NewHp(h, kept, j) + 1 in hd'
    {
      if j != k { NewApart(h, kept, alloc, j, k); }
    }
  }

  lemma WalkNone(h: Heap, kept: seq<bool>, alloc: seq<nat>, c: nat, x: int)
    requires Sized(h, kept, alloc) && c < |alloc| && x >= h.chunks[c].start + alloc[c]
    ensures Genuine(h, kept, map[]) && HasFrom(h, kept, alloc, map[], c, x)
  {
    hide NewHp;
  }

  lemma {:induction false} WalkHas(h: Heap, kept: seq<bool>, alloc: seq<nat>, m: seq<Word>, c: nat, x: nat, k: nat)
    requires Sized(h, kept, alloc) && Ready(h, kept, alloc) && Headed(h, kept, m) && c < |h.chunks|
    requires x < h.chunks[c].start + alloc[c] ==> Begins(h, kept, x, k) && Within(h, kept, alloc, k, c)
    ensures var w := Walk(m, x, h.chunks[c].start + alloc[c]);
      Genuine(h, kept, w) && HasFrom(h, kept, alloc, w, c, x)
    decreases h.chunks[c].start + alloc[c] - x
  {
    hide Ready;
    hide NewHp;
    hide Genuine;
    hide HasFrom;
    var limit := h.chunks[c].start + alloc[c];
    if x >= limit {
      WalkNone(h, kept, alloc, c, x);
    } else {
      assert HeaderAt(h, kept, m, k);
      var y := x + 1 + h.blks[k].wosize;
      var j: nat := 0;
      if y < limit { j := BeginsAt(h, kept, alloc, y, c, k); }
      WalkHas(h, kept, alloc, m, c, y, j);
      WalkOne(h, kept, alloc, Walk(m, y, limit), c, k);
    }
  }

  // The blocks of the first n chunks.
  ghost predicate HasChunks(h: Heap, kept: seq<bool>, alloc: seq<nat>, hd: map<int, FH.Hd>, n: nat)
    requires Sized(h, kept, alloc)
  {
    forall c: nat :: c < n && c < |h.chunks| ==> HasFrom(h, kept, alloc, hd, c, h.chunks[c].start)
  }

  lemma {:induction false} BlocksHas(h: Heap, kept: seq<bool>, alloc: seq<nat>, m: seq<Word>, n: nat)
    requires Sized(h, kept, alloc) && Ready(h, kept, alloc) && Headed(h, kept, m) && n <= |h.chunks|
    ensures var hd := Blocks(m, h.chunks, alloc, n); Genuine(h, kept, hd) && HasChunks(h, kept, alloc, hd, n)
  {
    hide Ready;
    hide NewHp;
    hide Within;
    hide Headed;
    hide Genuine;
    hide HasFrom;
    hide HasChunks;
    hide Walk;
    if n == 0 {
      NoBlocks(h, kept, alloc);
    } else {
      var c, lo := n - 1, h.chunks[n - 1].start;
      BlocksHas(h, kept, alloc, m, c);
      var k: nat := 0;
      if alloc[c] > 0 { k := BeginsAt(h, kept, alloc, lo, c, 0); }
      WalkHas(h, kept, alloc, m, c, lo, k);
      MergeHas(h, kept, alloc, Blocks(m, h.chunks, alloc, c), Walk(m, lo, lo + alloc[c]), c);
    }
  }

  lemma NoBlocks(h: Heap, kept: seq<bool>, alloc: seq<nat>)
    requires Sized(h, kept, alloc)
    ensures Genuine(h, kept, map[]) && HasChunks(h, kept, alloc, map[], 0)
  {
  }

  lemma MergeGenuine(h: Heap, kept: seq<bool>, hd: map<int, FH.Hd>, w: map<int, FH.Hd>)
    requires |kept| == |h.blks| && |h.chunks| > 0 && Genuine(h, kept, hd) && Genuine(h, kept, w)
    ensures Genuine(h, kept, hd + w)
  {
    hide BlockIs;
    var hd' := hd + w;
    forall b | b in hd' ensures exists k :: BlockIs(h, kept, b, hd'[b], k) {
      if b in w {
        var k :| BlockIs(h, kept, b, w[b], k);
        assert BlockIs(h, kept, b, hd'[b], k);
      } else {
        var k :| BlockIs(h, kept, b, hd[b], k);
        assert BlockIs(h, kept, b, hd'[b], k);
      }
    }
  }

  lemma MoreHas(h: Heap, kept: seq<bool>, alloc: seq<nat>, hd: map<int, FH.Hd>, hd': map<int, FH.Hd>, c: nat, x: int)
    requires Sized(h, kept, alloc) && HasFrom(h, kept, alloc, hd, c, x) && hd.Keys <= hd'.Keys
    ensures HasFrom(h, kept, alloc, hd', c, x)
  {
    hide NewHp;
    hide Within;
  }

  lemma MergeHas(h: Heap, kept: seq<bool>, alloc: seq<nat>, hd: map<int, FH.Hd>, w: map<int, FH.Hd>, c: nat)
    requires Sized(h, kept, alloc) && Genuine(h, kept, hd) && HasChunks(h, kept, alloc, hd, c)
    requires Genuine(h, kept, w) && c < |h.chunks| && HasFrom(h, kept, alloc, w, c, h.chunks[c].start)
    ensures Genuine(h, kept, hd + w) && HasChunks(h, kept, alloc, hd + w, c + 1)
  {
    hide Genuine;
    hide HasFrom;
    MergeGenuine(h, kept, hd, w);
    forall d: nat | d < c + 1 && d < |h.chunks| ensures HasFrom(h, kept, alloc, hd + w, d, h.chunks[d].start) {
      MoreHas(h, kept, alloc, if d < c then hd else w, hd + w, d, h.chunks[d].start);
    }
  }

  lemma KeptCut(h: Heap, kept: seq<bool>, alloc: seq<nat>, m: seq<Word>)
    requires Sized(h, kept, alloc) && Ready(h, kept, alloc) && Headed(h, kept, m)
    ensures Cut(h, kept, alloc, Blocks(m, h.chunks, alloc, |alloc|), |kept|, 0)
  {
    hide Ready;
    hide NewHp;
    var hd := Blocks(m, h.chunks, alloc, |alloc|);
    BlocksHas(h, kept, alloc, m, |alloc|);
    forall k: nat | k < |kept| && kept[k] ensures KeptAt(h, kept, hd, k) {
      var c := WithinChunk(h, kept, alloc, k);
      assert HasFrom(h, kept, alloc, hd, c, h.chunks[c].start);
      var b := NewHp(h, kept, k) + 1;
      var j :| BlockIs(h, kept, b, hd[b], j);
      if j != k { NewApart(h, kept, alloc, j, k); }
    }
    forall b | b in hd ensures Known(h, kept, alloc, |kept|, 0, b) {
      var k :| BlockIs(h, kept, b, hd[b], k);
    }
  }

  lemma {:induction false} EndsCut(h: Heap, kept: seq<bool>, alloc: seq<nat>, ws: seq<Word>, m: nat)
    requires Sized(h, kept, alloc) && Ready(h, kept, alloc) && Headed(h, kept, ws) && m <= |alloc|
    ensures Cut(h, kept, alloc, WithEnds(Blocks(ws, h.chunks, alloc, |alloc|), h.chunks, alloc, m), |kept|, m)
  {
    hide Heap.Tiled;
    hide PlaceAll;
    hide NewHp;
    hide Blocks;
    hide Headed;
    var hd0 := Blocks(ws, h.chunks, alloc, |alloc|);
    if m == 0 {
      KeptCut(h, kept, alloc, ws);
    } else {
      var c, hd, hd' := m - 1, WithEnds(hd0, h.chunks, alloc, m - 1), WithEnds(hd0, h.chunks, alloc, m);
      EndsCut(h, kept, alloc, ws, c);
      forall k: nat | k < |kept| && kept[k] ensures KeptAt(h, kept, hd', k) {
        assert KeptAt(h, kept, hd, k);
        EndApart(h, kept, alloc, k, c);
      }
      forall d: nat | d < m ensures EndAt(h.chunks, alloc, hd', d) {
        if d < c {
          assert EndAt(h.chunks, alloc, hd, d);
          AllocFits(h, kept, alloc, d);
          assert h.chunks[d].start + h.chunks[d].size < h.chunks[c].start;
        }
      }
      forall b | b in hd' ensures Known(h, kept, alloc, |kept|, m, b) {
        if b in hd {
          assert Known(h, kept, alloc, |kept|, c, b);
        } else {
          assert IsEnd(h.chunks, alloc, c, b);
        }
      }
    }
  }

  // ---- The heap is cut into these blocks ----

  lemma InSpans(h: Heap, c: nat)
    requires c < |h.chunks|
    ensures ChunkSpan(h.chunks[c]) in SpanSet(h.chunks)
  {
    assert Spans(h.chunks)[c] in Spans(h.chunks);
  }

  lemma SpanOf(h: Heap, lo: int, hi: int) returns (c: nat)
    requires FH.InChunk(SpanSet(h.chunks), lo, hi)
    ensures c < |h.chunks| && h.chunks[c].start <= lo && hi <= h.chunks[c].start + h.chunks[c].size
  {
    var s :| s in SpanSet(h.chunks) && s.lo <= lo && hi <= s.hi;
    c :| c < |h.chunks| && Spans(h.chunks)[c] == s;
  }

  // b is a block that was kept, or a free end, which is in the chunk that lies there.
  lemma InsideOne(h: Heap, kept: seq<bool>, alloc: seq<nat>, hd: map<int, FH.Hd>, b: int)
    requires Sized(h, kept, alloc) && Ready(h, kept, alloc) && Cut(h, kept, alloc, hd, |kept|, |alloc|)
    ensures FH.Inside(hd, SpanSet(h.chunks), b)
  {
    hide Ready;
    hide Cut;
    hide NewHp;
    hide SpanSet;
    if b in hd {
      var end, k := Kind(h, kept, alloc, hd, b);
      var c := k;
      if !end { c := WithinChunk(h, kept, alloc, k); }
      AllocFits(h, kept, alloc, c);
      InSpans(h, c);
      assert FH.InChunk(SpanSet(h.chunks), b - 1, FH.End(hd, b));
    }
  }

  lemma ApartTwo(h: Heap, kept: seq<bool>, alloc: seq<nat>, hd: map<int, FH.Hd>, a: int, b: int)
    requires Sized(h, kept, alloc) && Ready(h, kept, alloc) && Cut(h, kept, alloc, hd, |kept|, |alloc|)
    ensures FH.Apart(hd, a, b)
  {
    hide Ready;
    hide Cut;
    hide NewHp;
    if a in hd && b in hd && a < b {
      var end, k := Kind(h, kept, alloc, hd, a);
      var end', l := Kind(h, kept, alloc, hd, b);
      if end {
        AfterEnd(h, kept, alloc, hd, k, b);
      } else if end' {
        EndApart(h, kept, alloc, k, l);
      } else {
        NewApart(h, kept, alloc, k, l);
      }
    }
  }

  lemma AfterEnd(h: Heap, kept: seq<bool>, alloc: seq<nat>, hd: map<int, FH.Hd>, c: nat, b: int)
    requires Sized(h, kept, alloc) && Ready(h, kept, alloc) && Cut(h, kept, alloc, hd, |kept|, |alloc|)
    requires c < |alloc| && alloc[c] < h.chunks[c].size && b in hd && b > h.chunks[c].start + alloc[c] + 1
    ensures b > h.chunks[c].start + h.chunks[c].size
  {
    hide Ready;
    hide Cut;
    hide NewHp;
    var end, k := Kind(h, kept, alloc, hd, b);
    if end {
      AllocFits(h, kept, alloc, k);
      if k != c { GapBetween(h, kept, alloc, k, c); }
    } else {
      EndApart(h, kept, alloc, k, c);
    }
  }

  lemma GapBetween(h: Heap, kept: seq<bool>, alloc: seq<nat>, c: nat, d: nat)
    requires Sized(h, kept, alloc) && Ready(h, kept, alloc) && c < |h.chunks| && d < |h.chunks| && c != d
    ensures h.chunks[c].start + h.chunks[c].size < h.chunks[d].start ||
            h.chunks[d].start + h.chunks[d].size < h.chunks[c].start
  {
    hide Heap.Tiled;
    hide PlaceAll;
    if c < d {
      assert h.chunks[c].start + h.chunks[c].size < h.chunks[d].start;
    } else {
      assert h.chunks[d].start + h.chunks[d].size < h.chunks[c].start;
    }
  }

  lemma CoveredWord(h: Heap, kept: seq<bool>, alloc: seq<nat>, hd: map<int, FH.Hd>, x: int)
    requires Sized(h, kept, alloc) && Ready(h, kept, alloc) && Cut(h, kept, alloc, hd, |kept|, |alloc|)
    ensures FH.Covered(hd, SpanSet(h.chunks), x)
  {
    hide Ready;
    hide Cut;
    hide NewHp;
    hide SpanSet;
    if FH.InChunk(SpanSet(h.chunks), x, x + 1) {
      var c := SpanOf(h, x, x + 1);
      if x < h.chunks[c].start + alloc[c] {
        var k := UsedBy(h, kept, alloc, x, c);
        KeptOf(h, kept, alloc, hd, k);
        assert FH.Holds(hd, NewHp(h, kept, k) + 1, x);
      } else {
        EndOf(h, kept, alloc, hd, c);
        assert FH.Holds(hd, h.chunks[c].start + alloc[c] + 1, x);
      }
    }
  }

  lemma UsedBy(h: Heap, kept: seq<bool>, alloc: seq<nat>, x: nat, c: nat) returns (k: nat)
    requires Sized(h, kept, alloc) && Ready(h, kept, alloc) && c < |h.chunks|
    requires h.chunks[c].start <= x < h.chunks[c].start + alloc[c]
    ensures k < |kept| && InNew(h, kept, k, x)
  {
    hide Heap.Tiled;
    hide PlaceAll;
    hide NewHp;
    hide InNew;
    PlacementPacked(h, kept, |kept|);
    assert CompactPlace.InUse(h, PlaceAll(h, kept, |kept|).value, x);
    k :| k < |kept| && InNew(h, kept, k, x);
  }

  lemma AfterTiled(h: Heap, kept: seq<bool>, alloc: seq<nat>, hd: map<int, FH.Hd>)
    requires Sized(h, kept, alloc) && Ready(h, kept, alloc) && Cut(h, kept, alloc, hd, |kept|, |alloc|)
    ensures FH.Tiled(hd, SpanSet(h.chunks)) && forall b :: !FH.IsBlue(hd, b)
  {
    hide Ready;
    hide Cut;
    forall b ensures FH.Inside(hd, SpanSet(h.chunks), b) { InsideOne(h, kept, alloc, hd, b); }
    forall a, b ensures FH.Apart(hd, a, b) { ApartTwo(h, kept, alloc, hd, a, b); }
    forall x ensures FH.Covered(hd, SpanSet(h.chunks), x) { CoveredWord(h, kept, alloc, hd, x); }
    forall b ensures !FH.IsBlue(hd, b) { AllWhite(h, kept, alloc, hd, b); }
    forall s, t | s in SpanSet(h.chunks) && t in SpanSet(h.chunks) && s != t ensures s.hi < t.lo || t.hi < s.lo {
      SpansApart(h, kept, alloc, s, t);
    }
  }

  lemma AllWhite(h: Heap, kept: seq<bool>, alloc: seq<nat>, hd: map<int, FH.Hd>, b: int)
    requires Sized(h, kept, alloc) && Ready(h, kept, alloc) && Cut(h, kept, alloc, hd, |kept|, |alloc|)
    ensures !FH.IsBlue(hd, b)
  {
    hide Ready;
    hide Cut;
    hide NewHp;
    if b in hd { var end, k := Kind(h, kept, alloc, hd, b); }
  }

  lemma SpansApart(h: Heap, kept: seq<bool>, alloc: seq<nat>, s: FH.Chunk, t: FH.Chunk)
    requires Sized(h, kept, alloc) && Ready(h, kept, alloc)
    requires s in SpanSet(h.chunks) && t in SpanSet(h.chunks) && s != t
    ensures s.hi < t.lo || t.hi < s.lo
  {
    var c: nat :| c < |h.chunks| && Spans(h.chunks)[c] == s;
    var d: nat :| d < |h.chunks| && Spans(h.chunks)[d] == t;
    if c < d { assert h.chunks[c].start + h.chunks[c].size < h.chunks[d].start; }
    if d < c { assert h.chunks[d].start + h.chunks[d].size < h.chunks[c].start; }
  }

  lemma SpansOrdered(h: Heap, kept: seq<bool>, alloc: seq<nat>)
    requires Sized(h, kept, alloc) && Ready(h, kept, alloc)
    ensures Sweep.Ordered(Spans(h.chunks), SpanSet(h.chunks)) && h.chunks[0].start > 0
  {
    var heap := Spans(h.chunks);
    forall i, j | 0 <= i < j < |heap| ensures heap[i].hi < heap[j].lo {
      assert h.chunks[i].start + h.chunks[i].size < h.chunks[j].start;
    }
  }

  // ---- The free list after a compaction ----

  // Block k is in use at its new place.
  ghost predicate UseAt(h: Heap, kept: seq<bool>, hd: map<int, FH.Hd>, k: nat)
    requires |kept| == |h.blks| && k < |kept| && |h.chunks| > 0
  {
    h.blks[k].wosize > 0 ==> KeptAt(h, kept, hd, k)
  }

  // What is in use are the blocks that were kept.
  ghost predicate UseIs(h: Heap, kept: seq<bool>, hd: map<int, FH.Hd>, b: int)
    requires |kept| == |h.blks| && |h.chunks| > 0
  {
    FL.InUse(hd, b) ==> exists k: nat :: k < |kept| && IsKept(h, kept, k, b)
  }

  lemma EndsOk(h: Heap, kept: seq<bool>, alloc: seq<nat>, hd: map<int, FH.Hd>, c: nat)
    requires Sized(h, kept, alloc) && Ready(h, kept, alloc) && Cut(h, kept, alloc, hd, |kept|, |alloc|)
    requires c < |alloc|
    ensures Rebuild.EndOk(hd, Spans(h.chunks), Ends(h.chunks, alloc), c)
  {
    hide Ready;
    hide Cut;
    AllocFits(h, kept, alloc, c);
    EndOf(h, kept, alloc, hd, c);
  }

  lemma KeptStays(h: Heap, kept: seq<bool>, alloc: seq<nat>, hd0: map<int, FH.Hd>, hd: map<int, FH.Hd>, k: nat)
    requires Sized(h, kept, alloc) && Ready(h, kept, alloc) && Cut(h, kept, alloc, hd0, |kept|, |alloc|)
    requires Rebuild.Done(hd0, hd, Spans(h.chunks), Ends(h.chunks, alloc), |alloc|) && k < |kept| && kept[k]
    ensures UseAt(h, kept, hd, k)
  {
    hide Ready;
    hide Cut;
    hide NewHp;
    hide Rebuild.Done;
    var b := NewHp(h, kept, k) + 1;
    KeptOf(h, kept, alloc, hd0, k);
    DoneIs(hd0, hd, Spans(h.chunks), Ends(h.chunks, alloc), |alloc|, b);
    forall c: nat | c < |alloc| ensures !Rebuild.EndHas(Spans(h.chunks), Ends(h.chunks, alloc), c, b) {
      EndApart(h, kept, alloc, k, c);
    }
  }

  lemma OnlyKept(h: Heap, kept: seq<bool>, alloc: seq<nat>, hd0: map<int, FH.Hd>, hd: map<int, FH.Hd>, b: int)
    requires Sized(h, kept, alloc) && Ready(h, kept, alloc) && Cut(h, kept, alloc, hd0, |kept|, |alloc|)
    requires Rebuild.Done(hd0, hd, Spans(h.chunks), Ends(h.chunks, alloc), |alloc|)
    ensures UseIs(h, kept, hd, b)
  {
    hide Ready;
    hide Cut;
    hide NewHp;
    hide Rebuild.Done;
    DoneIs(hd0, hd, Spans(h.chunks), Ends(h.chunks, alloc), |alloc|, b);
    if FL.InUse(hd, b) {
      if b in hd0 {
        var end, k := Kind(h, kept, alloc, hd0, b);
        if end { EndHasIt(h, kept, alloc, k, b); }
      }
    }
  }

  lemma EndHasIt(h: Heap, kept: seq<bool>, alloc: seq<nat>, c: nat, b: int)
    requires |h.chunks| == |alloc| && IsEnd(h.chunks, alloc, c, b)
    ensures Rebuild.InEnd(Spans(h.chunks), Ends(h.chunks, alloc), |alloc|, b)
  {
    assert Rebuild.EndHas(Spans(h.chunks), Ends(h.chunks, alloc), c, b);
  }

  lemma DoneIs(hd0: map<int, FH.Hd>, hd: map<int, FH.Hd>, heap: seq<FH.Chunk>, ends: seq<int>, n: nat, b: int)
    requires Rebuild.Done(hd0, hd, heap, ends, n)
    ensures Rebuild.DoneAt(hd0, hd, heap, ends, n, b)
  {
  }

  // The end of caml_compact_heap, after passes that left the chunks filled up to alloc: the free list is all
  // that was not kept.
  method Rebuilt(fl: FL.FreeList, m: seq<Word>, chunks: seq<Chunk>, alloc: seq<nat>, ghost h: Heap,
                 ghost kept: seq<bool>)
    requires Sized(h, kept, alloc) && Ready(h, kept, alloc) && Headed(h, kept, m) && h.chunks == chunks
    modifies fl
    ensures fl.Valid() && Rebuild.TablesOk(fl) && fl.chunks == SpanSet(h.chunks)
    ensures FH.Separated(fl.hd, fl.maxWosize)
    ensures forall k: nat :: k < |kept| && kept[k] ==> UseAt(h, kept, fl.hd, k)
    ensures forall b :: UseIs(h, kept, fl.hd, b)
  {
    hide Ready;
    hide Cut;
    hide FH.Tiled;
    hide FH.Separated;
    hide Sweep.Ordered;
    hide Sweep.Boundary;
    hide Rebuild.Done;
    hide Rebuild.EndOk;
    hide UseAt;
    hide UseIs;
    hide FH.IsBlue;
    hide AfterHeap;
    hide Headed;
    var heap, ends, hd0 := Spans(chunks), Ends(chunks, alloc), AfterHeap(m, chunks, alloc);
    AfterCut(h, kept, alloc, m);
    AfterTiled(h, kept, alloc, hd0);
    SpansOrdered(h, kept, alloc);
    forall c: nat | c < |heap| ensures Rebuild.EndOk(hd0, heap, ends, c) { EndsOk(h, kept, alloc, hd0, c); }
    Rebuild.RebuildFreeList(fl, heap, ends, hd0, SpanSet(h.chunks));
    forall k: nat | k < |kept| && kept[k] ensures UseAt(h, kept, fl.hd, k) {
      KeptStays(h, kept, alloc, hd0, fl.hd, k);
    }
    forall b ensures UseIs(h, kept, fl.hd, b) { OnlyKept(h, kept, alloc, hd0, fl.hd, b); }
  }

  lemma AfterCut(h: Heap, kept: seq<bool>, alloc: seq<nat>, m: seq<Word>)
    requires Sized(h, kept, alloc) && Ready(h, kept, alloc) && Headed(h, kept, m)
    ensures Cut(h, kept, alloc, AfterHeap(m, h.chunks, alloc), |kept|, |alloc|)
  {
    hide Ready;
    hide Cut;
    hide Headed;
    EndsCut(h, kept, alloc, m, |alloc|);
  }

  lemma CompactedHeaded(p: Plan, m0: seq<Word>, m: seq<Word>, roots: seq<nat>, weak: seq<nat>)
    requires Compacted(p, m0, m, roots, weak)
    ensures Headed(p.heap, Kept(p), m)
  {
    hide NewHp;
    hide Live;
    forall k: nat | k < |p.heap.blks| && Kept(p)[k] ensures HeaderAt(p.heap, Kept(p), m, k) {
      assert CopyOf(p.heap, Kept(p), weak, m0, m, k);
    }
  }

  // All of caml_compact_heap: the blocks that are referred to are moved, and the free list is all the rest.
  method CompactAndRebuild(c: Compactor, fl: FL.FreeList, ghost h: Heap, ghost w: WeakList) returns (ok: bool)
    requires c.Ready(h, w) && Gaps(h)
    modifies c.mem, c`alloc, c`fl, fl
    ensures Compact.Describes(h, old(c.mem[..]))
    ensures var weak := Weak(h, old(c.mem[..]), w);
      var p := PlanFor(h, old(c.mem[..]), c.roots, weak);
      && (ok <==> Succeeds(h, Kept(p)))
      && (ok ==> Compacted(p, old(c.mem[..]), c.mem[..], c.roots, weak))
      && (ok ==> forall k: nat :: k < |h.blks| && Kept(p)[k] ==> UseAt(h, Kept(p), fl.hd, k))
      && (ok ==> forall b :: UseIs(h, Kept(p), fl.hd, b))
    ensures ok ==> fl.Valid() && Rebuild.TablesOk(fl) && fl.chunks == SpanSet(h.chunks)
    ensures ok ==> FH.Separated(fl.hd, fl.maxWosize)
  {
    hide Compacted;
    hide Kept;
    hide Headed;
    hide UseAt;
    hide UseIs;
    hide Gaps;
    hide Plan.Valid;
    hide Succeeds;
    hide FH.Separated;
    hide Weak;
    hide WeakOk;
    ghost var m0 := c.mem[..];
    ghost var weak := Weak(h, m0, w);
    ghost var p := PlanFor(h, m0, c.roots, weak);
    ok := c.CompactHeap(h, w);
    if ok {
      CompactedHeaded(p, m0, c.mem[..], c.roots, weak);
      KeptSized(p);
      Rebuilt(fl, c.mem[..], c.chunks, c.alloc, h, Kept(p));
    }
  }

  lemma KeptSized(p: Plan)
    ensures |Kept(p)| == |p.heap.blks|
  {
  }
}
