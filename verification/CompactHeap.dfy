// The heap as compact.c sees it: one array of words, cut into chunks, each chunk tiled by blocks.
//
// A word is classified by its two low bits ("Ecolor" in the source).  The constructors below are the
// kinds of word that occur; Ecolor gives back the bits the code tests.
module CompactHeap {
  import opened Header

  datatype Word =
    | Ptr(a: nat)                                  // aligned address: a direct or an inverted pointer
    | IPtr(a: nat)                                 // inverted pointer of an infix header (address + 2)
    | Link(a: nat)                                 // address of the next infix header (address + 1)
    | Ehd(wosize: nat, tag: nat)                   // encoded header (color bits 3)
    | Hdr(wosize: nat, tag: nat, color: Color)     // ordinary header, the tag is in the low byte
    | Int(n: int)                                  // tagged integer 2n+1
    | Raw(bits: nat)                               // uninterpreted contents

  function Ecolor(w: Word): nat {
    match w
    case Ptr(_) => 0
    case IPtr(_) => 2
    case Link(_) => 1
    case Ehd(_, _) => 3
    case Hdr(_, t, _) => t % 4
    case Int(n) => if n % 2 == 0 then 1 else 3
    case Raw(b) => b % 4
  }

  datatype Chunk = Chunk(start: nat, size: nat)

  // Classify_addr (a) & In_heap.
  predicate InChunks(chunks: seq<Chunk>, a: nat) {
    exists c :: 0 <= c < |chunks| && chunks[c].start <= a < chunks[c].start + chunks[c].size
  }

  // Static description of one block: header address, size, tag, whether it is on the free list, and
  // the index of its chunk.
  datatype Blk = Blk(hp: nat, wosize: nat, tag: nat, free: bool, ch: nat) {
    function End(): nat { hp + wosize + 1 }
    function EncodedTag(): nat { if free then STRING_TAG else tag }
    predicate Scanned() { EncodedTag() < NO_SCAN_TAG }
  }

  // chunks in list order; blks[first[c]..first[c + 1]] are the blocks of chunk c in address order.
  datatype Heap = Heap(chunks: seq<Chunk>, blks: seq<Blk>, first: seq<nat>) {

    function Limit(c: nat): nat
      requires c < |chunks|
    {
      chunks[c].start + chunks[c].size
    }

    predicate InHeap(a: nat) {
      InChunks(chunks, a)
    }

    ghost predicate ChunksOk() {
      && |chunks| > 0
      && (forall c :: 0 <= c < |chunks| ==> chunks[c].start > 0 && chunks[c].size > 4)
      && (forall c, d :: 0 <= c < d < |chunks| ==> Limit(c) <= chunks[d].start)
    }

    // Where the block after block k begins, or the end of the chunk.
    ghost predicate Adjacent(k: nat)
      requires |first| == |chunks| + 1
      requires k < |blks| && blks[k].ch < |chunks|
    {
      var c := blks[k].ch;
      && first[c] <= k < first[c + 1] <= |blks|
      && blks[k].End() == (if k + 1 < first[c + 1] then blks[k + 1].hp else Limit(c))
    }

    ghost predicate Apart() {
      forall j, k :: 0 <= j < k < |blks| ==> blks[j].End() <= blks[k].hp
    }

    // Chunk c has blocks, and the first of them begins where the chunk begins.
    ghost predicate StartsChunk(c: nat)
      requires |first| == |chunks| + 1 && c < |chunks|
    {
      first[c] < first[c + 1] <= |blks| && blks[first[c]].hp == chunks[c].start
    }

    ghost predicate Tiled() {
      && ChunksOk()
      && |first| == |chunks| + 1
      && first[0] == 0 && first[|chunks|] == |blks|
      && (forall c {:trigger StartsChunk(c)} :: 0 <= c < |chunks| ==> StartsChunk(c))
      && (forall k :: 0 <= k < |blks| ==>
            && blks[k].ch < |chunks| && blks[k].tag != INFIX_TAG
            && chunks[blks[k].ch].start <= blks[k].hp && blks[k].End() <= Limit(blks[k].ch))
      && (forall k {:trigger Adjacent(k)} :: 0 <= k < |blks| ==> Adjacent(k))
      && Apart()
    }

    // Index of the block whose words include address x, or -1.
    function BlockAt(x: nat): (k: int)
      ensures -1 <= k < |blks|
      ensures k >= 0 ==> blks[k].hp <= x < blks[k].End()
      ensures k == -1 ==> forall i :: 0 <= i < |blks| ==> !(blks[i].hp <= x < blks[i].End())
    {
      BlockBefore(x, |blks|)
    }

    function BlockBefore(x: nat, n: nat): (k: int)
      requires n <= |blks|
      ensures -1 <= k < n
      ensures k >= 0 ==> blks[k].hp <= x < blks[k].End()
      ensures k == -1 ==> forall i :: 0 <= i < n ==> !(blks[i].hp <= x < blks[i].End())
    {
      if n == 0 then -1
      else if blks[n - 1].hp <= x < blks[n - 1].End() then n - 1
      else BlockBefore(x, n - 1)
    }

    lemma BlockAtIs(x: nat, k: nat)
      requires Apart()
      requires k < |blks| && blks[k].hp <= x < blks[k].End()
      ensures BlockAt(x) == k
    {
      var j := BlockAt(x);
      assert j >= 0;
    }

    lemma {:induction false} FirstMonotone(a: nat, b: nat)
      requires Tiled() && a < |chunks| && b < |chunks|
      ensures a < b ==> first[a + 1] <= first[b]
      ensures b < a ==> first[b + 1] <= first[a]
      decreases a + b
    {
      if a + 1 < b { FirstMonotone(a, b - 1); assert StartsChunk(b - 1); }
      if b + 1 < a { FirstMonotone(a - 1, b); assert StartsChunk(a - 1); }
    }

    lemma TiledNonempty()
      requires Tiled()
      ensures |chunks| > 0 && |first| == |chunks| + 1 && first[0] == 0
    {
    }

    // A walk over chunk c starts at its first block ...
    lemma WalkStart(c: nat)
      requires Tiled() && c < |chunks|
      ensures |first| == |chunks| + 1 && first[c] < first[c + 1] <= |blks| && Apart()
      ensures blks[first[c]].hp == chunks[c].start && chunks[c].size > 0
      ensures c == 0 ==> first[c] == 0
      ensures c + 1 == |chunks| ==> first[c + 1] == |blks|
    {
      assert StartsChunk(c);
    }

    // ... and goes from block k to the next one or to the end of the chunk.
    lemma WalkStep(c: nat, k: nat)
      requires Tiled() && c < |chunks| && first[c] <= k < first[c + 1] <= |blks|
      ensures blks[k].ch == c
      ensures chunks[c].start <= blks[k].hp && blks[k].End() <= Limit(c)
      ensures k + 1 < first[c + 1] ==> blks[k + 1].hp < Limit(c)
      ensures blks[k].End() == (if k + 1 < first[c + 1] then blks[k + 1].hp else Limit(c))
    {
      assert Adjacent(k);
      FirstMonotone(c, blks[k].ch);
      if k + 1 < first[c + 1] {
        assert Adjacent(k + 1);
        FirstMonotone(c, blks[k + 1].ch);
      }
    }
  }
}
