// caml_compact_heap: the four passes over the heap array.
module Compact {
  import opened Header
  import opened CompactHeap
  import opened CompactThread
  import opened CompactChains
  import opened CompactPlace
  import opened CompactSlide
  import opened CompactGraph
  import opened CompactWeak

  // The blocks described by h are in memory, with their ordinary headers.
  ghost predicate Describes(h: Heap, m: seq<Word>) {
    forall k :: 0 <= k < |h.blks| ==>
      && h.blks[k].End() <= |m|
      && m[h.blks[k].hp] == Hdr(h.blks[k].wosize, h.blks[k].tag, if h.blks[k].free then Blue else White)
  }

  // Memory after pass 1.
  ghost function Encoded(h: Heap, m: seq<Word>, k: nat): seq<Word>
    requires k <= |h.blks| && Describes(h, m)
  {
    seq(|m|, x requires 0 <= x < |m| =>
      var b := h.BlockBefore(x, k);
      if b >= 0 && x == h.blks[b].hp then Ehd(h.blks[b].wosize, h.blks[b].EncodedTag()) else m[x])
  }

  // The addresses a, a + 1, ..., b - 1.
  ghost function Range(a: nat, b: nat): (s: seq<nat>)
    requires a <= b
    ensures |s| == b - a && forall i :: 0 <= i < |s| ==> s[i] == a + i
  {
    seq(b - a, i => a + i)
  }

  // The fields pass 2 visits in the first k blocks.
  ghost function Fields(h: Heap, k: nat): seq<nat>
    requires k <= |h.blks|
  {
    if k == 0 then []
    else Fields(h, k - 1) +
         (if h.blks[k - 1].Scanned() then Range(h.blks[k - 1].hp + 1, h.blks[k - 1].End()) else [])
  }

  // weak are the slots of the weak arrays.
  ghost function PlanFor(h: Heap, m: seq<Word>, roots: seq<nat>, weak: seq<nat>): Plan
    requires Describes(h, m)
  {
    Plan(h, Encoded(h, m, |h.blks|), roots + Fields(h, |h.blks|) + weak)
  }

  lemma EncodedNone(h: Heap, m: seq<Word>)
    requires Describes(h, m)
    ensures Encoded(h, m, 0) == m
  {
  }

  lemma EncodedStep(h: Heap, m: seq<Word>, k: nat)
    requires k < |h.blks| && Describes(h, m) && h.Apart()
    ensures Encoded(h, m, k + 1) ==
            Encoded(h, m, k)[h.blks[k].hp := Ehd(h.blks[k].wosize, h.blks[k].EncodedTag())]
  {
    var s, t := Encoded(h, m, k), Encoded(h, m, k + 1);
    forall x | 0 <= x < |m|
      ensures t[x] == s[h.blks[k].hp := Ehd(h.blks[k].wosize, h.blks[k].EncodedTag())][x]
    {
      BeforeStep(h, k, x);
    }
  }

  lemma BeforeStep(h: Heap, k: nat, x: nat)
    requires k < |h.blks| && h.Apart()
    ensures x != h.blks[k].hp ==>
      var b, b' := h.BlockBefore(x, k), h.BlockBefore(x, k + 1);
      (b >= 0 && x == h.blks[b].hp) <==> (b' >= 0 && x == h.blks[b'].hp)
    ensures x != h.blks[k].hp && h.BlockBefore(x, k) >= 0 ==> h.BlockBefore(x, k + 1) == h.BlockBefore(x, k)
    ensures h.BlockBefore(h.blks[k].hp, k + 1) == k
  {
    var b := h.BlockBefore(x, k);
    assert b >= 0 ==> h.blks[b].End() <= h.blks[k].hp;
  }

  // The words of m outside headers are not changed by pass 1.
  lemma EncodedElsewhere(h: Heap, m: seq<Word>, k: nat, x: nat)
    requires k < |h.blks| && Describes(h, m) && h.Apart()
    requires h.blks[k].hp <= x < h.blks[k].End() && x < |m|
    ensures forall n :: 0 <= n <= k ==> Encoded(h, m, n)[x] == m[x]
  {
    forall n | 0 <= n <= k ensures Encoded(h, m, n)[x] == m[x] {
      var b := h.BlockBefore(x, n);
      assert forall i :: 0 <= i < n ==> h.blks[i].End() <= h.blks[k].hp;
    }
  }

  // The fields of the first k blocks come before those of later blocks.
  lemma {:induction false} FieldsGrow(h: Heap, k: nat, n: nat)
    requires k <= n <= |h.blks|
    ensures Fields(h, k) <= Fields(h, n)
    ensures k > 0 ==> |Fields(h, k - 1)| <= |Fields(h, k)|
    ensures k > 0 && h.blks[k - 1].Scanned() ==> |Fields(h, k)| == |Fields(h, k - 1)| + h.blks[k - 1].wosize
    ensures k > 0 && !h.blks[k - 1].Scanned() ==> Fields(h, k) == Fields(h, k - 1)
  {
    if k < n { FieldsGrow(h, k, n - 1); }
  }

  lemma FieldAt(h: Heap, k: nat, n: nat, i: nat)
    requires k < n <= |h.blks| && h.blks[k].Scanned() && 1 <= i <= h.blks[k].wosize
    ensures |Fields(h, k)| + i - 1 < |Fields(h, n)|
    ensures Fields(h, n)[|Fields(h, k)| + i - 1] == h.blks[k].hp + i
  {
    FieldsGrow(h, k + 1, n);
    var f := Range(h.blks[k].hp + 1, h.blks[k].End());
    assert Fields(h, k + 1) == Fields(h, k) + f;
    assert Fields(h, k + 1)[|Fields(h, k)| + i - 1] == f[i - 1];
  }

  class Compactor {
    const mem: array<Word>
    const chunks: seq<Chunk>      // caml_heap_start and Chunk_next: address and size of each chunk
    const roots: seq<nat>         // locations caml_do_roots passes to invert_root
    const weakHead: nat           // the address of caml_weak_list_head
    const weakNone: Word          // caml_weak_none
    var alloc: seq<nat>           // Chunk_alloc, in words
    var fl: nat                   // compact_fl

    constructor (mem: array<Word>, chunks: seq<Chunk>, roots: seq<nat>, weakHead: nat, weakNone: Word)
      ensures this.mem == mem && this.chunks == chunks && this.roots == roots
      ensures this.weakHead == weakHead && this.weakNone == weakNone
    {
      this.mem := mem;
      this.chunks := chunks;
      this.roots := roots;
      this.weakHead := weakHead;
      this.weakNone := weakNone;
      this.alloc := [];
      this.fl := 0;
    }

    // First pass: encode all noninfix headers.
    method EncodeHeaders(ghost h: Heap)
      requires h.chunks == chunks && h.Tiled() && Describes(h, mem[..])
      modifies mem
      ensures mem[..] == Encoded(h, old(mem[..]), |h.blks|)
    {
      hide Heap.Tiled;
      hide Encoded;
      hide Describes;
      h.TiledNonempty();
      h.WalkStart(0);
      ghost var m0 := mem[..];
      ghost var k := 0;
      var ch := 0;
      EncodedNone(h, m0);
      while ch < |chunks|
        invariant ch <= |chunks| == |h.first| - 1 && k == h.first[ch] <= |h.blks|
        invariant ch == |chunks| ==> k == |h.blks|
        invariant mem[..] == Encoded(h, m0, k)
      {
        h.WalkStart(ch);
        EncodeChunk(ch, h, m0);
        k := h.first[ch + 1];
        ch := ch + 1;
      }
    }

    method EncodeChunk(ch: nat, ghost h: Heap, ghost m0: seq<Word>)
      requires h.chunks == chunks && ch < |chunks| && h.Tiled() && Describes(h, m0)
      requires ch + 1 < |h.first| && h.first[ch] < h.first[ch + 1] <= |h.blks|
      requires mem[..] == Encoded(h, m0, h.first[ch])
      modifies mem
      ensures mem[..] == Encoded(h, m0, h.first[ch + 1])
    {
      hide Heap.Tiled;
      hide Encoded;
      hide Describes;
      h.WalkStart(ch);
      ghost var k := h.first[ch];
      var p := chunks[ch].start;
      var chend := p + chunks[ch].size;
      while p < chend
        invariant h.first[ch] <= k <= h.first[ch + 1] <= |h.blks|
        invariant if k < h.first[ch + 1] then p == h.blks[k].hp < chend else p == chend
        invariant mem[..] == Encoded(h, m0, k)
        decreases chend - p
      {
        h.WalkStep(ch, k);
        p := EncodeHeader(p, h, m0, k);
        k := k + 1;
      }
    }

    method EncodeHeader(p: nat, ghost h: Heap, ghost m0: seq<Word>, ghost k: nat) returns (next: nat)
      requires h.Apart() && Describes(h, m0) && k < |h.blks| && p == h.blks[k].hp
      requires mem[..] == Encoded(h, m0, k)
      modifies mem
      ensures mem[..] == Encoded(h, m0, k + 1)
      ensures next == h.blks[k].End()
    {
      EncodedElsewhere(h, m0, k, p);
      EncodedStep(h, m0, k);
      var hd := mem[p];
      assert hd == Encoded(h, m0, k)[p] == m0[p];
      var sz := hd.wosize;
      ghost var before := mem[..];
      if hd.color == Blue {
        mem[p] := Ehd(sz, STRING_TAG);
      } else {
        mem[p] := Ehd(sz, hd.tag);
      }
      assert mem[..] == before[p := Ehd(h.blks[k].wosize, h.blks[k].EncodedTag())];
      next := p + sz + 1;
    }

    // Replace the pointer in a slot by the word it points to, and that word by the address of the slot.
    method InvertPointerAt(s: nat, ghost p: Plan, ghost i: nat)
      requires p.Valid() && p.heap.chunks == chunks && i < |p.slots| && s == p.slots[i]
      requires p.Threaded(mem[..], i)
      modifies mem
      ensures p.Threaded(mem[..], i + 1)
    {
      ghost var m := mem[..];
      if p.Tgt(s) < 0 { SlotWithoutTarget(p, m, i); } else { SlotWithTarget(p, m, i, p.Tgt(s)); }
      var q := mem[s];
      if Ecolor(q) == 0 && InChunks(chunks, q.a) {
        InvertInto(s, q.a, p, i);
      } else {
        InvertNone(p, m, i);
      }
    }

    method InvertInto(s: nat, q: nat, ghost p: Plan, ghost i: nat)
      requires p.Valid() && i < |p.slots| && s == p.slots[i] && q > 0 && p.Tgt(s) == q - 1
      requires p.Threaded(mem[..], i)
      modifies mem
      ensures p.Threaded(mem[..], i + 1)
    {
      hide Plan.Valid;
      hide Plan.Threaded;
      hide Plan.IsInfix;
      hide Plan.IsHeader;
      hide Plan.NodeWord;
      ghost var m := mem[..];
      ValidInBase(p);
      SlotWithTarget(p, m, i, q - 1);
      NodeColor(p, i, q - 1);
      var hd := mem[q - 1];
      if Ecolor(hd) == 0 || Ecolor(hd) == 3 {
        mem[s] := hd;
        mem[q - 1] := Ptr(s);
        InvertNode(p, m, i, mem[..]);
      } else if Ecolor(hd) == 1 {
        StartsHere(p, i, q - 1);
        StartInfixChain(s, q, p, i, p.heap.BlockAt(q - 1));
      } else {
        mem[s] := hd;
        mem[q - 1] := IPtr(s);
        InvertNode(p, m, i, mem[..]);
      }
    }

    // The first pointer to an infix header of block k.
    method StartInfixChain(s: nat, q: nat, ghost p: Plan, ghost i: nat, ghost k: nat)
      requires p.Valid() && Starts(p, i, k) && s == p.slots[i] && p.Tgt(s) == q - 1
      requires p.heap.blks[k].EncodedTag() == CLOSURE_TAG
      requires p.Threaded(mem[..], i)
      requires 0 < q <= mem.Length && mem[q - 1] == Hdr(q - 1 - p.heap.blks[k].hp, INFIX_TAG, White)
      modifies mem
      ensures p.Threaded(mem[..], i + 1)
    {
      hide Plan.Valid;
      hide Plan.Threaded;
      ghost var m := mem[..];
      var val := q - mem[q - 1].wosize;
      var hp, w := BlockChainEnd(val, p, i, k);
      StartChainWrites(p, m, i, k, hp);
      mem[s] := w;
      mem[q - 1] := IPtr(s);
      mem[hp] := Ehd(q - val - 1, INFIX_TAG);
      assert mem[..] == m[s := w][q - 1 := IPtr(s)][hp := Ehd(q - val - 1, INFIX_TAG)];
    }

    // Where the header chain of a closure ends, and the word that is to end a new infix chain: the
    // block's original header, or a link to the infix header whose offset the chain ends with.
    method BlockChainEnd(val: nat, ghost p: Plan, ghost i: nat, ghost k: nat) returns (hp: nat, w: Word)
      requires p.Valid() && Starts(p, i, k) && val == p.heap.blks[k].hp + 1
      requires p.heap.blks[k].EncodedTag() == CLOSURE_TAG
      requires p.Threaded(mem[..], i)
      ensures ChainEnd(p, i, k, hp) && hp < mem.Length
      ensures hp != p.slots[i] && hp != p.Tgt(p.slots[i]) && p.slots[i] != p.Tgt(p.slots[i])
      ensures w == p.InfixEnd(i, k)
    {
      hide Plan.Valid;
      hide Plan.Threaded;
      hide Plan.IsInfix;
      ValidInBase(p);
      ThreadedIntact(p, mem[..], i, k);
      hp := EndOfHeaderChain(val - 1, p, i, k);
      ChainEndWord(p, mem[..], i, k, hp);
      ChainEndElsewhere(p, i, k, hp);
      EndWordCases(p, i, k);
      hide ChainEnd;
      var end := mem[hp];
      w := if end.tag == CLOSURE_TAG then end else Link(val + end.wosize);
    }

    // The address of the word that ends the chain of a block header.
    method EndOfHeaderChain(x: nat, ghost p: Plan, ghost i: nat, ghost k: nat) returns (hp: nat)
      requires p.Valid() && i <= |p.slots| && k < |p.heap.blks| && x == p.heap.blks[k].hp
      requires Intact(p, mem[..], i, k)
      ensures ChainEnd(p, i, k, hp)
      ensures hp < mem.Length
    {
      hp := x;
      ghost var j := i;
      HeaderStart(p, mem[..], i, k);
      EndWordCases(p, i, k);
      while Ecolor(mem[hp]) == 0
        invariant 0 <= j <= i && hp < mem.Length
        invariant mem[hp] == HeaderWord(p, i, k, j)
        invariant if j == i then hp == x else p.slots[j] == hp && p.Tgt(hp) == x
        decreases j
      {
        ghost var l := HeaderStep(p, mem[..], i, k, j);
        hp := mem[hp].a;
        j := l;
      }
      ghost var last := LastIndex(p, i, x);
    }

    // The original header of a block whose chains are in place, and its last activated infix header (0
    // if there is none).
    method BlockHeader(x: nat, ghost p: Plan, ghost i: nat, ghost k: nat) returns (q: Word, infixes: nat)
      requires p.Valid() && i <= |p.slots| && k < |p.heap.blks| && x == p.heap.blks[k].hp
      requires Intact(p, mem[..], i, k)
      ensures q == Ehd(p.heap.blks[k].wosize, p.heap.blks[k].EncodedTag())
      ensures if p.Top(i, k) == -1 then infixes == 0 else infixes == p.Top(i, k) > x
    {
      var hp := EndOfHeaderChain(x, p, i, k);
      IntactEnd(p, mem[..], i, k, hp);
      EndWordCases(p, i, k);
      ghost var act := NextInfix(p, i, k);
      BaseHeader(p, k);
      q := mem[hp];
      infixes := 0;
      if q.tag == INFIX_TAG {
        infixes := x + q.wosize + 1;
        InfixStart(p, mem[..], i, k, infixes, act);
        q := EndOfInfixChains(infixes, p, i, k, act);
      }
    }

    // Follow the infix chains of a block to the original header of the block.
    method EndOfInfixChains(x: nat, ghost p: Plan, ghost i: nat, ghost k: nat, ghost act: nat) returns (q: Word)
      requires p.Valid() && i <= |p.slots| && k < |p.heap.blks| && act < i
      requires Intact(p, mem[..], i, k) && Active(p, k, x, act) && x < mem.Length
      ensures q == p.base[p.heap.blks[k].hp]
    {
      ghost var t: nat, a: nat, j: nat := x, act, i;
      InfixStart(p, mem[..], i, k, t, a);
      BaseHeader(p, k);
      q := mem[x];
      while Ecolor(q) != 3
        invariant j <= i && a < i && Active(p, k, t, a)
        invariant q == InfixWord(p, k, t, a, j)
        decreases a, j
      {
        if p.Last(j, t) >= 0 {
          j := InfixStep(p, mem[..], i, k, t, a, j);
        } else {
          ghost var b := NextInfix(p, a, k);
          assert q == p.InfixEnd(a, k) && b != -1;
          InfixStart(p, mem[..], i, k, p.Top(a, k), b);
          t, a, j := p.Top(a, k), b, i;
        }
        q := mem[q.a];
      }
    }

    // Second pass: invert the roots, then the fields of all blocks that have pointers in them, then the weak
    // arrays.
    method InvertAll(ghost p: Plan, ghost w: WeakList)
      requires p.Valid() && p.heap.Tiled() && p.heap.chunks == chunks && InOrder(p, roots)
      requires WeakOk(p.heap, p.base, w) && w.head == weakHead && w.none == weakNone
      requires InWeak(p, w, |roots| + |Fields(p.heap, |p.heap.blks|)|)
      requires p.Threaded(mem[..], 0)
      modifies mem
      ensures p.Threaded(mem[..], |p.slots|)
    {
      hide Heap.Tiled;
      hide Plan.Valid;
      hide InOrder;
      hide FieldsDone;
      hide InWeak;
      hide WeakOk;
      p.heap.TiledNonempty();
      p.heap.WalkStart(0);
      ValidInBase(p);
      InvertRoots(p);
      var ch := 0;
      while ch < |chunks|
        invariant ch <= |chunks| == |p.heap.first| - 1
        invariant FieldsDone(p, roots, mem[..], p.heap.first[ch])
        invariant ch == |chunks| ==> p.heap.first[ch] == |p.heap.blks|
      {
        p.heap.WalkStart(ch);
        InvertChunk(ch, p);
        ch := ch + 1;
      }
      AllFieldsDone(p, roots, mem[..]);
      InvertWeak(p, w, |roots| + |Fields(p.heap, |p.heap.blks|)|);
    }

    // The list of the weak arrays.  The size of an array is at the end of its header chain.
    method InvertWeak(ghost p: Plan, ghost w: WeakList, ghost i0: nat)
      requires p.Valid() && p.heap.Tiled() && p.heap.chunks == chunks
      requires WeakOk(p.heap, p.base, w) && w.head == weakHead && w.none == weakNone && InWeak(p, w, i0)
      requires p.Threaded(mem[..], i0)
      modifies mem
      ensures p.Threaded(mem[..], |p.slots|)
    {
      hide Plan.Valid;
      hide Plan.Threaded;
      hide Heap.Tiled;
      hide WeakOk;
      hide InWeak;
      hide WeakSlots;
      hide Loc;
      hide LinkWord;
      hide IsArray;
      ValidInBase(p);
      ListStart(p, w, i0);
      var pp := weakHead;
      ghost var n := 0;
      LinkStill(p, mem[..], w, i0, n);
      while mem[pp] != Ptr(0)
        invariant n <= |w.arrays| && pp == Loc(p.heap, w, n) < mem.Length
        invariant i0 + |WeakSlots(p.heap, p.base, w, n)| <= |p.slots|
        invariant p.Threaded(mem[..], i0 + |WeakSlots(p.heap, p.base, w, n)|)
        invariant LinkWord(p.heap, w, n, mem[pp])
        decreases |w.arrays| - n
      {
        ListNext(p.heap, w, n, mem[pp]);
        var x := mem[pp].a;
        InvertArray(x, pp, p, w, i0, n);
        pp := x;
        n := n + 1;
        LinkStill(p, mem[..], w, i0, n);
      }
      ListEnd(p, w, i0, n, mem[pp]);
    }

    // One weak array: its full fields, and then the pointer to it.
    method InvertArray(x: nat, pp: nat, ghost p: Plan, ghost w: WeakList, ghost i0: nat, ghost n: nat)
      requires p.Valid() && p.heap.chunks == chunks && WeakOk(p.heap, p.base, w) && w.none == weakNone
      requires InWeak(p, w, i0) && n < |w.arrays| && IsArray(p.heap, w.arrays[n])
      requires x == p.heap.blks[w.arrays[n]].hp + 1 && pp == Loc(p.heap, w, n)
      requires i0 + |WeakSlots(p.heap, p.base, w, n)| <= |p.slots|
      requires p.Threaded(mem[..], i0 + |WeakSlots(p.heap, p.base, w, n)|)
      modifies mem
      ensures i0 + |WeakSlots(p.heap, p.base, w, n + 1)| <= |p.slots|
      ensures p.Threaded(mem[..], i0 + |WeakSlots(p.heap, p.base, w, n + 1)|)
    {
      hide Plan.Valid;
      hide Plan.Threaded;
      hide WeakOk;
      hide InWeak;
      hide WeakSlots;
      hide FullFields;
      ValidInBase(p);
      ghost var k := w.arrays[n];
      SlotOfLink(p, w, i0, n);
      BeforeFirst(p, w, i0, n);
      var sz := ArraySize(x - 1, p, i0 + |WeakSlots(p.heap, p.base, w, n)|, k);
      for i := 1 to sz
        invariant Before(p, w, i0, n, i) <= |p.slots| && p.Threaded(mem[..], Before(p, w, i0, n, i))
      {
        FieldStill(p, mem[..], w, i0, n, i);
        SlotOfWeak(p, w, i0, n, i);
        if mem[x + i] != weakNone {
          InvertPointerAt(x + i, p, Before(p, w, i0, n, i));
        }
      }
      InvertPointerAt(pp, p, Before(p, w, i0, n, sz));
    }

    method ArraySize(x: nat, ghost p: Plan, ghost i: nat, ghost k: nat) returns (sz: nat)
      requires p.Valid() && i <= |p.slots| && IsArray(p.heap, k) && x == p.heap.blks[k].hp
      requires p.Threaded(mem[..], i)
      ensures sz == p.heap.blks[k].wosize
    {
      hide Plan.Valid;
      hide Plan.Threaded;
      hide Intact;
      ValidInBase(p);
      ThreadedIntact(p, mem[..], i, k);
      var hp := EndOfHeaderChain(x, p, i, k);
      IntactEnd(p, mem[..], i, k, hp);
      NoInfixTop(p, i, k);
      sz := mem[hp].wosize;
    }

    method InvertRoots(ghost p: Plan)
      requires p.Valid() && p.heap.chunks == chunks && InOrder(p, roots)
      requires p.Threaded(mem[..], 0)
      modifies mem
      ensures FieldsDone(p, roots, mem[..], 0)
    {
      hide Plan.Valid;
      hide Plan.Threaded;
      ValidInBase(p);
      for i := 0 to |roots|
        invariant p.Threaded(mem[..], i)
      {
        InvertPointerAt(roots[i], p, i);
      }
    }

    method InvertChunk(ch: nat, ghost p: Plan)
      requires p.Valid() && p.heap.Tiled() && p.heap.chunks == chunks && InOrder(p, roots)
      requires ch < |chunks| && ch + 1 < |p.heap.first|
      requires FieldsDone(p, roots, mem[..], p.heap.first[ch])
      modifies mem
      ensures FieldsDone(p, roots, mem[..], p.heap.first[ch + 1])
    {
      hide Heap.Tiled;
      hide Plan.Valid;
      hide InOrder;
      hide FieldsDone;
      p.heap.WalkStart(ch);
      ghost var k := p.heap.first[ch];
      var x := chunks[ch].start;
      var chend := x + chunks[ch].size;
      while x < chend
        invariant p.heap.first[ch] <= k <= p.heap.first[ch + 1] <= |p.heap.blks|
        invariant if k < p.heap.first[ch + 1] then x == p.heap.blks[k].hp < chend else x == chend
        invariant FieldsDone(p, roots, mem[..], k)
        decreases chend - x
      {
        p.heap.WalkStep(ch, k);
        x := InvertFields(x, p, k);
        k := k + 1;
      }
    }

    // Invert the fields of block k and return the address of the next block.
    method InvertFields(x: nat, ghost p: Plan, ghost k: nat) returns (next: nat)
      requires p.Valid() && p.heap.chunks == chunks && InOrder(p, roots)
      requires k < |p.heap.blks| && x == p.heap.blks[k].hp
      requires FieldsDone(p, roots, mem[..], k)
      modifies mem
      ensures FieldsDone(p, roots, mem[..], k + 1)
      ensures next == p.heap.blks[k].End()
    {
      hide FieldsDone;
      hide InOrder;
      hide Plan.Valid;
      hide Plan.Threaded;
      hide Intact;
      hide Blk.Scanned;
      FieldsDoneFacts(p, roots, mem[..], k);
      NextFields(p, roots, k);
      ghost var i0 := |roots| + |Fields(p.heap, k)|;
      var q, infixes := BlockHeader(x, p, i0, k);
      var sz := q.wosize + 1;
      next := x + sz;
      ScannedTag(p.heap.blks[k]);
      if q.tag < NO_SCAN_TAG {
        InvertRange(x, sz, p, k, i0);
      }
      FieldsDoneNext(p, roots, mem[..], k);
    }

    method InvertRange(x: nat, sz: nat, ghost p: Plan, ghost k: nat, ghost i0: nat)
      requires p.Valid() && p.heap.chunks == chunks && InOrder(p, roots)
      requires k < |p.heap.blks| && p.heap.blks[k].Scanned() && x == p.heap.blks[k].hp
      requires sz == p.heap.blks[k].wosize + 1
      requires i0 == |roots| + |Fields(p.heap, k)| <= |p.slots| && p.Threaded(mem[..], i0)
      modifies mem
      ensures i0 + sz - 1 <= |p.slots| && p.Threaded(mem[..], i0 + sz - 1)
    {
      hide Plan.Valid;
      hide Plan.InBase;
      hide Plan.Threaded;
      hide InOrder;
      hide Blk.Scanned;
      hide Fields;
      NextFields(p, roots, k);
      ValidInBase(p);
      var i := 1;
      while i < sz
        invariant 1 <= i <= sz
        invariant p.Threaded(mem[..], i0 + i - 1)
      {
        SlotOfField(p, roots, k, i);
        InvertPointerAt(x + i, p, i0 + i - 1);
        i := i + 1;
      }
    }

    // init_compact_allocate.
    method InitAllocate()
      requires |chunks| > 0
      modifies this`alloc, this`fl
      ensures Place(alloc, fl) == Place(seq(|chunks|, _ => 0), 0)
    {
      alloc := [];
      for c := 0 to |chunks|
        invariant alloc == seq(c, _ => 0)
      {
        alloc := alloc + [0];
      }
      fl := 0;
    }

    // Pass over the chunks that are as good as full.  Not ok: the size of the chunk after the last one is read.
    method SkipFullChunks(ghost h: Heap) returns (ok: bool)
      requires h.chunks == chunks && |alloc| == |chunks| && fl < |chunks|
      modifies this`fl
      ensures var r := SkipFull(h, alloc, old(fl)); if r.Some? then ok && fl == r.value < |chunks| else !ok
    {
      while chunks[fl].size - alloc[fl] <= SLACK
        invariant fl < |chunks| && SkipFull(h, alloc, fl) == SkipFull(h, alloc, old(fl))
        decreases |chunks| - fl
      {
        if fl + 1 == |chunks| { return false; }
        if chunks[fl + 1].size - alloc[fl + 1] > SLACK { break; }
        fl := fl + 1;
      }
      ok := true;
    }

    // Reserve size words.
    method CompactAllocate(size: nat, ghost h: Heap) returns (ok: bool, adr: nat)
      requires h.chunks == chunks && |alloc| == |chunks| && fl < |chunks|
      modifies this`alloc, this`fl
      ensures var r := Allocate(h, old(Place(alloc, fl)), size);
              if r.Some? then ok && Place(alloc, fl) == r.value.0 && adr == r.value.1 else !ok
    {
      adr := 0;
      ok := SkipFullChunks(h);
      if !ok { return; }
      var chunk := fl;
      while chunks[chunk].size - alloc[chunk] < size
        invariant chunk < |chunks|
        invariant FirstFit(h, alloc, chunk, size) == FirstFit(h, alloc, fl, size)
        decreases |chunks| - chunk
      {
        chunk := chunk + 1;
        if chunk == |chunks| { return false, 0; }
      }
      assert FirstFit(h, alloc, chunk, size) == Some(chunk);
      adr := chunks[chunk].start + alloc[chunk];
      alloc := alloc[chunk := alloc[chunk] + size];
    }

    // Store the new value in every slot of the header chain of block k.
    method RevertHeaderChain(x: nat, newval: nat, ghost p: Plan, ghost addr: seq<nat>, ghost k: nat)
      requires p.Valid() && k < |p.heap.blks| == |addr| && x == p.heap.blks[k].hp && newval == addr[k] + 1
      requires RevertedUpTo(p, addr, mem[..], k)
      modifies mem
      ensures Reverted(p, addr, mem[..], SlotsInto(p, k) + SlotsTo(p, x, 0), WordsOf(p, k))
    {
      hide Plan.Valid;
      hide Reverted;
      hide SlotsInto;
      hide WordsOf;
      hide Intact;
      ghost var done, fin := SlotsInto(p, k), WordsOf(p, k);
      HeaderRevertStart(p, addr, mem[..], k);
      var q := mem[x];
      ghost var j: nat := |p.slots|;
      while Ecolor(q) == 0
        invariant j <= |p.slots| && p.InBase()
        invariant q == HeaderWord(p, |p.slots|, k, j)
        invariant Reverted(p, addr, mem[..], done + SlotsTo(p, x, j), fin)
        decreases j
      {
        ghost var m := mem[..];
        ghost var l := HeaderRevertStep(p, addr, m, k, j);
        var next := mem[q.a];
        mem[q.a] := Ptr(newval);
        q := next;
        assert mem[..] == m[p.slots[l] := Ptr(newval)];
        j := l;
      }
      SlotsToEnd(p, x, j);
    }

    // Store the new value of infix header t in the slots of its chain, and decode it.  The result is
    // the word the chain ended with.
    method RevertInfixChain(t: nat, off: nat, newval: nat, ghost p: Plan, ghost addr: seq<nat>, ghost k: nat,
                            ghost a: nat, ghost act: nat)
      returns (q: Word)
      requires p.Valid() && k < |p.heap.blks| == |addr| && InfixState(p, addr, mem[..], k, a)
      requires act < a && Active(p, k, t, act) && t == p.Top(a, k)
      requires forall n :: p.heap.blks[k].hp < n < p.heap.blks[k].End() && n != p.Top(a, k) ==>
                 (p.Last(a, n) == -1 <==> p.Last(act, n) == -1)
      requires t == p.heap.blks[k].hp + off && newval == addr[k] + off + 1
      modifies mem
      ensures InfixState(p, addr, mem[..], k, act)
      ensures q == p.InfixEnd(act, k)
    {
      hide Plan.Valid;
      hide Reverted;
      hide InfixState;
      hide InfixPart;
      hide Plan.IsInfix;
      ValidInBase(p);
      InfixStateBound(p, addr, mem[..], k, a);
      InfixPartStart(p, addr, mem[..], k, a, act);
      EndWordCases(p, act, k);
      TopActive(p, k, a);
      q := mem[t];
      ghost var j: nat := |p.slots|;
      while Ecolor(q) == 2
        invariant j <= |p.slots| && mem.Length == |p.base|
        invariant q == InfixWord(p, k, t, act, j)
        invariant InfixPart(p, addr, mem[..], k, a, t, j)
        decreases j
      {
        ghost var m := mem[..];
        ghost var l := InfixPartStep(p, addr, m, k, a, t, act, j);
        var next := mem[q.a];
        mem[q.a] := Ptr(newval);
        q := next;
        assert mem[..] == m[p.slots[l] := Ptr(newval)];
        j := l;
      }
      ghost var m := mem[..];
      InfixPartEnd(p, addr, m, k, a, t, act, j);
      mem[t] := Hdr(off, INFIX_TAG, White);
      assert mem[..] == m[t := Hdr(off, INFIX_TAG, White)];
    }

    // Rebuild the infix headers of block k and revert their chains, starting with the one at infixes.
    method RevertInfixChains(x: nat, infixes: nat, newadr: nat, ghost p: Plan, ghost addr: seq<nat>, ghost k: nat)
      requires p.Valid() && k < |p.heap.blks| == |addr| && x == p.heap.blks[k].hp && newadr == addr[k]
      requires if p.Top(|p.slots|, k) == -1 then infixes == 0 else infixes == p.Top(|p.slots|, k) > x
      requires InfixState(p, addr, mem[..], k, |p.slots|)
      modifies mem
      ensures RevertedUpTo(p, addr, mem[..], k + 1)
    {
      hide Plan.Valid;
      hide Reverted;
      hide InfixState;
      hide RevertedUpTo;
      ValidInBase(p);
      ghost var a: nat := |p.slots|;
      ghost var act := NextInfix(p, a, k);
      BaseHeader(p, k);
      if infixes != 0 {
        var w := Ptr(infixes);
        while Ecolor(w) != 3
          invariant a <= |p.slots|
          invariant InfixState(p, addr, mem[..], k, a)
          invariant act < a && (act == -1 <==> Ecolor(w) == 3)
          invariant act >= 0 ==> Active(p, k, p.Top(a, k), act) && (w == Ptr(p.Top(a, k)) || w == Link(p.Top(a, k)))
          invariant act == -1 ==> forall n :: x < n < p.heap.blks[k].End() ==> p.Last(a, n) == -1
          invariant act >= 0 ==>
            forall n :: x < n < p.heap.blks[k].End() && n != p.Top(a, k) ==>
              (p.Last(a, n) == -1 <==> p.Last(act, n) == -1)
          decreases a
        {
          var t := w.a;
          w := RevertInfixChain(t, t - x, newadr + (t - x) + 1, p, addr, k, a, act);
          a := act;
          act := NextInfix(p, a, k);
        }
      }
      InfixStateEnd(p, addr, mem[..], k, a);
    }

    // Third pass: reserve new addresses, store them in the slots of the chains, decode the headers.
    method RevertAll(ghost p: Plan) returns (ok: bool)
      requires p.Valid() && p.heap.Tiled() && p.heap.chunks == chunks
      requires p.Threaded(mem[..], |p.slots|)
      modifies mem, this`alloc, this`fl
      ensures ok <==> Succeeds(p.heap, Kept(p))
      ensures ok ==> RevertedUpTo(p, NewHps(p), mem[..], |p.heap.blks|)
    {
      hide Heap.Tiled;
      hide Plan.Valid;
      hide Plan.Threaded;
      hide Progress;
      p.heap.TiledNonempty();
      ValidInBase(p);
      p.heap.WalkStart(0);
      InitAllocate();
      ProgressStart(p, mem[..], Place(alloc, fl));
      var ch := 0;
      while ch < |chunks|
        invariant ch <= |chunks| == |p.heap.first| - 1
        invariant Progress(p, mem[..], Place(alloc, fl), p.heap.first[ch])
        invariant ch == |chunks| ==> p.heap.first[ch] == |p.heap.blks|
      {
        p.heap.WalkStart(ch);
        ok := RevertChunk(ch, p);
        if !ok { return; }
        ch := ch + 1;
      }
      ProgressEnd(p, mem[..], Place(alloc, fl));
      ok := true;
    }

    method RevertChunk(ch: nat, ghost p: Plan) returns (ok: bool)
      requires p.Valid() && p.heap.Tiled() && p.heap.chunks == chunks
      requires ch < |chunks| && ch + 1 < |p.heap.first|
      requires Progress(p, mem[..], Place(alloc, fl), p.heap.first[ch])
      modifies mem, this`alloc, this`fl
      ensures ok ==> Progress(p, mem[..], Place(alloc, fl), p.heap.first[ch + 1])
      ensures !ok ==> |p.heap.chunks| > 0 && !Succeeds(p.heap, Kept(p))
    {
      hide Heap.Tiled;
      hide Plan.Valid;
      hide Progress;
      hide Succeeds;
      p.heap.WalkStart(ch);
      ghost var k := p.heap.first[ch];
      var x := chunks[ch].start;
      var chend := x + chunks[ch].size;
      ok := true;
      while x < chend
        invariant p.heap.first[ch] <= k <= p.heap.first[ch + 1] <= |p.heap.blks|
        invariant if k < p.heap.first[ch + 1] then x == p.heap.blks[k].hp < chend else x == chend
        invariant Progress(p, mem[..], Place(alloc, fl), k)
        invariant ok
        decreases chend - x
      {
        p.heap.WalkStep(ch, k);
        ok, x := RevertBlock(x, p, k);
        if !ok { return; }
        k := k + 1;
      }
    }

    method RevertBlock(x: nat, ghost p: Plan, ghost k: nat) returns (ok: bool, next: nat)
      requires p.Valid() && p.heap.chunks == chunks && |chunks| > 0
      requires k < |p.heap.blks| && x == p.heap.blks[k].hp
      requires Progress(p, mem[..], Place(alloc, fl), k)
      modifies mem, this`alloc, this`fl
      ensures ok ==> Progress(p, mem[..], Place(alloc, fl), k + 1) && next == p.heap.blks[k].End()
      ensures !ok ==> !Succeeds(p.heap, Kept(p))
    {
      hide Plan.Valid;
      hide Progress;
      hide Reverted;
      hide Succeeds;
      ghost var addr := NewHps(p);
      ValidInBase(p);
      ProgressFacts(p, mem[..], Place(alloc, fl), k);
      HeaderRevertStart(p, addr, mem[..], k);
      var q := mem[x];
      EndWordCases(p, |p.slots|, k);
      LiveCases(p, k);
      TopPositive(p, |p.slots|, k);
      if Ecolor(q) == 0 || q.tag == INFIX_TAG {
        ok, next := KeepBlock(x, p, k);
      } else {
        next := FreeBlock(x, p, k);
        ok := true;
      }
    }

    // There are pointers to the block: it gets a new address.
    method KeepBlock(x: nat, ghost p: Plan, ghost k: nat) returns (ok: bool, next: nat)
      requires p.Valid() && p.InBase() && p.heap.chunks == chunks && |chunks| > 0
      requires k < |p.heap.blks| && x == p.heap.blks[k].hp && Live(p, k)
      requires Progress(p, mem[..], Place(alloc, fl), k)
      modifies mem, this`alloc, this`fl
      ensures ok ==> Progress(p, mem[..], Place(alloc, fl), k + 1) && next == p.heap.blks[k].End()
      ensures !ok ==> !Succeeds(p.heap, Kept(p))
    {
      hide Plan.Valid;
      hide Plan.InBase;
      hide Progress;
      hide Reverted;
      hide RevertedUpTo;
      hide Succeeds;
      hide Intact;
      hide Live;
      hide PlaceAll;
      hide Allocate;
      hide InfixState;
      ghost var addr := NewHps(p);
      ProgressFacts(p, mem[..], Place(alloc, fl), k);
      RevertedIntact(p, addr, mem[..], k);
      var q, infixes := BlockHeader(x, p, |p.slots|, k);
      var sz := q.wosize + 1;
      next := x + sz;
      ghost var st := Place(alloc, fl);
      var newadr;
      ok, newadr := CompactAllocate(sz, p.heap);
      PlacedNext(p, k, st);
      if !ok { return; }
      st := Place(alloc, fl);
      RevertHeaderChain(x, newadr + 1, p, addr, k);
      ghost var m := mem[..];
      DecodeHeader(p, addr, m, k);
      mem[x] := Hdr(sz - 1, q.tag, White);
      assert mem[..] == m[x := Hdr(sz - 1, q.tag, White)];
      RevertInfixChains(x, infixes, newadr, p, addr, k);
      ProgressNext(p, mem[..], st, k);
    }

    // No pointers to the header and no infix header: the block was free.
    method FreeBlock(x: nat, ghost p: Plan, ghost k: nat) returns (next: nat)
      requires p.Valid() && p.InBase() && p.heap.chunks == chunks && |chunks| > 0
      requires k < |p.heap.blks| && x == p.heap.blks[k].hp && !Live(p, k)
      requires Progress(p, mem[..], Place(alloc, fl), k)
      requires x < mem.Length && mem[x].Ehd?
      modifies mem
      ensures Progress(p, mem[..], Place(alloc, fl), k + 1) && next == p.heap.blks[k].End()
    {
      hide Plan.Valid;
      hide Plan.InBase;
      hide Progress;
      hide Reverted;
      hide Live;
      hide InfixState;
      ghost var addr := NewHps(p);
      ProgressFacts(p, mem[..], Place(alloc, fl), k);
      HeaderRevertStart(p, addr, mem[..], k);
      LiveCases(p, k);
      EndWordCases(p, |p.slots|, k);
      ghost var act := NextInfix(p, |p.slots|, k);
      BaseHeader(p, k);
      SlotsToEnd(p, x, |p.slots|);
      var q := mem[x];
      ghost var m := mem[..];
      DecodeHeader(p, addr, m, k);
      mem[x] := Hdr(q.wosize, q.tag, Blue);
      assert mem[..] == m[x := Hdr(q.wosize, q.tag, Blue)];
      InfixStateEnd(p, addr, mem[..], k, |p.slots|);
      DeadNext(p, k);
      ProgressNext(p, mem[..], Place(alloc, fl), k);
      next := x + q.wosize + 1;
    }

    // Copy n words downwards; source and destination may overlap.
    method Memmove(dst: nat, src: nat, n: nat)
      requires dst <= src && src + n <= mem.Length
      modifies mem
      ensures Copied(old(mem[..]), mem[..], dst, src, n)
    {
      ghost var m := mem[..];
      var x := 0;
      while x < n
        invariant x <= n
        invariant Copied(m, mem[..], dst, src, x)
      {
        ghost var before := mem[..];
        mem[dst + x] := mem[src + x];
        CopiedStep(m, before, dst, src, x);
        assert mem[..] == before[dst + x := before[src + x]];
        x := x + 1;
      }
    }

    // Fourth pass: reserve the same addresses again and move the blocks there.
    method SlideAll(ghost h: Heap, ghost kept: seq<bool>)
      requires h.Tiled() && h.chunks == chunks && |kept| == |h.blks| && |chunks| > 0
      requires Colored(h, kept, mem[..]) && Succeeds(h, kept)
      modifies mem, this`alloc, this`fl
      ensures Slid(h, kept, old(mem[..]), mem[..], |h.blks|)
      ensures PlaceAll(h, kept, |h.blks|) == Some(Place(alloc, fl))
    {
      hide Heap.Tiled;
      hide Sliding;
      hide Slid;
      hide PlaceAll;
      hide Succeeds;
      hide Colored;
      ghost var m0 := mem[..];
      h.TiledNonempty();
      h.WalkStart(0);
      InitAllocate();
      SlidingStart(h, kept, m0);
      var ch := 0;
      while ch < |chunks|
        invariant ch <= |chunks| == |h.first| - 1
        invariant Sliding(h, kept, m0, mem[..], Place(alloc, fl), h.first[ch])
        invariant ch == |chunks| ==> h.first[ch] == |h.blks|
      {
        h.WalkStart(ch);
        SlideChunk(ch, h, kept, m0);
        ch := ch + 1;
      }
      SlidingEnd(h, kept, m0, mem[..], Place(alloc, fl));
    }

    method SlideChunk(ch: nat, ghost h: Heap, ghost kept: seq<bool>, ghost m0: seq<Word>)
      requires h.Tiled() && h.chunks == chunks && |kept| == |h.blks| && |chunks| > 0
      requires ch < |chunks| && ch + 1 < |h.first|
      requires Colored(h, kept, m0) && Succeeds(h, kept)
      requires Sliding(h, kept, m0, mem[..], Place(alloc, fl), h.first[ch])
      modifies mem, this`alloc, this`fl
      ensures Sliding(h, kept, m0, mem[..], Place(alloc, fl), h.first[ch + 1])
    {
      hide Heap.Tiled;
      hide Sliding;
      hide Succeeds;
      hide Colored;
      h.WalkStart(ch);
      ghost var k := h.first[ch];
      var x := chunks[ch].start;
      var chend := x + chunks[ch].size;
      while x < chend
        invariant h.first[ch] <= k <= h.first[ch + 1] <= |h.blks|
        invariant if k < h.first[ch + 1] then x == h.blks[k].hp < chend else x == chend
        invariant Sliding(h, kept, m0, mem[..], Place(alloc, fl), k)
        decreases chend - x
      {
        h.WalkStep(ch, k);
        x := SlideBlock(x, h, kept, m0, k);
        k := k + 1;
      }
    }

    method SlideBlock(x: nat, ghost h: Heap, ghost kept: seq<bool>, ghost m0: seq<Word>, ghost k: nat)
      returns (next: nat)
      requires h.Tiled() && h.chunks == chunks && |kept| == |h.blks| && |chunks| > 0
      requires k < |h.blks| && x == h.blks[k].hp
      requires Colored(h, kept, m0) && Succeeds(h, kept)
      requires Sliding(h, kept, m0, mem[..], Place(alloc, fl), k)
      modifies mem, this`alloc, this`fl
      ensures Sliding(h, kept, m0, mem[..], Place(alloc, fl), k + 1)
      ensures next == h.blks[k].End()
    {
      hide Heap.Tiled;
      hide Sliding;
      hide Succeeds;
      hide Colored;
      hide Allocate;
      hide PlaceAll;
      hide NewHp;
      hide Copied;
      SlidingFacts(h, kept, m0, mem[..], Place(alloc, fl), k);
      var q := mem[x];
      var sz := q.wosize + 1;
      if q.color == White {
        ghost var st, m := Place(alloc, fl), mem[..];
        SlidingPlace(h, kept, m0, m, st, k);
        var ok, newadr := CompactAllocate(sz, h);
        ghost var st' := Place(alloc, fl);
        Memmove(newadr, x, sz);
        SlidingKeep(h, kept, m0, m, mem[..], st, st', k);
      } else {
        SlidingSkip(h, kept, m0, mem[..], Place(alloc, fl), k);
      }
      next := x + sz;
    }

    // The heap and the roots are as the four passes need them: the chunks are tiled by blocks with white
    // or blue headers, root locations are outside the heap and met once, and every pointer into the heap
    // in a root or a field that is scanned points to a white block or an infix header in one.
    // The weak arrays are those on the list, which ends.
    ghost predicate Ready(h: Heap, w: WeakList)
      reads mem
    {
      && h.chunks == chunks && h.Tiled() && Describes(h, mem[..])
      && (forall r :: r in roots ==> !h.InHeap(r))
      && w.head == weakHead && w.none == weakNone && WeakOk(h, mem[..], w)
      && PlanFor(h, mem[..], roots, Weak(h, mem[..], w)).Valid()
    }

    // The whole compaction.  Not ok: compact_allocate read past the last chunk.
    method CompactHeap(ghost h: Heap, ghost w: WeakList) returns (ok: bool)
      requires Ready(h, w)
      modifies mem, this`alloc, this`fl
      ensures |chunks| > 0 && Describes(h, old(mem[..]))
      ensures var weak := Weak(h, old(mem[..]), w);
        var p := PlanFor(h, old(mem[..]), roots, weak);
        && (ok <==> Succeeds(h, Kept(p)))
        && ((forall k :: 0 <= k < |h.blks| && Kept(p)[k] ==> !AtEnd(h, k)) ==> ok)
        && (ok ==> Compacted(p, old(mem[..]), mem[..], roots, weak))
        && (ok ==> PlaceAll(h, Kept(p), |h.blks|) == Some(Place(alloc, fl)))
    {
      hide Heap.Tiled;
      hide Plan.Valid;
      hide Describes;
      hide Succeeds;
      hide Compacted;
      hide RevertedUpTo;
      hide Slid;
      hide PlaceAll;
      hide AtEnd;
      hide Plan.Threaded;
      hide WeakOk;
      hide Weak;
      hide InWeak;
      ghost var m0 := mem[..];
      ghost var weak := Weak(h, m0, w);
      ghost var p := PlanFor(h, m0, roots, weak);
      h.TiledNonempty();
      ValidInBase(p);
      ClearEnd(h, Kept(p));
      WeakPlanned(h, m0, w, roots);
      EncodeHeaders(h);
      ThreadedStart(p);
      InvertAll(p, w);
      ok := RevertAll(p);
      if !ok { return; }
      ghost var m3 := mem[..];
      RevertedLength(p, m3);
      ColoredAfter(p, m3);
      SlideAll(h, Kept(p));
      AllCompacted(p, m0, m3, mem[..], roots, weak);
    }
  }

  // ---- The weak arrays ----

  // What pass 2 inverts for them.
  ghost function Weak(h: Heap, m: seq<Word>, w: WeakList): seq<nat> {
    WeakSlots(h, m, w, |w.arrays|)
  }

  lemma ListStart(p: Plan, w: WeakList, i0: nat)
    requires InWeak(p, w, i0)
    ensures Loc(p.heap, w, 0) == w.head && WeakSlots(p.heap, p.base, w, 0) == [] && i0 <= |p.slots|
  {
  }

  lemma ListNext(h: Heap, w: WeakList, n: nat, v: Word)
    requires LinkWord(h, w, n, v) && v != Ptr(0)
    ensures n < |w.arrays| && w.arrays[n] < |h.blks| && IsArray(h, w.arrays[n])
    ensures v == Ptr(h.blks[w.arrays[n]].hp + 1) && Loc(h, w, n + 1) == h.blks[w.arrays[n]].hp + 1
  {
  }

  lemma ListEnd(p: Plan, w: WeakList, i0: nat, n: nat, v: Word)
    requires InWeak(p, w, i0) && n <= |w.arrays| && LinkWord(p.heap, w, n, v) && v == Ptr(0)
    ensures i0 + |WeakSlots(p.heap, p.base, w, n)| == |p.slots|
  {
    hide WeakSlots;
  }

  lemma BeforeFirst(p: Plan, w: WeakList, i0: nat, n: nat)
    requires n < |w.arrays| && IsArray(p.heap, w.arrays[n]) && p.heap.blks[w.arrays[n]].End() <= |p.base|
    ensures Before(p, w, i0, n, 1) == i0 + |WeakSlots(p.heap, p.base, w, n)|
  {
    hide WeakSlots;
  }

  // Pass 1 changes nothing of the list.
  lemma LinkEncoded(h: Heap, m: seq<Word>, w: WeakList, j: nat)
    requires h.Tiled() && Describes(h, m) && WeakOk(h, m, w) && j <= |w.arrays|
    ensures LinkOk(h, Encoded(h, m, |h.blks|), w, j)
  {
    hide Heap.Tiled;
    hide Encoded;
    hide Describes;
    assert LinkOk(h, m, w, j);
    TiledApart(h);
    EncodedLength(h, m);
    if j == 0 {
      EncodedOutside(h, m, w.head);
    } else {
      var i: nat := j - 1;
      assert LinkOk(h, m, w, i);
      EncodedField(h, m, w.arrays[i], Loc(h, w, j));
    }
  }

  lemma TiledApart(h: Heap)
    requires h.Tiled()
    ensures h.Apart()
  {
  }

  lemma EncodedLength(h: Heap, m: seq<Word>)
    requires Describes(h, m)
    ensures |Encoded(h, m, |h.blks|)| == |m| && forall k :: 0 <= k < |h.blks| ==> h.blks[k].End() <= |m|
  {
  }

  lemma {:induction false} FullSame(m: seq<Word>, e: seq<Word>, none: Word, lo: nat, hi: nat)
    requires hi <= |m| == |e| && forall x :: lo <= x < hi ==> e[x] == m[x]
    ensures FullFields(e, none, lo, hi) == FullFields(m, none, lo, hi)
    decreases hi
  {
    if lo < hi { FullSame(m, e, none, lo, hi - 1); }
  }

  lemma {:induction false} WeakSame(h: Heap, m: seq<Word>, w: WeakList, n: nat)
    requires h.Apart() && Describes(h, m) && n <= |w.arrays|
    ensures WeakSlots(h, Encoded(h, m, |h.blks|), w, n) == WeakSlots(h, m, w, n)
  {
    hide Encoded;
    hide Describes;
    EncodedLength(h, m);
    if n > 0 && w.arrays[n - 1] < |h.blks| {
      var k := w.arrays[n - 1];
      WeakSame(h, m, w, n - 1);
      forall x | h.blks[k].hp + 2 <= x < h.blks[k].End() ensures Encoded(h, m, |h.blks|)[x] == m[x] {
        EncodedField(h, m, k, x);
      }
      FullSame(m, Encoded(h, m, |h.blks|), w.none, h.blks[k].hp + 2, h.blks[k].End());
    }
  }

  lemma WeakPlanned(h: Heap, m: seq<Word>, w: WeakList, roots: seq<nat>)
    requires h.Tiled() && Describes(h, m) && WeakOk(h, m, w)
    ensures var p := PlanFor(h, m, roots, Weak(h, m, w));
      InOrder(p, roots) && WeakOk(h, p.base, w) && InWeak(p, w, |roots| + |Fields(h, |h.blks|)|)
  {
    hide Heap.Tiled;
    hide Encoded;
    hide Describes;
    hide WeakSlots;
    hide Fields;
    TiledApart(h);
    var e := Encoded(h, m, |h.blks|);
    forall j: nat | j <= |w.arrays| ensures LinkOk(h, e, w, j) { LinkEncoded(h, m, w, j); }
    WeakSame(h, m, w, |w.arrays|);
  }

  // The slots begin with the roots and, after them, the scanned fields.
  ghost predicate InOrder(p: Plan, roots: seq<nat>) {
    roots + Fields(p.heap, |p.heap.blks|) <= p.slots
  }

  // The roots and the fields of the first k blocks have been inverted.
  ghost predicate FieldsDone(p: Plan, roots: seq<nat>, m: seq<Word>, k: nat) {
    && p.InBase() && k <= |p.heap.blks|
    && |roots| + |Fields(p.heap, k)| <= |p.slots|
    && p.Threaded(m, |roots| + |Fields(p.heap, k)|)
  }

  lemma FieldsDoneFacts(p: Plan, roots: seq<nat>, m: seq<Word>, k: nat)
    requires FieldsDone(p, roots, m, k) && k < |p.heap.blks|
    ensures p.InBase() && |roots| + |Fields(p.heap, k)| <= |p.slots|
    ensures p.Threaded(m, |roots| + |Fields(p.heap, k)|)
    ensures Intact(p, m, |roots| + |Fields(p.heap, k)|, k)
  {
    ThreadedIntact(p, m, |roots| + |Fields(p.heap, k)|, k);
  }

  lemma FieldsDoneNext(p: Plan, roots: seq<nat>, m: seq<Word>, k: nat)
    requires p.InBase() && k < |p.heap.blks| && |roots| + |Fields(p.heap, k + 1)| <= |p.slots|
    requires p.Threaded(m, |roots| + |Fields(p.heap, k + 1)|)
    ensures FieldsDone(p, roots, m, k + 1)
  {
  }

  lemma SlotOfField(p: Plan, roots: seq<nat>, k: nat, i: nat)
    requires InOrder(p, roots) && k < |p.heap.blks|
    requires p.heap.blks[k].Scanned() && 1 <= i <= p.heap.blks[k].wosize
    ensures |roots| + |Fields(p.heap, k)| + i - 1 < |p.slots|
    ensures p.slots[|roots| + |Fields(p.heap, k)| + i - 1] == p.heap.blks[k].hp + i
  {
    FieldAt(p.heap, k, |p.heap.blks|, i);
  }

  lemma ScannedTag(b: Blk)
    ensures b.Scanned() <==> b.EncodedTag() < NO_SCAN_TAG
  {
  }

  lemma AllFieldsDone(p: Plan, roots: seq<nat>, m: seq<Word>)
    requires InOrder(p, roots) && FieldsDone(p, roots, m, |p.heap.blks|)
    ensures p.InBase() && |roots| + |Fields(p.heap, |p.heap.blks|)| <= |p.slots|
    ensures p.Threaded(m, |roots| + |Fields(p.heap, |p.heap.blks|)|)
  {
  }

  lemma NextFields(p: Plan, roots: seq<nat>, k: nat)
    requires InOrder(p, roots) && k < |p.heap.blks|
    ensures |roots| + |Fields(p.heap, k + 1)| <= |p.slots|
    ensures |Fields(p.heap, k + 1)| ==
            |Fields(p.heap, k)| + if p.heap.blks[k].Scanned() then p.heap.blks[k].wosize else 0
  {
    FieldsGrow(p.heap, k + 1, |p.heap.blks|);
  }

  // The end of a header chain is an encoded header, and its tag tells whether infix chains are running.
  lemma EndWordCases(p: Plan, i: nat, k: nat)
    requires p.Valid() && i <= |p.slots| && k < |p.heap.blks|
    ensures p.EndWord(i, k).Ehd?
    ensures p.EndWord(i, k).tag ==
            if p.Top(i, k) > p.heap.blks[k].hp then INFIX_TAG else p.heap.blks[k].EncodedTag()
    ensures p.heap.blks[k].EncodedTag() != INFIX_TAG
  {
  }

  lemma StartsHere(p: Plan, i: nat, x: nat)
    requires p.Valid() && i < |p.slots| && p.IsInfix(x) && p.Tgt(p.slots[i]) == x && p.Last(i, x) == -1
    ensures var k := p.heap.BlockAt(x);
      && k >= 0 && Starts(p, i, k) && p.heap.blks[k].EncodedTag() == CLOSURE_TAG
      && p.base[x] == Hdr(x - p.heap.blks[k].hp, INFIX_TAG, White)
      && p.InBase()
  {
  }

  lemma BaseHeader(p: Plan, k: nat)
    requires p.Valid() && k < |p.heap.blks|
    ensures p.base[p.heap.blks[k].hp] == Ehd(p.heap.blks[k].wosize, p.heap.blks[k].EncodedTag())
    ensures p.heap.blks[k].EncodedTag() != INFIX_TAG
  {
  }

  lemma IntactEnd(p: Plan, m: seq<Word>, i: nat, k: nat, e: nat)
    requires p.Valid() && i <= |p.slots| && k < |p.heap.blks| && Intact(p, m, i, k) && ChainEnd(p, i, k, e)
    ensures e < |m| && m[e] == p.EndWord(i, k)
  {
    var hp := p.heap.blks[k].hp;
    HeaderStart(p, m, i, k);
    if p.Last(i, hp) != -1 {
      p.heap.BlockAtIs(hp, k);
      var j :| 0 <= j < i && p.slots[j] == e && p.Tgt(e) == hp && p.Last(j, hp) == -1;
      assert p.SlotHolds(m, i, j);
    }
  }

  lemma HeaderRevertStart(p: Plan, addr: seq<nat>, m: seq<Word>, k: nat)
    requires p.Valid() && k < |p.heap.blks| == |addr| && RevertedUpTo(p, addr, m, k)
    ensures p.InBase() && p.heap.blks[k].hp < |m|
    ensures m[p.heap.blks[k].hp] == HeaderWord(p, |p.slots|, k, |p.slots|)
    ensures SlotsInto(p, k) + SlotsTo(p, p.heap.blks[k].hp, |p.slots|) == SlotsInto(p, k)
    ensures p.EndWord(|p.slots|, k).Ehd?
  {
    RevertedIntact(p, addr, m, k);
    HeaderStart(p, m, |p.slots|, k);
    assert SlotsTo(p, p.heap.blks[k].hp, |p.slots|) == {};
    EndWordCases(p, |p.slots|, k);
  }

  lemma HeaderRevertStep(p: Plan, addr: seq<nat>, m: seq<Word>, k: nat, j: nat) returns (l: nat)
    requires p.Valid() && p.InBase() && j <= |p.slots| && k < |p.heap.blks| == |addr|
    requires Reverted(p, addr, m, SlotsInto(p, k) + SlotsTo(p, p.heap.blks[k].hp, j), WordsOf(p, k))
    requires p.Last(j, p.heap.blks[k].hp) >= 0
    ensures l < j && p.slots[l] == p.Last(j, p.heap.blks[k].hp) < |m|
    ensures m[p.slots[l]] == HeaderWord(p, |p.slots|, k, l)
    ensures Reverted(p, addr, m[p.slots[l] := Ptr(addr[k] + 1)],
                     SlotsInto(p, k) + SlotsTo(p, p.heap.blks[k].hp, l), WordsOf(p, k))
  {
    hide Plan.Valid;
    hide Reverted;
    hide SlotsInto;
    hide SlotsTo;
    hide WordsOf;
    hide Plan.SlotWord;
    var hp := p.heap.blks[k].hp;
    var done := SlotsInto(p, k) + SlotsTo(p, hp, j);
    l := HeaderNext(p, |p.slots|, k, j);
    SlotsToStep(p, hp, j, l);
    NotInto(p, k, l);
    StillHolds(p, addr, m, done, WordsOf(p, k), l);
    RevertSlot(p, addr, m, done, WordsOf(p, k), l);
    assert done + {l} == SlotsInto(p, k) + SlotsTo(p, hp, l);
  }

  // A slot that points into block k is not among those that point into earlier blocks.
  lemma NotInto(p: Plan, k: nat, l: nat)
    requires l < |p.slots| && p.Tgt(p.slots[l]) >= 0 && k <= p.heap.BlockAt(p.Tgt(p.slots[l]))
    ensures l !in SlotsInto(p, k)
  {
  }

  lemma InfixStateBound(p: Plan, addr: seq<nat>, m: seq<Word>, k: nat, a: nat)
    requires p.InBase() && k < |p.heap.blks| == |addr| && InfixState(p, addr, m, k, a)
    ensures a <= |p.slots| && |m| == |p.base|
  {
  }

  // Pass 3 has dealt with the first k blocks.
  ghost predicate Progress(p: Plan, m: seq<Word>, st: Place, k: nat) {
    && |p.heap.chunks| > 0 && p.InBase() && k <= |p.heap.blks|
    && RevertedUpTo(p, NewHps(p), m, k)
    && PlaceAll(p.heap, Kept(p), k) == Some(st)
  }

  lemma ProgressStart(p: Plan, m: seq<Word>, st: Place)
    requires |p.heap.chunks| > 0 && p.Valid() && p.InBase() && p.Threaded(m, |p.slots|) && st == Initial(p.heap)
    ensures Progress(p, m, st, 0)
  {
    RevertedStart(p, NewHps(p), m);
  }

  lemma ProgressEnd(p: Plan, m: seq<Word>, st: Place)
    requires Progress(p, m, st, |p.heap.blks|)
    ensures p.InBase() && |p.heap.chunks| > 0
    ensures Succeeds(p.heap, Kept(p)) && RevertedUpTo(p, NewHps(p), m, |p.heap.blks|)
  {
  }

  lemma ProgressFacts(p: Plan, m: seq<Word>, st: Place, k: nat)
    requires Progress(p, m, st, k)
    ensures p.InBase() && |p.heap.chunks| > 0 && k <= |p.heap.blks| && |m| == |p.base|
    ensures RevertedUpTo(p, NewHps(p), m, k) && PlaceAll(p.heap, Kept(p), k) == Some(st)
    ensures |st.alloc| == |p.heap.chunks| && st.fl < |p.heap.chunks|
  {
  }

  lemma ProgressNext(p: Plan, m: seq<Word>, st: Place, k: nat)
    requires |p.heap.chunks| > 0 && p.InBase() && k < |p.heap.blks|
    requires RevertedUpTo(p, NewHps(p), m, k + 1)
    requires PlaceAll(p.heap, Kept(p), k + 1) == Some(st)
    ensures Progress(p, m, st, k + 1)
  {
  }

  // The address reserved in pass 3 is the one the plan gives block k.
  lemma PlacedNext(p: Plan, k: nat, st: Place)
    requires |p.heap.chunks| > 0 && k < |p.heap.blks| && Live(p, k)
    requires PlaceAll(p.heap, Kept(p), k) == Some(st)
    ensures var r := Allocate(p.heap, st, p.heap.blks[k].wosize + 1);
            if r.Some? then PlaceAll(p.heap, Kept(p), k + 1) == Some(r.value.0) && NewHps(p)[k] == r.value.1
            else !Succeeds(p.heap, Kept(p))
  {
    hide Allocate;
    hide Live;
    KeptIs(p, k);
    hide Kept;
    if Succeeds(p.heap, Kept(p)) { SucceedsPrefix(p.heap, Kept(p), k + 1, |p.heap.blks|); }
  }

  lemma KeptIs(p: Plan, k: nat)
    requires k < |p.heap.blks|
    ensures |Kept(p)| == |p.heap.blks| && (Kept(p)[k] <==> Live(p, k))
  {
  }

  lemma DeadNext(p: Plan, k: nat)
    requires |p.heap.chunks| > 0 && k < |p.heap.blks| && !Live(p, k)
    requires PlaceAll(p.heap, Kept(p), k).Some?
    ensures PlaceAll(p.heap, Kept(p), k + 1) == PlaceAll(p.heap, Kept(p), k)
  {
  }

  lemma TopPositive(p: Plan, i: nat, k: nat)
    requires i <= |p.slots| && k < |p.heap.blks|
    ensures p.Top(i, k) == -1 || p.Top(i, k) > p.heap.blks[k].hp
  {
    var act := TopIndex(p, i, k);
  }

  lemma DecodeHeader(p: Plan, addr: seq<nat>, m: seq<Word>, k: nat)
    requires p.Valid() && p.InBase() && k < |p.heap.blks| == |addr|
    requires Reverted(p, addr, m, SlotsInto(p, k) + SlotsTo(p, p.heap.blks[k].hp, 0), WordsOf(p, k))
    ensures var b := p.heap.blks[k];
      && b.hp < |m|
      && InfixState(p, addr, m[b.hp := Hdr(b.wosize, b.EncodedTag(), if Live(p, k) then White else Blue)], k, |p.slots|)
  {
    var b := p.heap.blks[k];
    p.heap.BlockAtIs(b.hp, k);
    DecodeNode(p, addr, m, SlotsInto(p, k) + SlotsTo(p, b.hp, 0), WordsOf(p, k), b.hp);
    InfixStateStart(p, addr, m[b.hp := DecodedWord(p, b.hp)], k);
  }

  // ---- The result ----

  // A slot that is not a root is a field of a scanned block.
  lemma {:induction false} FieldIn(h: Heap, k: nat, i: nat) returns (b: nat)
    requires k <= |h.blks| && i < |Fields(h, k)|
    ensures b < k && h.blks[b].Scanned() && h.blks[b].hp < Fields(h, k)[i] < h.blks[b].End()
  {
    if i < |Fields(h, k - 1)| {
      b := FieldIn(h, k - 1, i);
    } else {
      b := k - 1;
    }
  }

  // A field of a block that is not scanned is not a slot.
  lemma UnscannedNotSlot(p: Plan, roots: seq<nat>, weak: seq<nat>, k: nat, x: nat)
    requires p.Valid() && p.slots == roots + Fields(p.heap, |p.heap.blks|) + weak && x !in weak
    requires k < |p.heap.blks| && !p.heap.blks[k].Scanned()
    requires forall r :: r in roots ==> !p.heap.InHeap(r)
    requires p.heap.blks[k].hp < x < p.heap.blks[k].End() && p.heap.InHeap(x)
    ensures !p.Inverted(|p.slots|, x)
  {
    hide Plan.Valid;
    hide Fields;
    ValidInBase(p);
    forall j | 0 <= j < |p.slots| ensures p.slots[j] != x {
      if j < |roots| {
        assert p.slots[j] == roots[j] && roots[j] in roots;
      } else if j >= |roots| + |Fields(p.heap, |p.heap.blks|)| {
        assert p.slots[j] in weak;
      } else {
        var b := FieldIn(p.heap, |p.heap.blks|, j - |roots|);
        OtherBlock(p.heap, b, k, p.slots[j], x);
      }
    }
  }

  lemma OtherBlock(h: Heap, b: nat, k: nat, y: nat, x: nat)
    requires h.Apart() && b < |h.blks| && k < |h.blks| && h.blks[b].Scanned() && !h.blks[k].Scanned()
    requires h.blks[b].hp < y < h.blks[b].End() && h.blks[k].hp < x < h.blks[k].End()
    ensures y != x
  {
    if b < k { assert h.blks[b].End() <= h.blks[k].hp; } else { assert h.blks[k].End() <= h.blks[b].hp; }
  }

  // Pass 1 changes headers only.
  lemma EncodedField(h: Heap, m: seq<Word>, k: nat, x: nat)
    requires h.Apart() && Describes(h, m) && k < |h.blks| && h.blks[k].hp < x < h.blks[k].End()
    ensures x < |m| && Encoded(h, m, |h.blks|)[x] == m[x]
  {
    h.BlockAtIs(x, k);
  }

  lemma EncodedOutside(h: Heap, m: seq<Word>, x: nat)
    requires h.Tiled() && Describes(h, m) && x < |m| && !h.InHeap(x)
    ensures Encoded(h, m, |h.blks|)[x] == m[x]
  {
    var b := h.BlockAt(x);
    if b >= 0 { InChunk(h, b, x); }
  }

  lemma InChunk(h: Heap, k: nat, x: nat)
    requires h.Tiled() && k < |h.blks| && h.blks[k].hp <= x < h.blks[k].End()
    ensures h.InHeap(x)
  {
    var c := h.blks[k].ch;
    assert h.chunks[c].start <= x < h.Limit(c);
  }

  // A field of a block after pass 3.
  lemma FieldAfter(p: Plan, m0: seq<Word>, m: seq<Word>, roots: seq<nat>, weak: seq<nat>, k: nat, i: nat)
    requires p.heap.Tiled() && p.Valid() && p.InBase() && |p.heap.chunks| > 0
    requires Describes(p.heap, m0) && p == PlanFor(p.heap, m0, roots, weak)
    requires forall r :: r in roots ==> !p.heap.InHeap(r)
    requires RevertedUpTo(p, NewHps(p), m, |p.heap.blks|)
    requires k < |p.heap.blks| && 1 <= i <= p.heap.blks[k].wosize
    ensures |m| == |m0| && p.heap.blks[k].hp + i < |m|
    ensures var w := m0[p.heap.blks[k].hp + i];
            m[p.heap.blks[k].hp + i] ==
            if IsSlot(p.heap, weak, k, p.heap.blks[k].hp + i) then Forward(p.heap, Kept(p), w) else w
  {
    hide Heap.Tiled;
    hide Plan.Valid;
    hide RevertedUpTo;
    hide Kept;
    hide NewHps;
    hide Forward;
    if p.heap.blks[k].Scanned() {
      ScannedFieldAfter(p, m0, m, roots, weak, k, i);
    } else if p.heap.blks[k].hp + i in weak {
      WeakFieldAfter(p, m0, m, roots, weak, k, i);
    } else {
      PlainFieldAfter(p, m0, m, roots, weak, k, i);
    }
  }

  lemma ScannedFieldAfter(p: Plan, m0: seq<Word>, m: seq<Word>, roots: seq<nat>, weak: seq<nat>, k: nat, i: nat)
    requires p.heap.Tiled() && p.Valid() && p.InBase() && |p.heap.chunks| > 0
    requires Describes(p.heap, m0) && p == PlanFor(p.heap, m0, roots, weak)
    requires RevertedUpTo(p, NewHps(p), m, |p.heap.blks|)
    requires k < |p.heap.blks| && 1 <= i <= p.heap.blks[k].wosize && p.heap.blks[k].Scanned()
    ensures |m| == |m0| && p.heap.blks[k].hp + i < |m|
    ensures m[p.heap.blks[k].hp + i] == Forward(p.heap, Kept(p), m0[p.heap.blks[k].hp + i])
  {
    hide Heap.Tiled;
    hide Plan.Valid;
    hide RevertedUpTo;
    hide Kept;
    hide NewHps;
    hide Forward;
    ValidInBase(p);
    EncodedField(p.heap, m0, k, p.heap.blks[k].hp + i);
    SlotOfField(p, roots, k, i);
    SlotAfter(p, m, |roots| + |Fields(p.heap, k)| + i - 1);
  }

  lemma WeakFieldAfter(p: Plan, m0: seq<Word>, m: seq<Word>, roots: seq<nat>, weak: seq<nat>, k: nat, i: nat)
    requires p.heap.Tiled() && p.Valid() && p.InBase() && |p.heap.chunks| > 0
    requires Describes(p.heap, m0) && p == PlanFor(p.heap, m0, roots, weak)
    requires RevertedUpTo(p, NewHps(p), m, |p.heap.blks|)
    requires k < |p.heap.blks| && 1 <= i <= p.heap.blks[k].wosize && p.heap.blks[k].hp + i in weak
    ensures |m| == |m0| && p.heap.blks[k].hp + i < |m|
    ensures m[p.heap.blks[k].hp + i] == Forward(p.heap, Kept(p), m0[p.heap.blks[k].hp + i])
  {
    hide Heap.Tiled;
    hide Plan.Valid;
    hide RevertedUpTo;
    hide Kept;
    hide NewHps;
    hide Forward;
    hide Fields;
    ValidInBase(p);
    EncodedField(p.heap, m0, k, p.heap.blks[k].hp + i);
    var j :| 0 <= j < |weak| && weak[j] == p.heap.blks[k].hp + i;
    var n := |roots| + |Fields(p.heap, |p.heap.blks|)| + j;
    assert p.slots[n] == weak[j];
    SlotAfter(p, m, n);
  }

  lemma PlainFieldAfter(p: Plan, m0: seq<Word>, m: seq<Word>, roots: seq<nat>, weak: seq<nat>, k: nat, i: nat)
    requires p.heap.Tiled() && p.Valid() && p.InBase() && |p.heap.chunks| > 0
    requires Describes(p.heap, m0) && p == PlanFor(p.heap, m0, roots, weak)
    requires forall r :: r in roots ==> !p.heap.InHeap(r)
    requires RevertedUpTo(p, NewHps(p), m, |p.heap.blks|)
    requires k < |p.heap.blks| && 1 <= i <= p.heap.blks[k].wosize && !p.heap.blks[k].Scanned()
    requires p.heap.blks[k].hp + i !in weak
    ensures |m| == |m0| && p.heap.blks[k].hp + i < |m|
    ensures m[p.heap.blks[k].hp + i] == m0[p.heap.blks[k].hp + i]
  {
    hide Heap.Tiled;
    hide Plan.Valid;
    hide RevertedUpTo;
    hide NewHps;
    var x := p.heap.blks[k].hp + i;
    ValidInBase(p);
    EncodedField(p.heap, m0, k, x);
    InChunk(p.heap, k, x);
    UnscannedNotSlot(p, roots, weak, k, x);
    NotHeader(p, k, x);
    PlainAfter(p, m, x);
  }

  lemma NotHeader(p: Plan, k: nat, x: nat)
    requires p.heap.Apart() && k < |p.heap.blks| && p.heap.blks[k].hp < x < p.heap.blks[k].End()
    ensures !p.IsHeader(x)
  {
    p.heap.BlockAtIs(x, k);
  }

  lemma CopyAfter(p: Plan, m0: seq<Word>, m3: seq<Word>, m: seq<Word>, roots: seq<nat>, weak: seq<nat>, k: nat)
    requires p.heap.Tiled() && p.Valid() && p.InBase() && |p.heap.chunks| > 0
    requires Describes(p.heap, m0) && p == PlanFor(p.heap, m0, roots, weak)
    requires forall r :: r in roots ==> !p.heap.InHeap(r)
    requires RevertedUpTo(p, NewHps(p), m3, |p.heap.blks|)
    requires k < |p.heap.blks| && Live(p, k)
    requires Moved(p.heap, Kept(p), m3, m, k)
    ensures CopyOf(p.heap, Kept(p), weak, m0, m, k)
  {
    hide Heap.Tiled;
    hide Plan.Valid;
    hide RevertedUpTo;
    hide Live;
    hide NewHp;
    hide PlaceAll;
    hide Forward;
    hide PlanFor;
    var b, to := p.heap.blks[k], NewHp(p.heap, Kept(p), k);
    HeaderAfter(p, m3, k);
    LiveNotFree(p, k);
    assert m[to] == m3[b.hp + (to - to)];
    forall y | to < y <= to + b.wosize
      ensures var w := m0[b.hp + (y - to)];
              m[y] == if IsSlot(p.heap, weak, k, b.hp + (y - to)) then Forward(p.heap, Kept(p), w) else w
    {
      FieldAfter(p, m0, m3, roots, weak, k, y - to);
    }
  }

  lemma RootAfter(p: Plan, m0: seq<Word>, m3: seq<Word>, m: seq<Word>, roots: seq<nat>, weak: seq<nat>, i: nat)
    requires p.heap.Tiled() && p.Valid() && p.InBase() && |p.heap.chunks| > 0
    requires Describes(p.heap, m0) && p == PlanFor(p.heap, m0, roots, weak)
    requires forall r :: r in roots ==> !p.heap.InHeap(r)
    requires RevertedUpTo(p, NewHps(p), m3, |p.heap.blks|)
    requires Slid(p.heap, Kept(p), m3, m, |p.heap.blks|)
    requires i < |roots|
    ensures roots[i] < |m| == |m0| && m[roots[i]] == Forward(p.heap, Kept(p), m0[roots[i]])
  {
    hide Heap.Tiled;
    hide Plan.Valid;
    hide RevertedUpTo;
    hide Kept;
    hide NewHps;
    hide Forward;
    hide Moved;
    assert p.slots[i] == roots[i];
    SlotAfter(p, m3, i);
    EncodedOutside(p.heap, m0, roots[i]);
    assert Same(p.heap, m3, m, |p.heap.blks|, roots[i]);
  }

  lemma AllCompacted(p: Plan, m0: seq<Word>, m3: seq<Word>, m: seq<Word>, roots: seq<nat>, weak: seq<nat>)
    requires p.heap.Tiled() && p.Valid() && p.InBase() && |p.heap.chunks| > 0
    requires Describes(p.heap, m0) && p == PlanFor(p.heap, m0, roots, weak)
    requires forall r :: r in roots ==> !p.heap.InHeap(r)
    requires RevertedUpTo(p, NewHps(p), m3, |p.heap.blks|)
    requires Slid(p.heap, Kept(p), m3, m, |p.heap.blks|)
    requires |m3| == |m0|
    ensures Compacted(p, m0, m, roots, weak)
  {
    hide Heap.Tiled;
    hide Plan.Valid;
    hide RevertedUpTo;
    hide NewHps;
    hide Live;
    hide Moved;
    hide CopyOf;
    hide Same;
    hide Forward;
    hide PlanFor;
    forall k | 0 <= k < |p.heap.blks| && Live(p, k) ensures CopyOf(p.heap, Kept(p), weak, m0, m, k) {
      assert Moved(p.heap, Kept(p), m3, m, k);
      CopyAfter(p, m0, m3, m, roots, weak, k);
    }
    forall i | 0 <= i < |roots|
      ensures roots[i] < |m0| && m[roots[i]] == Forward(p.heap, Kept(p), m0[roots[i]])
    {
      RootAfter(p, m0, m3, m, roots, weak, i);
    }
    forall x | x in weak && !p.heap.InHeap(x)
      ensures x < |m0| && m[x] == Forward(p.heap, Kept(p), m0[x])
    {
      WeakRootAfter(p, m0, m3, m, roots, weak, x);
    }
  }

  // A slot of the weak arrays out of the heap: the head of their list.
  lemma WeakRootAfter(p: Plan, m0: seq<Word>, m3: seq<Word>, m: seq<Word>, roots: seq<nat>, weak: seq<nat>, x: nat)
    requires p.heap.Tiled() && p.Valid() && p.InBase() && |p.heap.chunks| > 0
    requires Describes(p.heap, m0) && p == PlanFor(p.heap, m0, roots, weak)
    requires RevertedUpTo(p, NewHps(p), m3, |p.heap.blks|)
    requires Slid(p.heap, Kept(p), m3, m, |p.heap.blks|)
    requires x in weak && !p.heap.InHeap(x)
    ensures x < |m| == |m0| && m[x] == Forward(p.heap, Kept(p), m0[x])
  {
    hide Heap.Tiled;
    hide Plan.Valid;
    hide RevertedUpTo;
    hide Kept;
    hide NewHps;
    hide Forward;
    hide Moved;
    hide Fields;
    var j :| 0 <= j < |weak| && weak[j] == x;
    var n := |roots| + |Fields(p.heap, |p.heap.blks|)| + j;
    assert p.slots[n] == x;
    SlotAfter(p, m3, n);
    EncodedOutside(p.heap, m0, x);
    assert Same(p.heap, m3, m, |p.heap.blks|, x);
  }

  lemma RevertedLength(p: Plan, m: seq<Word>)
    requires p.InBase() && |p.heap.chunks| > 0 && RevertedUpTo(p, NewHps(p), m, |p.heap.blks|)
    ensures |m| == |p.base|
  {
  }
}
