// What compaction means for the program: the graph seen from the roots is the same.
module CompactGraph {
  import opened Header
  import opened CompactHeap
  import opened CompactThread
  import opened CompactPlace
  import opened CompactSlide

  // Which blocks are kept, and where they go.
  ghost function Kept(p: Plan): seq<bool> {
    seq(|p.heap.blks|, k requires 0 <= k => Live(p, k))
  }

  ghost function NewHps(p: Plan): seq<nat>
    requires |p.heap.chunks| > 0
  {
    seq(|p.heap.blks|, k requires 0 <= k < |p.heap.blks| => NewHp(p.heap, Kept(p), k))
  }

  // A pointer into a block, header or middle, keeps its distance from the start of the block.
  ghost function Forward(h: Heap, kept: seq<bool>, w: Word): Word
    requires |kept| == |h.blks| && |h.chunks| > 0
  {
    if w.Ptr? && h.InHeap(w.a) && w.a > 0 then
      var k := h.BlockAt(w.a - 1);
      if k >= 0 then Ptr(NewHp(h, kept, k) + (w.a - h.blks[k].hp)) else w
    else w
  }

  // The word at x, in block k, is a pointer or an integer: a field that is scanned, or one of a weak array.
  predicate IsSlot(h: Heap, weak: seq<nat>, k: nat, x: nat)
    requires k < |h.blks|
  {
    h.blks[k].Scanned() || x in weak
  }

  // Block k of m0 is in m, at its new address: same size and tag, and its fields point to the new
  // addresses of what they pointed to.
  ghost predicate CopyOf(h: Heap, kept: seq<bool>, weak: seq<nat>, m0: seq<Word>, m: seq<Word>, k: nat)
    requires |kept| == |h.blks| && k < |kept| && |h.chunks| > 0
  {
    var b, to := h.blks[k], NewHp(h, kept, k);
    && b.End() <= |m0| && to + b.wosize + 1 <= |m|
    && m[to] == Hdr(b.wosize, b.tag, White)
    && forall y :: to < y <= to + b.wosize ==>
         var w := m0[b.hp + (y - to)];
         m[y] == if IsSlot(h, weak, k, b.hp + (y - to)) then Forward(h, kept, w) else w
  }

  ghost predicate Compacted(p: Plan, m0: seq<Word>, m: seq<Word>, roots: seq<nat>, weak: seq<nat>) {
    && |p.heap.chunks| > 0 && |m| == |m0|
    && (forall k :: 0 <= k < |p.heap.blks| && Live(p, k) ==> CopyOf(p.heap, Kept(p), weak, m0, m, k))
    && (forall i :: 0 <= i < |roots| ==>
          roots[i] < |m0| && m[roots[i]] == Forward(p.heap, Kept(p), m0[roots[i]]))
    && (forall x :: x in weak && !p.heap.InHeap(x) ==> x < |m0| && m[x] == Forward(p.heap, Kept(p), m0[x]))
  }

  // ---- Memory after pass 3 ----

  lemma SlotAfter(p: Plan, m: seq<Word>, j: nat)
    requires p.Valid() && p.InBase() && |p.heap.chunks| > 0
    requires RevertedUpTo(p, NewHps(p), m, |p.heap.blks|)
    requires j < |p.slots|
    ensures |m| == |p.base| && p.slots[j] < |m|
    ensures m[p.slots[j]] == Forward(p.heap, Kept(p), p.base[p.slots[j]])
  {
    var s := p.slots[j];
    var n := p.Tgt(s);
    assert SlotReverted(p, NewHps(p), m, SlotsInto(p, |p.heap.blks|), j);
    if n >= 0 {
      TargetIsNode(p, j);
      assert j in SlotsInto(p, |p.heap.blks|);
    } else {
      assert p.GoodSlot(s);
      assert !p.Inverted(|p.slots|, s);
      PlainAfter(p, m, s);
    }
  }

  // A word that is neither an inverted slot nor a header.
  lemma PlainAfter(p: Plan, m: seq<Word>, x: nat)
    requires p.Valid() && p.InBase() && |p.heap.chunks| > 0
    requires RevertedUpTo(p, NewHps(p), m, |p.heap.blks|)
    requires x < |p.base| && !p.Inverted(|p.slots|, x) && !p.IsHeader(x)
    ensures |m| == |p.base| && m[x] == p.base[x]
  {
    var fin := WordsOf(p, |p.heap.blks|);
    assert WordReverted(p, m, fin, x);
    ChainsAtNodes(p, |p.slots|, x);
  }

  lemma HeaderAfter(p: Plan, m: seq<Word>, k: nat)
    requires p.Valid() && p.InBase() && |p.heap.chunks| > 0
    requires RevertedUpTo(p, NewHps(p), m, |p.heap.blks|)
    requires k < |p.heap.blks|
    ensures var b := p.heap.blks[k];
      && |m| == |p.base| && b.End() <= |m|
      && m[b.hp] == Hdr(b.wosize, b.EncodedTag(), if Live(p, k) then White else Blue)
  {
    var b := p.heap.blks[k];
    p.heap.BlockAtIs(b.hp, k);
    assert p.IsHeader(b.hp);
    assert WordReverted(p, m, WordsOf(p, |p.heap.blks|), b.hp);
    assert !p.Inverted(|p.slots|, b.hp);
  }

  lemma ColoredAfter(p: Plan, m: seq<Word>)
    requires p.Valid() && p.InBase() && |p.heap.chunks| > 0
    requires RevertedUpTo(p, NewHps(p), m, |p.heap.blks|)
    ensures Colored(p.heap, Kept(p), m)
  {
    hide Plan.Valid;
    hide RevertedUpTo;
    forall k | 0 <= k < |p.heap.blks|
      ensures
        && p.heap.blks[k].End() <= |m|
        && m[p.heap.blks[k].hp] ==
           Hdr(p.heap.blks[k].wosize, p.heap.blks[k].EncodedTag(), if Kept(p)[k] then White else Blue)
    {
      HeaderAfter(p, m, k);
    }
  }

  // A kept block is not a free one, so its tag is its own.
  lemma LiveNotFree(p: Plan, k: nat)
    requires p.Valid() && k < |p.heap.blks| && Live(p, k)
    ensures !p.heap.blks[k].free
  {
    var j :| 0 <= j < |p.slots| && p.Tgt(p.slots[j]) >= 0 && p.heap.BlockAt(p.Tgt(p.slots[j])) == k;
    TargetIsNode(p, j);
  }
}
