// Pass 4: what sliding the blocks that are kept does to memory.
module CompactSlide {
  import opened Header
  import opened CompactHeap
  import opened CompactPlace

  // Block k of m0 is in m at its new address.
  ghost predicate Moved(h: Heap, kept: seq<bool>, m0: seq<Word>, m: seq<Word>, k: nat)
    requires |kept| == |h.blks| && k < |kept| && |h.chunks| > 0
  {
    var b := h.blks[k];
    var to := NewHp(h, kept, k);
    && b.End() <= |m0| && to + b.wosize + 1 <= |m|
    && forall y :: to <= y <= to + b.wosize ==> m[y] == m0[b.hp + (y - to)]
  }

  // Word y is in a block from number k on, or outside the heap.
  ghost predicate Ahead(h: Heap, k: nat, y: nat) {
    !h.InHeap(y) || exists j :: k <= j < |h.blks| && h.blks[j].hp <= y < h.blks[j].End()
  }

  ghost predicate Same(h: Heap, m0: seq<Word>, m: seq<Word>, k: nat, y: nat)
    requires y < |m0| == |m|
  {
    Ahead(h, k, y) ==> m[y] == m0[y]
  }

  // The blocks kept among the first k have been moved, the others are untouched.
  ghost predicate Slid(h: Heap, kept: seq<bool>, m0: seq<Word>, m: seq<Word>, k: nat)
    requires |kept| == |h.blks| && k <= |kept| && |h.chunks| > 0
  {
    && |m| == |m0|
    && (forall i :: 0 <= i < k && kept[i] ==> Moved(h, kept, m0, m, i))
    && (forall y :: 0 <= y < |m| ==> Same(h, m0, m, k, y))
  }

  // m' is m with n words copied from src to dst.
  ghost predicate Copied(m: seq<Word>, m': seq<Word>, dst: nat, src: nat, n: nat) {
    && |m'| == |m| && src + n <= |m| && dst + n <= |m|
    && (forall y :: dst <= y < dst + n ==> m'[y] == m[src + (y - dst)])
    && (forall y :: 0 <= y < |m| && !(dst <= y < dst + n) ==> m'[y] == m[y])
  }

  // The new place of block k has no word in common with blocks moved before, and none with blocks after.
  lemma TargetFree(h: Heap, kept: seq<bool>, k: nat, y: nat)
    requires h.Tiled() && |kept| == |h.blks| && k < |kept| && kept[k]
    requires PlaceAll(h, kept, k + 1).Some?
    requires InNew(h, kept, k, y)
    ensures h.InHeap(y) && !Ahead(h, k + 1, y)
  {
    hide Behind;
    hide PlaceAll;
    hide NewHp;
    var c := PlaceStep(h, kept, k);
    assert h.chunks[c].start <= y < h.Limit(c);
    forall j | k + 1 <= j < |h.blks| ensures !(h.blks[j].hp <= y < h.blks[j].End()) {
      assert h.blks[k].End() <= h.blks[j].hp;
    }
  }

  lemma SameStep(h: Heap, kept: seq<bool>, m0: seq<Word>, m: seq<Word>, m': seq<Word>, k: nat, y: nat)
    requires h.Tiled() && |kept| == |h.blks| && k < |kept| && kept[k]
    requires PlaceAll(h, kept, k + 1).Some?
    requires Slid(h, kept, m0, m, k)
    requires Copied(m, m', NewHp(h, kept, k), h.blks[k].hp, h.blks[k].wosize + 1)
    requires y < |m|
    ensures Same(h, m0, m', k + 1, y)
  {
    if Ahead(h, k + 1, y) {
      assert Ahead(h, k, y);
      assert Same(h, m0, m, k, y);
      if InNew(h, kept, k, y) { TargetFree(h, kept, k, y); }
    }
  }

  lemma MovedStep(h: Heap, kept: seq<bool>, m0: seq<Word>, m: seq<Word>, m': seq<Word>, k: nat, i: nat)
    requires h.Tiled() && |kept| == |h.blks| && k < |kept| && kept[k]
    requires PlaceAll(h, kept, k + 1).Some?
    requires Slid(h, kept, m0, m, k) && i < k && kept[i]
    requires Copied(m, m', NewHp(h, kept, k), h.blks[k].hp, h.blks[k].wosize + 1)
    ensures Moved(h, kept, m0, m', i)
  {
    hide Heap.Tiled;
    hide PlaceAll;
    hide NewHp;
    hide Same;
    PlacementPacked(h, kept, k + 1);
    assert Moved(h, kept, m0, m, i);
    var to := NewHp(h, kept, i);
    forall y | to <= y <= to + h.blks[i].wosize ensures m'[y] == m0[h.blks[i].hp + (y - to)] {
      assert InNew(h, kept, i, y) && !InNew(h, kept, k, y);
    }
  }

  // The block being moved is still as it was.
  lemma MovedNow(h: Heap, kept: seq<bool>, m0: seq<Word>, m: seq<Word>, m': seq<Word>, k: nat)
    requires |kept| == |h.blks| && k < |kept| && |h.chunks| > 0
    requires Slid(h, kept, m0, m, k) && h.blks[k].End() <= |m|
    requires Copied(m, m', NewHp(h, kept, k), h.blks[k].hp, h.blks[k].wosize + 1)
    ensures Moved(h, kept, m0, m', k)
  {
    hide PlaceAll;
    hide NewHp;
    hide Slid;
    hide Copied;
    NotMovedYet(h, kept, m0, m, k);
    var to, b := NewHp(h, kept, k), h.blks[k];
    CopiedBounds(m, m', to, b.hp, b.wosize + 1);
    forall y | to <= y <= to + b.wosize ensures m'[y] == m0[b.hp + (y - to)] {
      CopiedAt(m, m', to, b.hp, b.wosize + 1, y);
    }
  }

  lemma CopiedStep(m: seq<Word>, m': seq<Word>, dst: nat, src: nat, n: nat)
    requires Copied(m, m', dst, src, n) && dst <= src && src + n < |m|
    ensures Copied(m, m'[dst + n := m'[src + n]], dst, src, n + 1)
  {
  }

  lemma CopiedBounds(m: seq<Word>, m': seq<Word>, dst: nat, src: nat, n: nat)
    requires Copied(m, m', dst, src, n)
    ensures |m'| == |m| && src + n <= |m| && dst + n <= |m|
  {
  }

  lemma CopiedAt(m: seq<Word>, m': seq<Word>, dst: nat, src: nat, n: nat, y: nat)
    requires Copied(m, m', dst, src, n) && dst <= y < dst + n
    ensures y < |m'| && src + (y - dst) < |m| && m'[y] == m[src + (y - dst)]
  {
  }

  lemma NotMovedYet(h: Heap, kept: seq<bool>, m0: seq<Word>, m: seq<Word>, k: nat)
    requires |kept| == |h.blks| && k < |kept| && |h.chunks| > 0
    requires Slid(h, kept, m0, m, k) && h.blks[k].End() <= |m|
    ensures |m| == |m0| && forall y :: h.blks[k].hp <= y < h.blks[k].End() ==> m[y] == m0[y]
  {
    hide PlaceAll;
    hide NewHp;
    hide Moved;
    forall y | h.blks[k].hp <= y < h.blks[k].End() ensures m[y] == m0[y] {
      assert Ahead(h, k, y);
      assert Same(h, m0, m, k, y);
    }
  }

  lemma SlidStep(h: Heap, kept: seq<bool>, m0: seq<Word>, m: seq<Word>, m': seq<Word>, k: nat)
    requires h.Tiled() && |kept| == |h.blks| && k < |kept| && kept[k]
    requires PlaceAll(h, kept, k + 1).Some?
    requires Slid(h, kept, m0, m, k) && h.blks[k].End() <= |m|
    requires Copied(m, m', NewHp(h, kept, k), h.blks[k].hp, h.blks[k].wosize + 1)
    ensures Slid(h, kept, m0, m', k + 1)
  {
    hide Heap.Tiled;
    hide PlaceAll;
    hide NewHp;
    hide Moved;
    hide Same;
    h.TiledNonempty();
    var k' := k + 1;
    forall i | 0 <= i < k' && kept[i] ensures Moved(h, kept, m0, m', i) {
      if i < k { MovedStep(h, kept, m0, m, m', k, i); } else { MovedNow(h, kept, m0, m, m', k); }
    }
    forall y | 0 <= y < |m'| ensures Same(h, m0, m', k', y) {
      SameStep(h, kept, m0, m, m', k, y);
    }
  }

  lemma SlidSkip(h: Heap, kept: seq<bool>, m0: seq<Word>, m: seq<Word>, k: nat)
    requires |kept| == |h.blks| && k < |kept| && !kept[k] && |h.chunks| > 0
    requires Slid(h, kept, m0, m, k)
    ensures Slid(h, kept, m0, m, k + 1)
  {
    hide Moved;
    var k' := k + 1;
    forall y | 0 <= y < |m| ensures Same(h, m0, m, k', y) {
      assert Same(h, m0, m, k, y);
    }
  }

  // A header not reached yet is still where it was.
  lemma HeaderAhead(h: Heap, kept: seq<bool>, m0: seq<Word>, m: seq<Word>, k: nat)
    requires |kept| == |h.blks| && k < |kept| && |h.chunks| > 0
    requires Slid(h, kept, m0, m, k) && h.blks[k].End() <= |m|
    ensures |m| == |m0| && m[h.blks[k].hp] == m0[h.blks[k].hp]
  {
    assert Ahead(h, k, h.blks[k].hp);
    assert Same(h, m0, m, k, h.blks[k].hp);
  }

  // What pass 4 reads from the headers.
  ghost predicate Colored(h: Heap, kept: seq<bool>, m: seq<Word>)
    requires |kept| == |h.blks|
  {
    forall k :: 0 <= k < |h.blks| ==>
      && h.blks[k].End() <= |m|
      && m[h.blks[k].hp] == Hdr(h.blks[k].wosize, h.blks[k].EncodedTag(), if kept[k] then White else Blue)
  }

  // Pass 4 has dealt with the first k blocks.
  ghost predicate Sliding(h: Heap, kept: seq<bool>, m0: seq<Word>, m: seq<Word>, st: Place, k: nat) {
    && |kept| == |h.blks| && k <= |kept| && |h.chunks| > 0
    && Slid(h, kept, m0, m, k)
    && PlaceAll(h, kept, k) == Some(st)
  }

  lemma SlidingStart(h: Heap, kept: seq<bool>, m0: seq<Word>)
    requires |kept| == |h.blks| && |h.chunks| > 0
    ensures Sliding(h, kept, m0, m0, Initial(h), 0)
  {
  }

  lemma SlidingEnd(h: Heap, kept: seq<bool>, m0: seq<Word>, m: seq<Word>, st: Place)
    requires Sliding(h, kept, m0, m, st, |h.blks|)
    ensures |kept| == |h.blks| && |h.chunks| > 0 && Slid(h, kept, m0, m, |h.blks|)
    ensures PlaceAll(h, kept, |h.blks|) == Some(st)
  {
  }

  // What pass 4 knows when it reaches block k.
  lemma SlidingFacts(h: Heap, kept: seq<bool>, m0: seq<Word>, m: seq<Word>, st: Place, k: nat)
    requires Sliding(h, kept, m0, m, st, k) && k < |h.blks| && Colored(h, kept, m0)
    ensures var b := h.blks[k];
      && |m| == |m0| && b.End() <= |m| && m[b.hp] == Hdr(b.wosize, b.EncodedTag(), if kept[k] then White else Blue)
    ensures |st.alloc| == |h.chunks| && st.fl < |h.chunks|
  {
    hide PlaceAll;
    hide NewHp;
    hide Moved;
    HeaderAhead(h, kept, m0, m, k);
  }

  // Pass 4 reserves the same address as pass 3, at or before the old one.
  lemma SlidingPlace(h: Heap, kept: seq<bool>, m0: seq<Word>, m: seq<Word>, st: Place, k: nat)
    requires h.Tiled() && Sliding(h, kept, m0, m, st, k) && k < |h.blks| && kept[k] && Succeeds(h, kept)
    ensures var r := Allocate(h, st, h.blks[k].wosize + 1);
      && r.Some? && PlaceAll(h, kept, k + 1) == Some(r.value.0)
      && r.value.1 == NewHp(h, kept, k) <= h.blks[k].hp
  {
    hide Heap.Tiled;
    hide Slid;
    SucceedsPrefix(h, kept, k + 1, |h.blks|);
    var c := PlaceStep(h, kept, k);
  }

  lemma SlidingKeep(h: Heap, kept: seq<bool>, m0: seq<Word>, m: seq<Word>, m': seq<Word>, st: Place, st': Place, k: nat)
    requires h.Tiled() && Sliding(h, kept, m0, m, st, k) && k < |h.blks| && kept[k] && h.blks[k].End() <= |m|
    requires PlaceAll(h, kept, k + 1) == Some(st')
    requires Copied(m, m', NewHp(h, kept, k), h.blks[k].hp, h.blks[k].wosize + 1)
    ensures Sliding(h, kept, m0, m', st', k + 1)
  {
    hide Heap.Tiled;
    hide Slid;
    hide PlaceAll;
    hide NewHp;
    hide Copied;
    SlidStep(h, kept, m0, m, m', k);
  }

  lemma SlidingSkip(h: Heap, kept: seq<bool>, m0: seq<Word>, m: seq<Word>, st: Place, k: nat)
    requires Sliding(h, kept, m0, m, st, k) && k < |h.blks| && !kept[k]
    ensures Sliding(h, kept, m0, m, st, k + 1)
  {
    hide Slid;
    SlidSkip(h, kept, m0, m, k);
  }
}
