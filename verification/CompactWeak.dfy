// The list of the weak arrays, whose fields pass 2 inverts last.
module CompactWeak {
  import opened Header
  import opened CompactHeap
  import opened CompactThread

  // The address of caml_weak_list_head, caml_weak_none, and the numbers of the blocks on the list.
  datatype WeakList = WeakList(head: nat, none: Word, arrays: seq<nat>)

  // A weak array: its first field is the link.
  ghost predicate IsArray(h: Heap, k: nat) {
    k < |h.blks| && !h.blks[k].free && h.blks[k].tag == ABSTRACT_TAG && h.blks[k].wosize >= 1
  }

  // Where the pointer to array j of the list is.
  function Loc(h: Heap, w: WeakList, j: nat): nat {
    if j == 0 || j > |w.arrays| || w.arrays[j - 1] >= |h.blks| then w.head else h.blks[w.arrays[j - 1]].hp + 1
  }

  // The pointer to array j, or the null pointer after the last.
  ghost predicate LinkWord(h: Heap, w: WeakList, j: nat, v: Word) {
    if j < |w.arrays| then IsArray(h, w.arrays[j]) && v == Ptr(h.blks[w.arrays[j]].hp + 1) else v == Ptr(0)
  }

  ghost predicate LinkOk(h: Heap, m: seq<Word>, w: WeakList, j: nat) {
    Loc(h, w, j) < |m| && LinkWord(h, w, j, m[Loc(h, w, j)])
  }

  ghost predicate WeakOk(h: Heap, m: seq<Word>, w: WeakList) {
    && !h.InHeap(w.head) && !h.InHeap(0) && (w.none.Ptr? ==> !h.InHeap(w.none.a))
    && forall j: nat :: j <= |w.arrays| ==> LinkOk(h, m, w, j)
  }

  // The words from lo to hi that are not empty.
  function FullFields(m: seq<Word>, none: Word, lo: nat, hi: nat): seq<nat>
    requires hi <= |m|
  {
    if hi <= lo then []
    else FullFields(m, none, lo, hi - 1) + (if m[hi - 1] != none then [hi - 1] else [])
  }

  // What is inverted for the first n arrays.
  ghost function WeakSlots(h: Heap, m: seq<Word>, w: WeakList, n: nat): seq<nat>
    requires n <= |w.arrays|
  {
    if n == 0 || w.arrays[n - 1] >= |h.blks| || h.blks[w.arrays[n - 1]].End() > |m| then []
    else
      var b := h.blks[w.arrays[n - 1]];
      WeakSlots(h, m, w, n - 1) + FullFields(m, w.none, b.hp + 2, b.End()) + [Loc(h, w, n - 1)]
  }

  // The slots of plan p from number i0 on are those of the weak arrays.
  ghost predicate InWeak(p: Plan, w: WeakList, i0: nat) {
    i0 <= |p.slots| && p.slots[i0..] == WeakSlots(p.heap, p.base, w, |w.arrays|)
  }

  // ---- The order of the slots ----

  lemma {:induction false} FullGrows(m: seq<Word>, none: Word, lo: nat, mid: nat, hi: nat)
    requires mid <= hi <= |m|
    ensures FullFields(m, none, lo, mid) <= FullFields(m, none, lo, hi)
  {
    if mid < hi { FullGrows(m, none, lo, mid, hi - 1); }
  }

  lemma {:induction false} WeakGrows(h: Heap, m: seq<Word>, w: WeakList, n: nat, q: nat)
    requires n <= q <= |w.arrays| && WeakOk(h, m, w)
    requires forall k :: 0 <= k < |h.blks| ==> h.blks[k].End() <= |m|
    ensures WeakSlots(h, m, w, n) <= WeakSlots(h, m, w, q)
  {
    if n < q {
      var j: nat := q - 1;
      assert LinkOk(h, m, w, j);
      WeakGrows(h, m, w, n, j);
    }
  }

  // Array n of the list: its slots come after those of the arrays before.
  lemma WeakNext(p: Plan, w: WeakList, i0: nat, n: nat)
    requires p.InBase() && WeakOk(p.heap, p.base, w) && InWeak(p, w, i0) && n < |w.arrays|
    ensures IsArray(p.heap, w.arrays[n])
    ensures p.heap.blks[w.arrays[n]].End() <= |p.base|
    ensures var b := p.heap.blks[w.arrays[n]];
      var s := WeakSlots(p.heap, p.base, w, n) + FullFields(p.base, w.none, b.hp + 2, b.End()) + [Loc(p.heap, w, n)];
      WeakSlots(p.heap, p.base, w, n + 1) == s <= p.slots[i0..]
  {
    assert LinkOk(p.heap, p.base, w, n);
    WeakGrows(p.heap, p.base, w, n + 1, |w.arrays|);
  }

  // How many slots there are before field j of array n.
  ghost function Before(p: Plan, w: WeakList, i0: nat, n: nat, j: nat): nat
    requires n < |w.arrays| && w.arrays[n] < |p.heap.blks| && j <= p.heap.blks[w.arrays[n]].wosize
    requires p.heap.blks[w.arrays[n]].End() <= |p.base|
  {
    var b := p.heap.blks[w.arrays[n]];
    i0 + |WeakSlots(p.heap, p.base, w, n)| + |FullFields(p.base, w.none, b.hp + 2, b.hp + 1 + j)|
  }

  lemma SlotOfWeak(p: Plan, w: WeakList, i0: nat, n: nat, j: nat)
    requires p.InBase() && WeakOk(p.heap, p.base, w) && InWeak(p, w, i0) && n < |w.arrays|
    requires w.arrays[n] < |p.heap.blks| && 1 <= j < p.heap.blks[w.arrays[n]].wosize
    ensures p.heap.blks[w.arrays[n]].End() <= |p.base|
    ensures var x := p.heap.blks[w.arrays[n]].hp + 1 + j;
      if p.base[x] != w.none
      then Before(p, w, i0, n, j) < |p.slots| && p.slots[Before(p, w, i0, n, j)] == x &&
           Before(p, w, i0, n, j + 1) == Before(p, w, i0, n, j) + 1
      else Before(p, w, i0, n, j + 1) == Before(p, w, i0, n, j)
  {
    hide WeakSlots;
    WeakNext(p, w, i0, n);
    var b := p.heap.blks[w.arrays[n]];
    var x, s := b.hp + 1 + j, WeakSlots(p.heap, p.base, w, n);
    FullGrows(p.base, w.none, b.hp + 2, x + 1, b.End());
    var f, all := FullFields(p.base, w.none, b.hp + 2, x + 1), FullFields(p.base, w.none, b.hp + 2, b.End());
    if p.base[x] != w.none {
      assert f[|f| - 1] == x && all[|f| - 1] == x;
      assert (s + all + [Loc(p.heap, w, n)])[|s| + |f| - 1] == x;
      assert p.slots[i0..][|s| + |f| - 1] == p.slots[i0 + |s| + |f| - 1];
    }
  }

  lemma SlotOfLink(p: Plan, w: WeakList, i0: nat, n: nat)
    requires p.InBase() && WeakOk(p.heap, p.base, w) && InWeak(p, w, i0) && n < |w.arrays|
    requires w.arrays[n] < |p.heap.blks|
    ensures p.heap.blks[w.arrays[n]].End() <= |p.base|
    ensures var i := Before(p, w, i0, n, p.heap.blks[w.arrays[n]].wosize);
      && i < |p.slots| && p.slots[i] == Loc(p.heap, w, n)
      && i0 + |WeakSlots(p.heap, p.base, w, n + 1)| == i + 1
  {
    hide WeakSlots;
    WeakNext(p, w, i0, n);
    var b := p.heap.blks[w.arrays[n]];
    var s := WeakSlots(p.heap, p.base, w, n) + FullFields(p.base, w.none, b.hp + 2, b.End());
    assert (s + [Loc(p.heap, w, n)])[|s|] == Loc(p.heap, w, n);
    assert p.slots[i0..][|s|] == p.slots[i0 + |s|];
  }

  // ---- What has not been inverted yet ----

  // No chain goes through x: it is neither a header nor an infix header.
  lemma WordStill(p: Plan, m: seq<Word>, i: nat, x: nat)
    requires p.Valid() && i <= |p.slots| && p.Threaded(m, i) && x < |p.base|
    requires !p.IsHeader(x) && !p.IsInfix(x)
    requires p.Tgt(x) < 0 || exists j :: i <= j < |p.slots| && p.slots[j] == x
    ensures x < |m| && m[x] == p.base[x]
  {
    assert !p.Inverted(i, x);
    assert p.WordHolds(m, i, x);
    ChainsAtNodes(p, i, x);
  }

  lemma PlainWord(p: Plan, k: nat, x: nat)
    requires p.Valid() && k < |p.heap.blks| && p.heap.blks[k].tag != CLOSURE_TAG
    requires p.heap.blks[k].hp < x < p.heap.blks[k].End()
    ensures x < |p.base| && !p.IsHeader(x) && !p.IsInfix(x)
  {
    p.heap.BlockAtIs(x, k);
  }

  // The header chain of an array ends with its header.
  lemma NoInfixTop(p: Plan, i: nat, k: nat)
    requires p.Valid() && i <= |p.slots| && k < |p.heap.blks| && p.heap.blks[k].tag != CLOSURE_TAG
    ensures p.InBase() && p.EndWord(i, k) == Ehd(p.heap.blks[k].wosize, p.heap.blks[k].EncodedTag())
  {
    var act := TopIndex(p, i, k);
    if act >= 0 {
      assert p.GoodSlot(p.slots[act]);
      PlainWord(p, k, p.Top(i, k));
    }
  }

  lemma FieldStill(p: Plan, m: seq<Word>, w: WeakList, i0: nat, n: nat, j: nat)
    requires p.Valid() && WeakOk(p.heap, p.base, w) && InWeak(p, w, i0) && n < |w.arrays|
    requires w.arrays[n] < |p.heap.blks| && 1 <= j < p.heap.blks[w.arrays[n]].wosize
    requires p.heap.blks[w.arrays[n]].End() <= |p.base|
    requires Before(p, w, i0, n, j) <= |p.slots| && p.Threaded(m, Before(p, w, i0, n, j))
    ensures var x := p.heap.blks[w.arrays[n]].hp + 1 + j; x < |m| && m[x] == p.base[x]
  {
    hide Plan.Valid;
    hide Plan.Threaded;
    hide WeakSlots;
    hide FullFields;
    ValidInBase(p);
    var b := p.heap.blks[w.arrays[n]];
    assert LinkOk(p.heap, p.base, w, n);
    SlotOfWeak(p, w, i0, n, j);
    PlainWord(p, w.arrays[n], b.hp + 1 + j);
    WordStill(p, m, Before(p, w, i0, n, j), b.hp + 1 + j);
  }

  lemma OutOfBlocks(h: Heap, x: nat)
    requires h.Tiled() && !h.InHeap(x)
    ensures h.BlockAt(x) == -1
  {
    if h.BlockAt(x) >= 0 { InItsChunk(h, h.BlockAt(x), x); }
  }

  lemma InItsChunk(h: Heap, k: nat, x: nat)
    requires h.Tiled() && k < |h.blks| && h.blks[k].hp <= x < h.blks[k].End()
    ensures h.InHeap(x)
  {
    var c := h.blks[k].ch;
    assert h.chunks[c].start <= x < h.Limit(c);
  }

  // Where the next pointer of the list is.
  lemma LinkPlain(p: Plan, w: WeakList, n: nat)
    requires p.Valid() && p.heap.Tiled() && WeakOk(p.heap, p.base, w) && n <= |w.arrays|
    ensures var x := Loc(p.heap, w, n); x < |p.base| && !p.IsHeader(x) && !p.IsInfix(x)
  {
    assert LinkOk(p.heap, p.base, w, n);
    if n == 0 {
      OutOfBlocks(p.heap, w.head);
    } else {
      var j: nat := n - 1;
      assert LinkOk(p.heap, p.base, w, j);
      hide Plan.Valid;
      hide Heap.Tiled;
      PlainWord(p, w.arrays[j], Loc(p.heap, w, n));
    }
  }

  lemma LinkStill(p: Plan, m: seq<Word>, w: WeakList, i0: nat, n: nat)
    requires p.Valid() && p.heap.Tiled() && WeakOk(p.heap, p.base, w) && InWeak(p, w, i0) && n <= |w.arrays|
    requires i0 + |WeakSlots(p.heap, p.base, w, n)| <= |p.slots|
    requires p.Threaded(m, i0 + |WeakSlots(p.heap, p.base, w, n)|)
    ensures var x := Loc(p.heap, w, n);
      x < |m| && LinkWord(p.heap, w, n, m[x])
  {
    hide Plan.Valid;
    hide Plan.Threaded;
    hide Heap.Tiled;
    hide WeakSlots;
    hide FullFields;
    ValidInBase(p);
    LinkPlain(p, w, n);
    var x := Loc(p.heap, w, n);
    assert LinkOk(p.heap, p.base, w, n);
    if n < |w.arrays| {
      SlotOfLink(p, w, i0, n);
    } else {
      assert p.Tgt(x) < 0;
    }
    WordStill(p, m, i0 + |WeakSlots(p.heap, p.base, w, n)|, x);
  }
}
