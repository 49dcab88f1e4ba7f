// Consequences of a compaction for the program: every path from a root leads to the same place.
module CompactResult {
  import opened Header
  import opened CompactHeap
  import opened CompactThread
  import opened CompactPlace
  import opened CompactGraph
  import opened CompactWeak
  import opened Compact

  // Starting from word w, each number of the path selects a field of the block pointed to.
  ghost function Follow(m: seq<Word>, w: Word, path: seq<nat>): Word
    decreases |path|
  {
    if path == [] || !w.Ptr? || w.a + path[0] >= |m| then w
    else Follow(m, m[w.a + path[0]], path[1..])
  }

  // The path stays inside blocks whose fields are values.
  ghost predicate Path(h: Heap, weak: seq<nat>, m: seq<Word>, w: Word, path: seq<nat>)
    decreases |path|
  {
    path != [] ==>
    && w.Ptr? && w.a > 0 && h.InHeap(w.a)
    && var k := h.BlockAt(w.a - 1);
    && k >= 0 && w.a + path[0] < h.blks[k].End() <= |m| && IsSlot(h, weak, k, w.a + path[0])
    && Path(h, weak, m, m[w.a + path[0]], path[1..])
  }

  // Slot j points into block k, and its field i is in the block.
  ghost predicate SlotPoints(p: Plan, weak: seq<nat>, j: nat, k: nat, i: nat) {
    && j < |p.slots| && p.Tgt(p.slots[j]) >= 0 && k < |p.heap.blks|
    && k == p.heap.BlockAt(p.Tgt(p.slots[j]))
    && IsSlot(p.heap, weak, k, p.Tgt(p.slots[j]) + 1 + i) && p.Tgt(p.slots[j]) + 1 + i < p.heap.blks[k].End()
  }

  // Field i of address a is in m where a forwarded pointer finds it, and forwarded.
  ghost predicate FieldMoved(p: Plan, m0: seq<Word>, m: seq<Word>, a: nat, i: nat)
    requires |p.heap.chunks| > 0
  {
    var f := Forward(p.heap, Kept(p), Ptr(a));
    && f.Ptr? && f.a + i < |m| && a + i < |m0|
    && m[f.a + i] == Forward(p.heap, Kept(p), m0[a + i])
  }

  // What a slot points to is kept, and its fields are where the forwarded pointer says.
  lemma StepKept(p: Plan, m0: seq<Word>, m: seq<Word>, roots: seq<nat>, weak: seq<nat>, j: nat, k: nat, i: nat)
    requires Compacted(p, m0, m, roots, weak) && SlotPoints(p, weak, j, k, i)
    ensures FieldMoved(p, m0, m, p.Tgt(p.slots[j]) + 1, i)
  {
    hide Heap.BlockAt;
    hide CopyOf;
    hide NewHp;
    hide Live;
    hide Forward;
    SlotLive(p, j);
    var a := p.Tgt(p.slots[j]) + 1;
    TgtInHeap(p, p.slots[j]);
    ForwardInto(p.heap, Kept(p), a, k);
    CopyField(p.heap, Kept(p), weak, m0, m, k, a - p.heap.blks[k].hp + i);
  }

  lemma SlotLive(p: Plan, j: nat)
    requires j < |p.slots| && p.Tgt(p.slots[j]) >= 0 && p.heap.BlockAt(p.Tgt(p.slots[j])) >= 0
    ensures Live(p, p.heap.BlockAt(p.Tgt(p.slots[j])))
  {
  }

  lemma TgtInHeap(p: Plan, s: nat)
    requires p.Tgt(s) >= 0
    ensures p.heap.InHeap(p.Tgt(s) + 1)
  {
  }

  lemma ForwardInto(h: Heap, kept: seq<bool>, a: nat, k: nat)
    requires |kept| == |h.blks| && |h.chunks| > 0 && h.InHeap(a) && a > 0 && k < |h.blks| && h.BlockAt(a - 1) == k
    ensures Forward(h, kept, Ptr(a)) == Ptr(NewHp(h, kept, k) + (a - h.blks[k].hp))
    ensures h.blks[k].hp < a
  {
    hide NewHp;
  }

  lemma CopyField(h: Heap, kept: seq<bool>, weak: seq<nat>, m0: seq<Word>, m: seq<Word>, k: nat, i: nat)
    requires |kept| == |h.blks| && k < |kept| && |h.chunks| > 0 && CopyOf(h, kept, weak, m0, m, k)
    requires IsSlot(h, weak, k, h.blks[k].hp + i) && 0 < i <= h.blks[k].wosize
    ensures NewHp(h, kept, k) + i < |m| && h.blks[k].hp + i < |m0|
    ensures m[NewHp(h, kept, k) + i] == Forward(h, kept, m0[h.blks[k].hp + i])
  {
    hide NewHp;
    hide Forward;
    var to := NewHp(h, kept, k);
    var y := to + i;
    assert m[y] == Forward(h, kept, m0[h.blks[k].hp + (y - to)]);
  }

  // A field of a scanned block is a slot, and so is a full field of a weak array.
  lemma FieldSlot(p: Plan, m0: seq<Word>, roots: seq<nat>, weak: seq<nat>, k: nat, x: nat) returns (j: nat)
    requires Describes(p.heap, m0) && p == PlanFor(p.heap, m0, roots, weak) && p.heap.Apart()
    requires k < |p.heap.blks| && IsSlot(p.heap, weak, k, x) && p.heap.blks[k].hp < x < p.heap.blks[k].End()
    ensures j < |p.slots| && p.slots[j] == x
    ensures x < |p.base| == |m0| && p.base[x] == m0[x]
  {
    hide Fields;
    EncodedField(p.heap, m0, k, x);
    if p.heap.blks[k].Scanned() {
      SlotOfField(p, roots, k, x - p.heap.blks[k].hp);
      j := |roots| + |Fields(p.heap, k)| + (x - p.heap.blks[k].hp) - 1;
    } else {
      var l: nat :| l < |weak| && weak[l] == x;
      j := |roots| + |Fields(p.heap, |p.heap.blks|)| + l;
      assert p.slots[j] == weak[l];
    }
  }

  lemma {:induction false} SamePath(p: Plan, m0: seq<Word>, m: seq<Word>, roots: seq<nat>, weak: seq<nat>, j: nat,
                                    path: seq<nat>)
    requires p.heap.Tiled() && p.Valid() && Describes(p.heap, m0) && p == PlanFor(p.heap, m0, roots, weak)
    requires Compacted(p, m0, m, roots, weak)
    requires j < |p.slots| && p.slots[j] < |p.base| == |m0| && p.base[p.slots[j]] == m0[p.slots[j]]
    requires Path(p.heap, weak, m0, m0[p.slots[j]], path)
    ensures Follow(m, Forward(p.heap, Kept(p), m0[p.slots[j]]), path) ==
            Forward(p.heap, Kept(p), Follow(m0, m0[p.slots[j]], path))
    decreases |path|
  {
    hide Heap.Tiled;
    hide Plan.Valid;
    hide Compacted;
    hide PlanFor;
    hide Describes;
    hide Forward;
    if path != [] {
      var w := m0[p.slots[j]];
      ValidInBase(p);
      StepKept(p, m0, m, roots, weak, j, p.heap.BlockAt(p.Tgt(p.slots[j])), path[0]);
      var k := p.heap.BlockAt(w.a - 1);
      var l := FieldSlot(p, m0, roots, weak, k, w.a + path[0]);
      SamePath(p, m0, m, roots, weak, l, path[1..]);
    }
  }

  // Seen from the roots, the heap is the same graph: every path leads to the forwarded value.
  lemma RootPaths(p: Plan, m0: seq<Word>, m: seq<Word>, roots: seq<nat>, weak: seq<nat>, i: nat, path: seq<nat>)
    requires p.heap.Tiled() && p.Valid() && Describes(p.heap, m0) && p == PlanFor(p.heap, m0, roots, weak)
    requires forall r :: r in roots ==> !p.heap.InHeap(r)
    requires Compacted(p, m0, m, roots, weak)
    requires i < |roots| && roots[i] < |m0| && Path(p.heap, weak, m0, m0[roots[i]], path)
    ensures roots[i] < |m|
    ensures Follow(m, m[roots[i]], path) == Forward(p.heap, Kept(p), Follow(m0, m0[roots[i]], path))
  {
    hide Heap.Tiled;
    hide Plan.Valid;
    hide Follow;
    hide Path;
    assert p.slots[i] == roots[i];
    EncodedOutside(p.heap, m0, roots[i]);
    SamePath(p, m0, m, roots, weak, i, path);
  }

  // Different addresses in kept blocks stay different: sharing is neither lost nor introduced.
  lemma ForwardInjective(h: Heap, kept: seq<bool>, a: nat, b: nat)
    requires h.Tiled() && |kept| == |h.blks| && Succeeds(h, kept)
    requires a > 0 && b > 0 && h.InHeap(a) && h.InHeap(b)
    requires h.BlockAt(a - 1) >= 0 && kept[h.BlockAt(a - 1)]
    requires h.BlockAt(b - 1) >= 0 && kept[h.BlockAt(b - 1)]
    requires a < h.blks[h.BlockAt(a - 1)].End() && b < h.blks[h.BlockAt(b - 1)].End()
    ensures Forward(h, kept, Ptr(a)) == Forward(h, kept, Ptr(b)) ==> a == b
  {
    hide Heap.Tiled;
    hide NewHp;
    hide PlaceAll;
    hide InUse;
    PlacementPacked(h, kept, |kept|);
    var i, j := h.BlockAt(a - 1), h.BlockAt(b - 1);
    var x := NewHp(h, kept, i) + (a - h.blks[i].hp);
    assert InNew(h, kept, i, x);
    assert i != j ==> !InNew(h, kept, j, x);
  }

  // A memory that cannot be compacted: one chunk of n words, filled by a string and a block of one field, to which
  // the roots at 0 and 1 point.  There are no weak arrays; the head of their list is at 2.
  function FullHeap(n: nat): Heap
    requires n > 4
  {
    Heap([Chunk(3, n)], [Blk(3, n - 3, STRING_TAG, false, 0), Blk(n + 1, 1, 0, false, 0)], [0, 2])
  }

  function FullMemory(n: nat): seq<Word>
    requires n > 4
  {
    [Ptr(4), Ptr(n + 2), Ptr(0), Hdr(n - 3, STRING_TAG, White)] + seq(n - 3, _ => Raw(0)) + [Hdr(1, 0, White), Int(0)]
  }

  function FullPlan(n: nat): Plan
    requires n > 4
  {
    Plan(FullHeap(n), FullMemory(n)[3 := Ehd(n - 3, STRING_TAG)][n + 1 := Ehd(1, 0)], [0, 1, n + 2])
  }

  const NO_WEAK := WeakList(2, Raw(0), [])

  lemma FullMemoryFails(n: nat)
    requires n > 4
    ensures var h, m := FullHeap(n), FullMemory(n);
      && h.Tiled() && Describes(h, m) && !h.InHeap(0) && !h.InHeap(1) && WeakOk(h, m, NO_WEAK)
      && var p := PlanFor(h, m, [0, 1], Weak(h, m, NO_WEAK));
         p.Valid() && Kept(p) == [true, true] && !Succeeds(h, Kept(p))
  {
    hide Plan.Valid;
    FullTiled(n);
    FullPlanned(n);
    FullValid(n);
    FullKept(n);
    FullCrowded(n);
  }

  lemma FullTiled(n: nat)
    requires n > 4
    ensures var h := FullHeap(n);
      && h.Tiled() && !h.InHeap(0) && !h.InHeap(1) && !h.InHeap(2) && h.InHeap(4) && h.InHeap(n + 2)
      && h.BlockAt(3) == 0 && h.BlockAt(n + 1) == 1
  {
    var h := FullHeap(n);
    assert h.StartsChunk(0) && h.Adjacent(0) && h.Adjacent(1);
    h.BlockAtIs(3, 0);
    h.BlockAtIs(n + 1, 1);
    assert h.chunks[0] == Chunk(3, n);
  }

  lemma FullPlanned(n: nat)
    requires n > 4
    ensures Describes(FullHeap(n), FullMemory(n)) && PlanFor(FullHeap(n), FullMemory(n), [0, 1], []) == FullPlan(n)
    ensures WeakOk(FullHeap(n), FullMemory(n), NO_WEAK) && Weak(FullHeap(n), FullMemory(n), NO_WEAK) == []
  {
    var h, m := FullHeap(n), FullMemory(n);
    assert Fields(h, 0) == [] && Fields(h, 1) == Fields(h, 0) + [];
    assert Range(n + 2, n + 3) == [n + 2] && Fields(h, 2) == Fields(h, 1) + Range(n + 2, n + 3);
    assert [0 as nat, 1] + Fields(h, 2) + [] == [0, 1, n + 2];
    FullTiled(n);
    assert LinkOk(h, m, NO_WEAK, 0);
    FullEncoded(n);
  }

  lemma FullEncoded(n: nat)
    requires n > 4
    ensures Describes(FullHeap(n), FullMemory(n))
    ensures Encoded(FullHeap(n), FullMemory(n), 2) == FullPlan(n).base
  {
    var h, m := FullHeap(n), FullMemory(n);
    assert m[3] == Hdr(n - 3, STRING_TAG, White) && m[n + 1] == Hdr(1, 0, White);
    EncodedNone(h, m);
    EncodedStep(h, m, 0);
    EncodedStep(h, m, 1);
  }

  lemma FullValid(n: nat)
    requires n > 4
    ensures FullPlan(n).Valid()
  {
    hide Plan.GoodSlot;
    var p := FullPlan(n);
    FullTiled(n);
    FullSlot(n, 0);
    FullSlot(n, 1);
    FullSlot(n, n + 2);
    forall j | 0 <= j < |p.slots| ensures p.GoodSlot(p.slots[j]) {
      assert j == 0 || j == 1 || j == 2;
    }
  }

  lemma FullSlot(n: nat, s: nat)
    requires n > 4 && (s == 0 || s == 1 || s == n + 2)
    ensures FullPlan(n).GoodSlot(s)
  {
    var p := FullPlan(n);
    FullTiled(n);
    var k := p.heap.BlockAt(s);
    assert k == -1 || k == 0 || k == 1;
    assert p.base[0] == Ptr(4) && p.base[1] == Ptr(n + 2) && p.base[n + 2] == Int(0);
    assert p.IsHeader(3) && p.IsHeader(n + 1);
  }

  lemma FullKept(n: nat)
    requires n > 4
    ensures Kept(FullPlan(n)) == [true, true]
  {
    var p := FullPlan(n);
    FullTiled(n);
    assert p.Tgt(p.slots[0]) == 3 && p.Tgt(p.slots[1]) == n + 1;
    assert Live(p, 0) && Live(p, 1);
  }

  lemma FullCrowded(n: nat)
    requires n > 4
    ensures !Succeeds(FullHeap(n), [true, true])
  {
    var h, live := FullHeap(n), [true, true];
    FullTiled(n);
    assert KeptWords(h, live, 0) == 0 && KeptWords(h, live, 1) == n - 2;
    assert h.chunks[1..] == [] && HeapWords(h.chunks) == n + HeapWords([]);
    assert Crowded(h, live, 1);
    CrowdedFails(h, live);
  }
}
