// Pass 2 and 3 of the compactor on memory contents: what pointer inversion leaves in every word, and
// how reverting the chains rewrites it.
module CompactThread {
  import opened Header
  import opened CompactHeap

  // What is fixed between pass 1 and the end of pass 3: the blocks, the memory contents after pass 1,
  // and the slots (root locations and scanned fields) in the order pass 2 meets them.
  datatype Plan = Plan(heap: Heap, base: seq<Word>, slots: seq<nat>) {

    ghost predicate IsHeader(x: nat) {
      var k := heap.BlockAt(x);
      k >= 0 && x == heap.blks[k].hp
    }

    // An infix header: its size field is its distance from the block header, and it is followed by at
    // least one word of the same block.
    ghost predicate IsInfix(x: nat) {
      var k := heap.BlockAt(x);
      && k >= 0 && heap.blks[k].hp < x < heap.blks[k].End() - 1
      && !heap.blks[k].free && heap.blks[k].tag == CLOSURE_TAG
      && x < |base| && base[x] == Hdr(x - heap.blks[k].hp, INFIX_TAG, White)
    }

    ghost predicate IsNode(x: nat) {
      (IsHeader(x) && !heap.blks[heap.BlockAt(x)].free) || IsInfix(x)
    }

    // The node slot s points to (the word before the address it holds), or -1.
    ghost function Tgt(s: nat): int {
      if s < |base| && base[s].Ptr? && heap.InHeap(base[s].a) then base[s].a - 1 else -1
    }

    ghost predicate GoodSlot(s: nat) {
      && s < |base|
      && (Ecolor(base[s]) == 0 ==> base[s].Ptr?)
      && Ecolor(base[s]) != 2
      && (base[s].Ptr? && heap.InHeap(base[s].a) ==> base[s].a > 0 && IsNode(base[s].a - 1))
      && !IsHeader(s)
    }

    // Blocks and slots lie in memory.
    ghost predicate InBase() {
      && (forall k :: 0 <= k < |heap.blks| ==> heap.blks[k].End() <= |base|)
      && (forall j :: 0 <= j < |slots| ==> slots[j] < |base|)
    }

    ghost predicate Valid() {
      && heap.Apart()
      && InBase()
      && (forall k :: 0 <= k < |heap.blks| ==>
            && heap.blks[k].tag != INFIX_TAG
            && base[heap.blks[k].hp] == Ehd(heap.blks[k].wosize, heap.blks[k].EncodedTag()))
      && (forall j :: 0 <= j < |slots| ==> GoodSlot(slots[j]))
      && (forall i, j :: 0 <= i < j < |slots| ==> slots[i] != slots[j])
    }

    // The last of the first i slots that points to node n, or -1.
    ghost function Last(i: nat, n: int): (s: int)
      requires i <= |slots|
      ensures -1 <= s
    {
      if i == 0 then -1
      else if Tgt(slots[i - 1]) == n then slots[i - 1]
      else Last(i - 1, n)
    }

    // The infix header of block k whose chain was started last among the first i slots, or -1.
    ghost function Top(i: nat, k: nat): (x: int)
      requires i <= |slots| && k < |heap.blks|
    {
      if i == 0 then -1
      else
        var n := Tgt(slots[i - 1]);
        if heap.blks[k].hp < n < heap.blks[k].End() && Last(i - 1, n) == -1 then n else Top(i - 1, k)
    }

    // The word at the end of the chain of block header k when i slots have been inverted.
    ghost function EndWord(i: nat, k: nat): Word
      requires i <= |slots| && k < |heap.blks| && heap.blks[k].hp < |base|
    {
      var t := Top(i, k);
      if t <= heap.blks[k].hp then base[heap.blks[k].hp] else Ehd(t - heap.blks[k].hp - 1, INFIX_TAG)
    }

    // The word at the end of an infix chain that was started when i slots had been inverted.
    ghost function InfixEnd(i: nat, k: nat): Word
      requires i <= |slots| && k < |heap.blks| && heap.blks[k].hp < |base|
    {
      var t := Top(i, k);
      if t <= heap.blks[k].hp then base[heap.blks[k].hp] else Link(t)
    }

    // What slot number j holds once i > j slots have been inverted.
    ghost function SlotWord(i: nat, j: nat): Word
      requires InBase() && j < i <= |slots| && Tgt(slots[j]) >= 0
    {
      var n := Tgt(slots[j]);
      var k := heap.BlockAt(n);
      var l := Last(j, n);
      if k < 0 then base[slots[j]]
      else if n == heap.blks[k].hp then (if l >= 0 then Ptr(l) else EndWord(i, k))
      else if l >= 0 then IPtr(l) else InfixEnd(j, k)
    }

    // What any other word holds.
    ghost function NodeWord(i: nat, x: nat): Word
      requires InBase() && i <= |slots| && x < |base|
    {
      var k := heap.BlockAt(x);
      var l := Last(i, x);
      if k >= 0 && x == heap.blks[k].hp then (if l >= 0 then Ptr(l) else EndWord(i, k))
      else if l >= 0 then IPtr(l) else base[x]
    }

    ghost predicate Inverted(i: nat, x: nat)
      requires i <= |slots|
    {
      exists j :: 0 <= j < i && slots[j] == x && Tgt(slots[j]) >= 0
    }

    ghost predicate SlotHolds(m: seq<Word>, i: nat, j: nat)
      requires InBase() && j < i <= |slots| && |m| == |base|
    {
      Tgt(slots[j]) >= 0 ==> m[slots[j]] == SlotWord(i, j)
    }

    ghost predicate WordHolds(m: seq<Word>, i: nat, x: nat)
      requires InBase() && i <= |slots| && x < |m| == |base|
    {
      !Inverted(i, x) ==> m[x] == NodeWord(i, x)
    }

    // Memory m is the base memory with the first i slots inverted.
    ghost predicate Threaded(m: seq<Word>, i: nat)
      requires InBase() && i <= |slots|
    {
      && |m| == |base|
      && (forall j :: 0 <= j < i ==> SlotHolds(m, i, j))
      && (forall x :: 0 <= x < |m| ==> WordHolds(m, i, x))
    }
  }

  lemma ValidInBase(p: Plan)
    requires p.Valid()
    ensures p.InBase() && p.heap.Apart()
  {
  }

  // A slot with a target points to a node of a live block.
  lemma TargetIsNode(p: Plan, j: nat)
    requires p.Valid() && j < |p.slots| && p.Tgt(p.slots[j]) >= 0
    ensures p.IsNode(p.Tgt(p.slots[j]))
    ensures p.Tgt(p.slots[j]) < |p.base|
  {
  }

  // Last(i, n) is a slot among the first i with target n, and no slot between it and i has target n.
  lemma {:induction false} LastIndex(p: Plan, i: nat, n: int) returns (j: int)
    requires i <= |p.slots|
    ensures -1 <= j < i
    ensures forall l :: j < l < i ==> p.Tgt(p.slots[l]) != n
    ensures if j >= 0 then p.Last(i, n) == p.slots[j] && p.Tgt(p.slots[j]) == n
            else p.Last(i, n) == -1
  {
    if i == 0 {
      j := -1;
    } else if p.Tgt(p.slots[i - 1]) == n {
      j := i - 1;
    } else {
      j := LastIndex(p, i - 1, n);
    }
  }

  // Chains start empty and there are none at words that are not nodes.
  lemma ThreadedStart(p: Plan)
    requires p.Valid()
    ensures p.Threaded(p.base, 0)
  {
    forall x | 0 <= x < |p.base| ensures p.WordHolds(p.base, 0, x) {
    }
  }

  // Only nodes have chains.
  lemma ChainsAtNodes(p: Plan, i: nat, x: nat)
    requires p.Valid() && i <= |p.slots|
    ensures p.Last(i, x) >= 0 ==> p.IsNode(x)
  {
    var j := LastIndex(p, i, x);
    if j >= 0 { TargetIsNode(p, j); }
  }

  // A slot not inverted yet still holds its own word if that word is a pointer into the heap.
  lemma SlotIntact(p: Plan, m: seq<Word>, i: nat)
    requires p.Valid() && i < |p.slots| && p.Threaded(m, i)
    ensures !p.Inverted(i, p.slots[i])
    ensures m[p.slots[i]] == p.base[p.slots[i]] || (m[p.slots[i]].IPtr? && p.Tgt(p.slots[i]) < 0)
  {
    var s := p.slots[i];
    assert p.GoodSlot(s);
    ChainsAtNodes(p, i, s);
    assert p.WordHolds(m, i, s);
  }

  // Slots without a target are left alone.
  lemma InvertNone(p: Plan, m: seq<Word>, i: nat)
    requires p.Valid() && i < |p.slots| && p.Threaded(m, i)
    requires p.Tgt(p.slots[i]) < 0
    ensures p.Threaded(m, i + 1)
  {
    var i' := i + 1;
    forall j | 0 <= j < i' ensures p.SlotHolds(m, i', j) {
      if j < i && p.Tgt(p.slots[j]) >= 0 {
        EndWordStep(p, i, j);
        assert p.SlotHolds(m, i, j);
      }
    }
    forall x | 0 <= x < |m| ensures p.WordHolds(m, i', x) {
      InvertNoneWord(p, m, i, x);
    }
  }

  lemma InvertNoneWord(p: Plan, m: seq<Word>, i: nat, x: nat)
    requires p.Valid() && i < |p.slots| && p.Threaded(m, i) && x < |m|
    requires p.Tgt(p.slots[i]) < 0
    ensures p.WordHolds(m, i + 1, x)
  {
    assert p.WordHolds(m, i, x);
    var k := p.heap.BlockAt(x);
    if k >= 0 { EndWordUnlessFirst(p, i, k); }
  }

  // Inverting slot i changes the end of the header chain of block k only when it starts the chain of
  // one of the infix headers of k.
  lemma EndWordUnlessFirst(p: Plan, i: nat, k: nat)
    requires p.Valid() && i < |p.slots| && k < |p.heap.blks|
    requires var n := p.Tgt(p.slots[i]);
             p.heap.blks[k].hp < n < p.heap.blks[k].End() ==> p.Last(i, n) >= 0
    ensures p.EndWord(i + 1, k) == p.EndWord(i, k)
  {
  }

  lemma EndWordStep(p: Plan, i: nat, j: nat)
    requires p.Valid() && j <= i < |p.slots| && p.Tgt(p.slots[j]) >= 0
    requires p.Tgt(p.slots[i]) < 0 || p.IsHeader(p.Tgt(p.slots[i])) || p.Last(i, p.Tgt(p.slots[i])) >= 0
    ensures j < i ==> p.SlotWord(i + 1, j) == p.SlotWord(i, j)
  {
    if j < i {
      TargetIsNode(p, j);
      var k := p.heap.BlockAt(p.Tgt(p.slots[j]));
      var n := p.Tgt(p.slots[i]);
      if p.heap.blks[k].hp < n < p.heap.blks[k].End() {
        p.heap.BlockAtIs(n, k);
      }
      EndWordUnlessFirst(p, i, k);
    }
  }

  // The new slot takes over what the node held, the node points to the slot.
  lemma NewWords(p: Plan, i: nat, n: nat)
    requires p.Valid() && i < |p.slots| && p.Tgt(p.slots[i]) == n
    requires p.IsNode(n) && (p.IsHeader(n) || p.Last(i, n) >= 0)
    ensures p.SlotWord(i + 1, i) == p.NodeWord(i, n)
    ensures p.NodeWord(i + 1, n) == if p.IsHeader(n) then Ptr(p.slots[i]) else IPtr(p.slots[i])
  {
    EndWordUnlessFirst(p, i, p.heap.BlockAt(n));
  }

  // The change of memory when slot i is inverted, except when it starts an infix chain.
  ghost predicate InvertedNode(p: Plan, m: seq<Word>, i: nat, m': seq<Word>)
    requires p.InBase()
  {
    && i < |p.slots|
    && var n := p.Tgt(p.slots[i]);
    && n >= 0 && n < |m| == |m'| == |p.base| && (p.IsHeader(n) || p.Last(i, n) >= 0)
    && m'[p.slots[i]] == m[n]
    && m'[n] == (if p.IsHeader(n) then Ptr(p.slots[i]) else IPtr(p.slots[i]))
    && (forall x :: 0 <= x < |m| && x != n && x != p.slots[i] ==> m'[x] == m[x])
  }

  // Inverting a pointer to a block header, or to an infix header that already has a chain.
  lemma InvertNode(p: Plan, m: seq<Word>, i: nat, m': seq<Word>)
    requires p.Valid() && i < |p.slots| && p.Threaded(m, i) && InvertedNode(p, m, i, m')
    ensures p.Threaded(m', i + 1)
  {
    hide Plan.Valid;
    hide InvertedNode;
    hide Plan.SlotHolds;
    hide Plan.WordHolds;
    hide Plan.Tgt;
    ValidInBase(p);
    InvertedSizes(p, m, i, m');
    var i' := i + 1;
    forall j | 0 <= j < i' ensures p.SlotHolds(m', i', j) {
      if j < i { OtherSlot(p, m, i, m', j); } else { NodeWords(p, m, i, m'); }
    }
    forall x | 0 <= x < |m| ensures p.WordHolds(m', i', x) {
      if x != p.Tgt(p.slots[i]) { OtherWord(p, m, i, m', x); } else { NodeWords(p, m, i, m'); }
    }
  }

  lemma InvertedSizes(p: Plan, m: seq<Word>, i: nat, m': seq<Word>)
    requires p.InBase() && InvertedNode(p, m, i, m')
    ensures |m'| == |m| && i < |p.slots| && 0 <= p.Tgt(p.slots[i]) < |m|
  {
  }

  lemma NodeWords(p: Plan, m: seq<Word>, i: nat, m': seq<Word>)
    requires p.Valid() && i < |p.slots| && p.Threaded(m, i) && InvertedNode(p, m, i, m')
    ensures p.SlotHolds(m', i + 1, i) && p.WordHolds(m', i + 1, p.Tgt(p.slots[i]))
  {
    var n := p.Tgt(p.slots[i]);
    TargetIsNode(p, i);
    NodeNotInverted(p, i, n);
    NewWords(p, i, n);
    assert p.WordHolds(m, i, n);
  }

  // A node is never a slot that has been inverted.
  lemma NodeNotInverted(p: Plan, i: nat, n: nat)
    requires p.Valid() && i <= |p.slots| && p.IsNode(n)
    ensures !p.Inverted(i, n)
    ensures n !in p.slots || p.Tgt(n) < 0
  {
  }

  // What the inversion of slot i leaves alone, when it starts no infix chain: the slots before it ...
  lemma OtherSlot(p: Plan, m: seq<Word>, i: nat, m': seq<Word>, j: nat)
    requires p.Valid() && i < |p.slots| && p.Threaded(m, i) && InvertedNode(p, m, i, m')
    requires j < i
    ensures p.SlotHolds(m', i + 1, j)
  {
    if p.Tgt(p.slots[j]) >= 0 {
      TargetIsNode(p, i);
      NodeNotInverted(p, i, p.Tgt(p.slots[i]));
      EndWordStep(p, i, j);
      assert p.SlotHolds(m, i, j);
      assert p.Inverted(i, p.slots[j]);
      assert p.slots[j] != p.slots[i];
    }
  }

  // ... and the words that are neither slots inverted so far nor the node.
  lemma OtherWord(p: Plan, m: seq<Word>, i: nat, m': seq<Word>, x: nat)
    requires p.Valid() && i < |p.slots| && p.Threaded(m, i) && InvertedNode(p, m, i, m')
    requires x < |m| && x != p.Tgt(p.slots[i])
    ensures p.WordHolds(m', i + 1, x)
  {
    var n := p.Tgt(p.slots[i]);
    TargetIsNode(p, i);
    if !p.Inverted(i + 1, x) {
      assert x != p.slots[i];
      assert p.WordHolds(m, i, x);
      assert !p.Inverted(i, x);
      var k := p.heap.BlockAt(x);
      if k >= 0 {
        if p.heap.blks[k].hp < n < p.heap.blks[k].End() { p.heap.BlockAtIs(n, k); }
        EndWordUnlessFirst(p, i, k);
      }
    }
  }

  // Address e is where the header chain of block k ends after i inversions.
  ghost predicate ChainEnd(p: Plan, i: nat, k: nat, e: nat)
    requires i <= |p.slots| && k < |p.heap.blks|
  {
    var hp := p.heap.blks[k].hp;
    if p.Last(i, hp) == -1 then e == hp
    else exists j :: 0 <= j < i && p.slots[j] == e && p.Tgt(e) == hp && p.Last(j, hp) == -1
  }

  // A chain has one end.
  lemma OneChainStart(p: Plan, i: nat, j: nat, l: nat, n: int)
    requires i <= |p.slots| && j < i && l < i
    requires p.Tgt(p.slots[j]) == n && p.Last(j, n) == -1
    requires p.Tgt(p.slots[l]) == n && p.Last(l, n) == -1
    ensures j == l
  {
    var a := LastIndex(p, j, n);
    var b := LastIndex(p, l, n);
  }

  // The word at the end of a header chain.
  lemma ChainEndWord(p: Plan, m: seq<Word>, i: nat, k: nat, e: nat)
    requires p.Valid() && i <= |p.slots| && p.Threaded(m, i)
    requires k < |p.heap.blks| && ChainEnd(p, i, k, e)
    ensures e < |m| && m[e] == p.EndWord(i, k)
    ensures e != p.heap.blks[k].hp ==> p.Inverted(i, e) && p.Tgt(e) == p.heap.blks[k].hp
  {
    var hp := p.heap.blks[k].hp;
    p.heap.BlockAtIs(hp, k);
    if p.Last(i, hp) == -1 {
      if p.Inverted(i, hp) {
        assert false;
      }
      assert p.WordHolds(m, i, hp);
    } else {
      var j :| 0 <= j < i && p.slots[j] == e && p.Tgt(e) == hp && p.Last(j, hp) == -1;
      assert p.SlotHolds(m, i, j);
      assert p.Inverted(i, e);
    }
  }

  // The context of the lemmas below: slot i starts the chain of infix header Tgt(slots[i]) of block k.
  ghost predicate Starts(p: Plan, i: nat, k: nat) {
    && i < |p.slots| && k < |p.heap.blks|
    && var n := p.Tgt(p.slots[i]);
    && n >= 0 && p.IsInfix(n) && p.Last(i, n) == -1 && p.heap.BlockAt(n) == k
  }

  lemma NotInside(p: Plan, i: nat, kj: nat, k: nat)
    requires p.heap.Apart() && Starts(p, i, k) && kj < |p.heap.blks| && kj != k
    ensures !(p.heap.blks[kj].hp < p.Tgt(p.slots[i]) < p.heap.blks[kj].End())
  {
    if kj < k {
      assert p.heap.blks[kj].End() <= p.heap.blks[k].hp;
    } else {
      assert p.heap.blks[k].End() <= p.heap.blks[kj].hp;
    }
  }

  // The header chain of k now ends with the offset of the new infix chain; the other header chains
  // end as before.
  lemma EndWordWhenFirst(p: Plan, i: nat, k: nat, kx: nat)
    requires p.Valid() && Starts(p, i, k) && kx < |p.heap.blks|
    ensures p.EndWord(i + 1, kx) ==
            if kx == k then Ehd(p.Tgt(p.slots[i]) - p.heap.blks[k].hp - 1, INFIX_TAG) else p.EndWord(i, kx)
  {
    if kx != k {
      NotInside(p, i, kx, k);
      EndWordUnlessFirst(p, i, kx);
    }
  }

  lemma ChainEndIsFirst(p: Plan, i: nat, k: nat, e: nat, j: nat)
    requires p.Valid() && i <= |p.slots| && j < i && k < |p.heap.blks| && ChainEnd(p, i, k, e)
    requires p.Tgt(p.slots[j]) == p.heap.blks[k].hp
    ensures p.slots[j] == e <==> p.Last(j, p.heap.blks[k].hp) == -1
    ensures p.Last(i, p.heap.blks[k].hp) != -1
  {
    var hp := p.heap.blks[k].hp;
    var a := LastIndex(p, i, hp);
    var l :| 0 <= l < i && p.slots[l] == e && p.Tgt(e) == hp && p.Last(l, hp) == -1;
    if p.Last(j, hp) == -1 { OneChainStart(p, i, j, l, hp); }
  }

  lemma SlotWordWhenFirst(p: Plan, i: nat, k: nat, e: nat, j: nat)
    requires p.Valid() && Starts(p, i, k) && ChainEnd(p, i, k, e)
    requires j < i && p.Tgt(p.slots[j]) >= 0
    ensures p.SlotWord(i + 1, j) ==
            if p.slots[j] == e then Ehd(p.Tgt(p.slots[i]) - p.heap.blks[k].hp - 1, INFIX_TAG)
            else p.SlotWord(i, j)
  {
    var n := p.Tgt(p.slots[j]);
    TargetIsNode(p, j);
    var kj := p.heap.BlockAt(n);
    p.heap.BlockAtIs(p.heap.blks[k].hp, k);
    EndWordWhenFirst(p, i, k, kj);
    if n == p.heap.blks[k].hp {
      ChainEndIsFirst(p, i, k, e, j);
    } else if p.slots[j] == e {
      ChainEndSlot(p, i, k, e, j);
    }
  }

  lemma ChainEndSlot(p: Plan, i: nat, k: nat, e: nat, j: nat)
    requires p.Valid() && i <= |p.slots| && j < i && k < |p.heap.blks| && ChainEnd(p, i, k, e)
    requires p.slots[j] == e && p.Tgt(e) >= 0
    ensures p.Tgt(e) == p.heap.blks[k].hp
  {
    var hp := p.heap.blks[k].hp;
    p.heap.BlockAtIs(hp, k);
    assert p.GoodSlot(p.slots[j]);
  }


  lemma NodeWordWhenFirst(p: Plan, i: nat, k: nat, e: nat, x: nat)
    requires p.Valid() && Starts(p, i, k) && ChainEnd(p, i, k, e)
    requires x < |p.base| && x != p.Tgt(p.slots[i]) && !p.Inverted(i, x)
    ensures p.NodeWord(i + 1, x) ==
            if x == e then Ehd(p.Tgt(p.slots[i]) - p.heap.blks[k].hp - 1, INFIX_TAG) else p.NodeWord(i, x)
  {
    var kx := p.heap.BlockAt(x);
    p.heap.BlockAtIs(p.heap.blks[k].hp, k);
    if kx >= 0 { EndWordWhenFirst(p, i, k, kx); }
  }

  // The change of memory when slot i starts an infix chain: the slot takes over what the end of the
  // header chain held, or a link to the infix header that was on top before.
  ghost predicate StartedChain(p: Plan, m: seq<Word>, i: nat, m': seq<Word>, k: nat, e: nat)
    requires p.InBase()
  {
    && Starts(p, i, k) && ChainEnd(p, i, k, e)
    && var n := p.Tgt(p.slots[i]);
    && |m| == |m'| == |p.base| && n < |m| && e < |m|
    && m'[p.slots[i]] == p.InfixEnd(i, k)
    && m'[n] == IPtr(p.slots[i])
    && m'[e] == Ehd(n - p.heap.blks[k].hp - 1, INFIX_TAG)
    && (forall x :: 0 <= x < |m| && x != n && x != p.slots[i] && x != e ==> m'[x] == m[x])
  }

  lemma FirstOtherSlot(p: Plan, m: seq<Word>, i: nat, m': seq<Word>, k: nat, e: nat, j: nat)
    requires p.Valid() && i < |p.slots| && StartedChain(p, m, i, m', k, e) && p.Threaded(m, i)
    requires j < i
    ensures p.SlotHolds(m', i + 1, j)
  {
    if p.Tgt(p.slots[j]) >= 0 {
      SlotWordWhenFirst(p, i, k, e, j);
      NodeNotInverted(p, i, p.Tgt(p.slots[i]));
      assert p.Inverted(i, p.slots[j]);
      assert p.SlotHolds(m, i, j);
    }
  }

  lemma FirstOtherWord(p: Plan, m: seq<Word>, i: nat, m': seq<Word>, k: nat, e: nat, x: nat)
    requires p.Valid() && i < |p.slots| && StartedChain(p, m, i, m', k, e) && p.Threaded(m, i)
    requires x < |m| && x != p.Tgt(p.slots[i])
    ensures p.WordHolds(m', i + 1, x)
  {
    if !p.Inverted(i + 1, x) {
      assert x != p.slots[i];
      assert !p.Inverted(i, x);
      assert p.WordHolds(m, i, x);
      NodeWordWhenFirst(p, i, k, e, x);
    }
  }

  // Starting the chain of an infix header of block k.
  lemma InvertInfixFirst(p: Plan, m: seq<Word>, i: nat, m': seq<Word>, k: nat, e: nat)
    requires p.Valid() && i < |p.slots| && StartedChain(p, m, i, m', k, e) && p.Threaded(m, i)
    ensures p.Threaded(m', i + 1)
  {
    var i' := i + 1;
    forall j | 0 <= j < i' ensures p.SlotHolds(m', i', j) {
      FirstSlot(p, m, i, m', k, e, j);
    }
    forall x | 0 <= x < |m| ensures p.WordHolds(m', i', x) {
      FirstWord(p, m, i, m', k, e, x);
    }
  }

  // The three writes that start an infix chain.
  lemma StartChainWrites(p: Plan, m: seq<Word>, i: nat, k: nat, e: nat)
    requires p.Valid() && Starts(p, i, k) && ChainEnd(p, i, k, e) && p.Threaded(m, i)
    requires e < |m|
    ensures var n := p.Tgt(p.slots[i]);
      && n < |m| && p.slots[i] < |m|
      && p.Threaded(m[p.slots[i] := p.InfixEnd(i, k)][n := IPtr(p.slots[i])]
                     [e := Ehd(n - p.heap.blks[k].hp - 1, INFIX_TAG)], i + 1)
  {
    var n := p.Tgt(p.slots[i]);
    TargetIsNode(p, i);
    ChainEndElsewhere(p, i, k, e);
    var m' := m[p.slots[i] := p.InfixEnd(i, k)][n := IPtr(p.slots[i])]
               [e := Ehd(n - p.heap.blks[k].hp - 1, INFIX_TAG)];
    InvertInfixFirst(p, m, i, m', k, e);
  }

  lemma FirstSlot(p: Plan, m: seq<Word>, i: nat, m': seq<Word>, k: nat, e: nat, j: nat)
    requires p.Valid() && i < |p.slots| && StartedChain(p, m, i, m', k, e) && p.Threaded(m, i)
    requires j < i + 1
    ensures p.SlotHolds(m', i + 1, j)
  {
    if j < i { FirstOtherSlot(p, m, i, m', k, e, j); } else { FirstWords(p, m, i, m', k, e); }
  }

  lemma FirstWord(p: Plan, m: seq<Word>, i: nat, m': seq<Word>, k: nat, e: nat, x: nat)
    requires p.Valid() && i < |p.slots| && StartedChain(p, m, i, m', k, e) && p.Threaded(m, i)
    requires x < |m|
    ensures p.WordHolds(m', i + 1, x)
  {
    if x == p.Tgt(p.slots[i]) { FirstWords(p, m, i, m', k, e); } else { FirstOtherWord(p, m, i, m', k, e, x); }
  }

  lemma FirstWords(p: Plan, m: seq<Word>, i: nat, m': seq<Word>, k: nat, e: nat)
    requires p.Valid() && i < |p.slots| && StartedChain(p, m, i, m', k, e) && p.Threaded(m, i)
    ensures p.SlotHolds(m', i + 1, i) && p.WordHolds(m', i + 1, p.Tgt(p.slots[i]))
  {
  }

  // The end of a header chain is neither a slot yet to be inverted nor an infix header.
  lemma ChainEndElsewhere(p: Plan, i: nat, k: nat, e: nat)
    requires p.Valid() && Starts(p, i, k) && ChainEnd(p, i, k, e)
    ensures e != p.slots[i] && e != p.Tgt(p.slots[i]) && p.slots[i] != p.Tgt(p.slots[i])
  {
    var n := p.Tgt(p.slots[i]);
    p.heap.BlockAtIs(p.heap.blks[k].hp, k);
    NodeNotInverted(p, i, n);
    assert p.GoodSlot(p.slots[i]);
  }

  // ---- Pass 3 ----

  // Some slot points into block k: it will be kept.
  ghost predicate Live(p: Plan, k: nat) {
    exists j :: 0 <= j < |p.slots| && p.Tgt(p.slots[j]) >= 0 && p.heap.BlockAt(p.Tgt(p.slots[j])) == k
  }

  // The address of a node's first field after the move, when block k moves to addr[k].
  ghost function NewValue(p: Plan, addr: seq<nat>, n: nat): nat
    requires |addr| == |p.heap.blks|
  {
    var k := p.heap.BlockAt(n);
    if k >= 0 then addr[k] + (n - p.heap.blks[k].hp) + 1 else 0
  }

  // A header or infix header after pass 3; the other words are not changed by it.
  ghost function DecodedWord(p: Plan, x: nat): Word
    requires p.InBase() && x < |p.base|
  {
    var k := p.heap.BlockAt(x);
    if k >= 0 && x == p.heap.blks[k].hp then
      Hdr(p.heap.blks[k].wosize, p.heap.blks[k].EncodedTag(), if Live(p, k) then White else Blue)
    else p.base[x]
  }

  ghost predicate SlotReverted(p: Plan, addr: seq<nat>, m: seq<Word>, done: set<nat>, j: nat)
    requires p.InBase() && |addr| == |p.heap.blks| && j < |p.slots| && |m| == |p.base|
  {
    if j in done then p.Tgt(p.slots[j]) >= 0 ==> m[p.slots[j]] == Ptr(NewValue(p, addr, p.Tgt(p.slots[j])))
    else p.SlotHolds(m, |p.slots|, j)
  }

  ghost predicate WordReverted(p: Plan, m: seq<Word>, fin: set<nat>, x: nat)
    requires p.InBase() && x < |m| == |p.base|
  {
    if x in fin then !p.Inverted(|p.slots|, x) ==> m[x] == DecodedWord(p, x)
    else p.WordHolds(m, |p.slots|, x)
  }

  // Memory when the slots numbered in done hold their new pointers and the headers in fin are decoded.
  ghost predicate Reverted(p: Plan, addr: seq<nat>, m: seq<Word>, done: set<nat>, fin: set<nat>)
    requires p.InBase() && |addr| == |p.heap.blks|
  {
    && |m| == |p.base|
    && (forall j :: 0 <= j < |p.slots| ==> SlotReverted(p, addr, m, done, j))
    && (forall x :: 0 <= x < |m| ==> WordReverted(p, m, fin, x))
  }

  ghost function SlotsInto(p: Plan, k: nat): set<nat> {
    set j | 0 <= j < |p.slots| && p.Tgt(p.slots[j]) >= 0 && 0 <= p.heap.BlockAt(p.Tgt(p.slots[j])) < k
  }

  ghost function WordsOf(p: Plan, k: nat): set<nat> {
    set x | 0 <= x < |p.base| && 0 <= p.heap.BlockAt(x) < k
  }

  // The first k blocks have been dealt with.
  ghost predicate RevertedUpTo(p: Plan, addr: seq<nat>, m: seq<Word>, k: nat)
    requires p.InBase() && |addr| == |p.heap.blks|
  {
    Reverted(p, addr, m, SlotsInto(p, k), WordsOf(p, k))
  }

  lemma RevertedStart(p: Plan, addr: seq<nat>, m: seq<Word>)
    requires p.Valid() && |addr| == |p.heap.blks| && p.Threaded(m, |p.slots|)
    ensures RevertedUpTo(p, addr, m, 0)
  {
  }

  lemma RevertSlot(p: Plan, addr: seq<nat>, m: seq<Word>, done: set<nat>, fin: set<nat>, j: nat)
    requires p.Valid() && |addr| == |p.heap.blks| && Reverted(p, addr, m, done, fin)
    requires j < |p.slots| && p.Tgt(p.slots[j]) >= 0
    ensures Reverted(p, addr, m[p.slots[j] := Ptr(NewValue(p, addr, p.Tgt(p.slots[j])))], done + {j}, fin)
  {
    var m' := m[p.slots[j] := Ptr(NewValue(p, addr, p.Tgt(p.slots[j])))];
    var done' := done + {j};
    assert p.Inverted(|p.slots|, p.slots[j]);
    forall x | 0 <= x < |m| ensures WordReverted(p, m', fin, x) {
      assert WordReverted(p, m, fin, x);
    }
    forall l | 0 <= l < |p.slots| ensures SlotReverted(p, addr, m', done', l) {
      assert SlotReverted(p, addr, m, done, l);
      assert l == j || p.slots[l] != p.slots[j];
    }
  }

  lemma DecodeNode(p: Plan, addr: seq<nat>, m: seq<Word>, done: set<nat>, fin: set<nat>, x: nat)
    requires p.Valid() && |addr| == |p.heap.blks| && Reverted(p, addr, m, done, fin)
    requires x < |m| && (p.IsHeader(x) || p.IsInfix(x))
    ensures Reverted(p, addr, m[x := DecodedWord(p, x)], done, fin + {x})
    ensures p.IsInfix(x) ==> DecodedWord(p, x) == Hdr(x - p.heap.blks[p.heap.BlockAt(x)].hp, INFIX_TAG, White)
  {
    var m' := m[x := DecodedWord(p, x)];
    var fin' := fin + {x};
    assert !p.Inverted(|p.slots|, x);
    forall y | 0 <= y < |m| ensures WordReverted(p, m', fin', y) {
      assert WordReverted(p, m, fin, y);
    }
    forall l | 0 <= l < |p.slots| ensures SlotReverted(p, addr, m', done, l) {
      assert SlotReverted(p, addr, m, done, l);
      assert p.Tgt(p.slots[l]) >= 0 ==> p.slots[l] != x;
    }
  }

  // Top(a, k) was started by a slot before a, and the same infix chains of k are running before that
  // slot and before a, except for the one it started.
  lemma {:induction false} TopIndex(p: Plan, a: nat, k: nat) returns (act: int)
    requires a <= |p.slots| && k < |p.heap.blks|
    ensures -1 <= act < a
    ensures act == -1 <==> p.Top(a, k) == -1
    ensures act == -1 || p.Top(a, k) > p.heap.blks[k].hp
    ensures act == -1 ==> forall n :: p.heap.blks[k].hp < n < p.heap.blks[k].End() ==> p.Last(a, n) == -1
    ensures act >= 0 ==>
      && p.Tgt(p.slots[act]) == p.Top(a, k) && p.Last(act, p.Top(a, k)) == -1 && p.Last(a, p.Top(a, k)) >= 0
      && p.heap.blks[k].hp < p.Top(a, k) < p.heap.blks[k].End()
    ensures act >= 0 ==>
      forall n :: p.heap.blks[k].hp < n < p.heap.blks[k].End() && n != p.Top(a, k) ==>
        (p.Last(a, n) == -1 <==> p.Last(act, n) == -1)
  {
    if a == 0 {
      act := -1;
    } else {
      var n := p.Tgt(p.slots[a - 1]);
      if p.heap.blks[k].hp < n < p.heap.blks[k].End() && p.Last(a - 1, n) == -1 {
        act := a - 1;
      } else {
        act := TopIndex(p, a - 1, k);
      }
    }
  }
}
