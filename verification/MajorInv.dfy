// The invariant of the collector and what the small steps do to it.
module MajorInv {
  import opened Header
  import opened MajorState

  ghost predicate NoOverlap(s: State) {
    && (forall a :: a in s.heap ==> s.heap[a].color != Blue && s.heap[a].End(a) <= s.limit)
    && (forall a, b :: a in s.heap && b in s.heap && a < b ==> s.heap[a].End(a) <= b)
  }

  // What holds in every phase.
  ghost predicate Shape(s: State) {
    NoOverlap(s) && Closed(s.heap, s.roots, s.live) && 2 <= s.size
  }

  // ---- Marking ----

  // The stack holds gray blocks, each once.
  ghost predicate StackGray(s: State) {
    && (forall i :: 0 <= i < |s.stack| ==> s.stack[i] in s.heap && s.heap[s.stack[i]].color == Gray)
    && (forall i, j :: 0 <= i < j < |s.stack| ==> s.stack[i] != s.stack[j])
  }

  ghost predicate Found(s: State, a: nat) {
    a in s.heap && s.heap[a].color == Gray ==> a in s.stack || 0 <= s.markhp <= a
  }

  // While heap_is_pure, every gray block is in the stack or ahead of the scan pointer.
  ghost predicate Accounted(s: State) {
    s.pure ==> forall a :: Found(s, a)
  }

  ghost predicate Stacked(s: State) {
    |s.stack| < s.size && StackGray(s) && Accounted(s) && -1 <= s.markhp
  }

  ghost predicate Dark(s: State, a: nat) {
    a in s.heap && s.heap[a].color != White
  }

  // The pointer to t that block x held in the snapshot will not be lost.
  ghost predicate Kept(s: State, x: nat, t: nat) {
    x in s.snap && x in s.heap && Ptr(t) in s.snap[x].Scan() ==>
      Dark(s, t) || (s.heap[x].color != Black && Ptr(t) in s.heap[x].Scan())
  }

  ghost predicate Tricolor(s: State) {
    && NoDangling(s.heap)
    && (forall a :: Dark(s, a) ==> a in s.live)
    && s.snap.Keys <= s.live
    && (forall a :: a in s.live && a !in s.snap ==> a in s.heap && s.heap[a].color == Black)
    && (forall a :: a in s.snap ==> Reachable(s.snap, s.snapRoots, a))
    && (forall a :: a in s.snap ==> a in s.heap && s.heap[a].tag == s.snap[a].tag)
  }

  ghost predicate RootsDark(s: State) {
    forall a :: a in s.snapRoots ==> Dark(s, a)
  }

  ghost predicate MarkInv(s: State) {
    && Shape(s) && Stacked(s) && Tricolor(s) && RootsDark(s)
    && forall x, t :: Kept(s, x, t)
  }

  // ---- Sweeping and idling ----

  ghost predicate Quiet(s: State) {
    s.stack == [] && s.pure && s.markhp == -1
  }

  ghost predicate SweepColor(s: State, a: nat) {
    a in s.heap ==>
      if a < s.sweephp then s.heap[a].color == White && a in s.live
      else s.heap[a].color == if a in s.live then Black else White
  }

  ghost predicate SweepInv(s: State) {
    Shape(s) && Quiet(s) && forall a :: SweepColor(s, a)
  }

  ghost predicate IdleInv(s: State) {
    && Shape(s) && Quiet(s)
    && s.live == s.heap.Keys
    && forall a :: a in s.heap ==> s.heap[a].color == White
  }

  ghost predicate Inv(s: State) {
    match s.phase
    case Idle => IdleInv(s)
    case Mark => MarkInv(s)
    case Sweep => SweepInv(s)
  }

  // ---- Changing colors ----

  lemma RecolorShape(s: State, a: nat, c: Color)
    requires Shape(s) && a in s.heap && c != Blue
    ensures Shape(Recolor(s, a, c))
  {
    var t := Recolor(s, a, c);
    forall x | x in t.live ensures Inside(t.heap, t.live, x) {
      assert Inside(s.heap, s.live, x);
    }
  }

  lemma RecolorTricolor(s: State, a: nat, c: Color)
    requires Tricolor(s) && a in s.heap && a in s.live && c != White
    requires a in s.snap || c == Black
    ensures Tricolor(Recolor(s, a, c))
  {
    var t := Recolor(s, a, c);
    forall x | x in t.heap ensures Inside(t.heap, t.heap.Keys, x) {
      assert Inside(s.heap, s.heap.Keys, x);
    }
    forall x | Dark(t, x) ensures x in t.live {
      assert x == a || Dark(s, x);
    }
  }

  // Blackening a block with no fields to follow, or graying any white block, loses nothing.
  lemma RecolorKept(s: State, a: nat, c: Color, x: nat, t: nat)
    requires a in s.heap && c != White && (c == Gray || s.heap[a].Scan() == [])
    requires Kept(s, x, t)
    requires c == Black && a in s.snap ==> s.heap[a].tag == s.snap[a].tag
    ensures Kept(Recolor(s, a, c), x, t)
  {
    assert Dark(s, t) ==> Dark(Recolor(s, a, c), t);
  }

  // ---- The stack ----

  lemma OverflowStacked(s: State, grow: bool)
    requires StackGray(s) && Accounted(s) && |s.stack| <= s.size && 2 <= s.size && -1 <= s.markhp
    ensures Stacked(Overflow(s, grow)) && 2 <= Overflow(s, grow).size
  {
    var t := Overflow(s, grow);
    if t.pure {
      forall a ensures Found(t, a) {
        assert Found(s, a);
      }
    }
  }

  lemma PushStacked(s: State, a: nat, grow: bool)
    requires Stacked(s) && 2 <= s.size && a in s.heap && s.heap[a].color == White
    ensures Stacked(PushGray(s, a, grow)) && 2 <= PushGray(s, a, grow).size
  {
    var t := Recolor(s, a, Gray);
    t := t.(stack := t.stack + [a]);
    assert a !in s.stack;
    forall x ensures s.pure ==> Found(t, x) {
      if s.pure {
        assert Found(s, x);
        if x == a {
          assert t.stack[|s.stack|] == a;
        } else if x in s.stack {
          var i :| 0 <= i < |s.stack| && s.stack[i] == x;
          assert t.stack[i] == x;
        }
      }
    }
    OverflowStacked(t, grow);
  }

  // Overflow changes the stack, its size and the flag only.
  ghost predicate SameHeap(s: State, t: State) {
    && t.heap == s.heap && t.roots == s.roots && t.phase == s.phase && t.subphase == s.subphase
    && t.markhp == s.markhp && t.sweephp == s.sweephp && t.limit == s.limit && t.bytes == s.bytes
    && t.live == s.live && t.snap == s.snap && t.snapRoots == s.snapRoots
  }

  lemma PushSameHeap(s: State, a: nat, grow: bool)
    requires a in s.heap
    ensures SameHeap(Recolor(s, a, Gray), PushGray(s, a, grow))
  {
  }

  lemma SameHeapFacts(s: State, t: State)
    requires SameHeap(s, t)
    ensures Tricolor(s) ==> Tricolor(t)
    ensures RootsDark(s) ==> RootsDark(t)
    ensures Shape(s) && 2 <= t.size ==> Shape(t)
    ensures forall x, u :: Kept(s, x, u) ==> Kept(t, x, u)
  {
    forall a ensures Dark(s, a) == Dark(t, a) {
    }
  }
}
