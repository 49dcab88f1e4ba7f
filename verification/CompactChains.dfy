// Walking the chains of one block: facts about the words a walk meets.
module CompactChains {
  import opened Header
  import opened CompactHeap
  import opened CompactThread

  // The chains of block k are as pass 2 leaves them after i inversions, whatever the other words hold.
  ghost predicate Intact(p: Plan, m: seq<Word>, i: nat, k: nat)
    requires p.InBase() && i <= |p.slots| && k < |p.heap.blks|
  {
    && |m| == |p.base|
    && (forall j :: 0 <= j < i && p.Tgt(p.slots[j]) >= 0 && p.heap.BlockAt(p.Tgt(p.slots[j])) == k ==>
          p.SlotHolds(m, i, j))
    && (forall x :: 0 <= x < |m| && p.heap.BlockAt(x) == k ==> p.WordHolds(m, i, x))
  }

  // The first word of the part of the header chain of block k that was there before slot j.
  ghost function HeaderWord(p: Plan, i: nat, k: nat, j: nat): Word
    requires p.InBase() && j <= i <= |p.slots| && k < |p.heap.blks|
  {
    var l := p.Last(j, p.heap.blks[k].hp);
    if l >= 0 then Ptr(l) else p.EndWord(i, k)
  }

  lemma HeaderStart(p: Plan, m: seq<Word>, i: nat, k: nat)
    requires p.Valid() && i <= |p.slots| && k < |p.heap.blks| && Intact(p, m, i, k)
    ensures m[p.heap.blks[k].hp] == HeaderWord(p, i, k, i)
  {
    var hp := p.heap.blks[k].hp;
    p.heap.BlockAtIs(hp, k);
    assert p.WordHolds(m, i, hp);
    assert !p.Inverted(i, hp);
  }

  lemma HeaderNext(p: Plan, i: nat, k: nat, j: nat) returns (l: nat)
    requires p.Valid() && j <= i <= |p.slots| && k < |p.heap.blks|
    requires p.Last(j, p.heap.blks[k].hp) >= 0
    ensures l < j && p.slots[l] == p.Last(j, p.heap.blks[k].hp) < |p.base|
    ensures p.Tgt(p.slots[l]) == p.heap.blks[k].hp && p.heap.BlockAt(p.heap.blks[k].hp) == k
    ensures p.SlotWord(i, l) == HeaderWord(p, i, k, l)
    ensures forall x :: l < x < j ==> p.Tgt(p.slots[x]) != p.heap.blks[k].hp
  {
    var hp := p.heap.blks[k].hp;
    p.heap.BlockAtIs(hp, k);
    l := LastIndex(p, j, hp);
  }

  lemma HeaderStep(p: Plan, m: seq<Word>, i: nat, k: nat, j: nat) returns (l: nat)
    requires p.Valid() && j <= i <= |p.slots| && k < |p.heap.blks| && Intact(p, m, i, k)
    requires p.Last(j, p.heap.blks[k].hp) >= 0
    ensures l < j && p.slots[l] == p.Last(j, p.heap.blks[k].hp) < |m|
    ensures p.Tgt(p.slots[l]) == p.heap.blks[k].hp
    ensures m[p.slots[l]] == HeaderWord(p, i, k, l)
  {
    l := HeaderNext(p, i, k, j);
    assert p.SlotHolds(m, i, l);
  }

  // Infix header x of block k was activated by slot act.
  ghost predicate Active(p: Plan, k: nat, x: int, act: nat)
    requires k < |p.heap.blks|
  {
    && act < |p.slots| && p.heap.blks[k].hp < x < p.heap.blks[k].End()
    && p.Tgt(p.slots[act]) == x && p.Last(act, x) == -1
  }

  // The first word of the part of the chain of infix header x that was there before slot j.
  ghost function InfixWord(p: Plan, k: nat, x: int, act: nat, j: nat): Word
    requires p.InBase() && act <= |p.slots| && j <= |p.slots| && k < |p.heap.blks|
  {
    var l := p.Last(j, x);
    if l >= 0 then IPtr(l) else p.InfixEnd(act, k)
  }

  lemma InfixStart(p: Plan, m: seq<Word>, i: nat, k: nat, x: nat, act: nat)
    requires p.Valid() && i <= |p.slots| && k < |p.heap.blks| && Intact(p, m, i, k)
    requires Active(p, k, x, act) && act < i
    ensures x < |m| && m[x] == InfixWord(p, k, x, act, i) && m[x].IPtr?
    ensures p.IsInfix(x)
  {
    p.heap.BlockAtIs(x, k);
    TargetIsNode(p, act);
    NodeNotInverted(p, i, x);
    assert p.WordHolds(m, i, x);
    var l := LastIndex(p, i, x);
  }

  lemma InfixNext(p: Plan, i: nat, k: nat, x: nat, act: nat, j: nat) returns (l: nat)
    requires p.Valid() && j <= i <= |p.slots| && k < |p.heap.blks|
    requires Active(p, k, x, act) && p.Last(j, x) >= 0
    ensures act <= l < j && p.slots[l] == p.Last(j, x) < |p.base|
    ensures p.Tgt(p.slots[l]) == x && p.heap.BlockAt(x) == k
    ensures p.SlotWord(i, l) == InfixWord(p, k, x, act, l)
    ensures forall y :: l < y < j ==> p.Tgt(p.slots[y]) != x
  {
    p.heap.BlockAtIs(x, k);
    l := LastIndex(p, j, x);
    var b := LastIndex(p, act, x);
    if p.Last(l, x) == -1 { OneChainStart(p, |p.slots|, l, act, x); }
    var c := LastIndex(p, l, x);
  }

  lemma InfixStep(p: Plan, m: seq<Word>, i: nat, k: nat, x: nat, act: nat, j: nat) returns (l: nat)
    requires p.Valid() && j <= i <= |p.slots| && k < |p.heap.blks| && Intact(p, m, i, k)
    requires Active(p, k, x, act) && p.Last(j, x) >= 0
    ensures act <= l < j && p.slots[l] == p.Last(j, x) < |m|
    ensures m[p.slots[l]] == InfixWord(p, k, x, act, l)
  {
    l := InfixNext(p, i, k, x, act, j);
    assert p.SlotHolds(m, i, l);
  }

  // After the infix chain started by act comes the one that was on top before, or the end.
  lemma NextInfix(p: Plan, a: nat, k: nat) returns (act: int)
    requires p.Valid() && a <= |p.slots| && k < |p.heap.blks|
    ensures -1 <= act < a
    ensures act == -1 <==> p.Top(a, k) == -1
    ensures act >= 0 ==> Active(p, k, p.Top(a, k), act) && p.InfixEnd(a, k) == Link(p.Top(a, k))
    ensures act >= 0 ==> p.EndWord(a, k) == Ehd(p.Top(a, k) - p.heap.blks[k].hp - 1, INFIX_TAG)
    ensures act == -1 ==> p.InfixEnd(a, k) == p.base[p.heap.blks[k].hp] == p.EndWord(a, k)
    ensures act == -1 ==> forall n :: p.heap.blks[k].hp < n < p.heap.blks[k].End() ==> p.Last(a, n) == -1
    ensures act >= 0 ==>
      forall n :: p.heap.blks[k].hp < n < p.heap.blks[k].End() && n != p.Top(a, k) ==>
        (p.Last(a, n) == -1 <==> p.Last(act, n) == -1)
  {
    act := TopIndex(p, a, k);
  }

  lemma ThreadedIntact(p: Plan, m: seq<Word>, i: nat, k: nat)
    requires p.InBase() && i <= |p.slots| && k < |p.heap.blks| && p.Threaded(m, i)
    ensures Intact(p, m, i, k)
  {
  }

  lemma RevertedIntact(p: Plan, addr: seq<nat>, m: seq<Word>, k: nat)
    requires p.InBase() && k < |p.heap.blks| && |addr| == |p.heap.blks| && RevertedUpTo(p, addr, m, k)
    ensures Intact(p, m, |p.slots|, k)
  {
    var done, fin := SlotsInto(p, k), WordsOf(p, k);
    forall j | 0 <= j < |p.slots| && p.Tgt(p.slots[j]) >= 0 && p.heap.BlockAt(p.Tgt(p.slots[j])) == k
      ensures p.SlotHolds(m, |p.slots|, j)
    {
      assert SlotReverted(p, addr, m, done, j);
    }
    forall x | 0 <= x < |m| && p.heap.BlockAt(x) == k ensures p.WordHolds(m, |p.slots|, x) {
      assert WordReverted(p, m, fin, x);
    }
  }

  // What invert_pointer_at finds in a slot without a target: no pointer into the heap ...
  lemma SlotWithoutTarget(p: Plan, m: seq<Word>, i: nat)
    requires p.Valid() && i < |p.slots| && p.Threaded(m, i) && p.Tgt(p.slots[i]) < 0
    ensures var q := m[p.slots[i]]; Ecolor(q) == 0 ==> q.Ptr? && !p.heap.InHeap(q.a)
  {
    SlotIntact(p, m, i);
    assert p.GoodSlot(p.slots[i]);
  }

  // ... and in a slot with one: its original pointer, to a word that tells the kind of node.
  lemma SlotWithTarget(p: Plan, m: seq<Word>, i: nat, n: nat)
    requires p.Valid() && i < |p.slots| && p.Threaded(m, i) && p.Tgt(p.slots[i]) == n
    ensures m[p.slots[i]] == Ptr(n + 1) && p.heap.InHeap(n + 1) && n < |m| && n != p.slots[i]
    ensures |m| == |p.base| && p.slots[i] < |m|
    ensures m[n] == p.NodeWord(i, n) && p.IsNode(n)
  {
    SlotIntact(p, m, i);
    assert p.GoodSlot(p.slots[i]);
    TargetIsNode(p, i);
    NodeNotInverted(p, i, n);
    assert p.WordHolds(m, i, n);
  }

  lemma NodeColor(p: Plan, i: nat, n: nat)
    requires p.Valid() && i <= |p.slots| && p.IsNode(n) && n < |p.base|
    ensures var w := p.NodeWord(i, n);
            if p.IsHeader(n) then Ecolor(w) == 0 || Ecolor(w) == 3
            else if p.Last(i, n) >= 0 then Ecolor(w) == 2
            else p.IsInfix(n) && w == Hdr(n - p.heap.blks[p.heap.BlockAt(n)].hp, INFIX_TAG, White)
  {
  }

  // ---- Pass 3 ----

  // The slots from number j on that point to node n.
  ghost function SlotsTo(p: Plan, n: nat, j: nat): set<nat> {
    set l | j <= l < |p.slots| && p.Tgt(p.slots[l]) == n
  }

  // The slots that point to infix headers of block k not active yet before slot a.
  ghost function InfixSlots(p: Plan, k: nat, a: nat): set<nat>
    requires a <= |p.slots| && k < |p.heap.blks|
  {
    set l | 0 <= l < |p.slots| && p.heap.blks[k].hp < p.Tgt(p.slots[l]) < p.heap.blks[k].End()
            && p.Last(a, p.Tgt(p.slots[l])) == -1
  }

  lemma SlotsToStep(p: Plan, n: nat, j: nat, l: nat)
    requires l < j <= |p.slots| && p.Tgt(p.slots[l]) == n
    requires forall x :: l < x < j ==> p.Tgt(p.slots[x]) != n
    ensures SlotsTo(p, n, l) == SlotsTo(p, n, j) + {l} && l !in SlotsTo(p, n, j)
  {
  }

  lemma SlotsToEnd(p: Plan, n: nat, j: nat)
    requires j <= |p.slots| && p.Last(j, n) == -1
    ensures SlotsTo(p, n, j) == SlotsTo(p, n, 0)
  {
    var l := LastIndex(p, j, n);
  }

  // A block is kept exactly when pass 3 finds a chain at its header or an infix offset in it.
  lemma LiveCases(p: Plan, k: nat)
    requires p.Valid() && k < |p.heap.blks|
    ensures Live(p, k) <==> p.Last(|p.slots|, p.heap.blks[k].hp) >= 0 || p.Top(|p.slots|, k) != -1
  {
    var hp, n := p.heap.blks[k].hp, |p.slots|;
    p.heap.BlockAtIs(hp, k);
    var l := LastIndex(p, n, hp);
    var act := TopIndex(p, n, k);
    if act >= 0 {
      p.heap.BlockAtIs(p.Top(n, k), k);
      assert p.heap.BlockAt(p.Tgt(p.slots[act])) == k;
    }
    if Live(p, k) && l == -1 && act == -1 {
      var j :| 0 <= j < n && p.Tgt(p.slots[j]) >= 0 && p.heap.BlockAt(p.Tgt(p.slots[j])) == k;
      var c := LastIndex(p, n, p.Tgt(p.slots[j]));
      assert false;
    }
  }

  // Between two infix chains: the slots of the chain started by act are exactly those that become done.
  lemma InfixSlotsStep(p: Plan, k: nat, a: nat, act: nat)
    requires p.Valid() && a <= |p.slots| && k < |p.heap.blks| && act < a
    requires Active(p, k, p.Top(a, k), act)
    requires forall n :: p.heap.blks[k].hp < n < p.heap.blks[k].End() && n != p.Top(a, k) ==>
               (p.Last(a, n) == -1 <==> p.Last(act, n) == -1)
    ensures InfixSlots(p, k, act) == InfixSlots(p, k, a) + SlotsTo(p, p.Top(a, k), 0)
  {
    var t := p.Top(a, k);
    var l := LastIndex(p, a, t);
  }

  lemma InfixSlotsStart(p: Plan, k: nat)
    requires p.Valid() && k < |p.heap.blks|
    ensures InfixSlots(p, k, |p.slots|) == {}
  {
    forall l | 0 <= l < |p.slots| ensures p.Tgt(p.slots[l]) >= 0 ==> p.Last(|p.slots|, p.Tgt(p.slots[l])) >= 0 {
      var j := LastIndex(p, |p.slots|, p.Tgt(p.slots[l]));
    }
  }

  // When no infix chain of block k is left, all slots into block k are done.
  lemma AllSlotsDone(p: Plan, k: nat, a: nat)
    requires p.Valid() && a <= |p.slots| && k < |p.heap.blks|
    requires forall n :: p.heap.blks[k].hp < n < p.heap.blks[k].End() ==> p.Last(a, n) == -1
    ensures SlotsInto(p, k) + SlotsTo(p, p.heap.blks[k].hp, 0) + InfixSlots(p, k, a) == SlotsInto(p, k + 1)
  {
    var hp := p.heap.blks[k].hp;
    p.heap.BlockAtIs(hp, k);
    forall l | 0 <= l < |p.slots| && hp < p.Tgt(p.slots[l]) < p.heap.blks[k].End()
      ensures p.heap.BlockAt(p.Tgt(p.slots[l])) == k
    {
      p.heap.BlockAtIs(p.Tgt(p.slots[l]), k);
    }
  }

  // The infix headers of block k with chains, not active yet before slot a.
  ghost function InfixNodes(p: Plan, k: nat, a: nat): set<nat>
    requires a <= |p.slots| && k < |p.heap.blks|
  {
    set x | p.heap.blks[k].hp < x < p.heap.blks[k].End() && p.Last(|p.slots|, x) >= 0 && p.Last(a, x) == -1
  }

  lemma InfixNodesStep(p: Plan, k: nat, a: nat, act: nat)
    requires p.Valid() && a <= |p.slots| && k < |p.heap.blks| && act < a
    requires Active(p, k, p.Top(a, k), act)
    requires forall n :: p.heap.blks[k].hp < n < p.heap.blks[k].End() && n != p.Top(a, k) ==>
               (p.Last(a, n) == -1 <==> p.Last(act, n) == -1)
    ensures InfixNodes(p, k, act) == InfixNodes(p, k, a) + {p.Top(a, k)}
    ensures p.Top(a, k) !in InfixNodes(p, k, a)
  {
    var t := p.Top(a, k);
    var l := LastIndex(p, a, t);
    var j := LastIndex(p, |p.slots|, t);
  }

  lemma InfixNodesStart(p: Plan, k: nat)
    requires k < |p.heap.blks|
    ensures InfixNodes(p, k, |p.slots|) == {}
  {
  }

  // While the infix chains of block k are being reverted, those activated by slots before a are left.
  ghost function DoneBefore(p: Plan, k: nat, a: nat): set<nat>
    requires a <= |p.slots| && k < |p.heap.blks|
  {
    SlotsInto(p, k) + SlotsTo(p, p.heap.blks[k].hp, 0) + InfixSlots(p, k, a)
  }

  ghost function FinBefore(p: Plan, k: nat, a: nat): set<nat>
    requires a <= |p.slots| && k < |p.heap.blks|
  {
    WordsOf(p, k) + {p.heap.blks[k].hp} + InfixNodes(p, k, a)
  }

  ghost predicate InfixState(p: Plan, addr: seq<nat>, m: seq<Word>, k: nat, a: nat)
    requires p.InBase() && k < |p.heap.blks| == |addr|
  {
    a <= |p.slots| && Reverted(p, addr, m, DoneBefore(p, k, a), FinBefore(p, k, a))
  }

  // Part of the way down the chain of infix header x: slots from number j on are done.
  ghost predicate InfixPart(p: Plan, addr: seq<nat>, m: seq<Word>, k: nat, a: nat, x: nat, j: nat)
    requires p.InBase() && k < |p.heap.blks| == |addr|
  {
    && a <= |p.slots| && j <= |p.slots|
    && Reverted(p, addr, m, DoneBefore(p, k, a) + SlotsTo(p, x, j), FinBefore(p, k, a))
  }

  lemma InfixPartStart(p: Plan, addr: seq<nat>, m: seq<Word>, k: nat, a: nat, act: nat)
    requires p.Valid() && p.InBase() && k < |p.heap.blks| == |addr| && InfixState(p, addr, m, k, a)
    requires act < a && Active(p, k, p.Top(a, k), act)
    ensures InfixPart(p, addr, m, k, a, p.Top(a, k), |p.slots|)
    ensures p.Top(a, k) < |m| == |p.base| && p.IsInfix(p.Top(a, k)) && p.heap.BlockAt(p.Top(a, k)) == k
    ensures m[p.Top(a, k)] == InfixWord(p, k, p.Top(a, k), act, |p.slots|)
  {
    hide Plan.Valid;
    hide Reverted;
    hide DoneBefore;
    var x := p.Top(a, k);
    assert SlotsTo(p, x, |p.slots|) == {};
    assert DoneBefore(p, k, a) + {} == DoneBefore(p, k, a);
    InfixTopFacts(p, k, a, act);
    TopNotFin(p, k, a);
    WordStillHolds(p, addr, m, DoneBefore(p, k, a), FinBefore(p, k, a), x);
  }

  lemma InfixTopFacts(p: Plan, k: nat, a: nat, act: nat)
    requires p.Valid() && k < |p.heap.blks| && act < a <= |p.slots| && Active(p, k, p.Top(a, k), act)
    ensures var x := p.Top(a, k);
      && x < |p.base| && p.IsInfix(x) && p.heap.BlockAt(x) == k && p.heap.blks[k].hp < x
      && !p.Inverted(|p.slots|, x)
      && p.NodeWord(|p.slots|, x) == InfixWord(p, k, x, act, |p.slots|)
  {
    var x := p.Top(a, k);
    p.heap.BlockAtIs(x, k);
    TargetIsNode(p, act);
    NodeNotInverted(p, |p.slots|, x);
    var l := LastIndex(p, |p.slots|, x);
  }

  lemma TopNotFin(p: Plan, k: nat, a: nat)
    requires k < |p.heap.blks| && a <= |p.slots| && p.Top(a, k) > p.heap.blks[k].hp
    requires p.heap.BlockAt(p.Top(a, k)) == k
    ensures p.Top(a, k) !in FinBefore(p, k, a)
  {
    TopActive(p, k, a);
  }

  lemma WordStillHolds(p: Plan, addr: seq<nat>, m: seq<Word>, done: set<nat>, fin: set<nat>, x: nat)
    requires p.InBase() && |addr| == |p.heap.blks| && Reverted(p, addr, m, done, fin)
    requires x < |p.base| && x !in fin && !p.Inverted(|p.slots|, x)
    ensures x < |m| == |p.base| && m[x] == p.NodeWord(|p.slots|, x)
  {
    assert WordReverted(p, m, fin, x);
  }

  lemma TopActive(p: Plan, k: nat, a: nat)
    requires a <= |p.slots| && k < |p.heap.blks| && p.Top(a, k) != -1
    ensures p.Last(a, p.Top(a, k)) >= 0
  {
    var act := TopIndex(p, a, k);
  }

  lemma InfixPartStep(p: Plan, addr: seq<nat>, m: seq<Word>, k: nat, a: nat, x: nat, act: nat, j: nat) returns (l: nat)
    requires p.Valid() && p.InBase() && k < |p.heap.blks| == |addr| && InfixPart(p, addr, m, k, a, x, j)
    requires act < a && Active(p, k, x, act) && p.Last(a, x) >= 0 && p.Last(j, x) >= 0
    ensures act <= l < j && p.slots[l] == p.Last(j, x) < |m|
    ensures m[p.slots[l]] == InfixWord(p, k, x, act, l)
    ensures InfixPart(p, addr, m[p.slots[l] := Ptr(addr[k] + (x - p.heap.blks[k].hp) + 1)], k, a, x, l)
  {
    hide Plan.Valid;
    hide Reverted;
    hide SlotsTo;
    hide DoneBefore;
    hide Plan.SlotWord;
    l := InfixNext(p, |p.slots|, k, x, act, j);
    SlotsToStep(p, x, j, l);
    NotDoneBefore(p, k, a, x, l);
    var done := DoneBefore(p, k, a) + SlotsTo(p, x, j);
    StillHolds(p, addr, m, done, FinBefore(p, k, a), l);
    RevertSlot(p, addr, m, done, FinBefore(p, k, a), l);
    assert done + {l} == DoneBefore(p, k, a) + SlotsTo(p, x, l);
  }

  lemma NotDoneBefore(p: Plan, k: nat, a: nat, x: nat, l: nat)
    requires p.Valid() && k < |p.heap.blks| && a <= |p.slots| && l < |p.slots|
    requires p.Tgt(p.slots[l]) == x && p.heap.BlockAt(x) == k && p.heap.blks[k].hp < x && p.Last(a, x) >= 0
    ensures l !in DoneBefore(p, k, a)
  {
  }

  lemma InfixPartEnd(p: Plan, addr: seq<nat>, m: seq<Word>, k: nat, a: nat, x: nat, act: nat, j: nat)
    requires p.Valid() && p.InBase() && k < |p.heap.blks| == |addr| && InfixPart(p, addr, m, k, a, x, j)
    requires act < a && Active(p, k, x, act) && x == p.Top(a, k) && p.Last(j, x) == -1
    requires x < |m| && p.IsInfix(x) && p.heap.BlockAt(x) == k
    requires forall n :: p.heap.blks[k].hp < n < p.heap.blks[k].End() && n != p.Top(a, k) ==>
               (p.Last(a, n) == -1 <==> p.Last(act, n) == -1)
    ensures InfixState(p, addr, m[x := Hdr(x - p.heap.blks[k].hp, INFIX_TAG, White)], k, act)
  {
    hide Plan.Valid;
    hide Reverted;
    hide Plan.IsInfix;
    hide SlotsInto;
    hide WordsOf;
    hide InfixSlots;
    hide InfixNodes;
    SlotsToEnd(p, x, j);
    InfixSlotsStep(p, k, a, act);
    InfixNodesStep(p, k, a, act);
    DecodeNode(p, addr, m, DoneBefore(p, k, a) + SlotsTo(p, x, 0), FinBefore(p, k, a), x);
    assert DoneBefore(p, k, a) + SlotsTo(p, x, 0) == DoneBefore(p, k, act);
    assert FinBefore(p, k, a) + {x} == FinBefore(p, k, act);
  }

  lemma StillHolds(p: Plan, addr: seq<nat>, m: seq<Word>, done: set<nat>, fin: set<nat>, l: nat)
    requires p.InBase() && |addr| == |p.heap.blks| && Reverted(p, addr, m, done, fin)
    requires l < |p.slots| && l !in done && p.Tgt(p.slots[l]) >= 0
    ensures p.slots[l] < |m| && m[p.slots[l]] == p.SlotWord(|p.slots|, l)
  {
    assert SlotReverted(p, addr, m, done, l);
  }

  lemma InfixStateStart(p: Plan, addr: seq<nat>, m: seq<Word>, k: nat)
    requires p.Valid() && k < |p.heap.blks| == |addr|
    requires Reverted(p, addr, m, SlotsInto(p, k) + SlotsTo(p, p.heap.blks[k].hp, 0),
                      WordsOf(p, k) + {p.heap.blks[k].hp})
    ensures InfixState(p, addr, m, k, |p.slots|)
  {
    InfixSlotsStart(p, k);
    InfixNodesStart(p, k);
    assert DoneBefore(p, k, |p.slots|) == SlotsInto(p, k) + SlotsTo(p, p.heap.blks[k].hp, 0);
    assert FinBefore(p, k, |p.slots|) == WordsOf(p, k) + {p.heap.blks[k].hp};
  }

  // No infix chain left: block k is done.
  lemma InfixStateEnd(p: Plan, addr: seq<nat>, m: seq<Word>, k: nat, a: nat)
    requires p.Valid() && k < |p.heap.blks| == |addr| && InfixState(p, addr, m, k, a)
    requires forall n :: p.heap.blks[k].hp < n < p.heap.blks[k].End() ==> p.Last(a, n) == -1
    ensures RevertedUpTo(p, addr, m, k + 1)
  {
    AllSlotsDone(p, k, a);
    var done, done' := DoneBefore(p, k, a), SlotsInto(p, k + 1);
    var fin, fin' := FinBefore(p, k, a), WordsOf(p, k + 1);
    forall j | 0 <= j < |p.slots| ensures SlotReverted(p, addr, m, done', j) {
      assert SlotReverted(p, addr, m, done, j);
    }
    forall x | 0 <= x < |m| ensures WordReverted(p, m, fin', x) {
      assert WordReverted(p, m, fin, x);
      p.heap.BlockAtIs(p.heap.blks[k].hp, k);
      InFin(p, k, a, x);
    }
  }

  lemma InFin(p: Plan, k: nat, a: nat, x: nat)
    requires p.Valid() && k < |p.heap.blks| && a <= |p.slots| && x < |p.base|
    requires p.heap.BlockAt(p.heap.blks[k].hp) == k
    requires forall n :: p.heap.blks[k].hp < n < p.heap.blks[k].End() ==> p.Last(a, n) == -1
    ensures x in FinBefore(p, k, a) ==> x in WordsOf(p, k + 1)
    ensures x in WordsOf(p, k + 1) && x !in FinBefore(p, k, a) ==> p.NodeWord(|p.slots|, x) == DecodedWord(p, x)
  {
    if x in InfixNodes(p, k, a) { p.heap.BlockAtIs(x, k); }
  }
}
