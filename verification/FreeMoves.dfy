// What allocating, merging and adding do to the heap and to the list of its free blocks.
module FreeMoves {
  import opened Header
  import opened FreeHeap
  import opened Lists
  import opened FreeTable

  ghost predicate HeapOk(hd: map<int, Hd>, next: map<int, int>, list: seq<int>, chunks: set<Chunk>) {
    Tiled(hd, chunks) && ListOk(hd, next, list)
  }

  function SizeAt(hd: map<int, Hd>, b: int): nat {
    if b in hd then hd[b].size else 0
  }

  function Sizes(hd: map<int, Hd>, list: seq<int>): (sz: seq<nat>)
    ensures |sz| == |list|
  {
    seq(|list|, i requires 0 <= i < |list| => SizeAt(hd, list[i]))
  }

  lemma ListIn(hd: map<int, Hd>, next: map<int, int>, list: seq<int>)
    requires ListOk(hd, next, list)
    ensures forall b :: b in list ==> b in hd
    ensures forall i :: 0 <= i < |list| ==> Sizes(hd, list)[i] >= 1
  {
    forall b | b in list ensures b in hd && hd[b].size >= 1 {
      assert Listed(hd, list, b);
    }
  }

  lemma EntryIs(hd: map<int, Hd>, next: map<int, int>, list: seq<int>, p: int)
    requires ListOk(hd, next, list) && -1 <= p < |list|
    ensures At(list, p) in next && next[At(list, p)] == At(list, p + 1)
    ensures p >= 0 ==> list[p] in hd && hd[list[p]].color == Blue && hd[list[p]].size >= 1
  {
    assert LinkAt(next, list, p);
    if p >= 0 { assert Listed(hd, list, list[p]); }
  }

  // ---- allocate_block ----

  // Case 0: block p of the list is taken whole.
  lemma TakeWhole(hd: map<int, Hd>, next: map<int, int>, list: seq<int>, chunks: set<Chunk>, max: nat, p: nat,
                  color: Color)
    requires HeapOk(hd, next, list, chunks) && p < |list| && color != Blue
    ensures list[p] in hd && At(list, p - 1) in next && list[p] in next
    ensures var hd' := hd[list[p] := Hd(hd[list[p]].size, color)];
      && HeapOk(hd', next[At(list, p - 1) := next[list[p]]], Without(list, p), chunks)
      && Total(hd', Without(list, p)) == Total(hd, list) - 1 - hd[list[p]].size
      && (Separated(hd, max) ==> Separated(hd', max))
      && Lowered(Sizes(hd, list), Sizes(hd', Without(list, p)), p, 1)
  {
    hide Tiled;
    hide ListOk;
    EntryIs(hd, next, list, p);
    EntryIs(hd, next, list, p - 1);
    var cur := list[p];
    var hd' := hd[cur := Hd(hd[cur].size, color)];
    RecolorTiled(hd, chunks, cur, color);
    ListIn(hd, next, list);
    RemovedOk(hd, hd', next, list, p);
    RemovedSizes(hd, hd', next, list, p);
    SeparatedFewer(hd, hd', max);
  }

  // Block p is no longer free; the other free blocks are as they were.
  ghost predicate Freed(hd: map<int, Hd>, hd': map<int, Hd>, list: seq<int>, cur: int) {
    && (forall b :: b != cur ==> (IsBlue(hd', b) <==> IsBlue(hd, b)))
    && (forall b :: b in list && b != cur ==> b in hd && b in hd' && hd'[b] == hd[b])
    && !IsBlue(hd', cur)
  }

  lemma RemovedOk(hd: map<int, Hd>, hd': map<int, Hd>, next: map<int, int>, list: seq<int>, p: nat)
    requires ListOk(hd, next, list) && p < |list| && Freed(hd, hd', list, list[p])
    ensures At(list, p - 1) in next && list[p] in next
    ensures ListOk(hd', next[At(list, p - 1) := next[list[p]]], Without(list, p))
  {
    hide Linked;
    var l := Without(list, p);
    WithoutIs(list, p);
    RemoveLinked(next, list, p);
    forall b ensures Listed(hd', l, b) {
      assert Listed(hd, list, b);
    }
  }

  lemma RemovedSizes(hd: map<int, Hd>, hd': map<int, Hd>, next: map<int, int>, list: seq<int>, p: nat)
    requires ListOk(hd, next, list) && p < |list| && Freed(hd, hd', list, list[p])
    ensures list[p] in hd
    ensures Total(hd', Without(list, p)) == Total(hd, list) - 1 - hd[list[p]].size
    ensures Lowered(Sizes(hd, list), Sizes(hd', Without(list, p)), p, 1)
  {
    hide Linked;
    hide Total;
    ListIn(hd, next, list);
    WithoutIs(list, p);
    TotalOne(hd, list, p);
    TotalSame(hd, hd', Without(list, p));
    RemovedLowered(hd, hd', list, p);
  }

  lemma RemovedLowered(hd: map<int, Hd>, hd': map<int, Hd>, list: seq<int>, p: nat)
    requires Ascending(list) && p < |list| && Freed(hd, hd', list, list[p])
    ensures Lowered(Sizes(hd, list), Sizes(hd', Without(list, p)), p, 1)
  {
    var sz, sz' := Sizes(hd, list), Sizes(hd', Without(list, p));
    forall j | 0 <= j < p ensures sz'[j] == sz[j] {
      assert list[j] in list && list[j] != list[p];
    }
    forall j | p < j < |list| ensures var k := j - 1; sz'[k] == sz[j] {
      assert list[j] in list && list[j] != list[p] && Without(list, p)[j - 1] == list[j];
    }
  }

  // Fewer free blocks are still apart.
  lemma SeparatedFewer(hd: map<int, Hd>, hd': map<int, Hd>, max: nat)
    requires forall b :: IsBlue(hd', b) ==> IsBlue(hd, b) && hd'[b] == hd[b]
    ensures Separated(hd, max) ==> Separated(hd', max)
  {
    if Separated(hd, max) {
      forall a, b ensures NoTouch(hd', max, a, b) {
        assert NoTouch(hd, max, a, b);
      }
    }
  }

  // Cases 1 and 2, when the block is split after n words.
  lemma SplitFacts(hd: map<int, Hd>, chunks: set<Chunk>, b: int, n: nat, left: Color, right: Color)
    requires Tiled(hd, chunks) && b in hd && n < hd[b].size && right != Blue && hd[b].color == Blue
    ensures var hd' := Split(hd, b, n, left, right);
      && Tiled(hd', chunks)
      && (forall x :: x != b ==> (IsBlue(hd', x) <==> IsBlue(hd, x)))
      && (forall x :: x in hd && x != b ==> x in hd' && hd'[x] == hd[x])
      && hd'[b] == Hd(n, left)
  {
    SplitTiled(hd, chunks, b, n, left, right);
  }

  // Case 1: all but one word of block p is taken; a fragment is left.
  lemma TakeButOne(hd: map<int, Hd>, next: map<int, int>, list: seq<int>, chunks: set<Chunk>, max: nat, p: nat,
                   color: Color)
    requires HeapOk(hd, next, list, chunks) && p < |list| && color != Blue
    ensures list[p] in hd && At(list, p - 1) in next && list[p] in next && 0 < hd[list[p]].size
    ensures var hd' := Split(hd, list[p], 0, White, color);
      && HeapOk(hd', next[At(list, p - 1) := next[list[p]]], Without(list, p), chunks)
      && Total(hd', Without(list, p)) == Total(hd, list) - 1 - hd[list[p]].size
      && (Separated(hd, max) ==> Separated(hd', max))
      && Lowered(Sizes(hd, list), Sizes(hd', Without(list, p)), p, 1)
  {
    hide Tiled;
    hide ListOk;
    EntryIs(hd, next, list, p);
    EntryIs(hd, next, list, p - 1);
    var cur := list[p];
    var hd' := Split(hd, cur, 0, White, color);
    SplitFacts(hd, chunks, cur, 0, White, color);
    ListIn(hd, next, list);
    RemovedOk(hd, hd', next, list, p);
    RemovedSizes(hd, hd', next, list, p);
    SeparatedFewer(hd, hd', max);
  }

  // A free block that touches cur from below and that cur, cut to n words, could be merged with.
  ghost predicate CutBehind(hd: map<int, Hd>, max: nat, cur: int, n: nat, a: int) {
    IsBlue(hd, a) && End(hd, a) + 1 == cur && hd[a].size + 1 + n < max
  }

  ghost predicate CutShort(hd: map<int, Hd>, max: nat, cur: int, n: nat) {
    exists a :: CutBehind(hd, max, cur, n, a)
  }

  // Case 2: block p keeps its first n words.
  lemma TakeTail(hd: map<int, Hd>, next: map<int, int>, list: seq<int>, chunks: set<Chunk>, max: nat, p: nat,
                 n: nat, color: Color)
    requires HeapOk(hd, next, list, chunks) && p < |list| && color != Blue
    requires list[p] in hd && 1 <= n < hd[list[p]].size
    ensures var hd' := Split(hd, list[p], n, Blue, color);
      && HeapOk(hd', next, list, chunks)
      && Total(hd', list) == Total(hd, list) - (hd[list[p]].size - n)
      && (Separated(hd, max) ==> (Separated(hd', max) <==> !CutShort(hd, max, list[p], n)))
      && Lowered(Sizes(hd, list), Sizes(hd', list), p, 0)
  {
    hide Tiled;
    hide ListOk;
    hide Total;
    hide Separated;
    hide Lowered;
    hide CutShort;
    EntryIs(hd, next, list, p);
    var cur := list[p];
    var hd' := Split(hd, cur, n, Blue, color);
    SplitFacts(hd, chunks, cur, n, Blue, color);
    CutList(hd, hd', next, list, p);
    if Separated(hd, max) { CutSeparated(hd, hd', chunks, max, cur, n, color); }
  }

  // The list when entry p has become smaller.
  lemma CutList(hd: map<int, Hd>, hd': map<int, Hd>, next: map<int, int>, list: seq<int>, p: nat)
    requires ListOk(hd, next, list) && p < |list|
    requires IsBlue(hd', list[p]) && list[p] in hd && 1 <= hd'[list[p]].size < hd[list[p]].size
    requires forall x :: x != list[p] ==> (IsBlue(hd', x) <==> IsBlue(hd, x))
    requires forall x :: x in hd && x != list[p] ==> x in hd' && hd'[x] == hd[x]
    ensures ListOk(hd', next, list)
    ensures Total(hd', list) == Total(hd, list) - (hd[list[p]].size - hd'[list[p]].size)
    ensures Lowered(Sizes(hd, list), Sizes(hd', list), p, 0)
  {
    hide Linked;
    hide Total;
    ListIn(hd, next, list);
    assert Listed(hd, list, list[p]);
    forall b ensures Listed(hd', list, b) {
      assert Listed(hd, list, b);
    }
    TotalOne(hd, list, p);
    TotalOne(hd', list, p);
    WithoutIs(list, p);
    TotalSame(hd, hd', Without(list, p));
  }

  lemma CutSeparated(hd: map<int, Hd>, hd': map<int, Hd>, chunks: set<Chunk>, max: nat, cur: int, n: nat, color: Color)
    requires Tiled(hd, chunks) && IsBlue(hd, cur) && 1 <= n < hd[cur].size && color != Blue
    requires hd' == Split(hd, cur, n, Blue, color) && Separated(hd, max)
    ensures Separated(hd', max) <==> !CutShort(hd, max, cur, n)
  {
    SplitFacts(hd, chunks, cur, n, Blue, color);
    var r := cur + n + 1;
    if a :| CutBehind(hd, max, cur, n, a) {
      assert a != cur && !NoTouch(hd', max, a, cur);
    } else {
      forall a, b ensures NoTouch(hd', max, a, b) {
        assert NoTouch(hd, max, a, b) && !CutBehind(hd, max, cur, n, a);
        assert hd'[r].color == color;
      }
    }
  }

  // ---- All three cases ----

  // The headers when the last whSz words of the free block cur become a block of the given color.
  function Taken(hd: map<int, Hd>, cur: int, whSz: nat, color: Color): map<int, Hd>
    requires cur in hd && 1 <= whSz <= hd[cur].size + 1
  {
    var size := hd[cur].size;
    if size == whSz - 1 then hd[cur := Hd(size, color)]
    else if size == whSz then Split(hd, cur, 0, White, color)
    else Split(hd, cur, size - whSz, Blue, color)
  }

  // The list after that.
  function ListAfter(list: seq<int>, p: nat, size: nat, whSz: nat): seq<int>
    requires p < |list|
  {
    if size <= whSz then Without(list, p) else list
  }

  function NextAfter(next: map<int, int>, list: seq<int>, p: nat, size: nat, whSz: nat): map<int, int>
    requires p < |list| && list[p] in next
  {
    if size <= whSz then next[At(list, p - 1) := next[list[p]]] else next
  }

  // What allocation leaves alone.
  ghost predicate KeepsUsed(hd: map<int, Hd>, hd': map<int, Hd>) {
    forall b :: b in hd && hd[b].color != Blue ==> b in hd' && hd'[b] == hd[b]
  }

  lemma TakeOk(hd: map<int, Hd>, next: map<int, int>, list: seq<int>, chunks: set<Chunk>, max: nat, p: nat,
               whSz: nat, color: Color)
    requires HeapOk(hd, next, list, chunks) && p < |list| && color != Blue
    requires list[p] in hd && 2 <= whSz <= hd[list[p]].size + 1
    ensures list[p] in next && At(list, p - 1) in next
    ensures var cur := list[p]; var size := hd[cur].size; var hd' := Taken(hd, cur, whSz, color);
      && HeapOk(hd', NextAfter(next, list, p, size, whSz), ListAfter(list, p, size, whSz), chunks)
      && Total(hd', ListAfter(list, p, size, whSz)) ==
         Total(hd, list) - (if size <= whSz then 1 + size else whSz)
      && Lowered(Sizes(hd, list), Sizes(hd', ListAfter(list, p, size, whSz)), p, if size <= whSz then 1 else 0)
      && (Separated(hd, max) ==>
            (Separated(hd', max) <==> size <= whSz || !CutShort(hd, max, cur, size - whSz)))
  {
    hide HeapOk;
    hide Separated;
    hide Total;
    hide Split;
    EntryFacts(hd, next, list, chunks, p);
    if hd[list[p]].size == whSz - 1 {
      TakeWhole(hd, next, list, chunks, max, p, color);
    } else if hd[list[p]].size == whSz {
      TakeButOne(hd, next, list, chunks, max, p, color);
    } else {
      TakeTail(hd, next, list, chunks, max, p, hd[list[p]].size - whSz, color);
    }
  }

  lemma EntryFacts(hd: map<int, Hd>, next: map<int, int>, list: seq<int>, chunks: set<Chunk>, p: nat)
    requires HeapOk(hd, next, list, chunks) && p < |list|
    ensures list[p] in hd && hd[list[p]].color == Blue && hd[list[p]].size >= 1
    ensures list[p] in next && At(list, p - 1) in next && next[list[p]] == At(list, p + 1)
    ensures next[At(list, p - 1)] == list[p] && Ascending(list)
  {
    EntryIs(hd, next, list, p);
    EntryIs(hd, next, list, p - 1);
  }

  lemma TakenFacts(hd: map<int, Hd>, chunks: set<Chunk>, cur: int, whSz: nat, color: Color)
    requires Tiled(hd, chunks) && cur in hd && hd[cur].color == Blue && color != Blue && 2 <= whSz <= hd[cur].size + 1
    ensures var hd', b := Taken(hd, cur, whSz, color), cur + hd[cur].size - whSz + 1;
      && KeepsUsed(hd, hd') && b in hd' && hd'[b] == Hd(whSz - 1, color)
      && hd' == (if hd[cur].size <= whSz then hd[cur := Hd(0, White)]
                 else hd[cur := Hd(hd[cur].size - whSz, Blue)])[b := Hd(whSz - 1, color)]
  {
    if hd[cur].size > whSz - 1 {
      SplitTiled(hd, chunks, cur, hd[cur].size - whSz, White, color);
    }
  }

  // What is left of cur when w words are taken could be merged with the free block before it.
  ghost predicate Cramped(hd: map<int, Hd>, max: nat, cur: int, w: nat) {
    cur in hd && hd[cur].size > w + 1 && CutShort(hd, max, cur, hd[cur].size - w - 1)
  }

  // Allocating keeps free blocks apart exactly when that is not so.
  lemma TakeSeparated(hd: map<int, Hd>, next: map<int, int>, list: seq<int>, chunks: set<Chunk>, max: nat, p: nat,
                      w: nat, color: Color)
    requires HeapOk(hd, next, list, chunks) && p < |list| && color != Blue
    requires list[p] in hd && 1 <= w <= hd[list[p]].size && Separated(hd, max)
    ensures Separated(Taken(hd, list[p], w + 1, color), max) <==> !Cramped(hd, max, list[p], w)
  {
    hide HeapOk;
    hide Separated;
    hide CutShort;
    hide Taken;
    hide Lowered;
    TakeOk(hd, next, list, chunks, max, p, w + 1, color);
  }

  // ---- Heaps of small chunks ----

  ghost predicate Small(chunks: set<Chunk>, max: nat) {
    forall c :: c in chunks ==> c.hi - c.lo <= max
  }

  ghost predicate Touch(hd: map<int, Hd>, a: int, b: int) {
    IsBlue(hd, a) && IsBlue(hd, b) && End(hd, a) + 1 == b
  }

  ghost predicate NoneTouch(hd: map<int, Hd>) {
    forall a, b :: !Touch(hd, a, b)
  }

  lemma TouchInside(hd: map<int, Hd>, chunks: set<Chunk>, max: nat, a: int, b: int)
    requires Tiled(hd, chunks) && Small(chunks, max) && Touch(hd, a, b)
    ensures hd[a].size + 1 + hd[b].size < max
  {
    assert Inside(hd, chunks, a) && Inside(hd, chunks, b);
    var c :| c in chunks && c.lo <= a - 1 && End(hd, a) <= c.hi;
    var d :| d in chunks && d.lo <= b - 1 && End(hd, b) <= d.hi;
    assert c == d;
  }

  // When no chunk has more words than a block may have, free blocks never touch, ...
  lemma SmallApart(hd: map<int, Hd>, chunks: set<Chunk>, max: nat)
    requires Tiled(hd, chunks) && Small(chunks, max)
    ensures Separated(hd, max) <==> NoneTouch(hd)
  {
    if Separated(hd, max) {
      forall a, b ensures !Touch(hd, a, b) {
        if Touch(hd, a, b) {
          assert NoTouch(hd, max, a, b);
          TouchInside(hd, chunks, max, a, b);
        }
      }
    }
    if NoneTouch(hd) {
      forall a, b ensures NoTouch(hd, max, a, b) {
        assert !Touch(hd, a, b);
      }
    }
  }

  // ... and allocating keeps it so.
  lemma NotCramped(hd: map<int, Hd>, max: nat, cur: int, w: nat)
    requires NoneTouch(hd) && IsBlue(hd, cur)
    ensures !Cramped(hd, max, cur, w)
  {
    if hd[cur].size > w + 1 {
      var n := hd[cur].size - w - 1;
      forall a ensures !CutBehind(hd, max, cur, n, a) {
        assert !Touch(hd, a, cur);
      }
    }
  }

  // Free blocks that touch and are too big to be one may stop being too big: the first fit for two words
  // is the end of the second block, and what is left of it is not merged with the first.
  lemma CutLeavesTouching(max: nat)
    returns (hd: map<int, Hd>, next: map<int, int>, list: seq<int>, chunks: set<Chunk>)
    requires max >= 5
    ensures HeapOk(hd, next, list, chunks) && Separated(hd, max)
    ensures FirstFit(Sizes(hd, list), 2, 1) && |list| == 2 && list[1] in hd && hd[list[1]].size == max - 1
    ensures !Separated(Taken(hd, list[1], 3, Black), max)
  {
    hd, next := map[2 := Hd(1, Blue), 4 := Hd(max - 1, Blue)], map[0 := 2, 2 := 4, 4 := NULL];
    list, chunks := [2, 4], {Chunk(1, max + 3)};
    assert Chunk(1, max + 3) in chunks;
    forall x ensures Covered(hd, chunks, x) {
      assert 1 <= x < 3 ==> Holds(hd, 2, x);
      assert 3 <= x < max + 3 ==> Holds(hd, 4, x);
    }
    forall p | -1 <= p < 2 ensures LinkAt(next, list, p) {
      assert p == -1 || p == 0 || p == 1;
    }
    assert !NoTouch(Taken(hd, 4, 3, Black), max, 2, 4);
  }

  // ---- caml_fl_merge_block ----

  // Nothing free that touches b from above could be merged with it.
  ghost predicate Blocked(hd: map<int, Hd>, max: nat, b: int) {
    b in hd && forall c :: BlockedBy(hd, max, b, c)
  }

  ghost predicate BlockedBy(hd: map<int, Hd>, max: nat, b: int, c: int)
    requires b in hd
  {
    IsBlue(hd, c) && End(hd, b) + 1 == c ==> hd[b].size + 1 + hd[c].size >= max
  }

  // Two blocks that are not free become one that is not free.
  lemma JoinWhite(hd: map<int, Hd>, next: map<int, int>, list: seq<int>, chunks: set<Chunk>, max: nat, a: int, b: int)
    requires HeapOk(hd, next, list, chunks) && a in hd && b in hd && End(hd, a) + 1 == b
    requires hd[a].color == White && hd[b].color == White
    ensures var hd' := Join(hd, a, b, White);
      && HeapOk(hd', next, list, chunks) && Total(hd', list) == Total(hd, list)
      && (Separated(hd, max) ==> Separated(hd', max))
      && Sizes(hd', list) == Sizes(hd, list)
  {
    var hd' := Join(hd, a, b, White);
    JoinTiled(hd, chunks, a, b, White);
    ListIn(hd, next, list);
    forall x ensures Listed(hd', list, x) {
      assert Listed(hd, list, x);
    }
    forall x | x in list ensures x in hd' && hd'[x] == hd[x] {
      assert Listed(hd, list, x);
    }
    TotalSame(hd, hd', list);
    SeparatedFewer(hd, hd', max);
  }

  // A block that is not free takes in the free block p, which leaves the list.
  lemma JoinNext(hd: map<int, Hd>, next: map<int, int>, list: seq<int>, chunks: set<Chunk>, max: nat, b: int, p: nat)
    requires HeapOk(hd, next, list, chunks) && p < |list| && b in hd && hd[b].color == White
    requires End(hd, b) + 1 == list[p]
    ensures list[p] in hd && At(list, p - 1) in next && list[p] in next
    ensures var hd' := Join(hd, b, list[p], White);
      && HeapOk(hd', next[At(list, p - 1) := next[list[p]]], Without(list, p), chunks)
      && Total(hd', Without(list, p)) == Total(hd, list) - 1 - hd[list[p]].size
      && (Separated(hd, max) ==> Separated(hd', max) && Blocked(hd', max, b))
      && Lowered(Sizes(hd, list), Sizes(hd', Without(list, p)), p, 1)
  {
    hide Tiled;
    EntryIs(hd, next, list, p);
    EntryIs(hd, next, list, p - 1);
    var cur := list[p];
    var hd' := Join(hd, b, cur, White);
    JoinTiled(hd, chunks, b, cur, White);
    JoinFrees(hd, next, list, b, p);
    RemovedOk(hd, hd', next, list, p);
    RemovedSizes(hd, hd', next, list, p);
    SeparatedFewer(hd, hd', max);
    if Separated(hd, max) {
      forall c ensures BlockedBy(hd', max, b, c) {
        assert NoTouch(hd, max, cur, c);
      }
    }
  }

  lemma JoinFrees(hd: map<int, Hd>, next: map<int, int>, list: seq<int>, b: int, p: nat)
    requires ListOk(hd, next, list) && p < |list| && b in hd && hd[b].color == White && list[p] in hd
    ensures Freed(hd, Join(hd, b, list[p], White), list, list[p])
  {
    forall x | x in list ensures x in hd && x != b {
      assert Listed(hd, list, x);
    }
  }

  // The free block p takes in a block that is not free.
  lemma JoinPrev(hd: map<int, Hd>, next: map<int, int>, list: seq<int>, chunks: set<Chunk>, max: nat, p: nat, b: int)
    requires HeapOk(hd, next, list, chunks) && p < |list| && b in hd && hd[b].color == White
    requires list[p] in hd && End(hd, list[p]) + 1 == b
    ensures var hd' := Join(hd, list[p], b, Blue);
      && HeapOk(hd', next, list, chunks) && Total(hd', list) == Total(hd, list) + 1 + hd[b].size
      && (Separated(hd, max) && Blocked(hd, max, b) ==> Separated(hd', max))
      && (forall j :: 0 <= j < p ==> Sizes(hd', list)[j] == Sizes(hd, list)[j])
  {
    hide Tiled;
    hide Total;
    EntryIs(hd, next, list, p);
    var prev := list[p];
    var hd' := Join(hd, prev, b, Blue);
    JoinTiled(hd, chunks, prev, b, Blue);
    GrownOk(hd, hd', next, list, p, b);
    if Separated(hd, max) && Blocked(hd, max, b) {
      forall x, y ensures NoTouch(hd', max, x, y) {
        assert NoTouch(hd, max, x, y) && BlockedBy(hd, max, b, y);
      }
    }
  }

  lemma GrownOk(hd: map<int, Hd>, hd': map<int, Hd>, next: map<int, int>, list: seq<int>, p: nat, b: int)
    requires ListOk(hd, next, list) && p < |list| && b in hd && hd[b].color == White && list[p] in hd
    requires hd' == Join(hd, list[p], b, Blue)
    ensures ListOk(hd', next, list) && Total(hd', list) == Total(hd, list) + 1 + hd[b].size
    ensures forall j :: 0 <= j < p ==> Sizes(hd', list)[j] == Sizes(hd, list)[j]
  {
    var prev := list[p];
    forall x ensures Listed(hd', list, x) {
      assert Listed(hd, list, x) && Listed(hd, list, b);
    }
    forall x | x in list && x != prev ensures x in hd && x in hd' && hd'[x] == hd[x] {
      assert Listed(hd, list, x);
    }
    WithoutIs(list, p);
    TotalOne(hd, list, p);
    TotalOne(hd', list, p);
    TotalSame(hd, hd', Without(list, p));
  }

  // A block that is not free joins the list before entry p.
  lemma InsertFree(hd: map<int, Hd>, next: map<int, int>, list: seq<int>, chunks: set<Chunk>, max: nat, p: nat, b: int)
    requires HeapOk(hd, next, list, chunks) && p <= |list| && b in hd && hd[b].color == White && hd[b].size >= 1
    requires 2 <= b && (p > 0 ==> list[p - 1] < b) && (p < |list| ==> b < list[p])
    ensures var hd' := hd[b := Hd(hd[b].size, Blue)];
      && HeapOk(hd', next[b := At(list, p)][At(list, p - 1) := b], With(list, p, b), chunks)
      && Total(hd', With(list, p, b)) == Total(hd, list) + 1 + hd[b].size
      && (forall j :: 0 <= j < p ==> Sizes(hd', With(list, p, b))[j] == Sizes(hd, list)[j])
  {
    hide Tiled;
    hide Total;
    RecolorTiled(hd, chunks, b, Blue);
    InsertOk(hd, next, list, p, b);
    InsertSizes(hd, next, list, p, b);
  }

  lemma InsertOk(hd: map<int, Hd>, next: map<int, int>, list: seq<int>, p: nat, b: int)
    requires ListOk(hd, next, list) && p <= |list| && b in hd && hd[b].color == White && hd[b].size >= 1
    requires 2 <= b && (p > 0 ==> list[p - 1] < b) && (p < |list| ==> b < list[p])
    ensures ListOk(hd[b := Hd(hd[b].size, Blue)], next[b := At(list, p)][At(list, p - 1) := b], With(list, p, b))
  {
    hide Linked;
    var l, hd' := With(list, p, b), hd[b := Hd(hd[b].size, Blue)];
    InsertLinked(next, list, p, b);
    WithIs(list, p, b);
    forall x ensures Listed(hd', l, x) {
      assert Listed(hd, list, x);
    }
  }

  lemma InsertSizes(hd: map<int, Hd>, next: map<int, int>, list: seq<int>, p: nat, b: int)
    requires ListOk(hd, next, list) && p <= |list| && b in hd && hd[b].color == White
    ensures var hd' := hd[b := Hd(hd[b].size, Blue)];
      && Total(hd', With(list, p, b)) == Total(hd, list) + 1 + hd[b].size
      && (forall j :: 0 <= j < p ==> Sizes(hd', With(list, p, b))[j] == Sizes(hd, list)[j])
  {
    var l, hd' := With(list, p, b), hd[b := Hd(hd[b].size, Blue)];
    ListIn(hd, next, list);
    TotalOne(hd', l, p);
    assert Without(l, p) == list;
    TotalSame(hd, hd', list);
    assert Listed(hd, list, b);
    forall j | 0 <= j < p ensures Sizes(hd', l)[j] == Sizes(hd, list)[j] {
      assert list[j] in list;
    }
  }

  lemma InsertSeparated(hd: map<int, Hd>, next: map<int, int>, list: seq<int>, chunks: set<Chunk>, max: nat, p: nat,
                        b: int)
    requires HeapOk(hd, next, list, chunks) && p <= |list| && b in hd && hd[b].color == White
    requires Separated(hd, max) && Blocked(hd, max, b) && (p > 0 ==> list[p - 1] < b) && (p < |list| ==> b < list[p])
    requires p > 0 && list[p - 1] in hd && End(hd, list[p - 1]) + 1 == b ==>
      hd[list[p - 1]].size + 1 + hd[b].size >= max
    ensures Separated(hd[b := Hd(hd[b].size, Blue)], max)
  {
    var hd' := hd[b := Hd(hd[b].size, Blue)];
    forall x, y ensures NoTouch(hd', max, x, y) {
      assert NoTouch(hd, max, x, y) && BlockedBy(hd, max, b, y);
      if y == b && IsBlue(hd', x) && End(hd', x) + 1 == y && x != b { OnlyPrev(hd, next, list, chunks, p, b, x); }
    }
  }

  // A free block that touches b from below is the entry before it.
  lemma OnlyPrev(hd: map<int, Hd>, next: map<int, int>, list: seq<int>, chunks: set<Chunk>, p: nat, b: int, x: int)
    requires HeapOk(hd, next, list, chunks) && p <= |list| && b in hd && IsBlue(hd, x) && End(hd, x) + 1 == b
    requires (p > 0 ==> list[p - 1] < b) && (p < |list| ==> b < list[p])
    ensures p > 0 && x == list[p - 1]
  {
    assert Listed(hd, list, x);
    var i :| 0 <= i < |list| && list[i] == x;
    assert i < p;
    assert Listed(hd, list, list[p - 1]) && Apart(hd, x, list[p - 1]);
  }
}
