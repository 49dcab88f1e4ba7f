// The skip lists of globroots.c.
module SkipList {
  import opened Bits
  import opened Lists

  const NUM_LEVELS: nat := 17
  const WORD32: nat := 0x1_0000_0000

  // ---- random_level ----

  // r = random_seed * 69069 + 25173 modulo 2^32
  function NextSeed(seed: nat): nat {
    (seed * 69069 + 25173) % WORD32
  }

  // The 2 * n high bits of the seed are all set.  One seed in 4^n is such.
  ghost predicate HighBits(seed: nat, n: nat)
    requires n < NUM_LEVELS
  {
    seed >= WORD32 - Pow2(32 - 2 * n)
  }

  // The level is the number of pairs of high bits that are set, one after the other.
  // (r & 0xC0000000) == 0xC0000000 is that the two high bits are set; r << 2 drops them.
  method RandomLevel(seed: nat) returns (newLevel: nat, newSeed: nat)
    requires seed < WORD32
    ensures newLevel < NUM_LEVELS && newSeed == NextSeed(seed) == (25173 + 69069 * seed) % 0x1_0000_0000
    ensures forall n :: 0 <= n < NUM_LEVELS ==> (HighBits(newSeed, n) <==> n <= newLevel)
  {
    hide HighBits;
    hide Shifted;
    hide Pow2;
    newSeed := NextSeed(seed);
    var r: nat := newSeed;
    newLevel := 0;
    NoShift(r);
    while r >= 0xC000_0000
      invariant newLevel <= 16 && Shifted(newSeed, newLevel, r)
      decreases 16 - newLevel
    {
      OneShift(newSeed, newLevel, r);
      newLevel, r := newLevel + 1, r * 4 % WORD32;
    }
    forall n | 0 <= n < NUM_LEVELS ensures HighBits(newSeed, n) <==> n <= newLevel {
      ShiftsEnd(newSeed, newLevel, r, n);
    }
  }

  // r is the seed without its 2 * n high bits, which are all set.
  ghost predicate Shifted(seed: nat, n: nat, r: nat)
    requires n <= 16
  {
    var p := Pow2(32 - 2 * n);
    WORD32 - p <= seed < WORD32 && r == (seed - (WORD32 - p)) * Pow2(2 * n)
  }

  lemma NoShift(r: nat)
    requires r < WORD32
    ensures Shifted(r, 0, r)
  {
    Pow32();
    assert Pow2(0) == 1;
  }

  // The two high bits of r are set exactly if two more of the seed are.
  lemma NextPair(seed: nat, n: nat, r: nat)
    requires n <= 16 && Shifted(seed, n, r)
    ensures n == 16 ==> r == 0
    ensures n < 16 ==> (r >= 0xC000_0000 <==> HighBits(seed, n + 1))
    ensures n < 16 && r >= 0xC000_0000 ==> Shifted(seed, n + 1, r * 4 % WORD32)
  {
    hide Pow2;
    Pow32();
    if n < 16 {
      var m := 2 * n;
      Pow2Four(m);
      Pow2Four(30 - m);
      Pow2Sum(m + 2, 30 - m);
      TopPair(seed, Pow2(m), Pow2(30 - m), r);
    } else {
      LastBit();
    }
  }

  lemma LastBit()
    ensures Pow2(0) == 1
  {
  }

  lemma TopPair(seed: nat, p: nat, b: nat, r: nat)
    requires p > 0 && b > 0 && 4 * p * b == WORD32 && WORD32 - 4 * b <= seed < WORD32
    requires r == (seed - (WORD32 - 4 * b)) * p
    ensures r >= 0xC000_0000 <==> seed >= WORD32 - b
    ensures r >= 0xC000_0000 ==> r * 4 % WORD32 == (seed - (WORD32 - b)) * (4 * p)
  {
    var k := seed - (WORD32 - 4 * b);
    assert (3 * b) * p == 0xC000_0000;
    if k >= 3 * b {
      var d := k - 3 * b;
      Distribute(3 * b, d, p);
      MulLess(d, b, p);
      Remainder(r * 4, 3, 4 * (d * p));
      assert 4 * (d * p) == d * (4 * p);
    } else {
      MulLess(k, 3 * b, p);
    }
  }

  lemma Distribute(a: nat, d: nat, p: nat)
    ensures (a + d) * p == a * p + d * p
  {
  }

  lemma MulLess(d: nat, b: nat, p: nat)
    requires d < b && p > 0
    ensures d * p < b * p
  {
  }

  lemma Remainder(x: nat, q: nat, r: nat)
    requires r < WORD32 && x == q * WORD32 + r
    ensures x % WORD32 == r
  {
  }

  lemma Pow2Four(m: nat)
    ensures Pow2(m + 2) == 4 * Pow2(m)
  {
    assert Pow2(m + 2) == 2 * Pow2(m + 1);
  }

  lemma OneShift(seed: nat, n: nat, r: nat)
    requires n <= 16 && Shifted(seed, n, r) && r >= 0xC000_0000
    ensures n < 16 && Shifted(seed, n + 1, r * 4 % WORD32)
  {
    hide Shifted;
    NextPair(seed, n, r);
  }

  // Where the loop ends, the next two bits are not set both.
  lemma ShiftsEnd(seed: nat, level: nat, r: nat, n: nat)
    requires level <= 16 && n < NUM_LEVELS && Shifted(seed, level, r) && r < 0xC000_0000
    ensures HighBits(seed, n) <==> n <= level
  {
    hide Pow2;
    NextPair(seed, level, r);
    if n <= level { Pow2Mono(32 - 2 * level, 32 - 2 * n); } else { Pow2Mono(32 - 2 * n, 30 - 2 * level); }
  }

  // ---- The list ----

  ghost predicate LowerToo(levels: seq<seq<int>>, i: int, x: int) {
    0 < i < |levels| && x in levels[i] ==> x in levels[i - 1]
  }

  // Level i + 1 is part of level i, each is ascending, and nothing is above the used levels.
  ghost predicate LevelsOk(levels: seq<seq<int>>, level: nat) {
    && |levels| == NUM_LEVELS > level
    && (forall i :: 0 <= i < NUM_LEVELS ==> Ascending(levels[i]))
    && (forall i, x :: LowerToo(levels, i, x))
    && (forall i :: level < i < NUM_LEVELS ==> levels[i] == [])
  }

  ghost predicate AllLinked(forward: seq<map<int, int>>, levels: seq<seq<int>>) {
    |forward| == |levels| && forall i :: 0 <= i < |levels| ==> Linked(forward[i], levels[i])
  }

  // The first k of the list are those below r.
  ghost predicate Below(list: seq<int>, r: int, k: int) {
    && 0 <= k <= |list| && (forall i :: 0 <= i < k ==> list[i] < r) && (forall i :: k <= i < |list| ==> list[i] >= r)
  }

  ghost function Elements(s: seq<int>): set<int> {
    set x | x in s
  }

  class RootList {
    var forward: seq<map<int, int>>      // forward[i][e] is e->forward[i]; a node is named by its root
    var level: nat
    ghost var levels: seq<seq<int>>

    ghost predicate Valid()
      reads this
    {
      LevelsOk(levels, level) && AllLinked(forward, levels) && (level > 0 ==> levels[level] != [])
    }

    ghost function Contents(): set<int>
      reads this
      requires Valid()
    {
      Elements(levels[0])
    }

    constructor ()
      ensures Valid() && Contents() == {}
    {
      forward := seq(NUM_LEVELS, _ => map[HEAD := NULL]);
      level := 0;
      levels := seq(NUM_LEVELS, _ => []);
      new;
      forall i | 0 <= i < NUM_LEVELS ensures Linked(forward[i], levels[i]) {
        forall p | -1 <= p < 0 ensures LinkAt(forward[i], levels[i], p) {
        }
      }
    }

    // The search that insertion and deletion begin with: the last node below r on each level.
    method Find(r: int) returns (update: seq<int>, ghost ks: seq<int>)
      requires Valid() && r >= 2
      ensures |update| == |ks| == NUM_LEVELS
      ensures forall i :: 0 <= i <= level ==> Below(levels[i], r, ks[i]) && update[i] == At(levels[i], ks[i] - 1)
    {
      update, ks := seq(NUM_LEVELS, _ => HEAD), seq(NUM_LEVELS, _ => 0);
      var e := HEAD;
      var i: nat := level + 1;
      while i > 0
        invariant i <= level + 1 && |update| == |ks| == NUM_LEVELS
        invariant forall j :: i <= j <= level ==> Below(levels[j], r, ks[j]) && update[j] == At(levels[j], ks[j] - 1)
        invariant e == HEAD || (e < r && i <= level && e in levels[i])
      {
        i := i - 1;
        if e != HEAD { assert LowerToo(levels, i + 1, e); }
        ghost var k;
        e, k := Along(r, i, e);
        update, ks := update[i := e], ks[i := k];
      }
    }

    method Along(r: int, i: nat, e0: int) returns (e: int, ghost k: int)
      requires Valid() && r >= 2 && i <= level && (e0 == HEAD || (e0 < r && e0 in levels[i]))
      ensures Below(levels[i], r, k) && e == At(levels[i], k - 1)
    {
      e := e0;
      ghost var list := levels[i];
      k := PlaceAfter(list, e);
      LinkIs(forward[i], list, k - 1);
      var f := forward[i][e];
      while f != NULL && f < r
        invariant 0 <= k <= |list| && e == At(list, k - 1) && f == At(list, k) && (k > 0 ==> e < r)
        decreases |list| - k
      {
        e, k := f, k + 1;
        LinkIs(forward[i], list, k - 1);
        f := forward[i][e];
      }
    }

    // The levels that a new node of this level makes used: on them, it comes first.
    method RaiseLevel(r: int, newLevel: nat, update0: seq<int>, ghost ks0: seq<int>)
      returns (update: seq<int>, ghost ks: seq<int>)
      requires Valid() && newLevel < NUM_LEVELS && |update0| == |ks0| == NUM_LEVELS
      requires forall i :: 0 <= i <= level ==> Below(levels[i], r, ks0[i]) && update0[i] == At(levels[i], ks0[i] - 1)
      modifies `level
      ensures level == (if newLevel > old(level) then newLevel else old(level)) && LevelsOk(levels, level)
      ensures |update| == |ks| == NUM_LEVELS && ks[0] == ks0[0]
      ensures forall i :: 0 <= i <= level ==> Below(levels[i], r, ks[i]) && update[i] == At(levels[i], ks[i] - 1)
    {
      hide LevelsOk;
      hide AllLinked;
      LevelCount(forward, levels, level);
      update, ks := update0, ks0;
      if newLevel > level {
        for i := level + 1 to newLevel + 1
          invariant level == old(level) && |update| == |ks| == NUM_LEVELS && ks[0] == ks0[0]
          invariant forall j :: 0 <= j < i ==> Below(levels[j], r, ks[j]) && update[j] == At(levels[j], ks[j] - 1)
        {
          NoneAbove(levels, level, i);
          update, ks := update[i := HEAD], ks[i := 0];
        }
        MoreLevels(levels, level, newLevel);
        level := newLevel;
      }
    }

    // caml_insert_global_root
    method Insert(r: int, seed: nat) returns (newSeed: nat)
      requires Valid() && r >= 2 && seed < WORD32
      modifies this
      ensures Valid() && Contents() == old(Contents()) + {r} && newSeed < WORD32
      ensures r in old(Contents()) ==> forward == old(forward) && level == old(level) && newSeed == seed
      ensures r !in old(Contents()) ==>
        && newSeed == NextSeed(seed) && |levels| == NUM_LEVELS
        && forall i :: 0 <= i < NUM_LEVELS ==> (r in levels[i] <==> HighBits(newSeed, i))
    {
      hide LevelsOk;
      hide AllLinked;
      hide HighBits;
      LevelCount(forward, levels, level);
      var update, ks := Find(r);
      OnLevel(forward, levels, level, 0, r, ks[0]);
      var e := forward[0][update[0]];
      if e != NULL && e == r { return seed; }
      var newLevel;
      newLevel, newSeed := RandomLevel(seed);
      ghost var levels0 := levels;
      update, ks := RaiseLevel(r, newLevel, update, ks);
      ghost var level1 := level;
      for i := 0 to newLevel + 1
        invariant |forward| == |levels| == NUM_LEVELS && level == level1
        invariant AllLinked(forward, levels) && Inserted(levels0, levels, ks, r, i)
      {
        AddedHere(forward, levels0, levels, level, ks, r, i);
        forward := forward[i := forward[i][r := forward[i][update[i]]][update[i] := r]];
        levels := levels[i := With(levels[i], ks[i], r)];
      }
      InsertedLevels(levels0, levels, level, ks, r, newLevel + 1);
      InsertedOk(levels0, levels, level, ks, r, newLevel + 1);
      StillUsed(levels0, levels, level, ks, r, newLevel + 1);
      OneMore(levels0[0], levels[0], r);
    }

    // caml_delete_global_root
    method Delete(r: int)
      requires Valid() && r >= 2
      modifies this
      ensures Valid() && Contents() == old(Contents()) - {r}
      ensures r !in old(Contents()) ==> forward == old(forward) && level == old(level)
    {
      hide LevelsOk;
      hide AllLinked;
      LevelCount(forward, levels, level);
      var update, ks := Find(r);
      OnLevel(forward, levels, level, 0, r, ks[0]);
      var e := forward[0][update[0]];
      if e == NULL || e != r { return; }
      ghost var levels0 := levels;
      for i := 0 to level + 1
        invariant |forward| == |levels| == NUM_LEVELS && level == old(level)
        invariant AllLinked(forward, levels) && Deleted(levels0, levels, r, i)
      {
        RemovedHere(forward, levels0, levels, level, ks, r, i);
        if forward[i][update[i]] == e {
          forward := forward[i := forward[i][update[i] := forward[i][e]]];
          levels := levels[i := Without(levels[i], ks[i])];
        }
      }
      DeletedOk(levels0, levels, level, r);
      OneLess(levels0[0], levels[0], r);
      HeadThere(forward, levels, level);
      ghost var levels1, forward1 := levels, forward;
      while level > 0 && forward[level][HEAD] == NULL
        invariant levels == levels1 && forward == forward1
        invariant LevelsOk(levels, level) && AllLinked(forward, levels) && |forward| == |levels| == NUM_LEVELS > level
        invariant level > 0 ==> HEAD in forward[level]
        decreases level
      {
        LessLevels(forward, levels, level);
        level := level - 1;
      }
      if level > 0 { NodeThere(forward, levels, level); }
    }

    // caml_iterate_global_roots, for an action that leaves the list alone: the roots it is applied to.
    method Iterate() returns (visited: seq<int>)
      requires Valid()
      ensures Ascending(visited) && Elements(visited) == Contents()
    {
      ghost var list := levels[0];
      visited := [];
      LinkIs(forward[0], list, -1);
      var gr := forward[0][HEAD];
      while gr != NULL
        invariant |visited| <= |list| && visited == list[..|visited|] && gr == At(list, |visited|)
        decreases |list| - |visited|
      {
        visited := visited + [gr];
        LinkIs(forward[0], list, |visited| - 1);
        gr := forward[0][gr];
      }
      assert list[..|visited|] == list;
    }

    // caml_empty_global_roots
    method Empty()
      requires Valid()
      modifies this
      ensures Valid() && Contents() == {}
    {
      for i := 0 to level + 1
        invariant level == old(level) && |forward| == |levels| == NUM_LEVELS > level && LevelsOk(old(levels), level)
        invariant AllLinked(forward, levels)
        invariant forall j :: 0 <= j < NUM_LEVELS ==> levels[j] == if j < i then [] else old(levels)[j]
      {
        forward := forward[i := forward[i][HEAD := NULL]];
        levels := levels[i := []];
        NothingLinked(forward[i]);
      }
      level := 0;
    }
  }

  lemma PlaceAfter(list: seq<int>, e: int) returns (k: int)
    requires e == HEAD || e in list
    ensures 0 <= k <= |list| && e == At(list, k - 1)
  {
    if e == HEAD {
      k := 0;
    } else {
      var i :| 0 <= i < |list| && list[i] == e;
      k := i + 1;
    }
  }

  lemma LinkIs(next: map<int, int>, list: seq<int>, p: int)
    requires Linked(next, list) && Ascending(list) && -1 <= p < |list|
    ensures At(list, p) in next && next[At(list, p)] == At(list, p + 1)
    ensures At(list, p + 1) == NULL <==> p + 1 == |list|
  {
    assert LinkAt(next, list, p);
  }

  lemma StillUsed(levels0: seq<seq<int>>, levels: seq<seq<int>>, level: nat, ks: seq<int>, r: int, n: nat)
    requires |ks| == NUM_LEVELS && Inserted(levels0, levels, ks, r, n) && level < NUM_LEVELS
    requires level < n || level == 0 || levels0[level] != []
    ensures level > 0 ==> levels[level] != []
  {
    assert InsertedAt(levels0, levels, ks, r, n, level);
  }

  lemma OneMore(a: seq<int>, b: seq<int>, r: int)
    requires forall x :: x in b <==> x in a || x == r
    ensures Elements(b) == Elements(a) + {r}
  {
    forall x ensures x in Elements(b) <==> x in Elements(a) + {r} {
    }
  }

  lemma OneLess(a: seq<int>, b: seq<int>, r: int)
    requires forall x :: x in b <==> x in a && x != r
    ensures Elements(b) == Elements(a) - {r}
  {
    forall x ensures x in Elements(b) <==> x in Elements(a) - {r} {
    }
  }

  lemma LevelCount(forward: seq<map<int, int>>, levels: seq<seq<int>>, level: nat)
    requires LevelsOk(levels, level) && AllLinked(forward, levels)
    ensures |forward| == |levels| == NUM_LEVELS > level
  {
  }

  lemma {:induction false} OnLowest(levels: seq<seq<int>>, level: nat, i: nat, x: int)
    requires LevelsOk(levels, level) && i < NUM_LEVELS && x in levels[i]
    ensures x in levels[0]
  {
    if i > 0 {
      assert LowerToo(levels, i, x);
      OnLowest(levels, level, i - 1, x);
    }
  }

  // What the search found on level i.
  lemma OnLevel(forward: seq<map<int, int>>, levels: seq<seq<int>>, level: nat, i: nat, r: int, k: int)
    requires LevelsOk(levels, level) && AllLinked(forward, levels) && i < NUM_LEVELS && Below(levels[i], r, k)
    ensures |forward| == NUM_LEVELS && At(levels[i], k - 1) in forward[i]
    ensures forward[i][At(levels[i], k - 1)] == At(levels[i], k) && Ascending(levels[i])
    ensures r in levels[i] <==> k < |levels[i]| && levels[i][k] == r
  {
    LinkIs(forward[i], levels[i], k - 1);
    if r in levels[i] {
      var j :| 0 <= j < |levels[i]| && levels[i][j] == r;
      assert j >= k;
      assert levels[i][k] >= r;
    }
  }

  lemma NoneAbove(levels: seq<seq<int>>, level: nat, i: nat)
    requires LevelsOk(levels, level) && level < i < NUM_LEVELS
    ensures |levels| == NUM_LEVELS && levels[i] == []
  {
  }

  lemma MoreLevels(levels: seq<seq<int>>, level: nat, more: nat)
    requires LevelsOk(levels, level) && level <= more < NUM_LEVELS
    ensures LevelsOk(levels, more)
  {
  }

  // r was added to the first n levels.
  ghost predicate Inserted(levels0: seq<seq<int>>, levels: seq<seq<int>>, ks: seq<int>, r: int, n: nat)
    requires |ks| == NUM_LEVELS
  {
    && |levels| == |levels0| == NUM_LEVELS >= n
    && forall i :: 0 <= i < NUM_LEVELS ==> InsertedAt(levels0, levels, ks, r, n, i)
  }

  ghost predicate InsertedAt(levels0: seq<seq<int>>, levels: seq<seq<int>>, ks: seq<int>, r: int, n: nat, i: nat)
    requires |ks| == |levels| == |levels0| == NUM_LEVELS && i < NUM_LEVELS
  {
    if i < n then 0 <= ks[i] <= |levels0[i]| && levels[i] == With(levels0[i], ks[i], r) else levels[i] == levels0[i]
  }

  lemma AddedHere(forward: seq<map<int, int>>, levels0: seq<seq<int>>, levels: seq<seq<int>>, level: nat, ks: seq<int>,
                  r: int, i: nat)
    requires LevelsOk(levels0, level) && |ks| == NUM_LEVELS && Inserted(levels0, levels, ks, r, i) && i < NUM_LEVELS
    requires AllLinked(forward, levels) && r !in levels0[0] && r >= 2 && Below(levels0[i], r, ks[i])
    ensures |forward| == NUM_LEVELS && levels[i] == levels0[i] && At(levels[i], ks[i] - 1) in forward[i]
    ensures var u := At(levels[i], ks[i] - 1); var l := With(levels[i], ks[i], r);
      && AllLinked(forward[i := forward[i][r := forward[i][u]][u := r]], levels[i := l])
      && Inserted(levels0, levels[i := l], ks, r, i + 1)
  {
    assert InsertedAt(levels0, levels, ks, r, i, i);
    if r in levels0[i] { OnLowest(levels0, level, i, r); }
    var list, k := levels[i], ks[i];
    LinkIs(forward[i], list, k - 1);
    if k < |list| { assert list[k] in list; }
    InsertLinked(forward[i], list, k, r);
    var levels' := levels[i := With(list, k, r)];
    var n := i + 1;
    forall j: nat | j < NUM_LEVELS ensures InsertedAt(levels0, levels', ks, r, n, j) {
      assert InsertedAt(levels0, levels, ks, r, i, j);
    }
  }

  ghost predicate MoreAt(levels0: seq<seq<int>>, levels: seq<seq<int>>, r: int, n: nat, i: nat)
    requires |levels| == |levels0| == NUM_LEVELS && i < NUM_LEVELS
  {
    Ascending(levels[i]) && forall x :: x in levels[i] <==> x in levels0[i] || (x == r && i < n)
  }

  lemma InsertedOk(levels0: seq<seq<int>>, levels: seq<seq<int>>, level: nat, ks: seq<int>, r: int, n: nat)
    requires LevelsOk(levels0, level) && |ks| == NUM_LEVELS && Inserted(levels0, levels, ks, r, n)
    requires 1 <= n <= level + 1
    requires r !in levels0[0] && r >= 2 && forall i :: 0 <= i < n ==> Below(levels0[i], r, ks[i])
    ensures LevelsOk(levels, level) && forall x :: x in levels[0] <==> x in levels0[0] || x == r
  {
    forall i: nat | i < NUM_LEVELS ensures MoreAt(levels0, levels, r, n, i) {
      assert InsertedAt(levels0, levels, ks, r, n, i);
      if i < n {
        if r in levels0[i] { OnLowest(levels0, level, i, r); }
        if ks[i] < |levels0[i]| { assert levels0[i][ks[i]] in levels0[i]; }
        WithIs(levels0[i], ks[i], r);
      }
    }
    forall i, x ensures LowerToo(levels, i, x) {
      assert LowerToo(levels0, i, x);
      if 0 < i < NUM_LEVELS { assert MoreAt(levels0, levels, r, n, i) && MoreAt(levels0, levels, r, n, i - 1); }
    }
    assert MoreAt(levels0, levels, r, n, 0);
    forall i | 0 <= i < NUM_LEVELS ensures Ascending(levels[i]) {
      assert MoreAt(levels0, levels, r, n, i);
    }
    forall i | level < i < NUM_LEVELS ensures levels[i] == [] {
      assert InsertedAt(levels0, levels, ks, r, n, i);
    }
  }

  lemma InsertedLevels(levels0: seq<seq<int>>, levels: seq<seq<int>>, level: nat, ks: seq<int>, r: int, n: nat)
    requires LevelsOk(levels0, level) && |ks| == NUM_LEVELS && Inserted(levels0, levels, ks, r, n) && r !in levels0[0]
    ensures |levels| == NUM_LEVELS && forall i :: 0 <= i < NUM_LEVELS ==> (r in levels[i] <==> i < n)
  {
    forall i | 0 <= i < NUM_LEVELS ensures r in levels[i] <==> i < n {
      assert InsertedAt(levels0, levels, ks, r, n, i);
      if i < n {
        assert levels[i][ks[i]] == r;
      } else if r in levels0[i] {
        OnLowest(levels0, level, i, r);
      }
    }
  }

  // r was taken from the first n levels.
  ghost predicate Deleted(levels0: seq<seq<int>>, levels: seq<seq<int>>, r: int, n: nat) {
    |levels| == |levels0| == NUM_LEVELS && forall i :: 0 <= i < NUM_LEVELS ==> DeletedAt(levels0, levels, r, n, i)
  }

  ghost predicate DeletedAt(levels0: seq<seq<int>>, levels: seq<seq<int>>, r: int, n: nat, i: nat)
    requires |levels| == |levels0| == NUM_LEVELS && i < NUM_LEVELS
  {
    if i < n then Ascending(levels[i]) && forall x :: x in levels[i] <==> x in levels0[i] && x != r
    else levels[i] == levels0[i]
  }

  lemma RemovedHere(forward: seq<map<int, int>>, levels0: seq<seq<int>>, levels: seq<seq<int>>, level: nat,
                    ks: seq<int>,
                    r: int, i: nat)
    requires LevelsOk(levels0, level) && |ks| == NUM_LEVELS && Deleted(levels0, levels, r, i) && i < NUM_LEVELS
    requires AllLinked(forward, levels) && r >= 2 && Below(levels0[i], r, ks[i])
    ensures |forward| == NUM_LEVELS && levels[i] == levels0[i] && At(levels[i], ks[i] - 1) in forward[i]
    ensures var u := At(levels[i], ks[i] - 1);
      if forward[i][u] == r then
        && ks[i] < |levels[i]| && r in forward[i]
        && AllLinked(forward[i := forward[i][u := forward[i][r]]], levels[i := Without(levels[i], ks[i])])
        && Deleted(levels0, levels[i := Without(levels[i], ks[i])], r, i + 1)
      else Deleted(levels0, levels, r, i + 1)
  {
    assert DeletedAt(levels0, levels, r, i, i);
    var list, k := levels[i], ks[i];
    LinkIs(forward[i], list, k - 1);
    var levels' := levels;
    if k < |list| && list[k] == r {
      WithoutIs(list, k);
      RemoveLinked(forward[i], list, k);
      levels' := levels[i := Without(list, k)];
    }
    var n := i + 1;
    forall j: nat | j < NUM_LEVELS ensures DeletedAt(levels0, levels', r, n, j) {
      assert DeletedAt(levels0, levels, r, i, j);
    }
  }

  lemma DeletedOk(levels0: seq<seq<int>>, levels: seq<seq<int>>, level: nat, r: int)
    requires LevelsOk(levels0, level) && Deleted(levels0, levels, r, level + 1)
    ensures LevelsOk(levels, level) && Ascending(levels[level])
    ensures forall x :: x in levels[0] <==> x in levels0[0] && x != r
  {
    forall i, x ensures LowerToo(levels, i, x) {
      assert LowerToo(levels0, i, x);
      if 0 < i < NUM_LEVELS {
        assert DeletedAt(levels0, levels, r, level + 1, i) && DeletedAt(levels0, levels, r, level + 1, i - 1);
      }
    }
    forall i | 0 <= i < NUM_LEVELS ensures Ascending(levels[i]) && (i > level ==> levels[i] == []) {
      assert DeletedAt(levels0, levels, r, level + 1, i);
    }
    assert DeletedAt(levels0, levels, r, level + 1, 0);
  }

  lemma HeadThere(forward: seq<map<int, int>>, levels: seq<seq<int>>, level: nat)
    requires AllLinked(forward, levels) && level < |levels| && Ascending(levels[level])
    ensures |forward| == |levels| && HEAD in forward[level]
  {
    LinkIs(forward[level], levels[level], -1);
  }

  lemma LessLevels(forward: seq<map<int, int>>, levels: seq<seq<int>>, level: nat)
    requires LevelsOk(levels, level) && AllLinked(forward, levels) && level > 0 && |forward| == NUM_LEVELS
    requires HEAD in forward[level] && forward[level][HEAD] == NULL
    ensures LevelsOk(levels, level - 1) && (level > 1 ==> HEAD in forward[level - 1])
  {
    LinkIs(forward[level], levels[level], -1);
    LinkIs(forward[level - 1], levels[level - 1], -1);
  }

  lemma NodeThere(forward: seq<map<int, int>>, levels: seq<seq<int>>, level: nat)
    requires LevelsOk(levels, level) && AllLinked(forward, levels) && |forward| == |levels| && HEAD in forward[level]
    requires forward[level][HEAD] != NULL
    ensures levels[level] != []
  {
    LinkIs(forward[level], levels[level], -1);
  }

  lemma NothingLinked(next: map<int, int>)
    requires HEAD in next && next[HEAD] == NULL
    ensures Linked(next, [])
  {
    forall p | -1 <= p < 0 ensures LinkAt(next, [], p) {
    }
  }
}
