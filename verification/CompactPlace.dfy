// compact_allocate: where passes 3 and 4 put the blocks that are kept.
module CompactPlace {
  import opened CompactHeap

  datatype Option<T> = None | Some(value: T)

  // A chunk with at most this many free words counts as full: the size of a block of three fields.
  const SLACK: nat := 4

  // Words in use in each chunk, and the index of the chunk where searches start.
  datatype Place = Place(alloc: seq<nat>, fl: nat)

  function Initial(h: Heap): Place {
    Place(seq(|h.chunks|, _ => 0), 0)
  }

  ghost predicate Fits(h: Heap, st: Place) {
    && |st.alloc| == |h.chunks| && st.fl < |h.chunks|
    && forall c :: 0 <= c < |h.chunks| ==> st.alloc[c] <= h.chunks[c].size
  }

  predicate Full(h: Heap, alloc: seq<nat>, c: nat)
    requires c < |alloc| == |h.chunks|
  {
    h.chunks[c].size <= alloc[c] + SLACK
  }

  // Move past full chunks that are followed by a full chunk.  None: the size of the chunk after the
  // last one is read.
  function SkipFull(h: Heap, alloc: seq<nat>, fl: nat): (r: Option<nat>)
    requires fl < |alloc| == |h.chunks|
    ensures r.Some? ==> fl <= r.value < |alloc|
    ensures r.Some? ==> forall c :: fl <= c < r.value ==> Full(h, alloc, c)
    ensures r.Some? && r.value > fl ==> Full(h, alloc, r.value)
    ensures r.None? <==> forall c :: fl <= c < |alloc| ==> Full(h, alloc, c)
    decreases |alloc| - fl
  {
    if !Full(h, alloc, fl) then Some(fl)
    else if fl + 1 == |alloc| then None
    else if Full(h, alloc, fl + 1) then SkipFull(h, alloc, fl + 1)
    else Some(fl)
  }

  // The first chunk from c on with room for size words.
  function FirstFit(h: Heap, alloc: seq<nat>, c: nat, size: nat): (r: Option<nat>)
    requires c <= |alloc| == |h.chunks|
    ensures r.Some? ==> c <= r.value < |alloc| && h.chunks[r.value].size >= alloc[r.value] + size
    ensures forall d :: c <= d < (if r.Some? then r.value else |alloc|) ==> h.chunks[d].size < alloc[d] + size
    decreases |alloc| - c
  {
    if c == |alloc| then None
    else if h.chunks[c].size >= alloc[c] + size then Some(c)
    else FirstFit(h, alloc, c + 1, size)
  }

  // The state after reserving size words, and their address.
  function Allocate(h: Heap, st: Place, size: nat): (r: Option<(Place, nat)>)
    requires |st.alloc| == |h.chunks| && st.fl < |h.chunks|
    ensures r.Some? ==> |r.value.0.alloc| == |h.chunks| && r.value.0.fl < |h.chunks|
  {
    match SkipFull(h, st.alloc, st.fl)
    case None => None
    case Some(fl) =>
      match FirstFit(h, st.alloc, fl, size)
      case None => None
      case Some(c) => Some((Place(st.alloc[c := st.alloc[c] + size], fl), h.chunks[c].start + st.alloc[c]))
  }

  // The state after the kept blocks among the first k have been placed.
  function PlaceAll(h: Heap, live: seq<bool>, k: nat): (r: Option<Place>)
    requires |live| == |h.blks| && k <= |live| && |h.chunks| > 0
    ensures r.Some? ==> |r.value.alloc| == |h.chunks| && r.value.fl < |h.chunks|
  {
    if k == 0 then Some(Initial(h))
    else
      match PlaceAll(h, live, k - 1)
      case None => None
      case Some(st) =>
        if !live[k - 1] then Some(st)
        else
          match Allocate(h, st, h.blks[k - 1].wosize + 1)
          case None => None
          case Some(r) => Some(r.0)
  }

  // The new header address of block k.
  function NewHp(h: Heap, live: seq<bool>, k: nat): nat
    requires |live| == |h.blks| && k < |live| && |h.chunks| > 0
  {
    match PlaceAll(h, live, k)
    case None => 0
    case Some(st) =>
      match Allocate(h, st, h.blks[k].wosize + 1)
      case None => 0
      case Some(r) => r.1
  }

  // Words of chunk c among the first k blocks.
  ghost function Scanned(h: Heap, k: nat, c: nat): nat
    requires h.Tiled() && k <= |h.blks| && c < |h.chunks|
  {
    var ch := h.chunks[c];
    assert h.StartsChunk(c);
    if h.first[c + 1] <= k then ch.size
    else if h.first[c] <= k then assert h.Adjacent(k); h.blks[k].hp - ch.start
    else 0
  }

  // What holds after placing the first k blocks: no chunk is filled beyond what was scanned of it.
  ghost predicate Behind(h: Heap, st: Place, k: nat)
    requires h.Tiled() && k <= |h.blks|
  {
    && Fits(h, st)
    && (forall c :: 0 <= c < |h.chunks| ==> st.alloc[c] <= Scanned(h, k, c))
    && h.first[st.fl] <= k
    && (forall c :: 0 <= c < st.fl ==> Full(h, st.alloc, c))
  }

  lemma ScannedStep(h: Heap, k: nat, c: nat)
    requires h.Tiled() && k < |h.blks| && c < |h.chunks|
    ensures Scanned(h, k + 1, c) == Scanned(h, k, c) + (if h.blks[k].ch == c then h.blks[k].wosize + 1 else 0)
  {
    assert h.Adjacent(k) && h.StartsChunk(c);
    h.FirstMonotone(h.blks[k].ch, c);
    if k + 1 < |h.blks| { assert h.Adjacent(k + 1); h.FirstMonotone(h.blks[k + 1].ch, c); }
  }

  // A block always fits behind the scan, in its own chunk if nowhere before.
  lemma FitsBehind(h: Heap, st: Place, k: nat, fl: nat)
    requires h.Tiled() && k < |h.blks| && Behind(h, st, k)
    requires SkipFull(h, st.alloc, st.fl) == Some(fl)
    ensures var d := FirstFit(h, st.alloc, fl, h.blks[k].wosize + 1);
            d.Some? && d.value <= h.blks[k].ch && h.chunks[d.value].start + st.alloc[d.value] <= h.blks[k].hp
  {
    FlBehind(h, st, k, fl);
    OwnRoom(h, st, k);
    hide Heap.Tiled;
    hide Behind;
    var c := h.blks[k].ch;
    var d := FirstFit(h, st.alloc, fl, h.blks[k].wosize + 1);
    if d.Some? && d.value < c { assert h.Limit(d.value) <= h.chunks[c].start; }
  }

  // In its own chunk, what is in use ends before it.
  lemma OwnRoom(h: Heap, st: Place, k: nat)
    requires h.Tiled() && k < |h.blks| && Behind(h, st, k)
    ensures h.ChunksOk() && h.blks[k].ch < |h.chunks| == |st.alloc| && h.chunks[h.blks[k].ch].start <= h.blks[k].hp
    ensures Fits(h, st) && h.chunks[h.blks[k].ch].start + st.alloc[h.blks[k].ch] <= h.blks[k].hp
    ensures h.blks[k].End() <= h.Limit(h.blks[k].ch)
  {
    var c := h.blks[k].ch;
    assert h.Adjacent(k);
    assert st.alloc[c] <= Scanned(h, k, c);
  }

  lemma BehindAfter(h: Heap, st: Place, k: nat, fl: nat, d: nat)
    requires h.Tiled() && k < |h.blks| && Behind(h, st, k)
    requires fl < |h.chunks| && h.first[fl] <= k && d < |h.chunks|
    requires forall c :: 0 <= c < fl ==> Full(h, st.alloc, c)
    requires d <= h.blks[k].ch && h.chunks[d].size >= st.alloc[d] + h.blks[k].wosize + 1
    ensures Behind(h, Place(st.alloc[d := st.alloc[d] + h.blks[k].wosize + 1], fl), k + 1)
  {
    var st' := Place(st.alloc[d := st.alloc[d] + h.blks[k].wosize + 1], fl);
    var c := h.blks[k].ch;
    assert h.Adjacent(k);
    forall e | 0 <= e < |h.chunks| ensures st'.alloc[e] <= Scanned(h, k + 1, e) {
      ScannedStep(h, k, e);
      if e == d && d < c {
        h.FirstMonotone(d, c);
      }
    }
    forall e | 0 <= e < fl ensures Full(h, st'.alloc, e) {
      assert Full(h, st.alloc, e);
    }
  }

  lemma AllFull(h: Heap, st: Place)
    requires Fits(h, st) && forall c :: 0 <= c < st.fl ==> Full(h, st.alloc, c)
    ensures SkipFull(h, st.alloc, st.fl).None? <==> forall c :: 0 <= c < |h.chunks| ==> Full(h, st.alloc, c)
    ensures SkipFull(h, st.alloc, st.fl).Some? ==>
              forall c :: 0 <= c < SkipFull(h, st.alloc, st.fl).value ==> Full(h, st.alloc, c)
  {
  }

  // Placing block k fails exactly when every chunk is full; otherwise it goes at or before its place.
  lemma AllocateBehind(h: Heap, st: Place, k: nat)
    requires h.Tiled() && k < |h.blks| && Behind(h, st, k)
    ensures var r := Allocate(h, st, h.blks[k].wosize + 1);
      && (r.None? <==> forall c :: 0 <= c < |h.chunks| ==> Full(h, st.alloc, c))
      && (r.Some? ==> Behind(h, r.value.0, k + 1))
      && (r.Some? ==> exists c :: Placed(h, st, r.value.0, k, c, r.value.1))
  {
    var fl := SkipFull(h, st.alloc, st.fl);
    AllFull(h, st);
    if fl.Some? {
      FlBehind(h, st, k, fl.value);
      FitsBehind(h, st, k, fl.value);
      var d := FirstFit(h, st.alloc, fl.value, h.blks[k].wosize + 1).value;
      BehindAfter(h, st, k, fl.value, d);
      var r := Allocate(h, st, h.blks[k].wosize + 1).value;
      assert Placed(h, st, r.0, k, d, r.1);
    }
  }

  // Block k goes to address a, just after what is in use in chunk c, at or before its old chunk.
  ghost predicate Placed(h: Heap, st: Place, st': Place, k: nat, c: nat, a: nat)
    requires k < |h.blks|
  {
    && c < |h.chunks| == |st.alloc| && h.blks[k].ch < |h.chunks|
    && c <= h.blks[k].ch
    && a == h.chunks[c].start + st.alloc[c]
    && a <= h.blks[k].hp
    && st'.alloc == st.alloc[c := st.alloc[c] + h.blks[k].wosize + 1]
    && st'.alloc[c] <= h.chunks[c].size
  }

  // The search never starts after the chunk of the block being placed.
  lemma FlBehind(h: Heap, st: Place, k: nat, fl: nat)
    requires h.Tiled() && k < |h.blks| && Behind(h, st, k)
    requires SkipFull(h, st.alloc, st.fl) == Some(fl)
    ensures fl <= h.blks[k].ch && h.first[fl] <= k
  {
    var c := h.blks[k].ch;
    assert h.Adjacent(k);
    if fl > st.fl {
      assert Full(h, st.alloc, fl) && h.chunks[fl].size > SLACK;
      assert Scanned(h, k, fl) > 0 && h.StartsChunk(fl);
    }
    h.FirstMonotone(c, fl);
  }

  // ---- The whole placement ----

  ghost predicate Succeeds(h: Heap, live: seq<bool>)
    requires |live| == |h.blks| && |h.chunks| > 0
  {
    PlaceAll(h, live, |live|).Some?
  }

  lemma {:induction false} SucceedsPrefix(h: Heap, live: seq<bool>, k: nat, n: nat)
    requires |live| == |h.blks| && |h.chunks| > 0 && k <= n <= |live|
    requires PlaceAll(h, live, n).Some?
    ensures PlaceAll(h, live, k).Some?
  {
    if k < n { SucceedsPrefix(h, live, k, n - 1); }
  }

  lemma PlaceAllUnfold(h: Heap, live: seq<bool>, k: nat)
    requires |live| == |h.blks| && |h.chunks| > 0 && k < |live|
    requires PlaceAll(h, live, k + 1).Some?
    ensures PlaceAll(h, live, k).Some?
    ensures var st := PlaceAll(h, live, k).value;
            if live[k] then
              && Allocate(h, st, h.blks[k].wosize + 1).Some?
              && PlaceAll(h, live, k + 1).value == Allocate(h, st, h.blks[k].wosize + 1).value.0
            else PlaceAll(h, live, k + 1).value == st
  {
  }

  lemma InitialBehind(h: Heap)
    requires h.Tiled()
    ensures Behind(h, Initial(h), 0)
  {
  }

  lemma {:induction false} PlaceAllBehind(h: Heap, live: seq<bool>, k: nat)
    requires h.Tiled() && |live| == |h.blks| && k <= |live|
    requires PlaceAll(h, live, k).Some?
    ensures Behind(h, PlaceAll(h, live, k).value, k)
  {
    hide Heap.Tiled;
    hide Behind;
    hide Allocate;
    if k == 0 {
      InitialBehind(h);
    } else {
      PlaceAllUnfold(h, live, k - 1);
      hide PlaceAll;
      PlaceAllBehind(h, live, k - 1);
      var st := PlaceAll(h, live, k - 1).value;
      if live[k - 1] {
        AllocateBehind(h, st, k - 1);
      } else {
        BehindSkip(h, st, k - 1);
      }
    }
  }

  lemma BehindSkip(h: Heap, st: Place, k: nat)
    requires h.Tiled() && k < |h.blks| && Behind(h, st, k)
    ensures Behind(h, st, k + 1)
  {
    forall c | 0 <= c < |h.chunks| ensures st.alloc[c] <= Scanned(h, k + 1, c) {
      ScannedStep(h, k, c);
    }
  }

  // One step of the placement, for a block that is kept.
  lemma PlaceStep(h: Heap, live: seq<bool>, k: nat) returns (c: nat)
    requires h.Tiled() && |live| == |h.blks| && k < |live| && live[k]
    requires PlaceAll(h, live, k + 1).Some?
    ensures PlaceAll(h, live, k).Some?
    ensures Placed(h, PlaceAll(h, live, k).value, PlaceAll(h, live, k + 1).value, k, c, NewHp(h, live, k))
  {
    hide Heap.Tiled;
    hide Behind;
    var st := PlaceAll(h, live, k).value;
    PlaceAllBehind(h, live, k);
    AllocateBehind(h, st, k);
    var r := Allocate(h, st, h.blks[k].wosize + 1).value;
    c :| Placed(h, st, r.0, k, c, r.1);
  }

  // The words of block i after the move.
  ghost predicate InNew(h: Heap, live: seq<bool>, i: nat, x: nat)
    requires |live| == |h.blks| && i < |live| && |h.chunks| > 0
  {
    live[i] && NewHp(h, live, i) <= x < NewHp(h, live, i) + h.blks[i].wosize + 1
  }

  ghost predicate InSome(h: Heap, live: seq<bool>, k: nat, x: nat)
    requires |live| == |h.blks| && k <= |live| && |h.chunks| > 0
  {
    exists i: nat :: i < k && InNew(h, live, i, x)
  }

  // After placing k blocks the words in use of every chunk are exactly those of the blocks placed ...
  ghost predicate Packed(h: Heap, live: seq<bool>, k: nat)
    requires |live| == |h.blks| && k <= |live| && |h.chunks| > 0
    requires PlaceAll(h, live, k).Some?
  {
    var st := PlaceAll(h, live, k).value;
    && (forall x: nat :: InUse(h, st, x) <==> InSome(h, live, k, x))
    // ... and no two of them share a word.
    && (forall i: nat, j: nat, x: nat :: i < j < k && InNew(h, live, i, x) ==> !InNew(h, live, j, x))
  }

  ghost predicate InUse(h: Heap, st: Place, x: nat)
    requires |st.alloc| == |h.chunks|
  {
    exists c :: 0 <= c < |h.chunks| && h.chunks[c].start <= x < h.chunks[c].start + st.alloc[c]
  }

  lemma {:induction false} PlacementPacked(h: Heap, live: seq<bool>, k: nat)
    requires h.Tiled() && |live| == |h.blks| && k <= |live|
    requires PlaceAll(h, live, k).Some?
    ensures Packed(h, live, k)
  {
    if k > 0 {
      hide Heap.Tiled;
      hide Behind;
      hide Allocate;
      hide Packed;
      SucceedsPrefix(h, live, k - 1, k);
      hide PlaceAll;
      PlacementPacked(h, live, k - 1);
      PlaceAllBehind(h, live, k - 1);
      if live[k - 1] {
        var c := PlaceStep(h, live, k - 1);
        BehindFits(h, PlaceAll(h, live, k - 1).value, k - 1);
        PackedStep(h, live, k - 1, c);
      } else {
        PackedSkip(h, live, k - 1);
      }
    }
  }

  lemma BehindFits(h: Heap, st: Place, k: nat)
    requires h.Tiled() && k <= |h.blks| && Behind(h, st, k)
    ensures Fits(h, st) && h.ChunksOk()
  {
  }

  lemma PackedSkip(h: Heap, live: seq<bool>, k: nat)
    requires |live| == |h.blks| && k < |live| && !live[k] && |h.chunks| > 0
    requires PlaceAll(h, live, k).Some? && PlaceAll(h, live, k + 1).Some? && Packed(h, live, k)
    ensures Packed(h, live, k + 1)
  {
    assert PlaceAll(h, live, k + 1) == PlaceAll(h, live, k);
    PackedGrows(h, live, k);
  }

  lemma PackedStep(h: Heap, live: seq<bool>, k: nat, c: nat)
    requires h.ChunksOk() && |live| == |h.blks| && k < |live| && live[k]
    requires PlaceAll(h, live, k).Some? && PlaceAll(h, live, k + 1).Some? && Packed(h, live, k)
    requires Fits(h, PlaceAll(h, live, k).value)
    requires Placed(h, PlaceAll(h, live, k).value, PlaceAll(h, live, k + 1).value, k, c, NewHp(h, live, k))
    ensures Packed(h, live, k + 1)
  {
    hide PlaceAll;
    hide NewHp;
    var st, st' := PlaceAll(h, live, k).value, PlaceAll(h, live, k + 1).value;
    forall x: nat ensures InUse(h, st', x) <==> InUse(h, st, x) || InNew(h, live, k, x) {
      InUseStep(h, live, k, c, x);
    }
    forall i: nat, x: nat | i < k && InNew(h, live, i, x) ensures !InNew(h, live, k, x) {
      assert InUse(h, st, x);
      var d: nat :| d < |h.chunks| && h.chunks[d].start <= x < h.chunks[d].start + st.alloc[d];
      SameChunk(h, live, k, c, d, x);
    }
    PackedGrows(h, live, k);
  }

  lemma PackedGrows(h: Heap, live: seq<bool>, k: nat)
    requires |live| == |h.blks| && k < |live| && |h.chunks| > 0
    requires PlaceAll(h, live, k).Some? && PlaceAll(h, live, k + 1).Some? && Packed(h, live, k)
    requires forall x: nat :: InUse(h, PlaceAll(h, live, k + 1).value, x) <==>
                         InUse(h, PlaceAll(h, live, k).value, x) || InNew(h, live, k, x)
    requires forall i: nat, x: nat :: i < k && InNew(h, live, i, x) ==> !InNew(h, live, k, x)
    ensures Packed(h, live, k + 1)
  {
    hide PlaceAll;
    hide InNew;
    hide InUse;
    hide InSome;
    var st, st' := PlaceAll(h, live, k).value, PlaceAll(h, live, k + 1).value;
    forall x: nat ensures InUse(h, st', x) <==> InSome(h, live, k + 1, x) {
      InSomeStep(h, live, k, x);
      assert InUse(h, st, x) <==> InSome(h, live, k, x);
    }
    forall i: nat, j: nat, x: nat | i < j < k + 1 && InNew(h, live, i, x) ensures !InNew(h, live, j, x) {
      if j < k { assert !InNew(h, live, j, x); } else { assert !InNew(h, live, k, x); }
    }
  }

  lemma InSomeStep(h: Heap, live: seq<bool>, k: nat, x: nat)
    requires |live| == |h.blks| && k < |live| && |h.chunks| > 0
    ensures InSome(h, live, k + 1, x) <==> InSome(h, live, k, x) || InNew(h, live, k, x)
  {
    hide InNew;
  }

  lemma InUseStep(h: Heap, live: seq<bool>, k: nat, c: nat, x: nat)
    requires |live| == |h.blks| && k < |live| && live[k] && |h.chunks| > 0
    requires PlaceAll(h, live, k).Some? && PlaceAll(h, live, k + 1).Some?
    requires Placed(h, PlaceAll(h, live, k).value, PlaceAll(h, live, k + 1).value, k, c, NewHp(h, live, k))
    ensures InUse(h, PlaceAll(h, live, k + 1).value, x) <==>
            InUse(h, PlaceAll(h, live, k).value, x) || InNew(h, live, k, x)
  {
    hide PlaceAll;
    hide NewHp;
    var st, st' := PlaceAll(h, live, k).value, PlaceAll(h, live, k + 1).value;
    if InUse(h, st, x) {
      var d :| 0 <= d < |h.chunks| && h.chunks[d].start <= x < h.chunks[d].start + st.alloc[d];
      assert h.chunks[d].start <= x < h.chunks[d].start + st'.alloc[d];
    }
    if InNew(h, live, k, x) {
      assert h.chunks[c].start <= x < h.chunks[c].start + st'.alloc[c];
    }
  }

  // A word in use before block k is placed is not one of its words.
  lemma SameChunk(h: Heap, live: seq<bool>, k: nat, c: nat, d: nat, x: nat)
    requires h.ChunksOk() && |live| == |h.blks| && k < |live| && live[k]
    requires PlaceAll(h, live, k).Some? && PlaceAll(h, live, k + 1).Some?
    requires Placed(h, PlaceAll(h, live, k).value, PlaceAll(h, live, k + 1).value, k, c, NewHp(h, live, k))
    requires Fits(h, PlaceAll(h, live, k).value)
    requires d < |h.chunks| && h.chunks[d].start <= x < h.chunks[d].start + PlaceAll(h, live, k).value.alloc[d]
    ensures !InNew(h, live, k, x)
  {
    hide PlaceAll;
    hide NewHp;
    if c < d { assert h.Limit(c) <= h.chunks[d].start; }
    if d < c { assert h.Limit(d) <= h.chunks[c].start; }
  }

  // ---- When placement fails ----

  // Some block is to be placed when every chunk is full.
  ghost predicate Stuck(h: Heap, live: seq<bool>, k: nat)
    requires |live| == |h.blks| && |h.chunks| > 0
  {
    && k < |live| && live[k] && PlaceAll(h, live, k).Some?
    && forall c :: 0 <= c < |h.chunks| ==> Full(h, PlaceAll(h, live, k).value.alloc, c)
  }

  lemma {:induction false} FailsAtFirst(h: Heap, live: seq<bool>, n: nat)
    requires h.Tiled() && |live| == |h.blks| && n <= |live|
    ensures PlaceAll(h, live, n).None? <==> exists k :: 0 <= k < n && Stuck(h, live, k)
  {
    hide Heap.Tiled;
    hide Behind;
    if n > 0 {
      FailsAtFirst(h, live, n - 1);
      if PlaceAll(h, live, n - 1).Some? {
        PlaceAllBehind(h, live, n - 1);
        if live[n - 1] { AllocateBehind(h, PlaceAll(h, live, n - 1).value, n - 1); }
        assert PlaceAll(h, live, n).None? ==> Stuck(h, live, n - 1);
      }
    }
  }

  // Placement reads past the last chunk exactly when a block is left to place and all chunks are full.
  lemma FailsExactlyWhenStuck(h: Heap, live: seq<bool>)
    requires h.Tiled() && |live| == |h.blks|
    ensures !Succeeds(h, live) <==> exists k :: Stuck(h, live, k)
  {
    hide Heap.Tiled;
    FailsAtFirst(h, live, |live|);
  }

  ghost function Sum(s: seq<nat>): nat {
    if s == [] then 0 else s[0] + Sum(s[1..])
  }

  ghost function HeapWords(chunks: seq<Chunk>): nat {
    if chunks == [] then 0 else chunks[0].size + HeapWords(chunks[1..])
  }

  ghost function KeptWords(h: Heap, live: seq<bool>, k: nat): nat
    requires |live| == |h.blks| && k <= |live|
  {
    if k == 0 then 0
    else KeptWords(h, live, k - 1) + (if live[k - 1] then h.blks[k - 1].wosize + 1 else 0)
  }

  lemma {:induction false} SumUpdate(s: seq<nat>, i: nat, d: nat)
    requires i < |s|
    ensures Sum(s[i := s[i] + d]) == Sum(s) + d
  {
    var t := s[i := s[i] + d];
    if i > 0 {
      assert t[1..] == s[1..][i - 1 := s[1..][i - 1] + d];
      SumUpdate(s[1..], i - 1, d);
    } else {
      assert t[1..] == s[1..];
    }
  }

  lemma {:induction false} SumZero(n: nat)
    ensures Sum(seq(n, _ => 0)) == 0
  {
    if n > 0 {
      assert seq(n, _ => 0)[1..] == seq(n - 1, _ => 0);
      SumZero(n - 1);
    }
  }

  // The words in use are those of the blocks placed so far.
  lemma {:induction false} InUseSum(h: Heap, live: seq<bool>, k: nat)
    requires h.Tiled() && |live| == |h.blks| && k <= |live|
    requires PlaceAll(h, live, k).Some?
    ensures Sum(PlaceAll(h, live, k).value.alloc) == KeptWords(h, live, k)
  {
    hide Heap.Tiled;
    if k == 0 {
      SumZero(|h.chunks|);
    } else {
      PlaceAllUnfold(h, live, k - 1);
      InUseSum(h, live, k - 1);
      if live[k - 1] {
        var c := PlaceStep(h, live, k - 1);
        SumUpdate(PlaceAll(h, live, k - 1).value.alloc, c, h.blks[k - 1].wosize + 1);
      }
    }
  }

  lemma {:induction false} AllFullBound(chunks: seq<Chunk>, alloc: seq<nat>)
    requires |alloc| == |chunks|
    requires forall c :: 0 <= c < |chunks| ==> chunks[c].size <= alloc[c] + SLACK
    ensures HeapWords(chunks) <= Sum(alloc) + SLACK * |chunks|
  {
    if chunks != [] { AllFullBound(chunks[1..], alloc[1..]); }
  }

  lemma {:induction false} KeptMonotone(h: Heap, live: seq<bool>, k: nat, n: nat)
    requires |live| == |h.blks| && k <= n <= |live|
    ensures KeptWords(h, live, k) <= KeptWords(h, live, n)
  {
    if k < n { KeptMonotone(h, live, k, n - 1); }
  }

  // Placement succeeds when the heap has four words per chunk more than the blocks kept need.
  lemma EnoughSlack(h: Heap, live: seq<bool>)
    requires h.Tiled() && |live| == |h.blks|
    requires KeptWords(h, live, |live|) + SLACK * |h.chunks| <= HeapWords(h.chunks)
    ensures Succeeds(h, live)
  {
    FailsExactlyWhenStuck(h, live);
    if k: nat :| Stuck(h, live, k) {
      InUseSum(h, live, k);
      var st := PlaceAll(h, live, k).value;
      forall c | 0 <= c < |h.chunks| ensures h.chunks[c].size <= st.alloc[c] + SLACK {
        assert Full(h, st.alloc, c);
      }
      AllFullBound(h.chunks, PlaceAll(h, live, k).value.alloc);
      KeptMonotone(h, live, k + 1, |live|);
    }
  }

  // The header of block k is among the last four words of the heap.
  ghost predicate AtEnd(h: Heap, k: nat) {
    && k < |h.blks| && |h.chunks| > 0 && h.blks[k].ch == |h.chunks| - 1
    && h.blks[k].hp + SLACK >= h.Limit(|h.chunks| - 1)
  }

  // Only such a block can be stuck.
  lemma StuckAtEnd(h: Heap, live: seq<bool>, k: nat)
    requires h.Tiled() && |live| == |h.blks| && Stuck(h, live, k)
    ensures AtEnd(h, k) && live[k] && KeptWords(h, live, k) + SLACK * |h.chunks| >= HeapWords(h.chunks)
  {
    var st, c := PlaceAll(h, live, k).value, |h.chunks| - 1;
    PlaceAllBehind(h, live, k);
    assert Full(h, st.alloc, c) && st.alloc[c] <= Scanned(h, k, c);
    assert h.StartsChunk(c) && h.Adjacent(k);
    h.FirstMonotone(c, h.blks[k].ch);
    InUseSum(h, live, k);
    forall d | 0 <= d < |h.chunks| ensures h.chunks[d].size <= st.alloc[d] + SLACK {
      assert Full(h, st.alloc, d);
    }
    AllFullBound(h.chunks, st.alloc);
  }

  lemma {:induction false} NoRoomLeft(chunks: seq<Chunk>, alloc: seq<nat>, n: nat)
    requires |alloc| == |chunks| && Sum(alloc) + n >= HeapWords(chunks)
    requires forall c :: 0 <= c < |chunks| ==> alloc[c] <= chunks[c].size
    ensures Sum(alloc) <= HeapWords(chunks)
    ensures forall c :: 0 <= c < |chunks| ==> chunks[c].size <= alloc[c] + n
  {
    if chunks != [] {
      FitsSum(chunks[1..], alloc[1..]);
      var d := chunks[0].size - alloc[0];
      if d <= n { NoRoomLeft(chunks[1..], alloc[1..], n - d); }
    }
  }

  lemma {:induction false} FitsSum(chunks: seq<Chunk>, alloc: seq<nat>)
    requires |alloc| == |chunks| && forall c :: 0 <= c < |chunks| ==> alloc[c] <= chunks[c].size
    ensures Sum(alloc) <= HeapWords(chunks)
  {
    if chunks != [] { FitsSum(chunks[1..], alloc[1..]); }
  }

  // A kept block with no more than four words of the heap left for it when those before it are placed.
  ghost predicate Crowded(h: Heap, live: seq<bool>, k: nat)
    requires |live| == |h.blks|
  {
    k < |live| && live[k] && KeptWords(h, live, k) + SLACK >= HeapWords(h.chunks)
  }

  // Any such block is fatal; in a heap of one chunk nothing else is.
  lemma CrowdedFails(h: Heap, live: seq<bool>)
    requires h.Tiled() && |live| == |h.blks|
    ensures (exists k: nat :: Crowded(h, live, k)) ==> !Succeeds(h, live)
    ensures |h.chunks| == 1 && !Succeeds(h, live) ==> exists k: nat :: Crowded(h, live, k)
  {
    FailsExactlyWhenStuck(h, live);
    if k: nat :| Crowded(h, live, k) {
      if PlaceAll(h, live, |live|).Some? {
        SucceedsPrefix(h, live, k, |live|);
        PlaceAllBehind(h, live, k);
        InUseSum(h, live, k);
        NoRoomLeft(h.chunks, PlaceAll(h, live, k).value.alloc, SLACK);
        assert Stuck(h, live, k);
      }
    }
    if |h.chunks| == 1 && !Succeeds(h, live) {
      var k: nat :| Stuck(h, live, k);
      StuckAtEnd(h, live, k);
      assert Crowded(h, live, k);
    }
  }

  // Without a kept block at the end of the heap, placement succeeds.
  lemma ClearEnd(h: Heap, live: seq<bool>)
    requires h.Tiled() && |live| == |h.blks|
    ensures (forall k :: 0 <= k < |live| && live[k] ==> !AtEnd(h, k)) ==> Succeeds(h, live)
  {
    FailsExactlyWhenStuck(h, live);
    if k: nat :| Stuck(h, live, k) { StuckAtEnd(h, live, k); }
  }
}
