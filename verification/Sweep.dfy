// sweep_slice of major_gc.c and caml_alloc_shr of memory.c, on the free list of freelist.c.
module Sweep {
  import opened Header
  import opened FreeHeap
  import opened Lists
  import opened FreeTable
  import opened FreeMoves
  import opened FreeList

  datatype Phase = Mark | Sweep | Idle

  // No block lies across x.
  ghost predicate Side(hd: map<int, Hd>, x: int, b: int) {
    b in hd ==> End(hd, b) <= x || b > x
  }

  ghost predicate Boundary(hd: map<int, Hd>, x: int) {
    forall b :: Side(hd, x, b)
  }

  // Block b is in use, and the cycle will leave it so: it is marked, or it is passed, or all are.
  ghost predicate LiveAt(hd: map<int, Hd>, phase: Phase, x: int, b: int) {
    && b in hd && hd[b].color != Blue && hd[b].size >= 1
    && (hd[b].color != White || phase == Idle || (phase == Sweep && b <= x))
  }

  // These blocks, and their sizes.
  ghost function Live(hd: map<int, Hd>, phase: Phase, x: int): map<int, nat> {
    map b | b in hd && LiveAt(hd, phase, x, b) :: hd[b].size
  }

  // What the sweeper has passed is white again.
  ghost predicate PassedWhite(hd: map<int, Hd>, x: int) {
    forall b :: b in hd && b <= x ==> hd[b].color == White || hd[b].color == Blue
  }

  // The chunks of the heap, by address.
  ghost predicate Ordered(heap: seq<Chunk>, chunks: set<Chunk>) {
    && (forall c :: c in heap <==> c in chunks)
    && (forall i :: 0 <= i < |heap| ==> heap[i].lo < heap[i].hi)
    && (forall i, j :: 0 <= i < j < |heap| ==> heap[i].hi < heap[j].lo)
  }

  // caml_allocation_color
  function AllocationColor(phase: Phase, hp: int, sweepHp: int): (c: Color)
    ensures c == White || c == Black
    ensures phase == Idle ==> c == White
  {
    if phase == Mark || (phase == Sweep && hp >= sweepHp) then Black else White
  }

  class Sweeper {
    const fl: FreeList
    var phase: Phase
    var heap: seq<Chunk>      // linked by Chunk_next
    var at: nat               // chunk, whose end is limit

    constructor (fl: FreeList)
      ensures this.fl == fl && phase == Idle && heap == [] && at == 0
    {
      this.fl, phase, heap, at := fl, Idle, [], 0;
    }

    ghost predicate TablesOk()
      reads fl
    {
      fl.firstFit ==> fl.TableOk() && fl.BeyondOk()
    }

    // The free list, and where the sweeper is.
    ghost predicate Inv()
      reads this, fl
    {
      && fl.Valid() && Ordered(heap, fl.chunks) && Boundary(fl.hd, fl.sweepHp)
      && (if phase == Sweep
          then at < |heap| && heap[at].lo <= fl.sweepHp <= heap[at].hi && PassedWhite(fl.hd, fl.sweepHp)
          else fl.sweepHp == 0 || exists c :: c in heap && c.lo <= fl.sweepHp <= c.hi)
    }

    // What the cycle leaves in use.
    ghost function Survivors(): map<int, nat>
      reads this, fl
    {
      Live(fl.hd, phase, fl.sweepHp)
    }

    // No chunk is bigger than a block may be, and no two free blocks touch.
    ghost predicate Tidy()
      reads fl`hd, fl`chunks
    {
      Small(fl.chunks, fl.maxWosize) && NoneTouch(fl.hd)
    }

    // start_cycle
    method StartCycle()
      requires Inv() && phase == Idle
      modifies `phase
      ensures Inv() && phase == Mark
    {
      phase := Mark;
    }

    // The end of mark_slice: the sweeper begins with the first chunk.
    method StartSweep()
      requires Inv() && phase == Mark && heap != []
      modifies `phase, `at, fl`lastFragment, fl`flMerge, fl`mk, fl`sweepHp
      ensures Inv() && phase == Sweep && Survivors() == old(Survivors())
    {
      hide HeapOk;
      hide FragmentAt;
      hide MergeAt;
      hide PassedWhite;
      hide Boundary;
      fl.InitMerge();
      StartsBelow(fl.hd, fl.next, fl.list, fl.chunks, heap);
      fl.sweepHp := heap[0].lo;
      phase, at := Sweep, 0;
    }

    // A block that the marker has reached.
    method Blacken(b: int)
      requires Inv() && TablesOk() && phase == Mark && b in fl.hd && fl.hd[b].color != Blue && fl.hd[b].size >= 1
      modifies fl`hd
      ensures Inv() && TablesOk() && fl.hd == old(fl.hd)[b := Hd(old(fl.hd)[b].size, Black)]
      ensures old(Tidy()) ==> Tidy()
    {
      hide HeapOk;
      hide FragmentAt;
      hide MergeAt;
      hide Boundary;
      hide Total;
      hide Maxima;
      hide EntriesAt;
      hide Sizes;
      RecolorOk(fl.hd, fl.next, fl.list, fl.chunks, fl.maxWosize, b, Black);
      RecolorBoundary(fl.hd, fl.sweepHp, b, Black);
      RecolorFragment(fl.hd, fl.lastFragment, fl.sweepHp, b, Black);
      if Tidy() { RecolorTouch(fl.hd, b, Black); }
      fl.hd := fl.hd[b := Hd(fl.hd[b].size, Black)];
    }

    // One block of the sweep.
    method SweepBlock()
      requires Inv() && TablesOk() && phase == Sweep && fl.sweepHp < heap[at].hi
      modifies fl
      ensures Inv() && TablesOk() && fl.sweepHp > old(fl.sweepHp) && fl.chunks == old(fl.chunks)
      ensures Survivors() == old(Survivors())
      ensures old(Separated(fl.hd, fl.maxWosize)) ==> Separated(fl.hd, fl.maxWosize)
    {
      hide HeapOk;
      hide FragmentAt;
      hide MergeAt;
      hide Boundary;
      hide PassedWhite;
      hide Total;
      hide Maxima;
      hide EntriesAt;
      hide Sizes;
      hide Separated;
      hide Resumes;
      hide FreesOnly;
      hide EndsAt;
      ghost var x, hd0 := fl.sweepHp, fl.hd;
      NextBlock(fl.hd, fl.next, fl.list, fl.chunks, heap[at], x);
      var bp := fl.sweepHp + 1;
      match fl.hd[bp].color {
        case White =>
          var adj := fl.MergeBlock(bp);
          MergedInside(fl.hd, fl.next, fl.list, fl.chunks, heap[at], bp, adj);
          MergedLive(hd0, fl.hd, fl.next, fl.list, fl.chunks, bp, adj);
        case Blue =>
          BluePassed(fl.hd, fl.next, fl.list, fl.chunks, fl.flMerge, fl.mk, fl.lastFragment, bp);
          fl.sweepHp := End(fl.hd, bp);
          fl.flMerge := bp;
          fl.mk := fl.mk + 1;
        case _ =>
          KeptPassed(fl.hd, fl.next, fl.list, fl.chunks, fl.flMerge, fl.mk, fl.lastFragment, bp);
          RecolorOk(fl.hd, fl.next, fl.list, fl.chunks, fl.maxWosize, bp, White);
          fl.sweepHp := End(fl.hd, bp);
          fl.hd := fl.hd[bp := Hd(fl.hd[bp].size, White)];
      }
    }

    // caml_fl_allocate, by either policy.  The block comes from the free block cur.
    method Allocate(wosize: nat) returns (hp: int, ghost cur: int)
      requires fl.Valid() && 1 <= wosize && (fl.firstFit ==> fl.flpMax >= 1)
      requires fl.firstFit ==> fl.TableOk() && (fl.BeyondOk() || fl.Extended(wosize))
      modifies fl
      ensures fl.Valid() && fl.chunks == old(fl.chunks) && fl.sweepHp == old(fl.sweepHp)
      ensures hp == NULL <==> NoFit(old(fl.Sz()), wosize)
      ensures hp == NULL ==>
        fl.hd == old(fl.hd) && fl.list == old(fl.list) && fl.flLast == At(fl.list, |fl.list| - 1)
      ensures hp == NULL && fl.firstFit && Few(old(fl.Sz()), fl.flpMax) ==> TablesOk() && fl.lim == |fl.list|
      ensures hp != NULL ==> TakenFrom(old(fl.hd), fl.hd, cur, hp + 1, wosize)
      ensures hp != NULL && fl.firstFit ==> Lowest(old(fl.hd), cur, wosize)
      ensures hp != NULL ==> fl.KeepsApart(old(fl.hd), cur, wosize)
      ensures Few(old(fl.Sz()), fl.flpMax) && Few(fl.Sz(), fl.flpMax) ==> TablesOk()
    {
      hide HeapOk;
      hide FragmentAt;
      hide MergeAt;
      hide Total;
      hide Maxima;
      hide EntriesAt;
      hide Sizes;
      hide Resumes;
      hide Few;
      hide Taken;
      ghost var p, start;
      ghost var hd0, next0, list0, chunks0 := fl.hd, fl.next, fl.list, fl.chunks;
      cur := FL_HEAD;
      if fl.firstFit {
        hp, p := fl.AllocateFirstFit(wosize, White);
      } else {
        hp, start, p := fl.AllocateNextFit(wosize, White);
      }
      if hp != NULL {
        EntryFacts(hd0, next0, list0, chunks0, p);
        cur := list0[p];
        if fl.firstFit { FirstIsLowest(hd0, next0, list0, chunks0, wosize, p); }
      }
    }

    // caml_add_to_heap: the new chunk takes its place among the others.
    method AddToHeap(ghost chunks0: set<Chunk>, bp: int, n: nat)
      requires Ordered(heap, chunks0) && NewChunk(chunks0, bp, n)
      modifies `heap, `at
      ensures Ordered(heap, chunks0 + {Chunk(bp - 1, bp + n)})
      ensures old(at) < |old(heap)| ==> at < |heap| && heap[at] == old(heap[at])
    {
      hide Ordered;
      hide NewChunk;
      var i := 0;
      while i < |heap| && heap[i].lo < bp - 1
        invariant i <= |heap| && forall j :: 0 <= j < i ==> heap[j].lo < bp - 1
      {
        i := i + 1;
      }
      ChunkInserted(heap, chunks0, bp, n, i);
      if i <= at { at := at + 1; }
      heap := heap[..i] + [Chunk(bp - 1, bp + n)] + heap[i..];
    }

    // The new chunk, one free block of n words, that expand_heap made.
    method Extend(wosize: nat, bp: int, n: nat)
      requires Inv() && TablesOk() && NoFit(fl.Sz(), wosize) && 1 <= wosize <= n
      requires fl.flLast == At(fl.list, |fl.list| - 1) && (fl.firstFit ==> fl.lim == |fl.list|)
      requires 2 <= bp && NewChunk(fl.chunks, bp, n)
      modifies fl, `heap, `at
      ensures Inv() && (fl.firstFit ==> fl.TableOk() && (fl.BeyondOk() || fl.Extended(wosize)))
      ensures fl.sweepHp == old(fl.sweepHp) && fl.hd == old(fl.hd)[bp := Hd(n, Blue)] && bp !in old(fl.hd)
      ensures fl.chunks == old(fl.chunks) + {Chunk(bp - 1, bp + n)} && Survivors() == old(Survivors())
      ensures !NoFit(fl.Sz(), wosize) && exists k :: Inserted(old(fl.Sz()), n, k, fl.Sz())
      ensures old(Separated(fl.hd, fl.maxWosize)) ==> Separated(fl.hd, fl.maxWosize)
    {
      hide HeapOk;
      hide FragmentAt;
      hide MergeAt;
      hide Boundary;
      hide PassedWhite;
      hide Total;
      hide Maxima;
      hide EntriesAt;
      hide Sizes;
      hide Separated;
      hide Resumes;
      hide LastFits;
      hide NewChunk;
      hide NoFit;
      ghost var x := fl.sweepHp;
      ghost var c :| phase == Sweep || x == 0 || (c in heap && c.lo <= x <= c.hi);
      NewBlock(fl.hd, fl.next, fl.list, fl.chunks, bp, n);
      NewAway(heap, fl.chunks, bp, n, x, if phase == Sweep then heap[at] else c);
      NewSide(fl.hd, phase, x, bp, n);
      NoneBigger(fl.Sz(), wosize, n);
      fl.AddBlocks(bp, n);
      AddToHeap(old(fl.chunks), bp, n);
      BigEnough(fl.hd, fl.next, fl.list, fl.chunks, bp, wosize);
    }

    // The end of caml_alloc_shr: the header of the block that was taken from cur.
    method GiveHeader(hp: int, wosize: nat, ghost hd0: map<int, Hd>, ghost chunks0: set<Chunk>, ghost cur: int)
      returns (v: int)
      requires fl.Valid() && Tiled(hd0, chunks0) && TakenFrom(hd0, fl.hd, cur, hp + 1, wosize) && 1 <= wosize
      requires Boundary(hd0, fl.sweepHp) && (phase == Sweep ==> PassedWhite(hd0, fl.sweepHp))
      modifies fl`hd
      ensures fl.Valid() && v != NULL && old(fl.Sz()) == fl.Sz()
      ensures Boundary(fl.hd, fl.sweepHp) && (phase == Sweep ==> PassedWhite(fl.hd, fl.sweepHp))
      ensures v in fl.hd && fl.hd[v] == Hd(wosize, AllocationColor(phase, v - 1, fl.sweepHp)) && KeepsUsed(hd0, fl.hd)
      ensures Separated(fl.hd, fl.maxWosize) <==> old(Separated(fl.hd, fl.maxWosize))
      ensures v !in Live(hd0, phase, fl.sweepHp) && Survivors() == Live(hd0, phase, fl.sweepHp)[v := wosize]
    {
      hide HeapOk;
      hide FragmentAt;
      hide MergeAt;
      hide Boundary;
      hide PassedWhite;
      hide Total;
      hide Sizes;
      hide Separated;
      hide Taken;
      hide Tiled;
      v := hp + 1;
      TakenLive(hd0, fl.hd, chunks0, fl.sweepHp, phase, cur, v, wosize);
      var color := AllocationColor(phase, hp, fl.sweepHp);
      RecolorOk(fl.hd, fl.next, fl.list, fl.chunks, fl.maxWosize, v, color);
      RecolorFragment(fl.hd, fl.lastFragment, fl.sweepHp, v, color);
      fl.hd := fl.hd[v := Hd(wosize, color)];
    }

    // Allocation from the blocks that are free, with the header.
    method AllocHere(wosize: nat) returns (v: int, ghost cur: int)
      requires Inv() && 1 <= wosize && (fl.firstFit ==> fl.flpMax >= 1)
      requires fl.firstFit ==> fl.TableOk() && (fl.BeyondOk() || fl.Extended(wosize))
      modifies fl
      ensures Inv() && fl.chunks == old(fl.chunks) && fl.sweepHp == old(fl.sweepHp)
      ensures v == NULL <==> NoFit(old(fl.Sz()), wosize)
      ensures v == NULL ==>
        fl.hd == old(fl.hd) && fl.list == old(fl.list) && fl.flLast == At(fl.list, |fl.list| - 1)
      ensures v == NULL && fl.firstFit && Few(old(fl.Sz()), fl.flpMax) ==> TablesOk() && fl.lim == |fl.list|
      ensures v != NULL ==> v in fl.hd && fl.hd[v] == Hd(wosize, AllocationColor(phase, v - 1, fl.sweepHp))
      ensures v != NULL ==> v !in old(Survivors()) && Survivors() == old(Survivors())[v := wosize]
      ensures v != NULL ==> KeepsUsed(old(fl.hd), fl.hd) && fl.KeepsApart(old(fl.hd), cur, wosize)
      ensures v != NULL && fl.firstFit ==> Lowest(old(fl.hd), cur, wosize)
      ensures old(Tidy()) ==> Tidy()
      ensures Few(old(fl.Sz()), fl.flpMax) && Few(fl.Sz(), fl.flpMax) ==> TablesOk()
    {
      hide HeapOk;
      hide FragmentAt;
      hide MergeAt;
      hide Boundary;
      hide PassedWhite;
      hide Total;
      hide Maxima;
      hide EntriesAt;
      hide Sizes;
      hide Separated;
      hide Resumes;
      hide LastFits;
      hide Taken;
      hide Lowest;
      hide Few;
      hide Tiled;
      hide Small;
      hide NoneTouch;
      hide Cramped;
      TidyApart(fl.hd, fl.next, fl.list, fl.chunks, fl.maxWosize);
      ghost var hd0, chunks0 := fl.hd, fl.chunks;
      TilesThere(fl.hd, fl.next, fl.list, fl.chunks);
      var hp;
      hp, cur := Allocate(wosize);
      if hp == NULL { return NULL, cur; }
      ghost var hd1 := fl.hd;
      v := GiveHeader(hp, wosize, hd0, chunks0, cur);
      TilesThere(fl.hd, fl.next, fl.list, fl.chunks);
      StaysTidy(hd0, hd1, fl.hd, fl.chunks, fl.maxWosize, cur, hp + 1, wosize);
    }

    // caml_alloc_shr.  When nothing free is big enough, expand_heap gives a block of n words at bp, or
    // fails: n is 0.  mid is the sizes of the free blocks after that.
    method AllocShr(wosize: nat, bp: int, n: nat) returns (v: int, ghost cur: int, ghost mid: seq<nat>)
      requires Inv() && TablesOk() && 1 <= wosize && (fl.firstFit ==> fl.flpMax >= 1 && Few(fl.Sz(), fl.flpMax))
      requires n == 0 || (n >= wosize && 2 <= bp && NewChunk(fl.chunks, bp, n))
      modifies fl, `heap, `at
      ensures Inv() && fl.sweepHp == old(fl.sweepHp)
      ensures v == NULL <==> wosize > fl.maxWosize || (NoFit(old(fl.Sz()), wosize) && n == 0)
      ensures v == NULL ==> fl.hd == old(fl.hd) && Survivors() == old(Survivors()) && TablesOk()
      ensures v != NULL ==> v in fl.hd && fl.hd[v] == Hd(wosize, AllocationColor(phase, v - 1, fl.sweepHp))
      ensures v != NULL ==> v !in old(Survivors()) && Survivors() == old(Survivors())[v := wosize]
      ensures v != NULL ==> KeepsUsed(old(fl.hd), fl.hd)
      ensures v != NULL && fl.firstFit && !NoFit(old(fl.Sz()), wosize) ==> Lowest(old(fl.hd), cur, wosize)
      ensures v != NULL ==> fl.KeepsApart(WithBlock(old(fl.hd), bp, n, NoFit(old(fl.Sz()), wosize)), cur, wosize)
      ensures old(Tidy()) && (n == 0 || n + 1 <= fl.maxWosize) ==> Tidy()
      ensures mid == old(fl.Sz()) || exists k :: Inserted(old(fl.Sz()), n, k, mid)
      ensures Few(mid, fl.flpMax) && Few(fl.Sz(), fl.flpMax) ==> TablesOk()
    {
      hide HeapOk;
      hide FragmentAt;
      hide MergeAt;
      hide Boundary;
      hide PassedWhite;
      hide Total;
      hide Maxima;
      hide EntriesAt;
      hide Sizes;
      hide Separated;
      hide Resumes;
      hide LastFits;
      hide Lowest;
      hide Few;
      hide Small;
      hide NoneTouch;
      hide Cramped;
      hide Live;
      TidyApart(fl.hd, fl.next, fl.list, fl.chunks, fl.maxWosize);
      cur := FL_HEAD;
      mid := fl.Sz();
      if wosize > fl.maxWosize { return NULL, cur, mid; }
      ghost var hd0 := fl.hd;
      v, cur := AllocHere(wosize);
      if v == NULL && n != 0 {
        StillSmall(fl.chunks, fl.maxWosize, bp, n);
        Extend(wosize, bp, n);
        mid := fl.Sz();
        TidyApart(fl.hd, fl.next, fl.list, fl.chunks, fl.maxWosize);
        ghost var hd1 := fl.hd;
        v, cur := AllocHere(wosize);
        KeepsTwice(hd0, hd1, fl.hd);
      }
    }

    // sweep_slice
    method SweepSlice(work: int)
      requires Inv() && TablesOk() && phase == Sweep
      modifies fl, `phase, `at
      ensures Inv() && TablesOk() && fl.chunks == old(fl.chunks)
      ensures Survivors() == old(Survivors())
      ensures old(Separated(fl.hd, fl.maxWosize)) ==> Separated(fl.hd, fl.maxWosize)
      ensures old(Tidy()) ==> Tidy()
      ensures phase == Sweep || (phase == Idle && AllPassed(fl.hd, fl.sweepHp) && PassedWhite(fl.hd, fl.sweepHp))
      ensures phase == Sweep && work > 0 ==>
        at > old(at) || (at == old(at) && fl.sweepHp > old(fl.sweepHp))
    {
      hide HeapOk;
      hide FragmentAt;
      hide MergeAt;
      hide Boundary;
      hide PassedWhite;
      hide Total;
      hide Maxima;
      hide EntriesAt;
      hide Sizes;
      hide Separated;
      hide Resumes;
      hide AllPassed;
      hide Live;
      hide Small;
      hide NoneTouch;
      ghost var live0 := Survivors();
      TidyApart(fl.hd, fl.next, fl.list, fl.chunks, fl.maxWosize);
      var left := work;
      while left > 0
        invariant Inv() && TablesOk() && fl.chunks == old(fl.chunks) && heap == old(heap)
        invariant Survivors() == live0
        invariant old(Separated(fl.hd, fl.maxWosize)) ==> Separated(fl.hd, fl.maxWosize)
        invariant phase == Sweep || (phase == Idle && left <= 0)
        invariant phase == Idle ==> AllPassed(fl.hd, fl.sweepHp) && PassedWhite(fl.hd, fl.sweepHp)
        invariant left <= work && at >= old(at) && (at == old(at) ==> fl.sweepHp >= old(fl.sweepHp))
        invariant left < work ==> phase == Idle || at > old(at) || fl.sweepHp > old(fl.sweepHp)
        decreases phase == Sweep, |heap| - at, if phase == Sweep then heap[at].hi - fl.sweepHp else 0
      {
        if fl.sweepHp < heap[at].hi {
          NextBlock(fl.hd, fl.next, fl.list, fl.chunks, heap[at], fl.sweepHp);
          left := left - 1 - fl.hd[fl.sweepHp + 1].size;
          SweepBlock();
        } else {
          NextChunk(fl.hd, fl.next, fl.list, fl.chunks, fl.flMerge, fl.mk, fl.lastFragment, heap, at);
          if at + 1 == |heap| {
            left := 0;
            phase := Idle;
          } else {
            at := at + 1;
            fl.sweepHp := heap[at].lo;
          }
        }
      }
      TidyApart(fl.hd, fl.next, fl.list, fl.chunks, fl.maxWosize);
    }
  }

  // ---- Where the sweeper is ----

  ghost predicate AllPassed(hd: map<int, Hd>, x: int) {
    forall b :: b in hd ==> End(hd, b) <= x
  }

  ghost predicate SameLive(hd: map<int, Hd>, ph: Phase, x: int, hd': map<int, Hd>, ph': Phase, x': int, b: int) {
    (LiveAt(hd', ph', x', b) <==> LiveAt(hd, ph, x, b)) && (LiveAt(hd, ph, x, b) ==> hd'[b].size == hd[b].size)
  }

  lemma LiveSame(hd: map<int, Hd>, ph: Phase, x: int, hd': map<int, Hd>, ph': Phase, x': int)
    requires forall b :: SameLive(hd, ph, x, hd', ph', x', b)
    ensures Live(hd', ph', x') == Live(hd, ph, x)
  {
    var l, l' := Live(hd, ph, x), Live(hd', ph', x');
    forall b ensures (b in l' <==> b in l) && (b in l ==> l'[b] == l[b]) {
      assert SameLive(hd, ph, x, hd', ph', x', b);
    }
  }

  // A chunk holds the words around x.
  lemma SameChunk(hd: map<int, Hd>, chunks: set<Chunk>, c: Chunk, x: int, b: int)
    requires Tiled(hd, chunks) && c in chunks && c.lo <= x < c.hi && b in hd && b - 1 <= x < End(hd, b)
    ensures c.lo <= b - 1 && End(hd, b) <= c.hi
  {
    assert Inside(hd, chunks, b);
    var d :| d in chunks && d.lo <= b - 1 && End(hd, b) <= d.hi;
    assert c == d;
  }

  lemma NextBlock(hd: map<int, Hd>, next: map<int, int>, list: seq<int>, chunks: set<Chunk>, c: Chunk, x: int)
    requires HeapOk(hd, next, list, chunks) && c in chunks && c.lo <= x < c.hi && Boundary(hd, x)
    ensures x + 1 in hd && End(hd, x + 1) <= c.hi
  {
    var y := x + 1;
    assert InChunk(chunks, x, y);
    assert Covered(hd, chunks, x);
    var b :| Holds(hd, b, x);
    assert Side(hd, x, b);
    SameChunk(hd, chunks, c, x, b);
  }

  lemma StartsBelow(hd: map<int, Hd>, next: map<int, int>, list: seq<int>, chunks: set<Chunk>, heap: seq<Chunk>)
    requires HeapOk(hd, next, list, chunks) && Ordered(heap, chunks) && heap != []
    ensures MergeAt(list, FL_HEAD, 0, heap[0].lo) && FragmentAt(hd, NULL, heap[0].lo)
    ensures Boundary(hd, heap[0].lo) && PassedWhite(hd, heap[0].lo) && Live(hd, Sweep, heap[0].lo) == Live(hd, Mark, 0)
  {
    var x := heap[0].lo;
    forall b | b in hd ensures b > x {
      assert Inside(hd, chunks, b);
    }
    forall b ensures Side(hd, x, b) {
    }
    forall i | 0 <= i < |list| ensures list[i] > x {
      assert Listed(hd, list, list[i]);
    }
  }

  // ---- The three cases of sweep_slice ----

  // The last w words of the free block cur became the block v.
  ghost predicate TakenFrom(hd: map<int, Hd>, hd': map<int, Hd>, cur: int, v: int, w: nat) {
    && IsBlue(hd, cur) && 1 <= w <= hd[cur].size && v == cur + hd[cur].size - w
    && hd' == Taken(hd, cur, w + 1, White)
  }

  // The heap with the block that expand_heap made, if it was asked for.
  ghost function WithBlock(hd: map<int, Hd>, bp: int, n: nat, asked: bool): map<int, Hd> {
    if asked then hd[bp := Hd(n, Blue)] else hd
  }

  lemma TidyApart(hd: map<int, Hd>, next: map<int, int>, list: seq<int>, chunks: set<Chunk>, max: nat)
    requires HeapOk(hd, next, list, chunks)
    ensures Small(chunks, max) ==> (Separated(hd, max) <==> NoneTouch(hd))
  {
    if Small(chunks, max) { SmallApart(hd, chunks, max); }
  }

  lemma StillSmall(chunks: set<Chunk>, max: nat, bp: int, n: nat)
    ensures Small(chunks, max) && n + 1 <= max ==> Small(chunks + {Chunk(bp - 1, bp + n)}, max)
  {
  }

  // Taking the block v, and giving it a header, keeps free blocks from touching.
  lemma StaysTidy(hd0: map<int, Hd>, hd1: map<int, Hd>, hd2: map<int, Hd>, chunks: set<Chunk>, max: nat, cur: int,
                  v: int,
                  w: nat)
    requires Tiled(hd0, chunks) && Tiled(hd2, chunks) && TakenFrom(hd0, hd1, cur, v, w)
    requires Separated(hd0, max) ==> (Separated(hd1, max) <==> !Cramped(hd0, max, cur, w))
    requires Separated(hd2, max) <==> Separated(hd1, max)
    ensures Small(chunks, max) && Separated(hd0, max) ==> NoneTouch(hd2)
  {
    hide Tiled;
    hide Separated;
    hide Taken;
    if Small(chunks, max) && Separated(hd0, max) {
      SmallApart(hd0, chunks, max);
      NotCramped(hd0, max, cur, w);
      SmallApart(hd2, chunks, max);
    }
  }

  // No free block below cur is big enough.
  ghost predicate Lowest(hd: map<int, Hd>, cur: int, w: nat) {
    IsBlue(hd, cur) && hd[cur].size >= w && forall b :: IsBlue(hd, b) && hd[b].size >= w ==> cur <= b
  }

  lemma FirstIsLowest(hd: map<int, Hd>, next: map<int, int>, list: seq<int>, chunks: set<Chunk>, w: nat, p: int)
    requires HeapOk(hd, next, list, chunks) && FirstFit(Sizes(hd, list), w, p)
    ensures Lowest(hd, list[p], w)
  {
    assert Listed(hd, list, list[p]);
    forall b | IsBlue(hd, b) && hd[b].size >= w ensures list[p] <= b {
      assert Listed(hd, list, b);
      var i :| 0 <= i < |list| && list[i] == b;
      assert Sizes(hd, list)[i] >= w;
    }
  }

  lemma BigEnough(hd: map<int, Hd>, next: map<int, int>, list: seq<int>, chunks: set<Chunk>, b: int, w: nat)
    requires HeapOk(hd, next, list, chunks) && b in list && b in hd && hd[b].size >= w
    ensures !NoFit(Sizes(hd, list), w)
  {
    var i :| 0 <= i < |list| && list[i] == b;
    assert Sizes(hd, list)[i] >= w;
  }

  lemma NoneBigger(sz: seq<nat>, w: nat, n: nat)
    requires NoFit(sz, w) && w <= n
    ensures NoFit(sz, n)
  {
  }

  lemma TilesThere(hd: map<int, Hd>, next: map<int, int>, list: seq<int>, chunks: set<Chunk>)
    requires HeapOk(hd, next, list, chunks)
    ensures Tiled(hd, chunks)
  {
  }

  // ---- What allocation does to the sweep ----

  // The headers around a block that was taken.
  lemma TakenIs(hd: map<int, Hd>, hd': map<int, Hd>, chunks: set<Chunk>, cur: int, v: int, w: nat)
    requires Tiled(hd, chunks) && TakenFrom(hd, hd', cur, v, w)
    ensures KeepsUsed(hd, hd') && v in hd' && hd'[v] == Hd(w, White) && (v in hd ==> v == cur)
    ensures forall b :: b in hd' && b != v && b != cur ==> b in hd && hd'[b] == hd[b]
    ensures cur != v ==> cur in hd' && End(hd', cur) < v && (hd'[cur].color == Blue || hd'[cur] == Hd(0, White))
  {
    TakenFacts(hd, chunks, cur, w + 1, White);
    if hd[cur].size > w { SplitTiled(hd, chunks, cur, hd[cur].size - w - 1, White, White); }
  }

  lemma KeepsTwice(hd0: map<int, Hd>, hd1: map<int, Hd>, hd2: map<int, Hd>)
    requires KeepsUsed(hd0, hd1) && KeepsUsed(hd1, hd2)
    ensures KeepsUsed(hd0, hd2)
  {
    forall b | b in hd0 && hd0[b].color != Blue ensures b in hd2 && hd2[b] == hd0[b] {
      assert b in hd1 && hd1[b] == hd0[b];
    }
  }

  lemma TakenLive(hd: map<int, Hd>, hd1: map<int, Hd>, chunks: set<Chunk>, x: int, phase: Phase, cur: int, v: int,
                  w: nat)
    requires Tiled(hd, chunks) && TakenFrom(hd, hd1, cur, v, w) && Boundary(hd, x)
    ensures v in hd1 && hd1[v] == Hd(w, White) && v !in Live(hd, phase, x) && v >= 2
    ensures var hd' := hd1[v := Hd(w, AllocationColor(phase, v - 1, x))];
      && KeepsUsed(hd, hd') && Boundary(hd', x) && Live(hd', phase, x) == Live(hd, phase, x)[v := w]
      && (phase == Sweep && PassedWhite(hd, x) ==> PassedWhite(hd', x))
  {
    TakenIs(hd, hd1, chunks, cur, v, w);
    assert Inside(hd, chunks, cur);
    var hd' := hd1[v := Hd(w, AllocationColor(phase, v - 1, x))];
    assert Side(hd, x, cur);
    forall b ensures Side(hd', x, b) {
      assert Side(hd, x, b);
    }
    var l, l' := Live(hd, phase, x)[v := w], Live(hd', phase, x);
    forall b ensures (b in l' <==> b in l) && (b in l ==> l'[b] == l[b]) {
      assert b in hd && b != cur && hd[b].color != Blue ==> b in hd' && hd'[b] == hd[b];
    }
  }

  // ---- Extending the heap ----

  ghost predicate Away(x: int, bp: int, n: nat) {
    bp > x || bp + n <= x
  }

  // The sweeper is not within or at the new block.
  lemma NewAway(heap: seq<Chunk>, chunks: set<Chunk>, bp: int, n: nat, x: int, c: Chunk)
    requires Ordered(heap, chunks) && NewChunk(chunks, bp, n) && 2 <= bp
    requires x == 0 || (c in heap && c.lo <= x <= c.hi)
    ensures Away(x, bp, n) && bp != x
  {
  }

  lemma NewSide(hd: map<int, Hd>, phase: Phase, x: int, bp: int, n: nat)
    requires Boundary(hd, x) && Away(x, bp, n) && bp !in hd
    ensures var hd' := hd[bp := Hd(n, Blue)];
      && Boundary(hd', x) && Live(hd', phase, x) == Live(hd, phase, x) && (PassedWhite(hd, x) ==> PassedWhite(hd', x))
  {
    var hd' := hd[bp := Hd(n, Blue)];
    forall b ensures Side(hd', x, b) {
      assert Side(hd, x, b);
    }
    forall b ensures SameLive(hd, phase, x, hd', phase, x, b) {
    }
    LiveSame(hd, phase, x, hd', phase, x);
  }

  lemma ChunkInserted(heap: seq<Chunk>, chunks: set<Chunk>, bp: int, n: nat, i: nat)
    requires Ordered(heap, chunks) && NewChunk(chunks, bp, n) && i <= |heap|
    requires (forall j :: 0 <= j < i ==> heap[j].lo < bp - 1) && (i < |heap| ==> heap[i].lo >= bp - 1)
    ensures var c := Chunk(bp - 1, bp + n); Ordered(heap[..i] + [c] + heap[i..], chunks + {c})
  {
    hide NewChunk;
    var c := Chunk(bp - 1, bp + n);
    var heap' := heap[..i] + [c] + heap[i..];
    forall d ensures d in heap' <==> d in chunks + {c} {
      assert d in heap <==> d in heap[..i] || d in heap[i..];
    }
    ChunksApart(heap, chunks, bp, n, i);
  }

  lemma ChunksApart(heap: seq<Chunk>, chunks: set<Chunk>, bp: int, n: nat, i: nat)
    requires Ordered(heap, chunks) && NewChunk(chunks, bp, n) && i <= |heap|
    requires (forall j :: 0 <= j < i ==> heap[j].lo < bp - 1) && (i < |heap| ==> heap[i].lo >= bp - 1)
    ensures forall j :: 0 <= j < i ==> heap[j].hi < bp - 1
    ensures forall j :: i <= j < |heap| ==> bp + n < heap[j].lo
  {
    forall j | 0 <= j < i ensures heap[j].hi < bp - 1 {
      assert heap[j] in chunks;
    }
    if i < |heap| { assert heap[i] in chunks; }
  }

  lemma RecolorOk(hd: map<int, Hd>, next: map<int, int>, list: seq<int>, chunks: set<Chunk>, max: nat, b: int,
                  color: Color)
    requires HeapOk(hd, next, list, chunks) && b in hd && hd[b].color != Blue && color != Blue
    ensures var hd' := hd[b := Hd(hd[b].size, color)];
      && HeapOk(hd', next, list, chunks) && Total(hd', list) == Total(hd, list) && Sizes(hd', list) == Sizes(hd, list)
      && (Separated(hd, max) <==> Separated(hd', max))
  {
    hide Total;
    var hd' := hd[b := Hd(hd[b].size, color)];
    RecolorTiled(hd, chunks, b, color);
    ListIn(hd, next, list);
    assert Listed(hd, list, b);
    forall x ensures Listed(hd', list, x) {
      assert Listed(hd, list, x);
    }
    TotalSame(hd, hd', list);
    forall i | 0 <= i < |list| ensures list[i] != b {
      assert list[i] in list;
    }
    if Separated(hd, max) {
      forall x, y ensures NoTouch(hd', max, x, y) {
        assert NoTouch(hd, max, x, y);
      }
    }
    if Separated(hd', max) {
      forall x, y ensures NoTouch(hd, max, x, y) {
        assert NoTouch(hd', max, x, y);
      }
    }
  }

  lemma RecolorTouch(hd: map<int, Hd>, b: int, color: Color)
    requires b in hd && hd[b].color != Blue && color != Blue && NoneTouch(hd)
    ensures NoneTouch(hd[b := Hd(hd[b].size, color)])
  {
    var hd' := hd[b := Hd(hd[b].size, color)];
    forall x, y ensures !Touch(hd', x, y) {
      assert !Touch(hd, x, y);
    }
  }

  lemma RecolorBoundary(hd: map<int, Hd>, x: int, b: int, color: Color)
    requires Boundary(hd, x) && b in hd
    ensures Boundary(hd[b := Hd(hd[b].size, color)], x)
  {
    var hd' := hd[b := Hd(hd[b].size, color)];
    forall e ensures Side(hd', x, e) {
      assert Side(hd, x, e);
    }
  }

  lemma RecolorFragment(hd: map<int, Hd>, f: int, x: int, b: int, color: Color)
    requires FragmentAt(hd, f, x) && b in hd && hd[b].size >= 1
    ensures FragmentAt(hd[b := Hd(hd[b].size, color)], f, x)
  {
  }

  // A block that begins no later than bp is the last before adj.
  lemma EndBoundary(hd: map<int, Hd>, chunks: set<Chunk>, bp: int, adj: int)
    requires Tiled(hd, chunks) && EndsAt(hd, bp, adj)
    ensures Boundary(hd, adj) && forall b :: b in hd && b <= adj ==> b <= bp
  {
    var e :| EndIs(hd, e, adj) && e <= bp;
    forall b ensures Side(hd, adj, b) && (b in hd && b <= adj ==> b <= bp) {
      assert Apart(hd, e, b) && Apart(hd, b, e);
    }
  }

  lemma MergedInside(hd: map<int, Hd>, next: map<int, int>, list: seq<int>, chunks: set<Chunk>,
                     c: Chunk, bp: int, adj: int)
    requires HeapOk(hd, next, list, chunks) && EndsAt(hd, bp, adj) && bp <= adj
    requires c in chunks && c.lo <= bp - 1 < c.hi
    ensures Boundary(hd, adj) && c.lo <= adj <= c.hi
  {
    EndBoundary(hd, chunks, bp, adj);
    var e :| EndIs(hd, e, adj) && e <= bp;
    SameChunk(hd, chunks, c, bp - 1, e);
  }

  lemma MergedLive(hd0: map<int, Hd>, hd: map<int, Hd>, next: map<int, int>, list: seq<int>, chunks: set<Chunk>,
                   bp: int, adj: int)
    requires HeapOk(hd, next, list, chunks) && EndsAt(hd, bp, adj) && bp <= adj && FreesOnly(hd0, hd, bp)
    requires bp in hd0 && hd0[bp].color == White && PassedWhite(hd0, bp - 1)
    ensures Live(hd, Sweep, adj) == Live(hd0, Sweep, bp - 1) && PassedWhite(hd, adj)
  {
    EndBoundary(hd, chunks, bp, adj);
    var x := bp - 1;
    forall b ensures SameLive(hd0, Sweep, x, hd, Sweep, adj, b) {
      assert KeptBut(hd0, hd, bp, b);
    }
    LiveSame(hd0, Sweep, x, hd, Sweep, adj);
    forall b | b in hd && b <= adj ensures hd[b].color == White || hd[b].color == Blue {
      assert KeptBut(hd0, hd, bp, b);
    }
  }

  // A block that is passed and that is not white: where the sweeper is then.
  lemma PassedOver(hd: map<int, Hd>, chunks: set<Chunk>, b: int)
    requires Tiled(hd, chunks) && b in hd
    ensures Boundary(hd, End(hd, b)) && forall e :: e in hd && e <= End(hd, b) ==> e <= b
  {
    forall e ensures Side(hd, End(hd, b), e) && (e in hd && e <= End(hd, b) ==> e <= b) {
      assert Apart(hd, e, b) && Apart(hd, b, e);
    }
  }

  lemma BluePassed(hd: map<int, Hd>, next: map<int, int>, list: seq<int>, chunks: set<Chunk>, flMerge: int, mk: nat,
                   f: int, b: int)
    requires HeapOk(hd, next, list, chunks) && MergeAt(list, flMerge, mk, b - 1) && FragmentAt(hd, f, b - 1)
    requires b in hd && hd[b].color == Blue && PassedWhite(hd, b - 1)
    ensures MergeAt(list, b, mk + 1, End(hd, b)) && FragmentAt(hd, f, End(hd, b)) && Boundary(hd, End(hd, b))
    ensures Live(hd, Sweep, End(hd, b)) == Live(hd, Sweep, b - 1) && PassedWhite(hd, End(hd, b))
  {
    PassedOver(hd, chunks, b);
    assert Listed(hd, list, b);
    var i :| 0 <= i < |list| && list[i] == b;
    assert mk < |list| && list[mk] >= b;
    assert i == mk;
    forall j | mk + 1 <= j < |list| ensures list[j] > End(hd, b) {
      assert Listed(hd, list, list[j]) && Apart(hd, b, list[j]);
    }
    var x, x' := b - 1, End(hd, b);
    forall e ensures SameLive(hd, Sweep, x, hd, Sweep, x', e) {
    }
    LiveSame(hd, Sweep, x, hd, Sweep, x');
  }

  lemma KeptPassed(hd: map<int, Hd>, next: map<int, int>, list: seq<int>, chunks: set<Chunk>, flMerge: int, mk: nat,
                   f: int, b: int)
    requires HeapOk(hd, next, list, chunks) && MergeAt(list, flMerge, mk, b - 1) && FragmentAt(hd, f, b - 1)
    requires b in hd && hd[b].color != Blue && hd[b].color != White && PassedWhite(hd, b - 1)
    ensures var hd', x' := hd[b := Hd(hd[b].size, White)], End(hd, b);
      && MergeAt(list, flMerge, mk, x') && FragmentAt(hd', f, x') && Boundary(hd', x')
      && Live(hd', Sweep, x') == Live(hd, Sweep, b - 1) && PassedWhite(hd', x')
  {
    var hd', x' := hd[b := Hd(hd[b].size, White)], End(hd, b);
    PassedOver(hd, chunks, b);
    RecolorBoundary(hd, x', b, White);
    assert Listed(hd, list, b);
    forall j | mk <= j < |list| ensures list[j] > x' {
      assert list[j] in list && Listed(hd, list, list[j]) && Apart(hd, b, list[j]);
    }
    var x := b - 1;
    forall e ensures SameLive(hd, Sweep, x, hd', Sweep, x', e) {
    }
    LiveSame(hd, Sweep, x, hd', Sweep, x');
  }

  // From the end of one chunk to the beginning of the next, if there is one.
  lemma NextChunk(hd: map<int, Hd>, next: map<int, int>, list: seq<int>, chunks: set<Chunk>, flMerge: int, mk: nat,
                  f: int, heap: seq<Chunk>, at: nat)
    requires HeapOk(hd, next, list, chunks) && Ordered(heap, chunks) && at < |heap|
    requires MergeAt(list, flMerge, mk, heap[at].hi) && FragmentAt(hd, f, heap[at].hi)
    requires PassedWhite(hd, heap[at].hi) && Boundary(hd, heap[at].hi)
    ensures at + 1 == |heap| ==>
      AllPassed(hd, heap[at].hi) && Live(hd, Idle, heap[at].hi) == Live(hd, Sweep, heap[at].hi)
    ensures at + 1 < |heap| ==> var y := heap[at + 1].lo;
      && MergeAt(list, flMerge, mk, y) && FragmentAt(hd, f, y) && Boundary(hd, y)
      && Live(hd, Sweep, y) == Live(hd, Sweep, heap[at].hi) && PassedWhite(hd, y)
  {
    var x := heap[at].hi;
    if at + 1 == |heap| {
      forall b | b in hd ensures End(hd, b) <= x {
        BlockIn(hd, chunks, heap, at, b);
      }
      forall b ensures SameLive(hd, Idle, x, hd, Sweep, x, b) {
      }
      LiveSame(hd, Idle, x, hd, Sweep, x);
    } else {
      var y := heap[at + 1].lo;
      forall b | b in hd ensures End(hd, b) <= x || b > y {
        BlockIn(hd, chunks, heap, at, b);
      }
      forall i | mk <= i < |list| ensures list[i] > y {
        assert Listed(hd, list, list[i]);
      }
      forall b ensures Side(hd, y, b) && SameLive(hd, Sweep, x, hd, Sweep, y, b) {
      }
      LiveSame(hd, Sweep, x, hd, Sweep, y);
    }
  }

  lemma BlockIn(hd: map<int, Hd>, chunks: set<Chunk>, heap: seq<Chunk>, at: nat, b: int)
    requires Tiled(hd, chunks) && Ordered(heap, chunks) && at < |heap| && b in hd
    ensures End(hd, b) <= heap[at].hi || (at + 1 < |heap| && b > heap[at + 1].lo)
  {
    assert Inside(hd, chunks, b);
    var c :| c in chunks && c.lo <= b - 1 && End(hd, b) <= c.hi;
    hide Tiled;
    var i :| 0 <= i < |heap| && heap[i] == c;
    if i < at {
      assert heap[i].hi < heap[at].lo;
    } else if i > at + 1 {
      assert heap[at + 1].hi < heap[i].lo;
    }
  }
}
