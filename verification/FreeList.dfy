// freelist.c: allocating from the free list, and what the sweeper gives back to it.
module FreeList {
  import opened Header
  import opened FreeHeap
  import opened Lists
  import opened FreeTable
  import opened FreeMoves

  // The search of next fit, from the entry after start around to start.
  ghost predicate NextFit(sz: seq<nat>, start: int, want: nat, p: int) {
    && 0 <= p < |sz| && sz[p] >= want
    && (forall j :: 0 <= j < |sz| && start < j && (j < p || p <= start) ==> sz[j] < want)
    && (forall j :: 0 <= j < p && p <= start ==> sz[j] < want)
  }

  ghost predicate NoFit(sz: seq<nat>, want: nat) {
    forall j :: 0 <= j < |sz| ==> sz[j] < want
  }

  // There are fewer than n left-to-right maxima.
  ghost predicate Few(sz: seq<nat>, n: nat) {
    forall ns :: Maxima(sz, ns, |sz|) ==> |ns| < n
  }

  lemma {:induction false} Complete(sz: seq<nat>, ms: seq<int>, lim: nat) returns (ns: seq<int>)
    requires Maxima(sz, ms, lim)
    ensures Maxima(sz, ns, |sz|) && ms <= ns
    decreases |sz| - lim
  {
    if lim == |sz| {
      ns := ms;
    } else if IsMax(sz, lim) {
      ExtendMax(sz, ms, lim);
      ns := Complete(sz, ms + [lim], lim + 1);
    } else {
      ExtendNone(sz, ms, lim);
      ns := Complete(sz, ms, lim + 1);
    }
  }

  lemma FewTable(sz: seq<nat>, ms: seq<int>, lim: nat, n: nat)
    requires Maxima(sz, ms, lim) && Few(sz, n)
    ensures |ms| < n
  {
    var ns := Complete(sz, ms, lim);
  }

  ghost predicate Resumes(list: seq<int>, ms: seq<int>, lim: int, beyond: int) {
    && ms != []
    && if beyond == NULL then lim == ms[|ms| - 1] + 1 else lim >= 1 && beyond == At(list, lim - 1)
  }

  // The sweeper has passed mk entries of the list; the last of them is flMerge.
  ghost predicate MergeAt(list: seq<int>, flMerge: int, mk: nat, hp: int) {
    && mk <= |list| && flMerge == At(list, mk - 1)
    && (forall i :: 0 <= i < mk ==> list[i] <= hp)
    && (forall i :: mk <= i < |list| ==> list[i] > hp)
  }

  lemma MergeWithout(list: seq<int>, flMerge: int, mk: nat, hp: int, p: nat)
    requires Ascending(list) && MergeAt(list, flMerge, mk, hp) && p < |list|
    ensures flMerge == list[p] ==> p == mk - 1
    ensures MergeAt(Without(list, p), if flMerge == list[p] then At(list, p - 1) else flMerge,
                    if p < mk then mk - 1 else mk, hp)
  {
  }

  // The last fragment, if it is where the sweeper is.
  ghost predicate FragmentAt(hd: map<int, Hd>, f: int, hp: int) {
    f != NULL ==> f <= hp && (f == hp ==> f in hd && hd[f] == Hd(0, White))
  }

  class FreeList {
    const maxWosize: nat
    const flpMax: nat
    const firstFit: bool              // the allocation policy; else next fit
    var hd: map<int, Hd>
    var next: map<int, int>
    var flPrev: int
    var flLast: int
    var flMerge: int
    var curSize: int
    var flp: seq<int>                 // the table, up to flp_size
    var beyond: int
    var lastFragment: int
    var sweepHp: int                  // caml_gc_sweep_hp
    ghost var list: seq<int>
    ghost var chunks: set<Chunk>
    ghost var mk: nat                 // how many entries the sweeper has passed
    ghost var ms: seq<int>            // the positions of the maxima in the table
    ghost var lim: int                // and up to where they are known

    // The list is the free blocks of a heap cut into blocks; caml_fl_cur_size is their size;
    // caml_fl_merge is the last of them below the sweep pointer.
    ghost predicate Valid()
      reads this
    {
      && HeapOk(hd, next, list, chunks) && curSize == Total(hd, list)
      && (flPrev == FL_HEAD || (flPrev in list && !firstFit))
      && MergeAt(list, flMerge, mk, sweepHp) && FragmentAt(hd, lastFragment, sweepHp)
    }

    ghost function Sz(): seq<nat>
      reads this
    {
      Sizes(hd, list)
    }

    // The table holds the predecessors of a prefix of the maxima ...
    ghost predicate TableOk()
      reads this
    {
      Maxima(Sz(), ms, lim) && EntriesAt(list, flp, ms) && |flp| <= flpMax
    }

    // ... and the search for more may resume at beyond, or after the last of them.
    ghost predicate BeyondOk()
      reads this
    {
      flp != [] ==> Resumes(list, ms, lim, beyond)
    }

    constructor (maxWosize: nat, flpMax: nat, firstFit: bool)
      ensures Valid() && TableOk() && BeyondOk() && hd == map[] && list == [] && chunks == {}
      ensures this.maxWosize == maxWosize && this.flpMax == flpMax && this.firstFit == firstFit
    {
      hide HeapOk;
      this.maxWosize, this.flpMax, this.firstFit := maxWosize, flpMax, firstFit;
      hd, next := map[], map[FL_HEAD := NULL];
      flPrev, flLast, flMerge, curSize := FL_HEAD, NULL, FL_HEAD, 0;
      flp, beyond, lastFragment, sweepHp := [], NULL, NULL, 0;
      list, chunks, mk, ms, lim := [], {}, 0, [], 0;
      NothingFree();
    }

    // Cases 0 and 1 of allocate_block: cur leaves the list.
    method TakeEntry(whSz: nat, prev: int, cur: int, color: Color, ghost p: nat) returns (hp: int)
      requires Valid() && p < |list| && cur == list[p] && prev == At(list, p - 1)
      requires 2 <= whSz && whSz - 1 <= SizeAt(hd, cur) <= whSz && color != Blue
      modifies `curSize, `next, `flMerge, `hd, `mk, `list, `flPrev
      ensures Valid() && hd == Taken(old(hd), cur, whSz, color) && list == Without(old(list), p)
      ensures hp + 1 == cur + old(SizeAt(hd, cur)) - whSz + 1 && (!firstFit ==> flPrev == prev)
      ensures curSize == old(curSize) - 1 - old(SizeAt(hd, cur))
    {
      hide HeapOk;
      hide Total;
      hide MergeAt;
      hide Taken;
      hide Separated;
      hide CutShort;
      hide Lowered;
      hide Sizes;
      hide FragmentAt;
      hide KeepsUsed;
      hide Without;
      EntryFacts(hd, next, list, chunks, p);
      TakeOk(hd, next, list, chunks, maxWosize, p, whSz, color);
      TakeHeap(hd, next, list, chunks, cur, whSz, color);
      FragmentStays(hd, Taken(hd, cur, whSz, color), lastFragment, sweepHp);
      var size := hd[cur].size;
      curSize := curSize - 1 - size;
      next := next[prev := next[cur]];
      MergeWithout(list, flMerge, mk, sweepHp, p);
      if flMerge == cur { flMerge := prev; }
      // The fragment of case 1; in case 0 the caller's header takes its place.
      hd := hd[cur := Hd(0, White)];
      hp := cur + size - whSz;
      hd := hd[hp + 1 := Hd(whSz - 1, color)];
      if !firstFit { flPrev := prev; }
      mk := if p < mk then mk - 1 else mk;
      PrevStays(list, p);
      list := Without(list, p);
    }

    // Case 2: cur keeps its first words.
    method TakeWords(whSz: nat, prev: int, cur: int, color: Color, ghost p: nat) returns (hp: int)
      requires Valid() && p < |list| && cur == list[p] && prev == At(list, p - 1)
      requires 2 <= whSz < SizeAt(hd, cur) && color != Blue
      modifies `curSize, `hd, `flPrev
      ensures Valid() && hd == Taken(old(hd), cur, whSz, color)
      ensures hp + 1 == cur + old(SizeAt(hd, cur)) - whSz + 1 && (!firstFit ==> flPrev == prev)
      ensures curSize == old(curSize) - whSz
    {
      hide HeapOk;
      hide Total;
      hide MergeAt;
      hide Taken;
      EntryFacts(hd, next, list, chunks, p);
      TakeOk(hd, next, list, chunks, maxWosize, p, whSz, color);
      TakeHeap(hd, next, list, chunks, cur, whSz, color);
      var size := hd[cur].size;
      curSize := curSize - whSz;
      hd := hd[cur := Hd(size - whSz, Blue)];
      hp := cur + size - whSz;
      hd := hd[hp + 1 := Hd(whSz - 1, color)];
      if !firstFit { flPrev := prev; }
    }

    // allocate_block, and the header that the caller gives the new block, at hp + 1.  p is the position
    // of cur.
    method AllocateBlock(whSz: nat, flpi: nat, prev: int, cur: int, color: Color, ghost p: nat) returns (hp: int)
      requires Valid() && p < |list| && cur == list[p] && prev == At(list, p - 1)
      requires 2 <= whSz <= SizeAt(hd, cur) + 1 && color != Blue
      modifies `curSize, `next, `flMerge, `hd, `mk, `list, `flPrev, `flp, `beyond
      ensures Valid() && Allocated(old(hd), old(list), old(curSize), p, whSz, color, hp)
      ensures firstFit ==>
        TableAfter(old(flp), old(beyond), flpi, prev, cur, old(SizeAt(hd, cur)) <= whSz, flp, beyond)
      ensures !firstFit ==> flPrev == prev && flp == old(flp) && beyond == old(beyond)
    {
      hide HeapOk;
      hide Total;
      hide MergeAt;
      hide Taken;
      hide FragmentAt;
      EntryFacts(hd, next, list, chunks, p);
      if hd[cur].size < whSz + 1 {
        hp := TakeEntry(whSz, prev, cur, color, p);
        if firstFit {
          if flpi + 1 < |flp| && flp[flpi + 1] == cur {
            flp := flp[flpi + 1 := prev];
          } else if flpi == |flp| - 1 {
            beyond := if prev == FL_HEAD then NULL else prev;
            flp := flp[..|flp| - 1];
          }
        }
      } else {
        hp := TakeWords(whSz, prev, cur, color, p);
      }
    }

    // The block of whSz words at hp was taken from the end of entry p.
    ghost predicate Allocated(hd0: map<int, Hd>, list0: seq<int>, size0: int, p: nat, whSz: nat, color: Color, hp: int)
      reads this
    {
      && p < |list0| && list0[p] in hd0 && 1 <= whSz <= hd0[list0[p]].size + 1
      && var size := hd0[list0[p]].size;
      && hd == Taken(hd0, list0[p], whSz, color) && list == ListAfter(list0, p, size, whSz)
      && hp + 1 == list0[p] + size - whSz + 1
      && curSize == size0 - (if size <= whSz then 1 + size else whSz)
    }

    // Free blocks are still apart, unless what is left of cur could be merged with the one before it.
    ghost predicate KeepsApart(hd0: map<int, Hd>, cur: int, w: nat)
      reads `hd
    {
      Separated(hd0, maxWosize) ==> (Separated(hd, maxWosize) <==> !Cramped(hd0, maxWosize, cur, w))
    }

    lemma StaysApart(hd0: map<int, Hd>, next0: map<int, int>, list0: seq<int>, size0: int, p: int, w: nat, color: Color,
                     hp: int)
      requires HeapOk(hd0, next0, list0, chunks) && p >= 0 && 1 <= w && color != Blue
      requires Allocated(hd0, list0, size0, p, w + 1, color, hp)
      ensures KeepsApart(hd0, At(list0, p), w)
    {
      if Separated(hd0, maxWosize) { TakeSeparated(hd0, next0, list0, chunks, maxWosize, p, w, color); }
    }

    // From fl_prev to the end of the list: the block found and the one before it, or the last and NULL.
    method SearchToEnd(woSz: nat, ghost start: int) returns (prev: int, cur: int, ghost p: int)
      requires Valid() && -1 <= start < |list| && flPrev == At(list, start)
      ensures start < p <= |list| && prev == At(list, p - 1) && cur == At(list, p)
      ensures NoneIn(Sz(), start, p - 1, woSz)
      ensures if p < |list| then cur != NULL && SizeAt(hd, cur) == Sz()[p] >= woSz else cur == NULL
    {
      hide HeapOk;
      hide NoneIn;
      p := start + 1;
      NoneYet(Sz(), woSz);
      ListFacts(hd, next, list, chunks, start);
      prev := flPrev;
      cur := next[prev];
      while cur != NULL
        invariant start < p <= |list| && prev == At(list, p - 1) && cur == At(list, p)
        invariant NoneIn(Sz(), start, p - 1, woSz) && (p == |list| <==> cur == NULL)
        decreases |list| - p
      {
        ListFacts(hd, next, list, chunks, p);
        if hd[cur].size >= woSz { return; }
        NoneMore(Sz(), start, p - 1, woSz);
        p := p + 1;
        prev := cur;
        cur := next[prev];
      }
    }

    // From the start of the list to fl_prev.
    method SearchToPrev(woSz: nat, ghost start: int) returns (prev: int, cur: int, ghost p: int)
      requires Valid() && -1 <= start < |list| && flPrev == At(list, start)
      ensures 0 <= p <= start + 1 && prev == At(list, p - 1) && NoneIn(Sz(), -1, p - 1, woSz)
      ensures if p <= start then cur == At(list, p) != NULL && SizeAt(hd, cur) == Sz()[p] >= woSz else cur == NULL
    {
      hide HeapOk;
      hide NoneIn;
      p := 0;
      NoneYet(Sz(), woSz);
      ListFacts(hd, next, list, chunks, -1);
      prev := FL_HEAD;
      cur := next[prev];
      AtApart(hd, next, list, chunks, -1, start);
      while prev != flPrev
        invariant 0 <= p <= start + 1 && prev == At(list, p - 1) && cur == At(list, p)
        invariant NoneIn(Sz(), -1, p - 1, woSz) && (prev == flPrev <==> p == start + 1)
        decreases start - p
      {
        ListFacts(hd, next, list, chunks, p);
        if hd[cur].size >= woSz { return; }
        NoneMore(Sz(), -1, p - 1, woSz);
        p := p + 1;
        prev := cur;
        cur := next[prev];
        AtApart(hd, next, list, chunks, p - 1, start);
      }
      cur := NULL;
    }

    // The block that next fit found.
    method TakeFound(woSz: nat, prev: int, cur: int, color: Color, ghost p: nat) returns (hp: int)
      requires Valid() && !firstFit && 1 <= woSz && color != Blue
      requires p < |list| && cur == list[p] && prev == At(list, p - 1) && SizeAt(hd, cur) >= woSz
      modifies `curSize, `next, `flMerge, `hd, `mk, `list, `flPrev, `flp, `beyond
      ensures Valid() && Allocated(old(hd), old(list), old(curSize), p, woSz + 1, color, hp) && hp > 0 && flPrev == prev
    {
      hide HeapOk;
      hide MergeAt;
      hide FragmentAt;
      hide Taken;
      hide Total;
      ListFacts(hd, next, list, chunks, p);
      hp := AllocateBlock(woSz + 1, 0, prev, cur, color, p);
    }

    // caml_fl_allocate, next fit.  start is where fl_prev is.
    method AllocateNextFit(woSz: nat, color: Color) returns (hp: int, ghost start: int, ghost p: int)
      requires Valid() && !firstFit && 1 <= woSz && color != Blue
      modifies `curSize, `next, `flMerge, `hd, `mk, `list, `flPrev, `flp, `beyond, `flLast
      ensures Valid() && -1 <= start < |old(list)| && old(flPrev) == At(old(list), start)
      ensures hp == NULL ==> NoFit(old(Sz()), woSz) && hd == old(hd) && list == old(list) && curSize == old(curSize)
      ensures hp == NULL ==> flLast == At(list, |list| - 1)
      ensures hp == NULL ==> flPrev == old(flPrev)
      ensures hp != NULL ==> NextFit(old(Sz()), start, woSz, p) && hp > 0 && flPrev == At(old(list), p - 1)
      ensures hp != NULL ==> Allocated(old(hd), old(list), old(curSize), p, woSz + 1, color, hp)
      ensures hp != NULL ==> KeepsApart(old(hd), At(old(list), p), woSz)
      ensures chunks == old(chunks) && sweepHp == old(sweepHp) && lastFragment == old(lastFragment)
    {
      hide HeapOk;
      hide MergeAt;
      hide FragmentAt;
      hide KeepsApart;
      hide NoneIn;
      hide NextFit;
      hide Sizes;
      hide NoFit;
      hide Taken;
      hide Total;
      ghost var hd0, next0, list0, size0 := hd, next, list, curSize;
      start := PlaceOf(list, flPrev);
      var prev, cur;
      prev, cur, p := SearchToEnd(woSz, start);
      if cur != NULL {
        FitsAfter(Sz(), start, p, woSz);
        hp := TakeFound(woSz, prev, cur, color, p);
        StaysApart(hd0, next0, list0, size0, p, woSz, color, hp);
        return;
      }
      flLast := prev;
      prev, cur, p := SearchToPrev(woSz, start);
      if cur != NULL {
        FitsBefore(Sz(), start, p, woSz);
        hp := TakeFound(woSz, prev, cur, color, p);
        StaysApart(hd0, next0, list0, size0, p, woSz, color, hp);
        return;
      }
      NoneAtAll(Sz(), start, woSz);
      hp := NULL;
    }

    // The entries for the maxima between flp[i] and flp[i + 1], when the block after flp[i] was removed
    // or reduced.  m is its position, e that of the next maximum.
    method Rebuild(i: nat, top: nat, oldsz: nat, ghost m: nat, ghost e: nat) returns (buf: seq<int>, ghost bs: seq<int>)
      requires Valid() && i + 1 < |flp| && m <= e < |list| && flp[i] == At(list, m - 1) && flp[i + 1] == At(list, e - 1)
      requires top <= oldsz && forall j :: m <= j < e ==> Sz()[j] <= oldsz
      ensures Risers(Sz(), m, e, top, bs) && EntriesAt(list, buf, bs)
    {
      hide Sizes;
      hide MergeAt;
      hide FragmentAt;
      hide EntriesAt;
      hide HeapOk;
      hide Risers;
      hide Crest;
      buf, bs := [], [];
      EntriesNone(list);
      var prev, prevsz: nat := flp[i], top;
      ghost var q := m;
      NoRisers(Sz(), m, top);
      AtApart(hd, next, list, chunks, m - 1, e - 1);
      while prev != flp[i + 1]
        invariant m <= q <= e && prev == At(list, q - 1) && (prev == flp[i + 1] <==> q == e)
        invariant Risers(Sz(), m, q, top, bs) && Crest(Sz(), m, q, top, prevsz) && EntriesAt(list, buf, bs)
        decreases e - q
      {
        ListFacts(hd, next, list, chunks, q - 1);
        ListFacts(hd, next, list, chunks, q);
        var cur := next[prev];
        var sz := hd[cur].size;
        RisersMore(Sz(), m, q, top, bs, prevsz);
        if sz > prevsz {
          EntriesSnoc(list, buf, bs, q);
          buf, bs := buf + [prev], bs + [q];
          prevsz := sz;
          if sz >= oldsz {
            RisersEnd(Sz(), m, q + 1, e, top, bs, prevsz);
            return;
          }
        }
        q := q + 1;
        prev := cur;
        AtApart(hd, next, list, chunks, q - 1, e - 1);
      }
    }

    // The block of the last entry was reduced.
    method UpdateLast(i: nat, prevsz: nat, ghost sz0: seq<nat>)
      requires Valid() && i == |flp| - 1 == |ms| - 1 && HalfOk(list, sz0, Sz(), ms, lim, flp, beyond, i, 0)
      requires prevsz == (if i == 0 then 0 else sz0[ms[i - 1]]) && |flp| <= flpMax
      modifies `flp, `beyond, `ms, `lim
      ensures TableOk() && BeyondOk()
    {
      hide Sizes;
      hide MergeAt;
      hide FragmentAt;
      hide HeapOk;
      hide Lowered;
      hide Maxima;
      hide HalfOk;
      hide Resumes;
      hide EntriesAt;
      HeapList(hd, next, list, chunks);
      HalfLast(list, sz0, Sz(), ms, lim, flp, beyond, i, prevsz);
      ghost var m: nat := ms[i];
      ListFacts(hd, next, list, chunks, m - 1);
      ListFacts(hd, next, list, chunks, m);
      var cur := next[flp[i]];
      if hd[cur].size <= prevsz {
        beyond := cur;
        flp := flp[..i];
        ms := ms[..i];
      } else {
        beyond := NULL;
      }
      lim := m + 1;
    }

    // The block of another entry was removed or reduced.
    method UpdateMid(i: nat, prevsz: nat, oldsz: nat, ghost sz0: seq<nat>, ghost d: nat)
      requires Valid() && flpMax >= 1 && i + 1 < |ms| && HalfOk(list, sz0, Sz(), ms, lim, flp, beyond, i, d)
      requires oldsz == sz0[ms[i]] && prevsz == (if i == 0 then 0 else sz0[ms[i - 1]])
      modifies `flp, `beyond, `ms, `lim
      ensures Few(Sz(), flpMax) ==> TableOk() && BeyondOk()
    {
      hide HeapOk;
      hide Few;
      hide Risers;
      hide Lowered;
      hide EntriesAt;
      hide HalfOk;
      hide Maxima;
      hide Resumes;
      hide Shifted;
      hide Sizes;
      hide MergeAt;
      hide FragmentAt;
      HeapList(hd, next, list, chunks);
      HalfFacts(list, sz0, Sz(), ms, lim, flp, beyond, i, d);
      ghost var m: nat := ms[i];
      ghost var e: nat := ms[i + 1] - d;
      TopBelow(sz0, ms, lim, i + 1, sz0[m]);
      BetweenSmall(sz0, Sz(), m, ms[i + 1], d);
      var buf;
      ghost var bs;
      buf, bs := Rebuild(i, prevsz, oldsz, m, e);
      ghost var ns := ms[..i] + bs + Shifted(ms[i + 1..], d);
      var all := flp[..i] + buf + flp[i + 1..];
      MidTable(list, sz0, Sz(), ms, lim, flp, beyond, i, d, buf, bs, prevsz);
      ms := ns;
      lim := lim - d;
      StoreTable(all);
    }

    // The new table, or as much of it as there is room for: then a maximum is lost.
    method StoreTable(all: seq<int>)
      requires Valid() && flpMax >= 1 && Maxima(Sz(), ms, lim) && EntriesAt(list, all, ms)
      requires all != [] && Resumes(list, ms, lim, beyond)
      modifies `flp, `beyond
      ensures Few(Sz(), flpMax) ==> TableOk() && BeyondOk()
    {
      hide HeapOk;
      hide Few;
      hide Resumes;
      if flpMax >= |all| {
        flp := all;
      } else {
        TooMany(Sz(), ms, lim, flpMax);
        ListFacts(hd, next, list, chunks, ms[flpMax - 1] - 1);
        flp := all[..flpMax - 1];
        beyond := next[all[flpMax - 1]];
      }
    }

    // The end of caml_fl_allocate, after the block of entry i, of size oldsz, was removed (d == 1) or
    // reduced (d == 0).  sz0 are the sizes before.
    method UpdateTable(i: nat, oldsz: nat, ghost sz0: seq<nat>, ghost d: nat)
      requires Valid() && flpMax >= 1 && i < |ms| && HalfOk(list, sz0, Sz(), ms, lim, flp, beyond, i, d)
      requires oldsz == sz0[ms[i]] && |flp| <= flpMax
      modifies `flp, `beyond, `ms, `lim
      ensures Few(Sz(), flpMax) ==> TableOk() && BeyondOk()
    {
      hide HeapOk;
      hide Few;
      hide HalfOk;
      hide Maxima;
      hide EntriesAt;
      hide Resumes;
      HalfSizes(list, sz0, Sz(), ms, lim, flp, beyond, i, d);
      if i < |flp| {
        var prevsz: nat := 0;
        if i > 0 {
          ListFacts(hd, next, list, chunks, ms[i - 1] - 1);
          ListFacts(hd, next, list, chunks, ms[i - 1]);
          prevsz := hd[next[flp[i - 1]]].size;
        }
        if i == |flp| - 1 {
          UpdateLast(i, prevsz, sz0);
        } else {
          UpdateMid(i, prevsz, oldsz, sz0, d);
        }
      } else {
        HeapList(hd, next, list, chunks);
        HalfGone(list, sz0, Sz(), ms, lim, flp, beyond, i, d);
        lim := ms[i];
        ms := ms[..i];
      }
    }

    // The table was just extended with a block for a request of woSz words: only it is big enough.
    ghost predicate Extended(woSz: nat)
      reads this
    {
      LastFits(Sz(), ms, woSz)
    }

    // allocate_block for entry i of the table, at position p, and the update.
    method AllocateEntry(i: nat, woSz: nat, color: Color, ghost p: nat) returns (hp: int)
      requires Valid() && firstFit && flpMax >= 1 && 1 <= woSz && color != Blue
      requires TableOk() && i < |flp| && p == ms[i] && Sz()[p] >= woSz
      requires BeyondOk() || i == |flp| - 1
      modifies this
      ensures Valid() && Allocated(old(hd), old(list), old(curSize), p, woSz + 1, color, hp) && hp > 0
      ensures Few(Sz(), flpMax) ==> TableOk() && BeyondOk()
      ensures chunks == old(chunks) && sweepHp == old(sweepHp) && lastFragment == old(lastFragment)
    {
      hide Sizes;
      hide EntriesAt;
      hide Resumes;
      hide NextAfter;
      hide Separated;
      hide Total;
      hide HeapOk;
      hide MergeAt;
      hide FragmentAt;
      hide Few;
      hide HalfOk;
      hide Maxima;
      hide Lowered;
      hide Taken;
      hide TableAfter;
      EntryPlace(hd, next, list, chunks, ms, lim, flp, i);
      HeapList(hd, next, list, chunks);
      EntriesMean(list, flp, ms);
      ghost var sz0, list0, flp0, beyond0 := Sz(), list, flp, beyond;
      var prev, cur := flp[i], next[flp[i]];
      var oldsz := hd[cur].size;
      ghost var d: nat := if oldsz <= woSz + 1 then 1 else 0;
      TakeOk(hd, next, list, chunks, maxWosize, p, woSz + 1, color);
      hp := AllocateBlock(woSz + 1, i, prev, cur, color, p);
      HalfMade(list0, list, sz0, Sz(), ms, lim, flp0, flp, beyond0, beyond, i, d);
      UpdateTable(i, oldsz, sz0, d);
    }

    // caml_fl_allocate, first fit: the first loop.
    method SearchTable(woSz: nat) returns (i: nat)
      requires Valid() && TableOk()
      ensures i <= |flp| == |ms| && (forall k :: 0 <= k < |ms| ==> 0 <= ms[k] < |list|)
      ensures forall k :: 0 <= k < i ==> Sz()[ms[k]] < woSz
      ensures i < |flp| ==> Sz()[ms[i]] >= woSz
    {
      hide HeapOk;
      MaximaBounds(Sz(), ms, lim);
      i := 0;
      while i < |flp|
        invariant i <= |flp| && forall k :: 0 <= k < i ==> Sz()[ms[k]] < woSz
      {
        EntryPlace(hd, next, list, chunks, ms, lim, flp, i);
        if hd[next[flp[i]]].size >= woSz { return; }
        i := i + 1;
      }
    }

    // Where the search for more maxima resumes, and the size of the last.
    method ResumePoint() returns (prev: int, prevsz: nat)
      requires Valid() && TableOk() && BeyondOk()
      ensures 0 <= lim <= |list| && prev == At(list, lim - 1) && prevsz == MaxBelow(Sz(), lim)
    {
      hide HeapOk;
      HeapList(hd, next, list, chunks);
      LastIsGreatest(Sz(), ms, lim);
      if |flp| == 0 {
        EmptyTable(Sz(), ms, lim);
        prev, prevsz := FL_HEAD, 0;
      } else {
        EntryPlace(hd, next, list, chunks, ms, lim, flp, |flp| - 1);
        prev := next[flp[|flp| - 1]];
        prevsz := hd[prev].size;
        if beyond != NULL { prev := beyond; }
      }
    }

    // caml_fl_allocate, first fit: extending the table.  cur is NULL at the end of the list; with full the
    // table has no room; else cur is big enough, and the last entry leads to it.
    method ExtendTable(woSz: nat) returns (prev: int, cur: int, full: bool)
      requires Valid() && TableOk() && BeyondOk() && NoneIn(Sz(), -1, lim - 1, woSz) && 1 <= woSz
      modifies `flp, `ms, `lim
      ensures TableOk() && 0 <= lim <= |list| && prev == At(list, lim - 1)
      ensures full ==> NoneIn(Sz(), -1, lim - 1, woSz) && |flp| == flpMax && (cur == NULL || (lim > 0 && cur == prev))
      ensures !full && cur == NULL ==> lim == |list| && NoneIn(Sz(), -1, lim - 1, woSz)
      ensures !full && cur != NULL ==>
        && lim > 0 && ms != [] && ms[|ms| - 1] == lim - 1 && cur == prev && Sz()[lim - 1] >= woSz
        && NoneIn(Sz(), -1, lim - 2, woSz)
    {
      hide HeapOk;
      hide NoneIn;
      hide Maxima;
      hide EntriesAt;
      hide MaxBelow;
      hide MergeAt;
      hide FragmentAt;
      hide Sizes;
      var prevsz;
      prev, prevsz := ResumePoint();
      cur := NULL;
      full := false;
      while |flp| < flpMax
        invariant TableOk() && 0 <= lim <= |list| && prev == At(list, lim - 1) && prevsz == MaxBelow(Sz(), lim)
        invariant NoneIn(Sz(), -1, lim - 1, woSz) && (cur == NULL || (lim > 0 && cur == prev)) && !full
        decreases |list| - lim
      {
        ListFacts(hd, next, list, chunks, lim - 1);
        cur := next[prev];
        if cur == NULL { return; }
        ListFacts(hd, next, list, chunks, lim);
        var sz := hd[cur].size;
        NextMax(Sz(), ms, lim, list, flp);
        if sz > prevsz {
          flp := flp + [prev];
          ms := ms + [lim];
          lim := lim + 1;
          if sz >= woSz {
            prev := cur;
            return;
          }
          prevsz := sz;
        } else {
          lim := lim + 1;
        }
        SmallStep(Sz(), lim - 1, woSz);
        prev := cur;
      }
      full := true;
    }

    // The search without the table.
    method SlowSearch(woSz: nat, from: int, low: nat, ghost start: int) returns (prev: int, cur: int, ghost p: int)
      requires low <= woSz && Valid() && -1 <= start < |list| && from == At(list, start)
      modifies `beyond, `flLast
      ensures start < p <= |list| && prev == At(list, p - 1) && cur == At(list, p)
      ensures NoneIn(Sz(), start, p - 1, woSz)
      ensures if p < |list| then cur != NULL && SizeAt(hd, cur) == Sz()[p] >= woSz else cur == NULL && flLast == prev
    {
      hide HeapOk;
      hide NoneIn;
      p := start + 1;
      NoneYet(Sz(), woSz);
      ListFacts(hd, next, list, chunks, start);
      prev := from;
      cur := next[prev];
      while cur != NULL
        invariant start < p <= |list| && prev == At(list, p - 1) && cur == At(list, p)
        invariant NoneIn(Sz(), start, p - 1, woSz) && (p == |list| <==> cur == NULL)
        decreases |list| - p
      {
        ListFacts(hd, next, list, chunks, p);
        var sz := hd[cur].size;
        if sz < low {
          beyond := cur;
        } else if sz >= woSz {
          return;
        }
        NoneMore(Sz(), start, p - 1, woSz);
        p := p + 1;
        prev := cur;
        cur := next[prev];
      }
      flLast := prev;
    }

    // Where the search without the table begins: at beyond, or at the last entry.
    method SlowStart(woSz: nat, cur0: int) returns (from: int, low: nat, ghost start: int)
      requires Valid() && flpMax >= 1 && TableOk() && |flp| == flpMax && NoneIn(Sz(), -1, lim - 1, woSz)
      requires cur0 == NULL || (lim > 0 && cur0 == At(list, lim - 1))
      modifies `beyond
      ensures low <= woSz && -1 <= start < |list| && from == At(list, start) && NoneIn(Sz(), -1, start, woSz)
    {
      hide Sizes;
      hide EntriesAt;
      hide Maxima;
      hide HeapOk;
      hide MergeAt;
      hide FragmentAt;
      hide NoneIn;
      EntriesMean(list, flp, ms);
      MaximaBounds(Sz(), ms, lim);
      EntryPlace(hd, next, list, chunks, ms, lim, flp, flpMax - 1);
      NoneLess(Sz(), -1, lim - 1, ms[flpMax - 1], woSz);
      beyond := cur0;
      start := lim - 1;
      from := beyond;
      if beyond == NULL {
        from := flp[|flp| - 1];
        start := ms[flpMax - 1] - 1;
      }
      NoneLess(Sz(), -1, lim - 1, start, woSz);
      low := hd[next[flp[flpMax - 1]]].size;
      NoneAt(Sz(), ms[flpMax - 1], woSz);
    }

    // The table is full: the search goes on without it, from beyond or from the last entry.
    method AllocateSlowly(woSz: nat, color: Color, cur0: int) returns (hp: int, ghost p: int)
      requires Valid() && firstFit && flpMax >= 1 && 1 <= woSz && color != Blue
      requires TableOk() && |flp| == flpMax && NoneIn(Sz(), -1, lim - 1, woSz)
      requires cur0 == NULL || (lim > 0 && cur0 == At(list, lim - 1))
      modifies this
      ensures Valid() && chunks == old(chunks) && sweepHp == old(sweepHp) && lastFragment == old(lastFragment)
      ensures hp == NULL ==> NoFit(old(Sz()), woSz) && hd == old(hd) && list == old(list) && curSize == old(curSize)
      ensures hp == NULL ==> flLast == At(list, |list| - 1)
      ensures hp != NULL ==> FirstFit(old(Sz()), woSz, p) && hp > 0
      ensures hp != NULL ==> Allocated(old(hd), old(list), old(curSize), p, woSz + 1, color, hp)
      ensures !Few(old(Sz()), flpMax)
    {
      hide Sizes;
      hide EntriesAt;
      hide Resumes;
      hide Maxima;
      hide HeapOk;
      hide MergeAt;
      hide FragmentAt;
      hide Few;
      hide NoneIn;
      hide FirstFit;
      hide NoFit;
      hide Taken;
      EntriesMean(list, flp, ms);
      MaximaBounds(Sz(), ms, lim);
      TooMany(Sz(), ms, lim, flpMax);
      var from, low;
      ghost var start;
      from, low, start := SlowStart(woSz, cur0);
      var prev, cur;
      prev, cur, p := SlowSearch(woSz, from, low, start);
      NoneJoin(Sz(), start, p - 1, woSz);
      if cur != NULL {
        FitsFirst(Sz(), p, woSz);
        ListFacts(hd, next, list, chunks, p);
        hp := AllocateBlock(woSz + 1, |flp|, prev, cur, color, p);
        return;
      }
      NothingFits(Sz(), woSz);
      hp := NULL;
    }

    // The table has no entry that is big enough: more maxima are looked for.
    method AllocateBeyond(woSz: nat, color: Color) returns (hp: int, ghost p: int)
      requires Valid() && firstFit && flpMax >= 1 && 1 <= woSz && color != Blue
      requires TableOk() && BeyondOk() && NoneIn(Sz(), -1, lim - 1, woSz)
      modifies this
      ensures Valid() && chunks == old(chunks) && sweepHp == old(sweepHp) && lastFragment == old(lastFragment)
      ensures hp == NULL ==> NoFit(old(Sz()), woSz) && hd == old(hd) && list == old(list) && curSize == old(curSize)
      ensures hp == NULL ==> flLast == At(list, |list| - 1)
      ensures hp == NULL && Few(old(Sz()), flpMax) ==> lim == |list| && |flp| < flpMax
      ensures hp != NULL ==> FirstFit(old(Sz()), woSz, p) && hp > 0
      ensures hp != NULL ==> Allocated(old(hd), old(list), old(curSize), p, woSz + 1, color, hp)
      ensures Few(old(Sz()), flpMax) && Few(Sz(), flpMax) ==> TableOk() && BeyondOk()
    {
      hide HeapOk;
      hide MergeAt;
      hide FragmentAt;
      hide Few;
      hide Maxima;
      hide NoneIn;
      hide FirstFit;
      hide NoFit;
      hide EntriesAt;
      hide Taken;
      hide Sizes;
      hide Resumes;
      HeapList(hd, next, list, chunks);
      p := -1;
      var prev, cur, full := ExtendTable(woSz);
      EntriesMean(list, flp, ms);
      if full {
        hp, p := AllocateSlowly(woSz, color, cur);
      } else if cur == NULL {
        NoneBeyond(woSz, prev);
        hp := NULL;
      } else {
        beyond := cur;
        p := ms[|ms| - 1];
        FitsFirst(Sz(), p, woSz);
        hp := AllocateEntry(|flp| - 1, woSz, color, p);
      }
    }

    // The search came to the end of the list.
    method NoneBeyond(woSz: nat, prev: int)
      requires Valid() && TableOk() && lim == |list| && prev == At(list, lim - 1) && NoneIn(Sz(), -1, lim - 1, woSz)
      modifies `flLast, `beyond
      ensures Valid() && TableOk() && BeyondOk() && flLast == At(list, |list| - 1) && NoFit(Sz(), woSz)
      ensures Few(Sz(), flpMax) ==> |flp| < flpMax
    {
      hide HeapOk;
      hide MergeAt;
      hide FragmentAt;
      hide Few;
      hide Maxima;
      hide NoneIn;
      hide NoFit;
      hide Sizes;
      hide Resumes;
      HeapList(hd, next, list, chunks);
      EntriesMean(list, flp, ms);
      flLast := prev;
      beyond := if prev == FL_HEAD then NULL else prev;
      ResumesAt(Sz(), list, ms, lim);
      if Few(Sz(), flpMax) { FewTable(Sz(), ms, lim, flpMax); }
      NothingFits(Sz(), woSz);
    }

    // caml_fl_allocate, first fit: the block taken is the first that is big enough, and there is none if
    // and only if the result is NULL.
    method AllocateFirstFit(woSz: nat, color: Color) returns (hp: int, ghost p: int)
      requires Valid() && firstFit && flpMax >= 1 && 1 <= woSz && color != Blue
      requires TableOk() && (BeyondOk() || Extended(woSz))
      modifies this
      ensures Valid() && chunks == old(chunks) && sweepHp == old(sweepHp) && lastFragment == old(lastFragment)
      ensures hp == NULL ==> NoFit(old(Sz()), woSz) && hd == old(hd) && list == old(list) && curSize == old(curSize)
      ensures hp == NULL ==> flLast == At(list, |list| - 1)
      ensures hp == NULL && Few(old(Sz()), flpMax) ==> lim == |list| && |flp| < flpMax
      ensures hp != NULL ==> FirstFit(old(Sz()), woSz, p) && hp > 0
      ensures hp != NULL ==> Allocated(old(hd), old(list), old(curSize), p, woSz + 1, color, hp)
      ensures hp != NULL ==> KeepsApart(old(hd), At(old(list), p), woSz)
      ensures Few(old(Sz()), flpMax) && Few(Sz(), flpMax) ==> TableOk() && BeyondOk()
    {
      hide HeapOk;
      hide MergeAt;
      hide FragmentAt;
      hide KeepsApart;
      hide Few;
      hide Maxima;
      hide NoneIn;
      hide FirstFit;
      hide NoFit;
      hide EntriesAt;
      hide Taken;
      hide Sizes;
      hide Resumes;
      hide Total;
      ghost var hd0, next0, list0, size0 := hd, next, list, curSize;
      var i := SearchTable(woSz);
      if i < |flp| {
        TableFinds(Sz(), ms, lim, woSz, i);
        p := ms[i];
        hp := AllocateEntry(i, woSz, color, p);
      } else {
        SearchedAll(Sz(), ms, lim, woSz);
        hp, p := AllocateBeyond(woSz, color);
      }
      if hp != NULL {
        FitAt(old(Sz()), woSz, p);
        StaysApart(hd0, next0, list0, size0, p, woSz, color, hp);
      }
    }

    // caml_fl_init_merge.
    method InitMerge()
      requires Valid()
      modifies `lastFragment, `flMerge, `mk, `sweepHp
      ensures Valid() && sweepHp == 0 && flMerge == FL_HEAD && mk == 0 && lastFragment == NULL
    {
      hide HeapOk;
      HeapList(hd, next, list, chunks);
      lastFragment, flMerge, mk, sweepHp := NULL, FL_HEAD, 0, 0;
    }

    // caml_fl_reset.  The free space of the heap, which is cut as hd0 says, is still to be merged.
    method Reset(hd0: map<int, Hd>, ghost chunks0: set<Chunk>)
      requires Tiled(hd0, chunks0) && forall b :: !IsBlue(hd0, b)
      modifies this
      ensures Valid() && hd == hd0 && chunks == chunks0 && list == [] && mk == 0 && sweepHp == 0
      ensures (firstFit ==> TableOk() && BeyondOk()) && Separated(hd, maxWosize)
    {
      hide HeapOk;
      hide Tiled;
      hide Total;
      hide MergeAt;
      hide Separated;
      hide Maxima;
      hide EntriesAt;
      hide Sizes;
      hide Resumes;
      hide FragmentAt;
      hide IsBlue;
      NothingListed(hd0, map[FL_HEAD := NULL], chunks0, maxWosize);
      hd, chunks, list := hd0, chunks0, [];
      next := map[FL_HEAD := NULL];
      if firstFit { flp, beyond, ms, lim := [], NULL, [], 0; }
      flPrev := FL_HEAD;
      curSize := 0;
      lastFragment, flMerge, mk, sweepHp := NULL, FL_HEAD, 0, 0;
    }

    // truncate_flp, for a change at an address that the first q entries of list0 are below: only what the
    // table says of these is kept.  next may lead to the changed block already.
    method Truncate(changed: int, ghost q: nat, ghost list0: seq<int>, ghost sz0: seq<nat>)
      requires Maxima(sz0, ms, lim) && EntriesAt(list0, flp, ms) && (flp != [] ==> Resumes(list0, ms, lim, beyond))
      requires Ascending(list0) && |sz0| == |list0| && Threshold(list0, changed, q)
      requires forall k :: 0 <= k < |flp| ==> flp[k] in next && (next[flp[k]] >= changed <==> ms[k] >= q)
      modifies `flp, `beyond, `ms, `lim
      ensures Maxima(sz0, ms, lim) && EntriesAt(list0, flp, ms) && (flp != [] ==> Resumes(list0, ms, lim, beyond))
      ensures 0 <= lim <= q && |flp| <= |old(flp)|
    {
      hide Maxima;
      hide EntriesAt;
      hide Resumes;
      hide KnownTo;
      MaximaBounds(sz0, ms, lim);
      EntriesMean(list0, flp, ms);
      ghost var flp0, beyond0 := flp, beyond;
      if changed == FL_HEAD {
        KeepFirst(sz0, list0, flp, ms, lim, 0, 0);
        flp, beyond := [], NULL;
        ms, lim := [], 0;
      } else {
        while flp != [] && next[flp[|flp| - 1]] >= changed
          invariant flp <= flp0 && ms == old(ms) && lim == old(lim) && beyond == old(beyond)
          invariant forall k :: |flp| <= k < |ms| ==> ms[k] >= q
          decreases |flp|
        {
          flp := flp[..|flp| - 1];
        }
        if flp != [] { assert ms[|flp| - 1] < q; }
        if beyond >= changed { beyond := NULL; }
        KeptTable(sz0, list0, flp0, flp, ms, lim, beyond0, beyond, changed, q);
        lim := KnownTo(ms, lim, |flp|, beyond);
        ms := ms[..|flp|];
      }
    }

    // ---- caml_fl_merge_block ----

    // In the middle of caml_fl_merge_block: bp is not free yet, but counted.
    ghost predicate Mid(bp: int)
      reads this
    {
      && HeapOk(hd, next, list, chunks) && bp in hd && hd[bp].color == White
      && curSize == Total(hd, list) + 1 + hd[bp].size
      && (flPrev == FL_HEAD || (flPrev in list && !firstFit))
      && MergeAt(list, flMerge, mk, bp - 1)
    }

    // Merging with the fragment before, if there is one.
    method MergeFragment(bp0: int) returns (bp: int)
      requires Mid(bp0) && FragmentAt(hd, lastFragment, bp0 - 1)
      modifies `hd, `curSize
      ensures Mid(bp) && End(hd, bp) == old(End(hd, bp0)) && bp <= bp0
      ensures bp == bp0 || (bp in old(hd) && old(hd)[bp] == Hd(0, White) && bp0 !in hd)
      ensures bp == (if lastFragment == bp0 - 1 && old(hd)[bp0].size + 1 <= maxWosize then lastFragment else bp0)
      ensures hd.Keys <= old(hd.Keys)
      ensures KeepsOthers(old(hd), hd, {bp0, bp}) && SameFirst(list, old(Sz()), list, Sz(), |list|)
      ensures old(Separated(hd, maxWosize)) ==> Separated(hd, maxWosize)
    {
      hide HeapOk;
      hide Total;
      hide Separated;
      hide MergeAt;
      bp := bp0;
      if lastFragment == bp0 - 1 {
        FragmentReal(hd, next, list, chunks, bp0);
        var bpWhsz := hd[bp0].size + 1;
        if bpWhsz <= maxWosize {
          JoinWhite(hd, next, list, chunks, maxWosize, lastFragment, bp0);
          FragmentBelow(hd, next, list, chunks, flMerge, mk, lastFragment, bp0);
          bp := lastFragment;
          hd := (hd - {bp0})[bp := Hd(bpWhsz, White)];
          curSize := curSize + 1;
        }
      }
    }

    // bp takes in the free block after it.
    method TakeNext(bp: int, cur: int) returns (nextCur: int)
      requires Mid(bp) && mk < |list| && cur == list[mk] && End(hd, bp) + 1 == cur
      modifies `hd, `next, `list, `flPrev
      ensures Mid(bp) && mk <= |list| && nextCur == At(list, mk) && End(hd, bp) >= old(End(hd, bp))
      ensures hd.Keys <= old(hd.Keys)
      ensures KeepsOthers(old(hd), hd, {bp}) && SameFirst(old(list), old(Sz()), list, Sz(), mk)
      ensures old(Separated(hd, maxWosize)) ==> Separated(hd, maxWosize) && Blocked(hd, maxWosize, bp)
    {
      hide Sizes;
      hide KeepsOthers;
      hide Join;
      hide HeapOk;
      hide Total;
      hide Separated;
      hide MergeAt;
      hide Blocked;
      hide Lowered;
      hide SameFirst;
      TakeNextOk(hd, next, list, chunks, maxWosize, flMerge, flPrev, mk, bp);
      nextCur := next[cur];
      next := next[flMerge := nextCur];
      if !firstFit && flPrev == cur { flPrev := flMerge; }
      JoinKeys(hd, bp, cur);
      hd := Join(hd, bp, cur, White);
      list := Without(list, mk);
    }

    // Merging with the free block after, if there is one.
    method MergeNext(bp: int, cur0: int) returns (adj: int, cur: int)
      requires Mid(bp) && cur0 == At(list, mk)
      modifies `hd, `next, `list, `flPrev
      ensures Mid(bp) && cur == At(list, mk) && adj == End(hd, bp) && mk <= |old(list)| && hd.Keys <= old(hd.Keys)
      ensures adj >= old(End(hd, bp)) && (cur0 == NULL ==> adj == old(End(hd, bp)) && list == old(list))
      ensures KeepsOthers(old(hd), hd, {bp}) && SameFirst(old(list), old(Sz()), list, Sz(), mk)
      ensures old(Separated(hd, maxWosize)) ==> Separated(hd, maxWosize) && Blocked(hd, maxWosize, bp)
    {
      hide HeapOk;
      hide Total;
      hide Separated;
      hide MergeAt;
      hide Blocked;
      cur := cur0;
      adj := End(hd, bp);
      MergeBounds(list, flMerge, mk, bp - 1);
      AfterBlock(hd, next, list, chunks, mk, bp);
      if cur != NULL && adj == cur - 1 && hd[bp].size + 1 + hd[cur].size <= maxWosize {
        cur := TakeNext(bp, cur);
        adj := End(hd, bp);
      } else {
        BlockedHere(hd, next, list, chunks, maxWosize, mk, bp);
      }
    }

    // bp joins the free block before it.
    method JoinBefore(bp: int)
      requires Mid(bp) && mk > 0 && flMerge in hd && End(hd, flMerge) + 1 == bp
      modifies `hd
      ensures HeapOk(hd, next, list, chunks) && curSize == Total(hd, list)
      ensures MergeAt(list, flMerge, mk, old(End(hd, bp))) && EndsAt(hd, bp, old(End(hd, bp))) && !InUse(hd, bp)
      ensures hd.Keys == old(hd.Keys) - {bp}
      ensures KeepsOthers(old(hd), hd, {bp}) && SameFirst(list, old(Sz()), list, Sz(), mk - 1)
      ensures old(Separated(hd, maxWosize)) && old(Blocked(hd, maxWosize, bp)) ==> Separated(hd, maxWosize)
    {
      hide HeapOk;
      hide Total;
      hide Separated;
      hide Blocked;
      MergeBounds(list, flMerge, mk, bp - 1);
      AfterBlock(hd, next, list, chunks, mk, bp);
      ListFacts(hd, next, list, chunks, mk - 1);
      MergePassed(hd, next, list, chunks, flMerge, mk, bp);
      JoinPrev(hd, next, list, chunks, maxWosize, mk - 1, bp);
      ghost var end := End(hd, bp);
      hd := (hd - {bp})[flMerge := Hd(hd[flMerge].size + 1 + hd[bp].size, Blue)];
      EndsBy(hd, flMerge, bp, end);
    }

    // bp joins the list after flMerge.
    method InsertAfter(bp: int, cur: int)
      requires Mid(bp) && cur == At(list, mk) && hd[bp].size != 0
      requires flMerge in hd && End(hd, flMerge) + 1 == bp ==> hd[flMerge].size + 1 + hd[bp].size >= maxWosize
      modifies `hd, `next, `list, `flMerge, `mk
      ensures HeapOk(hd, next, list, chunks) && curSize == Total(hd, list)
      ensures MergeAt(list, flMerge, mk, old(End(hd, bp))) && EndsAt(hd, bp, old(End(hd, bp))) && !InUse(hd, bp)
      ensures hd.Keys == old(hd.Keys) && IsBlue(hd, bp)
      ensures forall x :: x in old(list) ==> x in list
      ensures KeepsOthers(old(hd), hd, {bp}) && mk == old(mk) + 1 && |list| == |old(list)| + 1
      ensures SameFirst(old(list), old(Sz()), list, Sz(), old(mk))
      ensures old(Separated(hd, maxWosize)) && old(Blocked(hd, maxWosize, bp)) ==> Separated(hd, maxWosize)
    {
      hide HeapOk;
      hide Total;
      hide Separated;
      hide Blocked;
      hide MergeAt;
      hide EndsAt;
      hide SameFirst;
      hide Sizes;
      hide With;
      hide KeepsOthers;
      MergeBounds(list, flMerge, mk, bp - 1);
      AfterBlock(hd, next, list, chunks, mk, bp);
      NotListed(hd, next, list, chunks, mk, bp);
      InsertFree(hd, next, list, chunks, maxWosize, mk, bp);
      if Separated(hd, maxWosize) && Blocked(hd, maxWosize, bp) {
        InsertSeparated(hd, next, list, chunks, maxWosize, mk, bp);
      }
      InsertSame(hd, list, mk, bp);
      MergeWith(hd, next, list, chunks, flMerge, mk, bp);
      ghost var end := End(hd, bp);
      hd := hd[bp := Hd(hd[bp].size, Blue)];
      EndsBy(hd, bp, bp, end);
      next := next[bp := cur][flMerge := bp];
      list := With(list, mk, bp);
      flMerge := bp;
      mk := mk + 1;
    }

    // The end of caml_fl_merge_block: bp joins the block before it, or the list, or is a fragment.
    method PlaceBlock(bp: int, cur: int, adj: int)
      requires Mid(bp) && cur == At(list, mk) && adj == End(hd, bp)
      requires lastFragment != NULL ==> lastFragment < adj
      modifies `hd, `next, `list, `flMerge, `mk, `curSize, `lastFragment
      ensures HeapOk(hd, next, list, chunks) && curSize == Total(hd, list)
      ensures MergeAt(list, flMerge, mk, adj) && FragmentAt(hd, lastFragment, adj) && EndsAt(hd, bp, adj)
      ensures !InUse(hd, bp) && hd.Keys <= old(hd.Keys) && (bp in hd ==> IsBlue(hd, bp) || lastFragment == bp)
      ensures (forall x :: x in old(list) ==> x in list) && |list| - |old(list)| == mk - old(mk)
      ensures KeepsOthers(old(hd), hd, {bp}) && SameFirst(old(list), old(Sz()), list, Sz(), Before(old(mk)))
      ensures old(Separated(hd, maxWosize)) && old(Blocked(hd, maxWosize, bp)) ==> Separated(hd, maxWosize)
    {
      hide HeapOk;
      hide Total;
      hide Separated;
      hide MergeAt;
      hide Blocked;
      hide EndsAt;
      hide KeepsOthers;
      hide SameFirst;
      var prev := flMerge;
      PrevThere(hd, next, list, chunks, flMerge, mk, bp);
      MergeBounds(list, flMerge, mk, bp - 1);
      ghost var sz0 := Sz();
      var prevWosz := if prev == FL_HEAD then 0 else hd[prev].size;
      if prev != FL_HEAD && prev + prevWosz == bp - 1 && prevWosz + 1 + hd[bp].size < maxWosize {
        JoinBefore(bp);
      } else if hd[bp].size != 0 {
        ghost var list0, mk0 := list, mk;
        InsertAfter(bp, cur);
        SameLess(list0, sz0, list, Sz(), mk0, Before(mk0));
      } else {
        // A fragment: it stays out of the list, to be merged with the next block.
        MergePassed(hd, next, list, chunks, flMerge, mk, bp);
        EndsBy(hd, bp, bp, adj);
        lastFragment := bp;
        curSize := curSize - 1;
        KeepsSelf(hd, bp);
        SameSelf(list, Sz(), Before(mk));
      }
    }

    // truncate_flp (caml_fl_merge).
    method ForgetMerged()
      requires HeapOk(hd, next, list, chunks) && TableOk() && BeyondOk() && mk <= |list| && flMerge == At(list, mk - 1)
      modifies `flp, `beyond, `ms, `lim
      ensures TableOk() && BeyondOk() && 0 <= lim <= Before(mk)
    {
      hide HeapOk;
      hide Maxima;
      hide EntriesAt;
      hide Resumes;
      LeadsPast(hd, next, list, chunks, ms, lim, flp, mk - 1);
      Truncate(flMerge, Before(mk), list, Sz());
    }

    // bp0, which is counted, is merged with the fragment and the free blocks around it.
    method MergeAround(bp0: int, cur0: int) returns (adj: int)
      requires Mid(bp0) && cur0 == At(list, mk) && FragmentAt(hd, lastFragment, bp0 - 1)
      modifies `hd, `next, `list, `flPrev, `flMerge, `mk, `curSize, `lastFragment
      ensures HeapOk(hd, next, list, chunks) && curSize == Total(hd, list)
      ensures flPrev == FL_HEAD || (flPrev in list && !firstFit)
      ensures MergeAt(list, flMerge, mk, adj) && FragmentAt(hd, lastFragment, adj) && adj >= old(End(hd, bp0))
      ensures FreesOnly(old(hd), hd, bp0) && EndsAt(hd, bp0, adj)
      ensures bp0 in hd ==> IsBlue(hd, bp0) || lastFragment == bp0
      ensures old(lastFragment) == bp0 - 1 && old(hd)[bp0].size + 1 <= maxWosize ==> bp0 !in hd
      ensures SameFirst(old(list), old(Sz()), list, Sz(), Before(old(mk))) && Before(old(mk)) <= |old(list)|
      ensures old(mk) == |old(list)| ==> mk == |list| && adj == old(End(hd, bp0))
      ensures old(Separated(hd, maxWosize)) ==> Separated(hd, maxWosize)
    {
      hide HeapOk;
      hide Total;
      hide Separated;
      hide MergeAt;
      hide Blocked;
      hide EndsAt;
      hide KeepsOthers;
      hide SameFirst;
      hide FreesOnly;
      hide Sizes;
      MergeBounds(list, flMerge, mk, bp0 - 1);
      ghost var hd0, list0, sz0, n := hd, list, Sz(), Before(mk);
      var bp := MergeFragment(bp0);
      ghost var hd1, list1, sz1 := hd, list, Sz();
      var cur;
      adj, cur := MergeNext(bp, cur0);
      ghost var hd2, list2, sz2 := hd, list, Sz();
      SameTwice(list0, sz0, list1, sz1, list2, sz2, |list0|, mk, n);
      PlaceBlock(bp, cur, adj);
      SameTwice(list0, sz0, list2, sz2, list, Sz(), n, n, n);
      UseChain(hd0, hd1, hd2, hd, bp0, bp);
      EndsLower(hd, bp, bp0, adj);
    }

    // caml_fl_merge_block, and the store of its result into caml_gc_sweep_hp.
    method MergeBlock(bp0: int) returns (adj: int)
      requires Valid() && bp0 in hd && hd[bp0].color == White && sweepHp == bp0 - 1
      requires firstFit ==> TableOk() && BeyondOk()
      modifies this
      ensures Valid() && sweepHp == adj >= old(End(hd, bp0)) && chunks == old(chunks)
      ensures firstFit ==> TableOk() && BeyondOk()
      ensures FreesOnly(old(hd), hd, bp0) && EndsAt(hd, bp0, adj)
      ensures bp0 in hd ==> IsBlue(hd, bp0) || lastFragment == bp0
      ensures old(lastFragment) == bp0 - 1 && old(hd)[bp0].size + 1 <= maxWosize ==> bp0 !in hd
      ensures old(mk) == |old(list)| ==> mk == |list| && adj == old(End(hd, bp0))
      ensures old(Separated(hd, maxWosize)) ==> Separated(hd, maxWosize)
    {
      hide HeapOk;
      hide Total;
      hide Separated;
      hide MergeAt;
      hide Blocked;
      hide EndsAt;
      hide SameFirst;
      hide FreesOnly;
      hide FragmentAt;
      hide Maxima;
      hide EntriesAt;
      hide Resumes;
      hide Sizes;
      MergeBounds(list, flMerge, mk, bp0 - 1);
      curSize := curSize + 1 + hd[bp0].size;
      ListFacts(hd, next, list, chunks, mk - 1);
      var cur := next[flMerge];
      ghost var list0, sz0, n := list, Sz(), Before(mk);
      if firstFit { ForgetMerged(); }
      adj := MergeAround(bp0, cur);
      sweepHp := adj;
      if firstFit { TableSame(list0, sz0, list, Sz(), flp, ms, lim, beyond, n); }
    }

    // ---- caml_fl_add_blocks ----

    // The new block's place in the list.
    method PlaceFor(bp: int) returns (prev: int, cur: int, ghost k: nat)
      requires HeapOk(hd, next, list, chunks) && bp !in list
      ensures k <= |list| && prev == At(list, k - 1) && cur == At(list, k) && Threshold(list, bp, k)
    {
      hide HeapOk;
      ListFacts(hd, next, list, chunks, -1);
      k := 0;
      prev := FL_HEAD;
      cur := next[prev];
      while cur != NULL && cur < bp
        invariant k <= |list| && prev == At(list, k - 1) && cur == At(list, k)
        invariant forall i :: 0 <= i < k ==> list[i] < bp
        decreases |list| - k
      {
        ListFacts(hd, next, list, chunks, k);
        k := k + 1;
        prev := cur;
        cur := next[prev];
      }
    }

    // The new block goes before entry k.
    method LinkNew(bp: int, n: nat, prev: int, cur: int, ghost k: nat)
      requires Valid() && 2 <= bp && 1 <= n && NewChunk(chunks, bp, n) && bp != sweepHp
      requires k <= |list| && prev == At(list, k - 1) && cur == At(list, k) && Threshold(list, bp, k)
      modifies `next, `flMerge, `curSize, `hd, `list, `chunks, `mk
      ensures Valid() && chunks == old(chunks) + {Chunk(bp - 1, bp + n)}
      ensures list == With(old(list), k, bp) && next == old(next)[bp := cur][prev := bp]
      ensures hd == old(hd)[bp := Hd(n, Blue)] && curSize == old(curSize) + 1 + n
      ensures Sz() == old(Sz())[..k] + [n] + old(Sz())[k..]
      ensures old(Separated(hd, maxWosize)) ==> Separated(hd, maxWosize)
    {
      hide HeapOk;
      hide Total;
      hide Separated;
      hide MergeAt;
      hide Threshold;
      hide Sizes;
      hide FragmentAt;
      hide With;
      AddFree(hd, next, list, chunks, maxWosize, k, bp, n);
      HeapList(hd, next, list, chunks);
      AddMerge(list, flMerge, mk, sweepHp, bp, k);
      AddFragment(hd, lastFragment, sweepHp, bp, n);
      NewBlock(hd, next, list, chunks, bp, n);
      curSize := curSize + 1 + n;
      next := next[bp := cur][prev := bp];
      if prev == flMerge && bp < sweepHp { flMerge := bp; }
      mk := if bp < sweepHp then mk + 1 else mk;
      hd := hd[bp := Hd(n, Blue)];
      list := With(list, k, bp);
      chunks := chunks + {Chunk(bp - 1, bp + n)};
    }

    // caml_fl_add_blocks for one new chunk that is one block, right after an allocation that failed.
    method AddBlocks(bp: int, n: nat)
      requires Valid() && 2 <= bp && 1 <= n && flLast == At(list, |list| - 1)
      requires NewChunk(chunks, bp, n) && bp != sweepHp
      requires firstFit ==> TableOk() && BeyondOk() && lim == |list| && NoFit(Sz(), n)
      modifies this
      ensures Valid() && chunks == old(chunks) + {Chunk(bp - 1, bp + n)} && sweepHp == old(sweepHp)
      ensures hd == old(hd)[bp := Hd(n, Blue)] && bp in list && curSize == old(curSize) + 1 + n
      ensures exists k :: Inserted(old(Sz()), n, k, Sz())
      ensures old(Separated(hd, maxWosize)) ==> Separated(hd, maxWosize)
      ensures firstFit ==> TableOk()
      ensures firstFit ==> BeyondOk() || forall w: nat :: w <= n && NoFit(old(Sz()), w) ==> Extended(w)
    {
      hide HeapOk;
      hide Total;
      hide Separated;
      hide MergeAt;
      hide Maxima;
      hide EntriesAt;
      hide Resumes;
      hide NoFit;
      hide Sizes;
      hide Threshold;
      hide Before;
      if bp > flLast {
        AddLastBlock(bp, n);
      } else {
        AddMiddleBlock(bp, n);
      }
    }

    // The new block becomes the last of the list.
    method AddLastBlock(bp: int, n: nat)
      requires Valid() && 2 <= bp && 1 <= n && flLast == At(list, |list| - 1) < bp
      requires NewChunk(chunks, bp, n) && bp != sweepHp
      requires firstFit ==> TableOk() && BeyondOk() && lim == |list| && NoFit(Sz(), n)
      modifies `next, `flMerge, `curSize, `hd, `list, `chunks, `mk, `flp, `ms, `lim
      ensures Valid() && chunks == old(chunks) + {Chunk(bp - 1, bp + n)}
      ensures hd == old(hd)[bp := Hd(n, Blue)] && bp in list && curSize == old(curSize) + 1 + n
      ensures exists k :: Inserted(old(Sz()), n, k, Sz())
      ensures old(Separated(hd, maxWosize)) ==> Separated(hd, maxWosize)
      ensures firstFit ==> TableOk()
      ensures firstFit ==> BeyondOk() || forall w: nat :: w <= n && NoFit(old(Sz()), w) ==> Extended(w)
    {
      hide HeapOk;
      hide Total;
      hide Separated;
      hide MergeAt;
      hide Maxima;
      hide EntriesAt;
      hide Resumes;
      hide NoFit;
      hide Sizes;
      hide Threshold;
      ghost var list0, sz0, k: nat := list, Sz(), |list|;
      NewBlock(hd, next, list, chunks, bp, n);
      LastPlace(hd, next, list, chunks, bp);
      LinkNew(bp, n, flLast, NULL, k);
      WithLast(list0, sz0, bp, n);
      if firstFit { EnterLast(bp, n, list0, sz0); }
      assert Inserted(sz0, n, k, Sz());
    }

    // The table, when the block at bp has become the last of the list.
    method EnterLast(bp: int, n: nat, ghost list0: seq<int>, ghost sz0: seq<nat>)
      requires SameFirst(list0, sz0, list, Sz(), |list0|) && list == list0 + [bp] && Sz() == sz0 + [n]
      requires Maxima(sz0, ms, lim) && EntriesAt(list0, flp, ms) && |flp| <= flpMax
      requires (flp != [] ==> Resumes(list0, ms, lim, beyond)) && lim == |list0|
      requires NoFit(sz0, n) && flLast == At(list0, |list0| - 1)
      modifies `flp, `ms, `lim
      ensures TableOk()
      ensures BeyondOk() || forall w: nat :: w <= n && NoFit(sz0, w) ==> Extended(w)
    {
      hide Maxima;
      hide EntriesAt;
      hide Resumes;
      hide NoFit;
      hide Sizes;
      ghost var k := |list0|;
      TableSame(list0, sz0, list, Sz(), flp, ms, lim, beyond, k);
      AddLast(sz0, list0, bp, n, ms, flp);
      if |flp| < flpMax {
        flp := flp + [flLast];
        ms, lim := ms + [k], k + 1;
      }
    }

    // The new block goes to its place in the list.
    method AddMiddleBlock(bp: int, n: nat)
      requires Valid() && 2 <= bp && 1 <= n && NewChunk(chunks, bp, n) && bp != sweepHp
      requires firstFit ==> TableOk() && BeyondOk()
      modifies `next, `flMerge, `curSize, `hd, `list, `chunks, `mk, `flp, `beyond, `ms, `lim
      ensures Valid() && chunks == old(chunks) + {Chunk(bp - 1, bp + n)}
      ensures hd == old(hd)[bp := Hd(n, Blue)] && bp in list && curSize == old(curSize) + 1 + n
      ensures exists k :: Inserted(old(Sz()), n, k, Sz())
      ensures old(Separated(hd, maxWosize)) ==> Separated(hd, maxWosize)
      ensures firstFit ==> TableOk() && BeyondOk()
    {
      hide HeapOk;
      hide Total;
      hide Separated;
      hide MergeAt;
      hide Maxima;
      hide EntriesAt;
      hide Resumes;
      hide Sizes;
      hide Threshold;
      ghost var hd0, next0, list0, chunks0, sz0 := hd, next, list, chunks, Sz();
      NewBlock(hd, next, list, chunks, bp, n);
      var prev, cur;
      ghost var k: nat;
      prev, cur, k := PlaceFor(bp);
      LinkNew(bp, n, prev, cur, k);
      WithMiddle(list0, sz0, bp, n, k);
      if firstFit {
        LeadsNew(hd0, next0, list0, chunks0, ms, lim, flp, bp, k);
        Truncate(bp, k, list0, sz0);
        TableSame(list0, sz0, list, Sz(), flp, ms, lim, beyond, k);
      }
      assert Inserted(sz0, n, k, Sz());
    }
  }

  // ---- Adding a chunk ----

  ghost predicate Inserted(sz: seq<nat>, n: nat, k: int, sz': seq<nat>) {
    0 <= k <= |sz| && sz' == sz[..k] + [n] + sz[k..]
  }

  // No chunk meets or touches the words bp - 1 to bp + n - 1.
  ghost predicate NewChunk(chunks: set<Chunk>, bp: int, n: nat) {
    forall c :: c in chunks ==> c.hi < bp - 1 || bp + n < c.lo
  }

  lemma NewBlock(hd: map<int, Hd>, next: map<int, int>, list: seq<int>, chunks: set<Chunk>, bp: int, n: nat)
    requires HeapOk(hd, next, list, chunks) && 2 <= bp && NewChunk(chunks, bp, n)
    ensures bp !in hd && bp !in list
  {
    ChunkTiled(hd, chunks, bp, n, White);
    assert Listed(hd, list, bp);
  }

  lemma AddFree(hd: map<int, Hd>, next: map<int, int>, list: seq<int>, chunks: set<Chunk>, max: nat, k: nat, bp: int,
                n: nat)
    requires HeapOk(hd, next, list, chunks) && 2 <= bp && 1 <= n && NewChunk(chunks, bp, n) && Threshold(list, bp, k)
    ensures var hd', list', chunks' := hd[bp := Hd(n, Blue)], With(list, k, bp), chunks + {Chunk(bp - 1, bp + n)};
      && HeapOk(hd', next[bp := At(list, k)][At(list, k - 1) := bp], list', chunks')
      && Total(hd', list') == Total(hd, list) + 1 + n
      && Sizes(hd', list') == Sizes(hd, list)[..k] + [n] + Sizes(hd, list)[k..]
      && (Separated(hd, max) ==> Separated(hd', max))
      && forall x :: x in list ==> x in list'
  {
    hide Total;
    var w, chunks' := hd[bp := Hd(n, White)], chunks + {Chunk(bp - 1, bp + n)};
    NewBlock(hd, next, list, chunks, bp, n);
    ChunkTiled(hd, chunks, bp, n, White);
    WhiteListed(hd, next, list, bp, n);
    if k < |list| { assert list[k] in list; }
    InsertFree(w, next, list, chunks', max, k, bp);
    assert w[bp := Hd(n, Blue)] == hd[bp := Hd(n, Blue)];
    WithIs(list, k, bp);
    AddSizes(hd, list, bp, n, k);
    if Separated(hd, max) { AddSeparated(hd, chunks, max, bp, n); }
  }

  lemma WhiteListed(hd: map<int, Hd>, next: map<int, int>, list: seq<int>, bp: int, n: nat)
    requires ListOk(hd, next, list) && bp !in hd
    ensures ListOk(hd[bp := Hd(n, White)], next, list) && Total(hd[bp := Hd(n, White)], list) == Total(hd, list)
  {
    ListIn(hd, next, list);
    var hd' := hd[bp := Hd(n, White)];
    forall b ensures Listed(hd', list, b) {
      assert Listed(hd, list, b);
    }
    TotalSame(hd, hd', list);
  }

  lemma AddSizes(hd: map<int, Hd>, list: seq<int>, bp: int, n: nat, k: nat)
    requires bp !in list && k <= |list|
    ensures Sizes(hd[bp := Hd(n, Blue)], With(list, k, bp)) == Sizes(hd, list)[..k] + [n] + Sizes(hd, list)[k..]
  {
    var hd', l := hd[bp := Hd(n, Blue)], With(list, k, bp);
    forall j | 0 <= j < |list| ensures list[j] != bp {
      assert list[j] in list;
    }
  }

  lemma AddSeparated(hd: map<int, Hd>, chunks: set<Chunk>, max: nat, bp: int, n: nat)
    requires Tiled(hd, chunks) && NewChunk(chunks, bp, n) && bp !in hd && Separated(hd, max)
    ensures Separated(hd[bp := Hd(n, Blue)], max)
  {
    var hd' := hd[bp := Hd(n, Blue)];
    forall a, b ensures NoTouch(hd', max, a, b) {
      assert NoTouch(hd, max, a, b) && Inside(hd, chunks, a) && Inside(hd, chunks, b);
    }
  }

  lemma AddFragment(hd: map<int, Hd>, f: int, hp: int, bp: int, n: nat)
    requires FragmentAt(hd, f, hp) && bp != hp
    ensures FragmentAt(hd[bp := Hd(n, Blue)], f, hp)
  {
  }

  lemma AddMerge(list: seq<int>, flMerge: int, mk: nat, hp: int, bp: int, k: nat)
    requires Ascending(list) && MergeAt(list, flMerge, mk, hp) && Threshold(list, bp, k) && bp != hp && 2 <= bp
    ensures MergeAt(With(list, k, bp), if At(list, k - 1) == flMerge && bp < hp then bp else flMerge,
                    if bp < hp then mk + 1 else mk, hp)
  {
  }

  lemma LastPlace(hd: map<int, Hd>, next: map<int, int>, list: seq<int>, chunks: set<Chunk>, bp: int)
    requires HeapOk(hd, next, list, chunks) && bp > At(list, |list| - 1)
    ensures Threshold(list, bp, |list|)
  {
    assert Ascending(list);
  }

  lemma WithLast(list: seq<int>, sz: seq<nat>, bp: int, n: nat)
    requires |sz| == |list|
    ensures var l, s := With(list, |list|, bp), sz[..|list|] + [n] + sz[|list|..];
      bp in l && SameFirst(list, sz, l, s, |list|) && l == list + [bp] && s == sz + [n]
  {
    assert With(list, |list|, bp)[|list|] == bp;
  }

  lemma WithMiddle(list: seq<int>, sz: seq<nat>, bp: int, n: nat, k: nat)
    requires |sz| == |list| && k <= |list|
    ensures var l, s := With(list, k, bp), sz[..k] + [n] + sz[k..];
      bp in l && SameFirst(list, sz, l, s, k)
  {
    assert With(list, k, bp)[k] == bp;
  }

  // The new block, the last, is a maximum, for it is bigger than the others.
  lemma AddLast(sz: seq<nat>, list: seq<int>, bp: int, n: nat, ms: seq<int>, flp: seq<int>)
    requires Maxima(sz, ms, |sz|) && |sz| == |list| && NoFit(sz, n) && EntriesAt(list, flp, ms)
    ensures Maxima(sz + [n], ms + [|list|], |list| + 1)
    ensures EntriesAt(list + [bp], flp + [At(list, |list| - 1)], ms + [|list|])
    ensures forall w: nat :: w <= n && NoFit(sz, w) ==> LastFits(sz + [n], ms + [|list|], w)
    ensures |flp| == |ms|
  {
    var s := sz + [n];
    MaximaBounds(sz, ms, |sz|);
    SameBelow(sz, s, ms, |sz|);
    ExtendMax(s, ms, |sz|);
  }

  ghost predicate LastFits(sz: seq<nat>, ms: seq<int>, w: nat) {
    && ms != [] && (forall k :: 0 <= k < |ms| ==> 0 <= ms[k] < |sz|)
    && sz[ms[|ms| - 1]] >= w && forall k :: 0 <= k < |ms| - 1 ==> sz[ms[k]] < w
  }

  // Where the table leads when the new block is linked before entry k.
  lemma LeadsNew(hd: map<int, Hd>, next: map<int, int>, list: seq<int>, chunks: set<Chunk>, ms: seq<int>, lim: int,
                 flp: seq<int>, bp: int, k: nat)
    requires HeapOk(hd, next, list, chunks) && Maxima(Sizes(hd, list), ms, lim) && EntriesAt(list, flp, ms)
    requires Threshold(list, bp, k) && bp !in list && 2 <= bp
    ensures Ascending(list)
    ensures var next' := next[bp := At(list, k)][At(list, k - 1) := bp];
      forall i :: 0 <= i < |flp| ==> flp[i] in next' && (next'[flp[i]] >= bp <==> ms[i] >= k)
  {
    AllPlaces(hd, next, list, chunks, ms, lim, flp);
    var next' := next[bp := At(list, k)][At(list, k - 1) := bp];
    assert Ascending(list);
    forall i | 0 <= i < |flp| ensures flp[i] in next' && (next'[flp[i]] >= bp <==> ms[i] >= k) {
      assert flp[i] == At(list, ms[i] - 1) && flp[i] != bp;
    }
  }

  // The entries before the last of n.
  function Before(n: nat): nat {
    if n > 0 then n - 1 else 0
  }

  lemma SameLess(list0: seq<int>, sz0: seq<nat>, list1: seq<int>, sz1: seq<nat>, a: nat, n: nat)
    requires SameFirst(list0, sz0, list1, sz1, a) && n <= a
    ensures SameFirst(list0, sz0, list1, sz1, n)
  {
  }

  lemma SameSelf(list: seq<int>, sz: seq<nat>, n: nat)
    requires n <= |list| == |sz|
    ensures SameFirst(list, sz, list, sz, n)
  {
  }

  // A block that begins no later than b ends here.
  lemma JoinKeys(hd: map<int, Hd>, bp: int, cur: int)
    requires bp in hd && cur in hd
    ensures Join(hd, bp, cur, White).Keys <= hd.Keys
  {
  }

  ghost predicate EndsAt(hd: map<int, Hd>, b: int, x: int) {
    exists e :: EndIs(hd, e, x) && e <= b
  }

  ghost predicate EndIs(hd: map<int, Hd>, e: int, x: int) {
    e in hd && End(hd, e) == x
  }

  lemma EndsBy(hd: map<int, Hd>, e: int, b: int, x: int)
    requires e in hd && End(hd, e) == x && e <= b
    ensures EndsAt(hd, b, x)
  {
    assert EndIs(hd, e, x);
  }

  lemma EndsLower(hd: map<int, Hd>, b: int, b': int, x: int)
    requires EndsAt(hd, b, x) && b <= b'
    ensures EndsAt(hd, b', x)
  {
  }

  lemma KeepsSelf(hd: map<int, Hd>, bp: int)
    ensures KeepsOthers(hd, hd, {bp})
  {
  }

  lemma UseChain(hd0: map<int, Hd>, hd1: map<int, Hd>, hd2: map<int, Hd>, hd3: map<int, Hd>, bp0: int, bp: int)
    requires KeepsOthers(hd0, hd1, {bp0, bp}) && KeepsOthers(hd1, hd2, {bp}) && KeepsOthers(hd2, hd3, {bp})
    requires bp == bp0 || (bp in hd0 && hd0[bp] == Hd(0, White) && bp0 !in hd1)
    requires !InUse(hd3, bp)
    ensures FreesOnly(hd0, hd3, bp0)
  {
    forall b ensures KeptBut(hd0, hd3, bp0, b) {
      if b != bp {
        assert KeptUse(hd1, hd2, b, true) && KeptUse(hd2, hd3, b, true);
        if b != bp0 { assert KeptUse(hd0, hd1, b, true); }
      }
    }
  }

  lemma SameTwice(list0: seq<int>, sz0: seq<nat>, list1: seq<int>, sz1: seq<nat>, list2: seq<int>, sz2: seq<nat>,
                  a: nat, b: nat, n: nat)
    requires SameFirst(list0, sz0, list1, sz1, a) && SameFirst(list1, sz1, list2, sz2, b) && n <= a && n <= b
    ensures SameFirst(list0, sz0, list2, sz2, n)
  {
  }

  // The table does not change when the entries it knows of do not.
  lemma TableSame(list0: seq<int>, sz0: seq<nat>, list: seq<int>, sz: seq<nat>, flp: seq<int>, ms: seq<int>, lim: int,
                  beyond: int, n: nat)
    requires SameFirst(list0, sz0, list, sz, n) && Maxima(sz0, ms, lim) && EntriesAt(list0, flp, ms) && lim <= n
    ensures Maxima(sz, ms, lim) && EntriesAt(list, flp, ms)
    ensures flp != [] && Resumes(list0, ms, lim, beyond) ==> Resumes(list, ms, lim, beyond)
  {
    MaximaBounds(sz0, ms, lim);
    assert sz[..lim] == sz0[..lim];
    SameBelow(sz0, sz, ms, lim);
    forall k | 0 <= k < |ms| ensures At(list, ms[k] - 1) == At(list0, ms[k] - 1) {
    }
    assert lim >= 1 ==> At(list, lim - 1) == At(list0, lim - 1);
  }

  lemma PrevThere(hd: map<int, Hd>, next: map<int, int>, list: seq<int>, chunks: set<Chunk>, flMerge: int, mk: nat,
                  bp: int)
    requires HeapOk(hd, next, list, chunks) && MergeAt(list, flMerge, mk, bp - 1)
    ensures if mk > 0 then flMerge in hd && flMerge != FL_HEAD else flMerge == FL_HEAD && flMerge !in hd
  {
    if mk > 0 {
      ListFacts(hd, next, list, chunks, mk - 1);
    } else {
      assert Inside(hd, chunks, FL_HEAD);
    }
  }

  lemma MergePassed(hd: map<int, Hd>, next: map<int, int>, list: seq<int>, chunks: set<Chunk>, flMerge: int, mk: nat,
                    bp: int)
    requires HeapOk(hd, next, list, chunks) && MergeAt(list, flMerge, mk, bp - 1) && bp in hd && hd[bp].color == White
    ensures MergeAt(list, flMerge, mk, End(hd, bp))
  {
    AfterBlock(hd, next, list, chunks, mk, bp);
    forall i | mk <= i < |list| ensures list[i] > End(hd, bp) {
      assert Listed(hd, list, list[i]) && Apart(hd, bp, list[i]) && Listed(hd, list, bp);
    }
  }

  lemma MergeWith(hd: map<int, Hd>, next: map<int, int>, list: seq<int>, chunks: set<Chunk>, flMerge: int, mk: nat,
                  bp: int)
    requires HeapOk(hd, next, list, chunks) && MergeAt(list, flMerge, mk, bp - 1) && bp in hd && hd[bp].color == White
    ensures MergeAt(With(list, mk, bp), bp, mk + 1, End(hd, bp)) && forall x :: x in list ==> x in With(list, mk, bp)
  {
    MergePassed(hd, next, list, chunks, flMerge, mk, bp);
    var l := With(list, mk, bp);
    forall i | mk + 1 <= i < |l| ensures l[i] > End(hd, bp) {
      assert l[i] == list[i - 1];
    }
  }

  lemma NotListed(hd: map<int, Hd>, next: map<int, int>, list: seq<int>, chunks: set<Chunk>, mk: nat, bp: int)
    requires HeapOk(hd, next, list, chunks) && bp in hd && hd[bp].color == White && mk <= |list|
    requires (forall i :: 0 <= i < mk ==> list[i] <= bp - 1) && (forall i :: mk <= i < |list| ==> list[i] > bp - 1)
    ensures bp !in list && (mk > 0 ==> list[mk - 1] < bp && list[mk - 1] in hd) && (mk < |list| ==> bp < list[mk])
  {
    assert Listed(hd, list, bp);
    if mk > 0 { assert Listed(hd, list, list[mk - 1]); }
  }

  // ---- Merging ----

  // Neither free nor a fragment.
  ghost predicate InUse(hd: map<int, Hd>, b: int) {
    b in hd && hd[b].color != Blue && hd[b] != Hd(0, White)
  }

  // Block b is in use after if and only if it was before and is to be kept, and is the same.
  ghost predicate KeptUse(hd: map<int, Hd>, hd': map<int, Hd>, b: int, kept: bool) {
    (InUse(hd', b) <==> InUse(hd, b) && kept) && (InUse(hd', b) ==> hd'[b] == hd[b])
  }

  ghost predicate KeptBut(hd: map<int, Hd>, hd': map<int, Hd>, bp: int, b: int) {
    KeptUse(hd, hd', b, b != bp)
  }

  // Of all blocks in use, bp alone is freed.
  ghost predicate FreesOnly(hd: map<int, Hd>, hd': map<int, Hd>, bp: int) {
    forall b :: KeptBut(hd, hd', bp, b)
  }

  ghost predicate KeepsOthers(hd: map<int, Hd>, hd': map<int, Hd>, but: set<int>) {
    forall b :: b !in but ==> KeptUse(hd, hd', b, true)
  }

  // The first n entries and their sizes are the same.
  ghost predicate SameFirst(list: seq<int>, sz: seq<nat>, list': seq<int>, sz': seq<nat>, n: nat) {
    && n <= |list| == |sz| && n <= |list'| == |sz'|
    && forall j :: 0 <= j < n ==> list'[j] == list[j] && sz'[j] == sz[j]
  }

  // What is the same when bp joins the list.
  lemma InsertSame(hd: map<int, Hd>, list: seq<int>, mk: nat, bp: int)
    requires mk <= |list| && bp in hd && bp !in list
    ensures var hd', list' := hd[bp := Hd(hd[bp].size, Blue)], With(list, mk, bp);
      && SameFirst(list, Sizes(hd, list), list', Sizes(hd', list'), mk) && |list'| == |list| + 1
      && (forall x :: x in list ==> x in list') && KeepsOthers(hd, hd', {bp})
  {
    forall x | x in list ensures x in With(list, mk, bp) {
      var i :| 0 <= i < |list| && list[i] == x;
      assert With(list, mk, bp)[if i < mk then i else i + 1] == x;
    }
  }

  // What becomes of the list when bp takes in entry mk.
  lemma TakeNextOk(hd: map<int, Hd>, next: map<int, int>, list: seq<int>, chunks: set<Chunk>, max: nat, flMerge: int,
                   flPrev: int, mk: nat, bp: int)
    requires HeapOk(hd, next, list, chunks) && bp in hd && hd[bp].color == White && mk < |list|
    requires MergeAt(list, flMerge, mk, bp - 1) && End(hd, bp) + 1 == list[mk] && (flPrev == FL_HEAD || flPrev in list)
    ensures list[mk] in hd && list[mk] in next && flMerge in next
    ensures var hd', l := Join(hd, bp, list[mk], White), Without(list, mk);
      && HeapOk(hd', next[flMerge := next[list[mk]]], l, chunks)
      && Total(hd', l) == Total(hd, list) - 1 - hd[list[mk]].size
      && MergeAt(l, flMerge, mk, bp - 1) && next[list[mk]] == At(l, mk)
      && KeepsOthers(hd, hd', {bp}) && SameFirst(list, Sizes(hd, list), l, Sizes(hd', l), mk)
      && (Separated(hd, max) ==> Separated(hd', max) && Blocked(hd', max, bp))
      && bp in hd' && hd'[bp] == Hd(hd[bp].size + 1 + hd[list[mk]].size, White)
      && (flPrev == FL_HEAD || flPrev == list[mk] || flPrev in l) && (flMerge == FL_HEAD || flMerge in l)
  {
    hide Sizes;
    hide KeepsOthers;
    hide Join;
    hide HeapOk;
    hide Total;
    hide Separated;
    hide MergeAt;
    hide Blocked;
    hide Lowered;
    hide SameFirst;
    MergeBounds(list, flMerge, mk, bp - 1);
    ListFacts(hd, next, list, chunks, mk);
    ListFacts(hd, next, list, chunks, mk - 1);
    NotListed(hd, next, list, chunks, mk, bp);
    JoinNext(hd, next, list, chunks, max, bp, mk);
    JoinFirst(hd, list, mk, bp);
    MergeWithout(list, flMerge, mk, bp - 1, mk);
    NextGone(list, mk);
    PrevKept(list, mk, flPrev);
    JoinKeeps(hd, bp, list[mk]);
  }

  lemma JoinFirst(hd: map<int, Hd>, list: seq<int>, mk: nat, bp: int)
    requires Ascending(list) && mk < |list| && list[mk] in hd && bp in hd && bp !in list
    ensures var hd' := Join(hd, bp, list[mk], White);
      SameFirst(list, Sizes(hd, list), Without(list, mk), Sizes(hd', Without(list, mk)), mk)
  {
    var hd' := Join(hd, bp, list[mk], White);
    forall j | 0 <= j < mk ensures Without(list, mk)[j] == list[j] && SizeAt(hd', list[j]) == SizeAt(hd, list[j]) {
      assert list[j] in list;
    }
  }

  lemma JoinKeeps(hd: map<int, Hd>, bp: int, cur: int)
    requires bp in hd && cur in hd && hd[bp].color == White && hd[cur].color == Blue
    ensures var hd' := Join(hd, bp, cur, White);
      KeepsOthers(hd, hd', {bp}) && bp in hd' && hd'[bp] == Hd(hd[bp].size + 1 + hd[cur].size, White)
  {
  }

  lemma FragmentReal(hd: map<int, Hd>, next: map<int, int>, list: seq<int>, chunks: set<Chunk>, bp: int)
    requires HeapOk(hd, next, list, chunks) && bp in hd
    ensures 2 <= bp
  {
    assert Inside(hd, chunks, bp);
  }

  lemma FragmentBelow(hd: map<int, Hd>, next: map<int, int>, list: seq<int>, chunks: set<Chunk>, flMerge: int, mk: nat,
                      f: int, bp: int)
    requires HeapOk(hd, next, list, chunks) && MergeAt(list, flMerge, mk, bp - 1) && f == bp - 1
    requires f in hd && hd[f].color == White
    ensures MergeAt(list, flMerge, mk, f - 1)
  {
    assert Listed(hd, list, f);
    forall i | 0 <= i < mk ensures list[i] <= f - 1 {
      assert list[i] in list && list[i] != f;
    }
  }

  lemma MergeBounds(list: seq<int>, flMerge: int, mk: nat, hp: int)
    requires MergeAt(list, flMerge, mk, hp)
    ensures mk <= |list| && flMerge == At(list, mk - 1) && (mk < |list| ==> list[mk] > hp)
    ensures (forall i :: 0 <= i < mk ==> list[i] <= hp) && (forall i :: mk <= i < |list| ==> list[i] > hp)
  {
  }

  // What lies after bp when the list has been passed up to it.
  lemma AfterBlock(hd: map<int, Hd>, next: map<int, int>, list: seq<int>, chunks: set<Chunk>, mk: nat, bp: int)
    requires HeapOk(hd, next, list, chunks) && bp in hd && hd[bp].color == White && mk <= |list|
    requires mk < |list| ==> list[mk] > bp - 1
    ensures mk < |list| ==> list[mk] > End(hd, bp) && list[mk] in hd && list[mk] != NULL
    ensures (mk < |list| <==> At(list, mk) != NULL) && 2 <= bp
  {
    assert Inside(hd, chunks, bp) && Listed(hd, list, bp);
    if mk < |list| {
      assert Listed(hd, list, list[mk]) && Apart(hd, bp, list[mk]);
    }
  }

  lemma NextGone(list: seq<int>, mk: nat)
    requires Ascending(list) && mk < |list|
    ensures At(Without(list, mk), mk) == At(list, mk + 1)
  {
    WithoutIs(list, mk);
  }

  lemma PrevKept(list: seq<int>, p: nat, flPrev: int)
    requires Ascending(list) && p < |list| && (flPrev == FL_HEAD || flPrev in list)
    ensures flPrev == FL_HEAD || flPrev == list[p] || flPrev in Without(list, p)
    ensures At(list, p - 1) == FL_HEAD || At(list, p - 1) in Without(list, p)
  {
    WithoutIs(list, p);
    PrevStays(list, p);
  }

  lemma BlockedHere(hd: map<int, Hd>, next: map<int, int>, list: seq<int>, chunks: set<Chunk>, max: nat, mk: nat,
                    bp: int)
    requires HeapOk(hd, next, list, chunks) && bp in hd && hd[bp].color == White && mk <= |list|
    requires (forall i :: 0 <= i < mk ==> list[i] <= bp - 1) && (forall i :: mk <= i < |list| ==> list[i] > bp - 1)
    requires mk < |list| && list[mk] in hd && End(hd, bp) == list[mk] - 1 ==> hd[bp].size + 1 + hd[list[mk]].size > max
    ensures Blocked(hd, max, bp)
  {
    forall c ensures BlockedBy(hd, max, bp, c) {
      if IsBlue(hd, c) && End(hd, bp) + 1 == c {
        assert Listed(hd, list, c);
        var i :| 0 <= i < |list| && list[i] == c;
        assert mk <= i;
        assert Listed(hd, list, list[mk]) && Apart(hd, bp, list[mk]) && Listed(hd, list, bp);
      }
    }
  }

  // The first q entries are those below changed.
  ghost predicate Threshold(list: seq<int>, changed: int, q: nat) {
    && q <= |list| && (forall i :: 0 <= i < q ==> list[i] < changed)
    && (forall i :: q <= i < |list| ==> list[i] >= changed)
  }

  // Up to where the first n maxima are known to be all.
  function KnownTo(ms: seq<int>, lim: int, n: nat, beyond: int): int
    requires n <= |ms|
  {
    if n == 0 then 0 else if beyond == NULL then ms[n - 1] + 1 else lim
  }

  lemma KeptTable(sz: seq<nat>, list: seq<int>, flp0: seq<int>, flp: seq<int>, ms: seq<int>, lim: int, beyond0: int,
                  beyond: int, changed: int, q: nat)
    requires Maxima(sz, ms, lim) && EntriesAt(list, flp0, ms) && flp <= flp0 && |list| == |sz|
    requires Threshold(list, changed, q)
    requires (forall k :: 0 <= k < |flp| ==> ms[k] < q) && (forall k :: |flp| <= k < |ms| ==> ms[k] >= q)
    requires flp0 != [] ==> Resumes(list, ms, lim, beyond0)
    requires beyond == if beyond0 >= changed then NULL else beyond0
    ensures |flp| <= |ms| && 0 <= KnownTo(ms, lim, |flp|, beyond) <= q
    ensures Maxima(sz, ms[..|flp|], KnownTo(ms, lim, |flp|, beyond)) && EntriesAt(list, flp, ms[..|flp|])
    ensures flp != [] ==> Resumes(list, ms[..|flp|], KnownTo(ms, lim, |flp|, beyond), beyond)
  {
    var n, l := |flp|, KnownTo(ms, lim, |flp|, beyond);
    MaximaBounds(sz, ms, lim);
    assert flp == flp0[..n];
    if n > 0 && beyond != NULL { assert list[lim - 1] < changed; }
    KeepFirst(sz, list, flp0, ms, lim, n, l);
  }

  // The entries of the table that lead to entry q or beyond.
  lemma LeadsPast(hd: map<int, Hd>, next: map<int, int>, list: seq<int>, chunks: set<Chunk>, ms: seq<int>, lim: int,
                  flp: seq<int>, q: int)
    requires HeapOk(hd, next, list, chunks) && Maxima(Sizes(hd, list), ms, lim) && EntriesAt(list, flp, ms)
    requires -1 <= q < |list|
    ensures Ascending(list) && Threshold(list, At(list, q), if q < 0 then 0 else q)
    ensures forall k :: 0 <= k < |flp| ==>
      flp[k] in next && (next[flp[k]] >= At(list, q) <==> ms[k] >= (if q < 0 then 0 else q))
  {
    AllPlaces(hd, next, list, chunks, ms, lim, flp);
  }

  lemma AllPlaces(hd: map<int, Hd>, next: map<int, int>, list: seq<int>, chunks: set<Chunk>, ms: seq<int>, lim: int,
                  flp: seq<int>)
    requires HeapOk(hd, next, list, chunks) && Maxima(Sizes(hd, list), ms, lim) && EntriesAt(list, flp, ms)
    ensures forall k :: 0 <= k < |flp| ==> 0 <= ms[k] < |list| && flp[k] in next && next[flp[k]] == list[ms[k]]
  {
    forall k | 0 <= k < |flp| ensures 0 <= ms[k] < |list| && flp[k] in next && next[flp[k]] == list[ms[k]] {
      EntryPlace(hd, next, list, chunks, ms, lim, flp, k);
    }
  }

  // The first n maxima, known up to k.
  lemma KeepFirst(sz: seq<nat>, list: seq<int>, flp: seq<int>, ms: seq<int>, lim: int, n: nat, k: int)
    requires Maxima(sz, ms, lim) && n <= |ms| && 0 <= k <= lim && EntriesAt(list, flp, ms)
    requires forall i :: 0 <= i < n ==> ms[i] < k
    requires forall i :: n <= i < |ms| ==> ms[i] >= k
    ensures Maxima(sz, ms[..n], k) && EntriesAt(list, flp[..n], ms[..n])
  {
    Fewer(sz, ms, lim, n, k);
  }

  lemma NoneLess(sz: seq<nat>, lo: int, hi: int, hi': int, want: nat)
    requires NoneIn(sz, lo, hi, want) && hi' <= hi
    ensures NoneIn(sz, lo, hi', want)
  {
  }

  lemma NoneAt(sz: seq<nat>, q: nat, want: nat)
    requires NoneIn(sz, -1, q, want) && q < |sz|
    ensures sz[q] < want
  {
  }

  lemma NoneJoin(sz: seq<nat>, mid: int, hi: int, want: nat)
    requires NoneIn(sz, -1, mid, want) && NoneIn(sz, mid, hi, want)
    ensures NoneIn(sz, -1, hi, want)
  {
  }

  lemma FitAt(sz: seq<nat>, want: nat, p: int)
    requires FirstFit(sz, want, p)
    ensures p >= 0
  {
  }

  lemma FitsFirst(sz: seq<nat>, p: nat, want: nat)
    requires p < |sz| && NoneIn(sz, -1, p - 1, want) && sz[p] >= want
    ensures FirstFit(sz, want, p)
  {
  }

  lemma NothingFits(sz: seq<nat>, want: nat)
    requires NoneIn(sz, -1, |sz| - 1, want)
    ensures NoFit(sz, want)
  {
  }

  // No entry of the table is big enough, so no block is up to where the table reaches.
  lemma SearchedAll(sz: seq<nat>, ms: seq<int>, lim: int, want: nat)
    requires Maxima(sz, ms, lim) && forall k :: 0 <= k < |ms| ==> 0 <= ms[k] < |sz| && sz[ms[k]] < want
    ensures NoneIn(sz, -1, lim - 1, want)
  {
    forall j | 0 <= j < lim ensures sz[j] < want {
      if sz[j] >= want { FoundBelow(sz, ms, lim, want, j); }
    }
  }

  lemma FoundBelow(sz: seq<nat>, ms: seq<int>, lim: int, want: nat, j: nat)
    requires Maxima(sz, ms, lim) && j < lim && sz[j] >= want
    ensures exists k :: 0 <= k < |ms| && 0 <= ms[k] < |sz| && sz[ms[k]] >= want
  {
    var m := FirstAtLeast(sz, want, j);
    assert IsMax(sz, m);
    var k :| 0 <= k < |ms| && ms[k] == m;
    assert sz[ms[k]] >= want;
  }

  lemma ResumesAt(sz: seq<nat>, list: seq<int>, ms: seq<int>, lim: int)
    requires Maxima(sz, ms, lim) && Ascending(list) && |sz| == |list|
    ensures ms != [] ==>
      Resumes(list, ms, lim, if At(list, lim - 1) == FL_HEAD then NULL else At(list, lim - 1))
  {
    if ms != [] { MaximaBounds(sz, ms, lim); }
  }

  // Whether the next entry is a maximum.
  lemma NextMax(sz: seq<nat>, ms: seq<int>, lim: nat, list: seq<int>, flp: seq<int>)
    requires Maxima(sz, ms, lim) && lim < |sz| && sz[lim] >= 1 && EntriesAt(list, flp, ms)
    ensures if sz[lim] > MaxBelow(sz, lim) then
              Maxima(sz, ms + [lim], lim + 1) && EntriesAt(list, flp + [At(list, lim - 1)], ms + [lim])
            else Maxima(sz, ms, lim + 1)
    ensures MaxBelow(sz, lim + 1) == if sz[lim] > MaxBelow(sz, lim) then sz[lim] else MaxBelow(sz, lim)
  {
    MaxByBound(sz, lim);
    if sz[lim] > MaxBelow(sz, lim) { ExtendMax(sz, ms, lim); } else { ExtendNone(sz, ms, lim); }
  }

  lemma SmallStep(sz: seq<nat>, q: nat, want: nat)
    requires NoneIn(sz, -1, q - 1, want) && q < |sz| && want >= 1
    requires sz[q] <= MaxBelow(sz, q) || sz[q] < want
    ensures NoneIn(sz, -1, q, want)
  {
    MaxBelowIs(sz, q);
  }

  lemma EmptyTable(sz: seq<nat>, ms: seq<int>, lim: int)
    requires Maxima(sz, ms, lim) && ms == [] && forall j :: 0 <= j < |sz| ==> sz[j] >= 1
    ensures lim == 0
  {
    assert |sz| > 0 ==> IsMax(sz, 0);
  }

  lemma EntryPlace(hd: map<int, Hd>, next: map<int, int>, list: seq<int>, chunks: set<Chunk>, ms: seq<int>, lim: int,
                   flp: seq<int>, i: nat)
    requires HeapOk(hd, next, list, chunks) && Maxima(Sizes(hd, list), ms, lim) && EntriesAt(list, flp, ms) && i < |flp|
    ensures 0 <= ms[i] < |list| && flp[i] == At(list, ms[i] - 1) && flp[i] in next && next[flp[i]] == list[ms[i]]
    ensures list[ms[i]] in hd && hd[list[ms[i]]].size == Sizes(hd, list)[ms[i]]
    ensures 2 <= list[ms[i]]
  {
    ListFacts(hd, next, list, chunks, ms[i] - 1);
    ListFacts(hd, next, list, chunks, ms[i]);
  }

  // After allocate_block the table is half updated.
  lemma HalfMade(list0: seq<int>, list: seq<int>, sz0: seq<nat>, sz: seq<nat>, ms: seq<int>, lim: int,
                 flp0: seq<int>, flp: seq<int>, beyond0: int, beyond: int, i: nat, d: nat)
    requires Maxima(sz0, ms, lim) && i < |ms| && Ascending(list0) && |sz0| == |list0| && |sz| == |list|
    requires EntriesAt(list0, flp0, ms) && Lowered(sz0, sz, ms[i], d) && forall j :: 0 <= j < |sz0| ==> sz0[j] >= 1
    requires list == if d == 1 then Without(list0, ms[i]) else list0
    requires TableAfter(flp0, beyond0, i, At(list0, ms[i] - 1), list0[ms[i]], d == 1, flp, beyond)
    requires i < |ms| - 1 ==> Resumes(list0, ms, lim, beyond0)
    ensures HalfOk(list, sz0, sz, ms, lim, flp, beyond, i, d) && |flp| <= |flp0|
  {
    hide Maxima;
    hide Without;
    hide Lowered;
    MaximaBounds(sz0, ms, lim);
    LoweredIs(sz0, sz, ms[i], d);
    if d == 1 {
      HalfRemoved(list0, ms, lim, flp0, flp, beyond0, beyond, i);
    }
  }

  lemma HalfRemoved(list0: seq<int>, ms: seq<int>, lim: int, flp0: seq<int>, flp: seq<int>, beyond0: int, beyond: int,
                    i: nat)
    requires Ascending(list0) && 0 <= lim <= |list0| && i < |ms|
    requires (forall k :: 0 <= k < |ms| ==> 0 <= ms[k] < lim) && forall k, l :: 0 <= k < l < |ms| ==> ms[k] < ms[l]
    requires EntriesAt(list0, flp0, ms)
    requires TableAfter(flp0, beyond0, i, At(list0, ms[i] - 1), list0[ms[i]], true, flp, beyond)
    ensures var list := Without(list0, ms[i]);
      && (if i == |ms| - 1 then |flp| == i && (i > 0 ==> beyond == At(list, ms[i] - 1)) else |flp| == |ms|)
      && (forall k :: 0 <= k < |flp| && k <= i ==> flp[k] == At(list, ms[k] - 1))
      && (forall k :: i < k < |flp| ==> flp[k] == At(list, ms[k] - 1 - 1))
      && (i < |ms| - 1 && Resumes(list0, ms, lim, beyond0) ==>
            if beyond == NULL then lim == ms[|ms| - 1] + 1 else lim >= 1 && beyond == At(list, lim - 1 - 1))
  {
    var m := ms[i];
    var list := Without(list0, m);
    WithoutIs(list0, m);
    forall k | i < k < |flp| ensures flp[k] == At(list, ms[k] - 1 - 1) {
      AfterGap(list0, m, ms[k] - 1);
    }
    forall k | 0 <= k < |flp| && k <= i ensures flp[k] == At(list, ms[k] - 1) {
      assert ms[k] <= m;
    }
    if i > 0 { assert ms[i - 1] < m; }
    if i < |ms| - 1 { AfterGap(list0, m, lim - 1); }
  }

  // The entry at q, after the one removed at m, or the one before it.
  lemma AfterGap(list0: seq<int>, m: nat, q: int)
    requires Ascending(list0) && m < |list0| && m <= q
    ensures At(Without(list0, m), q - 1) == if q == m then At(list0, m - 1) else At(list0, q)
  {
    WithoutIs(list0, m);
  }

  // What the update reads before it knows which entry it deals with.
  lemma HalfSizes(list: seq<int>, sz0: seq<nat>, sz: seq<nat>, ms: seq<int>, lim: int, flp: seq<int>, beyond: int,
                  i: nat, d: nat)
    requires HalfOk(list, sz0, sz, ms, lim, flp, beyond, i, d)
    ensures i < |flp| ==> |flp| == |ms|
    ensures d <= 1 && (i < |flp| && i == |ms| - 1 ==> d == 0) && (i >= |flp| ==> i == |flp| == |ms| - 1 && d == 1)
    ensures i < |flp| && i > 0 ==>
      && 0 <= ms[i - 1] < |list| && flp[i - 1] == At(list, ms[i - 1] - 1) && 0 <= ms[i - 1] < |sz0|
      && sz[ms[i - 1]] == sz0[ms[i - 1]]
    ensures 0 <= ms[i]
  {
    assert IsMax(sz0, ms[i]);
    if i > 0 { assert IsMax(sz0, ms[i - 1]) && ms[i - 1] < ms[i]; }
  }

  lemma HalfGone(list: seq<int>, sz0: seq<nat>, sz: seq<nat>, ms: seq<int>, lim: int, flp: seq<int>, beyond: int,
                 i: nat, d: nat)
    requires HalfOk(list, sz0, sz, ms, lim, flp, beyond, i, d) && i == |flp| && i == |ms| - 1 && d == 1
    requires Ascending(list) && forall j :: 0 <= j < |sz| ==> sz[j] >= 1
    ensures Maxima(sz, ms[..i], ms[i]) && EntriesAt(list, flp, ms[..i])
    ensures flp != [] ==> Resumes(list, ms[..i], ms[i], beyond)
  {
    MaximaBounds(sz0, ms, lim);
    LowerLast(sz0, sz, ms, lim, d, if i == 0 then 0 else sz0[ms[i - 1]]);
  }

  // When the last entry of the table was reduced: what is left of the table.
  lemma HalfLast(list: seq<int>, sz0: seq<nat>, sz: seq<nat>, ms: seq<int>, lim: int, flp: seq<int>, beyond: int,
                 i: nat,
                 prevsz: nat)
    requires HalfOk(list, sz0, sz, ms, lim, flp, beyond, i, 0) && i == |flp| - 1 == |ms| - 1 && Ascending(list)
    requires prevsz == (if i == 0 then 0 else sz0[ms[i - 1]]) && forall j :: 0 <= j < |sz| ==> sz[j] >= 1
    ensures 0 <= ms[i] < |list| == |sz| && flp[i] == At(list, ms[i] - 1)
    ensures if sz[ms[i]] <= prevsz then
              Maxima(sz, ms[..i], ms[i] + 1) && EntriesAt(list, flp[..i], ms[..i])
              && (i > 0 ==> Resumes(list, ms[..i], ms[i] + 1, list[ms[i]]))
            else Maxima(sz, ms, ms[i] + 1) && EntriesAt(list, flp, ms) && Resumes(list, ms, ms[i] + 1, NULL)
  {
    LoweredIs(sz0, sz, ms[i], 0);
    MaximaBounds(sz0, ms, lim);
    LowerLast(sz0, sz, ms, lim, 0, prevsz);
  }

  lemma TooMany(sz: seq<nat>, ns: seq<int>, lim: nat, n: nat)
    requires Maxima(sz, ns, lim) && |ns| >= n
    ensures !Few(sz, n)
  {
    var all := Complete(sz, ns, lim);
  }

  lemma HalfFacts(list: seq<int>, sz0: seq<nat>, sz: seq<nat>, ms: seq<int>, lim: int, flp: seq<int>, beyond: int,
                  i: nat, d: nat)
    requires HalfOk(list, sz0, sz, ms, lim, flp, beyond, i, d) && i + 1 < |ms|
    ensures |flp| == |ms| && Maxima(sz0, ms, lim) && 0 <= lim <= |sz0| && Lowered(sz0, sz, ms[i], d) && d <= 1
    ensures 0 <= ms[i] < ms[i + 1] < |sz0| && |sz| == |sz0| - d && ms[i] <= ms[i + 1] - d < |list|
    ensures flp[i] == At(list, ms[i] - 1) && flp[i + 1] == At(list, ms[i + 1] - d - 1)
    ensures forall j :: 0 <= j < |sz0| ==> sz0[j] >= 1
    ensures i > 0 ==> sz0[ms[i - 1]] < sz0[ms[i]]
  {
    assert IsMax(sz0, ms[i]);
  }

  lemma MidTable(list: seq<int>, sz0: seq<nat>, sz: seq<nat>, ms: seq<int>, lim: int, flp: seq<int>, beyond: int,
                 i: nat, d: nat, buf: seq<int>, bs: seq<int>, top: nat)
    requires HalfOk(list, sz0, sz, ms, lim, flp, beyond, i, d) && i + 1 < |ms| && Ascending(list)
    requires (forall j :: 0 <= j < |sz| ==> sz[j] >= 1) && top == (if i == 0 then 0 else sz0[ms[i - 1]])
    requires Risers(sz, ms[i], ms[i + 1] - d, top, bs) && EntriesAt(list, buf, bs)
    ensures var ns, all := ms[..i] + bs + Shifted(ms[i + 1..], d), flp[..i] + buf + flp[i + 1..];
      && Maxima(sz, ns, lim - d) && EntriesAt(list, all, ns) && Resumes(list, ns, lim - d, beyond)
      && |all| == |ns| && forall k :: 0 <= k < |ns| ==> 0 <= ns[k] < |list| && all[k] == At(list, ns[k] - 1)
  {
    hide Risers;
    hide Lowered;
    hide Maxima;
    hide EntriesAt;
    var ns := ms[..i] + bs + Shifted(ms[i + 1..], d);
    MaximaBounds(sz0, ms, lim);
    LoweredIs(sz0, sz, ms[i], d);
    LowerMid(sz0, sz, ms, lim, i, d, bs, top);
    EntriesJoin(list, flp, ms, i, d, buf, bs);
    MaximaBounds(sz, ns, lim - d);
    EntriesMean(list, flp[..i] + buf + flp[i + 1..], ns);
    var n := |ns| - 1;
    assert ns[n] == ms[|ms| - 1] - d;
  }

  lemma EntriesNone(list: seq<int>)
    ensures EntriesAt(list, [], [])
  {
  }

  lemma EntriesSnoc(list: seq<int>, buf: seq<int>, bs: seq<int>, q: int)
    requires EntriesAt(list, buf, bs)
    ensures EntriesAt(list, buf + [At(list, q - 1)], bs + [q])
  {
  }

  lemma EntriesMean(list: seq<int>, buf: seq<int>, bs: seq<int>)
    requires EntriesAt(list, buf, bs)
    ensures |buf| == |bs| && forall k :: 0 <= k < |bs| ==> buf[k] == At(list, bs[k] - 1)
  {
  }

  lemma LoweredIs(sz0: seq<nat>, sz: seq<nat>, m: nat, d: nat)
    requires Lowered(sz0, sz, m, d)
    ensures m < |sz0| && |sz| == |sz0| - d && d <= 1
  {
  }

  // Each entry of buf is the one before the position in bs.
  ghost predicate EntriesAt(list: seq<int>, buf: seq<int>, bs: seq<int>) {
    |buf| == |bs| && forall j :: 0 <= j < |buf| ==> buf[j] == At(list, bs[j] - 1)
  }

  // The table between allocate_block and the update: entry i led to the block that was removed or
  // reduced, and is gone if it was the last and the block removed.
  ghost predicate HalfOk(list: seq<int>, sz0: seq<nat>, sz: seq<nat>, ms: seq<int>, lim: int, flp: seq<int>,
                         beyond: int, i: nat, d: nat)
  {
    && |sz| == |list| && Maxima(sz0, ms, lim) && i < |ms| && Lowered(sz0, sz, ms[i], d)
    && (forall j :: 0 <= j < |sz0| ==> sz0[j] >= 1)
    && (if d == 1 && i == |ms| - 1 then |flp| == i && (i > 0 ==> beyond == At(list, ms[i] - 1)) else |flp| == |ms|)
    && (forall k :: 0 <= k < |flp| && k <= i ==> flp[k] == At(list, ms[k] - 1))
    && (forall k :: i < k < |flp| ==> flp[k] == At(list, ms[k] - d - 1))
    && (i < |ms| - 1 ==>
          if beyond == NULL then lim == ms[|ms| - 1] + 1 else lim >= 1 && beyond == At(list, lim - d - 1))
  }

  lemma HeapList(hd: map<int, Hd>, next: map<int, int>, list: seq<int>, chunks: set<Chunk>)
    requires HeapOk(hd, next, list, chunks)
    ensures Ascending(list) && forall j :: 0 <= j < |list| ==> Sizes(hd, list)[j] >= 1
  {
    ListIn(hd, next, list);
  }

  lemma NoRisers(sz: seq<nat>, m: nat, top: nat)
    requires m <= |sz|
    ensures Risers(sz, m, m, top, []) && Crest(sz, m, m, top, top)
  {
  }

  lemma BetweenSmall(sz0: seq<nat>, sz: seq<nat>, m: nat, e: nat, d: nat)
    requires Lowered(sz0, sz, m, d) && m < e <= |sz0| && forall j :: 0 <= j < e ==> sz0[j] <= sz0[m]
    ensures e - d <= |sz| && forall j :: m <= j < e - d ==> sz[j] <= sz0[m]
  {
    forall j | m <= j < e - d ensures sz[j] <= sz0[m] {
      var k := j + d;
      if k > m { assert sz[k - d] == sz0[k]; }
    }
  }

  lemma EntriesJoin(list: seq<int>, flp: seq<int>, ms: seq<int>, i: nat, d: nat, buf: seq<int>, bs: seq<int>)
    requires |flp| == |ms| && i + 1 < |ms| && EntriesAt(list, buf, bs)
    requires forall k :: 0 <= k <= i ==> flp[k] == At(list, ms[k] - 1)
    requires forall k :: i < k < |flp| ==> flp[k] == At(list, ms[k] - d - 1)
    ensures EntriesAt(list, flp[..i] + buf + flp[i + 1..], ms[..i] + bs + Shifted(ms[i + 1..], d))
  {
  }

  // The entries after lo, up to hi, are too small.
  ghost predicate NoneIn(sz: seq<nat>, lo: int, hi: int, want: nat) {
    forall j :: 0 <= j < |sz| && lo < j <= hi ==> sz[j] < want
  }

  lemma NoneYet(sz: seq<nat>, want: nat)
    ensures forall q :: NoneIn(sz, q, q, want)
  {
  }

  lemma NoneMore(sz: seq<nat>, lo: int, q: int, want: nat)
    requires NoneIn(sz, lo, q, want) && 0 <= q + 1 < |sz| && sz[q + 1] < want
    ensures NoneIn(sz, lo, q + 1, want)
  {
  }

  lemma NoneAtAll(sz: seq<nat>, start: int, want: nat)
    requires NoneIn(sz, start, |sz| - 1, want) && NoneIn(sz, -1, start, want)
    ensures NoFit(sz, want)
  {
  }

  lemma FitsAfter(sz: seq<nat>, start: int, p: nat, want: nat)
    requires start < p < |sz| && NoneIn(sz, start, p - 1, want)
    ensures sz[p] >= want ==> NextFit(sz, start, want, p)
  {
  }

  lemma FitsBefore(sz: seq<nat>, start: int, p: nat, want: nat)
    requires p <= start < |sz| && NoneIn(sz, start, |sz| - 1, want) && NoneIn(sz, -1, p - 1, want)
    ensures sz[p] >= want ==> NextFit(sz, start, want, p)
  {
  }

  lemma NothingListed(hd: map<int, Hd>, next: map<int, int>, chunks: set<Chunk>, max: nat)
    requires Tiled(hd, chunks) && (forall b :: !IsBlue(hd, b)) && next == map[FL_HEAD := NULL]
    ensures HeapOk(hd, next, [], chunks) && Total(hd, []) == 0 && Separated(hd, max)
    ensures MergeAt([], FL_HEAD, 0, 0) && FragmentAt(hd, NULL, 0)
    ensures Maxima(Sizes(hd, []), [], 0) && EntriesAt([], [], [])
  {
    hide Tiled;
    forall p | -1 <= p < 0 ensures LinkAt(next, [], p) {
    }
  }

  lemma NothingFree()
    ensures HeapOk(map[], map[FL_HEAD := NULL], [], {})
  {
    var next := map[FL_HEAD := NULL];
    forall p | -1 <= p < 0 ensures LinkAt(next, [], p) {
    }
  }

  lemma PlaceOf(list: seq<int>, b: int) returns (i: int)
    requires b == FL_HEAD || b in list
    ensures -1 <= i < |list| && b == At(list, i)
  {
    if b == FL_HEAD { i := -1; } else { i :| 0 <= i < |list| && list[i] == b; }
  }

  lemma ListFacts(hd: map<int, Hd>, next: map<int, int>, list: seq<int>, chunks: set<Chunk>, p: int)
    requires HeapOk(hd, next, list, chunks) && -1 <= p < |list|
    ensures At(list, p) in next && next[At(list, p)] == At(list, p + 1) && Ascending(list)
    ensures p >= 0 ==> list[p] in hd && hd[list[p]].color == Blue && hd[list[p]].size >= 1
    ensures p >= 0 ==> Sizes(hd, list)[p] == hd[list[p]].size
  {
    EntryIs(hd, next, list, p);
  }

  lemma AtApart(hd: map<int, Hd>, next: map<int, int>, list: seq<int>, chunks: set<Chunk>, p: int, q: int)
    requires HeapOk(hd, next, list, chunks) && -1 <= p < |list| && -1 <= q < |list|
    ensures At(list, p) == At(list, q) <==> p == q
  {
    assert Ascending(list);
  }

  lemma PrevStays(list: seq<int>, p: nat)
    requires p < |list|
    ensures At(list, p - 1) == FL_HEAD || At(list, p - 1) in Without(list, p)
  {
    if p > 0 { assert Without(list, p)[p - 1] == list[p - 1]; }
  }

  // What allocate_block does to the table.
  ghost predicate TableAfter(flp: seq<int>, beyond: int, i: nat, prev: int, cur: int, removed: bool,
                             flp': seq<int>, beyond': int)
  {
    if !removed || i >= |flp| then flp' == flp && beyond' == beyond
    else if i == |flp| - 1 then flp' == flp[..i] && beyond' == if prev == FL_HEAD then NULL else prev
    else beyond' == beyond && flp' == if flp[i + 1] == cur then flp[i + 1 := prev] else flp
  }

  // A fragment is still there when the blocks in use are.
  lemma FragmentStays(hd: map<int, Hd>, hd': map<int, Hd>, f: int, x: int)
    requires FragmentAt(hd, f, x) && KeepsUsed(hd, hd')
    ensures FragmentAt(hd', f, x)
  {
  }

  lemma TakeHeap(hd: map<int, Hd>, next: map<int, int>, list: seq<int>, chunks: set<Chunk>, cur: int, whSz: nat,
                 color: Color)
    requires HeapOk(hd, next, list, chunks) && cur in hd && hd[cur].color == Blue && color != Blue
    requires 2 <= whSz <= hd[cur].size + 1
    ensures var hd', b := Taken(hd, cur, whSz, color), cur + hd[cur].size - whSz + 1;
      && KeepsUsed(hd, hd') && b in hd' && hd'[b] == Hd(whSz - 1, color)
      && hd' == (if hd[cur].size <= whSz then hd[cur := Hd(0, White)]
                 else hd[cur := Hd(hd[cur].size - whSz, Blue)])[b := Hd(whSz - 1, color)]
  {
    TakenFacts(hd, chunks, cur, whSz, color);
  }
}
