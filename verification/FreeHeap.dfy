// The heap as freelist.c sees it: chunks cut into blocks and fragments, and the chain of the free blocks.
module FreeHeap {
  import opened Header
  import opened Lists

  // The header before the block at bp, an address in words: the size without the header.
  datatype Hd = Hd(size: nat, color: Color)

  datatype Chunk = Chunk(lo: int, hi: int)

  const FL_HEAD: int := HEAD     // the sentinel, below every chunk

  function End(hd: map<int, Hd>, b: int): int
    requires b in hd
  {
    b + hd[b].size
  }

  // ---- Chunks are cut into blocks ----

  ghost predicate InChunk(chunks: set<Chunk>, lo: int, hi: int) {
    exists c :: c in chunks && c.lo <= lo && hi <= c.hi
  }

  ghost predicate Inside(hd: map<int, Hd>, chunks: set<Chunk>, b: int) {
    b in hd ==> 2 <= b && InChunk(chunks, b - 1, End(hd, b))
  }

  ghost predicate Apart(hd: map<int, Hd>, a: int, b: int) {
    a in hd && b in hd && a < b ==> End(hd, a) < b
  }

  ghost predicate Holds(hd: map<int, Hd>, b: int, x: int) {
    b in hd && b - 1 <= x < End(hd, b)
  }

  ghost predicate Covered(hd: map<int, Hd>, chunks: set<Chunk>, x: int) {
    InChunk(chunks, x, x + 1) ==> exists b :: Holds(hd, b, x)
  }

  // Every chunk is exactly cut into blocks and fragments; chunks do not touch.
  ghost predicate Tiled(hd: map<int, Hd>, chunks: set<Chunk>) {
    && (forall b :: Inside(hd, chunks, b))
    && (forall a, b :: Apart(hd, a, b))
    && (forall x :: Covered(hd, chunks, x))
    && (forall c, d :: c in chunks && d in chunks && c != d ==> c.hi < d.lo || d.hi < c.lo)
  }

  // Block b becomes one of size n and, after it, one of the rest.
  function Split(hd: map<int, Hd>, b: int, n: nat, left: Color, right: Color): map<int, Hd>
    requires b in hd && n < hd[b].size
  {
    hd[b := Hd(n, left)][b + n + 1 := Hd(hd[b].size - n - 1, right)]
  }

  lemma CoveredBy(hd: map<int, Hd>, chunks: set<Chunk>, x: int, b: int)
    requires Holds(hd, b, x)
    ensures Covered(hd, chunks, x)
  {
  }

  lemma SplitTiled(hd: map<int, Hd>, chunks: set<Chunk>, b: int, n: nat, left: Color, right: Color)
    requires Tiled(hd, chunks) && b in hd && n < hd[b].size
    ensures Tiled(Split(hd, b, n, left, right), chunks) && b + n + 1 !in hd
  {
    var hd', r := Split(hd, b, n, left, right), b + n + 1;
    assert Apart(hd, b, r);
    forall x ensures Inside(hd', chunks, x) {
      assert Inside(hd, chunks, x) && Inside(hd, chunks, b);
      if x == b || x == r {
        var c :| c in chunks && c.lo <= b - 1 && End(hd, b) <= c.hi;
      }
    }
    forall x, y ensures Apart(hd', x, y) {
      assert Apart(hd, x, y) && Apart(hd, b, y) && Apart(hd, x, b) && Apart(hd, b, x);
    }
    forall x ensures Covered(hd', chunks, x) {
      assert Covered(hd, chunks, x);
      if InChunk(chunks, x, x + 1) {
        var a :| Holds(hd, a, x);
        assert Apart(hd, a, r) && Apart(hd, b, a);
        CoveredBy(hd', chunks, x, if a == b && x >= b + n then r else a);
      }
    }
  }

  // Blocks a and b, which touch, become one.
  function Join(hd: map<int, Hd>, a: int, b: int, color: Color): map<int, Hd>
    requires a in hd && b in hd
  {
    (hd - {b})[a := Hd(hd[a].size + 1 + hd[b].size, color)]
  }

  lemma JoinTiled(hd: map<int, Hd>, chunks: set<Chunk>, a: int, b: int, color: Color)
    requires Tiled(hd, chunks) && a in hd && b in hd && End(hd, a) + 1 == b
    ensures Tiled(Join(hd, a, b, color), chunks)
  {
    var hd' := Join(hd, a, b, color);
    forall x ensures Inside(hd', chunks, x) {
      assert Inside(hd, chunks, x);
      if x == a {
        assert Inside(hd, chunks, a) && Inside(hd, chunks, b);
        var c :| c in chunks && c.lo <= a - 1 && End(hd, a) <= c.hi;
        var d :| d in chunks && d.lo <= b - 1 && End(hd, b) <= d.hi;
        assert c == d;
      }
    }
    forall x, y ensures Apart(hd', x, y) {
      assert Apart(hd, x, y) && Apart(hd, b, y) && Apart(hd, a, y) && Apart(hd, x, a) && Apart(hd, x, b);
    }
    forall x ensures Covered(hd', chunks, x) {
      assert Covered(hd, chunks, x);
      if InChunk(chunks, x, x + 1) {
        var e :| Holds(hd, e, x);
        assert Holds(hd', e, x) || Holds(hd', a, x);
      }
    }
  }

  lemma RecolorTiled(hd: map<int, Hd>, chunks: set<Chunk>, b: int, color: Color)
    requires Tiled(hd, chunks) && b in hd
    ensures Tiled(hd[b := Hd(hd[b].size, color)], chunks)
  {
    var hd' := hd[b := Hd(hd[b].size, color)];
    forall x ensures Inside(hd', chunks, x) {
      assert Inside(hd, chunks, x);
    }
    forall x, y ensures Apart(hd', x, y) {
      assert Apart(hd, x, y);
    }
    forall x ensures Covered(hd', chunks, x) {
      assert Covered(hd, chunks, x);
      if InChunk(chunks, x, x + 1) {
        var e :| Holds(hd, e, x);
        assert Holds(hd', e, x);
      }
    }
  }

  // A new chunk that is one block.
  lemma ChunkTiled(hd: map<int, Hd>, chunks: set<Chunk>, b: int, n: nat, color: Color)
    requires Tiled(hd, chunks) && 2 <= b
    requires forall c :: c in chunks ==> c.hi < b - 1 || b + n < c.lo
    ensures b !in hd && Tiled(hd[b := Hd(n, color)], chunks + {Chunk(b - 1, b + n)})
  {
    var hd', c' := hd[b := Hd(n, color)], Chunk(b - 1, b + n);
    var chunks' := chunks + {c'};
    assert Inside(hd, chunks, b);
    assert b !in hd;
    forall x ensures Inside(hd', chunks', x) {
      assert Inside(hd, chunks, x);
      if x == b {
        assert c' in chunks';
      } else if x in hd {
        var c :| c in chunks && c.lo <= x - 1 && End(hd, x) <= c.hi;
        assert c in chunks';
      }
    }
    forall x, y ensures Apart(hd', x, y) {
      assert Apart(hd, x, y) && Inside(hd, chunks, x) && Inside(hd, chunks, y);
    }
    forall x ensures Covered(hd', chunks', x) {
      assert Covered(hd, chunks, x);
      if InChunk(chunks', x, x + 1) {
        if InChunk(chunks, x, x + 1) {
          var e :| Holds(hd, e, x);
          assert Holds(hd', e, x);
        } else {
          assert Holds(hd', b, x);
        }
      }
    }
  }

  // ---- The free list ----

  // The list is the blue blocks; they have room for the link.
  ghost predicate IsBlue(hd: map<int, Hd>, b: int) {
    b in hd && hd[b].color == Blue
  }

  ghost predicate Listed(hd: map<int, Hd>, list: seq<int>, b: int) {
    && (IsBlue(hd, b) <==> b in list)
    && (b in list ==> hd[b].size >= 1)
  }

  // The size of the free blocks, with their headers.
  function Total(hd: map<int, Hd>, list: seq<int>): int {
    if list == [] then 0
    else Total(hd, list[..|list| - 1]) +
         (if list[|list| - 1] in hd then 1 + hd[list[|list| - 1]].size else 0)
  }

  // Free blocks that touch are too big to be one.
  ghost predicate NoTouch(hd: map<int, Hd>, max: nat, a: int, b: int) {
    IsBlue(hd, a) && IsBlue(hd, b) && End(hd, a) + 1 == b ==> hd[a].size + 1 + hd[b].size >= max
  }

  ghost predicate Separated(hd: map<int, Hd>, max: nat) {
    forall a, b :: NoTouch(hd, max, a, b)
  }

  ghost predicate ListOk(hd: map<int, Hd>, next: map<int, int>, list: seq<int>) {
    Ascending(list) && Linked(next, list) && forall b :: Listed(hd, list, b)
  }

  // ---- The total size ----

  lemma {:induction false} TotalSame(hd: map<int, Hd>, hd': map<int, Hd>, list: seq<int>)
    requires forall b :: b in list ==> b in hd && b in hd' && hd[b].size == hd'[b].size
    ensures Total(hd, list) == Total(hd', list)
  {
    if list == [] {
      assert Total(hd, list) == 0 && Total(hd', list) == 0;
    } else {
      var b := list[|list| - 1];
      assert b in list;
      TotalSame(hd, hd', list[..|list| - 1]);
      assert Total(hd, list) == Total(hd, list[..|list| - 1]) + 1 + hd[b].size;
      assert Total(hd', list) == Total(hd', list[..|list| - 1]) + 1 + hd'[b].size;
    }
  }

  lemma {:induction false} TotalParts(hd: map<int, Hd>, a: seq<int>, b: seq<int>)
    ensures Total(hd, a + b) == Total(hd, a) + Total(hd, b)
  {
    if b == [] {
      assert a + b == a;
    } else {
      assert (a + b)[..|a + b| - 1] == a + b[..|b| - 1];
      TotalParts(hd, a, b[..|b| - 1]);
    }
  }

  lemma TotalOne(hd: map<int, Hd>, list: seq<int>, p: nat)
    requires p < |list| && list[p] in hd
    ensures Total(hd, list) == Total(hd, Without(list, p)) + 1 + hd[list[p]].size
  {
    assert list == list[..p] + ([list[p]] + list[p + 1..]);
    TotalParts(hd, list[..p], [list[p]] + list[p + 1..]);
    TotalParts(hd, [list[p]], list[p + 1..]);
    TotalParts(hd, list[..p], list[p + 1..]);
    assert [list[p]][..0] == [];
    assert Total(hd, [list[p]][..0]) == 0;
  }
}
