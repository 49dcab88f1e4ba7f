// The marshaler: extern_rec, its trail, and its chain of output blocks.
module Extern {
  import opened Header
  import opened MarshalBytes
  import opened MarshalGraph
  import opened MarshalMirror
  import opened MarshalSizes

  const ENTRIES_PER_TRAIL_BLOCK: nat := 1025
  const SIZE_EXTERN_OUTPUT_BLOCK: nat := 8100
  const INTEXT_MAGIC_NUMBER: nat := 0x8495A6BE

  // How a call ends; but for Fine, with an exception.
  datatype Outcome = Fine | Invalid | NoMemory | Overflow | TooBig

  // What a block was before it was marked.
  datatype Entry = Entry(obj: nat, color: Color, field0: Word)

  function Concat<T>(blocks: seq<seq<T>>): seq<T> {
    if blocks == [] then [] else Concat(blocks[..|blocks| - 1]) + blocks[|blocks| - 1]
  }

  // ---- Marks ----

  function MarkedNode(o: Node, d: nat): Node
    requires o.words != []
  {
    Node(o.tag, Blue, o.words[0 := Mark(d)])
  }

  // The graph when the blocks in c are marked with their numbers.
  function MarkedSet(g: Graph, order: seq<nat>, c: set<nat>): Graph
    requires forall a :: a in c && a in g ==> a in order && g[a].words != []
  {
    map a | a in g :: if a in c then MarkedNode(g[a], IndexOf(order, a)) else g[a]
  }

  ghost predicate IsMarked(g: Graph, order: seq<nat>, c: set<nat>, heap: Graph) {
    && (forall a :: a in c && a in g ==> a in order && g[a].words != [])
    && heap == MarkedSet(g, order, c)
  }

  function Members(order: seq<nat>): set<nat> {
    set a | a in order
  }

  ghost predicate Honest(g: Graph, e: Entry) {
    e.obj in g && g[e.obj].words != [] && e.color == g[e.obj].color && e.field0 == g[e.obj].words[0]
  }

  // The entries of the blocks numbered.
  ghost predicate TrailOf(g: Graph, order: seq<nat>, es: seq<Entry>) {
    |es| == |order| && forall i :: 0 <= i < |es| ==> es[i].obj == order[i] && Honest(g, es[i])
  }

  ghost predicate TrailBlocks(trail: seq<seq<Entry>>) {
    && trail != [] && |trail[|trail| - 1]| <= ENTRIES_PER_TRAIL_BLOCK
    && forall i :: 0 <= i < |trail| - 1 ==> |trail[i]| == ENTRIES_PER_TRAIL_BLOCK
  }

  lemma Unmark(g: Graph, order: seq<nat>, c: set<nat>, heap: Graph, e: Entry)
    requires IsMarked(g, order, c, heap) && Honest(g, e)
    ensures e.obj in heap && heap[e.obj].words != []
    ensures var o := heap[e.obj];
      IsMarked(g, order, c - {e.obj}, heap[e.obj := Node(o.tag, e.color, o.words[0 := e.field0])])
  {
    var o, x := heap[e.obj], g[e.obj];
    assert o.words[0 := e.field0] == x.words;
  }

  lemma NoneMarked(g: Graph, order: seq<nat>, heap: Graph)
    requires IsMarked(g, order, {}, heap)
    ensures heap == g
  {
  }

  lemma StartUnmarked(g: Graph)
    ensures IsMarked(g, [], Members([]), g)
  {
  }

  lemma MarkOne(g: Graph, order: seq<nat>, heap: Graph, a: nat)
    requires IsMarked(g, order, Members(order), heap) && a in g && a !in order && g[a].words != []
    ensures a in heap && heap[a] == g[a]
    ensures IsMarked(g, order + [a], Members(order + [a]), heap[a := MarkedNode(g[a], |order|)])
  {
    var order', heap' := order + [a], heap[a := MarkedNode(g[a], |order|)];
    IndexOfLast(order, a);
    forall x | x in Members(order') && x in g ensures x in order' && g[x].words != [] {
      if x != a { assert x in Members(order); }
    }
    forall x | x in g && x in order ensures x in order' && IndexOf(order', x) == IndexOf(order, x) {
      IndexStays(order, order', x);
    }
    assert forall x :: x in Members(order') <==> x in Members(order) || x == a;
    var m := MarkedSet(g, order', Members(order'));
    forall x | x in g ensures heap'[x] == m[x] {
    }
    assert heap' == m;
  }

  lemma MarkedAt(g: Graph, order: seq<nat>, heap: Graph, a: nat)
    requires IsMarked(g, order, Members(order), heap) && a in g
    ensures a in heap && heap[a].tag == g[a].tag && |heap[a].words| == |g[a].words|
    ensures a in order ==> g[a].words != [] && heap[a].color == Blue && heap[a].words[0] == Mark(IndexOf(order, a))
    ensures a !in order ==> heap[a] == g[a]
    ensures forall i :: 1 <= i < |g[a].words| ==> heap[a].words[i] == g[a].words[i]
  {
    assert a in Members(order) <==> a in order;
  }

  lemma ConcatSnoc<T>(blocks: seq<seq<T>>, b: seq<T>)
    ensures Concat(blocks + [b]) == Concat(blocks) + b
  {
    assert (blocks + [b])[..|blocks|] == blocks;
  }

  lemma {:induction false} InConcat(trail: seq<seq<Entry>>, k: nat, e: Entry)
    requires k < |trail| && e in trail[k]
    ensures e in Concat(trail)
  {
    if k < |trail| - 1 { InConcat(trail[..|trail| - 1], k, e); }
  }

  lemma DivDiv(n: int, p: nat)
    requires p > 0
    ensures (n / p) / 256 == n / (256 * p)
  {
    var q, r := n / p, n % p;
    var q', r' := q / 256, q % 256;
    Distribute(p, q', r');
    DivUnique(n, 256 * p, q', p * r' + r);
  }

  // One more byte of a number, the most significant first.
  lemma BigMore(val: int, p: int, i: nat)
    requires i < 8 && p == Pow256(8 - i)
    ensures p / 256 == Pow256(8 - (i + 1)) > 0
    ensures Big(i + 1, val / (p / 256)) == Big(i, val / p) + [(val / (p / 256)) % 256]
  {
    DivDiv(val, p / 256);
    assert Big(i + 1, val / (p / 256)) == Big(i, val / (p / 256) / 256) + [(val / (p / 256)) % 256];
  }

  lemma BigEnds(val: int)
    ensures Pow256(8) == 0x1_0000_0000_0000_0000 && Pow256(0) == 1 && Big(0, val / Pow256(8)) == []
  {
    Powers();
  }

  lemma Distribute(p: nat, q: int, r: int)
    requires 0 <= r <= 255
    ensures p * (256 * q + r) == (256 * p) * q + p * r
    ensures 0 <= p * r <= 255 * p
  {
  }

  lemma DivUnique(n: int, d: nat, q: int, r: int)
    requires d > 0 && n == d * q + r && 0 <= r < d
    ensures n / d == q
  {
    ModUnique(n, d, q, r);
    assert d * (n / d) == d * q;
  }

  lemma Big4(n: int)
    ensures Big(4, n) == [(n / 0x100_0000) % 256, (n / 0x1_0000) % 256, (n / 0x100) % 256, n % 256]
  {
    DivDiv(n, 0x100);
    DivDiv(n, 0x1_0000);
    assert Big(4, n) == Big(3, n / 256) + [n % 256];
    assert Big(3, n / 256) == Big(2, n / 256 / 256) + [(n / 256) % 256];
    assert Big(2, n / 256 / 256) == Big(1, n / 256 / 256 / 256) + [(n / 256 / 256) % 256];
    assert Big(1, n / 256 / 256 / 256) == [(n / 256 / 256 / 256) % 256];
  }

  lemma Big2(n: int)
    ensures Big(2, n) == [(n / 0x100) % 256, n % 256]
    ensures Big(1, n) == [n % 256]
  {
    assert Big(2, n) == Big(1, n / 256) + [n % 256];
  }

  class Writer {
    var heap: Graph
    var trail: seq<seq<Entry>>        // the blocks of the trail, the current one last
    var user: bool                    // the caller gave the buffer
    var closed: seq<seq<Byte>>        // the output blocks before the current one
    var cur: seq<Byte>                // the current one, up to extern_ptr
    var cap: nat                      // and its size
    var objCounter: nat
    var size32: nat
    var size64: nat
    ghost var g: Graph                // the heap before the call
    ghost var order: seq<nat>         // the blocks numbered

    // init_extern_output.
    constructor (heap: Graph)
      ensures this.heap == heap && closed == [] && cur == [] && cap == SIZE_EXTERN_OUTPUT_BLOCK && !user
    {
      this.heap, user, closed, cur, cap := heap, false, [], [], SIZE_EXTERN_OUTPUT_BLOCK;
      trail, objCounter, size32, size64 := [[]], 0, 0, 0;
      g, order := heap, [];
    }

    ghost function Stream(): seq<Byte>
      reads `closed, `cur
    {
      Concat(closed) + cur
    }

    // How much of the first output block is in use.
    ghost function First(): nat
      reads `closed, `cur
    {
      if closed == [] then |cur| else |closed[0]|
    }

    // The graph is marked as the numbering says, and the trail can undo it.
    ghost predicate Marks()
      reads `g, `order, `objCounter, `heap, `trail
    {
      && GraphOk(g) && Numbered(g, order) && objCounter == |order|
      && IsMarked(g, order, Members(order), heap)
      && TrailBlocks(trail) && TrailOf(g, order, Concat(trail))
    }

    ghost predicate Restored()
      reads this
    {
      heap == g && trail == [[]]
    }

    // extern_replay_trail.
    method ReplayTrail()
      requires TrailBlocks(trail) && IsMarked(g, order, Members(order), heap) && TrailOf(g, order, Concat(trail))
      modifies `heap, `trail
      ensures Restored()
    {
      var k := |trail| - 1;
      ghost var c := Members(order);
      TrailStarts(g, order, trail);
      while true
        invariant 0 <= k < |trail| && trail == old(trail)
        invariant IsMarked(g, order, c, heap) && c <= Objs(Concat(trail[..k + 1]))
        invariant forall e :: e in Concat(trail) ==> Honest(g, e)
        decreases k
      {
        assert trail[..k + 1][..k] == trail[..k];
        ghost var rest := Objs(Concat(trail[..k]));
        assert trail[k][0..] == trail[k];
        ObjsMore(Concat(trail[..k]), trail[k]);
        for e := 0 to |trail[k]|
          invariant trail == old(trail)
          invariant IsMarked(g, order, c, heap) && c <= rest + Objs(trail[k][e..])
        {
          var ent := trail[k][e];
          InConcat(trail, k, ent);
          assert trail[k][e..] == [ent] + trail[k][e + 1..];
          ObjsMore([ent], trail[k][e + 1..]);
          Unmark(g, order, c, heap, ent);
          var o := heap[ent.obj];
          heap := heap[ent.obj := Node(o.tag, ent.color, o.words[0 := ent.field0])];
          c := c - {ent.obj};
        }
        assert trail[k][|trail[k]|..] == [];
        if k == 0 { break; }
        k := k - 1;
      }
      assert trail[..0] == [];
      assert c == {};
      NoneMarked(g, order, heap);
      trail := [[]];
    }

    // grow_extern_output.
    method Grow(required: nat) returns (r: Outcome)
      requires Marks()
      modifies `heap, `trail, `closed, `cur, `cap
      ensures r == Fine ==> First() >= old(First()) && (user ==> closed == old(closed))
      ensures r == Fine ==>
        && Marks() && heap == old(heap) && trail == old(trail)
        && Stream() == old(Stream()) && |cur| + required <= cap && !user
      ensures r == Fine || ((r == NoMemory || r == Overflow) && Restored())
    {
      hide Writer.Marks;
      hide TrailBlocks;
      hide TrailOf;
      hide IsMarked;
      hide Members;
      MarksFacts();
      if user {
        ReplayTrail();
        return Overflow;
      }
      var extra := if required <= SIZE_EXTERN_OUTPUT_BLOCK / 2 then 0 else required;
      var found: bool := *;
      if !found {
        ReplayTrail();
        return NoMemory;
      }
      ConcatSnoc(closed, cur);
      closed := closed + [cur];
      cur := [];
      cap := SIZE_EXTERN_OUTPUT_BLOCK + extra;
      r := Fine;
    }

    // The bytes bs were written and nothing else changed; or there was no room, and all is undone.
    twostate predicate Wrote(r: Outcome, bs: seq<Byte>)
      reads this
    {
      if r == Fine then
        && Marks() && heap == old(heap) && trail == old(trail) && Stream() == old(Stream()) + bs && |cur| <= cap
        && First() >= old(First()) && (user ==> closed == old(closed))
      else (r == NoMemory || r == Overflow) && Restored()
    }

    // Storing bytes, after making room for all of them.
    method Emit(bs: seq<Byte>) returns (r: Outcome)
      requires Marks()
      modifies `heap, `trail, `closed, `cur, `cap
      ensures Wrote(r, bs)
      ensures |old(cur)| + |bs| <= old(cap) ==> r == Fine && closed == old(closed)
    {
      r := Fine;
      if |cur| + |bs| > cap { r := Grow(|bs|); }
      if r == Fine {
        assert Concat(closed) + (cur + bs) == Concat(closed) + cur + bs;
        cur := cur + bs;
      }
    }

    method WriteCode8(code: Byte, val: int) returns (r: Outcome)
      requires Marks()
      modifies `heap, `trail, `closed, `cur, `cap
      ensures Wrote(r, [code] + Big(1, val))
    {
      Big2(val);
      r := Emit([code, val % 256]);
      assert [code] + Big(1, val) == [code, val % 256];
    }

    method WriteCode16(code: Byte, val: int) returns (r: Outcome)
      requires Marks()
      modifies `heap, `trail, `closed, `cur, `cap
      ensures Wrote(r, [code] + Big(2, val))
    {
      Big2(val);
      r := Emit([code, (val / 0x100) % 256, val % 256]);
      assert [code] + Big(2, val) == [code, (val / 0x100) % 256, val % 256];
    }

    method Write32(val: int) returns (r: Outcome)
      requires Marks()
      modifies `heap, `trail, `closed, `cur, `cap
      ensures Wrote(r, Big(4, val))
      ensures |old(cur)| + 4 <= old(cap) ==> r == Fine && closed == old(closed)
    {
      Big4(val);
      r := Emit([(val / 0x100_0000) % 256, (val / 0x1_0000) % 256, (val / 0x100) % 256, val % 256]);
    }

    method WriteCode32(code: Byte, val: int) returns (r: Outcome)
      requires Marks()
      modifies `heap, `trail, `closed, `cur, `cap
      ensures Wrote(r, [code] + Big(4, val))
    {
      Big4(val);
      var bs := [code, (val / 0x100_0000) % 256, (val / 0x1_0000) % 256, (val / 0x100) % 256, val % 256];
      assert bs == [code] + Big(4, val);
      r := Emit(bs);
    }

    method WriteCode64(code: Byte, val: int) returns (r: Outcome)
      requires Marks()
      modifies `heap, `trail, `closed, `cur, `cap
      ensures Wrote(r, [code] + Big(8, val))
    {
      hide Writer.Marks;
      hide Big;
      hide Pow256;
      BigEnds(val);
      r := Fine;
      if |cur| + 9 > cap { r := Grow(9); }
      if r != Fine { return; }
      ghost var before, chain := cur, closed;
      cur := cur + [code];
      var p, i := 0x1_0000_0000_0000_0000, 0;
      while i < 8
        invariant i <= 8 && p == Pow256(8 - i)
        invariant cur == before + ([code] + Big(i, val / p)) && |before| + 9 <= cap
        invariant First() >= old(First()) && (user ==> closed == old(closed))
        invariant Marks() && heap == old(heap) && trail == old(trail) && closed == chain
      {
        BigMore(val, p, i);
        p := p / 256;
        cur := cur + [(val / p) % 256];
        i := i + 1;
      }
      assert val / 1 == val;
      assert Concat(closed) + cur == (Concat(closed) + before) + ([code] + Big(8, val));
    }

    method WriteInt(n: int) returns (r: Outcome)
      requires Marks()
      modifies `heap, `trail, `closed, `cur, `cap
      ensures Wrote(r, EncodeInt(n))
    {
      hide Writer.Marks;
      hide Big;
      if 0 <= n < 0x40 {
        r := Emit([0x40 + n]);
      } else if -0x80 <= n < 0x80 {
        r := WriteCode8(CODE_INT8, n);
      } else if -0x8000 <= n < 0x8000 {
        r := WriteCode16(CODE_INT16, n);
      } else if n < -0x8000_0000 || n >= 0x8000_0000 {
        r := WriteCode64(CODE_INT64, n);
      } else {
        r := WriteCode32(CODE_INT32, n);
      }
    }

    method WriteBlk(size: nat, tag: nat, color: nat) returns (r: Outcome)
      requires Marks()
      modifies `heap, `trail, `closed, `cur, `cap
      ensures Wrote(r, EncodeBlk(size, tag, color))
    {
      hide Writer.Marks;
      hide Big;
      var hd := size * 1024 + color * 256 + tag;
      if tag < 16 && size < 8 {
        r := Emit([0x80 + tag + size * 16]);
      } else if hd >= 0x1_0000_0000 {
        r := WriteCode64(CODE_BLOCK64, hd);
      } else {
        r := WriteCode32(CODE_BLOCK32, hd);
      }
    }

    method WriteShared(d: nat) returns (r: Outcome)
      requires Marks()
      modifies `heap, `trail, `closed, `cur, `cap
      ensures Wrote(r, EncodeShared(d))
    {
      hide Writer.Marks;
      hide Big;
      if d < 0x100 {
        r := WriteCode8(CODE_SHARED8, d);
      } else if d < 0x1_0000 {
        r := WriteCode16(CODE_SHARED16, d);
      } else {
        r := WriteCode32(CODE_SHARED32, d);
      }
    }

    method WriteStr(s: seq<Byte>) returns (r: Outcome)
      requires Marks()
      modifies `heap, `trail, `closed, `cur, `cap
      ensures Wrote(r, EncodeStr(s))
    {
      hide Writer.Marks;
      hide Big;
      ghost var before := Stream();
      ghost var h := EncodeStr(s)[..|EncodeStr(s)| - |s|];
      if |s| < 0x20 {
        r := Emit([0x20 + |s|]);
        assert h == [0x20 + |s|];
      } else if |s| < 0x100 {
        r := WriteCode8(CODE_STRING8, |s|);
        assert h == [CODE_STRING8] + Big(1, |s|);
      } else {
        r := WriteCode32(CODE_STRING32, |s|);
        assert h == [CODE_STRING32] + Big(4, |s|);
      }
      if r == Fine {
        r := Emit(s);
        assert before + h + s == before + (h + s);
        assert h + s == EncodeStr(s);
      }
    }

    // The serialize functions of int32, int64 and nativeint (ints.c).
    method Serialize(kind: Kind, n: int) returns (r: Outcome)
      requires Marks()
      modifies `heap, `trail, `closed, `cur, `cap
      ensures Wrote(r, EncodeData(kind, n))
    {
      hide Writer.Marks;
      hide Big;
      ghost var before := Stream();
      match kind {
        case Int32 => r := Write32(n);
        case Int64 => r := Emit(Big(8, n));
        case NativeInt =>
          if -0x8000_0000 <= n <= 0x7FFF_FFFF {
            r := Emit([1]);
            if r != Fine { return; }
            r := Write32(n);
            assert before + [1] + Big(4, n) == before + ([1] + Big(4, n));
          } else {
            r := Emit([2]);
            if r != Fine { return; }
            r := Emit(Big(8, n));
            assert before + [2] + Big(8, n) == before + ([2] + Big(8, n));
          }
      }
    }

    method WriteCustom(kind: Kind, n: int) returns (r: Outcome)
      requires Marks()
      modifies `heap, `trail, `closed, `cur, `cap
      ensures Wrote(r, Encode(Custom(kind, n)))
    {
      hide Writer.Marks;
      hide EncodeData;
      ghost var before := Stream();
      r := Emit([CODE_CUSTOM]);
      if r != Fine { return; }
      r := Emit(Ident(kind));
      if r != Fine { return; }
      r := Serialize(kind, n);
      assert before + [CODE_CUSTOM] + Ident(kind) + EncodeData(kind, n) ==
             before + ([CODE_CUSTOM] + Ident(kind) + EncodeData(kind, n));
    }

    // A new trail block when the current one is full.
    method TrailRoom() returns (r: Outcome)
      requires Marks()
      modifies `heap, `trail
      ensures r == Fine ==> Marks() && heap == old(heap) && |trail[|trail| - 1]| < ENTRIES_PER_TRAIL_BLOCK
      ensures r == Fine || (r == NoMemory && Restored())
    {
      if |trail[|trail| - 1]| == ENTRIES_PER_TRAIL_BLOCK {
        var found: bool := *;
        if !found {
          ReplayTrail();
          return NoMemory;
        }
        ConcatSnoc(trail, []);
        assert Concat(trail) + [] == Concat(trail);
        trail := trail + [[]];
      }
      r := Fine;
    }

    // extern_record_location.
    method RecordLocation(a: nat) returns (r: Outcome)
      requires Marks() && a in g && a !in order && NumberedOk(g, a)
      modifies `heap, `trail, `objCounter, `order
      ensures r == Fine ==> Marks() && order == old(order) + [a]
      ensures r == Fine || (r == NoMemory && Restored())
    {
      hide GraphOk;
      hide Numbered;
      hide TrailOf;
      hide IsMarked;
      r := TrailRoom();
      if r != Fine { return; }
      MarkOne(g, order, heap, a);
      NumberedSnoc(g, order, a);
      var o := heap[a];
      var ent := Entry(a, o.color, o.words[0]);
      TrailSnoc(g, order, trail, ent);
      trail := trail[..|trail| - 1] + [trail[|trail| - 1] + [ent]];
      heap := heap[a := Node(o.tag, Blue, o.words[0 := Mark(objCounter)])];
      objCounter := objCounter + 1;
      order := order + [a];
    }

    ghost function Snap(): Snapshot
      reads `g, `order, `closed, `cur, `size32, `size64, `user
    {
      Snapshot(g, order, Stream(), size32, size64, user)
    }

    lemma MarksFacts()
      requires Marks()
      ensures GraphOk(g) && Numbered(g, order) && objCounter == |order| && heap.Keys == g.Keys
      ensures IsMarked(g, order, Members(order), heap)
      ensures TrailBlocks(trail) && TrailOf(g, order, Concat(trail))
    {
    }

    lemma StartMarks()
      requires GraphOk(g) && heap == g && order == [] && objCounter == 0 && trail == [[]]
      ensures Marks()
    {
      StartUnmarked(g);
      assert Concat(trail) == [];
    }

    // What v is, forwarding blocks bypassed: the first test of extern_rec on a block.
    method LookAt(v: Word) returns (w: Word)
      requires Marks()
      ensures w == Look(g, order, v)
    {
      hide Writer.Marks;
      hide GraphOk;
      hide Numbered;
      hide TrailOf;
      hide IsMarked;
      MarksFacts();
      LookMeans(g, order, heap, v);
      w := v;
      if v.Ptr? && v.a in heap {
        if heap[v.a].tag == FORWARD_TAG {
          var f := heap[v.a].words[0];
          if f.Mark? {
            // The number, taken for a value: an integer if it is odd, else a pointer to nowhere.
            if f.d % 2 == 1 { w := Imm(f.d / 2); }
          } else if f.Imm? {
            w := f;
          } else if f.Ptr? && f.a in heap {
            var t := heap[f.a].tag;
            if t != FORWARD_TAG && t != LAZY_TAG && t != DOUBLE_TAG { w := f; }
          }
        }
      }
    }

    // Before an exception.
    method UndoAll()
      requires Marks()
      modifies `heap, `trail
      ensures Restored()
    {
      ReplayTrail();
    }

    // The header of a block of values that has not been seen.
    method ExternHeader(a: nat, size: nat, tag: nat) returns (r: Outcome)
      requires Marks() && ToVisit(g, order, a) && size == |g[a].words| && tag == g[a].tag
      modifies `heap, `trail, `closed, `cur, `cap, `objCounter, `size32, `size64, `order
      ensures r == Fine ==> First() >= old(First()) && (user ==> closed == old(closed))
      ensures r == Fine ==> Marks() && |cur| <= cap && Snap() == Headed(old(Snap()), a)
      ensures g == old(g) && (r != Fine ==> Restored())
      ensures r == Fine || r == NoMemory || r == Overflow
    {
      hide Writer.Marks;
      hide EncodeBlk;
      r := WriteBlk(size, tag, 0);
      if r != Fine { return; }
      size32 := size32 + 1 + size;
      size64 := size64 + 1 + size;
      r := RecordLocation(a);
    }

    // extern_rec on such a block.  Field 0 is read before the mark takes its place.
    method ExternBlock(a: nat) returns (r: Outcome)
      requires Marks() && ToVisit(g, order, a) && IsPlain(g, a)
      modifies `heap, `trail, `closed, `cur, `cap, `objCounter, `size32, `size64, `order
      ensures r == Fine ==> First() >= old(First()) && (user ==> closed == old(closed))
      ensures r == Fine ==> Marks() && |cur| <= cap
      ensures r == Fine ==>
        AfterVisit(Headed(old(Snap()), a), VisitAll(old(g), old(order) + [a], old(g)[a].words), Snap())
      ensures r == Invalid ==> VisitAll(old(g), old(order) + [a], old(g)[a].words).Refused?
      ensures g == old(g) && (r != Fine ==> Restored())
      ensures r != TooBig
      decreases Rank(g, order), 0
    {
      hide Writer.Marks;
      hide Writer.Stream;
      hide Writer.First;
      hide AfterVisit;
      hide GraphOk;
      hide Numbered;
      hide TrailOf;
      hide IsMarked;
      hide Visit;
      hide VisitAll;
      hide Rank;
      hide Headed;
      MarksFacts();
      ghost var s := Snap();
      RankLess(g, order, a);
      MarkedAt(g, order, heap, a);
      var size, field0 := |heap[a].words|, heap[a].words[0];
      r := ExternHeader(a, size, heap[a].tag);
      if r != Fine { return; }
      HeadedOrder(s, a);
      r := ExternFields(a, size, field0);
    }

    // The fields of a block that has been marked.
    method ExternFields(a: nat, size: nat, field0: Word) returns (r: Outcome)
      requires Marks() && a in g && IsPlain(g, a)
      requires size == |g[a].words| > 0 && field0 == g[a].words[0] && |cur| <= cap
      modifies `heap, `trail, `closed, `cur, `cap, `objCounter, `size32, `size64, `order
      ensures r == Fine ==> First() >= old(First()) && (user ==> closed == old(closed))
      ensures r == Fine ==> Marks() && |cur| <= cap
      ensures r == Fine ==> AfterVisit(old(Snap()), VisitAll(old(g), old(order), old(g)[a].words), Snap())
      ensures r == Invalid ==> VisitAll(old(g), old(order), old(g)[a].words).Refused?
      ensures g == old(g) && (r != Fine ==> Restored())
      ensures r != TooBig
      decreases Rank(g, order), 2
    {
      hide Writer.Marks;
      hide Writer.Stream;
      hide Writer.First;
      hide AfterVisit;
      hide GraphOk;
      hide Numbered;
      hide TrailOf;
      hide IsMarked;
      hide Visit;
      hide VisitAll;
      hide Rank;
      MarksFacts();
      ghost var s, vs := Snap(), g[a].words;
      VisitNone(s, s.g, vs);
      var i := 0;
      r := Fine;
      while i < size
        invariant i <= size && Marks() && g == s.g && |cur| <= cap && r == Fine
        invariant AfterVisit(s, VisitAll(s.g, s.order, vs[..i]), Snap()) && First() >= old(First())
        invariant (user ==> closed == old(closed))
        decreases size - i
      {
        MarksFacts();
        MarkedAt(g, order, heap, a);
        RankVisited(s, s.g, vs[..i], Snap());
        ghost var s2 := Snap();
        var f := if i == 0 then field0 else heap[a].words[i];
        r := ExternRec(f);
        VisitNext(s, s2, s.g, vs, i, Snap(), r);
        if r != Fine { return; }
        i := i + 1;
      }
      assert vs[..size] == vs;
    }

    // A string that has not been seen.
    method ExternStr(a: nat, str: seq<Byte>) returns (r: Outcome)
      requires Marks() && ToVisit(g, order, a)
      modifies `heap, `trail, `closed, `cur, `cap, `objCounter, `size32, `size64, `order
      ensures r == Fine ==> First() >= old(First()) && (user ==> closed == old(closed))
      ensures r == Fine ==> Marks() && |cur| <= cap && Snap() == StrSaid(old(Snap()), a, str)
      ensures g == old(g) && (r != Fine ==> Restored())
      ensures r == Fine || r == NoMemory || r == Overflow
    {
      hide Writer.Marks;
      hide EncodeStr;
      r := WriteStr(str);
      if r != Fine { return; }
      size32 := size32 + 1 + (|str| + 4) / 4;
      size64 := size64 + 1 + (|str| + 8) / 8;
      r := RecordLocation(a);
    }

    // A custom block that has not been seen.
    method ExternCustom(a: nat, kind: Kind, n: int) returns (r: Outcome)
      requires Marks() && ToVisit(g, order, a)
      modifies `heap, `trail, `closed, `cur, `cap, `objCounter, `size32, `size64, `order
      ensures r == Fine ==> First() >= old(First()) && (user ==> closed == old(closed))
      ensures r == Fine ==> Marks() && |cur| <= cap && Snap() == CustomSaid(old(Snap()), a, kind, n)
      ensures g == old(g) && (r != Fine ==> Restored())
      ensures r == Fine || r == NoMemory || r == Overflow
    {
      hide Writer.Marks;
      hide Encode;
      r := WriteCustom(kind, n);
      if r != Fine { return; }
      size32 := size32 + 2 + (if kind == Int64 then 2 else 1);
      size64 := size64 + 3;
      r := RecordLocation(a);
    }

    // extern_rec.
    method ExternRec(v: Word) returns (r: Outcome)
      requires Marks()
      modifies `heap, `trail, `closed, `cur, `cap, `objCounter, `size32, `size64, `order
      ensures r == Fine ==> First() >= old(First()) && (user ==> closed == old(closed))
      ensures r == Fine ==> Marks() && |cur| <= cap
      ensures r == Fine ==> AfterVisit(old(Snap()), Visit(old(g), old(order), v), Snap())
      ensures r == Invalid ==> Visit(old(g), old(order), v).Refused?
      ensures g == old(g) && (r != Fine ==> Restored())
      ensures r != TooBig
      decreases Rank(g, order), 1
    {
      hide Writer.Marks;
      hide Writer.Stream;
      hide Writer.First;
      hide AfterVisit;
      hide GraphOk;
      hide Numbered;
      hide TrailOf;
      hide IsMarked;
      hide Look;
      hide Encode;
      hide EncodeAll;
      hide StringOk;
      hide StringOf;
      hide RawWords;
      hide Visit;
      hide VisitAll;
      hide EncodeBlk;
      hide EncodeStr;
      hide EncodeInt;
      hide EncodeShared;
      hide Headed;
      hide StrSaid;
      hide CustomSaid;
      hide Rank;
      MarksFacts();
      ghost var s := Snap();
      var w := LookAt(v);
      if w.Imm? {
        r := WriteInt(w.n);
        if r == Fine { SaidImm(s, v, w.n, Snap()); }
        return;
      }
      if !w.Ptr? || w.a !in heap {
        SaidNothing(g, order, v);
        UndoAll();
        return Invalid;
      }
      var a := w.a;
      MarkedAt(g, order, heap, a);
      NodeFacts(g, order, heap, v, a);
      var tag := heap[a].tag;
      if heap[a].words == [] {
        r := WriteBlk(0, tag, AtomColor(heap[a]));
        if r == Fine { SaidAtom(s, v, a, Snap()); }
      } else if heap[a].color == Blue {
        r := WriteShared(objCounter - heap[a].words[0].d);
        if r == Fine { SaidShared(s, v, a, Snap()); }
      } else if tag == STRING_TAG {
        var str := StringOf(heap[a].words);
        r := ExternStr(a, str);
        if r == Fine { SaidStr(s, v, a, str, Snap()); }
      } else if tag == ABSTRACT_TAG {
        SaidNothing(g, order, v);
        UndoAll();
        return Invalid;
      } else if tag == CUSTOM_TAG {
        var kind, n := heap[a].words[0].kind, heap[a].words[1].n;
        if kind.None? {
          SaidNothing(g, order, v);
          UndoAll();
          return Invalid;
        }
        r := ExternCustom(a, kind.value, n);
        if r == Fine { SaidCustom(s, v, a, kind.value, n, Snap()); }
      } else {
        r := ExternBlock(a);
        SaidNode(s, v, a, Snap(), r);
      }
    }

    // extern_output_length.
    method OutputLength() returns (len: nat)
      ensures len == |Stream()|
    {
      len := 0;
      for i := 0 to |closed|
        invariant len == |Concat(closed[..i])|
      {
        assert closed[..i + 1] == closed[..i] + [closed[i]];
        ConcatSnoc(closed[..i], closed[i]);
        len := len + |closed[i]|;
      }
      assert closed[..|closed|] == closed;
      len := len + |cur|;
    }

    // Gathering the output blocks, as in caml_output_value_to_string.
    method Gather() returns (bytes: seq<Byte>)
      ensures bytes == Stream()
    {
      bytes := [];
      for i := 0 to |closed|
        invariant bytes == Concat(closed[..i])
      {
        assert closed[..i + 1] == closed[..i] + [closed[i]];
        ConcatSnoc(closed[..i], closed[i]);
        bytes := bytes + closed[i];
      }
      assert closed[..|closed|] == closed;
      bytes := bytes + cur;
    }

    // Writing the sizes over the room left for them, in the first output block.
    method WriteSizes(h: seq<Byte>)
      requires First() >= 4 + |h|
      modifies `closed, `cur
      ensures |Stream()| == |old(Stream())| >= 4 + |h| && Stream() == Patch(old(Stream()), h)
      ensures |cur| == |old(cur)| && (old(closed) == [] ==> closed == [])
    {
      if closed == [] {
        cur := Patch(cur, h);
        assert Concat<Byte>([]) + cur == cur;
        assert Concat<Byte>([]) + old(cur) == old(cur);
      } else {
        PatchFirst(closed, h);
        PatchMore(Concat(closed), cur, h);
        closed := closed[0 := Patch(closed[0], h)];
      }
    }

    // The magic number and the room for the sizes.
    method StartOutput() returns (r: Outcome)
      requires Marks() && closed == [] && cur == [] && (!user ==> cap == SIZE_EXTERN_OUTPUT_BLOCK)
      modifies `heap, `trail, `closed, `cur, `cap
      ensures r == Fine ==> Marks() && |Stream()| == 20 && Stream()[..4] == Big(4, INTEXT_MAGIC_NUMBER)
      ensures r == Fine ==> First() >= 20 && (user ==> closed == old(closed))
      ensures r == Fine || ((r == NoMemory || r == Overflow) && Restored())
    {
      hide Writer.Marks;
      r := Write32(INTEXT_MAGIC_NUMBER);
      if r != Fine { return; }
      var room: seq<Byte> := seq(16, _ => 0);
      assert Concat(closed) + (cur + room) == Concat(closed) + cur + room;
      cur := cur + room;
    }

    // The magic number, the room for the sizes, and the value; the marks are taken back.
    method ExternAll(v: Word) returns (r: Outcome, ghost start: seq<Byte>)
      requires Marks() && order == [] && closed == [] && cur == [] && size32 == size64 == 0
      requires !user ==> cap == SIZE_EXTERN_OUTPUT_BLOCK
      modifies `heap, `trail, `closed, `cur, `cap, `objCounter, `size32, `size64, `order
      ensures heap == g && r != TooBig && (r == Invalid ==> Visit(g, [], v).Refused?)
      ensures r == Fine ==> Visit(g, [], v).Said? && |start| == 20 && start[..4] == Big(4, INTEXT_MAGIC_NUMBER)
      ensures r == Fine ==> Stream() == start + EncodeAll(Visit(g, [], v).t.toks) && First() >= 20
      ensures r == Fine ==> Counted(Visit(g, [], v).t) && |cur| <= cap && (user ==> closed == [])
    {
      hide Writer.Marks;
      hide GraphOk;
      hide Visit;
      hide EncodeAll;
      hide Sum32;
      hide Sum64;
      hide Big;
      hide Numbered;
      MarksFacts();
      r := StartOutput();
      start := Stream();
      if r != Fine { return; }
      r := ExternRec(v);
      if r != Fine { return; }
      MarksFacts();
      VisitNumbering(g, v);
      ReplayTrail();
    }

    // The counters are those of the visit.
    ghost predicate Counted(t: Trace)
      reads `objCounter, `size32, `size64
    {
      objCounter == |t.copies| && size32 == Sum32(t.copies) && size64 == Sum64(t.copies)
    }

    // extern_value, when sharing is on.  However it ends, the heap is as it was.
    method ExternValue(v: Word) returns (r: Outcome, len: nat)
      requires GraphOk(heap) && closed == [] && cur == [] && (!user ==> cap == SIZE_EXTERN_OUTPUT_BLOCK)
      modifies `heap, `trail, `closed, `cur, `cap, `objCounter, `size32, `size64, `g, `order
      ensures heap == old(heap) && user == old(user)
      ensures r == Fine ==> Visit(old(heap), [], v).Said? && Small(Visit(old(heap), [], v).t)
      ensures r == Fine ==> Stream() == Marshaled(Visit(old(heap), [], v).t) && len == |Stream()|
      ensures r == Fine && user ==> closed == [] && |cur| <= cap
      ensures r == Invalid ==> Visit(old(heap), [], v).Refused?
      ensures r == TooBig ==> Visit(old(heap), [], v).Said? && !Small(Visit(old(heap), [], v).t)
    {
      hide Writer.Marks;
      hide GraphOk;
      hide Visit;
      hide EncodeAll;
      hide Sum32;
      hide Sum64;
      hide Big;
      hide Marshaled;
      hide Small;
      hide Numbered;
      hide Counted;
      len := 0;
      trail, objCounter, size32, size64 := [[]], 0, 0, 0;
      g, order := heap, [];
      StartMarks();
      ghost var start;
      r, start := ExternAll(v);
      if r == Fine { r, len := FinishOutput(start, Visit(g, [], v).t); }
    }

    // The end of extern_value: the size limits, and the sizes.
    method FinishOutput(ghost start: seq<Byte>, ghost t: Trace) returns (r: Outcome, len: nat)
      requires Stream() == start + EncodeAll(t.toks) && First() >= 20
      requires |start| == 20 && start[..4] == Big(4, INTEXT_MAGIC_NUMBER)
      requires Counted(t)
      modifies `closed, `cur
      ensures r == if Small(t) then Fine else TooBig
      ensures r == Fine ==> Stream() == Marshaled(t) && len == |Stream()|
      ensures |cur| == |old(cur)| && (old(closed) == [] ==> closed == [])
    {
      hide EncodeAll;
      hide Sum32;
      hide Sum64;
      hide Big;
      r := Fine;
      len := OutputLength();
      if len >= 0x1_0000_0000 || size32 >= 0x1_0000_0000 || size64 >= 0x1_0000_0000 {
        r := TooBig;
        return;
      }
      var h := Big(4, len - 20) + Big(4, objCounter) + Big(4, size32) + Big(4, size64);
      Assemble(start, h, t);
      WriteSizes(h);
    }
  }

  // ---- The whole output ----

  // What is written for a visit: the magic number, the sizes, and the tokens.
  function Marshaled(t: Trace): seq<Byte> {
    Big(4, INTEXT_MAGIC_NUMBER) + Sizes(t) + EncodeAll(t.toks)
  }

  // The length of the tokens, the number of blocks, and their sizes.
  function Sizes(t: Trace): (h: seq<Byte>)
    ensures |h| == 16
  {
    Big(4, |EncodeAll(t.toks)|) + Big(4, |t.copies|) + Big(4, Sum32(t.copies)) + Big(4, Sum64(t.copies))
  }

  // The output for the integer 1, and for a string of 5 bytes.
  lemma MarshaledBytes(s: seq<Byte>, t: Trace, u: Trace)
    requires |s| == 5 && t.toks == [Int(1)] && t.copies == [] && u.toks == [Str(s)] && u.copies == [CStr(s)]
    ensures Marshaled(t) == [0x84, 0x95, 0xA6, 0xBE, 0, 0, 0, 1, 0, 0, 0, 0, 0, 0, 0, 0, 0, 0, 0, 0, 0x41]
    ensures Marshaled(u) == [0x84, 0x95, 0xA6, 0xBE, 0, 0, 0, 6, 0, 0, 0, 1, 0, 0, 0, 3, 0, 0, 0, 2, 0x25] + s
  {
    hide Big;
    hide Encode;
    hide EncodeAll;
    hide Size32;
    hide Size64;
    MagicBytes(s);
    EncodeOne(Int(1));
    EncodeOne(Str(s));
    SumOne(CStr(s));
    assert Size32(CStr(s)) == 3 && Size64(CStr(s)) == 2 by { SizesFit(s, 0); }
    SmallBytes(0);
    SmallBytes(1);
    SmallBytes(2);
    SmallBytes(3);
    SmallBytes(6);
  }

  lemma MagicBytes(s: seq<Byte>)
    requires |s| == 5
    ensures Big(4, INTEXT_MAGIC_NUMBER) == [0x84, 0x95, 0xA6, 0xBE]
    ensures Encode(Int(1)) == [0x41] && Encode(Str(s)) == [0x25] + s
  {
    hide Big;
    NumberBytes(INTEXT_MAGIC_NUMBER);
  }

  lemma SmallBytes(n: nat)
    requires n < 256
    ensures Big(4, n) == [0, 0, 0, n]
  {
    hide Big;
    NumberBytes(n);
  }

  predicate Small(t: Trace) {
    && 20 + |EncodeAll(t.toks)| < 0x1_0000_0000
    && Sum32(t.copies) < 0x1_0000_0000 && Sum64(t.copies) < 0x1_0000_0000
  }

  function Patch(s: seq<Byte>, h: seq<Byte>): seq<Byte>
    requires |s| >= 4 + |h|
  {
    s[..4] + h + s[4 + |h|..]
  }

  lemma PatchMore(s: seq<Byte>, last: seq<Byte>, h: seq<Byte>)
    requires |s| >= 4 + |h|
    ensures Patch(s, h) + last == Patch(s + last, h)
  {
  }

  lemma {:induction false} PatchFirst(blocks: seq<seq<Byte>>, h: seq<Byte>)
    requires blocks != [] && |blocks[0]| >= 4 + |h|
    ensures |Concat(blocks)| >= |blocks[0]|
    ensures Concat(blocks[0 := Patch(blocks[0], h)]) == Patch(Concat(blocks), h)
  {
    var n, blocks' := |blocks| - 1, blocks[0 := Patch(blocks[0], h)];
    if n == 0 {
      assert blocks[..0] == [] && blocks'[..0] == [];
      assert Concat(blocks[..0]) + blocks[0] == blocks[0];
      assert Concat(blocks'[..0]) + blocks'[0] == blocks'[0];
    } else {
      hide Patch;
      PatchFirst(blocks[..n], h);
      assert blocks'[..n] == blocks[..n][0 := Patch(blocks[0], h)];
      PatchMore(Concat(blocks[..n]), blocks[n], h);
    }
  }

  lemma Assemble(start: seq<Byte>, h: seq<Byte>, t: Trace)
    requires |start| == 20 && start[..4] == Big(4, INTEXT_MAGIC_NUMBER) && h == Sizes(t)
    ensures Patch(start + EncodeAll(t.toks), h) == Marshaled(t)
  {
    hide EncodeAll;
    hide Big;
  }

  lemma VisitNumbering(g: Graph, v: Word)
    requires GraphOk(g) && Visit(g, [], v).Said?
    ensures var t := Visit(g, [], v).t; |t.order| == |t.copies|
  {
  }

  datatype Snapshot = Snapshot(g: Graph, order: seq<nat>, stream: seq<Byte>, size32: nat, size64: nat, user: bool)

  // What a visit does to the state.
  ghost predicate AfterVisit(s: Snapshot, r: Visited, t: Snapshot) {
    && r.Said? && t.g == s.g && t.order == r.t.order && t.user == s.user
    && t.stream == s.stream + EncodeAll(r.t.toks)
    && t.size32 == s.size32 + Sum32(r.t.copies) && t.size64 == s.size64 + Sum64(r.t.copies)
  }

  // The state when the header of block a has been written and the block numbered.
  ghost function Headed(s: Snapshot, a: nat): Snapshot
    requires a in s.g
  {
    var o := s.g[a];
    s.(order := s.order + [a], stream := s.stream + EncodeBlk(|o.words|, o.tag, 0),
       size32 := s.size32 + 1 + |o.words|, size64 := s.size64 + 1 + |o.words|)
  }

  lemma HeadedOrder(s: Snapshot, a: nat)
    requires a in s.g
    ensures Headed(s, a).order == s.order + [a] && Headed(s, a).g == s.g
  {
  }

  ghost predicate ToVisit(g: Graph, order: seq<nat>, a: nat) {
    a in g && a !in order && NumberedOk(g, a)
  }

  ghost predicate IsPlain(g: Graph, a: nat) {
    a in g && g[a].tag != STRING_TAG && g[a].tag != ABSTRACT_TAG && g[a].tag != CUSTOM_TAG
  }

  lemma LookMeans(g: Graph, order: seq<nat>, heap: Graph, v: Word)
    requires GraphOk(g) && Numbered(g, order) && IsMarked(g, order, Members(order), heap)
    ensures !(v.Ptr? && v.a in heap && heap[v.a].tag == FORWARD_TAG) ==> Look(g, order, v) == v
    ensures v.Ptr? && v.a in heap && heap[v.a].tag == FORWARD_TAG ==>
      && heap[v.a].words != []
      && var f := heap[v.a].words[0];
      Look(g, order, v) ==
        if f.Mark? then (if f.d % 2 == 1 then Imm(f.d / 2) else v)
        else if f.Imm? then f
        else if f.Ptr? && f.a in heap && heap[f.a].tag != FORWARD_TAG && heap[f.a].tag != LAZY_TAG &&
                heap[f.a].tag != DOUBLE_TAG then f
        else v
  {
    if v.Ptr? && v.a in heap {
      MarkedAt(g, order, heap, v.a);
      assert NodeOk(g, g[v.a]);
      if heap[v.a].tag == FORWARD_TAG {
        assert g[v.a].words[0] in g[v.a].words;
        var f := heap[v.a].words[0];
        if f.Ptr? && f.a in heap { MarkedAt(g, order, heap, f.a); }
      }
    } else if v.Ptr? {
      InOrder(g, order, v.a);
    }
  }

  lemma InOrder(g: Graph, order: seq<nat>, a: nat)
    requires Numbered(g, order)
    ensures a in order ==> NumberedOk(g, a)
  {
  }

  lemma VisitNone(s: Snapshot, g: Graph, vs: seq<Word>)
    requires GraphOk(g) && g == s.g
    ensures AfterVisit(s, VisitAll(g, s.order, vs[..0]), s)
  {
  }

  lemma RankVisited(s: Snapshot, g: Graph, vs: seq<Word>, t: Snapshot)
    requires GraphOk(g) && g == s.g && AfterVisit(s, VisitAll(g, s.order, vs), t)
    ensures Rank(g, t.order) <= Rank(g, s.order) && t.g == g
  {
    SubsetAtMost(Unseen(g, t.order), Unseen(g, s.order));
  }

  // One more field.
  lemma VisitNext(s: Snapshot, t: Snapshot, g: Graph, vs: seq<Word>, i: nat, u: Snapshot, r: Outcome)
    requires GraphOk(g) && g == s.g && i < |vs| && AfterVisit(s, VisitAll(g, s.order, vs[..i]), t)
    requires r == Fine ==> AfterVisit(t, Visit(g, t.order, vs[i]), u)
    requires r == Invalid ==> Visit(g, t.order, vs[i]).Refused?
    ensures r == Fine ==> AfterVisit(s, VisitAll(g, s.order, vs[..i + 1]), u)
    ensures r == Invalid ==> VisitAll(g, s.order, vs).Refused?
  {
    hide GraphOk;
    hide Visit;
    hide VisitAll;
    hide EncodeAll;
    hide Sum32;
    hide Sum64;
    assert vs[..i + 1] == vs[..i] + [vs[i]];
    VisitSnoc(g, s.order, vs[..i], vs[i]);
    if r == Fine { AfterBoth(s, VisitAll(g, s.order, vs[..i]), t, Visit(g, t.order, vs[i]), u); }
    if r == Invalid { RefusedMore(g, s.order, vs, i + 1); }
  }

  lemma AfterBoth(s: Snapshot, a: Visited, t: Snapshot, b: Visited, u: Snapshot)
    requires AfterVisit(s, a, t) && AfterVisit(t, b, u)
    ensures AfterVisit(s, Then(a, b), u)
  {
    hide EncodeAll;
    hide Sum32;
    hide Sum64;
    EncodeMore(a.t.toks, b.t.toks);
    SumMore(a.t.copies, b.t.copies);
    assert s.stream + EncodeAll(a.t.toks) + EncodeAll(b.t.toks) ==
           s.stream + (EncodeAll(a.t.toks) + EncodeAll(b.t.toks));
  }

  lemma SaidImm(s: Snapshot, v: Word, n: int, t: Snapshot)
    requires GraphOk(s.g) && Look(s.g, s.order, v) == Imm(n) && t == s.(stream := s.stream + EncodeInt(n))
    ensures AfterVisit(s, Visit(s.g, s.order, v), t)
  {
    hide EncodeInt;
    hide NodeOk;
    hide Bypass;
    EncodeOne(Int(n));
  }

  lemma SaidAtom(s: Snapshot, v: Word, a: nat, t: Snapshot)
    requires GraphOk(s.g) && Look(s.g, s.order, v) == Ptr(a) && a in s.g && s.g[a].words == []
    requires t == s.(stream := s.stream + EncodeBlk(0, s.g[a].tag, AtomColor(s.g[a])))
    ensures AfterVisit(s, Visit(s.g, s.order, v), t)
  {
    hide EncodeBlk;
    hide NodeOk;
    hide Bypass;
    EncodeOne(Blk(0, s.g[a].tag, AtomColor(s.g[a])));
  }

  lemma SaidShared(s: Snapshot, v: Word, a: nat, t: Snapshot)
    requires GraphOk(s.g) && Look(s.g, s.order, v) == Ptr(a) && a in s.g && s.g[a].words != [] && a in s.order
    requires t == s.(stream := s.stream + EncodeShared(|s.order| - IndexOf(s.order, a)))
    ensures AfterVisit(s, Visit(s.g, s.order, v), t)
  {
    hide EncodeShared;
    hide GraphOk;
    hide NodeOk;
    hide Bypass;
    hide Bypassed;
    hide IndexOf;
    hide VisitAll;
    EncodeOne(Shared(|s.order| - IndexOf(s.order, a)));
  }

  lemma SumOne(c: Copy)
    ensures Sum64([c]) == Size64(c) && Sum32([c]) == Size32(c)
  {
  }

  ghost function StrSaid(s: Snapshot, a: nat, str: seq<Byte>): Snapshot {
    s.(order := s.order + [a], stream := s.stream + EncodeStr(str),
       size32 := s.size32 + 1 + (|str| + 4) / 4, size64 := s.size64 + 1 + (|str| + 8) / 8)
  }

  ghost function CustomSaid(s: Snapshot, a: nat, kind: Kind, n: int): Snapshot {
    s.(order := s.order + [a], stream := s.stream + Encode(Custom(kind, n)),
       size32 := s.size32 + 2 + (if kind == Int64 then 2 else 1), size64 := s.size64 + 3)
  }

  lemma SaidStr(s: Snapshot, v: Word, a: nat, str: seq<Byte>, t: Snapshot)
    requires GraphOk(s.g) && Look(s.g, s.order, v) == Ptr(a) && a in s.g && s.g[a].words != [] && a !in s.order
    requires s.g[a].tag == STRING_TAG && StringOk(s.g[a].words) && str == StringOf(s.g[a].words)
    requires t == StrSaid(s, a, str)
    ensures AfterVisit(s, Visit(s.g, s.order, v), t)
  {
    hide StringOf;
    hide StringOk;
    EncodeOne(Str(str));
    SumOne(CStr(str));
  }

  lemma SaidCustom(s: Snapshot, v: Word, a: nat, kind: Kind, n: int, t: Snapshot)
    requires GraphOk(s.g) && Look(s.g, s.order, v) == Ptr(a) && a in s.g && s.g[a].words != [] && a !in s.order
    requires s.g[a].tag == CUSTOM_TAG && s.g[a].words == [Ops(Some(kind)), Num(n)]
    requires t == CustomSaid(s, a, kind, n)
    ensures AfterVisit(s, Visit(s.g, s.order, v), t)
  {
    hide Encode;
    EncodeOne(Custom(kind, n));
    SumOne(CCustom(kind, n));
  }

  lemma SaidNode(s: Snapshot, v: Word, a: nat, t: Snapshot, r: Outcome)
    requires GraphOk(s.g) && Look(s.g, s.order, v) == Ptr(a) && a in s.g && s.g[a].words != [] && a !in s.order
    requires IsPlain(s.g, a)
    requires r == Fine ==> AfterVisit(Headed(s, a), VisitAll(s.g, s.order + [a], s.g[a].words), t)
    requires r == Invalid ==> VisitAll(s.g, s.order + [a], s.g[a].words).Refused?
    ensures r == Fine ==> AfterVisit(s, Visit(s.g, s.order, v), t)
    ensures r == Invalid ==> Visit(s.g, s.order, v).Refused?
  {
    hide VisitAll;
    hide Visit;
    hide EncodeAll;
    hide Sum32;
    hide Sum64;
    hide Look;
    hide AfterVisit;
    hide Headed;
    VisitNode(s.g, s.order, v, a);
    if r == Fine {
      AfterSaid(Headed(s, a), VisitAll(s.g, s.order + [a], s.g[a].words), t);
      VisitAllSize(s.g, s.order + [a], s.g[a].words);
      AfterHead(s, a, VisitAll(s.g, s.order + [a], s.g[a].words), t, !Confused(s.g, s.order, v));
    }
  }

  lemma VisitAllSize(g: Graph, order: seq<nat>, vs: seq<Word>)
    requires GraphOk(g) && VisitAll(g, order, vs).Said?
    ensures |VisitAll(g, order, vs).t.refs| == |vs|
  {
  }

  lemma AfterSaid(s: Snapshot, r: Visited, t: Snapshot)
    requires AfterVisit(s, r, t)
    ensures r.Said?
  {
  }

  // The values that cannot be marshaled.
  ghost predicate Unsayable(g: Graph, order: seq<nat>, w: Word) {
    && !w.Imm?
    && (w.Ptr? && w.a in g ==>
          && g[w.a].words != [] && w.a !in order
          && (g[w.a].tag == ABSTRACT_TAG ||
              (g[w.a].tag == CUSTOM_TAG && g[w.a].words[0].Ops? && g[w.a].words[0].kind.None?)))
  }

  lemma SaidNothing(g: Graph, order: seq<nat>, v: Word)
    requires GraphOk(g) && Unsayable(g, order, Look(g, order, v))
    ensures Visit(g, order, v).Refused?
  {
    hide Look;
  }

  ghost function WithHead(o: Node, i: nat, u: Visited, clean: bool): Visited {
    if u.Refused? then Refused
    else Said(Trace([RObj(i)], [Blk(|o.words|, o.tag, 0)] + u.t.toks, u.t.order,
                    [CBlk(o.tag, u.t.refs)] + u.t.copies, clean && u.t.clean))
  }

  lemma VisitNode(g: Graph, order: seq<nat>, v: Word, a: nat)
    requires GraphOk(g) && Look(g, order, v) == Ptr(a) && a in g && g[a].words != [] && a !in order && IsPlain(g, a)
    ensures Visit(g, order, v) ==
            WithHead(g[a], |order|, VisitAll(g, order + [a], g[a].words), !Confused(g, order, v))
  {
    hide VisitAll;
    hide Look;
  }

  lemma AfterHead(s: Snapshot, a: nat, u: Visited, t: Snapshot, clean: bool)
    requires a in s.g && AfterVisit(Headed(s, a), u, t) && |u.t.refs| == |s.g[a].words|
    ensures AfterVisit(s, WithHead(s.g[a], |s.order|, u, clean), t)
  {
    hide Encode;
    var o := s.g[a];
    var tok, c := Blk(|o.words|, o.tag, 0), CBlk(o.tag, u.t.refs);
    EncodeIsBlk(|o.words|, o.tag, 0);
    assert ([tok] + u.t.toks)[1..] == u.t.toks && ([c] + u.t.copies)[1..] == u.t.copies;
    assert s.stream + Encode(tok) + EncodeAll(u.t.toks) == s.stream + (Encode(tok) + EncodeAll(u.t.toks));
  }

  lemma EncodeIsBlk(size: nat, tag: nat, color: nat)
    ensures Encode(Blk(size, tag, color)) == EncodeBlk(size, tag, color)
  {
  }

  // What is known of the block that a value leads to.
  lemma NodeFacts(g: Graph, order: seq<nat>, heap: Graph, v: Word, a: nat)
    requires GraphOk(g) && Numbered(g, order) && IsMarked(g, order, Members(order), heap)
    requires Look(g, order, v) == Ptr(a) && a in g
    ensures a in heap && (heap[a].color == Blue <==> a in order)
    ensures g[a].words != [] && a !in order ==> NumberedOk(g, a)
    ensures a !in order && g[a].words != [] && g[a].tag == STRING_TAG ==>
      StringOk(g[a].words) && RawWords(g[a].words) && StringLength(g[a].words) >= 0
    ensures a !in order && g[a].words != [] && g[a].tag == CUSTOM_TAG ==>
      |g[a].words| == 2 && g[a].words[0].Ops? && g[a].words[1].Num?
  {
    hide Numbered;
    MarkedAt(g, order, heap, a);
    assert NodeOk(g, g[a]);
    LookOk(g, order, v);
  }

  lemma TrailSnoc(g: Graph, order: seq<nat>, trail: seq<seq<Entry>>, ent: Entry)
    requires trail != [] && TrailOf(g, order, Concat(trail)) && Honest(g, ent)
    ensures var trail' := trail[..|trail| - 1] + [trail[|trail| - 1] + [ent]];
      TrailOf(g, order + [ent.obj], Concat(trail'))
  {
    var trail' := trail[..|trail| - 1] + [trail[|trail| - 1] + [ent]];
    ConcatSnoc(trail[..|trail| - 1], trail[|trail| - 1] + [ent]);
    assert Concat(trail') == Concat(trail) + [ent];
    var es, order' := Concat(trail), order + [ent.obj];
    forall i | 0 <= i < |es| + 1 ensures (es + [ent])[i].obj == order'[i] && Honest(g, (es + [ent])[i]) {
      if i < |es| { assert es[i].obj == order[i] && Honest(g, es[i]); }
    }
  }

  function Objs(es: seq<Entry>): set<nat> {
    set e | e in es :: e.obj
  }

  lemma ObjsMore(es: seq<Entry>, fs: seq<Entry>)
    ensures Objs(es + fs) == Objs(es) + Objs(fs)
  {
    forall x | x in Objs(es) + Objs(fs) ensures x in Objs(es + fs) {
      var e :| (e in es || e in fs) && e.obj == x;
      assert e in es + fs;
    }
  }

  lemma TrailStarts(g: Graph, order: seq<nat>, trail: seq<seq<Entry>>)
    requires TrailOf(g, order, Concat(trail))
    ensures Members(order) <= Objs(Concat(trail)) && forall e :: e in Concat(trail) ==> Honest(g, e)
    ensures trail[..|trail|] == trail
  {
    var es := Concat(trail);
    forall a | a in Members(order) ensures a in Objs(es) {
      var i :| 0 <= i < |order| && order[i] == a;
      assert es[i] in es;
    }
  }
}
