// Marshaling and unmarshaling: what comes back, and exactly when it is what went in.
module Marshal {
  import opened Header
  import opened MarshalBytes
  import opened MarshalGraph
  import opened MarshalMirror
  import opened MarshalClean
  import opened MarshalSizes
  import opened Extern
  import opened Intern

  // ---- The same graph ----

  // What v is in the new blocks, when block order[i] has become the one at places[i].
  ghost predicate Image(g: Graph, order: seq<nat>, places: seq<nat>, v: Word, w: Cell)
    requires |places| == |order|
  {
    match Bypass(g, v)
    case Imm(n) => w == CImm(n)
    case Ptr(a) =>
      a in g &&
      if g[a].words == [] then w == AtomAt(g[a].tag) else a in order && w == At(places[IndexOf(order, a)])
    case _ => false
  }

  // The block at place p is the one at a.
  ghost predicate BlockSame(g: Graph, order: seq<nat>, places: seq<nat>, m: seq<Cell>, a: nat, p: nat)
    requires |places| == |order|
  {
    a in g && var o := g[a];
    && o.words != [] && 0 < p && p + |o.words| <= |m| && m[p - 1] == Hdr(|o.words|, o.tag)
    && if o.tag == STRING_TAG then m[p..p + |o.words|] == RawCells(o.words)
       else if o.tag == CUSTOM_TAG then
         && |o.words| == 2 && o.words[0].Ops? && o.words[0].kind.Some? && o.words[1].Num?
         && m[p] == COps(o.words[0].kind.value) && m[p + 1] == CNum(o.words[1].n)
       else forall j :: 0 <= j < |o.words| ==> Image(g, order, places, o.words[j], m[p + j])
  }

  // The words of m and w are the graph seen from v: the blocks order are at places.
  ghost predicate SameGraph(g: Graph, v: Word, order: seq<nat>, places: seq<nat>, m: seq<Cell>, w: Cell) {
    && |places| == |order| && Image(g, order, places, v, w)
    && forall i :: 0 <= i < |order| ==> BlockSame(g, order, places, m, order[i], places[i])
  }

  function Places(all: seq<Copy>): (ps: seq<nat>)
    ensures |ps| == |all|
  {
    seq(|all|, i requires 0 <= i < |all| => Base(all, i) + 1)
  }

  // ---- Strings ----

  lemma {:induction false} ChunkBytes(s: seq<Byte>, ws: seq<Word>)
    requires |s| == 8 * |ws|
    requires forall i :: 0 <= i < |ws| ==> ws[i] == Raw(s[8 * i..8 * i + 8])
    ensures RawWords(ws) && Bytes(ws) == s
  {
    if ws != [] {
      var n := |ws| - 1;
      var s' := s[..8 * n];
      forall i | 0 <= i < n ensures ws[..n][i] == Raw(s'[8 * i..8 * i + 8]) {
        assert s'[8 * i..8 * i + 8] == s[8 * i..8 * i + 8];
      }
      ChunkBytes(s', ws[..n]);
      assert s == s' + s[8 * n..8 * n + 8];
    }
  }

  // The length and the bytes of a string are those it was made from.
  lemma StringThere(s: seq<Byte>)
    ensures var ws := StringWords(s); ws != [] && RawWords(ws) && StringLength(ws) == |s| && StringOf(ws) == s
  {
    var ws, n := StringWords(s), (|s| + 8) / 8;
    ChunkBytes(Padded(s), ws);
    assert ws[n - 1].bs[7] == Padded(s)[8 * (n - 1) + 7];
  }

  // ---- Blocks are of the kind they were ----

  ghost predicate SameKind(g: Graph, a: nat, c: Copy) {
    a in g && NodeOk(g, g[a]) && g[a].words != [] && g[a].tag != ABSTRACT_TAG &&
    var o := g[a];
    if o.tag == STRING_TAG then c == CStr(StringOf(o.words))
    else if o.tag == CUSTOM_TAG then o.words[0].kind.Some? && c == CCustom(o.words[0].kind.value, o.words[1].n)
    else c.CBlk? && c.tag == o.tag && |c.refs| == |o.words|
  }

  ghost predicate SameKinds(g: Graph, order: seq<nat>, from: nat, copies: seq<Copy>) {
    from + |copies| <= |order| && forall i :: 0 <= i < |copies| ==> SameKind(g, order[from + i], copies[i])
  }

  lemma {:induction false} VisitKinds(g: Graph, order: seq<nat>, v: Word)
    requires GraphOk(g) && Visit(g, order, v).Said?
    ensures SameKinds(g, Visit(g, order, v).t.order, |order|, Visit(g, order, v).t.copies)
    decreases Rank(g, order), 0
  {
    hide StringOf;
    match Look(g, order, v)
    case Ptr(a) =>
      var o := g[a];
      if o.words != [] && a !in order {
        RankLess(g, order, a);
        assert NodeOk(g, o);
        if o.tag != STRING_TAG && o.tag != CUSTOM_TAG {
          VisitAllKinds(g, order + [a], o.words);
          var u := VisitAll(g, order + [a], o.words).t;
          KindsCons(g, u.order, |order|, CBlk(o.tag, u.refs), u.copies);
        }
      }
    case _ =>
  }

  lemma KindsCons(g: Graph, order: seq<nat>, from: nat, c: Copy, cs: seq<Copy>)
    requires from < |order| && SameKind(g, order[from], c) && SameKinds(g, order, from + 1, cs)
    ensures SameKinds(g, order, from, [c] + cs)
  {
    hide SameKind;
    var ds := [c] + cs;
    forall i | 0 <= i < |ds| ensures SameKind(g, order[from + i], ds[i]) {
      if i > 0 {
        var j := i - 1;
        assert SameKind(g, order[from + 1 + j], cs[j]);
      }
    }
  }

  lemma {:induction false} VisitAllKinds(g: Graph, order: seq<nat>, vs: seq<Word>)
    requires GraphOk(g) && VisitAll(g, order, vs).Said?
    ensures SameKinds(g, VisitAll(g, order, vs).t.order, |order|, VisitAll(g, order, vs).t.copies)
    decreases Rank(g, order), 1 + |vs|
  {
    hide Visit;
    hide GraphOk;
    hide SameKind;
    if vs != [] {
      var t := Visit(g, order, vs[0]).t;
      SubsetAtMost(Unseen(g, t.order), Unseen(g, order));
      VisitKinds(g, order, vs[0]);
      VisitAllKinds(g, t.order, vs[1..]);
      var u := VisitAll(g, t.order, vs[1..]).t;
      KindsJoin(g, t.order, u.order, |order|, t.copies, u.copies);
    }
  }

  lemma KindsJoin(g: Graph, order: seq<nat>, order': seq<nat>, from: nat, cs: seq<Copy>, ds: seq<Copy>)
    requires order <= order' && SameKinds(g, order, from, cs) && SameKinds(g, order', from + |cs|, ds)
    ensures SameKinds(g, order', from, cs + ds)
  {
    hide SameKind;
    var es := cs + ds;
    forall i | 0 <= i < |es| ensures SameKind(g, order'[from + i], es[i]) {
      if i < |cs| {
        assert SameKind(g, order[from + i], cs[i]);
      } else {
        var j := i - |cs|;
        assert SameKind(g, order'[from + |cs| + j], ds[j]);
      }
    }
  }

  // ---- What was built is what was said ----

  lemma BaseApart(all: seq<Copy>, i: nat, j: nat)
    requires i < |all| && j < |all|
    ensures Base(all, i) == Base(all, j) <==> i == j
  {
    if i < j { RoomFor(all, i); BaseGrows(all, i + 1, j); }
    if j < i { RoomFor(all, j); BaseGrows(all, j + 1, i); }
  }

  lemma ImageOfRef(g: Graph, order: seq<nat>, all: seq<Copy>, v: Word, r: Ref)
    requires |all| == |order|
    ensures Image(g, order, Places(all), v, CellOf(all, r)) <==> Mirrors(g, order, v, r)
  {
    hide Base;
    match Bypass(g, v)
    case Ptr(a) =>
      if a in order && r.RObj? && r.i < |all| { BaseApart(all, r.i, IndexOf(order, a)); }
    case _ =>
  }

  lemma BuiltWord(m: seq<Cell>, all: seq<Copy>, i: nat, j: nat)
    requires i < |all| && BuiltAt(m, all, i) && j < Size64(all[i])
    ensures Base(all, i) + Size64(all[i]) <= |m| && m[Base(all, i) + j] == Layout(all, all[i])[j]
  {
    var b := Base(all, i);
    assert m[b + j] == m[b..b + Size64(all[i])][j];
  }

  lemma BlockOfCopy(g: Graph, order: seq<nat>, all: seq<Copy>, m: seq<Cell>, i: nat)
    requires |all| == |order| && i < |all| && BuiltAt(m, all, i) && SameKind(g, order[i], all[i])
    ensures BlockSame(g, order, Places(all), m, order[i], Base(all, i) + 1) <==>
            MirrorsNode(g, order, order[i], all[i])
  {
    hide Base;
    hide CellOf;
    hide Image;
    hide StringOf;
    hide StringWords;
    hide StringOk;
    var a, c, b := order[i], all[i], Base(all, i);
    var o := g[a];
    BuiltWord(m, all, i, 0);
    if o.tag == STRING_TAG {
      StringRaw(g, a);
      assert m[b + 1..b + 1 + |o.words|] == m[b..b + Size64(c)][1..];
    } else if o.tag == CUSTOM_TAG {
      BuiltWord(m, all, i, 1);
      BuiltWord(m, all, i, 2);
    } else {
      forall j | 0 <= j < |o.words|
        ensures m[b + 1 + j] == CellOf(all, c.refs[j])
        ensures Image(g, order, Places(all), o.words[j], m[b + 1 + j]) <==> Mirrors(g, order, o.words[j], c.refs[j])
      {
        BuiltWord(m, all, i, 1 + j);
        ImageOfRef(g, order, all, o.words[j], c.refs[j]);
      }
    }
  }

  lemma StringRaw(g: Graph, a: nat)
    requires a in g && NodeOk(g, g[a]) && g[a].words != [] && g[a].tag == STRING_TAG
    ensures var ws := g[a].words;
      StringOk(ws) && ws == StringWords(StringOf(ws)) && |ws| == (|StringOf(ws)| + 8) / 8
  {
  }

  // The heart of the matter: the blocks built are the graph visited if and only if no forwarding block
  // was confused.
  lemma RebuiltExactly(g: Graph, v: Word, m: seq<Cell>, w: Cell)
    requires GraphOk(g) && Visit(g, [], v).Said?
    requires var t := Visit(g, [], v).t;
      Built(m, t.copies, 0, |t.copies|) && |t.refs| == 1 && w == CellOf(t.copies, t.refs[0])
    ensures var t := Visit(g, [], v).t; SameGraph(g, v, t.order, Places(t.copies), m, w) <==> t.clean
  {
    hide Visit;
    hide GraphOk;
    hide BlockSame;
    hide Image;
    hide MirrorsNode;
    hide Mirrors;
    hide CellOf;
    hide SameKind;
    var t := Visit(g, [], v).t;
    VisitNumbering(g, v);
    VisitKinds(g, [], v);
    VisitFaithful(g, [], v, t.order);
    ImageOfRef(g, t.order, t.copies, v, t.refs[0]);
    forall i | 0 <= i < |t.order|
      ensures BlockSame(g, t.order, Places(t.copies), m, t.order[i], Places(t.copies)[i]) <==>
              MirrorsAt(g, t.order, 0, t.copies, i)
    {
      assert SameKind(g, t.order[0 + i], t.copies[i]);
      assert BuiltAt(m, t.copies, i);
      BlockOfCopy(g, t.order, t.copies, m, i);
    }
  }

  // ---- Both ways ----

  lemma HeaderReads(bytes: seq<Byte>, ofs: nat, t: Trace)
    requires ofs <= |bytes| && Marshaled(t) <= bytes[ofs..] && Small(t) && |t.copies| < 0x1_0000_0000
    ensures ofs + 20 <= |bytes| && Unsigned(bytes[ofs + 8..ofs + 12]) == |t.copies|
    ensures Unsigned(bytes[ofs + 16..ofs + 20]) == Sum64(t.copies)
    ensures EncodeAll(t.toks) <= bytes[ofs + 20..]
  {
    hide EncodeAll;
    hide Sum32;
    hide Sum64;
    hide Big;
    var s := Marshaled(t);
    var rest := bytes[ofs..];
    assert bytes[ofs + 16..ofs + 20] == rest[16..20] == s[16..20] == Big(4, Sum64(t.copies));
    assert bytes[ofs + 8..ofs + 12] == rest[8..12] == s[8..12] == Big(4, |t.copies|);
    assert bytes[ofs + 20..] == rest[20..];
    assert s[20..] == EncodeAll(t.toks);
    Powers();
    UnsignedSmall(4, |t.copies|);
    UnsignedSmall(4, Sum64(t.copies));
  }

  lemma FewBlocks(g: Graph, v: Word)
    requires GraphOk(g) && Visit(g, [], v).Said? && Small(Visit(g, [], v).t)
    ensures |Visit(g, [], v).t.copies| < 0x1_0000_0000
  {
    hide Visit;
    VisitCount(g, [], v);
    TokenInside(Visit(g, [], v).t.toks, Int(0));
  }

  lemma TopReads(g: Graph, v: Word, input: seq<Byte>)
    requires GraphOk(g) && ValueOk(g, v) && Visit(g, [], v).Said? && Small(Visit(g, [], v).t)
    requires EncodeAll(Visit(g, [], v).t.toks) <= input
    ensures Reads(g, [], v, Visit(g, [], v).t.copies, input)
  {
    hide Visit;
    hide GraphOk;
    hide EncodeAll;
    var t := Visit(g, [], v).t;
    VisitNumbering(g, v);
    NothingTruncated(g, v);
    assert t.copies[0..|t.order|] == t.copies;
  }

  // caml_input_val_from_string on the output of extern_value at ofs.  The sizes in the header are
  // exactly those of the blocks built.
  method InputVal(bytes: seq<Byte>, ofs: nat, ghost g: Graph, ghost v: Word)
    returns (mem: array<Cell>, w: Cell, objects: nat, made: nat)
    requires GraphOk(g) && ValueOk(g, v) && Visit(g, [], v).Said? && Small(Visit(g, [], v).t)
    requires ofs <= |bytes| && Marshaled(Visit(g, [], v).t) <= bytes[ofs..]
    ensures var t := Visit(g, [], v).t;
      && mem.Length == Sum64(t.copies) && objects == made == |t.copies|
      && (SameGraph(g, v, t.order, Places(t.copies), mem[..], w) <==> !Confusing(g, v))
  {
    hide Visit;
    hide GraphOk;
    hide Marshaled;
    hide SameGraph;
    hide EncodeAll;
    hide Built;
    hide Within;
    hide Holds;
    hide Confusing;
    ghost var t := Visit(g, [], v).t;
    FewBlocks(g, v);
    HeaderReads(bytes, ofs, t);
    var r := new Reader(bytes, ofs + 8);
    var count := r.ReadUnsigned(4);
    var size32 := r.ReadUnsigned(4);
    var size64 := r.ReadUnsigned(4);
    r.Alloc(size64);
    VisitNumbering(g, v);
    TopReads(g, v, bytes[ofs + 20..]);
    w := r.InternRec(g, [], v, t.copies);
    RebuiltExactly(g, v, r.mem[..], w);
    CleanExactly(g, v);
    mem, objects, made := r.mem, count, |r.table|;
  }

  // Output to a string and input from it: when it succeeds, the graph comes back if and only if no
  // forwarding block that is kept and numbered odd has two references; so it does if none is kept, or none
  // has two references.
  method RoundTrip(heap: Graph, v: Word) returns (r: Outcome, mem: array<Cell>, w: Cell)
    requires GraphOk(heap) && ValueOk(heap, v)
    ensures r == Fine ==> Visit(heap, [], v).Said?
    ensures r == Fine ==>
      var t := Visit(heap, [], v).t;
      SameGraph(heap, v, t.order, Places(t.copies), mem[..], w) <==> !Confusing(heap, v)
    ensures r == Fine && (forall a :: a in heap ==> !KeptForward(heap, a)) ==>
      var t := Visit(heap, [], v).t; SameGraph(heap, v, t.order, Places(t.copies), mem[..], w)
    ensures r == Invalid ==> Visit(heap, [], v).Refused?
  {
    hide GraphOk;
    hide Visit;
    hide SameGraph;
    hide Marshaled;
    hide Small;
    hide Confusing;
    hide KeptForward;
    var writer := new Writer(heap);
    var len;
    r, len := writer.ExternValue(v);
    if r == Fine {
      var bytes := writer.Gather();
      assert bytes[0..] == bytes;
      var objects, made;
      mem, w, objects, made := InputVal(bytes, 0, heap, v);
      NotConfusing(heap, v);
    } else {
      mem, w := new Cell[0], Junk;
    }
  }

  // ---- A value that does not come back ----

  // A pair of two pointers to one forwarded lazy value, itself lazy: the second comes back as an integer.
  const SHARED_LAZY: Graph := map[
    0 := Node(0, White, [Ptr(1), Ptr(1)]),
    1 := Node(FORWARD_TAG, White, [Ptr(2)]),
    2 := Node(LAZY_TAG, White, [Imm(5)])]

  lemma VisitLast(g: Graph, order: seq<nat>, v: Word)
    requires GraphOk(g) && Visit(g, order, v).Said?
    ensures VisitAll(g, order, [v]) == Visit(g, order, v)
  {
    hide Visit;
    var t := Visit(g, order, v).t;
    assert [v][1..] == [];
    assert VisitAll(g, t.order, []) == Said(Trace([], [], t.order, [], true));
    assert t.refs + [] == t.refs && t.toks + [] == t.toks && t.copies + [] == t.copies;
  }

  lemma SharedLazyOk()
    ensures GraphOk(SHARED_LAZY)
  {
  }

  lemma LazySaid()
    ensures GraphOk(SHARED_LAZY)
    ensures var r := Visit(SHARED_LAZY, [0, 1], Ptr(2));
      r.Said? && r.t.order == [0, 1, 2] && r.t.refs == [RObj(2)]
  {
    hide GraphOk;
    SharedLazyOk();
    VisitLast(SHARED_LAZY, [0, 1, 2], Imm(5));
    assert [0, 1] + [2] == [0, 1, 2];
  }

  lemma FirstSaid()
    ensures GraphOk(SHARED_LAZY)
    ensures var r := Visit(SHARED_LAZY, [0], Ptr(1));
      r.Said? && r.t.order == [0, 1, 2] && r.t.refs == [RObj(1)]
  {
    hide GraphOk;
    LazySaid();
    VisitLast(SHARED_LAZY, [0, 1], Ptr(2));
    assert [0] + [1] == [0, 1];
  }

  lemma SecondSaid()
    ensures GraphOk(SHARED_LAZY)
    ensures var r := Visit(SHARED_LAZY, [0, 1, 2], Ptr(1));
      r.Said? && !r.t.clean && r.t.refs == [RImm(0)]
  {
    hide GraphOk;
    SharedLazyOk();
    assert IndexOf([0, 1, 2], 1) == 1 by {
      assert [0, 1, 2][1..][0] == 1;
    }
  }

  lemma SharedLazyIsConfused()
    ensures GraphOk(SHARED_LAZY) && Visit(SHARED_LAZY, [], Ptr(0)).Said?
    ensures var t := Visit(SHARED_LAZY, [], Ptr(0)).t;
      Confusing(SHARED_LAZY, Ptr(0)) && t.copies[0] == CBlk(0, [RObj(1), RImm(0)])
  {
    hide GraphOk;
    hide Confusing;
    var g := SHARED_LAZY;
    FirstSaid();
    SecondSaid();
    VisitLast(g, [0, 1, 2], Ptr(1));
    assert [Ptr(1), Ptr(1)][1..] == [Ptr(1)] && [] + [0] == [0];
    var both := VisitAll(g, [0], [Ptr(1), Ptr(1)]);
    assert both.Said? && !both.t.clean && both.t.refs == [RObj(1), RImm(0)];
    CleanExactly(g, Ptr(0));
  }
}
