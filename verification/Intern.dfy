// The unmarshaler: intern_rec, on the output of extern_value.
module Intern {
  import opened Header
  import opened MarshalBytes
  import opened MarshalGraph
  import opened MarshalSizes

  // A word of the destination block.
  datatype Cell =
    | Junk
    | Hdr(size: nat, tag: nat)
    | CImm(n: int)
    | At(addr: nat)                 // pointer to the block whose header is the word before
    | AtomAt(tag: nat)
    | CRaw(bs: seq<Byte>)
    | COps(kind: Kind)
    | CNum(n: int)

  // ---- What is to be built ----

  // Where block number i goes: the blocks are laid out in the order of their numbers.
  function Base(all: seq<Copy>, i: nat): nat
    requires i <= |all|
  {
    Sum64(all[..i])
  }

  function CellOf(all: seq<Copy>, r: Ref): Cell {
    match r
    case RImm(n) => CImm(n)
    case RAtom(tag) => AtomAt(tag)
    case RObj(i) => if i < |all| then At(Base(all, i) + 1) else Junk
  }

  function RawCells(ws: seq<Word>): (cs: seq<Cell>)
    ensures |cs| == |ws|
  {
    seq(|ws|, i requires 0 <= i < |ws| => if ws[i].Raw? then CRaw(ws[i].bs) else Junk)
  }

  function Layout(all: seq<Copy>, c: Copy): (cs: seq<Cell>)
    ensures |cs| == Size64(c)
  {
    match c
    case CStr(s) => [Hdr((|s| + 8) / 8, STRING_TAG)] + RawCells(StringWords(s))
    case CCustom(kind, n) => [Hdr(2, CUSTOM_TAG), COps(kind), CNum(n)]
    case CBlk(tag, refs) =>
      [Hdr(|refs|, tag)] + seq(|refs|, j requires 0 <= j < |refs| => CellOf(all, refs[j]))
  }

  ghost predicate BuiltAt(m: seq<Cell>, all: seq<Copy>, i: nat)
    requires i < |all|
  {
    var b := Base(all, i);
    b + Size64(all[i]) <= |m| && m[b..b + Size64(all[i])] == Layout(all, all[i])
  }

  // Blocks number lo to hi - 1 are there.
  ghost predicate Built(m: seq<Cell>, all: seq<Copy>, lo: nat, hi: nat)
    requires hi <= |all|
  {
    forall i :: lo <= i < hi ==> BuiltAt(m, all, i)
  }

  // Only the words lo to hi - 1 have changed.
  ghost predicate Within(m: seq<Cell>, m': seq<Cell>, lo: nat, hi: nat) {
    lo <= hi <= |m| == |m'| && m'[..lo] == m[..lo] && m'[hi..] == m[hi..]
  }

  lemma BaseNext(all: seq<Copy>, i: nat)
    requires i < |all|
    ensures Base(all, i + 1) == Base(all, i) + Size64(all[i])
  {
    assert all[..i + 1] == all[..i] + [all[i]];
    SumMore(all[..i], [all[i]]);
  }

  lemma {:induction false} BaseGrows(all: seq<Copy>, i: nat, j: nat)
    requires i <= j <= |all|
    ensures Base(all, i) <= Base(all, j)
    decreases j
  {
    if i < j {
      BaseGrows(all, i, j - 1);
      BaseNext(all, j - 1);
    }
  }

  lemma BuiltStays(m: seq<Cell>, m': seq<Cell>, all: seq<Copy>, lo: nat, hi: nat, from: nat, to: nat)
    requires hi <= |all| && Built(m, all, lo, hi) && Within(m, m', from, to)
    requires lo >= hi || to <= Base(all, lo) || Base(all, hi) <= from
    ensures Built(m', all, lo, hi)
  {
    forall i | lo <= i < hi ensures BuiltAt(m', all, i) {
      assert BuiltAt(m, all, i);
      BaseGrows(all, lo, i);
      BaseNext(all, i);
      BaseGrows(all, i + 1, hi);
      var b, n := Base(all, i), Size64(all[i]);
      SliceSame(m, m', from, to, b, n);
    }
  }

  lemma SliceSame(m: seq<Cell>, m': seq<Cell>, from: nat, to: nat, b: nat, n: nat)
    requires Within(m, m', from, to) && b + n <= |m| && (to <= b || b + n <= from)
    ensures m'[b..b + n] == m[b..b + n]
  {
    forall k | b <= k < b + n ensures m'[k] == m[k] {
      if k < from {
        assert m'[k] == m'[..from][k] && m[k] == m[..from][k];
      } else {
        assert m'[k] == m'[to..][k - to] && m[k] == m[to..][k - to];
      }
    }
  }

  lemma BuiltJoin(m: seq<Cell>, all: seq<Copy>, lo: nat, mid: nat, hi: nat)
    requires hi <= |all| && lo <= mid <= hi && Built(m, all, lo, mid) && Built(m, all, mid, hi)
    ensures Built(m, all, lo, hi)
  {
  }

  lemma WithinTwice(m: seq<Cell>, m': seq<Cell>, m'': seq<Cell>, a: nat, b: nat, c: nat, d: nat, lo: nat, hi: nat)
    requires Within(m, m', a, b) && Within(m', m'', c, d) && lo <= a <= b <= hi && lo <= c <= d <= hi && hi <= |m|
    ensures Within(m, m'', lo, hi)
  {
    assert m''[..lo] == m''[..c][..lo] == m'[..c][..lo] == m'[..a][..lo] == m[..a][..lo] == m[..lo];
    assert m''[hi..] == m''[d..][hi - d..] == m'[d..][hi - d..] == m'[b..][hi - b..] == m[b..][hi - b..] == m[hi..];
  }

  // ---- Signed numbers ----

  lemma {:induction false} TopByte(bs: seq<Byte>)
    requires bs != []
    ensures Unsigned(bs) < Pow256(|bs|)
    ensures (bs[0] < 128) <==> 2 * Unsigned(bs) < Pow256(|bs|)
  {
    var n := |bs| - 1;
    if n == 0 {
      assert bs[..0] == [];
      assert Unsigned(bs[..0]) == 0;
      assert Pow256(1) == 256 * Pow256(0);
    } else {
      TopByte(bs[..n]);
      EvenStep(Unsigned(bs[..n]), bs[n], Pow256(n), Pow256(n - 1));
    }
  }

  lemma EvenStep(u: nat, b: nat, p: nat, q: nat)
    requires u < p && b < 256 && p == 256 * q
    ensures u * 256 + b < 256 * p
    ensures 2 * u < p <==> 2 * (u * 256 + b) < 256 * p
  {
    var h := 128 * q;
    assert p == 2 * h;
    if u < h { assert u + 1 <= h; } else { assert u * 256 >= h * 256; }
  }

  // The value of the bytes when the first is sign-extended.
  function Extended(bs: seq<Byte>): int
    requires bs != []
  {
    Unsigned(bs) - (if bs[0] < 128 then 0 else Pow256(|bs|))
  }

  lemma ExtendedSigned(bs: seq<Byte>)
    requires bs != []
    ensures Extended(bs) == Signed(bs)
  {
    TopByte(bs);
  }

  lemma ExtendedNext(bs: seq<Byte>, b: Byte)
    requires bs != []
    ensures Extended(bs + [b]) == Extended(bs) * 256 + b
  {
    assert (bs + [b])[..|bs|] == bs;
  }

  // ---- Reading along a visit ----

  lemma {:induction false} PrefixVisit(g: Graph, order: seq<nat>, vs: seq<Word>, i: nat)
    requires GraphOk(g) && i <= |vs| && VisitAll(g, order, vs).Said?
    ensures VisitAll(g, order, vs[..i]).Said?
    ensures var t, u := VisitAll(g, order, vs[..i]).t, VisitAll(g, order, vs).t;
      t.toks <= u.toks && t.copies <= u.copies && t.refs <= u.refs && t.order <= u.order && |t.refs| == i
    decreases |vs| - i
  {
    hide Visit;
    hide VisitAll;
    SaidPrefix(g, order, vs, i);
    if i == |vs| {
      assert vs[..i] == vs;
    } else {
      PrefixVisit(g, order, vs, i + 1);
      assert vs[..i + 1] == vs[..i] + [vs[i]];
      VisitSnoc(g, order, vs[..i], vs[i]);
    }
    VisitAllCounts(g, order, vs[..i]);
  }

  lemma VisitAllCounts(g: Graph, order: seq<nat>, vs: seq<Word>)
    requires GraphOk(g) && VisitAll(g, order, vs).Said?
    ensures var t := VisitAll(g, order, vs).t; |t.refs| == |vs| && |t.order| == |order| + |t.copies|
  {
  }

  lemma VisitCounts(g: Graph, order: seq<nat>, v: Word)
    requires GraphOk(g) && Visit(g, order, v).Said?
    ensures var t := Visit(g, order, v).t; |t.refs| == 1 && |t.order| == |order| + |t.copies|
  {
  }

  // What is read is what was written for the visit of v, and the copies are among all.
  ghost predicate Reads(g: Graph, order: seq<nat>, v: Word, all: seq<Copy>, input: seq<Byte>) {
    && GraphOk(g) && Visit(g, order, v).Said?
    && var t := Visit(g, order, v).t;
    && |t.order| <= |all| && all[|order|..|t.order|] == t.copies
    && EncodeAll(t.toks) <= input && forall tok :: tok in t.toks ==> Holds(tok)
  }

  ghost predicate ReadsAll(g: Graph, order: seq<nat>, vs: seq<Word>, all: seq<Copy>, input: seq<Byte>) {
    && GraphOk(g) && VisitAll(g, order, vs).Said?
    && var t := VisitAll(g, order, vs).t;
    && |t.order| <= |all| && all[|order|..|t.order|] == t.copies
    && EncodeAll(t.toks) <= input && forall tok :: tok in t.toks ==> Holds(tok)
  }

  // Field i is read where the ones before it end.
  lemma FieldReads(g: Graph, order: seq<nat>, vs: seq<Word>, all: seq<Copy>, input: seq<Byte>, i: nat)
    requires ReadsAll(g, order, vs, all, input) && i < |vs|
    ensures VisitAll(g, order, vs[..i]).Said?
    ensures var t := VisitAll(g, order, vs[..i]).t; var n := |EncodeAll(t.toks)|;
      && |t.order| <= |all| && n <= |input| && Reads(g, t.order, vs[i], all, input[n..])
      && VisitAll(g, order, vs[..i + 1]) == Then(VisitAll(g, order, vs[..i]), Visit(g, t.order, vs[i]))
      && |EncodeAll(Then(VisitAll(g, order, vs[..i]), Visit(g, t.order, vs[i])).t.toks)| ==
         n + |EncodeAll(Visit(g, t.order, vs[i]).t.toks)|
  {
    hide Visit;
    hide VisitAll;
    hide EncodeAll;
    hide GraphOk;
    PrefixVisit(g, order, vs, i);
    PrefixVisit(g, order, vs, i + 1);
    assert vs[..i + 1] == vs[..i] + [vs[i]];
    VisitSnoc(g, order, vs[..i], vs[i]);
    var t, u := VisitAll(g, order, vs[..i]).t, VisitAll(g, order, vs).t;
    var r := Visit(g, t.order, vs[i]).t;
    VisitAllCounts(g, order, vs[..i]);
    VisitCounts(g, t.order, vs[i]);
    VisitAllCounts(g, order, vs);
    EncodeMore(t.toks, r.toks);
    EncodePrefix(t.toks + r.toks, u.toks);
    var a, b := EncodeAll(t.toks), EncodeAll(r.toks);
    assert a + b <= input;
    assert input[|a|..][..|b|] == b;
    CopiesSlice(all, |order|, t.copies, r.copies, u.copies);
    forall tok | tok in r.toks ensures Holds(tok) {
      assert tok in t.toks + r.toks;
      assert tok in u.toks;
    }
  }

  lemma EncodePrefix(ts: seq<Token>, us: seq<Token>)
    requires ts <= us
    ensures EncodeAll(ts) <= EncodeAll(us)
  {
    assert us == ts + us[|ts|..];
    EncodeMore(ts, us[|ts|..]);
  }

  lemma CopiesSlice(all: seq<Copy>, from: nat, a: seq<Copy>, b: seq<Copy>, c: seq<Copy>)
    requires a + b <= c && from + |c| <= |all| && all[from..from + |c|] == c
    ensures all[from + |a|..from + |a| + |b|] == b
  {
    forall k | 0 <= k < |b| ensures all[from + |a| + k] == b[k] {
      assert all[from..from + |c|][|a| + k] == c[|a| + k] == (a + b)[|a| + k];
    }
  }

  lemma VisitSpeaks(g: Graph, order: seq<nat>, v: Word)
    requires GraphOk(g) && Visit(g, order, v).Said?
    ensures Visit(g, order, v).t.toks != []
  {
  }

  // The first token of a visit.
  lemma FirstToken(g: Graph, order: seq<nat>, v: Word, all: seq<Copy>, input: seq<Byte>)
    requires Reads(g, order, v, all, input)
    ensures var t := Visit(g, order, v).t;
      && t.toks != [] && Decode(input).Some?
      && Decode(input).value.0 == t.toks[0] && Decode(input).value.1 == |Encode(t.toks[0])|
    ensures |Encode(Visit(g, order, v).t.toks[0])| <= |input|
  {
    hide Decode;
    hide Encode;
    hide Holds;
    hide Look;
    var t := Visit(g, order, v).t;
    VisitSpeaks(g, order, v);
    var c := Encode(t.toks[0]);
    assert c <= EncodeAll(t.toks);
    DecodeEncode(t.toks[0], input[|c|..]);
    assert input == c + input[|c|..];
  }

  // What the first token of a visit says of it.
  ghost predicate SaysBlock(g: Graph, order: seq<nat>, t: Trace, tag: nat, a: nat, vs: seq<Word>) {
    && a !in order && vs != [] && GraphOk(g) && VisitAll(g, order + [a], vs).Said?
    && var u := VisitAll(g, order + [a], vs).t;
    && t.refs == [RObj(|order|)] && t.toks == [Blk(|vs|, tag, 0)] + u.toks && t.order == u.order
    && t.copies == [CBlk(tag, u.refs)] + u.copies
  }

  ghost predicate SaysLeaf(order: seq<nat>, t: Trace, ref: Ref) {
    t.refs == [ref] && |t.toks| == 1 && t.order == order && t.copies == []
  }

  ghost predicate SaysData(order: seq<nat>, t: Trace, c: Copy) {
    t.refs == [RObj(|order|)] && |t.toks| == 1 && |t.order| == |order| + 1 && t.copies == [c]
  }

  lemma SpeechOf(g: Graph, order: seq<nat>, v: Word)
    requires GraphOk(g) && Visit(g, order, v).Said? && Visit(g, order, v).t.toks != []
    ensures var t := Visit(g, order, v).t;
      match t.toks[0]
      case Int(n) => SaysLeaf(order, t, RImm(n))
      case Shared(d) => 0 < d <= |order| && SaysLeaf(order, t, RObj(|order| - d))
      case Str(s) => SaysData(order, t, CStr(s))
      case Custom(kind, n) => SaysData(order, t, CCustom(kind, n))
      case Blk(size, tag, _) =>
        if size == 0 then SaysLeaf(order, t, RAtom(tag))
        else exists a, vs :: |vs| == size && SaysBlock(g, order, t, tag, a, vs)
  {
    hide EncodeAll;
    match Look(g, order, v)
    case Ptr(a) =>
      var o := g[a];
      if o.words != [] && a !in order {
        RankLess(g, order, a);
        assert NodeOk(g, o);
        if o.tag != STRING_TAG && o.tag != CUSTOM_TAG {
          assert SaysBlock(g, order, Visit(g, order, v).t, o.tag, a, o.words);
        }
      }
    case _ =>
  }

  class Reader {
    var src: seq<Byte>          // the input, and where intern_src is
    var pos: nat
    var mem: array<Cell>        // the destination block, and where intern_dest is
    var dest: nat
    var table: seq<nat>         // intern_obj_table, up to obj_counter

    constructor (src: seq<Byte>, pos: nat)
      ensures this.src == src && this.pos == pos && dest == 0 && table == [] && fresh(mem)
    {
      this.src, this.pos := src, pos;
      mem, dest, table := new Cell[0], 0, [];
    }

    // intern_alloc.
    method Alloc(whsize: nat)
      modifies `mem, `dest, `table
      ensures fresh(mem) && mem.Length == whsize && dest == 0 && table == []
    {
      mem := new Cell[whsize];
      dest, table := 0, [];
    }

    // The blocks of order have their places.
    ghost predicate Placed(order: seq<nat>, all: seq<Copy>)
      reads this
    {
      && pos <= |src| && |table| == |order| <= |all| && Sum64(all) <= mem.Length
      && dest == Base(all, |order|)
      && forall i :: 0 <= i < |table| ==> table[i] == Base(all, i) + 1
    }

    // read8u, read16u, read32u.
    method ReadUnsigned(k: nat) returns (u: nat)
      requires pos + k <= |src|
      modifies `pos
      ensures u == Unsigned(src[old(pos)..old(pos) + k]) && pos == old(pos) + k
    {
      u := 0;
      assert src[pos..pos] == [];
      for i := 0 to k
        invariant pos == old(pos) + i && u == Unsigned(src[old(pos)..old(pos) + i])
      {
        assert src[old(pos)..pos + 1][..i] == src[old(pos)..pos];
        u := u * 256 + src[pos];
        pos := pos + 1;
      }
    }

    // read8s, read16s, read32s: the first byte is sign-extended.
    method ReadSigned(k: nat) returns (n: int)
      requires 0 < k && pos + k <= |src|
      modifies `pos
      ensures n == Signed(src[old(pos)..old(pos) + k]) && pos == old(pos) + k
    {
      var b: int := src[pos];
      n := if b < 128 then b else b - 256;
      pos := pos + 1;
      assert src[old(pos)..pos] == [src[old(pos)]];
      ExtendedOne(src[old(pos)]);
      for i := 1 to k
        invariant pos == old(pos) + i && n == Extended(src[old(pos)..old(pos) + i])
      {
        assert src[old(pos)..pos + 1] == src[old(pos)..pos] + [src[pos]];
        ExtendedNext(src[old(pos)..pos], src[pos]);
        n := n * 256 + src[pos];
        pos := pos + 1;
      }
      ExtendedSigned(src[old(pos)..pos]);
    }

    // read64s: the bytes are shifted into a word of 64 bits, which holds a signed number.
    method Read64() returns (n: int)
      requires pos + 8 <= |src|
      modifies `pos
      ensures n == Signed(src[old(pos)..old(pos) + 8]) && pos == old(pos) + 8
    {
      var u: int := ReadUnsigned(8);
      n := if u < 0x8000_0000_0000_0000 then u else u - 0x1_0000_0000_0000_0000;
      Powers();
    }

    method ReadBytes(len: nat) returns (bs: seq<Byte>)
      requires pos + len <= |src|
      modifies `pos
      ensures bs == src[old(pos)..old(pos) + len] && pos == old(pos) + len
    {
      bs := src[pos..pos + len];
      pos := pos + len;
    }

    // The data of a custom block, after the code.
    method ReadCustomData() returns (t: Token)
      requires 0 < pos <= |src| && ReadCustom(src[pos - 1..]).Some?
      modifies `pos
      ensures var r := ReadCustom(old(src[pos - 1..])).value; t == r.0 && pos == old(pos) - 1 + r.1 <= |src|
    {
      ghost var bs := src[pos - 1..];
      assert bs[1..4] == src[pos..pos + 3];
      ghost var p := pos;
      var id := ReadBytes(3);
      if id == Ident(Int32) {
        assert src[p + 3..p + 7] == bs[4..8];
        var n := ReadSigned(4);
        t := Custom(Int32, n);
      } else if id == Ident(Int64) {
        assert src[p + 3..p + 11] == bs[4..12];
        var n := Read64();
        t := Custom(Int64, n);
      } else {
        assert src[p + 3] == bs[4];
        var size := src[pos];
        pos := pos + 1;
        if size == 1 {
          assert src[p + 4..p + 8] == bs[5..9];
          var n := ReadSigned(4);
          t := Custom(NativeInt, n);
        } else {
          assert src[p + 4..p + 12] == bs[5..13];
          var n := Read64();
          t := Custom(NativeInt, n);
        }
      }
    }

    // The integer of k bytes after a code.
    method ReadIntToken(k: nat) returns (t: Token)
      requires 0 < pos <= |src| && ReadInt(src[pos - 1..], k).Some? && (k == 1 || k == 2 || k == 4 || k == 8)
      modifies `pos
      ensures var r := ReadInt(old(src[pos - 1..]), k).value; t == r.0 && pos == old(pos) - 1 + r.1 <= |src|
    {
      assert src[pos - 1..][1..1 + k] == src[pos..pos + k];
      var n;
      if k == 8 { n := Read64(); } else { n := ReadSigned(k); }
      t := Int(n);
    }

    method ReadSharedToken(k: nat) returns (t: Token)
      requires 0 < pos <= |src| && ReadShared(src[pos - 1..], k).Some?
      modifies `pos
      ensures var r := ReadShared(old(src[pos - 1..]), k).value; t == r.0 && pos == old(pos) - 1 + r.1 <= |src|
    {
      assert src[pos - 1..][1..1 + k] == src[pos..pos + k];
      var d := ReadUnsigned(k);
      t := Shared(d);
    }

    method ReadBlkToken(k: nat) returns (t: Token)
      requires 0 < pos <= |src| && ReadBlk(src[pos - 1..], k).Some?
      modifies `pos
      ensures var r := ReadBlk(old(src[pos - 1..]), k).value; t == r.0 && pos == old(pos) - 1 + r.1 <= |src|
    {
      assert src[pos - 1..][1..1 + k] == src[pos..pos + k];
      var hd := ReadUnsigned(k);
      t := Blk(hd / 1024, hd % 256, hd / 256 % 4);
    }

    // A string whose length is in the k bytes after the code.
    method ReadLongStr(k: nat) returns (t: Token)
      requires 0 < pos && pos + k <= |src|
      requires ReadStr(src[pos - 1..], 1 + k, Unsigned(src[pos - 1..][1..1 + k])).Some?
      modifies `pos
      ensures var bs := old(src[pos - 1..]); var r := ReadStr(bs, 1 + k, Unsigned(bs[1..1 + k])).value;
        t == r.0 && pos == old(pos) - 1 + r.1 <= |src|
    {
      ghost var p, bs := pos, src[pos - 1..];
      assert bs[1..1 + k] == src[p..p + k];
      var len := ReadUnsigned(k);
      assert bs[1 + k..1 + k + len] == src[p + k..p + k + len];
      var s := ReadBytes(len);
      t := Str(s);
    }

    // The part of intern_rec that takes the code and what follows it.
    method ReadToken() returns (t: Token)
      requires pos <= |src| && Decode(src[pos..]).Some?
      modifies `pos
      ensures var r := Decode(old(src[pos..])).value; t == r.0 && pos == old(pos) + r.1 <= |src|
    {
      hide Unsigned;
      hide Signed;
      hide ReadCustom;
      hide ReadInt;
      hide ReadBlk;
      hide ReadShared;
      var code := src[pos];
      pos := pos + 1;
      assert src[pos - 1..] == old(src[pos..]);
      if code >= 0x80 {
        t := Blk((code / 16) % 8, code % 16, 0);
      } else if code >= 0x40 {
        t := Int(code % 0x40);
      } else if code >= 0x20 {
        assert src[pos - 1..][1..1 + code % 0x20] == src[pos..pos + code % 0x20];
        var s := ReadBytes(code % 0x20);
        t := Str(s);
      } else if code == CODE_INT8 || code == CODE_INT16 || code == CODE_INT32 || code == CODE_INT64 {
        t := ReadIntToken(if code == CODE_INT8 then 1 else if code == CODE_INT16 then 2
                          else if code == CODE_INT32 then 4 else 8);
      } else if code == CODE_SHARED8 || code == CODE_SHARED16 || code == CODE_SHARED32 {
        t := ReadSharedToken(if code == CODE_SHARED8 then 1 else if code == CODE_SHARED16 then 2 else 4);
      } else if code == CODE_BLOCK32 || code == CODE_BLOCK64 {
        t := ReadBlkToken(if code == CODE_BLOCK32 then 4 else 8);
      } else if code == CODE_STRING8 || code == CODE_STRING32 {
        t := ReadLongStr(if code == CODE_STRING8 then 1 else 4);
      } else {
        t := ReadCustomData();
      }
    }

    // The header of a new block, which gets the next number.
    method NewBlock(size: nat, tag: nat) returns (v: nat)
      requires dest < mem.Length
      modifies `table, `dest, mem
      ensures v == old(dest) + 1 && dest == old(dest) + 1 + size && table == old(table) + [v]
      ensures mem[..] == old(mem[..])[old(dest) := Hdr(size, tag)]
    {
      v := dest + 1;
      table := table + [v];
      mem[dest] := Hdr(size, tag);
      dest := dest + 1 + size;
    }

    // A string: null the last word, store the padding, then the bytes.
    method InternStr(s: seq<Byte>, ghost k: nat, ghost all: seq<Copy>, ghost order: seq<nat>) returns (w: Cell)
      requires Placed(order, all) && k == |order| < |all| && all[k] == CStr(s)
      modifies `table, `dest, mem
      ensures w == At(Base(all, k) + 1) && table == old(table) + [Base(all, k) + 1]
      ensures dest == Base(all, k + 1) && Built(mem[..], all, k, k + 1)
      ensures Within(old(mem[..]), mem[..], Base(all, k), Base(all, k + 1))
    {
      RoomFor(all, k);
      var size := (|s| + 8) / 8;
      ghost var m, b := mem[..], dest;
      var v := NewBlock(size, STRING_TAG);
      var junk: seq<Byte> := seq(8 * size, _ => 0xFF);
      var bytes := junk[..8 * (size - 1)] + [0, 0, 0, 0, 0, 0, 0, 0];
      var last: nat := 8 * size - 1;
      bytes := bytes[last := last - |s|];
      bytes := s + bytes[|s|..];
      PaddedBytes(s, bytes, junk);
      StoreBytes(v, bytes, s);
      w := At(v);
      StringBuilt(m, mem[..], all, k, s);
      BuiltOne(m, mem[..], all, k);
    }

    // readblock, word by word.
    method StoreBytes(v: nat, bytes: seq<Byte>, ghost s: seq<Byte>)
      requires bytes == Padded(s) && v + (|s| + 8) / 8 <= mem.Length
      modifies mem
      ensures var n := (|s| + 8) / 8;
        mem[..] == old(mem[..])[..v] + RawCells(StringWords(s)) + old(mem[..])[v + n..]
    {
      ghost var m, cs := mem[..], RawCells(StringWords(s));
      var n := |bytes| / 8;
      for i := 0 to n
        invariant mem[..] == m[..v] + cs[..i] + m[v + i..]
      {
        assert cs[i] == CRaw(bytes[8 * i..8 * i + 8]);
        mem[v + i] := CRaw(bytes[8 * i..8 * i + 8]);
        StoreNext(m, cs, v, i);
      }
    }

    method InternCustom(kind: Kind, n: int, ghost k: nat, ghost all: seq<Copy>, ghost order: seq<nat>)
      returns (w: Cell)
      requires Placed(order, all) && k == |order| < |all| && all[k] == CCustom(kind, n)
      modifies `table, `dest, mem
      ensures w == At(Base(all, k) + 1) && table == old(table) + [Base(all, k) + 1]
      ensures dest == Base(all, k + 1) && Built(mem[..], all, k, k + 1)
      ensures Within(old(mem[..]), mem[..], Base(all, k), Base(all, k + 1))
    {
      RoomFor(all, k);
      ghost var m := mem[..];
      var v := NewBlock(2, CUSTOM_TAG);
      mem[v] := COps(kind);
      mem[v + 1] := CNum(n);
      w := At(v);
      BuiltOne(m, mem[..], all, k);
    }

    lemma PlacedFacts(order: seq<nat>, all: seq<Copy>)
      requires Placed(order, all)
      ensures pos <= |src| && |table| == |order| <= |all| && Sum64(all) <= mem.Length && dest == Base(all, |order|)
      ensures forall i :: 0 <= i < |table| ==> table[i] == Base(all, i) + 1
    {
    }

    // A block of values, after its code.
    method InternBlock(size: nat, tag: nat, ghost a: nat, ghost vs: seq<Word>, ghost g: Graph, ghost order: seq<nat>,
                       ghost t: Trace, ghost all: seq<Copy>) returns (w: Cell)
      requires SaysBlock(g, order, t, tag, a, vs) && |vs| == size && Placed(order, all)
      requires |t.order| <= |all| && all[|order|..|t.order|] == t.copies && |t.order| == |order| + |t.copies|
      requires EncodeAll(t.toks[1..]) <= src[pos..] && forall tok :: tok in t.toks ==> Holds(tok)
      modifies `pos, `table, `dest, mem
      ensures pos == old(pos) + |EncodeAll(t.toks[1..])| && Placed(t.order, all) && old(table) <= table
      ensures t.refs == [t.refs[0]] && w == CellOf(all, t.refs[0])
      ensures Built(mem[..], all, |order|, |t.order|)
      ensures Within(old(mem[..]), mem[..], Base(all, |order|), Base(all, |t.order|))
      decreases |src| - pos, 2
    {
      hide VisitAll;
      hide EncodeAll;
      hide Holds;
      hide GraphOk;
      hide Built;
      hide Within;
      ghost var k, m, refs := |order|, mem[..], VisitAll(g, order + [a], vs).t.refs;
      BlockReads(g, order, t, tag, a, vs, all, src[pos..]);
      RoomFor(all, k);
      var v := NewBlock(size, tag);
      ghost var m' := mem[..];
      InternFields(v, size, k, g, order + [a], vs, all);
      FieldsDone(m, m', mem[..], all, k, refs, tag, |t.order|);
      w := At(v);
    }

    // The fields of block number k, whose header has been made.
    method InternFields(v: nat, size: nat, ghost k: nat, ghost g: Graph, ghost order: seq<nat>, ghost vs: seq<Word>,
                        ghost all: seq<Copy>)
      requires pos <= |src| && ReadsAll(g, order, vs, all, src[pos..]) && size == |vs|
      requires Placed(order, all) && |order| == k + 1 && v == Base(all, k) + 1 && dest == v + size
      requires BlockCopy(all, k, VisitAll(g, order, vs).t.refs)
      modifies `pos, `table, `dest, mem
      ensures var u := VisitAll(g, order, vs).t;
        && pos == old(pos) + |EncodeAll(u.toks)| && Placed(u.order, all) && old(table) <= table
        && FieldsRead(old(mem[..]), mem[..], all, k, u.refs, size, |u.order|)
      decreases |src| - pos, 1
    {
      hide Reader.Placed;
      hide ReadsAll;
      hide VisitAll;
      hide Visit;
      hide EncodeAll;
      hide FieldsRead;
      hide BlockCopy;
      ghost var m, p, input := mem[..], pos, src[pos..];
      ReadsNone(g, order, vs, all, input);
      ghost var refs := VisitAll(g, order, vs).t.refs;
      PlacedFacts(order, all);
      FieldsNone(m, all, k, refs);
      var j := 0;
      while j < size
        invariant j <= size && VisitAll(g, order, vs[..j]).Said? && src == old(src)
        invariant var t := VisitAll(g, order, vs[..j]).t;
          && pos == p + |EncodeAll(t.toks)| <= |src| && Placed(t.order, all) && old(table) <= table
          && FieldsRead(m, mem[..], all, k, refs, j, |t.order|)
        decreases size - j
      {
        ghost var t := VisitAll(g, order, vs[..j]).t;
        FieldReads(g, order, vs, all, input, j);
        assert input[|EncodeAll(t.toks)|..] == src[pos..];
        FieldRefs(g, order, vs, all, input, j);
        ghost var m1 := mem[..];
        PlacedFacts(t.order, all);
        var w := InternRec(g, t.order, vs[j], all);
        ghost var m2 := mem[..];
        ghost var r := Visit(g, t.order, vs[j]).t;
        PlacedFacts(r.order, all);
        FieldNext(m, m1, m2, all, k, refs, j, |t.order|, |r.order|, w);
        mem[v + j] := w;
        assert mem[..] == m2[v + j := w];
        j := j + 1;
      }
      assert vs[..size] == vs;
    }

    // intern_rec, on what was written for the visit of v.
    method InternRec(ghost g: Graph, ghost order: seq<nat>, ghost v: Word, ghost all: seq<Copy>) returns (w: Cell)
      requires pos <= |src| && Reads(g, order, v, all, src[pos..]) && Placed(order, all)
      modifies `pos, `table, `dest, mem
      ensures var t := Visit(g, order, v).t;
        && pos == old(pos) + |EncodeAll(t.toks)| && Placed(t.order, all) && old(table) <= table
        && t.refs == [t.refs[0]] && w == CellOf(all, t.refs[0])
        && Built(mem[..], all, |order|, |t.order|)
        && Within(old(mem[..]), mem[..], Base(all, |order|), Base(all, |t.order|))
      decreases |src| - pos, 0
    {
      hide ReadsAll;
      hide VisitAll;
      hide Visit;
      hide EncodeAll;
      hide Encode;
      hide Decode;
      hide Holds;
      hide GraphOk;
      ghost var input, t := src[pos..], Visit(g, order, v).t;
      ghost var k, m := |order|, mem[..];
      FirstToken(g, order, v, all, input);
      SpeechOf(g, order, v);
      VisitCounts(g, order, v);
      EncodeFirst(t.toks);
      BaseAtMost(all, k);
      var tok := ReadToken();
      match tok {
        case Int(n) =>
          w := CImm(n);
        case Shared(d) =>
          w := At(table[|table| - d]);
        case Str(s) =>
          assert all[k] == all[k..|t.order|][0];
          w := InternStr(s, k, all, order);
        case Custom(kind, n) =>
          assert all[k] == all[k..|t.order|][0];
          w := InternCustom(kind, n, k, all, order);
        case Blk(size, tag, _) =>
          if size == 0 {
            w := AtomAt(tag);
          } else {
            ghost var a, vs :| |vs| == size && SaysBlock(g, order, t, tag, a, vs);
            w := InternBlock(size, tag, a, vs, g, order, t, all);
          }
      }
    }
  }

  // ---- The fields of a block ----

  // Block number k is to hold refs.
  ghost predicate BlockCopy(all: seq<Copy>, k: nat, refs: seq<Ref>) {
    k < |all| && all[k].CBlk? && all[k].refs == refs
  }

  // The first j fields of block k have been read, and with them the blocks up to number hi - 1.
  ghost predicate FieldsRead(m: seq<Cell>, m': seq<Cell>, all: seq<Copy>, k: nat, refs: seq<Ref>, j: nat, hi: nat) {
    && k < hi <= |all| && j <= |refs|
    && Base(all, k) + 1 + |refs| == Base(all, k + 1) <= Base(all, hi)
    && Within(m, m', Base(all, k) + 1, Base(all, hi))
    && Built(m', all, k + 1, hi)
    && forall i :: 0 <= i < j ==> m'[Base(all, k) + 1 + i] == CellOf(all, refs[i])
  }

  lemma FieldsNone(m: seq<Cell>, all: seq<Copy>, k: nat, refs: seq<Ref>)
    requires BlockCopy(all, k, refs) && Sum64(all) <= |m|
    ensures FieldsRead(m, m, all, k, refs, 0, k + 1)
  {
    RoomFor(all, k);
  }

  lemma FieldNext(m: seq<Cell>, m1: seq<Cell>, m2: seq<Cell>, all: seq<Copy>, k: nat, refs: seq<Ref>, j: nat,
                  lo: nat, hi: nat, w: Cell)
    requires FieldsRead(m, m1, all, k, refs, j, lo) && j < |refs| && w == CellOf(all, refs[j])
    requires lo <= hi <= |all| && Built(m2, all, lo, hi) && Within(m1, m2, Base(all, lo), Base(all, hi))
    ensures Base(all, k) + 1 + j < |m2|
    ensures FieldsRead(m, m2[Base(all, k) + 1 + j := w], all, k, refs, j + 1, hi)
  {
    hide Base;
    hide CellOf;
    hide BuiltAt;
    var b := Base(all, k) + 1;
    var m3 := m2[b + j := w];
    BaseGrows(all, k + 1, lo);
    BaseGrows(all, lo, hi);
    BuiltStays(m1, m2, all, k + 1, lo, Base(all, lo), Base(all, hi));
    BuiltJoin(m2, all, k + 1, lo, hi);
    assert Within(m2, m3, b + j, b + j + 1);
    BuiltStays(m2, m3, all, k + 1, hi, b + j, b + j + 1);
    WithinTwice(m, m1, m2, b, Base(all, lo), Base(all, lo), Base(all, hi), b, Base(all, hi));
    WithinTwice(m, m2, m3, b, Base(all, hi), b + j, b + j + 1, b, Base(all, hi));
    forall i | 0 <= i < j ensures m3[b + i] == CellOf(all, refs[i]) {
      assert m2[b + i] == m2[..Base(all, lo)][b + i] == m1[..Base(all, lo)][b + i];
    }
  }

  lemma FieldsDone(m: seq<Cell>, m': seq<Cell>, m'': seq<Cell>, all: seq<Copy>, k: nat, refs: seq<Ref>, tag: nat,
                   hi: nat)
    requires BlockCopy(all, k, refs) && all[k].tag == tag && Base(all, k) < |m| && Sum64(all) <= |m|
    requires m' == m[Base(all, k) := Hdr(|refs|, tag)] && FieldsRead(m', m'', all, k, refs, |refs|, hi)
    ensures Built(m'', all, k, hi) && Within(m, m'', Base(all, k), Base(all, hi))
  {
    hide Base;
    hide CellOf;
    var b := Base(all, k);
    BaseGrows(all, k + 1, hi);
    assert Within(m, m', b, b + 1);
    WithinTwice(m, m', m'', b, b + 1, b + 1, Base(all, hi), b, Base(all, hi));
    assert BuiltAt(m'', all, k) by {
      assert m''[b] == m''[..b + 1][b] == m'[..b + 1][b];
      assert m''[b..b + Size64(all[k])] == Layout(all, all[k]);
    }
  }

  lemma ReadsNone(g: Graph, order: seq<nat>, vs: seq<Word>, all: seq<Copy>, input: seq<Byte>)
    requires ReadsAll(g, order, vs, all, input)
    ensures GraphOk(g) && VisitAll(g, order, vs).Said?
    ensures VisitAll(g, order, vs[..0]) == Said(Trace([], [], order, [], true)) && EncodeAll([]) == []
    ensures |VisitAll(g, order, vs).t.refs| == |vs|
  {
  }

  lemma FieldRefs(g: Graph, order: seq<nat>, vs: seq<Word>, all: seq<Copy>, input: seq<Byte>, j: nat)
    requires ReadsAll(g, order, vs, all, input) && j < |vs|
    ensures VisitAll(g, order, vs[..j]).Said?
    ensures var t := VisitAll(g, order, vs[..j]).t;
      && Visit(g, t.order, vs[j]).Said? && |Visit(g, t.order, vs[j]).t.refs| == 1
      && |VisitAll(g, order, vs).t.refs| == |vs|
      && VisitAll(g, order, vs).t.refs[j] == Visit(g, t.order, vs[j]).t.refs[0]
      && |t.order| <= |Visit(g, t.order, vs[j]).t.order| <= |all|
  {
    hide Visit;
    hide VisitAll;
    FieldReads(g, order, vs, all, input, j);
    PrefixVisit(g, order, vs, j);
    PrefixVisit(g, order, vs, j + 1);
    var t := VisitAll(g, order, vs[..j]).t;
    VisitCounts(g, t.order, vs[j]);
    VisitAllCounts(g, order, vs);
    assert VisitAll(g, order, vs[..j + 1]).t.refs[j] == Visit(g, t.order, vs[j]).t.refs[0];
  }

  lemma EncodeFirst(toks: seq<Token>)
    requires toks != []
    ensures EncodeAll(toks) == Encode(toks[0]) + EncodeAll(toks[1..])
    ensures |toks| == 1 ==> EncodeAll(toks) == Encode(toks[0])
  {
  }

  lemma BlockReads(g: Graph, order: seq<nat>, t: Trace, tag: nat, a: nat, vs: seq<Word>, all: seq<Copy>,
                   input: seq<Byte>)
    requires SaysBlock(g, order, t, tag, a, vs)
    requires |t.order| <= |all| && all[|order|..|t.order|] == t.copies && |t.order| == |order| + |t.copies|
    requires EncodeAll(t.toks[1..]) <= input && forall tok :: tok in t.toks ==> Holds(tok)
    ensures ReadsAll(g, order + [a], vs, all, input) && |order| < |all|
    ensures var u := VisitAll(g, order + [a], vs).t;
      && BlockCopy(all, |order|, u.refs) && all[|order|].tag == tag && |u.refs| == |vs|
      && t.toks[1..] == u.toks && t.order == u.order && t.refs == [RObj(|order|)]
  {
    hide Holds;
    hide GraphOk;
    hide VisitAll;
    var u := VisitAll(g, order + [a], vs).t;
    assert t.toks[1..] == u.toks;
    VisitAllCounts(g, order + [a], vs);
    assert all[|order|] == all[|order|..|t.order|][0];
    assert all[|order| + 1..|t.order|] == t.copies[1..] == u.copies;
  }

  lemma BaseAtMost(all: seq<Copy>, k: nat)
    requires k <= |all|
    ensures Base(all, k) <= Sum64(all)
  {
    BaseGrows(all, k, |all|);
    assert all[..|all|] == all;
  }

  lemma RoomFor(all: seq<Copy>, k: nat)
    requires k < |all|
    ensures Base(all, k + 1) == Base(all, k) + Size64(all[k]) <= Sum64(all) && Size64(all[k]) >= 1
  {
    BaseNext(all, k);
    BaseGrows(all, k + 1, |all|);
    assert all[..|all|] == all;
  }

  lemma PaddedBytes(s: seq<Byte>, bytes: seq<Byte>, junk: seq<Byte>)
    requires var size := (|s| + 8) / 8; |junk| == 8 * size
    requires var size := (|s| + 8) / 8; var last: nat := 8 * size - 1;
      bytes == s + (junk[..8 * (size - 1)] + [0, 0, 0, 0, 0, 0, 0, 0])[last := last - |s|][|s|..]
    ensures bytes == Padded(s)
  {
  }

  lemma StoreNext(m: seq<Cell>, cs: seq<Cell>, v: nat, i: nat)
    requires i < |cs| && v + i < |m|
    ensures (m[..v] + cs[..i] + m[v + i..])[v + i := cs[i]] == m[..v] + cs[..i + 1] + m[v + i + 1..]
  {
  }

  lemma StringBuilt(m: seq<Cell>, m': seq<Cell>, all: seq<Copy>, k: nat, s: seq<Byte>)
    requires k < |all| && all[k] == CStr(s) && Base(all, k) + Size64(all[k]) <= |m|
    requires var b, n := Base(all, k), (|s| + 8) / 8; var h := m[b := Hdr(n, STRING_TAG)];
      m' == h[..b + 1] + RawCells(StringWords(s)) + h[b + 1 + n..]
    ensures |m'| == |m| && m'[..Base(all, k)] == m[..Base(all, k)]
    ensures m'[Base(all, k) + Size64(all[k])..] == m[Base(all, k) + Size64(all[k])..]
    ensures m'[Base(all, k)..Base(all, k) + Size64(all[k])] == Layout(all, all[k])
  {
    hide Base;
    hide StringWords;
    hide RawCells;
    var b, n := Base(all, k), (|s| + 8) / 8;
    var h := m[b := Hdr(n, STRING_TAG)];
    assert h[..b + 1] == m[..b] + [Hdr(n, STRING_TAG)];
  }

  // The last block, when its words are there.
  lemma BuiltOne(m: seq<Cell>, m': seq<Cell>, all: seq<Copy>, k: nat)
    requires k < |all| && Base(all, k + 1) == Base(all, k) + Size64(all[k]) <= |m| == |m'|
    requires m'[..Base(all, k)] == m[..Base(all, k)] && m'[Base(all, k + 1)..] == m[Base(all, k + 1)..]
    requires m'[Base(all, k)..Base(all, k) + Size64(all[k])] == Layout(all, all[k])
    ensures Built(m', all, k, k + 1) && Within(m, m', Base(all, k), Base(all, k + 1))
  {
  }

  lemma ExtendedOne(b: Byte)
    ensures Extended([b]) == if b < 128 then b else b - 256
  {
    assert [b][..0] == [];
    assert Unsigned([b][..0]) == 0;
    Powers();
  }
}
