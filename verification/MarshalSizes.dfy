// The sizes that extern_rec counts, and which tokens they keep within their codes.
module MarshalSizes {
  import opened Header
  import opened MarshalBytes
  import opened MarshalGraph

  // Words that a block takes on a 64-bit machine, with its header.
  function Size64(c: Copy): nat {
    match c
    case CStr(s) => 1 + (|s| + 8) / 8
    case CCustom(_, _) => 3
    case CBlk(_, refs) => 1 + |refs|
  }

  // And on a 32-bit machine.
  function Size32(c: Copy): nat {
    match c
    case CStr(s) => 1 + (|s| + 4) / 4
    case CCustom(kind, _) => 2 + (if kind == Int64 then 2 else 1)
    case CBlk(_, refs) => 1 + |refs|
  }

  // A string and the byte that ends its padding fit in the words counted and in no fewer, be they of 8 bytes or
  // of 4, and so does the data of a custom block: 8 bytes for an int64, 4 for the others on a 32-bit machine.
  lemma SizesFit(s: seq<Byte>, n: int)
    ensures 8 * (Size64(CStr(s)) - 2) < |s| + 1 <= 8 * (Size64(CStr(s)) - 1)
    ensures 4 * (Size32(CStr(s)) - 2) < |s| + 1 <= 4 * (Size32(CStr(s)) - 1)
    ensures 4 * (Size32(CCustom(Int64, n)) - 2) == 8
    ensures 4 * (Size32(CCustom(Int32, n)) - 2) == 4 == 4 * (Size32(CCustom(NativeInt, n)) - 2)
    ensures forall kind :: 8 * (Size64(CCustom(kind, n)) - 2) == 8
  {
  }

  function Sum64(cs: seq<Copy>): nat {
    if cs == [] then 0 else Size64(cs[0]) + Sum64(cs[1..])
  }

  function Sum32(cs: seq<Copy>): nat {
    if cs == [] then 0 else Size32(cs[0]) + Sum32(cs[1..])
  }

  lemma {:induction false} SumMore(cs: seq<Copy>, ds: seq<Copy>)
    ensures Sum64(cs + ds) == Sum64(cs) + Sum64(ds)
    ensures Sum32(cs + ds) == Sum32(cs) + Sum32(ds)
  {
    if cs == [] {
      assert cs + ds == ds;
    } else {
      assert (cs + ds)[1..] == cs[1..] + ds;
      SumMore(cs[1..], ds);
    }
  }

  // ---- Visiting one more value ----

  ghost function Then(r: Visited, r': Visited): Visited {
    if r.Refused? || r'.Refused? then Refused
    else Said(Trace(r.t.refs + r'.t.refs, r.t.toks + r'.t.toks, r'.t.order, r.t.copies + r'.t.copies,
                    r.t.clean && r'.t.clean))
  }

  lemma {:induction false} VisitSnoc(g: Graph, order: seq<nat>, vs: seq<Word>, v: Word)
    requires GraphOk(g) && VisitAll(g, order, vs).Said?
    ensures VisitAll(g, order, vs + [v]) == Then(VisitAll(g, order, vs), Visit(g, VisitAll(g, order, vs).t.order, v))
    decreases |vs|
  {
    hide GraphOk;
    hide Visit;
    var ws := vs + [v];
    if vs == [] {
      assert ws[1..] == [];
      var r := Visit(g, order, v);
      if r.Said? {
        assert VisitAll(g, r.t.order, []) == Said(Trace([], [], r.t.order, [], true));
        assert r.t.refs + [] == r.t.refs && r.t.toks + [] == r.t.toks && r.t.copies + [] == r.t.copies;
        assert [] + r.t.refs == r.t.refs && [] + r.t.toks == r.t.toks && [] + r.t.copies == r.t.copies;
      }
    } else {
      assert ws[0] == vs[0] && ws[1..] == vs[1..] + [v];
      var t := Visit(g, order, vs[0]).t;
      VisitSnoc(g, t.order, vs[1..], v);
      var u := VisitAll(g, t.order, vs[1..]).t;
      var r := Visit(g, u.order, v);
      if r.Said? {
        assert t.refs + (u.refs + r.t.refs) == (t.refs + u.refs) + r.t.refs;
        assert t.toks + (u.toks + r.t.toks) == (t.toks + u.toks) + r.t.toks;
        assert t.copies + (u.copies + r.t.copies) == (t.copies + u.copies) + r.t.copies;
      }
    }
  }

  lemma {:induction false} RefusedMore(g: Graph, order: seq<nat>, vs: seq<Word>, n: nat)
    requires GraphOk(g) && n <= |vs| && VisitAll(g, order, vs[..n]).Refused?
    ensures VisitAll(g, order, vs).Refused?
    decreases |vs|
  {
    hide GraphOk;
    hide Visit;
    if n > 0 {
      assert vs[..n][0] == vs[0] && vs[..n][1..] == vs[1..][..n - 1];
      var r := Visit(g, order, vs[0]);
      if r.Said? { RefusedMore(g, r.t.order, vs[1..], n - 1); }
    }
  }

  lemma {:induction false} SaidPrefix(g: Graph, order: seq<nat>, vs: seq<Word>, n: nat)
    requires GraphOk(g) && n <= |vs| && VisitAll(g, order, vs).Said?
    ensures VisitAll(g, order, vs[..n]).Said?
    decreases n
  {
    if VisitAll(g, order, vs[..n]).Refused? { RefusedMore(g, order, vs, n); }
  }

  // ---- Tokens ----

  // The token holds but for a length or an offset of 32 bits or more.
  ghost predicate AlmostHolds(tok: Token, n: nat) {
    Holds(tok) || tok.Str? || (tok.Shared? && tok.d <= n)
  }

  ghost predicate AllAlmost(toks: seq<Token>, n: nat) {
    forall tok :: tok in toks ==> AlmostHolds(tok, n)
  }

  lemma {:induction false} VisitHolds(g: Graph, order: seq<nat>, v: Word)
    requires GraphOk(g) && ValueOk(g, v) && |order| < 0x1_0000_0000_0000_0000
    requires Visit(g, order, v).Said? && |Visit(g, order, v).t.order| < 0x1_0000_0000_0000_0000
    ensures var t := Visit(g, order, v).t; AllAlmost(t.toks, |t.order|)
    decreases Rank(g, order), 0
  {
    LookValue(g, order, v);
    match Look(g, order, v)
    case Ptr(a) =>
      var o := g[a];
      assert NodeOk(g, o);
      if o.words != [] && a !in order && o.tag != STRING_TAG && o.tag != CUSTOM_TAG {
        RankLess(g, order, a);
        VisitAllHolds(g, order + [a], o.words);
      }
    case _ =>
  }

  lemma LookValue(g: Graph, order: seq<nat>, v: Word)
    requires GraphOk(g) && ValueOk(g, v) && |order| < 0x1_0000_0000_0000_0000
    ensures ValueOk(g, Look(g, order, v))
  {
    if v.Ptr? && v.a in g && g[v.a].tag == FORWARD_TAG && g[v.a].words != [] {
      assert NodeOk(g, g[v.a]);
      assert g[v.a].words[0] in g[v.a].words;
    }
  }

  lemma {:induction false} VisitAllHolds(g: Graph, order: seq<nat>, vs: seq<Word>)
    requires GraphOk(g) && (forall v :: v in vs ==> ValueOk(g, v)) && |order| < 0x1_0000_0000_0000_0000
    requires VisitAll(g, order, vs).Said? && |VisitAll(g, order, vs).t.order| < 0x1_0000_0000_0000_0000
    ensures var t := VisitAll(g, order, vs).t; AllAlmost(t.toks, |t.order|)
    decreases Rank(g, order), 1 + |vs|
  {
    hide Visit;
    hide GraphOk;
    if vs != [] {
      var t := Visit(g, order, vs[0]).t;
      SubsetAtMost(Unseen(g, t.order), Unseen(g, order));
      assert vs[0] in vs && forall v :: v in vs[1..] ==> v in vs;
      VisitHolds(g, order, vs[0]);
      VisitAllHolds(g, t.order, vs[1..]);
    }
  }

  // Each block has a token of its own.
  lemma {:induction false} VisitCount(g: Graph, order: seq<nat>, v: Word)
    requires GraphOk(g) && Visit(g, order, v).Said?
    ensures var t := Visit(g, order, v).t; |t.copies| <= |t.toks|
    decreases Rank(g, order), 0
  {
    match Look(g, order, v)
    case Ptr(a) =>
      var o := g[a];
      assert NodeOk(g, o);
      if o.words != [] && a !in order && o.tag != STRING_TAG && o.tag != CUSTOM_TAG {
        RankLess(g, order, a);
        VisitAllCount(g, order + [a], o.words);
      }
    case _ =>
  }

  lemma {:induction false} VisitAllCount(g: Graph, order: seq<nat>, vs: seq<Word>)
    requires GraphOk(g) && VisitAll(g, order, vs).Said?
    ensures var t := VisitAll(g, order, vs).t; |t.copies| <= |t.toks|
    decreases Rank(g, order), 1 + |vs|
  {
    hide Visit;
    hide GraphOk;
    if vs != [] {
      var t := Visit(g, order, vs[0]).t;
      SubsetAtMost(Unseen(g, t.order), Unseen(g, order));
      VisitCount(g, order, vs[0]);
      VisitAllCount(g, t.order, vs[1..]);
    }
  }

  lemma {:induction false} TokenInside(ts: seq<Token>, t: Token)
    ensures |ts| <= |EncodeAll(ts)|
    ensures t in ts ==> |Encode(t)| <= |EncodeAll(ts)|
  {
    hide Encode;
    if ts != [] { TokenInside(ts[1..], t); }
  }

  // When the whole is shorter than 2^32 bytes, no length, offset or header was truncated.
  lemma NothingTruncated(g: Graph, v: Word)
    requires GraphOk(g) && ValueOk(g, v) && Visit(g, [], v).Said?
    requires |EncodeAll(Visit(g, [], v).t.toks)| < 0x1_0000_0000
    ensures forall tok :: tok in Visit(g, [], v).t.toks ==> Holds(tok)
  {
    hide EncodeAll;
    hide Visit;
    var t := Visit(g, [], v).t;
    VisitCount(g, [], v);
    TokenInside(t.toks, Int(0));
    VisitHolds(g, [], v);
    forall tok | tok in t.toks ensures Holds(tok) {
      assert AlmostHolds(tok, |t.order|);
      TokenInside(t.toks, tok);
    }
  }
}
