// When the graph that the tokens describe is the graph that was visited.
module MarshalMirror {
  import opened Header
  import opened MarshalGraph

  // r is v, up to the bypassed forwarding blocks, when blocks are named by their numbers.
  ghost predicate Mirrors(g: Graph, order: seq<nat>, v: Word, r: Ref) {
    match Bypass(g, v)
    case Imm(n) => r == RImm(n)
    case Ptr(a) =>
      a in g && if g[a].words == [] then r == RAtom(g[a].tag) else a in order && r == RObj(IndexOf(order, a))
    case _ => false
  }

  ghost predicate MirrorsNode(g: Graph, order: seq<nat>, a: nat, c: Copy) {
    a in g && NodeOk(g, g[a]) && g[a].words != [] &&
    var o := g[a];
    if o.tag == STRING_TAG then c == CStr(StringOf(o.words))
    else if o.tag == ABSTRACT_TAG then false
    else if o.tag == CUSTOM_TAG then o.words[0].kind.Some? && c == CCustom(o.words[0].kind.value, o.words[1].n)
    else c.CBlk? && c.tag == o.tag && MirrorsAll(g, order, o.words, c.refs)
  }

  ghost predicate MirrorsAll(g: Graph, order: seq<nat>, vs: seq<Word>, rs: seq<Ref>) {
    |rs| == |vs| && forall j :: 0 <= j < |vs| ==> Mirrors(g, order, vs[j], rs[j])
  }

  // The copies are those of the blocks order[from..].
  ghost predicate MirrorsFrom(g: Graph, order: seq<nat>, from: nat, copies: seq<Copy>) {
    from + |copies| <= |order| && forall i :: 0 <= i < |copies| ==> MirrorsAt(g, order, from, copies, i)
  }

  ghost predicate MirrorsAt(g: Graph, order: seq<nat>, from: nat, copies: seq<Copy>, i: nat)
    requires i < |copies| && from + |copies| <= |order|
  {
    MirrorsNode(g, order, order[from + i], copies[i])
  }

  // Numbered blocks are blocks of the graph that are not bypassed.
  ghost predicate Numbered(g: Graph, order: seq<nat>) {
    && (forall i :: 0 <= i < |order| ==> NumberedOk(g, order[i]))
    && (forall i, j :: 0 <= i < j < |order| ==> order[i] != order[j])
  }

  ghost predicate NumberedOk(g: Graph, a: nat) {
    a in g && g[a].words != [] && Bypass(g, Ptr(a)) == Ptr(a)
  }

  lemma {:induction false} IndexOfLast(order: seq<nat>, a: nat)
    requires a !in order
    ensures a in order + [a] && IndexOf(order + [a], a) == |order|
  {
    assert (order + [a])[|order|] == a;
    if order != [] {
      assert (order + [a])[1..] == order[1..] + [a];
      IndexOfLast(order[1..], a);
    }
  }

  lemma NumberedSnoc(g: Graph, order: seq<nat>, a: nat)
    requires Numbered(g, order) && a !in order && NumberedOk(g, a)
    ensures Numbered(g, order + [a])
  {
  }

  // Bypassing leads to a block that is not bypassed.
  lemma LookOk(g: Graph, order: seq<nat>, v: Word)
    requires GraphOk(g) && Numbered(g, order)
    ensures var w := Look(g, order, v); w.Ptr? && w.a in g ==> Bypass(g, w) == w
    ensures !Confused(g, order, v) ==> Look(g, order, v) == Bypass(g, v)
  {
    if v.Ptr? && v.a in order {
      var i :| 0 <= i < |order| && order[i] == v.a;
      assert NumberedOk(g, order[i]);
    }
  }

  lemma {:induction false} VisitNumbered(g: Graph, order: seq<nat>, v: Word)
    requires GraphOk(g) && Numbered(g, order) && Visit(g, order, v).Said?
    ensures Numbered(g, Visit(g, order, v).t.order)
    decreases Rank(g, order), 0
  {
    hide Numbered;
    LookOk(g, order, v);
    match Look(g, order, v)
    case Ptr(a) =>
      var o := g[a];
      if o.words != [] && a !in order {
        NumberedSnoc(g, order, a);
        RankLess(g, order, a);
        assert NodeOk(g, o);
        if o.tag != STRING_TAG && o.tag != CUSTOM_TAG {
          VisitAllNumbered(g, order + [a], o.words);
        }
      }
    case _ =>
  }

  lemma {:induction false} VisitAllNumbered(g: Graph, order: seq<nat>, vs: seq<Word>)
    requires GraphOk(g) && Numbered(g, order) && VisitAll(g, order, vs).Said?
    ensures Numbered(g, VisitAll(g, order, vs).t.order)
    decreases Rank(g, order), 1 + |vs|
  {
    hide Numbered;
    if vs != [] {
      VisitNumbered(g, order, vs[0]);
      var t := Visit(g, order, vs[0]).t;
      SubsetAtMost(Unseen(g, t.order), Unseen(g, order));
      VisitAllNumbered(g, t.order, vs[1..]);
    }
  }

  // One value said of a block that was numbered before, or of none.
  lemma SaidBefore(g: Graph, order: seq<nat>, v: Word, final: seq<nat>)
    requires GraphOk(g) && Numbered(g, order) && order <= final
    requires Visit(g, order, v).Said? && Visit(g, order, v).t.copies == []
    ensures Mirrors(g, final, v, Visit(g, order, v).t.refs[0]) <==> !Confused(g, order, v)
    ensures Visit(g, order, v).t.clean == !Confused(g, order, v)
  {
    LookOk(g, order, v);
    match Look(g, order, v) {
      case Ptr(a) => if a in order { IndexStays(order, final, a); }
      case _ =>
    }
    if Confused(g, order, v) {
      var i := IndexOf(order, v.a);
      assert NumberedOk(g, order[i]);
    }
  }

  // The block that a visit numbers first.
  lemma SaidNow(g: Graph, order: seq<nat>, v: Word, final: seq<nat>) returns (a: nat)
    requires GraphOk(g) && Numbered(g, order)
    requires Visit(g, order, v).Said? && Visit(g, order, v).t.copies != [] && Visit(g, order, v).t.order <= final
    ensures a in g && a !in order && g[a].words != [] && Look(g, order, v) == Ptr(a) && NodeOk(g, g[a])
    ensures !Confused(g, order, v) && Numbered(g, order + [a]) && order + [a] <= final && final[|order|] == a
    ensures Mirrors(g, final, v, Visit(g, order, v).t.refs[0])
  {
    hide Numbered;
    LookOk(g, order, v);
    a := Look(g, order, v).a;
    NumberedSnoc(g, order, a);
    RankLess(g, order, a);
    IndexOfLast(order, a);
    IndexStays(order + [a], final, a);
  }

  ghost predicate Faithful(g: Graph, order: seq<nat>, vs: seq<Word>, t: Trace, final: seq<nat>) {
    MirrorsAll(g, final, vs, t.refs) && MirrorsFrom(g, final, |order|, t.copies)
  }

  // A visit is faithful if and only if it confuses nothing.
  lemma {:induction false} VisitFaithful(g: Graph, order: seq<nat>, v: Word, final: seq<nat>)
    requires GraphOk(g) && Numbered(g, order)
    requires Visit(g, order, v).Said? && Visit(g, order, v).t.order <= final
    ensures Visit(g, order, v).t.clean <==> Faithful(g, order, [v], Visit(g, order, v).t, final)
    decreases Rank(g, order), 0
  {
    hide Numbered;
    hide Mirrors;
    hide Look;
    var t := Visit(g, order, v).t;
    if t.copies == [] {
      SaidBefore(g, order, v, final);
    } else {
      var a := SaidNow(g, order, v, final);
      var o := g[a];
      ConsCopies(g, final, |order|, t.copies[0], t.copies[1..]);
      assert t.copies == [t.copies[0]] + t.copies[1..];
      if o.tag != STRING_TAG && o.tag != CUSTOM_TAG {
        RankLess(g, order, a);
        VisitAllFaithful(g, order + [a], o.words, final);
        var u := VisitAll(g, order + [a], o.words).t;
        assert t.copies[1..] == u.copies;
        BlkMirrors(g, final, a, u.refs);
      }
    }
  }

  lemma BlkMirrors(g: Graph, final: seq<nat>, a: nat, refs: seq<Ref>)
    requires a in g && NodeOk(g, g[a]) && g[a].words != []
    requires g[a].tag != STRING_TAG && g[a].tag != ABSTRACT_TAG && g[a].tag != CUSTOM_TAG
    ensures MirrorsNode(g, final, a, CBlk(g[a].tag, refs)) <==> MirrorsAll(g, final, g[a].words, refs)
  {
    hide Mirrors;
  }

  lemma ConsCopies(g: Graph, final: seq<nat>, from: nat, c: Copy, cs: seq<Copy>)
    requires from + 1 + |cs| <= |final|
    ensures MirrorsFrom(g, final, from, [c] + cs) <==>
            MirrorsNode(g, final, final[from], c) && MirrorsFrom(g, final, from + 1, cs)
  {
    hide MirrorsNode;
    AppendCopies(g, final, from, [c], cs);
    assert MirrorsFrom(g, final, from, [c]) <==> MirrorsAt(g, final, from, [c], 0);
  }

  lemma AppendCopies(g: Graph, final: seq<nat>, from: nat, cs: seq<Copy>, ds: seq<Copy>)
    ensures MirrorsFrom(g, final, from, cs + ds) <==>
            MirrorsFrom(g, final, from, cs) && MirrorsFrom(g, final, from + |cs|, ds)
  {
    hide MirrorsFrom;
    if MirrorsFrom(g, final, from, cs + ds) { SplitCopies(g, final, from, cs, ds); }
    if MirrorsFrom(g, final, from, cs) && MirrorsFrom(g, final, from + |cs|, ds) { JoinCopies(g, final, from, cs, ds); }
  }

  lemma SplitCopies(g: Graph, final: seq<nat>, from: nat, cs: seq<Copy>, ds: seq<Copy>)
    requires MirrorsFrom(g, final, from, cs + ds)
    ensures MirrorsFrom(g, final, from, cs) && MirrorsFrom(g, final, from + |cs|, ds)
  {
    hide MirrorsNode;
    var es, from' := cs + ds, from + |cs|;
    forall i | 0 <= i < |cs| ensures MirrorsAt(g, final, from, cs, i) {
      assert MirrorsAt(g, final, from, es, i);
    }
    forall i | 0 <= i < |ds| ensures MirrorsAt(g, final, from', ds, i) {
      var k := |cs| + i;
      assert MirrorsAt(g, final, from, es, k);
    }
  }

  lemma JoinCopies(g: Graph, final: seq<nat>, from: nat, cs: seq<Copy>, ds: seq<Copy>)
    requires MirrorsFrom(g, final, from, cs) && MirrorsFrom(g, final, from + |cs|, ds)
    ensures MirrorsFrom(g, final, from, cs + ds)
  {
    hide MirrorsNode;
    var es := cs + ds;
    forall k | 0 <= k < |es| ensures MirrorsAt(g, final, from, es, k) {
      if k < |cs| {
        assert MirrorsAt(g, final, from, cs, k);
      } else {
        var i := k - |cs|;
        assert MirrorsAt(g, final, from + |cs|, ds, i);
      }
    }
  }

  lemma AppendMirrors(g: Graph, final: seq<nat>, v: Word, vs: seq<Word>, r: Ref, rs: seq<Ref>)
    ensures MirrorsAll(g, final, [v] + vs, [r] + rs) <==> Mirrors(g, final, v, r) && MirrorsAll(g, final, vs, rs)
  {
    hide Mirrors;
    if MirrorsAll(g, final, [v] + vs, [r] + rs) {
      forall j | 0 <= j < |vs| ensures Mirrors(g, final, vs[j], rs[j]) {
        assert Mirrors(g, final, ([v] + vs)[j + 1], ([r] + rs)[j + 1]);
      }
      assert Mirrors(g, final, ([v] + vs)[0], ([r] + rs)[0]);
    }
  }

  lemma {:induction false} VisitAllFaithful(g: Graph, order: seq<nat>, vs: seq<Word>, final: seq<nat>)
    requires GraphOk(g) && Numbered(g, order)
    requires VisitAll(g, order, vs).Said? && VisitAll(g, order, vs).t.order <= final
    ensures VisitAll(g, order, vs).t.clean <==> Faithful(g, order, vs, VisitAll(g, order, vs).t, final)
    decreases Rank(g, order), 1 + |vs|
  {
    hide Numbered;
    hide Mirrors;
    hide MirrorsNode;
    hide Visit;
    if vs != [] {
      var t := Visit(g, order, vs[0]).t;
      SubsetAtMost(Unseen(g, t.order), Unseen(g, order));
      VisitFaithful(g, order, vs[0], final);
      VisitNumbered(g, order, vs[0]);
      VisitAllFaithful(g, t.order, vs[1..], final);
      var u := VisitAll(g, t.order, vs[1..]).t;
      AppendCopies(g, final, |order|, t.copies, u.copies);
      assert t.refs == [t.refs[0]] && vs == [vs[0]] + vs[1..];
      AppendMirrors(g, final, vs[0], vs[1..], t.refs[0], u.refs);
    }
  }
}
