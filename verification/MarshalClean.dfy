// Exactly when marshaling confuses nothing.
module MarshalClean {
  import opened Header
  import opened MarshalGraph
  import opened MarshalMirror

  // The forwarding blocks that are not bypassed: they hold a lazy, forwarding or float block, or a
  // pointer out of the heap.
  ghost predicate KeptForward(g: Graph, a: nat) {
    a in g && g[a].tag == FORWARD_TAG && g[a].words != [] && !Bypassed(g, g[a].words[0])
  }

  // The fields of block a that are values.
  ghost function FieldsOf(g: Graph, a: nat): seq<Word> {
    if a in g && g[a].tag != STRING_TAG && g[a].tag != ABSTRACT_TAG && g[a].tag != CUSTOM_TAG then g[a].words else []
  }

  // ---- The blocks that v leads to, depth first, those numbered before left out ----

  ghost function Preorder(g: Graph, order: seq<nat>, v: Word): (r: seq<nat>)
    ensures order <= r && Unseen(g, r) <= Unseen(g, order)
    decreases Rank(g, order), 0
  {
    var w := if v.Ptr? && v.a in order then v else Bypass(g, v);
    if w.Ptr? && w.a in g && g[w.a].words != [] && w.a !in order then
      RankLess(g, order, w.a);
      PreorderAll(g, order + [w.a], FieldsOf(g, w.a))
    else order
  }

  ghost function PreorderAll(g: Graph, order: seq<nat>, vs: seq<Word>): (r: seq<nat>)
    ensures order <= r && Unseen(g, r) <= Unseen(g, order)
    decreases Rank(g, order), 1 + |vs|
  {
    if vs == [] then order
    else
      var o := Preorder(g, order, vs[0]);
      SubsetAtMost(Unseen(g, o), Unseen(g, order));
      PreorderAll(g, o, vs[1..])
  }

  // The numbering is this order.
  lemma {:induction false} VisitPreorder(g: Graph, order: seq<nat>, v: Word)
    requires GraphOk(g) && Visit(g, order, v).Said?
    ensures Visit(g, order, v).t.order == Preorder(g, order, v)
    decreases Rank(g, order), 0
  {
    hide GraphOk;
    if !Confused(g, order, v) {
      match Look(g, order, v)
      case Ptr(a) =>
        if g[a].words != [] && a !in order {
          RankLess(g, order, a);
          if g[a].tag != STRING_TAG && g[a].tag != CUSTOM_TAG { VisitAllPreorder(g, order + [a], g[a].words); }
        }
      case _ =>
    }
  }

  lemma {:induction false} VisitAllPreorder(g: Graph, order: seq<nat>, vs: seq<Word>)
    requires GraphOk(g) && VisitAll(g, order, vs).Said?
    ensures VisitAll(g, order, vs).t.order == PreorderAll(g, order, vs)
    decreases Rank(g, order), 1 + |vs|
  {
    hide GraphOk;
    hide Visit;
    hide Preorder;
    if vs != [] {
      VisitPreorder(g, order, vs[0]);
      var t := Visit(g, order, vs[0]).t;
      SubsetAtMost(Unseen(g, t.order), Unseen(g, order));
      VisitAllPreorder(g, t.order, vs[1..]);
    }
  }

  // ---- References to a block ----

  ghost function Occ(vs: seq<Word>, a: nat): nat {
    if vs == [] then 0 else (if vs[0] == Ptr(a) then 1 else 0) + Occ(vs[1..], a)
  }

  ghost function Refs(g: Graph, bs: seq<nat>, a: nat): nat {
    if bs == [] then 0 else Occ(FieldsOf(g, bs[0]), a) + Refs(g, bs[1..], a)
  }

  lemma OccOne(v: Word, a: nat)
    ensures Occ([v], a) == if v == Ptr(a) then 1 else 0
  {
    assert Occ([v][1..], a) == 0;
  }

  lemma RefsCons(g: Graph, b: nat, bs: seq<nat>, a: nat)
    ensures Refs(g, [b] + bs, a) == Occ(FieldsOf(g, b), a) + Refs(g, bs, a) && Refs(g, [], a) == 0
  {
    assert ([b] + bs)[1..] == bs;
  }

  lemma {:induction false} RefsParts(g: Graph, bs: seq<nat>, cs: seq<nat>, a: nat)
    ensures Refs(g, bs + cs, a) == Refs(g, bs, a) + Refs(g, cs, a)
  {
    if bs == [] {
      assert bs + cs == cs;
    } else {
      assert (bs + cs)[1..] == bs[1..] + cs;
      RefsParts(g, bs[1..], cs, a);
    }
  }

  // How often a visit of these values that numbers order[from..] meets block a.
  ghost function Met(g: Graph, vs: seq<Word>, from: nat, order: seq<nat>, a: nat): nat
    requires from <= |order|
  {
    Occ(vs, a) + Refs(g, order[from..], a)
  }

  // Block a is met again, and its number, taken for its content, looks like an integer.
  ghost predicate MetAgain(g: Graph, vs: seq<Word>, from: nat, order: seq<nat>, a: nat)
    requires from <= |order|
  {
    && KeptForward(g, a) && a in order && IndexOf(order, a) % 2 == 1
    && Met(g, vs, from, order, a) + (if a in order[..from] then 1 else 0) >= 2
  }

  ghost predicate NoneAgain(g: Graph, vs: seq<Word>, from: nat, order: seq<nat>)
    requires from <= |order|
  {
    forall a :: !MetAgain(g, vs, from, order, a)
  }

  // The first meeting gives the number.
  ghost predicate FirstMet(g: Graph, vs: seq<Word>, from: nat, order: seq<nat>, a: nat)
    requires from <= |order|
  {
    KeptForward(g, a) ==>
      && (a in order && a !in order[..from] ==> Met(g, vs, from, order, a) >= 1)
      && (Met(g, vs, from, order, a) >= 1 ==> a in order)
  }

  ghost predicate AllFirstMet(g: Graph, vs: seq<Word>, from: nat, order: seq<nat>)
    requires from <= |order|
  {
    forall a :: FirstMet(g, vs, from, order, a)
  }

  // Two visits one after the other.
  lemma MetTwice(g: Graph, v: Word, vs: seq<Word>, from: nat, mid: nat, order: seq<nat>, a: nat)
    requires from <= mid <= |order|
    requires FirstMet(g, [v], from, order[..mid], a) && FirstMet(g, vs, mid, order, a)
    ensures FirstMet(g, [v] + vs, from, order, a)
    ensures MetAgain(g, [v] + vs, from, order, a) <==>
      MetAgain(g, [v], from, order[..mid], a) || MetAgain(g, vs, mid, order, a)
  {
    hide KeptForward;
    var o := order[..mid];
    assert order[from..] == o[from..] + order[mid..];
    RefsParts(g, o[from..], order[mid..], a);
    assert ([v] + vs)[1..] == vs && [v][1..] == [];
    assert Occ([v] + vs, a) == Occ([v], a) + Occ(vs, a);
    assert Met(g, [v] + vs, from, order, a) == Met(g, [v], from, o, a) + Met(g, vs, mid, order, a);
    assert o[..from] == order[..from];
    if a in o { IndexStays(o, order, a); }
    InPrefix(order, from, mid, a);
  }

  lemma InPrefix(order: seq<nat>, from: nat, mid: nat, a: nat)
    requires from <= mid <= |order|
    ensures a in order[..from] ==> a in order[..mid]
    ensures a in order[..mid] ==> a in order
  {
    if a in order[..from] {
      var i :| 0 <= i < from && order[i] == a;
      assert order[..mid][i] == a;
    }
  }

  lemma VisitsJoin(g: Graph, v: Word, vs: seq<Word>, from: nat, mid: nat, order: seq<nat>)
    requires from <= mid <= |order|
    requires AllFirstMet(g, [v], from, order[..mid]) && AllFirstMet(g, vs, mid, order)
    ensures AllFirstMet(g, [v] + vs, from, order)
    ensures NoneAgain(g, [v] + vs, from, order) <==>
      NoneAgain(g, [v], from, order[..mid]) && NoneAgain(g, vs, mid, order)
  {
    hide FirstMet;
    hide MetAgain;
    var ws, o := [v] + vs, order[..mid];
    forall a ensures FirstMet(g, ws, from, order, a)
      && (MetAgain(g, ws, from, order, a) <==> MetAgain(g, [v], from, o, a) || MetAgain(g, vs, mid, order, a))
    {
      assert FirstMet(g, [v], from, o, a) && FirstMet(g, vs, mid, order, a);
      MetTwice(g, v, vs, from, mid, order, a);
    }
  }

  // ---- The visit ----

  lemma NothingMet(g: Graph, order: seq<nat>)
    ensures AllFirstMet(g, [], |order|, order) && NoneAgain(g, [], |order|, order)
  {
    assert order[..|order|] == order && order[|order|..] == [];
  }

  lemma KeptNumbered(g: Graph, order: seq<nat>, a: nat)
    requires GraphOk(g) && Numbered(g, order) && a in order && g[a].tag == FORWARD_TAG
    ensures KeptForward(g, a)
  {
    var i :| 0 <= i < |order| && order[i] == a;
    assert NumberedOk(g, order[i]) && NodeOk(g, g[a]);
  }

  lemma KeptLook(g: Graph, order: seq<nat>, a: nat)
    requires KeptForward(g, a) && !Confused(g, order, Ptr(a))
    ensures Look(g, order, Ptr(a)) == Ptr(a)
  {
  }

  lemma NewNumbered(g: Graph, order: seq<nat>, a: nat)
    requires GraphOk(g) && KeptForward(g, a) && a !in order && Visit(g, order, Ptr(a)).Said?
    ensures Visit(g, order, Ptr(a)).t.copies != []
  {
    KeptLook(g, order, a);
  }

  lemma MetOnce(g: Graph, order: seq<nat>, v: Word, a: nat)
    ensures Met(g, [v], |order|, order, a) == (if v == Ptr(a) then 1 else 0) && order[..|order|] == order
  {
    assert order[|order|..] == [];
    OccOne(v, a);
  }

  // A value said of a block that was numbered before, or of none.
  lemma BeforeMet(g: Graph, order: seq<nat>, v: Word, a: nat)
    requires GraphOk(g) && Visit(g, order, v).Said? && Visit(g, order, v).t.copies == []
    ensures FirstMet(g, [v], |order|, order, a)
    ensures MetAgain(g, [v], |order|, order, a) ==> v == Ptr(a) && Confused(g, order, v)
  {
    hide Visit;
    MetOnce(g, order, v, a);
    if KeptForward(g, a) && v == Ptr(a) && a !in order { NewNumbered(g, order, a); }
  }

  lemma BeforeAgain(g: Graph, order: seq<nat>, v: Word)
    requires GraphOk(g) && Numbered(g, order) && Visit(g, order, v).Said? && Visit(g, order, v).t.copies == []
    ensures Visit(g, order, v).t.order == order && AllFirstMet(g, [v], |order|, order)
    ensures Visit(g, order, v).t.clean <==> NoneAgain(g, [v], |order|, order)
  {
    hide Numbered;
    hide FirstMet;
    var n := |order|;
    forall a ensures FirstMet(g, [v], n, order, a) && (MetAgain(g, [v], n, order, a) ==> Confused(g, order, v)) {
      BeforeMet(g, order, v, a);
    }
    if Confused(g, order, v) {
      KeptNumbered(g, order, v.a);
      MetOnce(g, order, v, v.a);
      assert MetAgain(g, [v], n, order, v.a);
    }
  }

  // A block that the visit numbers.
  lemma NowMet(g: Graph, order: seq<nat>, v: Word, a: nat, final: seq<nat>, x: nat)
    requires GraphOk(g) && !Confused(g, order, v) && Look(g, order, v) == Ptr(a) && a !in order && order + [a] <= final
    requires FirstMet(g, FieldsOf(g, a), |order| + 1, final, x)
    ensures FirstMet(g, [v], |order|, final, x)
    ensures MetAgain(g, [v], |order|, final, x) <==> MetAgain(g, FieldsOf(g, a), |order| + 1, final, x)
  {
    var n := |order|;
    assert final[..n] == order && final[..n + 1] == order + [a] && final[n] == a;
    assert final[n..] == [a] + final[n + 1..];
    OccOne(v, x);
    RefsCons(g, a, final[n + 1..], x);
    assert Met(g, [v], n, final, x) == (if v == Ptr(x) then 1 else 0) + Met(g, FieldsOf(g, a), n + 1, final, x);
    assert x in order + [a] <==> x in order || x == a;
    if KeptForward(g, x) { MeetsKept(g, order, v, a, x); }
  }

  lemma MeetsKept(g: Graph, order: seq<nat>, v: Word, a: nat, x: nat)
    requires GraphOk(g) && !Confused(g, order, v) && Look(g, order, v) == Ptr(a) && KeptForward(g, x)
    ensures v == Ptr(x) <==> x == a
  {
    if v == Ptr(x) { KeptLook(g, order, x); }
  }

  lemma NowAgain(g: Graph, order: seq<nat>, v: Word, a: nat, final: seq<nat>)
    requires GraphOk(g) && !Confused(g, order, v) && Look(g, order, v) == Ptr(a) && a !in order && order + [a] <= final
    requires AllFirstMet(g, FieldsOf(g, a), |order| + 1, final)
    ensures AllFirstMet(g, [v], |order|, final)
    ensures NoneAgain(g, [v], |order|, final) <==> NoneAgain(g, FieldsOf(g, a), |order| + 1, final)
  {
    hide FirstMet;
    hide MetAgain;
    var vs, n := FieldsOf(g, a), |order| + 1;
    forall x ensures FirstMet(g, [v], |order|, final, x)
      && (MetAgain(g, [v], |order|, final, x) <==> MetAgain(g, vs, n, final, x))
    {
      assert FirstMet(g, vs, n, final, x);
      NowMet(g, order, v, a, final, x);
    }
  }

  // The visit is clean if and only if it meets no such block again.
  lemma {:induction false} VisitAgain(g: Graph, order: seq<nat>, v: Word)
    requires GraphOk(g) && Numbered(g, order) && Visit(g, order, v).Said?
    ensures AllFirstMet(g, [v], |order|, Visit(g, order, v).t.order)
    ensures Visit(g, order, v).t.clean <==> NoneAgain(g, [v], |order|, Visit(g, order, v).t.order)
    decreases Rank(g, order), 0
  {
    hide Numbered;
    hide AllFirstMet;
    hide NoneAgain;
    var t := Visit(g, order, v).t;
    if t.copies == [] {
      BeforeAgain(g, order, v);
    } else {
      var a := SaidNow(g, order, v, t.order);
      if g[a].tag != STRING_TAG && g[a].tag != CUSTOM_TAG {
        RankLess(g, order, a);
        VisitAllAgain(g, order + [a], g[a].words);
      } else {
        NothingMet(g, order + [a]);
      }
      NowAgain(g, order, v, a, t.order);
    }
  }

  lemma {:induction false} VisitAllAgain(g: Graph, order: seq<nat>, vs: seq<Word>)
    requires GraphOk(g) && Numbered(g, order) && VisitAll(g, order, vs).Said?
    ensures AllFirstMet(g, vs, |order|, VisitAll(g, order, vs).t.order)
    ensures VisitAll(g, order, vs).t.clean <==> NoneAgain(g, vs, |order|, VisitAll(g, order, vs).t.order)
    decreases Rank(g, order), 1 + |vs|
  {
    hide Numbered;
    hide AllFirstMet;
    hide NoneAgain;
    hide Visit;
    hide GraphOk;
    if vs == [] {
      NothingMet(g, order);
    } else {
      var t := Visit(g, order, vs[0]).t;
      SubsetAtMost(Unseen(g, t.order), Unseen(g, order));
      VisitAgain(g, order, vs[0]);
      VisitNumbered(g, order, vs[0]);
      VisitAllAgain(g, t.order, vs[1..]);
      var final := VisitAll(g, order, vs).t.order;
      assert vs == [vs[0]] + vs[1..] && final[..|t.order|] == t.order;
      VisitsJoin(g, vs[0], vs[1..], |order|, |t.order|, final);
    }
  }

  // ---- The condition on the graph ----

  // Some kept forwarding block, numbered odd in depth-first order, is referred to twice.
  ghost predicate TwiceMet(g: Graph, v: Word, a: nat) {
    var order := Preorder(g, [], v);
    && KeptForward(g, a) && a in order && IndexOf(order, a) % 2 == 1
    && Occ([v], a) + Refs(g, order, a) >= 2
  }

  ghost predicate Confusing(g: Graph, v: Word) {
    exists a :: TwiceMet(g, v, a)
  }

  // A visit confuses something if and only if there is such a block.
  lemma CleanExactly(g: Graph, v: Word)
    requires GraphOk(g) && Visit(g, [], v).Said?
    ensures Visit(g, [], v).t.clean <==> !Confusing(g, v)
  {
    hide Visit;
    hide Preorder;
    VisitPreorder(g, [], v);
    VisitAgain(g, [], v);
    var order := Preorder(g, [], v);
    assert order[..0] == [] && order[0..] == order;
    forall a ensures MetAgain(g, [v], 0, order, a) <==> TwiceMet(g, v, a) {
    }
  }

  // In particular, without kept forwarding blocks nothing is confused, nor when none has two references.
  lemma NotConfusing(g: Graph, v: Word)
    ensures (forall a :: a in g ==> !KeptForward(g, a)) ==> !Confusing(g, v)
    ensures (forall a :: KeptForward(g, a) ==> Occ([v], a) + Refs(g, Preorder(g, [], v), a) <= 1) ==> !Confusing(g, v)
  {
  }
}
