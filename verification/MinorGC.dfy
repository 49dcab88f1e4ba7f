// The minor collector's procedures, and the store operations that keep the remembered set.
module MinorGC {
  import opened Header
  import opened MinorState
  import opened MinorSteps
  import opened MinorEnds

  ghost function Unforwarded(s: State): set<nat> {
    s.before.young.Keys - s.fwd.Keys
  }

  // Values that caml_oldify_one replaces by others before it allocates.
  ghost function Rank(s: State, v: Value): nat {
    if !v.Young? || v.a !in s.before.young then 0
    else if v.off > 0 then 1
    else if s.before.young[v.a].tag == FORWARD_TAG then 2
    else 0
  }

  // What caml_oldify_one is asked to do.
  ghost predicate Asked(s: State, v: Value)
    requires s.before.Valid()
  {
    s.before.Good(v) && (s.before.Resolve(v).Young? ==> Wanted(s, s.before.Resolve(v).a))
  }

  // What caml_oldify_one did: p has what v is moved to.
  ghost predicate Oldified(s: State, t: State, v: Value, p: Loc, holes: set<Loc>) {
    && Inv(t, holes) && AllLocs(t, holes) && Extends(s, t) && SameHoles(s, t, holes, p)
    && Exists(t, p) && Fits(t, v, Cur(t, p))
    && (Unforwarded(t) == Unforwarded(s) ==> t.list == s.list)
  }

  // caml_oldify_one has been asked for v0 at p0, and is now to deal with v at p.
  ghost predicate Chasing(s0: State, s: State, v0: Value, p0: Loc, v: Value, p: Loc, holes: set<Loc>) {
    && s0.before.Valid() && s0.before.Good(v0) && p0 in holes
    && Inv(s, holes + {p}) && AllLocs(s, holes + {p}) && Asked(s, v)
    && Extends(s0, s) && SameHoles(s0, s, holes, p0)
    && (p == p0 ==> s.before.Resolve(v) == s.before.Resolve(v0))
    && (p != p0 ==> p !in holes && Fits(s, v0, Cur(s, p0)) && Unforwarded(s) != Unforwarded(s0) && Stands(s, p, v))
    && (Unforwarded(s) == Unforwarded(s0) ==>
          s.list == s0.list && (v == v0 || Rank(s, v0) > Rank(s, v)))
  }

  // v leads where the value wanted at p leads.
  ghost predicate Stands(s: State, p: Loc, v: Value)
    requires s.before.Valid() && s.before.Good(v)
  {
    forall w :: Wants(s, p, w) ==> s.before.Good(w) && s.before.Resolve(w) == s.before.Resolve(v)
  }

  lemma ChaseStarts(s: State, v: Value, p: Loc, holes: set<Loc>)
    requires Inv(s, holes) && p in holes && AllLocs(s, holes) && Asked(s, v)
    ensures Chasing(s, s, v, p, v, p, holes)
  {
    hide Inv;
    assert holes + {p} == holes;
    InvValid(s, holes);
    forall q | q in holes ensures SameHole(s, s, q) {
      assert IsLoc(s, q);
    }
  }

  lemma ChaseEnds(s0: State, s: State, t: State, v0: Value, p0: Loc, v: Value, p: Loc, holes: set<Loc>)
    requires Chasing(s0, s, v0, p0, v, p, holes) && s.before.Valid() && Oldified(s, t, v, p, holes + {p})
    ensures Oldified(s0, t, v0, p0, holes)
  {
    hide Before.Valid;
    hide Before.Resolve;
    hide Copies;
    hide TodoOk;
    hide Needed;
    hide IsLoc;
    hide Settled;
    ChaseHoles(s0, s, t, p0, p, holes);
    assert Unforwarded(t) <= Unforwarded(s) <= Unforwarded(s0);
    if p == p0 {
      assert holes + {p} == holes;
    } else {
      SettleStands(s, t, p, v, holes);
      FillHole(t, holes, p);
      assert SameHole(s, t, p0);
      FitsLater(s, t, v0, Cur(s, p0));
    }
  }

  lemma ChaseHoles(s0: State, s: State, t: State, p0: Loc, p: Loc, holes: set<Loc>)
    requires Extends(s0, s) && Extends(s, t) && SameHoles(s0, s, holes, p0) && SameHoles(s, t, holes + {p}, p)
    requires p == p0 || p !in holes
    ensures Extends(s0, t) && SameHoles(s0, t, holes, p0)
  {
    forall q | q in holes && q != p0 ensures SameHole(s0, t, q) {
      assert SameHole(s0, s, q) && SameHole(s, t, q);
    }
  }

  lemma SettleStands(s: State, t: State, p: Loc, v: Value, holes: set<Loc>)
    requires Copies(s) && Copies(t) && s.before.Valid() && IsLoc(s, p) && IsLoc(t, p) && Extends(s, t)
    requires s.before.Good(v) && Stands(s, p, v) && Fits(t, v, Cur(t, p))
    ensures Settled(t, p)
  {
    hide Before.Valid;
    hide Before.Resolve;
    forall w | Wants(t, p, w) ensures Fits(t, w, Cur(t, p)) {
      WantsStays(s, t, p, w);
    }
  }

  lemma WantsStays(s: State, t: State, p: Loc, w: Value)
    requires Copies(s) && Copies(t) && IsLoc(s, p) && IsLoc(t, p) && Extends(s, t) && Wants(t, p, w)
    ensures Wants(s, p, w)
  {
    if p.Field? {
      assert NewOk(s, p.a) && OldOk(s, p.a) && OldOk(t, p.a);
      assert p.a in s.orig ==> CopyOk(t, s.orig[p.a]);
    }
  }

  lemma ChaseField(s0: State, s: State, t: State, v0: Value, p0: Loc, v: Value, p: Loc, b: nat, holes: set<Loc>)
    requires Chasing(s0, s, v0, p0, v, p, holes)
    requires s.before.Valid() && s.before.Good(v) && s.before.Resolve(v).Young?
    requires var a := s.before.Resolve(v).a; a in s.before.young && s.before.young[a].fields != []
    requires Inv(t, holes + {p} + {Field(b, 0)}) && AllLocs(t, holes + {p} + {Field(b, 0)})
    requires Field(b, 0) !in holes + {p} && Extends(s, t) && SameHoles(s, t, holes + {p}, p)
    requires Exists(t, p) && Fits(t, v, Cur(t, p)) && Unforwarded(t) < Unforwarded(s)
    requires forall w :: Wants(t, Field(b, 0), w) ==> w == s.before.young[s.before.Resolve(v).a].fields[0]
    ensures var f := s.before.young[s.before.Resolve(v).a].fields[0];
      Chasing(s0, t, v0, p0, f, Field(b, 0), holes)
  {
    hide Before.Valid;
    hide Before.Resolve;
    hide Copies;
    hide TodoOk;
    hide Needed;
    hide IsLoc;
    hide Settled;
    hide Wants;
    var f, q := s.before.young[s.before.Resolve(v).a].fields[0], Field(b, 0);
    ChaseHoles(s0, s, t, p0, p, holes);
    assert Unforwarded(s) <= Unforwarded(s0);
    if p == p0 {
      assert holes + {p} + {q} == holes + {q};
    } else {
      assert IsLoc(s, p) && IsLoc(t, p);
      SettleStands(s, t, p, v, holes);
      assert holes + {p} + {q} == holes + {q} + {p};
      FillHole(t, holes + {q}, p);
      assert SameHole(s, t, p0);
      FitsLater(s, t, v0, Cur(s, p0));
    }
    AskedField(t, q, f);
  }

  // The value wanted at the place of a copied field is one to be dealt with.
  lemma AskedField(s: State, q: Loc, f: Value)
    requires s.before.Valid() && Copies(s) && Needed(s) && IsLoc(s, q)
    requires forall w :: Wants(s, q, w) ==> w == f
    ensures Asked(s, f) && Stands(s, q, f)
  {
    hide Before.Valid;
    hide Before.Resolve;
    hide Copies;
    hide Needed;
    hide Wants;
    hide Wanted;
    var w := WantsSomething(s, q);
    WantedAt(s, q, w);
  }

  // A forwarding block that is bypassed: what it holds takes its place.
  lemma ChaseShort(s0: State, s: State, v0: Value, p0: Loc, v: Value, p: Loc, holes: set<Loc>)
    requires Chasing(s0, s, v0, p0, v, p, holes) && s.before.Valid()
    requires v.Young? && v.off == 0 && v.a in s.before.young && s.before.young[v.a].tag == FORWARD_TAG
    requires s.before.ShortCut(s.before.FirstField(v.a))
    ensures Chasing(s0, s, v0, p0, s.before.FirstField(v.a), p, holes)
    ensures Rank(s, s.before.FirstField(v.a)) < Rank(s, v)
  {
    hide Before.Valid;
    hide Inv;
    hide Stands;
    var f := s.before.FirstField(v.a);
    assert s.before.Resolve(v) == f && s.before.Resolve(f) == f;
    if p != p0 { StandsFor(s, p, v, f); }
  }

  lemma StandsFor(s: State, p: Loc, v: Value, f: Value)
    requires s.before.Valid() && s.before.Good(v) && s.before.Good(f)
    requires Stands(s, p, v) && s.before.Resolve(v) == s.before.Resolve(f)
    ensures Stands(s, p, f)
  {
  }

  // Before the block is looked at through an infix pointer.
  lemma InfixAsked(s: State, v: Value)
    requires s.before.Valid() && Asked(s, v) && v.Young? && v.off > 0
    ensures Asked(s, Young(v.a, 0)) && Rank(s, Young(v.a, 0)) == 0 && Rank(s, v) == 1
    ensures s.before.Resolve(Young(v.a, 0)) == Young(v.a, 0)
  {
    hide Before.Valid;
  }

  // The offset added after the block has been dealt with.
  lemma InfixEnds(s: State, t: State, v: Value, p: Loc, holes: set<Loc>)
    requires s.before.Valid() && Asked(s, v) && v.Young? && v.off > 0 && p in holes
    requires Oldified(s, t, Young(v.a, 0), p, holes)
    ensures Cur(t, p).Major? && Oldified(s, Put(t, p, Major(Cur(t, p).a, v.off)), v, p, holes)
  {
    hide Before.Valid;
    hide Inv;
    InfixAsked(s, v);
    var u := Put(t, p, Major(Cur(t, p).a, v.off));
    PutKeeps(t, p, Major(Cur(t, p).a, v.off), holes);
    PutPlaces(t, p, Major(Cur(t, p).a, v.off), holes);
    forall q | q in holes && q != p ensures SameHole(s, u, q) {
      assert SameHole(s, t, q) && SameHole(t, u, q);
    }
  }

  // A value that is not young.
  lemma PlainEnds(s: State, v: Value, p: Loc, holes: set<Loc>)
    requires Inv(s, holes) && p in holes && AllLocs(s, holes) && s.before.Good(v) && !v.Young?
    ensures Oldified(s, Put(s, p, v), v, p, holes)
  {
    hide Inv;
    PutKeeps(s, p, v, holes);
    PutPlaces(s, p, v, holes);
    InvValid(s, holes);
    FitsItself(Put(s, p, v), v);
  }

  ghost predicate Bypassed(before: Before, a: nat)
    requires before.Valid() && a in before.young
  {
    before.young[a].tag == FORWARD_TAG && before.ShortCut(before.FirstField(a))
  }

  // A bypassed block is not copied: the others are a closed set.
  lemma NotBypassed(s: State, a: nat)
    requires s.before.Valid() && Needed(s) && a in s.fwd
    ensures a in s.before.young && !Bypassed(s.before, a)
  {
    hide Before.Valid;
    var c := set x | x in s.before.young && !Bypassed(s.before, x);
    assert s.before.Closed(c) by {
      hide Before.BlockOk;
      forall v: Value | s.before.Good(v) ensures s.before.Within(c, v) {
        ResolvedGood(s.before, v);
      }
      GoodEverywhere(s.before);
    }
  }

  lemma ResolvedGood(before: Before, v: Value)
    requires before.Valid() && before.Good(v)
    ensures var r := before.Resolve(v); before.Good(r) && (r.Young? ==> !Bypassed(before, r.a))
  {
    hide Before.Valid;
  }

  lemma GoodEverywhere(before: Before)
    requires before.Valid()
    ensures forall v :: v in before.roots ==> before.Good(v)
    ensures forall b :: b in before.heap ==> forall v :: v in before.heap[b].Scan() ==> before.Good(v)
    ensures forall a :: a in before.young ==> forall v :: v in before.young[a].Scan() ==> before.Good(v)
  {
    forall b | b in before.heap ensures forall v :: v in before.heap[b].Scan() ==> before.Good(v) {
      assert before.BlockOk(before.heap[b]);
    }
    forall a | a in before.young ensures forall v :: v in before.young[a].Scan() ==> before.Good(v) {
      assert before.BlockOk(before.young[a]);
    }
  }

  // A block that has been dealt with.
  lemma ForwardedEnds(s: State, v: Value, p: Loc, holes: set<Loc>)
    requires Inv(s, holes) && p in holes && AllLocs(s, holes) && Asked(s, v)
    requires v.Young? && v.off == 0 && v.a in s.young && s.young[v.a].Forwarded?
    ensures Exists(s, p) && s.young[v.a].fields != [] && Oldified(s, Put(s, p, s.young[v.a].fields[0]), v, p, holes)
  {
    hide TodoOk;
    hide Needed;
    hide Settled;
    CopiedOnce(s, v);
    NotBypassed(s, v.a);
    UseForward(s, p, v, v.a, holes);
  }

  // Each block is whole or forwarded.
  lemma CopiedOnce(s: State, v: Value)
    requires s.before.Valid() && Copies(s) && Asked(s, v) && v.Young? && v.off == 0
    ensures v.a in s.young && v.a in s.before.young && s.before.young[v.a].fields != []
    ensures s.young[v.a].Forwarded? ==>
      v.a in s.fwd && s.young[v.a].fields != [] && s.young[v.a].fields[0] == Major(s.fwd[v.a], 0)
    ensures s.young[v.a].Whole? ==> s.young[v.a].o == s.before.young[v.a] && v.a !in s.fwd
  {
    assert CellOk(s, v.a);
  }

  lemma {:induction false} FreshNat(s: set<nat>) returns (b: nat)
    ensures forall x :: x in s ==> x < b
    decreases |s|
  {
    b := 0;
    if s != {} {
      var x :| x in s;
      var c := FreshNat(s - {x});
      b := if x < c then c else x + 1;
      assert forall y :: y in s ==> y == x || y in s - {x};
    }
  }

  function Wholes(young: map<nat, Cell>): map<nat, Obj> {
    map a | a in young && young[a].Whole? :: young[a].o
  }

  lemma WholesNone()
    ensures Wholes(map[]) == map[]
  {
  }

  class MinorHeap {
    var young: map<nat, Cell>
    var heap: map<nat, Obj>
    var roots: seq<Value>
    var refs: seq<Loc>       // caml_ref_table
    var weak: seq<Loc>       // caml_weak_ref_table
    var todo: Value
    ghost var before: Before
    ghost var fwd: map<nat, nat>
    ghost var orig: map<nat, nat>
    ghost var list: seq<nat>

    ghost function S(): State
      reads this
    {
      State(young, heap, roots, todo, before, fwd, orig, list)
    }

    // ---- Between collections ----

    // The heap as the program sees it.
    ghost function Now(): Before
      reads this
    {
      Before(Wholes(young), heap, roots)
    }

    // The remembered set has all it must have.
    ghost predicate Ready()
      reads this
    {
      && todo == Null && (forall a :: a in young ==> young[a].Whole?)
      && Now().Valid() && Recorded(Now(), refs) && WeakRecorded(Now(), weak)
    }

    constructor ()
      ensures Ready() && young == map[] && heap == map[] && roots == []
    {
      young, heap, roots, refs, weak, todo := map[], map[], [], [], [], Null;
      before, fwd, orig, list := Before(map[], map[], []), map[], map[], [];
    }

    // caml_alloc_shr: some free address, and no matter what in the fields.
    method AllocShr(n: nat, tag: nat) returns (b: nat)
      modifies `heap
      ensures b !in old(heap) && b in heap && heap == old(heap)[b := Obj(tag, heap[b].fields)]
      ensures |heap[b].fields| == n
    {
      ghost var x := FreshNat(heap.Keys);
      assert x !in heap;
      b :| b !in heap;
      var junk: seq<Value> := seq(n, _ => Null);
      heap := heap[b := Obj(tag, junk)];
    }

    method Store(p: Loc, w: Value)
      requires Exists(S(), p)
      modifies `heap, `roots
      ensures S() == Put(old(S()), p, w)
    {
      match p
      case Root(k) => roots := roots[k := w];
      case Field(a, i) => heap := heap[a := heap[a].(fields := heap[a].fields[i := w])];
    }

    // Tag_val of the content of a forwarding block, which may have moved.
    method TagOf(v: Value) returns (tag: nat)
      requires before.Valid() && Copies(S()) && before.Good(v) && (v.Young? || v.Major?)
      ensures tag == before.TagOf(v)
    {
      if v.off > 0 { return INFIX_TAG; }
      if v.Major? {
        assert OldOk(S(), v.a);
        return heap[v.a].tag;
      }
      assert CellOk(S(), v.a) && CopyOk(S(), v.a);
      if young[v.a].Forwarded? {
        return heap[young[v.a].fields[0].a].tag;
      }
      return young[v.a].o.tag;
    }

    // Young block a goes to b.
    method SetForward(a: nat, b: nat)
      requires a in young && young[a].Whole? && young[a].o.fields != []
      modifies `young, `fwd, `orig
      ensures young == old(young)[a := Forwarded(old(young[a].o.fields)[0 := Major(b, 0)])]
      ensures fwd == old(fwd)[a := b] && orig == old(orig)[b := a]
    {
      young := young[a := Forwarded(young[a].o.fields[0 := Major(b, 0)])];
      fwd := fwd[a := b];
      orig := orig[b := a];
    }

    // Allocate b in the major heap for the whole young block a, make p point to it, and forward a to it.
    method NewCopy(a: nat, p: Loc) returns (b: nat)
      requires a in young && young[a].Whole? && young[a].o.fields != [] && Exists(S(), p)
      requires a in before.young && before.young[a] == young[a].o
      modifies this
      ensures b !in old(heap) && b in heap && S() == Promote(old(S()), p, a, b, heap[b])
      ensures heap[b].tag == before.young[a].tag && |heap[b].fields| == |before.young[a].fields|
      ensures refs == old(refs) && weak == old(weak)
    {
      ghost var s := S();
      var o := young[a].o;
      b := AllocShr(|o.fields|, o.tag);
      ghost var o' := heap[b];
      Store(p, Major(b, 0));
      SetForward(a, b);
      AllocThenPut(s, p, Major(b, 0), b, o');
    }

    // caml_oldify_one for a whole block of several values: its fields are for caml_oldify_mopup.
    method OldifyLater(a: nat, p: Loc, ghost v: Value, ghost holes: set<Loc>)
      requires Inv(S(), holes) && p in holes && AllLocs(S(), holes) && ToCopy(S(), v, a)
      requires before.young[a].Scanned() && |before.young[a].fields| >= 2
      modifies this
      ensures Oldified(old(S()), S(), v, p, holes) && Unforwarded(S()) < Unforwarded(old(S()))
      ensures refs == old(refs) && weak == old(weak)
    {
      hide Inv;
      hide AllLocs;
      hide Extends;
      hide SameHoles;
      hide Fits;
      hide ToCopy;
      hide Promote;
      hide Put;
      ghost var s := S();
      WholeCell(s, v, a, holes, p);
      var field0 := young[a].o.fields[0];
      var b := NewCopy(a, p);
      PromoteExists(s, p, a, b, heap[b]);
      ghost var o := heap[b];
      heap := heap[b := heap[b].(fields := heap[b].fields[0 := field0][1 := todo])];
      todo := Young(a, 0);
      list := [a] + list;
      PromoteOther(s, p, a, b, o, heap[b]);
      PromoteExists(s, p, a, b, heap[b]);
      CopyLater(s, p, v, a, b, heap[b], holes);
      OneFewer(s, S(), a, b);
    }

    // For a whole block of one value: its field is to be updated next.
    method OldifyField(a: nat, p: Loc, ghost v: Value, ghost holes: set<Loc>) returns (b: nat)
      requires Inv(S(), holes) && p in holes && AllLocs(S(), holes) && ToCopy(S(), v, a)
      requires before.young[a].Scanned() && |before.young[a].fields| == 1
      modifies this
      ensures Inv(S(), holes + {Field(b, 0)}) && AllLocs(S(), holes + {Field(b, 0)}) && Field(b, 0) !in holes
      ensures Extends(old(S()), S()) && SameHoles(old(S()), S(), holes, p) && Exists(S(), p)
      ensures Fits(S(), v, Cur(S(), p)) && Unforwarded(S()) < Unforwarded(old(S()))
      ensures forall w :: Wants(S(), Field(b, 0), w) ==> w == old(before).young[a].fields[0]
      ensures refs == old(refs) && weak == old(weak)
    {
      hide Inv;
      hide AllLocs;
      hide Extends;
      hide SameHoles;
      hide Fits;
      hide ToCopy;
      hide Wants;
      hide Promote;
      hide Put;
      ghost var s := S();
      WholeCell(s, v, a, holes, p);
      b := NewCopy(a, p);
      PromoteExists(s, p, a, b, heap[b]);
      CopyOne(s, p, v, a, b, heap[b], holes);
      NotInHoles(s, holes, b);
      OneFewer(s, S(), a, b);
    }

    // For a whole block of raw data.
    method OldifyRaw(a: nat, p: Loc, ghost v: Value, ghost holes: set<Loc>)
      requires Inv(S(), holes) && p in holes && AllLocs(S(), holes) && ToCopy(S(), v, a)
      requires !before.young[a].Scanned()
      modifies this
      ensures Oldified(old(S()), S(), v, p, holes) && Unforwarded(S()) < Unforwarded(old(S()))
      ensures refs == old(refs) && weak == old(weak)
    {
      hide Inv;
      hide AllLocs;
      hide Extends;
      hide SameHoles;
      hide Fits;
      hide ToCopy;
      hide Promote;
      hide Put;
      ghost var s := S();
      WholeCell(s, v, a, holes, p);
      var data := young[a].o.fields;
      var b := NewCopy(a, p);
      PromoteExists(s, p, a, b, heap[b]);
      ghost var t, o := S(), heap[b];
      for i := 0 to |data|
        invariant b in heap && S() == t.(heap := t.heap[b := heap[b]])
        invariant heap[b].tag == o.tag && |heap[b].fields| == |data| && heap[b].fields[..i] == data[..i]
        invariant refs == old(refs) && weak == old(weak)
      {
        heap := heap[b := heap[b].(fields := heap[b].fields[i := data[i]])];
      }
      assert heap[b] == before.young[a];
      PromoteOther(s, p, a, b, o, heap[b]);
      PromoteExists(s, p, a, b, heap[b]);
      CopyRaw(s, p, v, a, b, heap[b], holes);
      OneFewer(s, S(), a, b);
    }

    method Load(p: Loc) returns (v: Value)
      requires Exists(S(), p)
      ensures v == Cur(S(), p)
    {
      match p
      case Root(k) => v := roots[k];
      case Field(a, i) => v := heap[a].fields[i];
    }

    // May a forwarding block that holds f be bypassed?
    method IsBypassed(f: Value) returns (short: bool)
      requires before.Valid() && Copies(S()) && before.Good(f)
      ensures short == before.ShortCut(f)
    {
      if !f.Young? && !f.Major? {
        return !f.Out?;
      }
      var tag := TagOf(f);
      short := tag != FORWARD_TAG && tag != LAZY_TAG && tag != DOUBLE_TAG;
    }

    // caml_oldify_one.
    method OldifyOne(v0: Value, p0: Loc, ghost holes: set<Loc>)
      requires Inv(S(), holes) && p0 in holes && AllLocs(S(), holes) && Asked(S(), v0)
      modifies this
      ensures Oldified(old(S()), S(), v0, p0, holes)
      ensures refs == old(refs) && weak == old(weak)
      decreases Unforwarded(S()), Rank(S(), v0)
    {
      hide Inv;
      hide AllLocs;
      hide Asked;
      hide Oldified;
      hide Chasing;
      hide Fits;
      hide Extends;
      hide SameHoles;
      hide ToCopy;
      hide Before.Valid;
      hide Before.Resolve;
      hide Unforwarded;
      hide Rank;
      hide Put;
      ghost var s0 := S();
      var v, p, going := v0, p0, true;
      ChaseStarts(s0, v0, p0, holes);
      while going
        invariant going ==> Chasing(s0, S(), v0, p0, v, p, holes)
        invariant !going ==> Oldified(s0, S(), v0, p0, holes)
        invariant refs == old(refs) && weak == old(weak)
        decreases going, Unforwarded(S()), Rank(S(), v)
      {
        ghost var s := S();
        ChaseFacts(s0, s, v0, p0, v, p, holes);
        if !v.Young? {
          Store(p, v);
          PlainEnds(s, v, p, holes + {p});
          ChaseEnds(s0, s, S(), v0, p0, v, p, holes);
          going := false;
        } else if v.off > 0 {
          InfixAsked(s, v);
          OldifyOne(Young(v.a, 0), p, holes + {p});
          InfixEnds(s, S(), v, p, holes + {p});
          OldifiedExists(s, S(), Young(v.a, 0), p, holes + {p});
          var w := Load(p);
          Store(p, Major(w.a, v.off));
          ChaseEnds(s0, s, S(), v0, p0, v, p, holes);
          going := false;
        } else {
          CopiedOnce(s, v);
          if young[v.a].Forwarded? {
            ForwardedEnds(s, v, p, holes + {p});
            Store(p, young[v.a].fields[0]);
            ChaseEnds(s0, s, S(), v0, p0, v, p, holes);
            going := false;
          } else {
            var o := young[v.a].o;
            var short := false;
            if o.tag == FORWARD_TAG {
              FieldGood(s, v.a);
              short := IsBypassed(o.fields[0]);
            }
            if short {
              ChaseShort(s0, s, v0, p0, v, p, holes);
              v := o.fields[0];
            } else {
              AskedCopy(s, v);
              if o.tag >= NO_SCAN_TAG {
                OldifyRaw(v.a, p, v, holes + {p});
                ChaseEnds(s0, s, S(), v0, p0, v, p, holes);
                going := false;
              } else if |o.fields| > 1 {
                OldifyLater(v.a, p, v, holes + {p});
                ChaseEnds(s0, s, S(), v0, p0, v, p, holes);
                going := false;
              } else {
                var b := OldifyField(v.a, p, v, holes + {p});
                ChaseField(s0, s, S(), v0, p0, v, p, b, holes);
                v, p := o.fields[0], Field(b, 0);
              }
            }
          }
        }
      }
    }

    // The field i of the copy b of a gets what the field f of a is moved to.
    method UpdateField(ghost a: nat, b: nat, i: nat, n: nat, f: Value)
      requires Inv(S(), HolesFrom(b, i, n)) && AllLocs(S(), HolesFrom(b, i, n)) && i < n
      requires a in fwd && fwd[a] == b && a in before.young && i < |before.young[a].fields|
      requires f == before.young[a].fields[i]
      modifies this
      ensures Inv(S(), HolesFrom(b, i + 1, n)) && AllLocs(S(), HolesFrom(b, i + 1, n))
      ensures Progress(old(S()), S()) && refs == old(refs) && weak == old(weak)
    {
      hide Inv;
      hide AllLocs;
      hide Asked;
      hide Oldified;
      hide Progress;
      hide Put;
      ghost var s, holes := S(), HolesFrom(b, i, n);
      FieldAsked(s, a, b, i, n);
      if f.Young? {
        OldifyOne(f, Field(b, i), holes);
      } else {
        PlainEnds(s, f, Field(b, i), holes);
        Store(Field(b, i), f);
      }
      FieldDone(s, S(), a, b, i, n);
    }

    // caml_oldify_mopup.
    method Mopup()
      requires Inv(S(), {})
      modifies this
      ensures Inv(S(), {}) && list == [] && todo == Null && Extends(old(S()), S())
      ensures refs == old(refs) && weak == old(weak)
    {
      hide Inv;
      hide AllLocs;
      hide Progress;
      hide Link;
      ghost var s0 := S();
      ProgressNone(s0);
      while todo != Null
        invariant Inv(S(), {}) && Progress(s0, S())
        invariant refs == old(refs) && weak == old(weak)
        decreases Unforwarded(S()), |list|
      {
        ghost var s := S();
        TodoHead(s);
        var a := todo.a;
        var b := young[a].fields[0].a;
        var n := |heap[b].fields|;
        todo := heap[b].fields[1];
        list := list[1..];
        UnlistHoles(s);
        ghost var t := S();
        ProgressNone(t);
        UpdateField(a, b, 0, n, heap[b].fields[0]);
        for i := 1 to n
          invariant Inv(S(), HolesFrom(b, i, n)) && AllLocs(S(), HolesFrom(b, i, n)) && Progress(t, S())
          invariant refs == old(refs) && weak == old(weak)
        {
          ghost var u := S();
          ForwardedFields(t, u, a, HolesFrom(b, i, n));
          UpdateField(a, b, i, n, young[a].fields[i]);
          ProgressMore(t, u, S());
        }
        assert HolesFrom(b, n, n) == {};
        ProgressUnlist(s, t, S());
        ProgressMore(s0, s, S());
      }
      TodoEnd(S());
      ProgressMore(s0, S(), S()) by { ProgressNone(S()); }
    }

    // The value v at p, one of the holes, is dealt with.
    method UpdateHole(p: Loc, v: Value, ghost holes: set<Loc>)
      requires Inv(S(), holes) && AllLocs(S(), holes) && p in holes && v == Cur(S(), p)
      requires HolesAsBefore(S(), holes)
      modifies this
      ensures Inv(S(), holes - {p}) && AllLocs(S(), holes - {p}) && HolesAsBefore(S(), holes - {p})
      ensures Extends(old(S()), S())
      ensures refs == old(refs) && weak == old(weak)
    {
      hide Inv;
      hide AllLocs;
      hide Asked;
      hide Oldified;
      hide Put;
      hide Extends;
      ghost var s := S();
      HoleAsked(s, p, holes);
      if v.Young? {
        OldifyOne(v, p, holes);
      } else {
        PlainEnds(s, v, p, holes);
        Store(p, v);
      }
      HoleDone(s, S(), p, holes);
    }

    // caml_oldify_local_roots.
    method OldifyRoots(ghost more: set<Loc>)
      requires Inv(S(), RootsFrom(0, |roots|) + more) && AllLocs(S(), RootsFrom(0, |roots|) + more)
      requires HolesAsBefore(S(), RootsFrom(0, |roots|) + more) && forall p :: p in more ==> p.Field?
      modifies this
      ensures Inv(S(), more) && AllLocs(S(), more) && HolesAsBefore(S(), more) && Extends(old(S()), S())
      ensures refs == old(refs) && weak == old(weak)
    {
      hide Inv;
      hide AllLocs;
      hide HolesAsBefore;
      ghost var s0 := S();
      ghost var n: nat := |roots|;
      for k := 0 to |roots|
        invariant |roots| == n && Extends(s0, S())
        invariant Inv(S(), RootsFrom(k, n) + more) && AllLocs(S(), RootsFrom(k, n) + more)
        invariant HolesAsBefore(S(), RootsFrom(k, n) + more)
        invariant refs == old(refs) && weak == old(weak)
      {
        ghost var s, holes := S(), RootsFrom(k, n) + more;
        assert Root(k) in holes;
        UpdateHole(Root(k), roots[k], holes);
        assert holes - {Root(k)} == RootsFrom(k + 1, n) + more;
        InvRoots(s, holes);
        InvRoots(S(), holes - {Root(k)});
      }
      assert RootsFrom(n, n) + more == more;
    }

    // The loop of caml_empty_minor_heap over the remembered set.  A field may be there twice.
    method OldifyRefs()
      requires Inv(S(), LocSet(refs)) && AllLocs(S(), LocSet(refs)) && HolesAsBefore(S(), LocSet(refs))
      requires Recorded(before, refs)
      modifies this
      ensures Inv(S(), {}) && Extends(old(S()), S())
      ensures refs == old(refs) && weak == old(weak)
    {
      hide Inv;
      hide AllLocs;
      hide HolesAsBefore;
      ghost var s0 := S();
      ghost var holes := LocSet(refs);
      assert refs[0..] == refs;
      for r := 0 to |refs|
        invariant Inv(S(), holes) && AllLocs(S(), holes) && HolesAsBefore(S(), holes) && Extends(s0, S())
        invariant refs == old(refs) && weak == old(weak)
        invariant holes <= LocSet(refs[r..])
      {
        ghost var s := S();
        var p := refs[r];
        assert refs[r..] == [p] + refs[r + 1..];
        RefPlain(s, holes, p);
        var v := Load(p);
        if v.Young? {
          UpdateHole(p, v, holes);
        } else {
          Store(p, v);
          SamePut(s, p);
          if p in holes { PlainHole(s, p, holes); }
        }
        if p !in holes { assert holes - {p} == holes; }
        holes := holes - {p};
      }
      assert holes == {};
    }

    // The loop of caml_empty_minor_heap over the weak table.
    method UpdateWeak(ghost t: State, ghost holes: set<Loc>)
      requires S() == t && Inv(t, holes) && WeakRecorded(before, weak)
      modifies `heap
      ensures heap.Keys == t.heap.Keys
      ensures forall b :: b in heap ==> WeakBlock(fwd, LocSet(weak), b, t.heap[b], heap[b])
    {
      hide Inv;
      hide WeakBlock;
      hide WeakMoved;
      hide WeakLoc;
      WeakNothing(fwd, heap);
      assert LocSet(weak[..0]) == {};
      for r := 0 to |weak|
        invariant S() == t.(heap := heap) && heap.Keys == t.heap.Keys
        invariant forall b :: b in heap ==> WeakBlock(fwd, LocSet(weak[..r]), b, t.heap[b], heap[b])
      {
        ghost var h := heap;
        var p := weak[r];
        assert LocSet(weak[..r + 1]) == LocSet(weak[..r]) + {p};
        WeakFacts(t, holes, weak, p, LocSet(weak[..r]), heap);
        var v := heap[p.a].fields[p.i];
        var w := v;
        if v.Young? {
          WeakYoung(t, holes, weak, p);
          w := if v.off == 0 && young[v.a].Forwarded? then young[v.a].fields[0] else WEAK_NONE;
          heap := heap[p.a := heap[p.a].(fields := heap[p.a].fields[p.i := w])];
        }
        WeakStep(fwd, LocSet(weak[..r]), p, t.heap, h, heap);
      }
      assert weak[..|weak|] == weak;
    }

    // Copying what the roots and the remembered set need.
    method CollectYoung()
      requires Before(Wholes(young), heap, roots).Valid() && Recorded(Before(Wholes(young), heap, roots), refs)
      requires todo == Null && forall a :: a in young ==> young[a].Whole?
      modifies this
      ensures Inv(S(), {}) && list == [] && todo == Null && before == old(Before(Wholes(young), heap, roots))
      ensures refs == old(refs) && weak == old(weak)
    {
      hide Inv;
      hide Before.Valid;
      hide AllLocs;
      hide HolesAsBefore;
      hide Recorded;
      before, fwd, orig, list := Before(Wholes(young), heap, roots), map[], map[], [];
      ghost var b0 := before;
      assert S().young == StartState(b0).young;
      Begins(b0, refs);
      BeginsAsBefore(b0, refs);
      OldifyRoots(LocSet(refs));
      OldifyRefs();
      Mopup();
    }

    // caml_empty_minor_heap.
    method EmptyMinorHeap() returns (ghost moved: map<nat, nat>)
      requires Ready()
      modifies this
      ensures Ready() && young == map[]
      ensures Collected(old(Now()), moved, LocSet(old(weak)), heap, roots)
    {
      hide Inv;
      hide Before.Valid;
      hide Collected;
      hide Recorded;
      hide WeakRecorded;
      ghost var b0 := Now();
      if young == map[] {
        moved := map[];
        WholesNone();
        NothingYoung(b0, refs, weak);
        return;
      }
      CollectYoung();
      ghost var t := S();
      UpdateWeak(t, {});
      WeakOfHeap(b0, weak);
      Ends(t, LocSet(weak), heap);
      moved := fwd;
      CollectedReady(b0, moved, LocSet(weak), heap, roots);
      young, refs, weak := map[], [], [];
      WholesNone();
    }

    // ---- The program's stores ----

    // Modify on a field of a block of the major heap.
    method Modify(b: nat, i: nat, v: Value)
      requires Ready() && b in heap && heap[b].Scanned() && i < |heap[b].fields| && Now().Good(v)
      modifies this
      ensures Ready() && young == old(young) && roots == old(roots) && weak == old(weak)
      ensures heap == old(heap)[b := old(heap[b]).(fields := old(heap[b]).fields[i := v])]
      ensures refs == old(refs) || (refs == old(refs) + [Field(b, i)] && v.Young?)
    {
      ghost var b0 := Now();
      var was := heap[b].fields[i];
      heap := heap[b := heap[b].(fields := heap[b].fields[i := v])];
      if v.Young? && !was.Young? {
        refs := refs + [Field(b, i)];
      }
      ModifyReady(b0, old(refs), weak, b, i, v, Now(), refs);
    }

    // Modify on a field of a young block.
    method ModifyYoung(a: nat, i: nat, v: Value)
      requires Ready() && a in young && young[a].o.Scanned() && i < |young[a].o.fields| && Now().Good(v)
      modifies this
      ensures Ready() && heap == old(heap) && roots == old(roots) && weak == old(weak) && refs == old(refs)
      ensures young == old(young)[a := Whole(old(young[a].o).(fields := old(young[a].o).fields[i := v]))]
    {
      ghost var b0 := Now();
      young := young[a := Whole(young[a].o.(fields := young[a].o.fields[i := v]))];
      YoungReady(b0, refs, weak, a, i, v, Now());
    }

    // caml_initialize.
    method Initialize(b: nat, i: nat, v: Value)
      requires b in heap && i < |heap[b].fields|
      modifies `heap, `refs
      ensures heap == old(heap)[b := old(heap[b]).(fields := old(heap[b]).fields[i := v])]
      ensures refs == if v.Young? then old(refs) + [Field(b, i)] else old(refs)
    {
      heap := heap[b := heap[b].(fields := heap[b].fields[i := v])];
      if v.Young? {
        refs := refs + [Field(b, i)];
      }
    }

    // caml_alloc_shr, and caml_initialize on every field.
    method AllocShared(tag: nat, fields: seq<Value>) returns (b: nat)
      requires Ready() && Now().BlockOk(Obj(tag, fields)) && tag < NO_SCAN_TAG
      modifies this
      ensures Ready() && b !in old(heap) && heap == old(heap)[b := Obj(tag, fields)]
      ensures young == old(young) && roots == old(roots) && weak == old(weak)
    {
      ghost var b0, refs0 := Now(), refs;
      b := AllocShr(|fields|, tag);
      for i := 0 to |fields|
        invariant b !in b0.heap && b in heap && heap == b0.heap[b := heap[b]] && heap[b].tag == tag
        invariant |heap[b].fields| == |fields| && heap[b].fields[..i] == fields[..i]
        invariant young == old(young) && roots == old(roots) && weak == old(weak) && todo == Null
        invariant refs == refs0 + YoungFields(b, fields, i)
      {
        Initialize(b, i, fields[i]);
      }
      assert heap[b] == Obj(tag, fields);
      SharedReady(b0, refs0, weak, b, Obj(tag, fields), Now(), refs);
    }

    // Alloc_small, when there is room at a, and the initial stores.
    method AllocSmall(a: nat, tag: nat, fields: seq<Value>)
      requires Ready() && a !in young && fields != [] && Now().BlockOk(Obj(tag, fields))
      modifies this
      ensures Ready() && young == old(young)[a := Whole(Obj(tag, fields))]
      ensures heap == old(heap) && roots == old(roots) && weak == old(weak) && refs == old(refs)
    {
      ghost var b0 := Now();
      young := young[a := Whole(Obj(tag, fields))];
      SmallReady(b0, refs, weak, a, Obj(tag, fields), Now());
    }

    // Local roots come and go.
    method SetRoots(rs: seq<Value>)
      requires Ready() && forall v :: v in rs ==> Now().Good(v)
      modifies this
      ensures Ready() && roots == rs
      ensures young == old(young) && heap == old(heap) && weak == old(weak) && refs == old(refs)
    {
      ghost var b0 := Now();
      roots := rs;
      RootsReady(b0, refs, weak, rs);
    }
  }

  // What initializing the first n fields of b adds to the remembered set.
  function YoungFields(b: nat, fields: seq<Value>, n: nat): seq<Loc>
    requires n <= |fields|
  {
    if n == 0 then [] else YoungFields(b, fields, n - 1) + (if fields[n - 1].Young? then [Field(b, n - 1)] else [])
  }

  lemma {:induction false} YoungFieldsHas(b: nat, fields: seq<Value>, n: nat, p: Loc)
    requires n <= |fields|
    ensures p in YoungFields(b, fields, n) <==> p.Field? && p.a == b && p.i < n && fields[p.i].Young?
  {
    if n > 0 { YoungFieldsHas(b, fields, n - 1, p); }
  }

  lemma SharedReady(b0: Before, refs: seq<Loc>, weak: seq<Loc>, b: nat, o: Obj, b1: Before, refs': seq<Loc>)
    requires b0.Valid() && Recorded(b0, refs) && WeakRecorded(b0, weak)
    requires b !in b0.heap && b0.BlockOk(o) && o.Scanned()
    requires b1 == b0.(heap := b0.heap[b := o]) && refs' == refs + YoungFields(b, o.fields, |o.fields|)
    ensures b1.Valid() && Recorded(b1, refs') && WeakRecorded(b1, weak)
  {
    forall w | b0.Good(w) ensures b1.Good(w) {
    }
    forall c | c in b1.heap ensures b1.BlockOk(b1.heap[c]) {
      assert c == b || b0.BlockOk(b0.heap[c]);
    }
    forall a | a in b1.young ensures b1.BlockOk(b1.young[a]) {
      assert b0.BlockOk(b0.young[a]);
    }
    forall p | p in weak ensures WeakLoc(b1, p) {
      assert WeakLoc(b0, p);
    }
    forall p ensures p in refs' <==> p in refs || p in YoungFields(b, o.fields, |o.fields|) {
    }
    forall p ensures p in YoungFields(b, o.fields, |o.fields|) <==>
        p.Field? && p.a == b && p.i < |o.fields| && o.fields[p.i].Young?
    {
      YoungFieldsHas(b, o.fields, |o.fields|, p);
    }
  }

  lemma SmallReady(b0: Before, refs: seq<Loc>, weak: seq<Loc>, a: nat, o: Obj, b1: Before)
    requires b0.Valid() && Recorded(b0, refs) && WeakRecorded(b0, weak)
    requires a !in b0.young && b0.BlockOk(o) && o.fields != [] && b1 == b0.(young := b0.young[a := o])
    ensures b1.Valid() && Recorded(b1, refs) && WeakRecorded(b1, weak)
  {
    forall w | b0.Good(w) ensures b1.Good(w) {
    }
    forall c | c in b1.heap ensures b1.BlockOk(b1.heap[c]) {
      assert b0.BlockOk(b0.heap[c]);
    }
    forall c | c in b1.young ensures b1.BlockOk(b1.young[c]) {
      assert c == a || b0.BlockOk(b0.young[c]);
    }
    forall p | p in weak ensures WeakLoc(b1, p) {
      assert WeakLoc(b0, p);
    }
  }

  lemma RootsReady(b0: Before, refs: seq<Loc>, weak: seq<Loc>, rs: seq<Value>)
    requires b0.Valid() && Recorded(b0, refs) && WeakRecorded(b0, weak) && forall v :: v in rs ==> b0.Good(v)
    ensures var b1 := b0.(roots := rs); b1.Valid() && Recorded(b1, refs) && WeakRecorded(b1, weak)
  {
    var b1 := b0.(roots := rs);
    forall c | c in b1.heap ensures b1.BlockOk(b1.heap[c]) {
      assert b0.BlockOk(b0.heap[c]);
    }
    forall c | c in b1.young ensures b1.BlockOk(b1.young[c]) {
      assert b0.BlockOk(b0.young[c]);
    }
    forall p | p in weak ensures WeakLoc(b1, p) {
      assert WeakLoc(b0, p);
    }
  }

  // p holds what it held before the collection.
  ghost predicate AsBefore(s: State, p: Loc) {
    Exists(s, p) && forall w :: Wants(s, p, w) ==> w == Cur(s, p)
  }

  ghost predicate HolesAsBefore(s: State, holes: set<Loc>) {
    forall p :: p in holes ==> AsBefore(s, p)
  }

  lemma HoleAsked(s: State, p: Loc, holes: set<Loc>)
    requires Inv(s, holes) && AllLocs(s, holes) && p in holes && HolesAsBefore(s, holes)
    ensures s.before.Valid() && Exists(s, p) && Asked(s, Cur(s, p)) && s.before.Good(Cur(s, p))
  {
    hide Before.Valid;
    hide Copies;
    hide TodoOk;
    hide Needed;
    hide Settled;
    assert AsBefore(s, p) && IsLoc(s, p);
    AskedField(s, p, Cur(s, p));
  }

  lemma HoleDone(s: State, t: State, p: Loc, holes: set<Loc>)
    requires Inv(s, holes) && AllLocs(s, holes) && p in holes && HolesAsBefore(s, holes)
    requires Exists(s, p) && Oldified(s, t, Cur(s, p), p, holes)
    ensures Inv(t, holes - {p}) && AllLocs(t, holes - {p}) && HolesAsBefore(t, holes - {p}) && Extends(s, t)
  {
    hide Before.Valid;
    hide TodoOk;
    hide Needed;
    hide Settled;
    hide Copies;
    hide IsLoc;
    forall w | Wants(t, p, w) ensures w == Cur(s, p) {
      WantsStays(s, t, p, w);
      assert AsBefore(s, p);
    }
    HoleFilled(t, Cur(s, p), p, holes);
    forall q | q in holes - {p} ensures AsBefore(t, q) {
      assert SameHole(s, t, q) && AsBefore(s, q) && IsLoc(s, q) && IsLoc(t, q);
      forall w | Wants(t, q, w) ensures w == Cur(t, q) {
        WantsStays(s, t, q, w);
      }
    }
  }

  lemma InvRoots(s: State, holes: set<Loc>)
    requires Inv(s, holes)
    ensures |s.roots| == |s.before.roots|
  {
  }

  // A recorded field that is not a hole holds no young block.
  lemma RefPlain(s: State, holes: set<Loc>, p: Loc)
    requires Inv(s, holes) && OfHeap(s.before, p) && s.before.heap[p.a].Scanned()
    ensures Exists(s, p) && IsLoc(s, p) && (p !in holes ==> !Cur(s, p).Young?)
  {
    hide TodoOk;
    hide Needed;
    assert OldOk(s, p.a);
    if p !in holes {
      var v := WantsSomething(s, p);
      assert Settled(s, p);
      assert Fits(s, v, Cur(s, p));
    }
  }

  lemma SamePut(s: State, p: Loc)
    requires Exists(s, p)
    ensures Put(s, p, Cur(s, p)) == s
  {
    match p
    case Root(k) => assert s.roots[k := s.roots[k]] == s.roots;
    case Field(a, i) =>
      var o := s.heap[a];
      assert o.fields[i := o.fields[i]] == o.fields;
      assert s.heap[a := o] == s.heap;
  }

  lemma PlainHole(s: State, p: Loc, holes: set<Loc>)
    requires Inv(s, holes) && AllLocs(s, holes) && p in holes && HolesAsBefore(s, holes)
    requires Exists(s, p) && !Cur(s, p).Young?
    ensures Inv(s, holes - {p}) && AllLocs(s, holes - {p}) && HolesAsBefore(s, holes - {p})
  {
    hide Inv;
    hide AllLocs;
    HoleAsked(s, p, holes);
    PlainEnds(s, Cur(s, p), p, holes);
    SamePut(s, p);
    assert AsBefore(s, p);
    HoleFilled(s, Cur(s, p), p, holes);
  }

  // The fields of b from i on.
  function HolesFrom(b: nat, i: nat, n: nat): set<Loc> {
    set j | i <= j < n :: Field(b, j)
  }

  // More blocks are forwarded, or the to-do list is the same.
  ghost predicate Progress(s: State, t: State) {
    Extends(s, t) && (Unforwarded(t) == Unforwarded(s) ==> t.list == s.list || |t.list| < |s.list|)
  }

  lemma ProgressNone(s: State)
    ensures Progress(s, s)
  {
  }

  lemma ProgressMore(s: State, t: State, u: State)
    requires Progress(s, t) && Progress(t, u)
    ensures Progress(s, u) && Extends(s, u)
  {
    assert Unforwarded(u) <= Unforwarded(t) <= Unforwarded(s);
  }

  // t is s without the head of its to-do list.
  lemma ProgressUnlist(s: State, t: State, u: State)
    requires s.list != [] && t == Unlist(s) && Progress(t, u)
    ensures Progress(s, u)
    ensures Unforwarded(u) < Unforwarded(s) || (Unforwarded(u) == Unforwarded(s) && |u.list| < |s.list|)
  {
    assert Unforwarded(u) <= Unforwarded(t) == Unforwarded(s);
  }

  lemma FieldAsked(s: State, a: nat, b: nat, i: nat, n: nat)
    requires Inv(s, HolesFrom(b, i, n)) && AllLocs(s, HolesFrom(b, i, n)) && i < n
    requires a in s.fwd && s.fwd[a] == b
    ensures a in s.before.young && s.before.Valid() && Exists(s, Field(b, i)) && Field(b, i) in HolesFrom(b, i, n)
    ensures i < |s.before.young[a].fields| && Asked(s, s.before.young[a].fields[i])
    ensures s.before.Good(s.before.young[a].fields[i])
  {
    hide Before.Valid;
    hide TodoOk;
    hide Needed;
    hide Settled;
    assert CopyOk(s, a);
    assert Field(b, i) in HolesFrom(b, i, n);
    assert IsLoc(s, Field(b, i));
    AskedField(s, Field(b, i), s.before.young[a].fields[i]);
  }

  lemma FieldDone(s: State, t: State, a: nat, b: nat, i: nat, n: nat)
    requires Inv(s, HolesFrom(b, i, n)) && AllLocs(s, HolesFrom(b, i, n)) && i < n
    requires a in s.fwd && s.fwd[a] == b && a in s.before.young && i < |s.before.young[a].fields|
    requires Oldified(s, t, s.before.young[a].fields[i], Field(b, i), HolesFrom(b, i, n))
    ensures Inv(t, HolesFrom(b, i + 1, n)) && AllLocs(t, HolesFrom(b, i + 1, n)) && Progress(s, t)
  {
    hide Before.Valid;
    hide TodoOk;
    hide Needed;
    hide Fits;
    hide IsLoc;
    var p := Field(b, i);
    var i' := i + 1;
    assert HolesFrom(b, i', n) + {p} == HolesFrom(b, i, n);
    assert Settled(t, p) by {
      assert CopyOk(t, a);
    }
    FillHole(t, HolesFrom(b, i', n), p);
  }

  lemma TodoHead(s: State)
    requires Inv(s, {}) && s.todo != Null
    ensures s.list != [] && s.todo == Young(s.list[0], 0)
    ensures var a := s.list[0];
      && a in s.fwd && a in s.before.young && a in s.young && s.young[a].Forwarded?
      && s.young[a].fields != [] && s.young[a].fields[0] == Major(s.fwd[a], 0)
      && s.fwd[a] in s.heap && |s.heap[s.fwd[a]].fields| == |s.before.young[a].fields| >= 2
      && s.heap[s.fwd[a]].fields[0] == s.before.young[a].fields[0]
      && s.heap[s.fwd[a]].fields[1] == Link(s.list, 1)
  {
    assert Listed(s, 0);
    assert CellOk(s, s.list[0]);
  }

  lemma UnlistHoles(s: State)
    requires Inv(s, {}) && s.list != []
    ensures s.list[0] in s.fwd && s.fwd[s.list[0]] in s.heap
    ensures var b := s.fwd[s.list[0]]; var n := |s.heap[b].fields|;
      Inv(Unlist(s), HolesFrom(b, 0, n)) && AllLocs(Unlist(s), HolesFrom(b, 0, n))
  {
    hide Before.Valid;
    hide Needed;
    hide Settled;
    UnlistKeeps(s, {});
    assert Listed(s, 0);
    var a, t := s.list[0], Unlist(s);
    var b := s.fwd[a];
    var n := |s.heap[b].fields|;
    assert CopyOk(s, a);
    assert {} + BlockLocs(b, n) == HolesFrom(b, 0, n);
    assert a !in t.list;
  }

  lemma ForwardedFields(t: State, s: State, a: nat, holes: set<Loc>)
    requires Inv(s, holes) && a in t.fwd && Progress(t, s)
    ensures s.before == t.before && a in s.fwd && s.fwd[a] == t.fwd[a] && a in s.before.young && a in s.young
    ensures s.young[a].Forwarded?
    ensures |s.young[a].fields| == |s.before.young[a].fields|
    ensures t.fwd[a] in s.heap && |s.heap[t.fwd[a]].fields| == |s.before.young[a].fields|
    ensures forall i :: 1 <= i < |s.young[a].fields| ==> s.young[a].fields[i] == s.before.young[a].fields[i]
  {
    assert CellOk(s, a) && CopyOk(s, a);
  }

  lemma TodoEnd(s: State)
    requires Inv(s, {}) && s.todo == Null
    ensures s.list == []
  {
  }

  lemma ChaseFacts(s0: State, s: State, v0: Value, p0: Loc, v: Value, p: Loc, holes: set<Loc>)
    requires Chasing(s0, s, v0, p0, v, p, holes)
    ensures Inv(s, holes + {p}) && AllLocs(s, holes + {p}) && s.before.Valid() && Asked(s, v) && Copies(s)
    ensures Exists(s, p) && p in holes + {p} && s.before.Good(v) && s.before == s0.before
    ensures Unforwarded(s) <= Unforwarded(s0)
    ensures Unforwarded(s) == Unforwarded(s0) ==> v == v0 || Rank(s, v0) > Rank(s, v)
    ensures Rank(s, v0) == Rank(s0, v0)
  {
  }

  lemma OldifiedExists(s: State, t: State, v: Value, p: Loc, holes: set<Loc>)
    requires Oldified(s, t, v, p, holes)
    ensures Exists(t, p)
  {
  }

  lemma FieldGood(s: State, a: nat)
    requires s.before.Valid() && a in s.before.young && s.before.young[a].tag == FORWARD_TAG
    ensures s.before.young[a].fields != [] && s.before.Good(s.before.young[a].fields[0])
    ensures s.before.FirstField(a) == s.before.young[a].fields[0]
  {
  }

  // A whole block that is not bypassed is to be copied.
  lemma AskedCopy(s: State, v: Value)
    requires s.before.Valid() && Copies(s) && Asked(s, v) && v.Young? && v.off == 0
    requires v.a in s.before.young && v.a !in s.fwd
    requires s.before.young[v.a].tag == FORWARD_TAG ==> !s.before.ShortCut(s.before.FirstField(v.a))
    ensures ToCopy(s, v, v.a) && s.before.Resolve(v) == v
    ensures s.before.young[v.a].fields != []
  {
  }

  lemma AllocThenPut(s: State, p: Loc, w: Value, b: nat, o: Obj)
    requires Exists(s, p) && b !in s.heap
    ensures Exists(s.(heap := s.heap[b := o]), p)
    ensures Put(s.(heap := s.heap[b := o]), p, w) == Put(s, p, w).(heap := Put(s, p, w).heap[b := o])
    ensures b !in Put(s, p, w).heap
  {
  }

  lemma PromoteOther(s: State, p: Loc, a: nat, b: nat, o: Obj, o': Obj)
    requires Exists(s, p) && a in s.before.young && s.before.young[a].fields != []
    ensures var t := Promote(s, p, a, b, o); Promote(s, p, a, b, o') == t.(heap := t.heap[b := o'])
  {
  }

  lemma PromoteExists(s: State, p: Loc, a: nat, b: nat, o: Obj)
    requires Exists(s, p) && a in s.before.young && s.before.young[a].fields != [] && b !in s.heap
    ensures var t := Promote(s, p, a, b, o);
      Exists(t, p) && t.fwd == s.fwd[a := b] && t.before == s.before && t.list == s.list && t.todo == s.todo
  {
  }

  lemma WholeCell(s: State, v: Value, a: nat, holes: set<Loc>, p: Loc)
    requires Inv(s, holes) && ToCopy(s, v, a) && p in holes && AllLocs(s, holes)
    ensures a in s.young && s.young[a] == Whole(s.before.young[a]) && s.before.young[a].fields != []
    ensures a in s.before.young && a !in s.fwd && Exists(s, p)
  {
    assert CellOk(s, a);
  }

  lemma OneFewer(s: State, t: State, a: nat, b: nat)
    requires a in s.before.young && a !in s.fwd && t.before == s.before && t.fwd == s.fwd[a := b]
    ensures Unforwarded(t) < Unforwarded(s)
  {
    assert a in Unforwarded(s) && a !in Unforwarded(t);
  }

  lemma NotInHoles(s: State, holes: set<Loc>, b: nat)
    requires AllLocs(s, holes) && b !in s.heap
    ensures Field(b, 0) !in holes
  {
  }

  // ---- The weak table ----

  lemma WeakNothing(fwd: map<nat, nat>, heap: map<nat, Obj>)
    ensures forall b :: b in heap ==> WeakBlock(fwd, {}, b, heap[b], heap[b])
  {
  }

  // What an entry of the weak table looks like when its turn comes.
  lemma WeakFacts(t: State, holes: set<Loc>, weak: seq<Loc>, p: Loc, done: set<Loc>, heap: map<nat, Obj>)
    requires Inv(t, holes) && WeakRecorded(t.before, weak) && p in weak && heap.Keys == t.heap.Keys
    requires forall b :: b in heap ==> WeakBlock(t.fwd, done, b, t.heap[b], heap[b])
    ensures p.Field? && p.a in heap && p.i < |heap[p.a].fields| == |t.heap[p.a].fields| && !t.heap[p.a].Scanned()
    ensures heap[p.a].fields[p.i].Young? ==> heap[p.a].fields[p.i] == t.heap[p.a].fields[p.i]
  {
    hide TodoOk;
    hide Needed;
    hide Settled;
    hide Before.Valid;
    assert WeakLoc(t.before, p) && OldOk(t, p.a);
    assert WeakBlock(t.fwd, done, p.a, t.heap[p.a], heap[p.a]);
  }

  lemma WeakYoung(t: State, holes: set<Loc>, weak: seq<Loc>, p: Loc)
    requires Inv(t, holes) && WeakRecorded(t.before, weak) && p in weak
    requires p.Field? && p.a in t.heap && p.i < |t.heap[p.a].fields| && t.heap[p.a].fields[p.i].Young?
    ensures var v := t.heap[p.a].fields[p.i];
      && v.a in t.young && (t.young[v.a].Forwarded? ==> t.young[v.a].fields != [])
      && WeakMoved(t.fwd, v) ==
         if v.off == 0 && t.young[v.a].Forwarded? then t.young[v.a].fields[0] else WEAK_NONE
  {
    hide TodoOk;
    hide Needed;
    hide Settled;
    hide Before.Valid;
    assert WeakLoc(t.before, p) && OldOk(t, p.a);
    assert CellOk(t, t.heap[p.a].fields[p.i].a);
  }

  // Entry p has been dealt with.
  lemma WeakStep(fwd: map<nat, nat>, done: set<Loc>, p: Loc, heap0: map<nat, Obj>, h: map<nat, Obj>,
                 heap: map<nat, Obj>)
    requires heap.Keys == h.Keys == heap0.Keys
    requires forall b :: b in h ==> WeakBlock(fwd, done, b, heap0[b], h[b])
    requires p.Field? && p.a in heap && p.i < |h[p.a].fields| == |heap0[p.a].fields| && !heap0[p.a].Scanned()
    requires var v := h[p.a].fields[p.i];
      if v.Young? then
        v == heap0[p.a].fields[p.i] &&
        heap == h[p.a := h[p.a].(fields := h[p.a].fields[p.i := WeakMoved(fwd, v)])]
      else heap == h
    ensures forall b :: b in heap ==> WeakBlock(fwd, done + {p}, b, heap0[b], heap[b])
  {
    forall b | b in heap ensures WeakBlock(fwd, done + {p}, b, heap0[b], heap[b]) {
      assert WeakBlock(fwd, done, b, heap0[b], h[b]);
    }
  }

  lemma WeakOfHeap(before: Before, weak: seq<Loc>)
    requires WeakRecorded(before, weak)
    ensures forall p :: p in LocSet(weak) ==> OfHeap(before, p)
  {
    forall p | p in LocSet(weak) ensures OfHeap(before, p) {
      assert WeakLoc(before, p);
    }
  }

  // ---- The remembered set ----

  lemma BeginsAsBefore(before: Before, refs: seq<Loc>)
    requires Recorded(before, refs)
    ensures HolesAsBefore(StartState(before), RootsFrom(0, |before.roots|) + LocSet(refs))
    ensures forall p :: p in LocSet(refs) ==> p.Field?
  {
  }

  // When there is no young block there is nothing to do.
  lemma NothingYoung(before: Before, refs: seq<Loc>, weak: seq<Loc>)
    requires before.Valid() && before.young == map[] && WeakRecorded(before, weak)
    ensures Collected(before, map[], LocSet(weak), before.heap, before.roots)
  {
    hide Before.Valid;
    var fwd: map<nat, nat> := map[];
    GoodEverywhere(before);
    forall v | before.Good(v) ensures before.Moved(fwd, v, v) && before.Within({}, v) && !v.Young? {
    }
    forall b | b in before.heap ensures Old(before, fwd, LocSet(weak), b, before.heap[b], before.heap[b]) {
      var o := before.heap[b];
      if o.Scanned() {
        forall i | 0 <= i < |o.fields| ensures before.Moved(fwd, o.fields[i], o.fields[i]) {
          assert o.fields[i] in o.Scan();
        }
      } else {
        forall i | 0 <= i < |o.fields| && Field(b, i) in LocSet(weak) ensures !o.fields[i].Young? {
          assert WeakLoc(before, Field(b, i));
        }
      }
    }
    assert before.Closed({});
  }

  lemma MovedGood(before: Before, fwd: map<nat, nat>, heap: map<nat, Obj>, v: Value, w: Value)
    requires before.Valid() && before.Moved(fwd, v, w) && heap.Keys == before.heap.Keys + fwd.Values
    ensures !w.Young? && forall roots :: Before(map[], heap, roots).Good(w)
  {
    hide Before.Valid;
    ResolvedGood(before, v);
    var r := before.Resolve(v);
    if r.Young? { assert fwd[r.a] in fwd.Values; }
  }

  // No young block is left, and the remembered set may be emptied.
  lemma CollectedReady(before: Before, fwd: map<nat, nat>, weak: set<Loc>, heap: map<nat, Obj>, roots: seq<Value>)
    requires Collected(before, fwd, weak, heap, roots)
    ensures var after := Before(map[], heap, roots);
      after.Valid() && Recorded(after, []) && WeakRecorded(after, [])
  {
    hide Before.Valid;
    hide Before.Moved;
    hide Before.InUse;
    var after := Before(map[], heap, roots);
    CopiedBefore(before, fwd, weak, heap, roots);
    forall v | v in roots ensures after.Good(v) {
      var k :| 0 <= k < |roots| && roots[k] == v;
      MovedGood(before, fwd, heap, before.roots[k], v);
    }
    forall b | b in heap ensures after.BlockOk(heap[b]) && forall v :: v in heap[b].Scan() ==> !v.Young? {
      if b in before.heap {
        assert Old(before, fwd, weak, b, before.heap[b], heap[b]);
        ValidBlocks(before);
        if heap[b].Scanned() { FieldsGood(before, fwd, heap, roots, before.heap[b], heap[b]); }
      } else {
        var a :| a in fwd && fwd[a] == b;
        assert Copy(before, fwd, before.young[a], heap[fwd[a]]);
        ValidBlocks(before);
        if heap[b].Scanned() { FieldsGood(before, fwd, heap, roots, before.young[a], heap[b]); }
      }
    }
    ValidFrom(after);
  }

  lemma CopiedBefore(before: Before, fwd: map<nat, nat>, weak: set<Loc>, heap: map<nat, Obj>, roots: seq<Value>)
    requires Collected(before, fwd, weak, heap, roots)
    ensures fwd.Keys <= before.young.Keys
  {
  }

  lemma ValidBlocks(before: Before)
    requires before.Valid()
    ensures forall b :: b in before.heap ==> before.BlockOk(before.heap[b])
    ensures forall a :: a in before.young ==> before.BlockOk(before.young[a])
  {
  }

  lemma ValidFrom(after: Before)
    requires after.young == map[] && (forall b :: b in after.heap ==> after.BlockOk(after.heap[b]))
    requires forall v :: v in after.roots ==> after.Good(v)
    ensures after.Valid()
  {
  }

  lemma FieldsGood(before: Before, fwd: map<nat, nat>, heap: map<nat, Obj>, roots: seq<Value>, o: Obj, o': Obj)
    requires before.Valid() && MovedFields(before, fwd, o, o') && heap.Keys == before.heap.Keys + fwd.Values
    ensures forall v :: v in o'.Scan() ==> Before(map[], heap, roots).Good(v) && !v.Young?
  {
    hide Before.Valid;
    hide Before.Moved;
    forall v | v in o'.Scan() ensures Before(map[], heap, roots).Good(v) && !v.Young? {
      var i :| 0 <= i < |o'.fields| && o'.fields[i] == v;
      MovedGood(before, fwd, heap, o.fields[i], v);
    }
  }

  lemma ModifyReady(b0: Before, refs: seq<Loc>, weak: seq<Loc>, b: nat, i: nat, v: Value, b1: Before, refs': seq<Loc>)
    requires b0.Valid() && Recorded(b0, refs) && WeakRecorded(b0, weak)
    requires b in b0.heap && b0.heap[b].Scanned() && i < |b0.heap[b].fields| && b0.Good(v)
    requires b1 == b0.(heap := b0.heap[b := b0.heap[b].(fields := b0.heap[b].fields[i := v])])
    requires refs' == if v.Young? && !b0.heap[b].fields[i].Young? then refs + [Field(b, i)] else refs
    ensures b1.Valid() && Recorded(b1, refs') && WeakRecorded(b1, weak)
  {
    forall w | b0.Good(w) ensures b1.Good(w) {
    }
    forall c | c in b1.heap ensures b1.BlockOk(b1.heap[c]) {
      assert b0.BlockOk(b0.heap[c]);
      UpdateScan(b0.heap[b], i, v);
    }
    forall a | a in b1.young ensures b1.BlockOk(b1.young[a]) {
      assert b0.BlockOk(b0.young[a]);
    }
    forall p | p in weak ensures WeakLoc(b1, p) {
      assert WeakLoc(b0, p);
    }
    if v.Young? {
      assert forall p :: p in refs ==> p in refs';
      if b0.heap[b].fields[i].Young? { assert Field(b, i) in refs; } else { assert refs'[|refs|] == Field(b, i); }
    }
  }

  lemma UpdateScan(o: Obj, i: nat, v: Value)
    requires i < |o.fields|
    ensures forall w :: w in o.(fields := o.fields[i := v]).Scan() ==> w == v || w in o.Scan()
  {
  }

  lemma YoungReady(b0: Before, refs: seq<Loc>, weak: seq<Loc>, a: nat, i: nat, v: Value, b1: Before)
    requires b0.Valid() && Recorded(b0, refs) && WeakRecorded(b0, weak)
    requires a in b0.young && b0.young[a].Scanned() && i < |b0.young[a].fields| && b0.Good(v)
    requires b1 == b0.(young := b0.young[a := b0.young[a].(fields := b0.young[a].fields[i := v])])
    ensures b1.Valid() && Recorded(b1, refs) && WeakRecorded(b1, weak)
  {
    forall w | b0.Good(w) ensures b1.Good(w) {
    }
    forall c | c in b1.heap ensures b1.BlockOk(b1.heap[c]) {
      assert b0.BlockOk(b0.heap[c]);
    }
    forall c | c in b1.young ensures b1.BlockOk(b1.young[c]) {
      assert b0.BlockOk(b0.young[c]);
      UpdateScan(b0.young[a], i, v);
    }
    forall p | p in weak ensures WeakLoc(b1, p) {
      assert WeakLoc(b0, p);
    }
  }
}
