// What the steps of the minor collector do to its invariant.
module MinorSteps {
  import opened MinorState

  ghost predicate Extends(s: State, t: State) {
    t.before == s.before && forall a :: a in s.fwd ==> a in t.fwd && t.fwd[a] == s.fwd[a]
  }

  lemma FitsLater(s: State, t: State, v: Value, w: Value)
    requires s.before.Valid() && Extends(s, t) && Fits(s, v, w)
    ensures Fits(t, v, w)
  {
  }

  // What does not move, fits.
  lemma FitsItself(s: State, v: Value)
    requires s.before.Valid() && s.before.Good(v) && !v.Young?
    ensures Fits(s, v, v)
  {
  }

  // ---- Storing at a hole ----

  lemma PutKeeps(s: State, p: Loc, w: Value, holes: set<Loc>)
    requires Inv(s, holes) && p in holes && IsLoc(s, p)
    ensures Inv(Put(s, p, w), holes) && IsLoc(Put(s, p, w), p) && Cur(Put(s, p, w), p) == w
  {
    hide Before.Valid;
    hide Settled;
    hide Fits;
    var t := Put(s, p, w);
    PutCopies(s, p, w);
    PutTodo(s, p, w);
    forall q | q !in holes ensures Settled(t, q) {
      PutSettled(s, p, w, q);
    }
  }

  lemma PutCopies(s: State, p: Loc, w: Value)
    requires Copies(s) && IsLoc(s, p)
    ensures Copies(Put(s, p, w))
  {
    var t := Put(s, p, w);
    forall a ensures CellOk(t, a) {
      assert CellOk(s, a);
    }
    forall a ensures CopyOk(t, a) {
      assert CopyOk(s, a);
    }
    forall b ensures OldOk(t, b) && NewOk(t, b) {
      assert OldOk(s, b) && NewOk(s, b);
    }
  }

  lemma PutTodo(s: State, p: Loc, w: Value)
    requires Copies(s) && TodoOk(s) && IsLoc(s, p)
    ensures TodoOk(Put(s, p, w))
  {
    var t := Put(s, p, w);
    forall i | 0 <= i < |t.list| ensures Listed(t, i) {
      assert Listed(s, i) && CopyOk(s, s.list[i]);
    }
  }

  lemma PutSettled(s: State, p: Loc, w: Value, q: Loc)
    requires s.before.Valid() && IsLoc(s, p) && q != p && Settled(s, q)
    ensures Settled(Put(s, p, w), q)
  {
    hide Before.Valid;
    var t := Put(s, p, w);
    if IsLoc(t, q) {
      forall v | Wants(t, q, v) ensures Fits(t, v, Cur(t, q)) {
        assert Wants(s, q, v);
        FitsLater(s, t, v, Cur(s, q));
      }
    }
  }

  // ---- Forwarding young block a to the new block b ----

  function Forward(s: State, a: nat, b: nat, o: Obj): State
    requires a in s.before.young && s.before.young[a].fields != []
  {
    s.(heap := s.heap[b := o],
       young := s.young[a := Forwarded(s.before.young[a].fields[0 := Major(b, 0)])],
       fwd := s.fwd[a := b], orig := s.orig[b := a])
  }

  function BlockLocs(b: nat, n: nat): set<Loc> {
    set i | 0 <= i < n :: Field(b, i)
  }

  // Block a is to be kept.
  ghost predicate Wanted(s: State, a: nat)
    requires s.before.Valid()
  {
    forall c :: s.before.Closed(c) ==> a in c
  }

  lemma ForwardKeeps(s: State, a: nat, b: nat, o: Obj, holes: set<Loc>)
    requires Inv(s, holes) && a in s.before.young && a !in s.fwd && b !in s.heap && Wanted(s, a)
    requires Shaped(o, s.before.young[a])
    ensures s.before.young[a].fields != []
    ensures Inv(Forward(s, a, b, o), holes + BlockLocs(b, |o.fields|))
    ensures Extends(s, Forward(s, a, b, o))
  {
    hide Settled;
    hide Fits;
    hide Before.BlockOk;
    var t := Forward(s, a, b, o);
    ForwardCopies(s, a, b, o);
    ForwardTodo(s, a, b, o);
    forall q | q !in holes + BlockLocs(b, |o.fields|) ensures Settled(t, q) {
      ForwardSettled(s, a, b, o, q);
    }
  }

  lemma ForwardCopies(s: State, a: nat, b: nat, o: Obj)
    requires Copies(s) && a in s.before.young && s.before.young[a].fields != [] && a !in s.fwd && b !in s.heap
    requires Shaped(o, s.before.young[a])
    ensures Copies(Forward(s, a, b, o))
  {
    var t := Forward(s, a, b, o);
    assert OldOk(s, b) && NewOk(s, b);
    forall x ensures CellOk(t, x) {
      assert CellOk(s, x);
    }
    forall x ensures CopyOk(t, x) {
      assert CopyOk(s, x);
    }
    forall x ensures OldOk(t, x) && NewOk(t, x) {
      assert OldOk(s, x) && NewOk(s, x);
      if x in s.orig { assert CopyOk(s, s.orig[x]); }
    }
  }

  lemma ForwardTodo(s: State, a: nat, b: nat, o: Obj)
    requires TodoOk(s) && a in s.before.young && s.before.young[a].fields != [] && a !in s.fwd && b !in s.heap
    ensures TodoOk(Forward(s, a, b, o))
  {
    var t := Forward(s, a, b, o);
    forall i | 0 <= i < |t.list| ensures Listed(t, i) {
      assert Listed(s, i);
    }
  }

  lemma ForwardSettled(s: State, a: nat, b: nat, o: Obj, q: Loc)
    requires s.before.Valid() && Copies(s) && a in s.before.young && s.before.young[a].fields != []
    requires a !in s.fwd && b !in s.heap
    requires q !in BlockLocs(b, |o.fields|)
    requires Settled(s, q)
    ensures Settled(Forward(s, a, b, o), q)
  {
    hide Before.Valid;
    hide Fits;
    var t := Forward(s, a, b, o);
    if IsLoc(t, q) {
      assert q.Field? ==> q.a != b;
      forall v | Wants(t, q, v) ensures Fits(t, v, Cur(t, q)) {
        assert Wants(s, q, v);
        FitsLater(s, t, v, Cur(s, q));
      }
    }
  }

  // ---- The to-do list ----

  function Enlist(s: State, a: nat): State {
    s.(list := [a] + s.list, todo := Young(a, 0))
  }

  lemma EnlistKeeps(s: State, a: nat, holes: set<Loc>)
    requires a in s.fwd && s.fwd[a] in s.heap && a !in s.list
    requires a in s.before.young && s.before.young[a].Scanned()
    requires var o, o' := s.before.young[a], s.heap[s.fwd[a]];
      2 <= |o.fields| == |o'.fields| && o'.fields[0] == o.fields[0] && o'.fields[1] == s.todo
    requires Inv(s, holes + BlockLocs(s.fwd[a], |s.before.young[a].fields|))
    ensures Inv(Enlist(s, a), holes)
  {
    hide Settled;
    hide Fits;
    hide Before.Valid;
    var t := Enlist(s, a);
    var b := s.fwd[a];
    assert forall x :: (CellOk(s, x) ==> CellOk(t, x)) && (CopyOk(s, x) ==> CopyOk(t, x));
    assert forall x :: (OldOk(s, x) ==> OldOk(t, x)) && (NewOk(s, x) ==> NewOk(t, x));
    assert CopyOk(s, a);
    forall i | 0 <= i < |t.list| ensures Listed(t, i) {
      if i > 0 { assert Listed(s, i - 1); }
    }
    forall q | q !in holes ensures Settled(t, q) {
      EnlistSettled(s, a, q);
    }
  }

  lemma EnlistSettled(s: State, a: nat, q: Loc)
    requires s.before.Valid() && a in s.fwd && s.fwd[a] in s.orig && s.orig[s.fwd[a]] == a
    requires s.fwd[a] in s.heap && a in s.before.young
    requires |s.heap[s.fwd[a]].fields| == |s.before.young[a].fields|
    requires q !in BlockLocs(s.fwd[a], |s.before.young[a].fields|) ==> Settled(s, q)
    ensures Settled(Enlist(s, a), q)
  {
    hide Before.Valid;
    var t := Enlist(s, a);
    if IsLoc(t, q) {
      assert a in t.list by { assert t.list[0] == a; }
      assert forall x :: x in s.list ==> x in t.list;
      assert q.Field? && q.a in s.orig ==> s.orig[q.a] != a;
      forall v | Wants(t, q, v) ensures Fits(t, v, Cur(t, q)) {
        assert Wants(s, q, v);
        FitsLater(s, t, v, Cur(s, q));
      }
    }
  }

  function Unlist(s: State): State
    requires s.list != []
  {
    s.(list := s.list[1..], todo := Link(s.list, 1))
  }

  lemma UnlistKeeps(s: State, holes: set<Loc>)
    requires Inv(s, holes) && s.list != []
    ensures s.list[0] in s.fwd && s.list[0] in s.before.young
    ensures Inv(Unlist(s), holes + BlockLocs(s.fwd[s.list[0]], |s.before.young[s.list[0]].fields|))
  {
    hide Settled;
    hide Fits;
    hide Before.Valid;
    var t := Unlist(s);
    assert Listed(s, 0);
    assert forall x :: (CellOk(s, x) ==> CellOk(t, x)) && (CopyOk(s, x) ==> CopyOk(t, x));
    assert forall x :: (OldOk(s, x) ==> OldOk(t, x)) && (NewOk(s, x) ==> NewOk(t, x));
    forall i | 0 <= i < |t.list| ensures Listed(t, i) {
      var i' := i + 1;
      assert Listed(s, i');
      assert Link(t.list, i') == Link(s.list, i' + 1);
    }
    forall q | q !in holes + BlockLocs(s.fwd[s.list[0]], |s.before.young[s.list[0]].fields|)
      ensures Settled(t, q)
    {
      UnlistSettled(s, q);
    }
  }

  lemma UnlistSettled(s: State, q: Loc)
    requires s.before.Valid() && Copies(s) && s.list != [] && s.list[0] in s.fwd && s.list[0] in s.before.young
    requires q !in BlockLocs(s.fwd[s.list[0]], |s.before.young[s.list[0]].fields|) && Settled(s, q)
    ensures Settled(Unlist(s), q)
  {
    hide Before.Valid;
    var t := Unlist(s);
    if IsLoc(t, q) {
      var a := s.list[0];
      assert CopyOk(s, a);
      if q.Field? && q.a in s.orig {
        assert NewOk(s, q.a);
        assert s.orig[q.a] != a;
        assert s.list == [a] + t.list;
      }
      forall v | Wants(t, q, v) ensures Fits(t, v, Cur(t, q)) {
        assert Wants(s, q, v);
        FitsLater(s, t, v, Cur(s, q));
      }
    }
  }

  // ---- What locations want ----

  lemma WantsSomething(s: State, p: Loc) returns (v: Value)
    requires Copies(s) && s.before.Valid() && IsLoc(s, p)
    ensures Wants(s, p, v) && s.before.Good(v)
  {
    match p
    case Root(k) =>
      v := s.before.roots[k];
    case Field(b, i) =>
      assert NewOk(s, b) && OldOk(s, b);
      if b in s.orig {
        var a := s.orig[b];
        assert CopyOk(s, a);
        v := s.before.young[a].fields[i];
        assert s.before.BlockOk(s.before.young[a]);
        assert v in s.before.young[a].Scan();
      } else {
        v := s.before.heap[b].fields[i];
        assert s.before.BlockOk(s.before.heap[b]);
        assert v in s.before.heap[b].Scan();
      }
  }

  // The young block that a location leads to is to be kept.
  lemma WantedAt(s: State, p: Loc, v: Value)
    requires s.before.Valid() && Copies(s) && Needed(s) && IsLoc(s, p) && Wants(s, p, v) && s.before.Good(v)
    ensures s.before.Resolve(v).Young? ==> Wanted(s, s.before.Resolve(v).a)
  {
    hide Before.Valid;
    hide Before.Resolve;
    forall c | s.before.Closed(c) ensures s.before.Within(c, v) {
      match p {
        case Root(k) =>
        case Field(b, i) =>
          assert NewOk(s, b) && OldOk(s, b);
          if b in s.orig {
            var a := s.orig[b];
            assert CopyOk(s, a);
            assert s.before.AllWithin(c, s.before.young[a]);
            assert v in s.before.young[a].Scan();
          } else {
            assert s.before.AllWithin(c, s.before.heap[b]);
            assert v in s.before.heap[b].Scan();
          }
      }
    }
  }

  lemma FillHole(s: State, holes: set<Loc>, p: Loc)
    requires Inv(s, holes + {p}) && Settled(s, p)
    ensures Inv(s, holes)
  {
    hide Settled;
    hide Copies;
    hide TodoOk;
    hide Needed;
    hide Before.Valid;
  }

  // ---- Copying one block ----

  // All the holes are locations.
  ghost predicate AllLocs(s: State, holes: set<Loc>) {
    forall q :: q in holes ==> IsLoc(s, q)
  }

  // Holes other than p are as they were.
  ghost predicate SameHoles(s: State, t: State, holes: set<Loc>, p: Loc) {
    forall q :: q in holes && q != p ==> SameHole(s, t, q)
  }

  ghost predicate SameHole(s: State, t: State, q: Loc) {
    Exists(s, q) && Exists(t, q) && Cur(t, q) == Cur(s, q)
  }

  // Young block a is whole, to be kept, and v leads to it.
  ghost predicate ToCopy(s: State, v: Value, a: nat)
    requires s.before.Valid()
  {
    && s.before.Good(v) && s.before.Resolve(v) == Young(a, 0)
    && a in s.before.young && a !in s.fwd && Wanted(s, a)
  }

  // p gets the address b of the copy o of a.
  function Promote(s: State, p: Loc, a: nat, b: nat, o: Obj): State
    requires Exists(s, p) && a in s.before.young && s.before.young[a].fields != []
  {
    Forward(Put(s, p, Major(b, 0)), a, b, o)
  }

  lemma PromoteKeeps(s: State, p: Loc, v: Value, a: nat, b: nat, o: Obj, holes: set<Loc>)
    requires Inv(s, holes) && p in holes && AllLocs(s, holes) && ToCopy(s, v, a) && b !in s.heap
    requires Shaped(o, s.before.young[a])
    ensures s.before.young[a].fields != []
    ensures var t := Promote(s, p, a, b, o);
      && Inv(t, holes + BlockLocs(b, |o.fields|)) && AllLocs(t, holes) && Extends(s, t)
      && SameHoles(s, t, holes, p) && Fits(t, v, Cur(t, p))
  {
    hide Settled;
    hide Copies;
    hide TodoOk;
    hide Needed;
    hide Before.BlockOk;
    hide Shaped;
    PutKeeps(s, p, Major(b, 0), holes);
    var u := Put(s, p, Major(b, 0));
    assert u.heap.Keys == s.heap.Keys;
    SameWanted(s, u, a);
    ForwardKeeps(u, a, b, o, holes);
    var t := Promote(s, p, a, b, o);
    PromotePlaces(s, p, a, b, o, holes);
  }

  lemma SameWanted(s: State, t: State, a: nat)
    requires s.before.Valid() && t.before == s.before && Wanted(s, a)
    ensures Wanted(t, a)
  {
  }

  lemma PromotePlaces(s: State, p: Loc, a: nat, b: nat, o: Obj, holes: set<Loc>)
    requires AllLocs(s, holes) && p in holes && a in s.before.young && s.before.young[a].fields != []
    requires b !in s.heap
    ensures var t := Promote(s, p, a, b, o);
      AllLocs(t, holes) && SameHoles(s, t, holes, p) && Cur(t, p) == Major(b, 0)
  {
    var t := Promote(s, p, a, b, o);
    forall q | q in holes ensures IsLoc(t, q) && (q != p ==> SameHole(s, t, q)) {
      assert IsLoc(s, q);
    }
  }

  // A block with several fields joins the to-do list.
  lemma CopyLater(s: State, p: Loc, v: Value, a: nat, b: nat, o: Obj, holes: set<Loc>)
    requires Inv(s, holes) && p in holes && AllLocs(s, holes) && ToCopy(s, v, a) && b !in s.heap
    requires Shaped(o, s.before.young[a]) && o.Scanned() && |o.fields| >= 2
    requires o.fields[0] == s.before.young[a].fields[0] && o.fields[1] == s.todo
    ensures var t := Enlist(Promote(s, p, a, b, o), a);
      && Inv(t, holes) && AllLocs(t, holes) && Extends(s, t)
      && SameHoles(s, t, holes, p) && Fits(t, v, Cur(t, p))
  {
    hide Settled;
    hide Copies;
    hide Needed;
    hide Before.Valid;
    hide Before.Moved;
    PromoteKeeps(s, p, v, a, b, o, holes);
    var u := Promote(s, p, a, b, o);
    forall i | 0 <= i < |s.list| ensures s.list[i] != a {
      assert Listed(s, i);
    }
    EnlistKeeps(u, a, holes);
    FreshNotCopy(s, b);
    forall q | q in holes && q.Field? && q.a in u.orig ensures q.a in s.heap && q.a in s.orig {
      assert IsLoc(s, q);
    }
    EnlistPlaces(s, u, a, holes, p);
    FitsLater(u, Enlist(u, a), v, Cur(u, p));
  }

  lemma FreshNotCopy(s: State, b: nat)
    requires Copies(s) && b !in s.heap
    ensures b !in s.orig
  {
    assert NewOk(s, b);
    assert b in s.orig ==> CopyOk(s, s.orig[b]);
  }

  lemma EnlistPlaces(s: State, u: State, a: nat, holes: set<Loc>, p: Loc)
    requires AllLocs(s, holes) && AllLocs(u, holes) && SameHoles(s, u, holes, p) && a in u.fwd
    requires Copies(u) && a !in s.fwd && Copies(s)
    requires forall q :: q in holes && q.Field? && q.a in u.orig ==> q.a in s.heap && q.a in s.orig
    requires forall b :: b in s.orig && b in u.orig ==> s.orig[b] == u.orig[b]
    ensures AllLocs(Enlist(u, a), holes) && SameHoles(s, Enlist(u, a), holes, p)
  {
    var t := Enlist(u, a);
    forall q | q in holes ensures IsLoc(t, q) && (q != p ==> SameHole(s, t, q)) {
      assert IsLoc(u, q);
      if q.Field? && q.a in u.orig {
        assert NewOk(s, q.a);
        assert u.orig[q.a] != a;
      }
      if q != p { assert SameHole(s, u, q); }
    }
  }

  // A block with one field: the field is to be updated next.
  lemma CopyOne(s: State, p: Loc, v: Value, a: nat, b: nat, o: Obj, holes: set<Loc>)
    requires Inv(s, holes) && p in holes && AllLocs(s, holes) && ToCopy(s, v, a) && b !in s.heap
    requires Shaped(o, s.before.young[a]) && o.Scanned() && |o.fields| == 1
    ensures s.before.young[a].fields != []
    ensures var t := Promote(s, p, a, b, o);
      && Inv(t, holes + {Field(b, 0)}) && AllLocs(t, holes + {Field(b, 0)}) && Extends(s, t)
      && SameHoles(s, t, holes, p) && Fits(t, v, Cur(t, p))
      && (forall w :: Wants(t, Field(b, 0), w) ==> w == s.before.young[a].fields[0])
  {
    hide Settled;
    hide Before.Valid;
    hide Before.Moved;
    PromoteKeeps(s, p, v, a, b, o, holes);
    var t := Promote(s, p, a, b, o);
    assert BlockLocs(b, 1) == {Field(b, 0)};
    forall i | 0 <= i < |s.list| ensures s.list[i] != a {
      assert Listed(s, i);
    }
    assert IsLoc(t, Field(b, 0));
  }

  // A block whose fields are not values is copied as it is.
  lemma CopyRaw(s: State, p: Loc, v: Value, a: nat, b: nat, o: Obj, holes: set<Loc>)
    requires Inv(s, holes) && p in holes && AllLocs(s, holes) && ToCopy(s, v, a) && b !in s.heap
    requires o == s.before.young[a] && !o.Scanned()
    ensures s.before.young[a].fields != []
    ensures var t := Promote(s, p, a, b, o);
      && Inv(t, holes) && AllLocs(t, holes) && Extends(s, t)
      && SameHoles(s, t, holes, p) && Fits(t, v, Cur(t, p))
  {
    hide Copies;
    hide TodoOk;
    hide Needed;
    hide Before.Valid;
    hide Before.Moved;
    PromoteKeeps(s, p, v, a, b, o, holes);
    var t := Promote(s, p, a, b, o);
    forall q | q !in holes ensures Settled(t, q) {
      if q in BlockLocs(b, |o.fields|) { assert !IsLoc(t, q); }
    }
  }

  // Updating p when v was forwarded before.
  lemma UseForward(s: State, p: Loc, v: Value, a: nat, holes: set<Loc>)
    requires Inv(s, holes) && p in holes && AllLocs(s, holes)
    requires s.before.Good(v) && s.before.Resolve(v) == Young(a, 0) && a in s.fwd
    ensures var t := Put(s, p, Major(s.fwd[a], 0));
      && Inv(t, holes) && AllLocs(t, holes) && Extends(s, t)
      && SameHoles(s, t, holes, p) && Fits(t, v, Cur(t, p))
  {
    hide Inv;
    PutKeeps(s, p, Major(s.fwd[a], 0), holes);
    PutPlaces(s, p, Major(s.fwd[a], 0), holes);
    InvValid(s, holes);
  }

  lemma InvValid(s: State, holes: set<Loc>)
    requires Inv(s, holes)
    ensures s.before.Valid()
  {
  }

  lemma PutPlaces(s: State, p: Loc, w: Value, holes: set<Loc>)
    requires p in holes && AllLocs(s, holes)
    ensures var t := Put(s, p, w); AllLocs(t, holes) && SameHoles(s, t, holes, p) && Cur(t, p) == w
  {
    var t := Put(s, p, w);
    forall q | q in holes ensures IsLoc(t, q) && (q != p ==> SameHole(s, t, q)) {
      assert IsLoc(s, q);
    }
  }
}
