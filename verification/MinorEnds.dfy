// How a minor collection begins, and what it leaves.
module MinorEnds {
  import opened MinorState
  import opened MinorSteps

  // caml_weak_none.
  const WEAK_NONE: Value := Out(0)

  // Every field of the major heap that holds a young block is in the remembered set.
  ghost predicate Recorded(before: Before, refs: seq<Loc>) {
    && (forall b, i :: b in before.heap && 0 <= i < |before.heap[b].Scan()| && before.heap[b].fields[i].Young? ==>
          Field(b, i) in refs)
    && (forall p :: p in refs ==> OfHeap(before, p) && before.heap[p.a].Scanned())
  }

  predicate OfHeap(before: Before, p: Loc) {
    p.Field? && p.a in before.heap && p.i < |before.heap[p.a].fields|
  }

  // The entries of the weak table are fields of weak arrays.
  ghost predicate WeakRecorded(before: Before, weak: seq<Loc>) {
    forall p :: p in weak ==> WeakLoc(before, p)
  }

  ghost predicate WeakLoc(before: Before, p: Loc) {
    && OfHeap(before, p) && !before.heap[p.a].Scanned()
    && (before.heap[p.a].fields[p.i].Young? ==> before.heap[p.a].fields[p.i].a in before.young)
  }

  function StartState(before: Before): State {
    State(map a | a in before.young :: Whole(before.young[a]), before.heap, before.roots, Null,
          before, map[], map[], [])
  }

  function RootsFrom(k: nat, n: nat): set<Loc> {
    set i | k <= i < n :: Root(i)
  }

  function LocSet(refs: seq<Loc>): set<Loc> {
    set p | p in refs
  }

  lemma Begins(before: Before, refs: seq<Loc>)
    requires before.Valid() && Recorded(before, refs)
    ensures var s := StartState(before); var holes := RootsFrom(0, |before.roots|) + LocSet(refs);
      Inv(s, holes) && AllLocs(s, holes)
  {
    hide Before.Valid;
    var s := StartState(before);
    var holes := RootsFrom(0, |before.roots|) + LocSet(refs);
    forall a ensures CellOk(s, a) && CopyOk(s, a) && OldOk(s, a) && NewOk(s, a) {
    }
    forall p | p !in holes ensures Settled(s, p) {
      BeginsSettled(before, refs, p);
    }
    forall q | q in holes ensures IsLoc(s, q) {
    }
  }

  lemma BeginsSettled(before: Before, refs: seq<Loc>, p: Loc)
    requires before.Valid() && Recorded(before, refs) && p !in RootsFrom(0, |before.roots|) + LocSet(refs)
    ensures Settled(StartState(before), p)
  {
    hide Before.Moved;
    var s := StartState(before);
    RootHole(before, p);
    if IsLoc(s, p) && p.Field? {
      var v := before.heap[p.a].fields[p.i];
      assert before.BlockOk(before.heap[p.a]);
      assert v in before.heap[p.a].Scan();
      FitsItself(s, v);
    }
  }

  lemma RootHole(before: Before, p: Loc)
    ensures p.Root? && IsLoc(StartState(before), p) ==> p in RootsFrom(0, |before.roots|)
  {
  }

  // A hole that got what it wants.
  lemma HoleFilled(s: State, v: Value, p: Loc, holes: set<Loc>)
    requires Inv(s, holes) && p in holes && AllLocs(s, holes) && Fits(s, v, Cur(s, p))
    requires forall w :: Wants(s, p, w) ==> w == v
    ensures Inv(s, holes - {p}) && AllLocs(s, holes - {p})
  {
    hide Before.Valid;
    hide Copies;
    hide TodoOk;
    hide Needed;
    assert holes - {p} + {p} == holes;
    FillHole(s, holes - {p}, p);
  }

  // ---- Weak pointers ----

  // A weak pointer to a young block that was copied follows it; the others are erased.
  function WeakMoved(fwd: map<nat, nat>, v: Value): Value {
    if !v.Young? then v
    else if v.off == 0 && v.a in fwd then Major(fwd[v.a], 0)
    else WEAK_NONE
  }

  ghost predicate WeakBlock(fwd: map<nat, nat>, weak: set<Loc>, b: nat, o: Obj, o': Obj) {
    && o'.tag == o.tag && |o'.fields| == |o.fields|
    && forall i :: 0 <= i < |o.fields| ==>
         o'.fields[i] == if !o.Scanned() && Field(b, i) in weak then WeakMoved(fwd, o.fields[i]) else o.fields[i]
  }

  // ---- What a collection leaves ----

  ghost predicate MovedFields(before: Before, fwd: map<nat, nat>, o: Obj, o': Obj)
    requires before.Valid()
  {
    && o'.tag == o.tag && |o'.fields| == |o.fields|
    && forall i :: 0 <= i < |o.fields| ==> before.Moved(fwd, o.fields[i], o'.fields[i])
  }

  // A copy: the fields that are values are moved, the others are as they were.
  ghost predicate Copy(before: Before, fwd: map<nat, nat>, o: Obj, o': Obj)
    requires before.Valid()
  {
    if o.Scanned() then MovedFields(before, fwd, o, o') else o' == o
  }

  ghost predicate Old(before: Before, fwd: map<nat, nat>, weak: set<Loc>, b: nat, o: Obj, o': Obj)
    requires before.Valid()
  {
    if o.Scanned() then MovedFields(before, fwd, o, o') else WeakBlock(fwd, weak, b, o, o')
  }

  // The blocks in use, and no others, have been copied, each once; the roots, the major heap and the
  // copies hold the values that theirs were moved to.
  ghost predicate Collected(before: Before, fwd: map<nat, nat>, weak: set<Loc>, heap: map<nat, Obj>, roots: seq<Value>)
  {
    && before.Valid() && before.InUse(fwd.Keys)
    && (forall a, a' :: a in fwd && a' in fwd && a != a' ==> fwd[a] != fwd[a'])
    && heap.Keys == before.heap.Keys + fwd.Values && before.heap.Keys !! fwd.Values
    && |roots| == |before.roots|
    && (forall k :: 0 <= k < |roots| ==> before.Moved(fwd, before.roots[k], roots[k]))
    && (forall b :: b in before.heap ==> Old(before, fwd, weak, b, before.heap[b], heap[b]))
    && (forall a :: a in fwd ==> fwd[a] in fwd.Values && Copy(before, fwd, before.young[a], heap[fwd[a]]))
  }

  lemma SettledScan(s: State, b: nat, o: Obj)
    requires Inv(s, {}) && s.list == [] && b in s.heap && o.Scanned()
    requires s.heap[b].tag == o.tag && |s.heap[b].fields| == |o.fields|
    requires forall i :: 0 <= i < |o.fields| ==> Wants(s, Field(b, i), o.fields[i])
    ensures s.before.Valid() && MovedFields(s.before, s.fwd, o, s.heap[b])
  {
    hide Copies;
    hide TodoOk;
    hide Needed;
    hide Before.Moved;
    hide Wants;
    forall i | 0 <= i < |o.fields| ensures s.before.Moved(s.fwd, o.fields[i], s.heap[b].fields[i]) {
      assert Settled(s, Field(b, i)) && IsLoc(s, Field(b, i));
    }
  }

  lemma CopyLeft(s: State, a: nat)
    requires Inv(s, {}) && s.list == [] && a in s.fwd
    ensures a in s.before.young && s.fwd[a] in s.heap && s.before.Valid()
    ensures Copy(s.before, s.fwd, s.before.young[a], s.heap[s.fwd[a]])
  {
    hide TodoOk;
    hide Needed;
    hide MovedFields;
    hide Settled;
    assert CopyOk(s, a);
    var o := s.before.young[a];
    if o.Scanned() { SettledScan(s, s.fwd[a], o); }
  }

  lemma OldLeft(s: State, b: nat)
    requires Inv(s, {}) && s.list == [] && b in s.before.heap
    ensures b in s.heap && s.before.Valid()
    ensures var o, o' := s.before.heap[b], s.heap[b];
      if o.Scanned() then MovedFields(s.before, s.fwd, o, o') else o' == o
  {
    hide TodoOk;
    hide Needed;
    hide MovedFields;
    hide Settled;
    assert OldOk(s, b);
    var o := s.before.heap[b];
    if o.Scanned() { SettledScan(s, b, o); }
  }

  lemma RootLeft(s: State, k: nat)
    requires Inv(s, {}) && k < |s.roots|
    ensures k < |s.before.roots| && s.before.Valid()
    ensures s.before.Moved(s.fwd, s.before.roots[k], s.roots[k])
  {
    hide TodoOk;
    hide Needed;
    hide Before.Moved;
    assert Settled(s, Root(k)) && IsLoc(s, Root(k)) && Wants(s, Root(k), s.before.roots[k]);
  }

  // The blocks copied are the blocks in use.
  lemma CopiedInUse(s: State)
    requires Inv(s, {}) && s.list == []
    ensures s.before.Valid() && s.before.InUse(s.fwd.Keys)
  {
    hide TodoOk;
    hide Settled;
    hide Copies;
    hide Before.BlockOk;
    hide Before.Moved;
    var c := s.fwd.Keys;
    CopiedYoung(s);
    forall v | v in s.before.roots ensures s.before.Within(c, v) {
      var k :| 0 <= k < |s.before.roots| && s.before.roots[k] == v;
      RootsSame(s);
      RootLeft(s, k);
      MovedWithin(s.before, s.fwd, v, s.roots[k]);
    }
    forall b | b in s.before.heap ensures s.before.AllWithin(c, s.before.heap[b]) {
      OldLeft(s, b);
      FieldsWithin(s.before, s.fwd, s.before.heap[b], s.heap[b]);
    }
    forall a | a in c ensures s.before.AllWithin(c, s.before.young[a]) {
      CopyLeft(s, a);
      FieldsWithin(s.before, s.fwd, s.before.young[a], s.heap[s.fwd[a]]);
    }
    assert s.before.Closed(c);
  }

  lemma RootsSame(s: State)
    requires Copies(s)
    ensures |s.roots| == |s.before.roots|
  {
  }

  lemma CopiedYoung(s: State)
    requires Copies(s)
    ensures s.fwd.Keys <= s.before.young.Keys
  {
    forall a | a in s.fwd ensures a in s.before.young {
      assert CopyOk(s, a);
    }
  }

  lemma MovedWithin(before: Before, fwd: map<nat, nat>, v: Value, w: Value)
    requires before.Valid() && before.Moved(fwd, v, w)
    ensures before.Within(fwd.Keys, v)
  {
  }

  lemma FieldsWithin(before: Before, fwd: map<nat, nat>, o: Obj, o': Obj)
    requires before.Valid() && (if o.Scanned() then MovedFields(before, fwd, o, o') else o' == o)
    ensures before.AllWithin(fwd.Keys, o)
  {
    hide Before.Valid;
    hide Before.Moved;
    hide Before.Within;
    forall v | v in o.Scan() ensures before.Within(fwd.Keys, v) {
      var i :| 0 <= i < |o.fields| && o.fields[i] == v;
      MovedWithin(before, fwd, v, o'.fields[i]);
    }
  }

  // At the end of a collection, when the weak pointers have been dealt with.
  lemma Ends(s: State, weak: set<Loc>, heap: map<nat, Obj>)
    requires Inv(s, {}) && s.list == [] && heap.Keys == s.heap.Keys
    requires forall b :: b in heap ==> WeakBlock(s.fwd, weak, b, s.heap[b], heap[b])
    requires forall p :: p in weak ==> OfHeap(s.before, p)
    ensures Collected(s.before, s.fwd, weak, heap, s.roots)
  {
    hide TodoOk;
    hide Settled;
    hide Needed;
    hide Before.Valid;
    hide Before.Moved;
    hide WeakBlock;
    hide MovedFields;
    hide Copies;
    CopiedInUse(s);
    EndsKeys(s);
    RootsSame(s);
    forall k | 0 <= k < |s.roots| ensures s.before.Moved(s.fwd, s.before.roots[k], s.roots[k]) {
      RootLeft(s, k);
    }
    forall b | b in s.before.heap ensures Old(s.before, s.fwd, weak, b, s.before.heap[b], heap[b]) {
      OldLeft(s, b);
      OldWeak(s.before, s.fwd, weak, b, s.before.heap[b], s.heap[b], heap[b]);
    }
    forall a | a in s.fwd ensures s.fwd[a] in s.fwd.Values && Copy(s.before, s.fwd, s.before.young[a], heap[s.fwd[a]]) {
      CopyLeft(s, a);
      assert s.fwd[a] in s.fwd.Values && s.fwd[a] !in s.before.heap;
      NotWeak(s.fwd, weak, s.fwd[a], s.heap[s.fwd[a]], heap[s.fwd[a]]);
    }
  }

  lemma EndsKeys(s: State)
    requires Copies(s)
    ensures s.heap.Keys == s.before.heap.Keys + s.fwd.Values && s.before.heap.Keys !! s.fwd.Values
    ensures forall a, a' :: a in s.fwd && a' in s.fwd && a != a' ==> s.fwd[a] != s.fwd[a']
    ensures forall a :: a in s.fwd ==> a in s.before.young && s.fwd[a] in s.heap
  {
    forall a | a in s.fwd ensures a in s.before.young && s.fwd[a] in s.heap && s.fwd[a] !in s.before.heap {
      assert CopyOk(s, a);
    }
    forall a, a' | a in s.fwd && a' in s.fwd && a != a' ensures s.fwd[a] != s.fwd[a'] {
      assert CopyOk(s, a) && CopyOk(s, a');
    }
    forall b | b in s.heap ensures b in s.before.heap || b in s.fwd.Values {
      assert NewOk(s, b);
      if b in s.orig { assert s.fwd[s.orig[b]] in s.fwd.Values; }
    }
    forall b | b in s.before.heap ensures b in s.heap {
      assert OldOk(s, b);
    }
  }

  lemma NotWeak(fwd: map<nat, nat>, weak: set<Loc>, b: nat, o: Obj, o': Obj)
    requires WeakBlock(fwd, weak, b, o, o') && forall i :: Field(b, i) !in weak
    ensures o' == o
  {
    assert o'.fields == o.fields;
  }

  lemma OldWeak(before: Before, fwd: map<nat, nat>, weak: set<Loc>, b: nat, o: Obj, t: Obj, o': Obj)
    requires before.Valid() && WeakBlock(fwd, weak, b, t, o')
    requires if o.Scanned() then MovedFields(before, fwd, o, t) else t == o
    ensures Old(before, fwd, weak, b, o, o')
  {
    hide Before.Valid;
    hide Before.Moved;
    if o.Scanned() { assert o'.fields == t.fields; }
  }
}
