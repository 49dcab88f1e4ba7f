// Every step of the machine keeps the invariant, and frees no reachable block.
module MajorSteps {
  import opened Header
  import opened MajorState
  import opened MajorInv
  import opened MajorMark
  import opened MajorActions

  lemma ShapeOf(s: State)
    requires Inv(s)
    ensures Shape(s)
  {
  }

  lemma PointableLive(s: State, v: Value)
    requires Shape(s) && Pointable(s, v)
    ensures v.Ptr? ==> v.a in s.live
  {
    if v.Ptr? { ReachableInside(s.heap, s.roots, s.live, v.a); }
  }

  // ---- Modify ----

  lemma ScanOfUpdate(o: Obj, i: nat, v: Value, w: Value)
    requires i < |o.fields| && w in o.(fields := o.fields[i := v]).Scan()
    ensures w == v || w in o.Scan()
  {
  }

  lemma WriteShape(s: State, o: nat, i: nat, v: Value)
    requires Shape(s) && o in s.heap && i < |s.heap[o].fields| && (v.Ptr? ==> v.a in s.live)
    ensures Shape(WriteField(s, o, i, v))
  {
    var t := WriteField(s, o, i, v);
    forall a | a in t.live ensures Inside(t.heap, t.live, a) {
      WriteInside(s, o, i, v, s.live, a);
    }
  }

  lemma WriteInside(s: State, o: nat, i: nat, v: Value, c: set<nat>, a: nat)
    requires o in s.heap && i < |s.heap[o].fields| && (v.Ptr? ==> v.a in c)
    requires Inside(s.heap, c, a)
    ensures Inside(WriteField(s, o, i, v).heap, c, a)
  {
    var t := WriteField(s, o, i, v);
    forall w | w in t.heap[a].Scan() && w.Ptr? ensures w.a in c {
      if a == o { ScanOfUpdate(s.heap[o], i, v, w); }
    }
  }

  lemma WriteTricolor(s: State, o: nat, i: nat, v: Value)
    requires Tricolor(s) && o in s.heap && i < |s.heap[o].fields| && (v.Ptr? ==> v.a in s.heap)
    ensures Tricolor(WriteField(s, o, i, v))
  {
    var t := WriteField(s, o, i, v);
    forall a | a in t.heap ensures Inside(t.heap, t.heap.Keys, a) {
      assert Inside(s.heap, s.heap.Keys, a);
      WriteInside(s, o, i, v, s.heap.Keys, a);
    }
    forall a | Dark(t, a) ensures a in t.live {
      assert Dark(s, a);
    }
  }

  lemma WriteStacked(s: State, o: nat, i: nat, v: Value)
    requires Stacked(s) && o in s.heap && i < |s.heap[o].fields|
    ensures Stacked(WriteField(s, o, i, v))
  {
    var t := WriteField(s, o, i, v);
    forall a ensures s.pure ==> Found(t, a) {
      assert s.pure ==> Found(s, a);
    }
  }

  // Only the pointer that is overwritten can be lost.
  lemma WriteKept(s: State, o: nat, i: nat, v: Value, x: nat, u: nat)
    requires o in s.heap && i < |s.heap[o].fields| && Kept(s, x, u)
    ensures (x == o && s.heap[o].fields[i] == Ptr(u)) || Kept(WriteField(s, o, i, v), x, u)
  {
    var t := WriteField(s, o, i, v);
    assert Dark(s, u) ==> Dark(t, u);
    if x == o && Ptr(u) in s.heap[o].Scan() && s.heap[o].fields[i] != Ptr(u) {
      var j :| 0 <= j < |s.heap[o].fields| && s.heap[o].fields[j] == Ptr(u);
      assert t.heap[o].fields[j] == Ptr(u);
    }
  }

  lemma WriteMark(s: State, o: nat, i: nat, v: Value, grow: bool)
    requires MarkInv(s) && o in s.heap && o in s.live && i < |s.heap[o].fields| && s.heap[o].tag < NO_SCAN_TAG
    requires v.Ptr? ==> v.a in s.live && v.a in s.heap
    ensures MarkInv(Darken(WriteField(s, o, i, v), s.heap[o].fields[i], grow))
    ensures SameFields(WriteField(s, o, i, v), Darken(WriteField(s, o, i, v), s.heap[o].fields[i], grow))
  {
    hide Shape;
    hide Stacked;
    hide Tricolor;
    var t := WriteField(s, o, i, v);
    var was := s.heap[o].fields[i];
    WriteShape(s, o, i, v);
    WriteTricolor(s, o, i, v);
    WriteStacked(s, o, i, v);
    OldFieldLive(s, o, i);
    DarkenCore(t, was, grow);
    var r := Darken(t, was, grow);
    forall x | x in r.snapRoots ensures Dark(r, x) {
      assert Dark(s, x) && Dark(t, x);
      DarkenDark(t, was, grow, x);
    }
    forall x, u ensures Kept(r, x, u) {
      assert Kept(s, x, u);
      WriteKept(s, o, i, v, x, u);
      if Kept(t, x, u) { DarkenKept(t, was, grow, x, u); } else { DarkenDark(t, was, grow, u); }
    }
  }

  lemma OldFieldLive(s: State, o: nat, i: nat)
    requires Shape(s) && o in s.heap && o in s.live && i < |s.heap[o].fields| && s.heap[o].tag < NO_SCAN_TAG
    ensures s.heap[o].fields[i].Ptr? ==> s.heap[o].fields[i].a in s.live && s.heap[o].fields[i].a in s.heap
  {
    assert Inside(s.heap, s.live, o);
    assert s.heap[o].fields[i] in s.heap[o].Scan();
  }

  lemma WriteKeeps(s: State, o: nat, i: nat, v: Value, grow: bool)
    requires Inv(s) && Enabled(s, Write(o, i, v, grow))
    ensures Inv(Apply(s, Write(o, i, v, grow)))
  {
    hide MarkInv;
    ShapeOf(s);
    PointableLive(s, v);
    PointableLive(s, Ptr(o));
    WriteShape(s, o, i, v);
    if s.phase == Mark {
      WriteMark(s, o, i, v, grow);
    } else if s.phase == Sweep {
      var t := WriteField(s, o, i, v);
      forall a ensures SweepColor(t, a) {
        assert SweepColor(s, a);
      }
    }
  }

  // ---- Allocation ----

  lemma AllocShape(s: State, a: nat, o: Obj)
    requires Shape(s) && a !in s.heap && Room(s, a, |o.fields|) && o.color != Blue
    requires forall v :: v in o.fields && v.Ptr? ==> v.a in s.live
    ensures Shape(s.(heap := s.heap[a := o], roots := s.roots + {a}, live := s.live + {a}))
  {
    var t := s.(heap := s.heap[a := o], roots := s.roots + {a}, live := s.live + {a});
    forall x | x in t.live ensures Inside(t.heap, t.live, x) {
      if x != a { assert Inside(s.heap, s.live, x); }
    }
  }

  lemma AllocTricolor(s: State, a: nat, o: Obj)
    requires Tricolor(s) && a !in s.heap && o.color == Black && a !in s.live
    requires forall v :: v in o.fields && v.Ptr? ==> v.a in s.heap
    ensures Tricolor(s.(heap := s.heap[a := o], roots := s.roots + {a}, live := s.live + {a}))
  {
    var t := s.(heap := s.heap[a := o], roots := s.roots + {a}, live := s.live + {a});
    forall x | x in t.heap ensures Inside(t.heap, t.heap.Keys, x) {
      if x != a { assert Inside(s.heap, s.heap.Keys, x); }
    }
    forall x | Dark(t, x) ensures x in t.live {
      if x != a { assert Dark(s, x); }
    }
  }

  lemma AllocStacked(s: State, a: nat, o: Obj)
    requires Stacked(s) && a !in s.heap && o.color == Black
    ensures Stacked(s.(heap := s.heap[a := o], roots := s.roots + {a}, live := s.live + {a}))
  {
    var t := s.(heap := s.heap[a := o], roots := s.roots + {a}, live := s.live + {a});
    forall x ensures s.pure ==> Found(t, x) {
      assert s.pure ==> Found(s, x);
    }
  }

  lemma AllocMark(s: State, a: nat, o: Obj)
    requires MarkInv(s) && a !in s.heap && Room(s, a, |o.fields|) && o.color == Black
    requires forall v :: v in o.fields && v.Ptr? ==> v.a in s.live && v.a in s.heap
    ensures MarkInv(s.(heap := s.heap[a := o], roots := s.roots + {a}, live := s.live + {a}))
  {
    hide Tricolor;
    hide Stacked;
    var t := s.(heap := s.heap[a := o], roots := s.roots + {a}, live := s.live + {a});
    LiveInHeap(s, a);
    AllocShape(s, a, o);
    AllocTricolor(s, a, o);
    AllocStacked(s, a, o);
    forall x | x in t.snapRoots ensures Dark(t, x) {
      assert Dark(s, x);
    }
    forall x, u ensures Kept(t, x, u) {
      assert Kept(s, x, u);
      SnapLive(s, x);
      assert Dark(s, u) ==> Dark(t, u);
    }
  }

  lemma SnapLive(s: State, x: nat)
    requires Tricolor(s)
    ensures x in s.snap ==> x in s.live && x in s.heap
  {
  }

  lemma LiveInHeap(s: State, a: nat)
    requires Shape(s)
    ensures a in s.live ==> a in s.heap
  {
  }

  lemma AllocKeeps(s: State, a: nat, tag: nat, fields: seq<Value>)
    requires Inv(s) && Enabled(s, Alloc(a, tag, fields))
    ensures Inv(Apply(s, Alloc(a, tag, fields)))
  {
    hide MarkInv;
    ShapeOf(s);
    var o := Obj(tag, AllocationColor(s, a), fields);
    forall v | v in fields && v.Ptr? ensures v.a in s.live && v.a in s.heap {
      PointableLive(s, v);
    }
    AllocShape(s, a, o);
    var t := s.(heap := s.heap[a := o], roots := s.roots + {a}, live := s.live + {a});
    if s.phase == Mark {
      AllocMark(s, a, o);
    } else if s.phase == Sweep {
      forall x ensures SweepColor(t, x) {
        assert SweepColor(s, x);
      }
    }
  }

  // ---- Roots ----

  lemma SetRootsKeeps(s: State, rs: set<nat>)
    requires Inv(s) && Enabled(s, SetRoots(rs))
    ensures Inv(Apply(s, SetRoots(rs)))
  {
    ShapeOf(s);
    var t := s.(roots := rs);
    forall a | a in rs ensures a in s.live {
      assert Pointable(s, Ptr(a));
      PointableLive(s, Ptr(a));
    }
    forall a | a in t.live ensures Inside(t.heap, t.live, a) {
      assert Inside(s.heap, s.live, a);
    }
    SameMarking(s, t);
  }

  // The marking invariant does not depend on the roots, the sizes or the subphase.
  lemma SameMarking(s: State, t: State)
    requires Inv(s) && Shape(t) && t.phase == s.phase
    requires t.heap == s.heap && t.live == s.live && t.snap == s.snap && t.snapRoots == s.snapRoots
    requires t.stack == s.stack && t.size == s.size && t.pure == s.pure && t.markhp == s.markhp
    requires t.sweephp == s.sweephp
    ensures Inv(t)
  {
    forall a ensures Dark(s, a) == Dark(t, a) && Found(s, a) == Found(t, a) {
    }
    if s.phase == Mark {
      forall x, u ensures Kept(t, x, u) {
        assert Kept(s, x, u);
      }
      assert Tricolor(t) && Stacked(t);
    }
    if s.phase == Sweep {
      forall a ensures SweepColor(t, a) {
        assert SweepColor(s, a);
      }
    }
  }

  lemma ExpandKeeps(s: State, more: nat)
    requires Inv(s)
    ensures Inv(s.(bytes := s.bytes + more))
  {
    ShapeOf(s);
    SameMarking(s, s.(bytes := s.bytes + more));
  }

  lemma NextSubphaseKeeps(s: State, p: Subphase)
    requires Inv(s)
    ensures Inv(s.(subphase := p))
  {
    ShapeOf(s);
    SameMarking(s, s.(subphase := p));
  }
}
