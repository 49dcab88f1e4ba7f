// The steps of the mark phase keep the invariant.
module MajorMark {
  import opened Header
  import opened MajorState
  import opened MajorInv

  ghost predicate MarkCore(s: State) {
    Shape(s) && Stacked(s) && Tricolor(s)
  }

  // What coloring a block leaves alone.
  ghost predicate SameFields(s: State, t: State) {
    && t.heap.Keys == s.heap.Keys
    && (forall a :: a in s.heap ==> t.heap[a].tag == s.heap[a].tag && t.heap[a].fields == s.heap[a].fields)
    && t.roots == s.roots && t.live == s.live && t.snap == s.snap && t.snapRoots == s.snapRoots
    && t.phase == s.phase && t.subphase == s.subphase && t.markhp == s.markhp && t.sweephp == s.sweephp
    && t.limit == s.limit && t.bytes == s.bytes
  }

  lemma WhiteInSnap(s: State, a: nat)
    requires Tricolor(s) && a in s.live && a in s.heap && s.heap[a].color == White
    ensures a in s.snap
  {
  }

  lemma PushLive(s: State, a: nat, grow: bool)
    requires MarkCore(s) && a in s.live && a in s.heap && s.heap[a].color == White
    ensures MarkCore(PushGray(s, a, grow)) && SameFields(s, PushGray(s, a, grow))
    ensures Dark(PushGray(s, a, grow), a) && a in PushGray(s, a, grow).heap
    ensures forall x :: x in s.heap && x != a ==> PushGray(s, a, grow).heap[x].color == s.heap[x].color
  {
    hide Stacked;
    hide Tricolor;
    hide Shape;
    var t := Recolor(s, a, Gray);
    var u := PushGray(s, a, grow);
    PushShapeSize(s);
    WhiteInSnap(s, a);
    PushStacked(s, a, grow);
    RecolorShape(s, a, Gray);
    RecolorTricolor(s, a, Gray);
    PushSameHeap(s, a, grow);
    SameHeapFacts(t, u);
  }

  lemma PushShapeSize(s: State)
    requires Shape(s)
    ensures 2 <= s.size
  {
  }

  lemma PushKept(s: State, a: nat, grow: bool, x: nat, t: nat)
    requires a in s.heap && s.heap[a].color == White && Kept(s, x, t)
    ensures Kept(PushGray(s, a, grow), x, t)
  {
    RecolorKept(s, a, Gray, x, t);
    PushSameHeap(s, a, grow);
    SameHeapFacts(Recolor(s, a, Gray), PushGray(s, a, grow));
  }

  lemma PushDark(s: State, a: nat, grow: bool, x: nat)
    requires a in s.heap
    ensures Dark(s, x) ==> Dark(PushGray(s, a, grow), x)
  {
  }

  // ---- Scanning the fields of one block ----

  // Block o is black; its fields before number i have been followed.
  ghost predicate Pending(s: State, o: nat, fields: seq<Value>, i: nat, t: nat)
    requires i <= |fields|
  {
    o in s.snap && Ptr(t) in s.snap[o].Scan() ==> Dark(s, t) || Ptr(t) in fields[i..]
  }

  ghost predicate ScanInv(s: State, o: nat, fields: seq<Value>, i: nat) {
    && MarkCore(s) && RootsDark(s) && i <= |fields|
    && o in s.live && o in s.heap && s.heap[o].color == Black && s.heap[o].Scan() == fields
    && (forall x, t :: x != o ==> Kept(s, x, t))
    && (forall t :: Pending(s, o, fields, i, t))
  }

  lemma ScanStep(s: State, o: nat, fields: seq<Value>, i: nat, grow: bool)
    requires ScanInv(s, o, fields, i) && i < |fields|
    ensures var t := ScanField(s, fields[i], grow);
            ScanInv(t, o, fields, i + 1) && SameFields(s, t)
  {
    hide MarkCore;
    hide Kept;
    var i' := i + 1;
    assert fields[i..] == [fields[i]] + fields[i'..];
    if IsWhite(s, fields[i]) {
      var a := fields[i].a;
      ChildLive(s, o, a);
      PushLive(s, a, grow);
      var t := PushGray(s, a, grow);
      forall x | x in t.snapRoots ensures Dark(t, x) {
        PushDark(s, a, grow, x);
      }
      forall x, u | x != o ensures Kept(t, x, u) {
        PushKept(s, a, grow, x, u);
      }
      forall u ensures Pending(t, o, fields, i', u) {
        assert Pending(s, o, fields, i, u);
        PushDark(s, a, grow, u);
      }
    } else {
      forall u ensures Pending(s, o, fields, i', u) {
        assert Pending(s, o, fields, i, u);
        ChildInHeap(s, o, u);
      }
    }
  }

  lemma ChildLive(s: State, o: nat, a: nat)
    requires MarkCore(s) && o in s.live && o in s.heap && Ptr(a) in s.heap[o].Scan()
    ensures a in s.live
  {
    assert Inside(s.heap, s.live, o);
  }

  lemma ChildInHeap(s: State, o: nat, a: nat)
    requires MarkCore(s) && o in s.live && o in s.heap
    ensures Ptr(a) in s.heap[o].Scan() ==> a in s.heap
  {
    assert Inside(s.heap, s.live, o);
  }

  lemma {:induction false} ScanFieldsKeeps(s: State, o: nat, fields: seq<Value>, n: nat, grows: seq<bool>)
    requires ScanInv(s, o, fields, 0) && n <= |fields|
    ensures ScanInv(ScanFields(s, fields, n, grows), o, fields, n)
    ensures SameFields(s, ScanFields(s, fields, n, grows))
  {
    hide ScanInv;
    hide ScanField;
    if n > 0 {
      ScanFieldsKeeps(s, o, fields, n - 1, grows);
      ScanStep(ScanFields(s, fields, n - 1, grows), o, fields, n - 1, At(grows, n - 1));
    }
  }

  lemma ScanDone(s: State, o: nat, fields: seq<Value>)
    requires ScanInv(s, o, fields, |fields|)
    ensures MarkInv(s)
  {
    forall x, t ensures Kept(s, x, t) {
      if x == o { assert Pending(s, o, fields, |fields|, t); }
    }
  }

  // Taking a block off the stack and blackening it.
  lemma PopStart(s: State)
    requires MarkInv(s) && s.stack != []
    ensures var o := s.stack[|s.stack| - 1];
      && o in s.heap && o in s.live
      && ScanInv(Recolor(s, o, Black).(stack := s.stack[..|s.stack| - 1]), o, s.heap[o].Scan(), 0)
  {
    hide Tricolor;
    hide Shape;
    var o := s.stack[|s.stack| - 1];
    var fields := s.heap[o].Scan();
    assert Dark(s, o);
    DarkLive(s, o);
    var t := Recolor(s, o, Black);
    var u := t.(stack := s.stack[..|s.stack| - 1]);
    RecolorShape(s, o, Black);
    RecolorTricolor(s, o, Black);
    PopStacked(s);
    ShapeStack(t, u.stack);
    forall x | x in s.snapRoots ensures Dark(u, x) {
      assert Dark(s, x);
    }
    forall x, y | x != o ensures Kept(u, x, y) {
      assert Kept(s, x, y);
      assert Dark(s, y) ==> Dark(u, y);
    }
    forall y ensures Pending(u, o, fields, 0, y) {
      assert Kept(s, o, y);
      assert Dark(s, y) ==> Dark(u, y);
    }
  }

  lemma DarkLive(s: State, a: nat)
    requires Tricolor(s) && Dark(s, a)
    ensures a in s.live
  {
  }

  lemma ShapeStack(s: State, stack: seq<nat>)
    requires Shape(s) && Tricolor(s)
    ensures Shape(s.(stack := stack)) && Tricolor(s.(stack := stack))
  {
    var t := s.(stack := stack);
    forall a ensures Dark(s, a) == Dark(t, a) {
    }
  }

  lemma PopStacked(s: State)
    requires Stacked(s) && s.stack != [] && s.stack[|s.stack| - 1] in s.heap
    ensures Stacked(Recolor(s, s.stack[|s.stack| - 1], Black).(stack := s.stack[..|s.stack| - 1]))
  {
    var o := s.stack[|s.stack| - 1];
    var u := Recolor(s, o, Black).(stack := s.stack[..|s.stack| - 1]);
    forall a ensures s.pure ==> Found(u, a) {
      if s.pure {
        assert Found(s, a);
        if a in s.stack && a != o {
          var i :| 0 <= i < |s.stack| && s.stack[i] == a;
          assert u.stack[i] == a;
        }
      }
    }
  }

  // One block of the mark stack.
  lemma PopKeeps(s: State, grows: seq<bool>)
    requires MarkInv(s) && s.stack != []
    ensures s.stack[|s.stack| - 1] in s.heap
    ensures MarkInv(Pop(s, grows)) && SameFields(s, Pop(s, grows))
  {
    hide MarkInv;
    hide ScanInv;
    PopStart(s);
    var o := s.stack[|s.stack| - 1];
    var fields := s.heap[o].Scan();
    var t := Recolor(s, o, Black).(stack := s.stack[..|s.stack| - 1]);
    ScanFieldsKeeps(t, o, fields, |fields|, grows);
    ScanDone(ScanFields(t, fields, |fields|, grows), o, fields);
  }

  // ---- caml_darken ----

  lemma DarkenCore(s: State, v: Value, grow: bool)
    requires MarkCore(s) && (v.Ptr? ==> v.a in s.live)
    ensures MarkCore(Darken(s, v, grow)) && SameFields(s, Darken(s, v, grow))
  {
    hide MarkCore;
    hide PushGray;
    hide Recolor;
    if IsWhite(s, v) {
      if s.heap[v.a].tag < NO_SCAN_TAG {
        PushLive(s, v.a, grow);
      } else {
        BlackenCore(s, v.a);
      }
    }
  }

  lemma DarkenDark(s: State, v: Value, grow: bool, x: nat)
    ensures Dark(s, x) || (v.Ptr? && v.a == x && x in s.heap) ==> Dark(Darken(s, v, grow), x)
  {
  }

  lemma BlackenCore(s: State, a: nat)
    requires MarkCore(s) && a in s.live && a in s.heap && s.heap[a].color == White
    ensures MarkCore(Recolor(s, a, Black)) && SameFields(s, Recolor(s, a, Black))
  {
    hide Shape;
    hide Tricolor;
    RecolorShape(s, a, Black);
    RecolorTricolor(s, a, Black);
    var t := Recolor(s, a, Black);
    forall x ensures Found(s, x) ==> Found(t, x) {
    }
    BlackenStacked(s, a);
  }

  lemma BlackenStacked(s: State, a: nat)
    requires Stacked(s) && a in s.heap && s.heap[a].color == White
    ensures Stacked(Recolor(s, a, Black))
  {
    var t := Recolor(s, a, Black);
    forall x ensures s.pure ==> Found(t, x) {
      assert s.pure ==> Found(s, x);
    }
  }

  lemma DarkenKept(s: State, v: Value, grow: bool, x: nat, t: nat)
    requires Tricolor(s) && Kept(s, x, t)
    ensures Kept(Darken(s, v, grow), x, t)
  {
    if IsWhite(s, v) {
      if s.heap[v.a].tag < NO_SCAN_TAG {
        PushKept(s, v.a, grow, x, t);
      } else {
        RecolorKept(s, v.a, Black, x, t);
      }
    }
  }

}
