// What a minor collection means for the program: it finds the same values along the same paths.
module MinorResult {
  import opened Header
  import opened MinorState
  import opened MinorEnds

  // ---- Forcing ----

  // What forcing gives: a value, a suspension that has to run first, or what lies at an address outside the heap.
  datatype Forced = Done(v: Value) | Suspended | Unknown

  function ForceBlock(o: Obj, v: Value): Forced {
    if o.tag == FORWARD_TAG && o.fields != [] then Done(o.fields[0])
    else if o.tag == LAZY_TAG then Suspended
    else Done(v)
  }

  // What v gives when it is forced: a forwarding block gives its content, and what is no lazy block is its own value.
  function Force(young: map<nat, Obj>, heap: map<nat, Obj>, v: Value): Forced {
    match v
    case Imm(_) => Done(v)
    case Young(a, off) => if off > 0 then Done(v) else if a in young then ForceBlock(young[a], v) else Unknown
    case Major(a, off) => if off > 0 then Done(v) else if a in heap then ForceBlock(heap[a], v) else Unknown
    case _ => Unknown
  }

  ghost predicate HasTag(before: Before, v: Value, tag: nat) {
    || (v.Young? && v.off == 0 && v.a in before.young && before.young[v.a].tag == tag)
    || (v.Major? && v.off == 0 && v.a in before.heap && before.heap[v.a].tag == tag)
  }

  // A forwarding block is bypassed exactly if its content is a value, known not to be lazy and not a float.
  lemma ShortCutExactly(before: Before, f: Value)
    requires before.Valid() && before.Good(f)
    ensures before.ShortCut(f) <==>
      && Force(before.young, before.heap, f) == Done(f)
      && !HasTag(before, f, FORWARD_TAG) && !HasTag(before, f, DOUBLE_TAG)
  {
    if f.Young? { assert before.BlockOk(before.young[f.a]); }
    if f.Major? { assert before.BlockOk(before.heap[f.a]); }
  }

  // Whoever forces a value gets the same whether forwarding blocks were bypassed or not.
  lemma ForceResolved(before: Before, v: Value)
    requires before.Valid() && before.Good(v)
    ensures before.Good(before.Resolve(v))
    ensures Force(before.young, before.heap, before.Resolve(v)) == Force(before.young, before.heap, v)
  {
    ResolveGood(before, v);
    if before.Resolve(v) != v {
      assert before.BlockOk(before.young[v.a]);
      ShortCutExactly(before, before.FirstField(v.a));
    }
  }

  // The block that v leads to before the collection.
  ghost function BlockBefore(before: Before, v: Value): Obj
    requires before.Valid() && before.Good(v)
  {
    var r := before.Resolve(v);
    ResolveGood(before, v);
    if r.Young? then before.young[r.a] else if r.Major? then before.heap[r.a] else Obj(ABSTRACT_TAG, [])
  }

  function BlockAfter(heap: map<nat, Obj>, w: Value): Obj {
    if w.Major? && w.a in heap then heap[w.a] else Obj(ABSTRACT_TAG, [])
  }

  lemma ResolveGood(before: Before, v: Value)
    requires before.Valid() && before.Good(v)
    ensures before.Good(before.Resolve(v))
  {
    hide Before.Valid;
  }

  lemma FieldGood(before: Before, v: Value, i: nat)
    requires before.Valid() && before.Good(v) && i < |BlockBefore(before, v).Scan()|
    ensures before.Good(BlockBefore(before, v).fields[i])
  {
    hide Before.Resolve;
    ResolveGood(before, v);
    var o := BlockBefore(before, v);
    assert before.BlockOk(o);
    assert o.fields[i] in o.Scan();
  }

  // The value at the end of a path of fields from v; Null when the path leaves the graph.
  ghost function FollowBefore(before: Before, v: Value, path: seq<nat>): (r: Value)
    requires before.Valid() && before.Good(v)
    ensures r.Null? || before.Good(r)
    decreases |path|
  {
    if path == [] then v
    else if path[0] < |BlockBefore(before, v).Scan()| then
      FieldGood(before, v, path[0]);
      FollowBefore(before, BlockBefore(before, v).fields[path[0]], path[1..])
    else Null
  }

  function FollowAfter(heap: map<nat, Obj>, w: Value, path: seq<nat>): Value
    decreases |path|
  {
    if path == [] then w
    else if path[0] < |BlockAfter(heap, w).Scan()| then
      FollowAfter(heap, BlockAfter(heap, w).fields[path[0]], path[1..])
    else Null
  }

  // Blocks keep their tags and sizes, raw data its contents, and fields are moved.
  lemma BlockMoved(before: Before, fwd: map<nat, nat>, weak: set<Loc>, heap: map<nat, Obj>, roots: seq<Value>,
                   v: Value, w: Value)
    requires Collected(before, fwd, weak, heap, roots) && before.Moved(fwd, v, w)
    ensures var o, o' := BlockBefore(before, v), BlockAfter(heap, w);
      && o'.tag == o.tag && |o'.fields| == |o.fields|
      && (o.Scanned() ==> MovedFields(before, fwd, o, o'))
      && (!o.Scanned() && before.Resolve(v).Young? ==> o' == o)
  {
    hide Before.Valid;
    hide Before.Resolve;
    hide Before.InUse;
    hide MovedFields;
    ResolveGood(before, v);
    var r := before.Resolve(v);
    if r.Young? {
      assert fwd[r.a] in fwd.Values;
      CopyTags(before, fwd, before.young[r.a], heap[fwd[r.a]]);
    } else if r.Major? {
      assert Old(before, fwd, weak, r.a, before.heap[r.a], heap[r.a]);
      OldTags(before, fwd, weak, r.a, before.heap[r.a], heap[r.a]);
    } else {
      assert !w.Major?;
    }
  }

  lemma CopyTags(before: Before, fwd: map<nat, nat>, o: Obj, o': Obj)
    requires before.Valid() && Copy(before, fwd, o, o')
    ensures o'.tag == o.tag && |o'.fields| == |o.fields|
  {
  }

  lemma OldTags(before: Before, fwd: map<nat, nat>, weak: set<Loc>, b: nat, o: Obj, o': Obj)
    requires before.Valid() && Old(before, fwd, weak, b, o, o')
    ensures o'.tag == o.tag && |o'.fields| == |o.fields|
  {
  }

  // Only pointers to young blocks change, and a pointer into the middle of a closure keeps its offset.
  lemma AddressMoved(before: Before, fwd: map<nat, nat>, v: Value, w: Value)
    requires before.Valid() && before.Moved(fwd, v, w)
    ensures !v.Young? ==> w == v
    ensures v.Young? && v.off > 0 ==> w.Major? && w.off == v.off
    ensures !HasTag(before, before.Resolve(v), FORWARD_TAG) ==> before.Moved(fwd, before.Resolve(v), w)
  {
    hide Before.Valid;
    ResolveGood(before, v);
  }

  ghost predicate BlockFits(before: Before, fwd: map<nat, nat>, o: Obj, o': Obj)
    requires before.Valid()
  {
    o'.tag == o.tag && |o'.fields| == |o.fields| && (o.Scanned() ==> MovedFields(before, fwd, o, o'))
  }

  lemma ForceFits(before: Before, fwd: map<nat, nat>, o: Obj, o': Obj, r: Value, w: Value)
    requires before.Valid() && before.BlockOk(o) && BlockFits(before, fwd, o, o')
    requires before.Moved(fwd, r, w) || o.tag == FORWARD_TAG
    ensures var x, y := ForceBlock(o, r), ForceBlock(o', w);
      if x.Done? then y.Done? && before.Moved(fwd, x.v, y.v) else y == x
  {
    hide Before.Valid;
    hide Before.Moved;
  }

  // The block that v leads to is good, and so is what it becomes.
  lemma BlocksFit(before: Before, fwd: map<nat, nat>, weak: set<Loc>, heap: map<nat, Obj>, roots: seq<Value>,
                  v: Value, w: Value)
    requires Collected(before, fwd, weak, heap, roots) && before.Moved(fwd, v, w) && before.Good(before.Resolve(v))
    requires before.Resolve(v).Young? || before.Resolve(v).Major?
    ensures w.Major? && w.a in heap && w.off == before.Resolve(v).off
    ensures before.BlockOk(BlockBefore(before, v)) && BlockFits(before, fwd, BlockBefore(before, v), heap[w.a])
  {
    hide Before.Resolve;
    hide Before.InUse;
    hide MovedFields;
    BlockMoved(before, fwd, weak, heap, roots, v, w);
    var r := before.Resolve(v);
    if r.Young? { assert fwd[r.a] in fwd.Values; }
  }

  // Forcing a value after the collection gives what forcing it gave before, moved.
  lemma ForceMoved(before: Before, fwd: map<nat, nat>, weak: set<Loc>, heap: map<nat, Obj>, roots: seq<Value>,
                   v: Value, w: Value)
    requires Collected(before, fwd, weak, heap, roots) && before.Moved(fwd, v, w)
    ensures var x, y := Force(before.young, before.heap, v), Force(map[], heap, w);
      if x.Done? then y.Done? && before.Moved(fwd, x.v, y.v) else y == x
  {
    hide Before.Valid;
    hide Before.InUse;
    hide Collected;
    CollectedValid(before, fwd, weak, heap, roots);
    BlockMoved(before, fwd, weak, heap, roots, v, w);
    ForceResolved(before, v);
    AddressMoved(before, fwd, v, w);
    var r := before.Resolve(v);
    if r.Young? || r.Major? {
      BlocksFit(before, fwd, weak, heap, roots, v, w);
      if r.off == 0 {
        ForceFits(before, fwd, BlockBefore(before, v), heap[w.a], r, w);
      } else {
        assert before.Moved(fwd, r, w);
      }
    }
  }

  // Every path leads to the moved value, or to nothing both before and after.
  lemma {:induction false} SameGraph(before: Before, fwd: map<nat, nat>, weak: set<Loc>, heap: map<nat, Obj>,
                                     roots: seq<Value>, v: Value, w: Value, path: seq<nat>)
    requires Collected(before, fwd, weak, heap, roots) && before.Moved(fwd, v, w)
    ensures var v', w' := FollowBefore(before, v, path), FollowAfter(heap, w, path);
      if v'.Null? then w' == Null else before.Moved(fwd, v', w')
    decreases |path|
  {
    hide Before.Valid;
    hide Before.Resolve;
    hide Collected;
    hide BlockBefore;
    hide BlockAfter;
    CollectedValid(before, fwd, weak, heap, roots);
    if path != [] {
      BlockMoved(before, fwd, weak, heap, roots, v, w);
      var o, o' := BlockBefore(before, v), BlockAfter(heap, w);
      if path[0] < |o.Scan()| {
        SameGraph(before, fwd, weak, heap, roots, o.fields[path[0]], o'.fields[path[0]], path[1..]);
      }
    }
  }

  lemma CollectedValid(before: Before, fwd: map<nat, nat>, weak: set<Loc>, heap: map<nat, Obj>, roots: seq<Value>)
    requires Collected(before, fwd, weak, heap, roots)
    ensures before.Valid()
  {
  }

  // Values that end up the same led to the same place: sharing is neither lost nor introduced.
  lemma SharingKept(before: Before, fwd: map<nat, nat>, weak: set<Loc>, heap: map<nat, Obj>, roots: seq<Value>,
                    v: Value, w: Value, v': Value, w': Value)
    requires Collected(before, fwd, weak, heap, roots) && before.Moved(fwd, v, w) && before.Moved(fwd, v', w')
    ensures before.Good(v) && before.Good(v') && (w == w' <==> before.Resolve(v) == before.Resolve(v'))
  {
    hide Before.Valid;
    hide Before.InUse;
    hide Before.Resolve;
    ResolveGood(before, v);
    ResolveGood(before, v');
    var r, r' := before.Resolve(v), before.Resolve(v');
    if r.Young? { assert fwd[r.a] in fwd.Values; }
    if r'.Young? { assert fwd[r'.a] in fwd.Values; }
  }
}
