// The minor collector: copying the young blocks that are in use to the major heap.
module MinorState {
  import opened Header

  // A word holding a value.  A pointer is a block and an offset: the offset of an infix pointer is the
  // one its infix header gives.  Out points outside the areas of values; Null is the empty to-do list.
  datatype Value = Imm(n: int) | Out(p: nat) | Young(a: nat, off: nat) | Major(a: nat, off: nat) | Null

  datatype Obj = Obj(tag: nat, fields: seq<Value>) {
    predicate Scanned() { tag < NO_SCAN_TAG }
    // The fields that hold values.
    function Scan(): seq<Value> { if Scanned() then fields else [] }
  }

  // A block of the minor heap: whole, or with the header 0 that says it is forwarded.
  datatype Cell = Whole(o: Obj) | Forwarded(fields: seq<Value>)

  // The place of a value that the collector may have to update.
  datatype Loc = Root(k: nat) | Field(a: nat, i: nat)

  // What the collection started with.
  datatype Before = Before(young: map<nat, Obj>, heap: map<nat, Obj>, roots: seq<Value>) {
    function TagOf(v: Value): nat
      requires v.Young? ==> v.a in young
      requires v.Major? ==> v.a in heap
      requires v.Young? || v.Major?
    {
      if v.off > 0 then INFIX_TAG else if v.Young? then young[v.a].tag else heap[v.a].tag
    }

    ghost predicate Good(v: Value) {
      && !v.Null? && (v.Major? ==> v.a in heap)
      && (v.Young? ==> v.a in young && (v.off > 0 ==> young[v.a].tag == CLOSURE_TAG))
    }

    // Is a forwarding block that holds v bypassed?
    predicate ShortCut(v: Value)
      requires v.Young? ==> v.a in young
      requires v.Major? ==> v.a in heap
    {
      if v.Young? || v.Major? then TagOf(v) != FORWARD_TAG && TagOf(v) != LAZY_TAG && TagOf(v) != DOUBLE_TAG
      else !v.Out?
    }

    // The value the collector puts in place of v, up to copying.
    ghost function Resolve(v: Value): Value
      requires Valid() && Good(v)
    {
      if v.Young? && v.off == 0 && young[v.a].tag == FORWARD_TAG && ShortCut(FirstField(v.a)) then FirstField(v.a)
      else v
    }

    ghost function FirstField(a: nat): (v: Value)
      requires Valid() && a in young && young[a].tag == FORWARD_TAG
      ensures Good(v)
    {
      assert BlockOk(young[a]);
      assert young[a].fields[0] in young[a].Scan();
      young[a].fields[0]
    }

    ghost predicate BlockOk(o: Obj) {
      && (forall v :: v in o.Scan() ==> Good(v))
      && o.tag != INFIX_TAG
      && (o.tag == FORWARD_TAG ==> |o.fields| == 1)
    }

    ghost predicate Valid() {
      && (forall a :: a in young ==> young[a].fields != [] && BlockOk(young[a]))
      && (forall a :: a in heap ==> BlockOk(heap[a]))
      && (forall v :: v in roots ==> Good(v))
    }

    // w is what the collector makes of v, when fwd says where blocks went.
    ghost predicate Moved(fwd: map<nat, nat>, v: Value, w: Value)
      requires Valid()
    {
      Good(v) &&
      var r := Resolve(v);
      if r.Young? then r.a in fwd && w == Major(fwd[r.a], r.off) else w == r
    }

    // v, or what v is resolved to, is not a young block outside c.
    ghost predicate Within(c: set<nat>, v: Value)
      requires Valid()
    {
      Good(v) && (Resolve(v).Young? ==> Resolve(v).a in c)
    }

    // c has the young blocks that the roots, the major heap and its members point to.
    ghost predicate Closed(c: set<nat>)
      requires Valid()
    {
      && c <= young.Keys
      && (forall v :: v in roots ==> Within(c, v))
      && (forall b :: b in heap ==> AllWithin(c, heap[b]))
      && (forall a :: a in c ==> AllWithin(c, young[a]))
    }

    ghost predicate AllWithin(c: set<nat>, o: Obj)
      requires Valid()
    {
      forall v :: v in o.Scan() ==> Within(c, v)
    }

    // c is the set of the young blocks in use: the least closed set.
    ghost predicate InUse(c: set<nat>)
      requires Valid()
    {
      Closed(c) && forall d :: Closed(d) ==> c <= d
    }
  }

  datatype State = State(
    young: map<nat, Cell>,
    heap: map<nat, Obj>,      // everything that is not young
    roots: seq<Value>,
    todo: Value,              // oldify_todo_list
    // not in the program: what there was, where blocks went and came from, the to-do list
    before: Before,
    fwd: map<nat, nat>,
    orig: map<nat, nat>,
    list: seq<nat>)

  ghost predicate Fits(s: State, v: Value, w: Value)
    requires s.before.Valid()
  {
    s.before.Moved(s.fwd, v, w)
  }

  // ---- Locations ----

  // The value at p.
  function Cur(s: State, p: Loc): Value
    requires Exists(s, p)
  {
    match p
    case Root(k) => s.roots[k]
    case Field(a, i) => s.heap[a].fields[i]
  }

  predicate Exists(s: State, p: Loc) {
    match p
    case Root(k) => k < |s.roots|
    case Field(a, i) => a in s.heap && i < |s.heap[a].fields|
  }

  function Put(s: State, p: Loc, w: Value): State
    requires Exists(s, p)
  {
    match p
    case Root(k) => s.(roots := s.roots[k := w])
    case Field(a, i) => s.(heap := s.heap[a := s.heap[a].(fields := s.heap[a].fields[i := w])])
  }

  // p is a root or a field that the collector must have updated, unless its block is on the to-do list.
  ghost predicate IsLoc(s: State, p: Loc) {
    && Exists(s, p)
    && (p.Field? ==> s.heap[p.a].Scanned() && (p.a in s.orig ==> s.orig[p.a] !in s.list))
  }

  // What the collection started with at p, or at the place its block was copied from.
  ghost predicate Wants(s: State, p: Loc, v: Value) {
    match p
    case Root(k) => k < |s.before.roots| && v == s.before.roots[k]
    case Field(b, i) =>
      if b in s.orig then
        s.orig[b] in s.before.young && i < |s.before.young[s.orig[b]].fields| &&
        v == s.before.young[s.orig[b]].fields[i]
      else b in s.before.heap && i < |s.before.heap[b].fields| && v == s.before.heap[b].fields[i]
  }

  ghost predicate Settled(s: State, p: Loc)
    requires s.before.Valid()
  {
    IsLoc(s, p) ==> forall v :: Wants(s, p, v) ==> Fits(s, v, Cur(s, p))
  }

  // ---- The invariant ----

  ghost predicate CellOk(s: State, a: nat) {
    a in s.before.young ==>
    && a in s.young
    && var o := s.before.young[a];
    if a in s.fwd then o.fields != [] && s.young[a] == Forwarded(o.fields[0 := Major(s.fwd[a], 0)])
    else s.young[a] == Whole(o)
  }

  // Young block a was copied.
  ghost predicate CopyOk(s: State, a: nat) {
    a in s.fwd ==>
    && a in s.before.young
    && var b := s.fwd[a];
    && b in s.heap && b !in s.before.heap && b in s.orig && s.orig[b] == a
    && Shaped(s.heap[b], s.before.young[a])
  }

  // Same tag and size, and the same contents where the collector does not look.
  ghost predicate Shaped(o: Obj, o': Obj) {
    o.tag == o'.tag && |o.fields| == |o'.fields| && (!o'.Scanned() ==> o.fields == o'.fields)
  }

  ghost predicate OldOk(s: State, b: nat) {
    b in s.before.heap ==> b in s.heap && b !in s.orig && Shaped(s.heap[b], s.before.heap[b])
  }

  ghost predicate NewOk(s: State, b: nat) {
    && (b in s.orig ==> s.orig[b] in s.fwd && s.fwd[s.orig[b]] == b)
    && (b in s.heap ==> b in s.before.heap || b in s.orig)
  }

  ghost predicate Copies(s: State) {
    && s.young.Keys == s.before.young.Keys && |s.roots| == |s.before.roots|
    && (forall a :: CellOk(s, a))
    && (forall a :: CopyOk(s, a))
    && (forall b :: OldOk(s, b))
    && (forall b :: NewOk(s, b))
  }

  function Link(list: seq<nat>, i: nat): Value {
    if i < |list| then Young(list[i], 0) else Null
  }

  // The block number i of the to-do list is threaded through field 1 of its copy.
  ghost predicate Listed(s: State, i: nat)
    requires i < |s.list|
  {
    var a := s.list[i];
    && a in s.fwd && a in s.before.young && s.fwd[a] in s.heap
    && var o, o' := s.before.young[a], s.heap[s.fwd[a]];
    && o.Scanned() && 2 <= |o.fields| == |o'.fields|
    && o'.fields[0] == o.fields[0] && o'.fields[1] == Link(s.list, i + 1)
  }

  ghost predicate TodoOk(s: State) {
    && s.todo == Link(s.list, 0)
    && (forall i :: 0 <= i < |s.list| ==> Listed(s, i))
    && (forall i, j :: 0 <= i < j < |s.list| ==> s.list[i] != s.list[j])
  }

  // Only blocks in use are copied.
  ghost predicate Needed(s: State)
    requires s.before.Valid()
  {
    forall c :: s.before.Closed(c) ==> s.fwd.Keys <= c
  }

  // Everything is updated but what is in holes.
  ghost predicate Inv(s: State, holes: set<Loc>) {
    && s.before.Valid() && Copies(s) && TodoOk(s) && Needed(s)
    && forall p :: p !in holes ==> Settled(s, p)
  }
}
