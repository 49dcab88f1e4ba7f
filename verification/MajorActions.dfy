// The steps of the machine, and the invariant over every run.
module MajorActions {
  import opened Header
  import opened MajorState
  import opened MajorInv

  datatype Action =
    // the mutator
    | Write(o: nat, i: nat, v: Value, grow: bool)          // Modify
    | Alloc(a: nat, tag: nat, fields: seq<Value>)          // caml_alloc_shr and the initial stores
    | SetRoots(rs: set<nat>)
    | Expand(more: nat)                                    // the heap gets more bytes
    // the collector
    | Start(order: seq<nat>, grows: seq<bool>)             // start_cycle
    | PopOne(grows: seq<bool>)
    | ScanOne                                              // one step of markhp
    | Rescan                                               // the heap is impure: scan it
    | NextSubphase
    | FinalUpdate(vals: seq<nat>, grows: seq<bool>)        // caml_final_update
    | BeginSweep
    | SweepOne
    | EndSweep

  ghost predicate Pointable(s: State, v: Value) {
    v.Ptr? ==> Reachable(s.heap, s.roots, v.a) && v.a in s.heap
  }

  // The words a, ..., a + n of the heap are free.
  ghost predicate Room(s: State, a: nat, n: nat) {
    && a + n + 1 <= s.limit
    && forall b :: b in s.heap ==> s.heap[b].End(b) <= a || a + n + 1 <= b
  }

  ghost predicate MarkingDone(s: State) {
    s.phase == Mark && s.stack == [] && s.markhp == -1 && s.pure
  }

  ghost predicate Enabled(s: State, act: Action) {
    match act
    case Write(o, i, v, _) =>
      && o in s.heap && Reachable(s.heap, s.roots, o)
      && i < |s.heap[o].fields| && s.heap[o].tag < NO_SCAN_TAG && Pointable(s, v)
    case Alloc(a, tag, fields) =>
      && a !in s.heap && Room(s, a, |fields|)
      && forall v :: v in fields ==> Pointable(s, v)
    case SetRoots(rs) => forall a :: a in rs ==> Pointable(s, Ptr(a))
    case Expand(_) => true
    case Start(order, _) => s.phase == Idle && (forall a :: a in order <==> a in s.roots)
    case PopOne(_) => s.phase == Mark && s.stack != []
    case ScanOne => s.phase == Mark && s.stack == [] && s.markhp >= 0
    case Rescan => s.phase == Mark && s.stack == [] && s.markhp == -1 && !s.pure
    case NextSubphase => MarkingDone(s) && (s.subphase == Main || s.subphase == Weak1)
    case FinalUpdate(vals, _) => MarkingDone(s) && s.subphase == Weak2 && forall a :: a in vals ==> a in s.heap
    case BeginSweep => MarkingDone(s) && s.subphase == Final
    case SweepOne => s.phase == Sweep && s.sweephp < s.limit
    case EndSweep => s.phase == Sweep && s.sweephp >= s.limit
  }

  // caml_allocation_color.
  function AllocationColor(s: State, a: nat): Color {
    if s.phase == Mark || (s.phase == Sweep && a >= s.sweephp) then Black else White
  }

  function WriteField(s: State, o: nat, i: nat, v: Value): State
    requires o in s.heap && i < |s.heap[o].fields|
  {
    s.(heap := s.heap[o := s.heap[o].(fields := s.heap[o].fields[i := v])])
  }

  function Restrict(heap: map<nat, Obj>, c: set<nat>): map<nat, Obj> {
    map a | a in heap && a in c :: heap[a]
  }

  ghost function StartSnapshot(s: State): State {
    var c := ReachSet(s.heap, s.roots);
    s.(live := c, snap := Restrict(s.heap, c), snapRoots := s.roots)
  }

  // The values revived by finalisation, and what only they lead to, join the snapshot.
  ghost function FinalSnapshot(s: State, vals: seq<nat>): State {
    var vs := set a | a in vals;
    var c := ReachSet(s.heap, vs) - s.live;
    s.(roots := s.roots + vs, live := s.live + c, snap := s.snap + Restrict(s.heap, c),
       snapRoots := s.snapRoots + vs)
  }

  function ScanStepState(s: State): State
    requires s.markhp >= 0
  {
    if s.markhp >= s.limit then s.(markhp := -1)
    else if s.markhp in s.heap then
      var o := s.heap[s.markhp];
      s.(stack := if o.color == Gray then s.stack + [s.markhp] else s.stack, markhp := o.End(s.markhp))
    else s.(markhp := s.markhp + 1)
  }

  function SweepStepState(s: State): State {
    var hp := s.sweephp;
    if hp !in s.heap then s.(sweephp := hp + 1)
    else
      var o := s.heap[hp];
      s.(sweephp := o.End(hp),
         heap := match o.color
                 case White => s.heap - {hp}
                 case Black => s.heap[hp := o.(color := White)]
                 case _ => s.heap)
  }

  ghost function Apply(s: State, act: Action): State
    requires Enabled(s, act) && Inv(s)
  {
    match act
    case Write(o, i, v, grow) =>
      var t := WriteField(s, o, i, v);
      if s.phase == Mark then Darken(t, s.heap[o].fields[i], grow) else t
    case Alloc(a, tag, fields) =>
      s.(heap := s.heap[a := Obj(tag, AllocationColor(s, a), fields)],
         roots := s.roots + {a}, live := s.live + {a})
    case SetRoots(rs) => s.(roots := rs)
    case Expand(more) => s.(bytes := s.bytes + more)
    case Start(order, grows) =>
      DarkenAll(StartSnapshot(s), order, |order|, grows).(phase := Mark, subphase := Main, markhp := -1)
    case PopOne(grows) => Pop(s, grows)
    case ScanOne => ScanStepState(s)
    case Rescan => s.(pure := true, markhp := 0)
    case NextSubphase => s.(subphase := if s.subphase == Main then Weak1 else Weak2)
    case FinalUpdate(vals, grows) =>
      DarkenAll(FinalSnapshot(s, vals), vals, |vals|, grows).(subphase := Final)
    case BeginSweep => s.(phase := Sweep, sweephp := 0)
    case SweepOne => SweepStepState(s)
    case EndSweep => s.(phase := Idle)
  }
}
