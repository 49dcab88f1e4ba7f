// The incremental collector as a state machine: the mutator's writes, allocations and root changes,
// and the collector's own steps between them.
module MajorState {
  import opened Header

  // A field of a block: a pointer to a block of the major heap, or anything else.
  datatype Value = Other(n: int) | Ptr(a: nat)

  datatype Obj = Obj(tag: nat, color: Color, fields: seq<Value>) {
    function End(a: nat): nat { a + |fields| + 1 }
    predicate White() { color == Color.White }
    // The fields the collector follows.
    function Scan(): seq<Value> { if tag < NO_SCAN_TAG then fields else [] }
  }

  datatype Phase = Idle | Mark | Sweep
  datatype Subphase = Main | Weak1 | Weak2 | Final

  datatype State = State(
    heap: map<nat, Obj>,          // the blocks that are not free, by header address
    roots: set<nat>,              // the blocks the roots point to
    phase: Phase,
    subphase: Subphase,
    stack: seq<nat>,              // gray_vals up to gray_vals_cur
    size: nat,                    // gray_vals_size
    pure: bool,                   // heap_is_pure
    markhp: int,                  // scan pointer, -1 for NULL
    sweephp: nat,                 // caml_gc_sweep_hp
    limit: nat,                   // end of the heap
    bytes: nat,                   // caml_stat_heap_size
    // not in the program: the blocks the cycle must keep; what they were, and the roots, when the
    // collector learned about them
    live: set<nat>,
    snap: map<nat, Obj>,
    snapRoots: set<nat>)

  function Recolor(s: State, a: nat, c: Color): State
    requires a in s.heap
  {
    s.(heap := s.heap[a := s.heap[a].(color := c)])
  }

  // realloc_gray_vals, when the stack is full; grow tells whether memory was found.
  function Overflow(s: State, grow: bool): State {
    if |s.stack| < s.size then s
    else if s.size < s.bytes / 128 then
      (if grow then s.(size := 2 * s.size) else s.(stack := [], pure := false))
    else if s.size / 2 <= |s.stack| then s.(stack := s.stack[..s.size / 2], pure := false)
    else s
  }

  function PushGray(s: State, a: nat, grow: bool): State
    requires a in s.heap
  {
    var t := Recolor(s, a, Gray);
    Overflow(t.(stack := t.stack + [a]), grow)
  }

  predicate IsWhite(s: State, v: Value) {
    v.Ptr? && v.a in s.heap && s.heap[v.a].White()
  }

  // caml_darken.
  function Darken(s: State, v: Value, grow: bool): State {
    if !IsWhite(s, v) then s
    else if s.heap[v.a].tag < NO_SCAN_TAG then PushGray(s, v.a, grow)
    else Recolor(s, v.a, Black)
  }

  // What malloc answers; it fails when nothing is said.
  function At(grows: seq<bool>, i: nat): bool {
    i < |grows| && grows[i]
  }

  // After darkening the first n values.
  function DarkenAll(s: State, vs: seq<nat>, n: nat, grows: seq<bool>): State
    requires n <= |vs|
  {
    if n == 0 then s else Darken(DarkenAll(s, vs, n - 1, grows), Ptr(vs[n - 1]), At(grows, n - 1))
  }

  function ScanField(s: State, v: Value, grow: bool): State {
    if IsWhite(s, v) then PushGray(s, v.a, grow) else s
  }

  // The loop of mark_slice over the fields of one block, after the first n fields.
  function ScanFields(s: State, fields: seq<Value>, n: nat, grows: seq<bool>): State
    requires n <= |fields|
  {
    if n == 0 then s else ScanField(ScanFields(s, fields, n - 1, grows), fields[n - 1], At(grows, n - 1))
  }

  function Pop(s: State, grows: seq<bool>): State
    requires s.stack != [] && s.stack[|s.stack| - 1] in s.heap
  {
    var o := s.stack[|s.stack| - 1];
    var t := Recolor(s, o, Black).(stack := s.stack[..|s.stack| - 1]);
    ScanFields(t, s.heap[o].Scan(), |s.heap[o].Scan()|, grows)
  }

  // ---- Reachability ----

  ghost predicate Edge(heap: map<nat, Obj>, a: nat, b: nat) {
    a in heap && b in heap && Ptr(b) in heap[a].Scan()
  }

  ghost predicate IsPath(heap: map<nat, Obj>, roots: set<nat>, p: seq<nat>, a: nat) {
    && p != [] && p[0] in roots && p[0] in heap && p[|p| - 1] == a
    && forall i :: 0 <= i < |p| - 1 ==> Edge(heap, p[i], p[i + 1])
  }

  ghost predicate Reachable(heap: map<nat, Obj>, roots: set<nat>, a: nat) {
    exists p :: IsPath(heap, roots, p, a)
  }

  ghost function ReachSet(heap: map<nat, Obj>, roots: set<nat>): set<nat> {
    set a | a in heap && Reachable(heap, roots, a)
  }

  // c contains the roots and what its members point to.
  ghost predicate Closed(heap: map<nat, Obj>, roots: set<nat>, c: set<nat>) {
    && roots <= c && c <= heap.Keys
    && forall a :: a in c ==> Inside(heap, c, a)
  }

  ghost predicate Inside(heap: map<nat, Obj>, c: set<nat>, a: nat) {
    a in heap && forall v :: v in heap[a].Scan() && v.Ptr? ==> v.a in c
  }

  lemma {:induction false} PathInside(heap: map<nat, Obj>, roots: set<nat>, c: set<nat>, p: seq<nat>, i: nat)
    requires Closed(heap, roots, c) && i < |p|
    requires p[0] in roots && forall j :: 0 <= j < |p| - 1 ==> Edge(heap, p[j], p[j + 1])
    ensures p[i] in c
  {
    if i > 0 {
      PathInside(heap, roots, c, p, i - 1);
      assert Edge(heap, p[i - 1], p[i - 1 + 1]);
      assert Inside(heap, c, p[i - 1]);
    }
  }

  // What is reachable is in every closed set.
  lemma ReachableInside(heap: map<nat, Obj>, roots: set<nat>, c: set<nat>, a: nat)
    requires Closed(heap, roots, c) && Reachable(heap, roots, a)
    ensures a in c
  {
    var p :| IsPath(heap, roots, p, a);
    PathInside(heap, roots, c, p, |p| - 1);
  }

  lemma ReachableStep(heap: map<nat, Obj>, roots: set<nat>, a: nat, b: nat)
    requires Reachable(heap, roots, a) && Edge(heap, a, b)
    ensures Reachable(heap, roots, b)
  {
    var p :| IsPath(heap, roots, p, a);
    var q := p + [b];
    forall i | 0 <= i < |q| - 1 ensures Edge(heap, q[i], q[i + 1]) {
      if i + 1 < |p| { assert Edge(heap, p[i], p[i + 1]); }
    }
    assert IsPath(heap, roots, q, b);
  }

  // No field of any block points outside the heap.
  ghost predicate NoDangling(heap: map<nat, Obj>) {
    forall a :: a in heap ==> Inside(heap, heap.Keys, a)
  }

  lemma ReachSetClosed(heap: map<nat, Obj>, roots: set<nat>)
    requires NoDangling(heap) && roots <= heap.Keys
    ensures Closed(heap, roots, ReachSet(heap, roots))
  {
    var c := ReachSet(heap, roots);
    forall a | a in roots ensures a in c {
      assert IsPath(heap, roots, [a], a);
    }
    forall a | a in c ensures Inside(heap, c, a) {
      assert Inside(heap, heap.Keys, a);
      forall v | v in heap[a].Scan() && v.Ptr? ensures v.a in c {
        ReachableStep(heap, roots, a, v.a);
      }
    }
  }
}
