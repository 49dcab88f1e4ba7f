// What the steps of the machine mean for the program: which blocks there are, and what is in them.
module MajorView {
  import opened Header
  import opened MajorState
  import opened MajorInv
  import opened MajorActions

  // What the program sees of a block.
  datatype Content = Content(tag: nat, fields: seq<Value>)

  function View(heap: map<nat, Obj>): map<nat, Content> {
    map a | a in heap :: Content(heap[a].tag, heap[a].fields)
  }

  // h' has the blocks of h, with other colors perhaps.
  ghost predicate Recolored(h: map<nat, Obj>, h': map<nat, Obj>) {
    h'.Keys == h.Keys && forall a :: a in h ==> h'[a].tag == h[a].tag && h'[a].fields == h[a].fields
  }

  lemma RecoloredView(h: map<nat, Obj>, h': map<nat, Obj>)
    requires Recolored(h, h')
    ensures View(h') == View(h)
  {
  }

  // Pushing a block colors it gray and no other.  It is on top of the stack then, unless the push filled the
  // stack: then the stack becomes twice as big if it may and memory is found, it is emptied if there is none,
  // and its upper half is dropped if it may not grow; whenever gray blocks are dropped the heap is impure.
  lemma PushMeans(s: State, a: nat, grow: bool)
    requires a in s.heap && 2 <= s.size && |s.stack| < s.size
    ensures var t := PushGray(s, a, grow);
      && t.heap == s.heap[a := Obj(s.heap[a].tag, Gray, s.heap[a].fields)] && t.roots == s.roots
      && (if |s.stack| + 1 < s.size then (t.stack, t.size, t.pure) == (s.stack + [a], s.size, s.pure)
          else if s.size >= s.bytes / 128 then
            (t.stack, t.size, t.pure) == ((s.stack + [a])[..s.size / 2], s.size, false)
          else if grow then (t.stack, t.size, t.pure) == (s.stack + [a], 2 * s.size, s.pure)
          else (t.stack, t.size, t.pure) == ([], s.size, false))
  {
    PushSameHeap(s, a, grow);
    assert Recolor(s, a, Gray).heap[a] == Obj(s.heap[a].tag, Gray, s.heap[a].fields);
  }

  // Darkening colors the one block v points to, if it is white: gray if the collector scans it, else black.
  lemma DarkenMeans(s: State, v: Value, grow: bool)
    ensures var t := Darken(s, v, grow);
      && t.heap.Keys == s.heap.Keys && t.roots == s.roots
      && forall a :: a in s.heap ==>
           && t.heap[a].tag == s.heap[a].tag && t.heap[a].fields == s.heap[a].fields
           && t.heap[a].color ==
              if v == Ptr(a) && s.heap[a].color == White then (if s.heap[a].tag < NO_SCAN_TAG then Gray else Black)
              else s.heap[a].color
  {
    hide Overflow;
    if IsWhite(s, v) { PushSameHeap(s, v.a, grow); }
  }

  lemma DarkenView(s: State, v: Value, grow: bool)
    ensures Recolored(s.heap, Darken(s, v, grow).heap) && Darken(s, v, grow).roots == s.roots
  {
    hide Darken;
    DarkenMeans(s, v, grow);
  }

  lemma ScanView(s: State, v: Value, grow: bool)
    ensures Recolored(s.heap, ScanField(s, v, grow).heap) && ScanField(s, v, grow).roots == s.roots
  {
    hide Overflow;
    if IsWhite(s, v) { PushSameHeap(s, v.a, grow); }
  }

  lemma {:induction false} DarkenAllView(s: State, vs: seq<nat>, n: nat, grows: seq<bool>)
    requires n <= |vs|
    ensures var t := DarkenAll(s, vs, n, grows); Recolored(s.heap, t.heap) && t.roots == s.roots
  {
    hide Darken;
    if n > 0 {
      DarkenAllView(s, vs, n - 1, grows);
      DarkenView(DarkenAll(s, vs, n - 1, grows), Ptr(vs[n - 1]), At(grows, n - 1));
    }
  }

  lemma {:induction false} ScanAllView(s: State, fields: seq<Value>, n: nat, grows: seq<bool>)
    requires n <= |fields|
    ensures var t := ScanFields(s, fields, n, grows); Recolored(s.heap, t.heap) && t.roots == s.roots
  {
    hide ScanField;
    if n > 0 {
      ScanAllView(s, fields, n - 1, grows);
      ScanView(ScanFields(s, fields, n - 1, grows), fields[n - 1], At(grows, n - 1));
    }
  }

  lemma PopView(s: State, grows: seq<bool>)
    requires s.stack != [] && s.stack[|s.stack| - 1] in s.heap
    ensures View(Pop(s, grows).heap) == View(s.heap) && Pop(s, grows).roots == s.roots
  {
    hide ScanFields;
    var o := s.stack[|s.stack| - 1];
    var t := Recolor(s, o, Black).(stack := s.stack[..|s.stack| - 1]);
    ScanAllView(t, s.heap[o].Scan(), |s.heap[o].Scan()|, grows);
    RecoloredView(t.heap, Pop(s, grows).heap);
    RecoloredView(s.heap, t.heap);
  }

  // The block that the sweeper frees.
  function Freed(s: State): set<nat> {
    if s.sweephp in s.heap && s.heap[s.sweephp].color == White then {s.sweephp} else {}
  }

  // A store stores, an allocation adds a block with the contents it is given, a step of the sweeper frees a white
  // block where it is, and no other step changes what the program sees.
  ghost function ViewAfter(s: State, act: Action): map<nat, Content> {
    match act
    case Write(o, i, v, _) =>
      if o in s.heap && i < |s.heap[o].fields|
      then View(s.heap)[o := Content(s.heap[o].tag, s.heap[o].fields[i := v])] else View(s.heap)
    case Alloc(a, tag, fields) => View(s.heap)[a := Content(tag, fields)]
    case SweepOne => View(s.heap) - Freed(s)
    case _ => View(s.heap)
  }

  ghost function RootsAfter(s: State, act: Action): set<nat> {
    match act
    case Alloc(a, _, _) => s.roots + {a}
    case SetRoots(rs) => rs
    case FinalUpdate(vals, _) => s.roots + set a | a in vals
    case _ => s.roots
  }

  lemma WriteView(s: State, o: nat, i: nat, v: Value, grow: bool)
    requires Inv(s) && Enabled(s, Write(o, i, v, grow))
    ensures View(Apply(s, Write(o, i, v, grow)).heap) == ViewAfter(s, Write(o, i, v, grow))
    ensures Apply(s, Write(o, i, v, grow)).roots == s.roots
  {
    hide Inv;
    hide Reachable;
    hide Darken;
    var t := WriteField(s, o, i, v);
    DarkenView(t, s.heap[o].fields[i], grow);
    RecoloredView(t.heap, Apply(s, Write(o, i, v, grow)).heap);
  }

  lemma SweepView(s: State)
    requires Inv(s) && Enabled(s, SweepOne)
    ensures View(Apply(s, SweepOne).heap) == View(s.heap) - Freed(s) && Apply(s, SweepOne).roots == s.roots
  {
    hide Inv;
  }

  lemma StepView(s: State, act: Action)
    requires Inv(s) && Enabled(s, act)
    ensures View(Apply(s, act).heap) == ViewAfter(s, act) && Apply(s, act).roots == RootsAfter(s, act)
  {
    hide Inv;
    hide Reachable;
    hide DarkenAll;
    hide Pop;
    hide View;
    match act
    case Write(o, i, v, grow) => WriteView(s, o, i, v, grow);
    case Alloc(a, tag, fields) => AllocView(s, a, tag, fields);
    case Start(order, grows) =>
      DarkenAllView(StartSnapshot(s), order, |order|, grows);
      RecoloredView(s.heap, Apply(s, act).heap);
    case PopOne(grows) =>
      PopTop(s, grows);
      PopView(s, grows);
    case FinalUpdate(vals, grows) =>
      DarkenAllView(FinalSnapshot(s, vals), vals, |vals|, grows);
      RecoloredView(s.heap, Apply(s, act).heap);
    case SweepOne => SweepView(s);
    case _ =>
  }

  lemma PopTop(s: State, grows: seq<bool>)
    requires Inv(s) && Enabled(s, PopOne(grows))
    ensures s.stack != [] && s.stack[|s.stack| - 1] in s.heap
  {
  }

  lemma AllocView(s: State, a: nat, tag: nat, fields: seq<Value>)
    requires Inv(s) && Enabled(s, Alloc(a, tag, fields))
    ensures View(Apply(s, Alloc(a, tag, fields)).heap) == ViewAfter(s, Alloc(a, tag, fields))
    ensures Apply(s, Alloc(a, tag, fields)).roots == s.roots + {a}
  {
    hide Inv;
    hide Reachable;
  }
}
