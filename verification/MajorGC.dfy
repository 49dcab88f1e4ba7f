// The collector's procedures.  Each is a run of the state machine, and the loops terminate.
module MajorGC {
  import opened Header
  import opened MajorState
  import opened MajorInv
  import opened MajorMark
  import opened MajorActions
  import opened MajorCollect
  import opened MajorView

  // What has been done since state s is the run acts.
  ghost predicate Ran(s: State, acts: seq<Action>, t: State) {
    Allowed(s, acts) && Run(s, acts) == t && Inv(t)
  }

  lemma RanNothing(s: State)
    requires Inv(s)
    ensures Ran(s, [], s)
  {
  }

  lemma RanOne(s: State, acts: seq<Action>, t: State, act: Action)
    requires Ran(s, acts, t) && Enabled(t, act)
    ensures Inv(t) && Ran(s, acts + [act], Apply(t, act)) && Inv(Apply(t, act))
  {
    hide Inv;
    hide Enabled;
    hide Apply;
    RunSnoc(s, acts, act);
    ApplyKeeps(t, act);
  }

  // ---- Termination ----

  ghost function Colored(s: State, c: Color): set<nat> {
    set a | a in s.heap && s.heap[a].color == c
  }

  ghost function ScanLeft(s: State): nat {
    if s.markhp < 0 then 0 else 1 + (if s.limit >= s.markhp then s.limit - s.markhp else 0)
  }

  ghost function PhaseLeft(s: State): nat {
    match s.phase
    case Mark => (match s.subphase case Main => 5 case Weak1 => 4 case Weak2 => 3 case Final => 2)
    case Sweep => 1
    case Idle => 0
  }

  ghost function SweepLeft(s: State): nat {
    if s.limit >= s.sweephp then s.limit - s.sweephp else 0
  }

  // White blocks, gray blocks, impurity, heap left to scan, phases left, heap left to sweep: each step
  // of the collector lowers this lexicographically.
  ghost predicate Less(t: State, s: State) {
    || Colored(t, White) < Colored(s, White)
    || (Colored(t, White) == Colored(s, White) &&
        (|| Colored(t, Gray) < Colored(s, Gray)
         || (Colored(t, Gray) == Colored(s, Gray) &&
             (|| (!s.pure && t.pure)
              || (s.pure == t.pure &&
                  (|| ScanLeft(t) < ScanLeft(s)
                   || (ScanLeft(t) == ScanLeft(s) && PhaseLeft(t) < PhaseLeft(s))))))))
  }

  lemma LessTransitive(a: State, b: State, c: State)
    requires Less(a, b) && Less(b, c)
    ensures Less(a, c)
  {
  }

  // The blocks of t are blocks of s, but for their colors.
  ghost predicate SameBlocks(s: State, t: State) {
    forall a :: a in t.heap ==> SameBlock(s, t, a)
  }

  ghost predicate SameBlock(s: State, t: State, a: nat)
    requires a in t.heap
  {
    a in s.heap && t.heap[a].tag == s.heap[a].tag && t.heap[a].fields == s.heap[a].fields
  }

  // Scanning fields only turns white blocks gray.
  ghost predicate Grayed(s: State, t: State) {
    && t.heap.Keys == s.heap.Keys && t.limit == s.limit && t.markhp == s.markhp
    && t.phase == s.phase && t.subphase == s.subphase
    && (forall a :: a in s.heap ==>
          t.heap[a].color == s.heap[a].color || (s.heap[a].color == White && t.heap[a].color != White))
    && SameBlocks(s, t)
    && (Colored(t, White) == Colored(s, White) ==> t.pure == s.pure && t.heap == s.heap)
  }

  // One white block a of t gets color c in u.
  ghost predicate OneColored(t: State, u: State, a: nat, c: Color) {
    && a in t.heap && t.heap[a].color == White && c != White
    && u.heap == t.heap[a := t.heap[a].(color := c)]
    && u.limit == t.limit && u.markhp == t.markhp && u.phase == t.phase && u.subphase == t.subphase
  }

  lemma GrayedOne(s: State, t: State, u: State, a: nat, c: Color)
    requires Grayed(s, t) && OneColored(t, u, a, c)
    ensures Grayed(s, u)
  {
    assert a in Colored(s, White) && a !in Colored(u, White);
    forall x | x in s.heap
      ensures u.heap[x].color == s.heap[x].color || (s.heap[x].color == White && u.heap[x].color != White)
    {
      assert t.heap[x].color == s.heap[x].color || (s.heap[x].color == White && t.heap[x].color != White);
    }
  }

  lemma GrayedStep(s: State, t: State, v: Value, grow: bool)
    requires Grayed(s, t)
    ensures Grayed(s, ScanField(t, v, grow)) && Grayed(s, Darken(t, v, grow))
  {
    hide Grayed;
    if IsWhite(t, v) {
      GrayedOne(s, t, PushGray(t, v.a, grow), v.a, Gray);
      GrayedOne(s, t, Recolor(t, v.a, Black), v.a, Black);
    }
  }

  lemma {:induction false} ScanGrayed(s: State, fields: seq<Value>, n: nat, grows: seq<bool>)
    requires n <= |fields|
    ensures Grayed(s, ScanFields(s, fields, n, grows))
  {
    hide ScanField;
    if n > 0 {
      ScanGrayed(s, fields, n - 1, grows);
      GrayedStep(s, ScanFields(s, fields, n - 1, grows), fields[n - 1], At(grows, n - 1));
    }
  }

  lemma {:induction false} DarkenGrayed(s: State, vs: seq<nat>, n: nat, grows: seq<bool>)
    requires n <= |vs|
    ensures Grayed(s, DarkenAll(s, vs, n, grows))
  {
    hide Darken;
    if n > 0 {
      DarkenGrayed(s, vs, n - 1, grows);
      GrayedStep(s, DarkenAll(s, vs, n - 1, grows), Ptr(vs[n - 1]), At(grows, n - 1));
    }
  }

  lemma GrayedWhites(s: State, t: State)
    requires Grayed(s, t)
    ensures Colored(t, White) <= Colored(s, White)
    ensures Colored(t, White) == Colored(s, White) ==> Colored(t, Gray) == Colored(s, Gray)
  {
  }

  lemma PopLess(s: State, grows: seq<bool>)
    requires MarkInv(s) && s.stack != []
    ensures s.stack[|s.stack| - 1] in s.heap && Less(Pop(s, grows), s)
  {
    hide MarkInv;
    hide ScanFields;
    PopKeeps(s, grows);
    StackTop(s);
    var o := s.stack[|s.stack| - 1];
    var t := Recolor(s, o, Black).(stack := s.stack[..|s.stack| - 1]);
    var fields := s.heap[o].Scan();
    ScanGrayed(t, fields, |fields|, grows);
    var u := Pop(s, grows);
    GrayedWhites(t, u);
    assert Colored(t, White) == Colored(s, White);
    assert Colored(t, Gray) == Colored(s, Gray) - {o};
    assert o in Colored(s, Gray);
  }

  lemma StackTop(s: State)
    requires MarkInv(s) && s.stack != []
    ensures var o := s.stack[|s.stack| - 1]; o in s.heap && s.heap[o].color == Gray
  {
  }

  // Every collector step of the mark phase lowers the measure.
  lemma MarkStepLess(s: State, act: Action)
    requires Inv(s) && Enabled(s, act) && s.phase == Mark
    requires IsMarkStep(act)
    ensures Less(Apply(s, act), s)
  {
    hide Inv;
    if act.PopOne? {
      PopIsMark(s, act.grows);
      PopLess(s, act.grows);
    } else if act.FinalUpdate? {
      var t := FinalSnapshot(s, act.vals);
      var u := DarkenAll(t, act.vals, |act.vals|, act.grows);
      DarkenGrayed(t, act.vals, |act.vals|, act.grows);
      GrayedWhites(t, u);
      SameColors(s, t);
      SameColors(u, u.(subphase := Final));
    } else {
      SameColors(s, Apply(s, act));
    }
  }

  lemma PopIsMark(s: State, grows: seq<bool>)
    requires Inv(s) && Enabled(s, PopOne(grows))
    ensures MarkInv(s) && s.stack != []
  {
  }

  lemma SameColors(s: State, t: State)
    requires s.heap == t.heap
    ensures forall c :: Colored(t, c) == Colored(s, c)
  {
  }

  // The state does not change between the first n values darkened and the next when the oracle grows.
  lemma {:induction false} DarkenPrefix(s: State, vs: seq<nat>, n: nat, grows: seq<bool>, g: bool)
    requires n <= |vs| && n <= |grows|
    ensures DarkenAll(s, vs, n, grows + [g]) == DarkenAll(s, vs, n, grows)
  {
    hide Darken;
    if n > 0 { DarkenPrefix(s, vs, n - 1, grows, g); }
  }

  lemma {:induction false} ScanPrefix(s: State, fields: seq<Value>, n: nat, grows: seq<bool>, g: bool)
    requires n <= |fields| && n <= |grows|
    ensures ScanFields(s, fields, n, grows + [g]) == ScanFields(s, fields, n, grows)
  {
    hide ScanField;
    if n > 0 { ScanPrefix(s, fields, n - 1, grows, g); }
  }

  // ---- What the collector's procedures do ----

  const LONG_MAX: int := 0x7FFF_FFFF_FFFF_FFFF

  predicate IsMarkStep(act: Action) {
    act.PopOne? || act.ScanOne? || act.Rescan? || act.NextSubphase? || act.BeginSweep? || act.FinalUpdate?
  }

  predicate IsSweepStep(act: Action) {
    act.SweepOne? || act.EndSweep?
  }

  ghost predicate MarkActs(acts: seq<Action>, finals: seq<nat>) {
    forall act :: act in acts ==> IsMarkStep(act) && (act.FinalUpdate? ==> act.vals == finals)
  }

  ghost predicate SweepActs(acts: seq<Action>) {
    forall act :: act in acts ==> IsSweepStep(act)
  }

  ghost predicate LaterActs(acts: seq<Action>, finals: seq<nat>) {
    forall act :: act in acts ==>
      (IsMarkStep(act) || IsSweepStep(act)) && (act.FinalUpdate? ==> act.vals == finals)
  }

  // Marking and sweeping, perhaps after starting a cycle.
  ghost predicate CycleActs(acts: seq<Action>, order: seq<nat>, finals: seq<nat>) {
    || LaterActs(acts, finals)
    || (acts != [] && acts[0].Start? && acts[0].order == order && LaterActs(acts[1..], finals))
  }

  lemma LessChain(a: State, b: State, c: State)
    requires Less(a, b)
    ensures b == c || Less(b, c) ==> Less(a, c)
  {
    if Less(b, c) { LessTransitive(a, b, c); }
  }

  lemma {:induction false} RanJoin(s: State, acts: seq<Action>, t: State, more: seq<Action>, u: State)
    requires Ran(s, acts, t) && Ran(t, more, u)
    ensures Ran(s, acts + more, u)
    decreases |acts|
  {
    hide Inv;
    hide Enabled;
    hide Apply;
    if acts == [] {
      assert acts + more == more;
    } else {
      var all := acts + more;
      assert all[0] == acts[0] && all[1..] == acts[1..] + more;
      RanJoin(Apply(s, acts[0]), acts[1..], t, more, u);
    }
  }

  lemma SweepSame(s: State)
    requires Inv(s) && Enabled(s, SweepOne)
    ensures SameBlocks(s, Apply(s, SweepOne))
  {
  }

  // The collector changes no field, and only the sweeper frees blocks.
  lemma StepSame(s: State, act: Action)
    requires Inv(s) && Enabled(s, act) && (act.Start? || IsMarkStep(act) || IsSweepStep(act))
    ensures SameBlocks(s, Apply(s, act))
    ensures !act.SweepOne? ==> Apply(s, act).heap.Keys == s.heap.Keys
  {
    hide Inv;
    match act
    case PopOne(grows) =>
      PopIsMark(s, grows);
      PopSame(s, grows);
    case FinalUpdate(vals, grows) =>
      DarkenGrayed(FinalSnapshot(s, vals), vals, |vals|, grows);
    case Start(order, grows) =>
      DarkenGrayed(StartSnapshot(s), order, |order|, grows);
    case SweepOne => SweepSame(s);
    case ScanOne =>
    case Rescan =>
    case NextSubphase =>
    case BeginSweep =>
    case EndSweep =>
  }

  lemma PopSame(s: State, grows: seq<bool>)
    requires MarkInv(s) && s.stack != []
    ensures s.stack[|s.stack| - 1] in s.heap
    ensures SameBlocks(s, Pop(s, grows)) && Pop(s, grows).heap.Keys == s.heap.Keys
  {
    hide MarkInv;
    hide ScanFields;
    StackTop(s);
    var o := s.stack[|s.stack| - 1];
    var t := Recolor(s, o, Black).(stack := s.stack[..|s.stack| - 1]);
    ScanGrayed(t, s.heap[o].Scan(), |s.heap[o].Scan()|, grows);
    var u := Pop(s, grows);
    forall a | a in u.heap ensures SameBlock(s, u, a) {
      assert SameBlock(t, u, a);
    }
  }

  lemma {:induction false} RunSame(s: State, acts: seq<Action>, finals: seq<nat>)
    requires Inv(s) && Allowed(s, acts) && LaterActs(acts, finals)
    ensures SameBlocks(s, Run(s, acts))
    decreases |acts|
  {
    hide Inv;
    hide Enabled;
    hide Apply;
    if acts != [] {
      var t := Apply(s, acts[0]);
      assert acts[0] in acts;
      assert forall act :: act in acts[1..] ==> act in acts;
      StepSame(s, acts[0]);
      ApplyKeeps(s, acts[0]);
      RunSame(t, acts[1..], finals);
      SameTwice(s, t, Run(t, acts[1..]));
    }
  }

  lemma SameTwice(s: State, t: State, u: State)
    requires SameBlocks(s, t) && SameBlocks(t, u)
    ensures SameBlocks(s, u)
  {
    forall a | a in u.heap ensures SameBlock(s, u, a) {
      assert SameBlock(t, u, a);
      assert SameBlock(s, t, a);
    }
  }

  // What a whole cycle with nothing to finalise leaves.
  lemma CycleLeaves(s: State, order: seq<nat>, grows: seq<bool>, acts: seq<Action>, t: State, finals: seq<nat>)
    requires Inv(s) && Enabled(s, Start(order, grows)) && LaterActs(acts, finals)
    requires Ran(Apply(s, Start(order, grows)), acts, t) && t.phase == Idle
    ensures finals == [] ==> t.heap == Restrict(s.heap, ReachSet(s.heap, s.roots))
  {
    hide Enabled;
    hide Apply;
    hide ReachSet;
    hide Inv;
    var act := Start(order, grows);
    var u := Apply(s, act);
    ApplyKeeps(s, act);
    if finals == [] {
      CycleFrees(s, order, grows, acts);
      assert Allocated(acts) == {};
      StepSame(s, act);
      RunSame(u, acts, finals);
      SameTwice(s, u, t);
      StartIdle(s, act);
      SameWhite(s, t);
      var r := Restrict(s.heap, ReachSet(s.heap, s.roots));
      forall a | a in t.heap ensures a in r && t.heap[a] == r[a] {
        assert SameBlock(s, t, a);
      }
      assert t.heap.Keys == r.Keys by {
        forall a | a in r ensures a in t.heap {
        }
      }
    }
  }

  lemma StartIdle(s: State, act: Action)
    requires Enabled(s, act) && act.Start?
    ensures s.phase == Idle
  {
  }

  lemma SameWhite(s: State, t: State)
    requires Inv(s) && Inv(t) && s.phase == Idle && t.phase == Idle
    ensures forall a :: a in s.heap ==> s.heap[a].color == White
    ensures forall a :: a in t.heap ==> t.heap[a].color == White
  {
  }

  class MajorHeap {
    var heap: map<nat, Obj>
    var roots: set<nat>
    var phase: Phase
    var subphase: Subphase
    var stack: seq<nat>
    var size: nat
    var pure: bool
    var markhp: int
    var sweephp: nat
    var limit: nat
    var bytes: nat
    ghost var live: set<nat>
    ghost var snap: map<nat, Obj>
    ghost var snapRoots: set<nat>

    ghost function S(): State
      reads this
    {
      State(heap, roots, phase, subphase, stack, size, pure, markhp, sweephp, limit, bytes, live, snap, snapRoots)
    }

    // caml_init_major_heap: all of the heap is free.
    constructor (limit: nat, bytes: nat)
      ensures Inv(S()) && phase == Idle && heap == map[] && this.limit == limit
    {
      heap, roots, phase, subphase := map[], {}, Idle, Main;
      stack, size, pure, markhp, sweephp := [], 2048, true, -1, 0;
      this.limit, this.bytes := limit, bytes;
      live, snap, snapRoots := {}, map[], {};
    }

    // *gray_vals_cur++ = a, and realloc_gray_vals when that fills the stack.
    method Push(a: nat) returns (ghost grow: bool)
      requires a in heap && 2 <= size && |stack| < size
      modifies this
      ensures S() == PushGray(old(S()), a, grow)
    {
      heap := heap[a := heap[a].(color := Gray)];
      stack := stack + [a];
      grow := false;
      if |stack| >= size {
        if size < bytes / 128 {
          var found: bool := *;
          grow := found;
          if found {
            size := 2 * size;
          } else {
            stack := [];
            pure := false;
          }
        } else {
          stack := stack[..size / 2];
          pure := false;
        }
      }
    }

    // caml_darken.
    method DarkenValue(v: Value) returns (ghost grow: bool)
      requires 2 <= size && |stack| < size
      modifies this
      ensures S() == Darken(old(S()), v, grow)
    {
      grow := false;
      if v.Ptr? && v.a in heap && heap[v.a].color == White {
        if heap[v.a].tag < NO_SCAN_TAG {
          grow := Push(v.a);
        } else {
          heap := heap[v.a := heap[v.a].(color := Black)];
        }
      }
    }

    // Modify.
    method Modify(o: nat, i: nat, v: Value) returns (ghost grow: bool)
      requires Inv(S()) && forall g :: Enabled(S(), Write(o, i, v, g))
      modifies this
      ensures Enabled(old(S()), Write(o, i, v, grow)) && S() == Apply(old(S()), Write(o, i, v, grow))
      ensures Inv(S()) && roots == old(roots)
      ensures View(heap) == old(View(heap))[o := Content(old(heap)[o].tag, old(heap)[o].fields[i := v])]
    {
      ghost var s := S();
      assert Enabled(s, Write(o, i, v, false));
      var was := heap[o].fields[i];
      heap := heap[o := heap[o].(fields := heap[o].fields[i := v])];
      grow := false;
      if phase == Mark {
        StackRoom(s);
        grow := DarkenValue(was);
      }
      assert Enabled(s, Write(o, i, v, grow));
      ApplyKeeps(s, Write(o, i, v, grow));
      WriteView(s, o, i, v, grow);
    }

    // caml_alloc_shr with the free block at address a, and the initial stores.
    method AllocShr(a: nat, tag: nat, fields: seq<Value>)
      requires Inv(S()) && Enabled(S(), Alloc(a, tag, fields))
      modifies this
      ensures S() == Apply(old(S()), Alloc(a, tag, fields)) && Inv(S())
      ensures View(heap) == old(View(heap))[a := Content(tag, fields)] && roots == old(roots) + {a}
    {
      ghost var s := S();
      if phase == Mark || (phase == Sweep && a >= sweephp) {
        heap := heap[a := Obj(tag, Black, fields)];
      } else {
        heap := heap[a := Obj(tag, White, fields)];
      }
      roots := roots + {a};
      live := live + {a};
      ApplyKeeps(s, Alloc(a, tag, fields));
      AllocView(s, a, tag, fields);
    }

    // start_cycle; order lists the roots as caml_do_roots meets them.
    method StartCycle(order: seq<nat>) returns (ghost grows: seq<bool>)
      requires Inv(S()) && phase == Idle && forall a :: a in order <==> a in roots
      modifies this
      ensures Enabled(old(S()), Start(order, grows)) && S() == Apply(old(S()), Start(order, grows))
      ensures Inv(S()) && phase == Mark && heap.Keys == old(heap.Keys)
    {
      hide Inv;
      hide Apply;
      hide Enabled;
      hide DarkenAll;
      hide DarkenInv;
      hide Restrict;
      hide ReachSet;
      hide Reachable;
      ghost var s := S();
      StartFacts(s, order);
      live, snap, snapRoots := StartSnapshot(s).live, StartSnapshot(s).snap, StartSnapshot(s).snapRoots;
      grows := DarkenList(order);
      phase := Mark;
      subphase := Main;
      markhp := -1;
      StartApplied(s, order, grows);
      ApplyKeeps(s, Start(order, grows));
      SameKeys(StartSnapshot(s), order, grows);
    }

    method DarkenList(vs: seq<nat>) returns (ghost grows: seq<bool>)
      requires DarkenInv(S(), vs, 0)
      modifies this
      ensures S() == DarkenAll(old(S()), vs, |vs|, grows)
    {
      hide DarkenInv;
      hide Darken;
      hide DarkenAll;
      ghost var s := S();
      grows := [];
      DarkenNone(s, vs);
      for i := 0 to |vs|
        invariant |grows| == i && S() == DarkenAll(s, vs, i, grows)
      {
        DarkenSome(s, vs, i, grows);
        DarkenRoom(S(), vs, i);
        ghost var g := DarkenValue(Ptr(vs[i]));
        DarkenPrefix(s, vs, i, grows, g);
        DarkenNext(s, vs, i, grows + [g]);
        grows := grows + [g];
      }
    }

    // One block of the mark stack: blacken it, and gray its white children.
    method MarkBlock() returns (ghost grows: seq<bool>)
      requires Inv(S()) && phase == Mark && stack != []
      modifies this
      ensures Enabled(old(S()), PopOne(grows)) && S() == Apply(old(S()), PopOne(grows))
    {
      hide Inv;
      hide ScanInv;
      hide ScanField;
      hide ScanFields;
      ghost var s := S();
      PopReady(s);
      var o := stack[|stack| - 1];
      var fields := heap[o].Scan();
      stack := stack[..|stack| - 1];
      heap := heap[o := heap[o].(color := Black)];
      ghost var t := S();
      grows := [];
      ScanNone(t, fields);
      for i := 0 to |fields|
        invariant |grows| == i && S() == ScanFields(t, fields, i, grows)
      {
        ScanFieldsKeeps(t, o, fields, i, grows);
        ScanRoom(S(), o, fields, i);
        ghost var g := ScanChild(fields[i]);
        ScanPrefix(t, fields, i, grows, g);
        ScanNext(t, fields, i, grows + [g]);
        grows := grows + [g];
      }
    }

    method ScanChild(v: Value) returns (ghost grow: bool)
      requires 2 <= size && |stack| < size
      modifies this
      ensures S() == ScanField(old(S()), v, grow)
    {
      grow := false;
      if v.Ptr? && v.a in heap && heap[v.a].color == White {
        grow := Push(v.a);
      }
    }

    // caml_final_update, when finals are the values that it revives.
    method FinalValues(finals: seq<nat>) returns (ghost grows: seq<bool>)
      requires Inv(S()) && forall g :: Enabled(S(), FinalUpdate(finals, g))
      modifies this
      ensures Enabled(old(S()), FinalUpdate(finals, grows)) && S() == Apply(old(S()), FinalUpdate(finals, grows))
    {
      hide Inv;
      hide DarkenInv;
      hide DarkenAll;
      hide Restrict;
      hide ReachSet;
      hide Reachable;
      ghost var s := S();
      assert Enabled(s, FinalUpdate(finals, []));
      FinalFacts(s, finals);
      roots := roots + set a | a in finals;
      live, snap, snapRoots := FinalSnapshot(s, finals).live, FinalSnapshot(s, finals).snap,
        FinalSnapshot(s, finals).snapRoots;
      grows := DarkenList(finals);
      subphase := Final;
      assert Enabled(s, FinalUpdate(finals, grows));
    }

    // The scan of the heap for gray blocks that were dropped.
    method ScanHeap() returns (ghost act: Action)
      requires Inv(S()) && phase == Mark && stack == [] && markhp >= 0
      modifies `markhp, `stack
      ensures act == ScanOne && Enabled(old(S()), act) && S() == Apply(old(S()), act)
    {
      hide Inv;
      act := ScanOne;
      if markhp >= limit {
        markhp := -1;
      } else if markhp in heap {
        if heap[markhp].color == Gray {
          stack := stack + [markhp];
        }
        markhp := markhp + |heap[markhp].fields| + 1;
      } else {
        markhp := markhp + 1;
      }
    }

    // Nothing is left to mark in this subphase.
    method ChangePhase(finals: seq<nat>) returns (ghost act: Action)
      requires Inv(S()) && MarkingDone(S()) && forall a :: a in finals ==> a in heap
      modifies this
      ensures Enabled(old(S()), act) && IsMarkStep(act) && S() == Apply(old(S()), act)
      ensures (phase == Mark || phase == Sweep) && (act.FinalUpdate? ==> act.vals == finals)
    {
      hide Inv;
      hide DarkenAll;
      ghost var s := S();
      match subphase
      case Main =>
        act := NextSubphase;
        subphase := Weak1;
      case Weak1 =>
        act := NextSubphase;
        subphase := Weak2;
      case Weak2 =>
        ghost var grows := FinalValues(finals);
        act := FinalUpdate(finals, grows);
        FinalPhase(s, finals, grows);
      case Final =>
        act := BeginSweep;
        phase := Sweep;
        sweephp := 0;
    }

    // One turn of the loop of mark_slice.
    method MarkStep(finals: seq<nat>) returns (done: int, ghost act: Action)
      requires Inv(S()) && phase == Mark && forall a :: a in finals ==> a in heap
      modifies this
      ensures Enabled(old(S()), act) && IsMarkStep(act) && S() == Apply(old(S()), act)
      ensures phase == Mark || phase == Sweep
      ensures act.FinalUpdate? ==> act.vals == finals
      ensures 0 <= done
    {
      hide Inv;
      hide DarkenAll;
      ghost var s := S();
      done := 0;
      if stack != [] {
        TopInHeap(s);
        done := |heap[stack[|stack| - 1]].fields| + 1;
        ghost var grows := MarkBlock();
        act := PopOne(grows);
        PopPhase(s, grows);
      } else if markhp != -1 {
        MarkPointer(s);
        act := ScanHeap();
      } else if !pure {
        act := Rescan;
        pure := true;
        markhp := 0;
      } else {
        act := ChangePhase(finals);
      }
    }

    // mark_slice.
    method MarkSlice(work: int, finals: seq<nat>) returns (ghost acts: seq<Action>)
      requires Inv(S()) && phase == Mark && forall a :: a in finals ==> a in heap
      modifies this
      ensures Inv(S()) && Ran(old(S()), acts, S()) && MarkActs(acts, finals)
      ensures phase == Mark || phase == Sweep
      ensures heap.Keys == old(heap.Keys)
      ensures work > 0 ==> Less(S(), old(S()))
    {
      hide Inv;
      hide Ran;
      hide Apply;
      hide Enabled;
      ghost var s := S();
      var left := work;
      acts := [];
      RanNothing(s);
      while left > 0
        invariant Inv(S()) && Ran(s, acts, S()) && MarkActs(acts, finals)
        invariant phase == Mark || (phase == Sweep && left <= 0)
        invariant heap.Keys == s.heap.Keys
        invariant (S() == s && left == work) || Less(S(), s)
        decreases Colored(S(), White), Colored(S(), Gray), if pure then 0 else 1, ScanLeft(S()), PhaseLeft(S())
      {
        ghost var t := S();
        var done;
        ghost var act;
        done, act := MarkStep(finals);
        MarkStepLess(t, act);
        LessChain(S(), t, s);
        StepSame(t, act);
        RanOne(s, acts, t, act);
        acts := acts + [act];
        left := if phase == Sweep then 0 else left - done;
      }
    }

    // One turn of the loop of sweep_slice.
    method SweepStep() returns (done: int, ghost act: Action)
      requires Inv(S()) && phase == Sweep
      modifies this
      ensures Enabled(old(S()), act) && IsSweepStep(act) && S() == Apply(old(S()), act)
      ensures if act.EndSweep? then phase == Idle else phase == Sweep && SweepLeft(S()) < SweepLeft(old(S()))
      ensures 0 <= done
    {
      done := 0;
      if sweephp < limit {
        act := SweepOne;
        var hp := sweephp;
        if hp in heap {
          var o := heap[hp];
          done := |o.fields| + 1;
          sweephp := hp + |o.fields| + 1;
          if o.color == White {
            heap := heap - {hp};
          } else if o.color == Black {
            heap := heap[hp := o.(color := White)];
          }
        } else {
          done := 1;
          sweephp := hp + 1;
        }
      } else {
        act := EndSweep;
        phase := Idle;
      }
    }

    // sweep_slice.
    method SweepSlice(work: int) returns (ghost acts: seq<Action>)
      requires Inv(S()) && phase == Sweep
      modifies this
      ensures Inv(S()) && Ran(old(S()), acts, S()) && SweepActs(acts)
      ensures phase == Idle || phase == Sweep
      ensures work > 0 ==> phase == Idle || SweepLeft(S()) < SweepLeft(old(S()))
    {
      hide Inv;
      hide Ran;
      hide Apply;
      hide Enabled;
      hide SweepLeft;
      ghost var s := S();
      var left := work;
      acts := [];
      RanNothing(s);
      while left > 0
        invariant Inv(S()) && Ran(s, acts, S()) && SweepActs(acts)
        invariant phase == Sweep || (phase == Idle && left <= 0)
        invariant phase == Sweep ==> SweepLeft(S()) <= SweepLeft(s)
        invariant left < work ==> phase == Idle || SweepLeft(S()) < SweepLeft(s)
        decreases if phase == Sweep then 1 else 0, SweepLeft(S()), left
      {
        ghost var t := S();
        var done;
        ghost var act;
        done, act := SweepStep();
        RanOne(s, acts, t, act);
        acts := acts + [act];
        left := if phase == Idle then 0 else left - done;
      }
    }

    // caml_finish_major_cycle.  From an idle collector and with nothing to finalise, what is left is
    // exactly what the roots reach, as it was.
    method FinishMajorCycle(order: seq<nat>, finals: seq<nat>) returns (ghost acts: seq<Action>)
      requires Inv(S()) && forall a :: a in finals ==> a in heap
      requires phase == Idle ==> forall a :: a in order <==> a in roots
      modifies this
      ensures Ran(old(S()), acts, S()) && CycleActs(acts, order, finals)
      ensures Inv(S()) && phase == Idle
      ensures old(phase) == Idle && finals == [] ==> heap == old(Restrict(heap, ReachSet(heap, roots)))
    {
      hide Inv;
      hide Ran;
      hide Apply;
      hide Enabled;
      hide SweepLeft;
      hide ReachSet;
      ghost var s := S();
      acts := [];
      RanNothing(s);
      ghost var grows: seq<bool> := [];
      if phase == Idle {
        grows := StartCycle(order);
        RanOne(s, [], s, Start(order, grows));
        assert [] + [Start(order, grows)] == [Start(order, grows)];
        acts := [Start(order, grows)];
      }
      ghost var u, after := S(), [];
      RanNothing(u);
      while phase == Mark
        invariant Inv(S()) && Ran(u, after, S()) && LaterActs(after, finals)
        invariant phase == Mark || phase == Sweep
        invariant phase == Mark ==> heap.Keys == u.heap.Keys
        decreases Colored(S(), White), Colored(S(), Gray), if pure then 0 else 1, ScanLeft(S()), PhaseLeft(S())
      {
        ghost var t := S();
        ghost var more := MarkSlice(LONG_MAX, finals);
        RanJoin(u, after, t, more, S());
        after := after + more;
      }
      while phase == Sweep
        invariant Inv(S()) && Ran(u, after, S()) && LaterActs(after, finals)
        invariant phase == Sweep || phase == Idle
        decreases if phase == Sweep then 1 else 0, SweepLeft(S())
      {
        ghost var t := S();
        ghost var more := SweepSlice(LONG_MAX);
        RanJoin(u, after, t, more, S());
        after := after + more;
      }
      RanJoin(s, acts, u, after, S());
      if s.phase == Idle {
        CycleLeaves(s, order, grows, after, S(), finals);
      }
      acts := acts + after;
    }
  }

  lemma StackRoom(s: State)
    requires Inv(s) && s.phase == Mark
    ensures 2 <= s.size && |s.stack| < s.size
  {
  }

  lemma StartFacts(s: State, order: seq<nat>)
    requires Inv(s) && s.phase == Idle && forall a :: a in order <==> a in s.roots
    ensures DarkenInv(StartSnapshot(s), order, 0)
    ensures forall grows :: Enabled(s, Start(order, grows))
    ensures s.markhp == -1
  {
    SnapshotStart(s, order);
  }

  lemma StartApplied(s: State, order: seq<nat>, grows: seq<bool>)
    requires Inv(s) && s.phase == Idle && forall a :: a in order <==> a in s.roots
    ensures Enabled(s, Start(order, grows))
    ensures Apply(s, Start(order, grows)) ==
      DarkenAll(StartSnapshot(s), order, |order|, grows).(phase := Mark, subphase := Main, markhp := -1)
  {
  }

  lemma FinalFacts(s: State, vals: seq<nat>)
    requires Inv(s) && Enabled(s, FinalUpdate(vals, []))
    ensures DarkenInv(FinalSnapshot(s, vals), vals, 0)
  {
    FinalStart(s, vals);
  }

  lemma PopReady(s: State)
    requires Inv(s) && s.phase == Mark && s.stack != []
    ensures var o := s.stack[|s.stack| - 1];
      && o in s.heap && (forall grows :: Enabled(s, PopOne(grows)))
      && ScanInv(Recolor(s, o, Black).(stack := s.stack[..|s.stack| - 1]), o, s.heap[o].Scan(), 0)
  {
    hide MarkInv;
    hide ScanInv;
    PopStart(s);
  }

  lemma TopInHeap(s: State)
    requires Inv(s) && s.phase == Mark && s.stack != []
    ensures s.stack[|s.stack| - 1] in s.heap
  {
  }

  lemma ScanRoom(s: State, o: nat, fields: seq<Value>, i: nat)
    requires ScanInv(s, o, fields, i)
    ensures 2 <= s.size && |s.stack| < s.size
  {
  }

  lemma ScanNone(s: State, fields: seq<Value>)
    ensures ScanFields(s, fields, 0, []) == s
  {
  }

  lemma ScanNext(s: State, fields: seq<Value>, i: nat, grows: seq<bool>)
    requires i < |fields| && i < |grows|
    ensures ScanFields(s, fields, i + 1, grows) == ScanField(ScanFields(s, fields, i, grows), fields[i], grows[i])
  {
  }

  lemma PopPhase(s: State, grows: seq<bool>)
    requires Inv(s) && Enabled(s, PopOne(grows))
    ensures Apply(s, PopOne(grows)).phase == Mark
  {
    PopKeeps(s, grows);
  }

  lemma FinalPhase(s: State, finals: seq<nat>, grows: seq<bool>)
    requires Inv(s) && Enabled(s, FinalUpdate(finals, grows))
    ensures Apply(s, FinalUpdate(finals, grows)).phase == Mark
  {
    FinalStart(s, finals);
    DarkenAllKeeps(FinalSnapshot(s, finals), finals, grows);
  }

  lemma MarkPointer(s: State)
    requires Inv(s) && s.phase == Mark
    ensures -1 <= s.markhp
  {
  }

  lemma DarkenRoom(s: State, vs: seq<nat>, i: nat)
    requires DarkenInv(s, vs, i)
    ensures 2 <= s.size && |s.stack| < s.size
  {
  }

  lemma DarkenNone(s: State, vs: seq<nat>)
    ensures DarkenAll(s, vs, 0, []) == s
  {
  }

  lemma DarkenNext(s: State, vs: seq<nat>, i: nat, grows: seq<bool>)
    requires i < |vs| && i < |grows|
    ensures DarkenAll(s, vs, i + 1, grows) == Darken(DarkenAll(s, vs, i, grows), Ptr(vs[i]), grows[i])
  {
  }

  lemma SameKeys(s: State, vs: seq<nat>, grows: seq<bool>)
    requires DarkenInv(s, vs, 0)
    ensures DarkenAll(s, vs, |vs|, grows).heap.Keys == s.heap.Keys
  {
    DarkenAllKeeps(s, vs, grows);
  }
}
