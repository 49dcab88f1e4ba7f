// The collector's own steps, and the result over every run.
module MajorCollect {
  import opened Header
  import opened MajorState
  import opened MajorInv
  import opened MajorMark
  import opened MajorActions
  import opened MajorSteps

  // ---- Darkening many values ----

  // The snapshot roots not darkened yet are among vs[i..].
  ghost predicate DarkenInv(s: State, vs: seq<nat>, i: nat) {
    && MarkCore(s) && i <= |vs|
    && (forall j :: 0 <= j < |vs| ==> vs[j] in s.live && vs[j] in s.heap)
    && (forall a :: a in s.snapRoots ==> Dark(s, a) || a in vs[i..])
    && (forall x, t :: Kept(s, x, t))
  }

  lemma DarkenStep(s: State, vs: seq<nat>, i: nat, grow: bool)
    requires DarkenInv(s, vs, i) && i < |vs|
    ensures DarkenInv(Darken(s, Ptr(vs[i]), grow), vs, i + 1)
    ensures SameFields(s, Darken(s, Ptr(vs[i]), grow))
  {
    hide MarkCore;
    hide Darken;
    var v, i' := Ptr(vs[i]), i + 1;
    var u := Darken(s, v, grow);
    DarkenCore(s, v, grow);
    assert vs[i..] == [vs[i]] + vs[i'..];
    forall a | a in u.snapRoots ensures Dark(u, a) || a in vs[i'..] {
      DarkenDark(s, v, grow, a);
    }
    forall x, t ensures Kept(u, x, t) {
      assert Kept(s, x, t);
      CoreTricolor(s);
      DarkenKept(s, v, grow, x, t);
    }
  }

  lemma CoreTricolor(s: State)
    requires MarkCore(s)
    ensures Tricolor(s)
  {
  }

  lemma {:induction false} DarkenSome(s: State, vs: seq<nat>, n: nat, grows: seq<bool>)
    requires DarkenInv(s, vs, 0) && n <= |vs|
    ensures DarkenInv(DarkenAll(s, vs, n, grows), vs, n) && SameFields(s, DarkenAll(s, vs, n, grows))
  {
    hide DarkenInv;
    hide Darken;
    if n > 0 {
      DarkenSome(s, vs, n - 1, grows);
      DarkenStep(DarkenAll(s, vs, n - 1, grows), vs, n - 1, At(grows, n - 1));
    }
  }

  lemma DarkenAllKeeps(s: State, vs: seq<nat>, grows: seq<bool>)
    requires DarkenInv(s, vs, 0)
    ensures MarkInv(DarkenAll(s, vs, |vs|, grows)) && SameFields(s, DarkenAll(s, vs, |vs|, grows))
  {
    hide DarkenInv;
    hide MarkInv;
    hide DarkenAll;
    DarkenSome(s, vs, |vs|, grows);
    DarkenEnd(DarkenAll(s, vs, |vs|, grows), vs);
  }

  lemma DarkenEnd(s: State, vs: seq<nat>)
    requires DarkenInv(s, vs, |vs|)
    ensures MarkInv(s)
  {
  }

  // ---- start_cycle ----

  // Paths in the heap are paths in the part of it that is reachable.
  lemma {:induction false} PathRestrict(heap: map<nat, Obj>, roots: set<nat>, c: set<nat>, p: seq<nat>)
    requires Closed(heap, roots, c) && p != [] && IsPath(heap, roots, p, p[|p| - 1])
    ensures IsPath(Restrict(heap, c), roots, p, p[|p| - 1])
  {
    var r := Restrict(heap, c);
    forall i | 0 <= i < |p| ensures p[i] in c && p[i] in heap {
      PathInside(heap, roots, c, p, i);
    }
    forall i | 0 <= i < |p| - 1 ensures Edge(r, p[i], p[i + 1]) {
      assert Edge(heap, p[i], p[i + 1]);
    }
  }

  lemma ReachRestrict(heap: map<nat, Obj>, roots: set<nat>, c: set<nat>, a: nat)
    requires Closed(heap, roots, c) && Reachable(heap, roots, a)
    ensures Reachable(Restrict(heap, c), roots, a)
  {
    var p :| IsPath(heap, roots, p, a);
    PathRestrict(heap, roots, c, p);
  }

  lemma IdleNoDangling(s: State)
    requires IdleInv(s)
    ensures NoDangling(s.heap) && s.roots <= s.heap.Keys
  {
  }

  lemma SnapshotTricolor(s: State)
    requires IdleInv(s)
    ensures Tricolor(StartSnapshot(s)) && Shape(StartSnapshot(s))
  {
    IdleNoDangling(s);
    ReachSetClosed(s.heap, s.roots);
    var t := StartSnapshot(s);
    forall a | a in t.snap ensures Reachable(t.snap, t.snapRoots, a) {
      ReachRestrict(s.heap, s.roots, t.live, a);
    }
  }

  lemma SnapshotStart(s: State, order: seq<nat>)
    requires IdleInv(s) && forall a :: a in order <==> a in s.roots
    ensures DarkenInv(StartSnapshot(s), order, 0)
  {
    hide Reachable;
    var t := StartSnapshot(s);
    SnapshotTricolor(s);
    forall x, u ensures Kept(t, x, u) {
    }
    forall a | a in order ensures a in t.live && a in t.heap {
      RootLive(t, a);
    }
    assert order[0..] == order;
    forall a ensures Found(t, a) {
    }
  }

  lemma RootLive(t: State, a: nat)
    requires Shape(t) && a in t.roots
    ensures a in t.live && a in t.heap
  {
  }

  lemma StartKeeps(s: State, order: seq<nat>, grows: seq<bool>)
    requires Inv(s) && Enabled(s, Start(order, grows))
    ensures Inv(Apply(s, Start(order, grows)))
  {
    hide MarkInv;
    hide DarkenInv;
    SnapshotStart(s, order);
    DarkenAllKeeps(StartSnapshot(s), order, grows);
    StartPhase(DarkenAll(StartSnapshot(s), order, |order|, grows));
  }

  lemma StartPhase(s: State)
    requires MarkInv(s) && s.markhp == -1
    ensures Inv(s.(phase := Mark, subphase := Main, markhp := -1))
  {
    SameMarking(s.(phase := Mark), s.(phase := Mark, subphase := Main, markhp := -1)) by {
      PhaseMark(s);
    }
  }

  lemma PhaseMark(s: State)
    requires MarkInv(s)
    ensures MarkInv(s.(phase := Mark))
  {
    hide Shape;
    hide Tricolor;
    hide Stacked;
    hide Kept;
    var t := s.(phase := Mark);
    PhaseParts(s);
    forall x, u ensures Kept(t, x, u) {
      assert Kept(s, x, u);
      PhaseKept(s, x, u);
    }
    forall a | a in t.snapRoots ensures Dark(t, a) {
      assert Dark(s, a);
    }
  }

  lemma PhaseKept(s: State, x: nat, u: nat)
    requires Kept(s, x, u)
    ensures Kept(s.(phase := Mark), x, u)
  {
  }

  lemma PhaseParts(s: State)
    requires Shape(s) && Tricolor(s) && Stacked(s)
    ensures var t := s.(phase := Mark); Shape(t) && Tricolor(t) && Stacked(t)
  {
    hide Shape;
    hide NoDangling;
    var t := s.(phase := Mark);
    assert Shape(t) by { PhaseShape(s); }
    forall a ensures Dark(s, a) == Dark(t, a) {
    }
    forall a ensures Found(s, a) == Found(t, a) {
    }
  }

  lemma PhaseShape(s: State)
    requires Shape(s)
    ensures Shape(s.(phase := Mark))
  {
  }

  // ---- Scanning the heap after an overflow ----

  lemma ScanOneStacked(s: State)
    requires Stacked(s) && NoOverlap(s) && s.stack == [] && s.markhp >= 0 && 2 <= s.size
    ensures Stacked(ScanStepState(s))
  {
    var t := ScanStepState(s);
    forall a ensures s.pure ==> Found(t, a) {
      assert s.pure ==> Found(s, a);
    }
  }

  lemma ScanOneKeeps(s: State)
    requires Inv(s) && Enabled(s, ScanOne)
    ensures Inv(Apply(s, ScanOne))
  {
    hide Tricolor;
    hide Stacked;
    hide Shape;
    var t := ScanStepState(s);
    ShapeSize(s);
    ScanOneStacked(s);
    SameGraph(s, t);
  }

  lemma ShapeSize(s: State)
    requires Shape(s)
    ensures 2 <= s.size && NoOverlap(s)
  {
  }

  lemma SameGraph(s: State, t: State)
    requires Shape(s) && Tricolor(s) && RootsDark(s) && forall x, u :: Kept(s, x, u)
    requires t.heap == s.heap && t.live == s.live && t.snap == s.snap && t.snapRoots == s.snapRoots
    requires t.roots == s.roots && t.size == s.size && t.limit == s.limit
    ensures Shape(t) && Tricolor(t) && RootsDark(t) && forall x, u :: Kept(t, x, u)
  {
    forall a ensures Dark(s, a) == Dark(t, a) {
    }
    forall x, u ensures Kept(t, x, u) {
      assert Kept(s, x, u);
    }
  }

  lemma RescanKeeps(s: State)
    requires Inv(s) && Enabled(s, Rescan)
    ensures Inv(Apply(s, Rescan))
  {
    hide Tricolor;
    hide Shape;
    var t := s.(pure := true, markhp := 0);
    SameGraph(s, t);
    forall a ensures Found(t, a) {
    }
  }

  // ---- caml_final_update ----

  lemma FinalReach(s: State, vals: seq<nat>)
    requires MarkInv(s) && forall a :: a in vals ==> a in s.heap
    ensures var t := FinalSnapshot(s, vals);
      Shape(t) && Tricolor(t) && t.live >= s.live && forall a :: a in vals ==> a in t.live
  {
    FinalShape(s, vals);
    FinalTricolor(s, vals);
  }

  lemma FinalShape(s: State, vals: seq<nat>)
    requires MarkInv(s) && forall a :: a in vals ==> a in s.heap
    ensures var t := FinalSnapshot(s, vals); Shape(t) && t.live >= s.live && forall a :: a in vals ==> a in t.live
  {
    hide Reachable;
    var vs := set a | a in vals;
    var t := FinalSnapshot(s, vals);
    var r := ReachSet(s.heap, vs);
    ReachSetClosed(s.heap, vs);
    forall a | a in t.live ensures Inside(t.heap, t.live, a) {
      if a in s.live { assert Inside(s.heap, s.live, a); } else { assert Inside(s.heap, r, a); }
    }
    forall a | a in vals ensures a in t.live {
      assert a in vs;
    }
  }

  lemma FinalTricolor(s: State, vals: seq<nat>)
    requires MarkInv(s) && forall a :: a in vals ==> a in s.heap
    ensures Tricolor(FinalSnapshot(s, vals))
  {
    hide Reachable;
    hide Closed;
    var t := FinalSnapshot(s, vals);
    ReachSetClosed(s.heap, set a | a in vals);
    forall a | a in t.snap ensures Reachable(t.snap, t.snapRoots, a) {
      FinalReachable(s, vals, a);
    }
    forall a | Dark(t, a) ensures a in t.live {
      assert Dark(s, a);
    }
  }

  lemma FinalReachable(s: State, vals: seq<nat>, a: nat)
    requires MarkInv(s) && forall a :: a in vals ==> a in s.heap
    requires a in FinalSnapshot(s, vals).snap
    ensures Reachable(FinalSnapshot(s, vals).snap, FinalSnapshot(s, vals).snapRoots, a)
  {
    if a in s.snap {
      OldReachable(s, vals, a);
    } else {
      NewReachable(s, vals, a);
    }
  }

  lemma OldReachable(s: State, vals: seq<nat>, a: nat)
    requires MarkInv(s) && a in s.snap
    ensures Reachable(FinalSnapshot(s, vals).snap, FinalSnapshot(s, vals).snapRoots, a)
  {
    hide FinalSnapshot;
    var p :| IsPath(s.snap, s.snapRoots, p, a);
    OldPath(s, vals, p, a);
  }

  lemma NewReachable(s: State, vals: seq<nat>, a: nat)
    requires MarkInv(s)
    requires a in FinalSnapshot(s, vals).snap && a !in s.snap
    ensures Reachable(FinalSnapshot(s, vals).snap, FinalSnapshot(s, vals).snapRoots, a)
  {
    hide MarkInv;
    hide Edge;
    var vs := set a | a in vals;
    var t := FinalSnapshot(s, vals);
    var p :| IsPath(s.heap, vs, p, a);
    NewPath(s, vals, p, |p| - 1);
    NewWalkPath(s, vals, p, a);
  }

  lemma NewWalkPath(s: State, vals: seq<nat>, p: seq<nat>, a: nat)
    requires NewWalk(s, vals, p) && p[|p| - 1] == a
    ensures Reachable(FinalSnapshot(s, vals).snap, FinalSnapshot(s, vals).snapRoots, a)
  {
    var t := FinalSnapshot(s, vals);
    forall i | 0 <= i < |p| - 1 ensures Edge(t.snap, p[i], p[i + 1]) {
      NewEdge(s, vals, p, i);
    }
    NewMember(s, vals, p, 0);
    assert p[0] in t.snapRoots;
    assert IsPath(t.snap, t.snapRoots, p, a);
  }

  lemma OldPath(s: State, vals: seq<nat>, p: seq<nat>, a: nat)
    requires MarkInv(s) && IsPath(s.snap, s.snapRoots, p, a)
    ensures IsPath(FinalSnapshot(s, vals).snap, FinalSnapshot(s, vals).snapRoots, p, a)
  {
    hide Reachable;
    var t := FinalSnapshot(s, vals);
    forall x | x in s.snap ensures x in t.snap && t.snap[x] == s.snap[x] {
      SnapLive(s, x);
    }
    forall i | 0 <= i < |p| - 1 ensures Edge(t.snap, p[i], p[i + 1]) {
      assert Edge(s.snap, p[i], p[i + 1]);
    }
  }

  // Blocks that lead to a block outside live are outside live.
  lemma {:induction false} NewPath(s: State, vals: seq<nat>, p: seq<nat>, i: nat)
    requires MarkInv(s) && i < |p| && p[i] in s.heap && p[i] !in s.live
    requires forall j :: 0 <= j < |p| - 1 ==> Edge(s.heap, p[j], p[j + 1])
    ensures forall j :: 0 <= j <= i ==> p[j] in s.heap && p[j] !in s.live
  {
    if i > 0 {
      assert Edge(s.heap, p[i - 1], p[i - 1 + 1]);
      assert p[i - 1] in s.live ==> Inside(s.heap, s.live, p[i - 1]);
      NewPath(s, vals, p, i - 1);
    }
  }

  ghost predicate NewWalk(s: State, vals: seq<nat>, p: seq<nat>) {
    && p != [] && p[0] in vals
    && (forall j :: 0 <= j < |p| ==> p[j] in s.heap && p[j] !in s.live)
    && (forall j :: 0 <= j < |p| - 1 ==> Edge(s.heap, p[j], p[j + 1]))
  }

  lemma NewMember(s: State, vals: seq<nat>, p: seq<nat>, j: nat)
    requires NewWalk(s, vals, p) && j < |p|
    ensures var t := FinalSnapshot(s, vals);
            p[j] in t.snap && t.snap[p[j]] == s.heap[p[j]]
  {
    var vs := set a | a in vals;
    var q := p[..j + 1];
    forall i | 0 <= i < |q| - 1 ensures Edge(s.heap, q[i], q[i + 1]) {
      assert Edge(s.heap, p[i], p[i + 1]);
    }
    assert IsPath(s.heap, vs, q, p[j]);
    assert p[j] in ReachSet(s.heap, vs);
  }

  lemma NewEdge(s: State, vals: seq<nat>, p: seq<nat>, i: nat)
    requires NewWalk(s, vals, p) && i < |p| - 1
    ensures Edge(FinalSnapshot(s, vals).snap, p[i], p[i + 1])
  {
    hide FinalSnapshot;
    NewMember(s, vals, p, i);
    NewMember(s, vals, p, i + 1);
    assert Edge(s.heap, p[i], p[i + 1]);
  }

  lemma FinalKept(s: State, vals: seq<nat>, x: nat, u: nat)
    requires MarkInv(s)
    ensures Kept(FinalSnapshot(s, vals), x, u)
  {
    assert Kept(s, x, u);
    var t := FinalSnapshot(s, vals);
    assert Dark(s, u) == Dark(t, u);
    assert Dark(s, x) ==> x in s.live;
    SnapLive(s, x);
  }

  lemma FinalStart(s: State, vals: seq<nat>)
    requires MarkInv(s) && forall a :: a in vals ==> a in s.heap
    ensures DarkenInv(FinalSnapshot(s, vals), vals, 0)
  {
    hide Shape;
    hide Tricolor;
    hide Kept;
    var t := FinalSnapshot(s, vals);
    FinalReach(s, vals);
    forall x, u ensures Kept(t, x, u) {
      FinalKept(s, vals, x, u);
    }
    assert vals[0..] == vals;
    forall a | a in t.snapRoots ensures Dark(t, a) || a in vals {
      if a in s.snapRoots { assert Dark(s, a); }
    }
    forall a ensures Found(s, a) == Found(t, a) {
    }
  }

  lemma FinalUpdateKeeps(s: State, vals: seq<nat>, grows: seq<bool>)
    requires Inv(s) && Enabled(s, FinalUpdate(vals, grows))
    ensures Inv(Apply(s, FinalUpdate(vals, grows)))
  {
    hide MarkInv;
    hide DarkenInv;
    FinalStart(s, vals);
    DarkenAllKeeps(FinalSnapshot(s, vals), vals, grows);
    NextSubphaseKeeps(DarkenAll(FinalSnapshot(s, vals), vals, |vals|, grows), Final);
  }

  // ---- The hand-over to the sweeper ----

  lemma NotBlue(s: State, a: nat)
    requires MarkInv(s) && a in s.heap
    ensures s.heap[a].color != Blue
  {
    hide Closed;
    hide Stacked;
    hide Tricolor;
    hide RootsDark;
    hide Kept;
  }

  lemma NoGray(s: State, a: nat)
    requires MarkInv(s) && MarkingDone(s) && Dark(s, a)
    ensures s.heap[a].color == Black
  {
    hide Shape;
    hide Tricolor;
    hide RootsDark;
    hide Kept;
    NotBlue(s, a);
    assert Found(s, a);
  }

  lemma SnapStepBlack(s: State, x: nat, y: nat)
    requires MarkInv(s) && MarkingDone(s) && Edge(s.snap, x, y) && x in s.heap && s.heap[x].color == Black
    ensures y in s.heap && s.heap[y].color == Black
  {
    hide Shape;
    hide Stacked;
    hide Tricolor;
    hide RootsDark;
    hide MarkingDone;
    assert Kept(s, x, y);
    NoGray(s, y);
  }

  lemma {:induction false} SnapPathBlack(s: State, p: seq<nat>, i: nat)
    requires MarkInv(s) && MarkingDone(s) && i < |p|
    requires p[0] in s.snapRoots && forall j :: 0 <= j < |p| - 1 ==> Edge(s.snap, p[j], p[j + 1])
    ensures p[i] in s.heap && s.heap[p[i]].color == Black
  {
    hide MarkInv;
    hide MarkingDone;
    hide Edge;
    if i == 0 {
      RootDark(s, p[0]);
      NoGray(s, p[0]);
    } else {
      SnapPathBlack(s, p, i - 1);
      assert Edge(s.snap, p[i - 1], p[i - 1 + 1]);
      SnapStepBlack(s, p[i - 1], p[i]);
    }
  }

  lemma RootDark(s: State, a: nat)
    requires MarkInv(s) && a in s.snapRoots
    ensures Dark(s, a)
  {
    hide Shape;
    hide Stacked;
    hide Tricolor;
    hide Kept;
  }

  lemma SnapBlack(s: State, a: nat)
    requires MarkInv(s) && MarkingDone(s) && a in s.snap
    ensures a in s.heap && s.heap[a].color == Black
  {
    hide MarkInv;
    hide MarkingDone;
    SnapReachable(s, a);
    var p :| IsPath(s.snap, s.snapRoots, p, a);
    SnapPathBlack(s, p, |p| - 1);
  }

  lemma SnapReachable(s: State, a: nat)
    requires MarkInv(s) && a in s.snap
    ensures Reachable(s.snap, s.snapRoots, a)
  {
    hide Reachable;
  }

  // When marking is done, exactly the blocks to keep are black, and the others are white.
  lemma AllMarked(s: State, a: nat)
    requires MarkInv(s) && MarkingDone(s) && a in s.heap
    ensures s.heap[a].color == if a in s.live then Black else White
  {
    hide Reachable;
    if a in s.snap { SnapBlack(s, a); }
    assert Dark(s, a) ==> a in s.live;
  }

  lemma BeginSweepKeeps(s: State)
    requires Inv(s) && Enabled(s, BeginSweep)
    ensures Inv(Apply(s, BeginSweep))
  {
    var t := s.(phase := Sweep, sweephp := 0);
    forall a ensures SweepColor(t, a) {
      if a in s.heap { AllMarked(s, a); }
    }
    forall a | a in t.live ensures Inside(t.heap, t.live, a) {
      assert Inside(s.heap, s.live, a);
    }
  }

  // ---- Sweeping ----

  lemma SweepOneShape(s: State)
    requires SweepInv(s) && s.sweephp < s.limit
    ensures Shape(SweepStepState(s))
  {
    var t := SweepStepState(s);
    assert SweepColor(s, s.sweephp);
    forall a | a in t.live ensures Inside(t.heap, t.live, a) {
      assert Inside(s.heap, s.live, a);
    }
  }

  lemma SweepOneKeeps(s: State)
    requires Inv(s) && Enabled(s, SweepOne)
    ensures Inv(Apply(s, SweepOne))
    ensures s.heap.Keys - Apply(s, SweepOne).heap.Keys <= s.heap.Keys - s.live
  {
    var t := SweepStepState(s);
    SweepOneShape(s);
    assert SweepColor(s, s.sweephp);
    forall a ensures SweepColor(t, a) {
      assert SweepColor(s, a);
    }
  }

  lemma EndSweepKeeps(s: State)
    requires Inv(s) && Enabled(s, EndSweep)
    ensures Inv(Apply(s, EndSweep))
  {
    var t := s.(phase := Idle);
    forall a | a in s.heap ensures a in s.live && s.heap[a].color == White {
      assert SweepColor(s, a);
    }
    forall a | a in t.live ensures Inside(t.heap, t.live, a) {
      assert Inside(s.heap, s.live, a);
    }
  }

  // ---- Over every run ----

  // Every step keeps the invariant.
  lemma ApplyKeeps(s: State, act: Action)
    requires Inv(s) && Enabled(s, act)
    ensures Inv(Apply(s, act))
  {
    hide Inv;
    hide Apply;
    hide Enabled;
    match act
    case Write(o, i, v, grow) => WriteKeeps(s, o, i, v, grow);
    case Alloc(a, tag, fields) => AllocKeeps(s, a, tag, fields);
    case SetRoots(rs) => SetRootsKeeps(s, rs);
    case Expand(more) => ExpandApply(s, more);
    case Start(order, grows) => StartKeeps(s, order, grows);
    case PopOne(grows) => PopApply(s, grows);
    case ScanOne => ScanOneKeeps(s);
    case Rescan => RescanKeeps(s);
    case NextSubphase => NextSubphaseApply(s);
    case FinalUpdate(vals, grows) => FinalUpdateKeeps(s, vals, grows);
    case BeginSweep => BeginSweepKeeps(s);
    case SweepOne => SweepOneKeeps(s);
    case EndSweep => EndSweepKeeps(s);
  }

  lemma ExpandApply(s: State, more: nat)
    requires Inv(s) && Enabled(s, Expand(more))
    ensures Inv(Apply(s, Expand(more)))
  {
    hide Inv;
    ExpandKeeps(s, more);
  }

  lemma NextSubphaseApply(s: State)
    requires Inv(s) && Enabled(s, NextSubphase)
    ensures Inv(Apply(s, NextSubphase))
  {
    hide Inv;
    NextSubphaseKeeps(s, if s.subphase == Main then Weak1 else Weak2);
  }

  lemma PopApply(s: State, grows: seq<bool>)
    requires Inv(s) && Enabled(s, PopOne(grows))
    ensures Inv(Apply(s, PopOne(grows)))
  {
    hide MarkInv;
    hide Pop;
    PopKeeps(s, grows);
  }

  // ---- Results over every run ----

  // All the steps of a run are enabled.
  ghost predicate Allowed(s: State, acts: seq<Action>)
    decreases |acts|
  {
    acts != [] ==> Inv(s) && Enabled(s, acts[0]) && Allowed(Apply(s, acts[0]), acts[1..])
  }

  ghost function Run(s: State, acts: seq<Action>): State
    requires Allowed(s, acts)
    decreases |acts|
  {
    if acts == [] then s else Run(Apply(s, acts[0]), acts[1..])
  }

  // Any number of mutator steps and collector steps, in any order, keep the invariant.
  lemma {:induction false} RunKeeps(s: State, acts: seq<Action>)
    requires Inv(s) && Allowed(s, acts)
    ensures Inv(Run(s, acts))
    decreases |acts|
  {
    hide Inv;
    hide Enabled;
    hide Apply;
    if acts != [] {
      ApplyKeeps(s, acts[0]);
      RunKeeps(Apply(s, acts[0]), acts[1..]);
    }
  }

  // No step frees a reachable block.
  lemma NothingReachableFreed(s: State, act: Action, a: nat)
    requires Inv(s) && Enabled(s, act) && a in s.heap && Reachable(s.heap, s.roots, a)
    ensures a in Apply(s, act).heap
  {
    hide Reachable;
    hide Inv;
    hide Enabled;
    hide Apply;
    ShapeOf(s);
    ReachableInside(s.heap, s.roots, s.live, a);
    match act {
      case SweepOne => SweepLeaves(s, a);
      case PopOne(grows) => PopLeaves(s, grows, a);
      case Start(order, grows) => StartLeaves(s, order, grows, a);
      case FinalUpdate(vals, grows) => FinalLeaves(s, vals, grows, a);
      case _ => OtherLeaves(s, act, a);
    }
  }

  lemma SweepLeaves(s: State, a: nat)
    requires Inv(s) && Enabled(s, SweepOne) && a in s.heap && a in s.live
    ensures a in Apply(s, SweepOne).heap
  {
    SweepOneKeeps(s);
  }

  lemma PopLeaves(s: State, grows: seq<bool>, a: nat)
    requires Inv(s) && Enabled(s, PopOne(grows)) && a in s.heap
    ensures a in Apply(s, PopOne(grows)).heap
  {
    PopKeeps(s, grows);
  }

  lemma StartLeaves(s: State, order: seq<nat>, grows: seq<bool>, a: nat)
    requires Inv(s) && Enabled(s, Start(order, grows)) && a in s.heap
    ensures a in Apply(s, Start(order, grows)).heap
  {
    SnapshotStart(s, order);
    DarkenAllKeeps(StartSnapshot(s), order, grows);
  }

  lemma FinalLeaves(s: State, vals: seq<nat>, grows: seq<bool>, a: nat)
    requires Inv(s) && Enabled(s, FinalUpdate(vals, grows)) && a in s.heap
    ensures a in Apply(s, FinalUpdate(vals, grows)).heap
  {
    FinalStart(s, vals);
    DarkenAllKeeps(FinalSnapshot(s, vals), vals, grows);
  }

  lemma OtherLeaves(s: State, act: Action, a: nat)
    requires Inv(s) && Enabled(s, act) && a in s.heap
    requires !act.SweepOne? && !act.PopOne? && !act.Start? && !act.FinalUpdate?
    ensures a in Apply(s, act).heap
  {
    hide Inv;
    hide Reachable;
    hide DarkenAll;
    hide Pop;
    hide SweepStepState;
  }

  // After any run, the next step frees no reachable block.
  lemma RunSafe(s: State, acts: seq<Action>, act: Action, a: nat)
    requires Inv(s) && Allowed(s, acts) && Enabled(Run(s, acts), act)
    requires var t := Run(s, acts); a in t.heap && Reachable(t.heap, t.roots, a)
    ensures Inv(Run(s, acts)) && a in Apply(Run(s, acts), act).heap
  {
    hide Inv;
    hide Enabled;
    hide Apply;
    hide Reachable;
    RunKeeps(s, acts);
    NothingReachableFreed(Run(s, acts), act, a);
  }

  lemma {:induction false} RunSnoc(s: State, acts: seq<Action>, act: Action)
    requires Allowed(s, acts) && Inv(Run(s, acts)) && Enabled(Run(s, acts), act)
    ensures Allowed(s, acts + [act]) && Run(s, acts + [act]) == Apply(Run(s, acts), act)
    decreases |acts|
  {
    hide Inv;
    hide Enabled;
    hide Apply;
    var more := acts + [act];
    if acts == [] {
      assert more[1..] == [];
      assert Allowed(Apply(s, act), []);
    } else {
      assert more[1..] == acts[1..] + [act];
      RunSnoc(Apply(s, acts[0]), acts[1..], act);
    }
  }

  // The blocks allocated by a run.
  ghost function Allocated(acts: seq<Action>): set<nat> {
    set act | act in acts && act.Alloc? :: act.a
  }

  ghost predicate NoStart(acts: seq<Action>) {
    forall act :: act in acts ==> !act.Start?
  }

  lemma LiveGrows(s: State, act: Action)
    requires Inv(s) && Enabled(s, act) && !act.Start?
    ensures s.live <= Apply(s, act).live
    ensures act.Alloc? ==> act.a in Apply(s, act).live
    ensures !(act.FinalUpdate? && act.vals != []) ==> Apply(s, act).live <= s.live + Allocated([act])
  {
    match act {
      case PopOne(grows) => PopKeeps(s, grows);
      case Write(o, i, v, grow) =>
        ShapeOf(s);
        PointableLive(s, v);
        PointableLive(s, Ptr(o));
        if s.phase == Mark { WriteMark(s, o, i, v, grow); }
      case FinalUpdate(vals, grows) =>
        FinalStart(s, vals);
        DarkenAllKeeps(FinalSnapshot(s, vals), vals, grows);
        if vals == [] { NoRevival(s); }
      case _ =>
    }
  }

  lemma NoRevival(s: State)
    ensures FinalSnapshot(s, []).live == s.live
  {
    assert (set a: nat | a in []) == {};
    forall a: nat ensures a !in ReachSet(s.heap, {}) {
    }
  }

  lemma {:induction false} RunLive(s: State, acts: seq<Action>)
    requires Inv(s) && Allowed(s, acts) && NoStart(acts)
    ensures s.live + Allocated(acts) <= Run(s, acts).live
    ensures (forall act :: act in acts && act.FinalUpdate? ==> act.vals == []) ==>
              Run(s, acts).live <= s.live + Allocated(acts)
    decreases |acts|
  {
    hide Inv;
    hide Enabled;
    hide Apply;
    if acts != [] {
      var t := Apply(s, acts[0]);
      assert acts == [acts[0]] + acts[1..];
      assert Allocated(acts) == Allocated([acts[0]]) + Allocated(acts[1..]);
      LiveGrows(s, acts[0]);
      ApplyKeeps(s, acts[0]);
      RunLive(t, acts[1..]);
    }
  }

  lemma StartLive(s: State, order: seq<nat>, grows: seq<bool>)
    requires Inv(s) && Enabled(s, Start(order, grows))
    ensures Apply(s, Start(order, grows)).live == ReachSet(s.heap, s.roots)
  {
    hide ReachSet;
    hide DarkenInv;
    SnapshotStart(s, order);
    DarkenAllKeeps(StartSnapshot(s), order, grows);
  }

  // At the hand-over to the sweeper, what was reachable when the cycle started and what has been
  // allocated since is black, and whatever is not to be kept is white.
  lemma HandOver(s: State, order: seq<nat>, grows: seq<bool>, acts: seq<Action>, a: nat)
    requires Inv(s) && Enabled(s, Start(order, grows)) && NoStart(acts)
    requires Inv(Apply(s, Start(order, grows))) && Allowed(Apply(s, Start(order, grows)), acts)
    requires var t := Run(Apply(s, Start(order, grows)), acts);
             Enabled(t, BeginSweep) && (a in ReachSet(s.heap, s.roots) || a in Allocated(acts))
    ensures var t := Run(Apply(s, Start(order, grows)), acts);
            a in t.heap && t.heap[a].color == Black
  {
    hide ReachSet;
    hide Apply;
    var u := Apply(s, Start(order, grows));
    var t := Run(u, acts);
    StartLive(s, order, grows);
    RunLive(u, acts);
    RunKeeps(u, acts);
    LiveInHeap(t, a);
    AllMarked(t, a);
  }

  // When a cycle that revives no finalisable value ends, only such blocks are left.
  lemma CycleFrees(s: State, order: seq<nat>, grows: seq<bool>, acts: seq<Action>)
    requires Inv(s) && Enabled(s, Start(order, grows)) && NoStart(acts)
    requires forall act :: act in acts && act.FinalUpdate? ==> act.vals == []
    requires Inv(Apply(s, Start(order, grows))) && Allowed(Apply(s, Start(order, grows)), acts)
    requires Run(Apply(s, Start(order, grows)), acts).phase == Idle
    ensures Run(Apply(s, Start(order, grows)), acts).heap.Keys == ReachSet(s.heap, s.roots) + Allocated(acts)
  {
    hide ReachSet;
    hide Apply;
    var u := Apply(s, Start(order, grows));
    StartLive(s, order, grows);
    RunLive(u, acts);
    RunKeeps(u, acts);
  }
}
