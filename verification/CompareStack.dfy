// compare.c: compare_val, with its own stack instead of recursion, and what the comparisons make of it.
module CompareStack {
  import opened Header
  import opened CompareOrder
  import opened CompareMeaning

  const COMPARE_STACK_INIT_SIZE: nat := 256
  const COMPARE_STACK_MAX_SIZE: nat := 1024 * 1024

  // Where the fields that are still to be compared begin, and how many they are.
  datatype Item = Item(a1: Address, i1: nat, a2: Address, i2: nat, count: nat)

  // What a test answers, or raises.
  datatype Result = Bool(b: bool) | Raised(o: Outcome)

  function SignOf(r: Outcome): Outcome {
    if r.Cmp? then Cmp(if r.n < 0 then LESS else if r.n > 0 then GREATER else 0) else r
  }

  // What to do with two values: answer, go on with the next item, with others, or with their fields.
  datatype Step = Return(r: Outcome) | Next | Again(v1: Value, v2: Value) | Down(size: nat)

  // How many items the stack needs: one for each block around that has more fields to come.
  function Height(t: Tree): nat {
    match t
    case Fwd(_, target) => Height(target)
    case Blk(_, _, kids) => HeightAll(kids)
    case _ => 0
  }

  function HeightAll(k: seq<Tree>): nat {
    if k == [] then 0
    else if |k| == 1 then Height(k[0])
    else var (a, b) := (1 + Height(k[0]), HeightAll(k[1..])); if a > b then a else b
  }

  // ---- What is on the stack ----

  // The fields of item it lead to the trees k and l.
  ghost predicate ItemOk(h: map<int, Obj>, it: Item, k: seq<Tree>, l: seq<Tree>) {
    && |k| == |l| == it.count >= 1
    && it.a1 in h && h[it.a1].Fields? && it.i1 + it.count == |h[it.a1].f|
    && it.a2 in h && h[it.a2].Fields? && it.i2 + it.count == |h[it.a2].f|
    && (forall i :: 0 <= i < it.count ==> Denotes(h, h[it.a1].f[it.i1 + i], k[i]))
    && (forall i :: 0 <= i < it.count ==> Denotes(h, h[it.a2].f[it.i2 + i], l[i]))
  }

  // The pairs of trees that the stack holds, from the bottom, and how high it may get.
  ghost predicate StackOk(h: map<int, Obj>, s: seq<Item>, ks: seq<seq<Tree>>, ls: seq<seq<Tree>>, top: nat) {
    && |ks| == |ls| == |s|
    && forall j :: 0 <= j < |s| ==> ItemOk(h, s[j], ks[j], ls[j]) && j + HeightAll(ks[j]) <= top
  }

  ghost predicate SameLengths(ks: seq<seq<Tree>>, ls: seq<seq<Tree>>) {
    |ks| == |ls| && forall j :: 0 <= j < |ks| ==> |ks[j]| == |ls[j]| >= 1
  }

  // What the comparison of all pairs on the stack answers, the topmost first.
  ghost function Rest(ks: seq<seq<Tree>>, ls: seq<seq<Tree>>, total: bool): Outcome
    requires SameLengths(ks, ls)
  {
    if ks == [] then Cmp(0)
    else
      var n := |ks| - 1;
      Then(CompareAll(ks[n], ls[n], total), Rest(ks[..n], ls[..n], total))
  }

  // The stack without its next pair.
  ghost function ListsLeft(ks: seq<seq<Tree>>): seq<seq<Tree>>
    requires ks != [] && ks[|ks| - 1] != []
  {
    var n := |ks| - 1;
    if |ks[n]| == 1 then ks[..n] else ks[..n] + [ks[n][1..]]
  }

  ghost function Sizes(t: Tree): (n: nat)
    ensures n >= 1
  {
    match t
    case Fwd(_, target) => 1 + Sizes(target)
    case Blk(_, _, kids) => 1 + SizesAll(kids)
    case _ => 1
  }

  ghost function SizesAll(k: seq<Tree>): nat {
    if k == [] then 0 else Sizes(k[0]) + SizesAll(k[1..])
  }

  ghost function Left(ks: seq<seq<Tree>>): nat {
    if ks == [] then 0 else SizesAll(ks[|ks| - 1]) + Left(ks[..|ks| - 1])
  }

  function TagAt(h: map<int, Obj>, a: int): nat
    requires a in h
  {
    match h[a]
    case Bytes(_) => STRING_TAG
    case Custom(_, _) => CUSTOM_TAG
    case Fields(tag, _) => tag
  }

  class Comparer {
    const h: map<int, Obj>
    const room: nat -> bool             // is there memory for a stack of this size?
    const init: array<Item>             // compare_stack_init
    var stack: array<Item>

    ghost predicate Valid()
      reads this
    {
      init.Length == COMPARE_STACK_INIT_SIZE <= stack.Length
    }

    constructor (h: map<int, Obj>, room: nat -> bool)
      ensures Valid() && stack == init && fresh(init) && this.h == h && this.room == room
    {
      this.h, this.room := h, room;
      init := new Item[COMPARE_STACK_INIT_SIZE](_ => Item(0, 0, 0, 0, 0));
      new;
      stack := init;
    }

    // compare_free_stack
    method FreeStack()
      requires Valid()
      modifies `stack
      ensures Valid() && stack == init
    {
      stack := init;
    }

    // compare_resize_stack
    method ResizeStack() returns (ok: bool)
      requires Valid()
      modifies `stack
      ensures Valid()
      ensures ok <==> 2 * old(stack.Length) < COMPARE_STACK_MAX_SIZE && room(2 * old(stack.Length))
      ensures ok ==> fresh(stack) && stack.Length == 2 * old(stack.Length)
      ensures ok ==> stack[..old(stack.Length)] == old(stack[..])
      ensures !ok ==> stack == init && Stuck(old(stack.Length))
    {
      var newSize := 2 * stack.Length;
      if newSize >= COMPARE_STACK_MAX_SIZE || !room(newSize) {
        FreeStack();
        return false;
      }
      var newStack := new Item[newSize](_ => Item(0, 0, 0, 0, 0));
      for i := 0 to stack.Length
        invariant stack == old(stack) && stack[..] == old(stack[..]) && newStack[..i] == old(stack[..i])
      {
        newStack[i] := stack[i];
      }
      stack := newStack;
      ok := true;
    }

    // The bytes of two strings.
    method CompareStrings(s: seq<nat>, t: seq<nat>) returns (n: int)
      ensures n == CompareBytes(s, t)
    {
      var len, i := if |s| <= |t| then |s| else |t|, 0;
      while i < len
        invariant i <= len && CompareBytes(s[i..], t[i..]) == CompareBytes(s, t)
      {
        if s[i] != t[i] { return (s[i] as int) - (t[i] as int); }
        i := i + 1;
      }
      n := |s| - |t|;
    }

    // One turn of the loop of compare_val, up to next_item.
    method Look(v1: Value, v2: Value, total: bool, ghost t1: Tree, ghost t2: Tree)
      returns (s: Step, ghost u1: Tree, ghost u2: Tree)
      requires Both(h, v1, t1, v2, t2)
      ensures StepOk(h, t1, t2, total, s, u1, u2)
    {
      u1, u2 := t1, t2;
      RootIs(h, v1, t1, v2, t2);
      if v1 == v2 && total { return Next, u1, u2; }
      if v1.Imm? {
        if v1 == v2 { return Next, u1, u2; }
        if v2.Imm? { return Return(Cmp(v1.n - v2.n)), u1, u2; }
        if v2.a in h && TagAt(h, v2.a) == FORWARD_TAG { return Again(v1, h[v2.a].f[0]), t1, t2.target; }
        return Return(Cmp(LESS)), u1, u2;
      }
      if v2.Imm? {
        if v1.a in h && TagAt(h, v1.a) == FORWARD_TAG { return Again(h[v1.a].f[0], v2), t1.target, t2; }
        return Return(Cmp(GREATER)), u1, u2;
      }
      if v1.a !in h || v2.a !in h {
        if v1 == v2 { return Next, u1, u2; }
        return Return(Cmp(v1.a / 2 - v2.a / 2)), u1, u2;
      }
      if TagAt(h, v1.a) == FORWARD_TAG { return Again(h[v1.a].f[0], v2), t1.target, t2; }
      if TagAt(h, v2.a) == FORWARD_TAG { return Again(v1, h[v2.a].f[0]), t1, t2.target; }
      if TagAt(h, v1.a) != TagAt(h, v2.a) { return Return(Cmp(TagAt(h, v1.a) - TagAt(h, v2.a))), u1, u2; }
      s := SameTagged(v1.a, v2.a, total, t1, t2);
    }

    // The switch of compare_val.
    method SameTagged(a1: Address, a2: Address, total: bool, ghost t1: Tree, ghost t2: Tree) returns (s: Step)
      requires Both(h, Ptr(a1), t1, Ptr(a2), t2) && a1 in h && a2 in h && TagAt(h, a1) == TagAt(h, a2)
      requires TagOf(t1) == TagOf(t2)
      requires !t1.Fwd? && !t2.Fwd? && !(total && a1 == a2)
      ensures StepOk(h, t1, t2, total, s, t1, t2)
    {
      var tag := TagAt(h, a1);
      if tag == STRING_TAG {
        if a1 == a2 {
          BytesEqual(t1.bytes);
          return Next;
        }
        var n := CompareStrings(h[a1].b, h[a2].b);
        s := if n != 0 then Return(Cmp(n)) else Next;
      } else if tag == ABSTRACT_TAG {
        s := Return(Abstract);
      } else if tag == CUSTOM_TAG {
        if !h[a1].compares { return Return(Abstract); }
        var res := CompareNumbers(h[a1].n, h[a2].n);
        s := if res != 0 then Return(Cmp(res)) else Next;
      } else if tag == CLOSURE_TAG || tag == INFIX_TAG {
        s := Return(Functional);
      } else if tag == OBJECT_TAG {
        var oid1, oid2 := h[a1].f[1].n, h[a2].f[1].n;
        s := if oid1 != oid2 then Return(Cmp(oid1 - oid2)) else Next;
      } else {
        var sz1, sz2 := |h[a1].f|, |h[a2].f|;
        if sz1 != sz2 { return Return(Cmp(sz1 - sz2)); }
        assert sz1 == 0 ==> CompareAll(t1.kids, t2.kids, total) == Cmp(0);
        s := if sz1 == 0 then Next else Down(sz1);
      }
    }

    // Remember that all fields but the first are still to be compared.
    method Push(sp0: nat, a1: Address, a2: Address, n: nat, ghost ks: seq<seq<Tree>>, ghost ls: seq<seq<Tree>>,
                ghost k: seq<Tree>, ghost l: seq<Tree>, ghost top: nat) returns (sp: nat, ok: bool)
      requires Valid() && sp0 < stack.Length && StackOk(h, stack[1..sp0 + 1], ks, ls, top)
      requires ItemOk(h, Item(a1, 1, a2, 1, n), k, l) && sp0 + 1 + HeightAll(k) <= top + 1
      modifies `stack, stack
      ensures Valid() && (stack == old(stack) || stack == init || fresh(stack))
      ensures ok ==> sp == sp0 + 1 < stack.Length && StackOk(h, stack[1..sp + 1], ks + [k], ls + [l], top)
      ensures !ok ==> stack == init && Exhausted(sp0 + 1)
    {
      hide ItemOk;
      ghost var items := stack[1..sp0 + 1];
      sp, ok := sp0 + 1, true;
      if sp >= stack.Length {
        ok := ResizeStack();
        if !ok { return; }
      }
      assert stack[1..sp0 + 1] == items;
      stack[sp] := Item(a1, 1, a2, 1, n);
      assert stack[1..sp + 1] == items + [Item(a1, 1, a2, 1, n)];
    }

    // next_item, when there is one.
    method Pop(sp0: nat, ghost ks: seq<seq<Tree>>, ghost ls: seq<seq<Tree>>, ghost top: nat)
      returns (v1: Value, v2: Value, sp: nat, ghost k: seq<Tree>, ghost l: seq<Tree>)
      requires Valid() && 0 < sp0 < stack.Length && StackOk(h, stack[1..sp0 + 1], ks, ls, top)
      modifies stack
      ensures k == ks[sp0 - 1] && l == ls[sp0 - 1] && |k| == |l| >= 1 && Both(h, v1, k[0], v2, l[0])
      ensures sp == if |k| == 1 then sp0 - 1 else sp0
      ensures sp + Height(k[0]) <= top && sp < stack.Length
      ensures StackOk(h, stack[1..sp + 1], ListsLeft(ks), ListsLeft(ls), top)
    {
      hide ItemOk;
      hide StackOk;
      hide ListsLeft;
      hide Height;
      ghost var items := stack[1..sp0 + 1];
      TopItem(h, items, ks, ls, top);
      k, l, sp := ks[sp0 - 1], ls[sp0 - 1], sp0;
      var it := stack[sp];
      assert it == items[sp0 - 1];
      v1, v2 := h[it.a1].f[it.i1], h[it.a2].f[it.i2];
      stack[sp] := Item(it.a1, it.i1 + 1, it.a2, it.i2 + 1, it.count - 1);
      assert stack[1..sp] == items[..sp0 - 1];
      if it.count == 1 {
        sp := sp - 1;
        assert stack[1..sp + 1] == items[..sp] + [];
      } else {
        assert stack[1..sp + 1] == items[..sp0 - 1] + [stack[sp]];
      }
    }

    // Continue comparison with first field.
    method Descend(v1: Value, v2: Value, n: nat, sp0: nat, total: bool, ghost t1: Tree, ghost t2: Tree,
                   ghost ks0: seq<seq<Tree>>, ghost ls0: seq<seq<Tree>>, ghost top: nat)
      returns (x1: Value, x2: Value, sp: nat, ok: bool, ghost ks: seq<seq<Tree>>, ghost ls: seq<seq<Tree>>)
      requires Valid() && sp0 < stack.Length && Both(h, v1, t1, v2, t2)
      requires t1.Blk? && t2.Blk? && |t1.kids| == |t2.kids| == n >= 1
      requires StackOk(h, stack[1..sp0 + 1], ks0, ls0, top) && sp0 + Height(t1) <= top && |ks0| == |ls0| == sp0
      requires SameLengths(ks0, ls0)
      modifies `stack, stack
      ensures Valid() && (stack == old(stack) || stack == init || fresh(stack))
      ensures !ok ==> stack == init && Exhausted(top)
      ensures ok ==> sp < stack.Length && Both(h, x1, t1.kids[0], x2, t2.kids[0])
      ensures ok ==> StackOk(h, stack[1..sp + 1], ks, ls, top) && sp + Height(t1.kids[0]) <= top && |ks| == |ls| == sp
      ensures ok ==> SameLengths(ks, ls)
      ensures var all := Then(CompareAll(t1.kids, t2.kids, total), Rest(ks0, ls0, total));
        ok ==> all == Then(Compare(t1.kids[0], t2.kids[0], total), Rest(ks, ls, total))
      ensures ok ==> Sizes(t1) + Left(ks0) > Sizes(t1.kids[0]) + Left(ks)
      ensures ok ==> Sizes(t2) + Left(ls0) > Sizes(t2.kids[0]) + Left(ls)
    {
      hide StackOk;
      hide SameLengths;
      hide Rest;
      hide Left;
      hide ItemOk;
      hide Compare;
      hide CompareAll;
      hide Height;
      hide HeightAll;
      hide Sizes;
      hide SizesAll;
      DownFacts(h, v1, v2, t1, t2, ks0, ls0);
      sp, ok, ks, ls := sp0, true, ks0, ls0;
      if n > 1 {
        DownOk(h, v1.a, v2.a, t1, t2, ks, ls, total);
        sp, ok := Push(sp, v1.a, v2.a, n - 1, ks, ls, t1.kids[1..], t2.kids[1..], top);
        ks, ls := ks + [t1.kids[1..]], ls + [t2.kids[1..]];
      } else {
        OnlyKid(t1, t2, total);
      }
      x1, x2 := h[v1.a].f[0], h[v2.a].f[0];
    }

    // compare_val.  t and u are the values with all they lead to.
    method CompareVal(w1: Value, w2: Value, total: bool, ghost t: Tree, ghost u: Tree) returns (r: Outcome)
      requires Valid() && stack == init && Both(h, w1, t, w2, u)
      modifies this, init
      ensures Valid() && (r.Cmp? || stack == init)
      ensures r == Compare(t, u, total) || (r == NoMemory && Exhausted(Height(t)))
    {
      hide StackOk;
      hide SameLengths;
      hide Rest;
      hide Left;
      hide ListsLeft;
      hide ItemOk;
      hide Compare;
      hide CompareAll;
      hide Height;
      hide HeightAll;
      hide Sizes;
      hide SizesAll;
      var v1, v2 := w1, w2;
      var sp: nat := 0;
      ghost var t1, t2 := t, u;
      ghost var ks: seq<seq<Tree>>, ls: seq<seq<Tree>> := [], [];
      ghost var top := Height(t);
      NothingStacked(h, stack[1..sp + 1], top, total);
      while true
        invariant Valid() && (stack == init || fresh(stack)) && sp < stack.Length && Both(h, v1, t1, v2, t2)
        invariant StackOk(h, stack[1..sp + 1], ks, ls, top) && sp + Height(t1) <= top && |ks| == |ls| == sp
        invariant SameLengths(ks, ls)
        invariant Compare(t, u, total) == Then(Compare(t1, t2, total), Rest(ks, ls, total))
        decreases Sizes(t1) + Sizes(t2) + Left(ks) + Left(ls)
      {
        var s, u1, u2 := Look(v1, v2, total, t1, t2);
        match s {
          case Return(o) =>
            if !o.Cmp? { FreeStack(); }
            return o;
          case Again(x1, x2) =>
            v1, v2, t1, t2 := x1, x2, u1, u2;
          case Down(n) =>
            var ok;
            v1, v2, sp, ok, ks, ls := Descend(v1, v2, n, sp, total, t1, t2, ks, ls, top);
            if !ok { return NoMemory; }
            t1, t2 := t1.kids[0], t2.kids[0];
          case Next =>
            if sp == 0 { return Cmp(0); }
            ghost var k, l;
            NextOk(ks, ls, total);
            v1, v2, sp, k, l := Pop(sp, ks, ls, top);
            t1, t2 := k[0], l[0];
            ks, ls := ListsLeft(ks), ListsLeft(ls);
        }
      }
    }

    // caml_compare
    method CompareTotal(v1: Value, v2: Value, ghost t: Tree, ghost u: Tree) returns (r: Outcome)
      requires Valid() && stack == init && Both(h, v1, t, v2, u)
      modifies this, init
      ensures Valid() && stack == init
      ensures (r == NoMemory && Exhausted(Height(t))) || r == SignOf(Compare(t, u, true))
      ensures Closed(t) && Closed(u) && r != NoMemory && Order(Structure(t), Structure(u)).Cmp? ==>
        r == SignOf(Order(Structure(t), Structure(u)))
    {
      if Closed(t) && Closed(u) {
        ByStructure(h, v1, t, v2, u);
        if Compare(t, u, false).Cmp? { Shortcut(h, v1, t, v2, u); }
      }
      r := CompareVal(v1, v2, true, t, u);
      FreeStack();
      if r.Cmp? { r := Cmp(if r.n < 0 then LESS else if r.n > 0 then GREATER else 0); }
    }

    // What raises: a value that cannot be compared, or no more room for the stack.
    ghost predicate Told(r: Result, t: Tree, u: Tree) {
      if r.Bool? then Compare(t, u, false).Cmp?
      else (r.o == Compare(t, u, false) && !r.o.Cmp?) || (r.o == NoMemory && Exhausted(Height(t)))
    }

    // caml_equal
    method Equal(v1: Value, v2: Value, ghost t: Tree, ghost u: Tree) returns (r: Result)
      requires Valid() && stack == init && Both(h, v1, t, v2, u) && Fits(t) && Fits(u)
      modifies this, init
      ensures Valid() && stack == init && Told(r, t, u)
      ensures r.Bool? ==> (r.b <==> Compare(t, u, false) == Cmp(0))
    {
      hide Denotes;
      NeverUnordered(t, u, false);
      var res := CompareVal(v1, v2, false, t, u);
      FreeStack();
      r := if res.Cmp? then Bool(res.n == 0) else Raised(res);
    }

    // caml_notequal
    method NotEqual(v1: Value, v2: Value, ghost t: Tree, ghost u: Tree) returns (r: Result)
      requires Valid() && stack == init && Both(h, v1, t, v2, u) && Fits(t) && Fits(u)
      modifies this, init
      ensures Valid() && stack == init && Told(r, t, u)
      ensures r.Bool? ==> (r.b <==> Compare(t, u, false) != Cmp(0))
    {
      hide Denotes;
      NeverUnordered(t, u, false);
      var res := CompareVal(v1, v2, false, t, u);
      FreeStack();
      r := if res.Cmp? then Bool(res.n != 0) else Raised(res);
    }

    // caml_lessthan
    method LessThan(v1: Value, v2: Value, ghost t: Tree, ghost u: Tree) returns (r: Result)
      requires Valid() && stack == init && Both(h, v1, t, v2, u) && Fits(t) && Fits(u)
      modifies this, init
      ensures Valid() && stack == init && Told(r, t, u)
      ensures r.Bool? ==> (r.b <==> Compare(t, u, false).n < 0)
    {
      hide Denotes;
      NeverUnordered(t, u, false);
      var res := CompareVal(v1, v2, false, t, u);
      FreeStack();
      r := if res.Cmp? then Bool(res.n < 0 && res.n != MIN_INT) else Raised(res);
    }

    // caml_lessequal
    method LessEqual(v1: Value, v2: Value, ghost t: Tree, ghost u: Tree) returns (r: Result)
      requires Valid() && stack == init && Both(h, v1, t, v2, u) && Fits(t) && Fits(u)
      modifies this, init
      ensures Valid() && stack == init && Told(r, t, u)
      ensures r.Bool? ==> (r.b <==> Compare(t, u, false).n <= 0)
    {
      hide Denotes;
      NeverUnordered(t, u, false);
      var res := CompareVal(v1, v2, false, t, u);
      FreeStack();
      r := if res.Cmp? then Bool(res.n <= 0 && res.n != MIN_INT) else Raised(res);
    }

    // caml_greaterthan
    method GreaterThan(v1: Value, v2: Value, ghost t: Tree, ghost u: Tree) returns (r: Result)
      requires Valid() && stack == init && Both(h, v1, t, v2, u) && Fits(t) && Fits(u)
      modifies this, init
      ensures Valid() && stack == init && Told(r, t, u)
      ensures r.Bool? ==> (r.b <==> Compare(t, u, false).n > 0)
    {
      hide Denotes;
      NeverUnordered(t, u, false);
      var res := CompareVal(v1, v2, false, t, u);
      FreeStack();
      r := if res.Cmp? then Bool(res.n > 0) else Raised(res);
    }

    // caml_greaterequal
    method GreaterEqual(v1: Value, v2: Value, ghost t: Tree, ghost u: Tree) returns (r: Result)
      requires Valid() && stack == init && Both(h, v1, t, v2, u) && Fits(t) && Fits(u)
      modifies this, init
      ensures Valid() && stack == init && Told(r, t, u)
      ensures r.Bool? ==> (r.b <==> Compare(t, u, false).n >= 0)
    {
      hide Denotes;
      NeverUnordered(t, u, false);
      var res := CompareVal(v1, v2, false, t, u);
      FreeStack();
      r := if res.Cmp? then Bool(res.n >= 0) else Raised(res);
    }

    // A stack of this size cannot grow.
    ghost predicate Stuck(size: nat) {
      2 * size >= COMPARE_STACK_MAX_SIZE || !room(2 * size)
    }

    // A stack that n items do not fit could not grow.
    ghost predicate Exhausted(n: nat) {
      exists size: nat :: COMPARE_STACK_INIT_SIZE <= size <= n && Stuck(size)
    }
  }

  // The step is right for these two trees.
  ghost predicate StepOk(h: map<int, Obj>, t1: Tree, t2: Tree, total: bool, s: Step, u1: Tree, u2: Tree) {
    match s
    case Return(r) => r == Compare(t1, t2, total) && r != Cmp(0) && r != NoMemory
    case Next => Compare(t1, t2, total) == Cmp(0)
    case Again(v1, v2) =>
      && Both(h, v1, u1, v2, u2) && Compare(t1, t2, total) == Compare(u1, u2, total)
      && Height(u1) == Height(t1) && Sizes(u1) + Sizes(u2) < Sizes(t1) + Sizes(t2)
    case Down(n) =>
      && t1.Blk? && t2.Blk? && |t1.kids| == |t2.kids| == n >= 1
      && Compare(t1, t2, total) == CompareAll(t1.kids, t2.kids, total)
  }

  lemma LeftSnoc(ks: seq<seq<Tree>>, k: seq<Tree>)
    ensures Left(ks + [k]) == SizesAll(k) + Left(ks)
  {
    assert (ks + [k])[..|ks|] == ks;
  }

  lemma LeftPush(ks: seq<seq<Tree>>, kids: seq<Tree>)
    requires kids != []
    ensures SizesAll(kids) + Left(ks) == Sizes(kids[0]) + Left(ks + [kids[1..]])
    ensures |kids| == 1 ==> SizesAll(kids) == Sizes(kids[0])
  {
    LeftSnoc(ks, kids[1..]);
    if |kids| == 1 { assert SizesAll(kids[1..]) == 0; }
  }

  lemma LeftTop(ks: seq<seq<Tree>>)
    requires ks != [] && ks[|ks| - 1] != []
    ensures Left(ks) == Sizes(ks[|ks| - 1][0]) + Left(ListsLeft(ks))
  {
    var n := |ks| - 1;
    LeftSnoc(ks[..n], ks[n][1..]);
    if |ks[n]| == 1 { assert SizesAll(ks[n][1..]) == 0; }
  }

  lemma NothingStacked(h: map<int, Obj>, s: seq<Item>, top: nat, total: bool)
    requires s == []
    ensures StackOk(h, s, [], [], top) && SameLengths([], []) && Rest([], [], total) == Cmp(0)
  {
  }

  // The next pair, and what is on the stack after it.
  lemma TopItem(h: map<int, Obj>, items: seq<Item>, ks: seq<seq<Tree>>, ls: seq<seq<Tree>>, top: nat)
    requires items != [] && StackOk(h, items, ks, ls, top)
    ensures |ks| == |ls| == |items|
    ensures var n := |items| - 1; var it := items[n];
      && |ks[n]| == |ls[n]| == it.count >= 1
      && it.a1 in h && h[it.a1].Fields? && it.i1 < |h[it.a1].f|
      && it.a2 in h && h[it.a2].Fields? && it.i2 < |h[it.a2].f|
      && Both(h, h[it.a1].f[it.i1], ks[n][0], h[it.a2].f[it.i2], ls[n][0])
      && (if it.count == 1 then n + Height(ks[n][0]) else n + 1 + Height(ks[n][0])) <= top
      && var rest := if it.count == 1 then [] else [Item(it.a1, it.i1 + 1, it.a2, it.i2 + 1, it.count - 1)];
      StackOk(h, items[..n] + rest, ListsLeft(ks), ListsLeft(ls), top)
  {
    hide Denotes;
    hide StackOk;
    hide ListsLeft;
    TopPair(h, items, ks, ls, top);
    LowerItems(h, items, ks, ls, top);
    var n := |items| - 1;
    var it := items[n];
    if it.count > 1 {
      ItemRest(h, it, ks[n], ls[n]);
      ItemMore(h, items, ks, ls, top);
    } else {
      assert items[..n] + [] == items[..n];
    }
  }

  lemma TopPair(h: map<int, Obj>, items: seq<Item>, ks: seq<seq<Tree>>, ls: seq<seq<Tree>>, top: nat)
    requires items != [] && StackOk(h, items, ks, ls, top)
    ensures |ks| == |ls| == |items|
    ensures var n := |items| - 1; var it := items[n];
      && ItemOk(h, it, ks[n], ls[n]) && n + HeightAll(ks[n]) <= top
      && Both(h, h[it.a1].f[it.i1], ks[n][0], h[it.a2].f[it.i2], ls[n][0])
  {
    hide Denotes;
    var n := |items| - 1;
    var it := items[n];
    assert ItemOk(h, it, ks[n], ls[n]);
    assert Denotes(h, h[it.a1].f[it.i1 + 0], ks[n][0]) && Denotes(h, h[it.a2].f[it.i2 + 0], ls[n][0]);
  }

  lemma LowerItems(h: map<int, Obj>, items: seq<Item>, ks: seq<seq<Tree>>, ls: seq<seq<Tree>>, top: nat)
    requires items != [] && StackOk(h, items, ks, ls, top)
    ensures var n := |items| - 1;
      |ks| == |ls| == |items| && |ks[n]| == items[n].count && StackOk(h, items[..n], ks[..n], ls[..n], top)
    ensures var n := |items| - 1;
      items[n].count == 1 ==> ListsLeft(ks) == ks[..n] && |ls[n]| == 1 && ListsLeft(ls) == ls[..n]
  {
    hide Denotes;
    var n := |items| - 1;
    assert ItemOk(h, items[n], ks[n], ls[n]);
  }

  // The stack when the topmost item has more fields.
  lemma ItemMore(h: map<int, Obj>, items: seq<Item>, ks: seq<seq<Tree>>, ls: seq<seq<Tree>>, top: nat)
    requires items != [] && |ks| == |ls| == |items| && |ks[|items| - 1]| == |ls[|items| - 1]| > 1
    requires var n := |items| - 1; StackOk(h, items[..n], ks[..n], ls[..n], top) && n + HeightAll(ks[n]) <= top
    requires var n := |items| - 1; var it := items[n];
      it.count > 1 && ItemOk(h, Item(it.a1, it.i1 + 1, it.a2, it.i2 + 1, it.count - 1), ks[n][1..], ls[n][1..])
    ensures var n := |items| - 1; var it := items[n];
      StackOk(h, items[..n] + [Item(it.a1, it.i1 + 1, it.a2, it.i2 + 1, it.count - 1)],
              ListsLeft(ks), ListsLeft(ls), top)
  {
    hide ItemOk;
  }

  lemma ItemRest(h: map<int, Obj>, it: Item, k: seq<Tree>, l: seq<Tree>)
    requires ItemOk(h, it, k, l) && it.count > 1
    ensures ItemOk(h, Item(it.a1, it.i1 + 1, it.a2, it.i2 + 1, it.count - 1), k[1..], l[1..])
  {
    forall i | 0 <= i < it.count - 1
      ensures Denotes(h, h[it.a1].f[it.i1 + 1 + i], k[1..][i]) && Denotes(h, h[it.a2].f[it.i2 + 1 + i], l[1..][i])
    {
      var j := i + 1;
      assert Denotes(h, h[it.a1].f[it.i1 + j], k[j]) && Denotes(h, h[it.a2].f[it.i2 + j], l[j]);
    }
  }

  lemma DownOk(h: map<int, Obj>, a1: Address, a2: Address, t1: Tree, t2: Tree, ks: seq<seq<Tree>>, ls: seq<seq<Tree>>,
               total: bool)
    requires Both(h, Ptr(a1), t1, Ptr(a2), t2) && t1.Blk? && t2.Blk? && |t1.kids| == |t2.kids| > 1
    requires SameLengths(ks, ls)
    ensures ItemOk(h, Item(a1, 1, a2, 1, |t1.kids| - 1), t1.kids[1..], t2.kids[1..])
    ensures var ks', ls' := ks + [t1.kids[1..]], ls + [t2.kids[1..]];
      && SameLengths(ks', ls')
      && Then(CompareAll(t1.kids, t2.kids, total), Rest(ks, ls, total)) ==
         Then(Compare(t1.kids[0], t2.kids[0], total), Rest(ks', ls', total))
  {
    var ks', ls' := ks + [t1.kids[1..]], ls + [t2.kids[1..]];
    assert ks'[..|ks|] == ks && ls'[..|ls|] == ls;
    forall i | 0 <= i < |t1.kids| - 1
      ensures Denotes(h, h[a1].f[1 + i], t1.kids[1..][i]) && Denotes(h, h[a2].f[1 + i], t2.kids[1..][i])
    {
      var j := i + 1;
      assert Denotes(h, h[a1].f[j], t1.kids[j]) && Denotes(h, h[a2].f[j], t2.kids[j]);
    }
  }

  lemma DownFacts(h: map<int, Obj>, v1: Value, v2: Value, t1: Tree, t2: Tree, ks: seq<seq<Tree>>, ls: seq<seq<Tree>>)
    requires Both(h, v1, t1, v2, t2) && t1.Blk? && t2.Blk? && |t1.kids| == |t2.kids| >= 1
    ensures v1.Ptr? && v1.a in h && h[v1.a].Fields? && h[v1.a].f != []
    ensures v2.Ptr? && v2.a in h && h[v2.a].Fields? && h[v2.a].f != []
    ensures Both(h, h[v1.a].f[0], t1.kids[0], h[v2.a].f[0], t2.kids[0])
    ensures Sizes(t1) + Left(ks) > Sizes(t1.kids[0]) + Left(if |t1.kids| == 1 then ks else ks + [t1.kids[1..]])
    ensures Sizes(t2) + Left(ls) > Sizes(t2.kids[0]) + Left(if |t1.kids| == 1 then ls else ls + [t2.kids[1..]])
    ensures Height(t1) >= Height(t1.kids[0])
    ensures |t1.kids| > 1 ==> Height(t1) > Height(t1.kids[0]) && Height(t1) >= HeightAll(t1.kids[1..])
  {
    LeftPush(ks, t1.kids);
    LeftPush(ls, t2.kids);
  }

  lemma OnlyKid(t1: Tree, t2: Tree, total: bool)
    requires t1.Blk? && t2.Blk? && |t1.kids| == |t2.kids| == 1
    ensures CompareAll(t1.kids, t2.kids, total) == Compare(t1.kids[0], t2.kids[0], total)
  {
    assert CompareAll(t1.kids[1..], t2.kids[1..], total) == Cmp(0);
  }

  lemma NextOk(ks: seq<seq<Tree>>, ls: seq<seq<Tree>>, total: bool)
    requires SameLengths(ks, ls) && ks != []
    ensures var n := |ks| - 1; ks[n] != [] && ls[n] != []
    ensures var n := |ks| - 1; Left(ks) == Sizes(ks[n][0]) + Left(ListsLeft(ks))
    ensures var n := |ks| - 1; Left(ls) == Sizes(ls[n][0]) + Left(ListsLeft(ls))
    ensures var n := |ks| - 1; |ListsLeft(ks)| == |ListsLeft(ls)| == if |ks[n]| == 1 then n else n + 1
    ensures var n := |ks| - 1;
      && SameLengths(ListsLeft(ks), ListsLeft(ls))
      && Rest(ks, ls, total) == Then(Compare(ks[n][0], ls[n][0], total), Rest(ListsLeft(ks), ListsLeft(ls), total))
  {
    var n := |ks| - 1;
    var ks', ls' := ListsLeft(ks), ListsLeft(ls);
    LeftTop(ks);
    LeftTop(ls);
    if |ks[n]| == 1 {
      assert CompareAll(ks[n][1..], ls[n][1..], total) == Cmp(0);
    } else {
      assert ks'[..n] == ks[..n] && ls'[..n] == ls[..n];
    }
  }

  lemma RootIs(h: map<int, Obj>, v1: Value, t1: Tree, v2: Value, t2: Tree)
    requires Both(h, v1, t1, v2, t2)
    ensures SameRoot(t1, t2) <==> v1 == v2
    ensures match v1 { case Imm(n) => t1 == Int(n) case Ptr(a) => !t1.Int? && t1.a == a && (t1.Out? <==> a !in h) }
    ensures match v2 { case Imm(n) => t2 == Int(n) case Ptr(a) => !t2.Int? && t2.a == a && (t2.Out? <==> a !in h) }
    ensures v1.Ptr? && v1.a in h ==> TagAt(h, v1.a) == TagOf(t1)
    ensures v2.Ptr? && v2.a in h ==> TagAt(h, v2.a) == TagOf(t2)
  {
  }

  // What the tests mean for values without functions, abstract values and pointers out of the heap: equality is
  // that of structures, and the others are the order in which one structure precedes another.
  lemma TestsMean(h: map<int, Obj>, v: Value, t: Tree, w: Value, u: Tree)
    requires Orderly(h, v, t) && Orderly(h, w, u)
    ensures Compare(t, u, false).Cmp? && (Compare(t, u, false).n == 0 <==> Structure(t) == Structure(u))
    ensures Compare(t, u, false) == Order(Structure(t), Structure(u)) == Compare(t, u, true)
    ensures Compare(t, u, false).n < 0 <==> Precedes(Structure(t), Structure(u))
    ensures Compare(t, u, false).n > 0 <==> Precedes(Structure(u), Structure(t))
  {
    OrderMeaning(Structure(t), Structure(u));
    OrderMeaning(Structure(u), Structure(t));
    ByStructure(h, v, t, w, u);
    OrderAnti(Structure(t), Structure(u));
    Shortcut(h, v, t, w, u);
  }

  // When a comparison raises an exception: when the first fields that are not equal cannot be compared.
  lemma RaisesExactly(h: map<int, Obj>, v: Value, t: Tree, w: Value, u: Tree, r: Outcome)
    requires Both(h, v, t, w, u) && Closed(t) && Closed(u) && !r.Cmp?
    ensures Compare(t, u, false) == r <==> Fails(Structure(t), Structure(u), r)
  {
    ByStructure(h, v, t, w, u);
    ProperStructure(t);
    ProperStructure(u);
    FailsExactly(Structure(t), Structure(u), r);
  }
}
