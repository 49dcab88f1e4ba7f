// The order that compare.c puts on values: what a comparison answers, and that it is a total order.
module CompareOrder {
  import opened Header

  // A pointer as the signed word it is; its low bit is 0.
  type Address = a: int | a % 2 == 0

  // A value with all it leads to: int, pointer out of the heap, string, object, custom block, block that cannot
  // be compared, forwarding block, and any other block.  a is the address.
  datatype Tree =
    | Int(n: int)
    | Out(a: Address)
    | Str(a: Address, bytes: seq<nat>)
    | Inst(a: Address, oid: int)
    | Num(a: Address, compares: bool, n: int)
    | Opaque(a: Address, tag: nat)
    | Fwd(a: Address, target: Tree)
    | Blk(a: Address, tag: nat, kids: seq<Tree>)

  datatype Outcome = Cmp(n: int) | Functional | Abstract | NoMemory

  const LESS: int := -1
  const GREATER: int := 1

  predicate OpaqueTag(tag: nat) {
    tag == CLOSURE_TAG || tag == INFIX_TAG || tag == ABSTRACT_TAG
  }

  function TagOf(t: Tree): nat {
    match t
    case Str(_, _) => STRING_TAG
    case Inst(_, _) => OBJECT_TAG
    case Num(_, _, _) => CUSTOM_TAG
    case Opaque(_, tag) => tag
    case Fwd(_, _) => FORWARD_TAG
    case Blk(_, tag, _) => tag
    case _ => 0
  }

  predicate SameRoot(t: Tree, u: Tree) {
    match t
    case Int(n) => u == Int(n)
    case _ => !u.Int? && t.a == u.a
  }

  function Raise(tag: nat): Outcome {
    if tag == CLOSURE_TAG || tag == INFIX_TAG then Functional else Abstract
  }

  // Go on with r only if the first comparison found no difference.
  function Then(r: Outcome, s: Outcome): Outcome {
    if r == Cmp(0) then s else r
  }

  function CompareBytes(s: seq<nat>, t: seq<nat>): int {
    if s == [] || t == [] then |s| - |t|
    else if s[0] != t[0] then s[0] - t[0]
    else CompareBytes(s[1..], t[1..])
  }

  // int32_cmp, int64_cmp and nativeint_cmp.
  function CompareNumbers(n: int, m: int): int {
    if n < m then LESS else if n > m then GREATER else 0
  }

  // What compare_val answers when its stack is big enough.
  function Compare(t: Tree, u: Tree, total: bool): (r: Outcome)
    ensures r != NoMemory
    decreases t, u
  {
    if total && SameRoot(t, u) then Cmp(0)
    else if t.Int? then
      if u.Int? then Cmp(t.n - u.n) else if u.Fwd? then Compare(t, u.target, total) else Cmp(LESS)
    else if u.Int? then
      if t.Fwd? then Compare(t.target, u, total) else Cmp(GREATER)
    else if t.Out? || u.Out? then Cmp(t.a / 2 - u.a / 2)
    else if t.Fwd? then Compare(t.target, u, total)
    else if u.Fwd? then Compare(t, u.target, total)
    else if TagOf(t) != TagOf(u) then Cmp(TagOf(t) - TagOf(u))
    else SameTag(t, u, total)
  }

  function SameTag(t: Tree, u: Tree, total: bool): (r: Outcome)
    ensures r != NoMemory
    decreases t, u, 0
  {
    match (t, u)
    case (Str(a, s), Str(b, s')) => Cmp(if a == b then 0 else CompareBytes(s, s'))
    case (Inst(_, i), Inst(_, j)) => Cmp(i - j)
    case (Num(_, compares, n), Num(_, _, m)) => if compares then Cmp(CompareNumbers(n, m)) else Abstract
    case (Blk(_, _, k), Blk(_, _, l)) => if |k| != |l| then Cmp(|k| - |l|) else CompareAll(k, l, total)
    case _ => Raise(TagOf(t))
  }

  function CompareAll(k: seq<Tree>, l: seq<Tree>, total: bool): (r: Outcome)
    requires |k| == |l|
    ensures r != NoMemory
    decreases k, l
  {
    if k == [] then Cmp(0)
    else Then(Compare(k[0], l[0], total), CompareAll(k[1..], l[1..], total))
  }

  lemma {:induction false} CompareParts(k: seq<Tree>, l: seq<Tree>, k': seq<Tree>, l': seq<Tree>, total: bool)
    requires |k| == |l| && |k'| == |l'|
    ensures CompareAll(k + k', l + l', total) == Then(CompareAll(k, l, total), CompareAll(k', l', total))
  {
    if k == [] {
      assert k + k' == k' && l + l' == l';
    } else {
      assert (k + k')[1..] == k[1..] + k' && (l + l')[1..] == l[1..] + l';
      CompareParts(k[1..], l[1..], k', l', total);
    }
  }

  // ---- The structure, without addresses and forwarding blocks ----

  datatype Plain =
    | PInt(n: int)
    | POut(a: Address)
    | PStr(bytes: seq<nat>)
    | PInst(oid: int)
    | PNum(compares: bool, n: int)
    | POpaque(tag: nat)
    | PBlk(tag: nat, kids: seq<Plain>)

  // The tags are those their constructors are for, and nothing points out of the heap.
  predicate Closed(t: Tree) {
    match t
    case Out(_) => false
    case Opaque(_, tag) => OpaqueTag(tag)
    case Fwd(_, target) => Closed(target)
    case Blk(_, tag, kids) => tag <= LAZY_TAG && forall i :: 0 <= i < |kids| ==> Closed(kids[i])
    case _ => true
  }

  function Structure(t: Tree): Plain {
    match t
    case Int(n) => PInt(n)
    case Out(a) => POut(a)
    case Str(_, s) => PStr(s)
    case Inst(_, i) => PInst(i)
    case Num(_, compares, n) => PNum(compares, n)
    case Opaque(_, tag) => POpaque(tag)
    case Fwd(_, target) => Structure(target)
    case Blk(_, tag, kids) => PBlk(tag, seq(|kids|, i requires 0 <= i < |kids| => Structure(kids[i])))
  }

  function Structures(ts: seq<Tree>): seq<Plain> {
    seq(|ts|, i requires 0 <= i < |ts| => Structure(ts[i]))
  }

  function TagIs(p: Plain): nat {
    match p
    case PStr(_) => STRING_TAG
    case PInst(_) => OBJECT_TAG
    case PNum(_, _) => CUSTOM_TAG
    case POpaque(tag) => tag
    case PBlk(tag, _) => tag
    case _ => 0
  }

  // The structural order: integers first, then pointers out of the heap, then by tag, by size, and by contents
  // from the left.
  function Order(p: Plain, q: Plain): (r: Outcome)
    ensures r != NoMemory
  {
    if p.PInt? then Cmp(if q.PInt? then p.n - q.n else LESS)
    else if q.PInt? then Cmp(GREATER)
    else if p.POut? then Cmp(if q.POut? then p.a / 2 - q.a / 2 else LESS)
    else if q.POut? then Cmp(GREATER)
    else if TagIs(p) != TagIs(q) then Cmp(TagIs(p) - TagIs(q))
    else if p.PStr? && q.PStr? then Cmp(CompareBytes(p.bytes, q.bytes))
    else if p.PInst? && q.PInst? then Cmp(p.oid - q.oid)
    else if p.PNum? && q.PNum? then if p.compares then Cmp(CompareNumbers(p.n, q.n)) else Abstract
    else if p.PBlk? && q.PBlk? then if |p.kids| != |q.kids| then Cmp(|p.kids| - |q.kids|) else OrderAll(p.kids, q.kids)
    else Raise(TagIs(p))
  }

  function OrderAll(k: seq<Plain>, l: seq<Plain>): (r: Outcome)
    requires |k| == |l|
    ensures r != NoMemory
  {
    if k == [] then Cmp(0) else Then(Order(k[0], l[0]), OrderAll(k[1..], l[1..]))
  }

  lemma {:induction false} BytesEqual(s: seq<nat>)
    ensures CompareBytes(s, s) == 0
  {
    if s != [] { BytesEqual(s[1..]); }
  }

  // ---- Values in the heap ----

  datatype Value = Imm(n: int) | Ptr(a: Address)

  // A block: that of a string holds its bytes, a custom block the number that the comparison function of its
  // type reads, if it has one, and any other its fields.
  datatype Obj = Bytes(b: seq<nat>) | Custom(compares: bool, n: int) | Fields(tag: nat, f: seq<Value>)

  ghost predicate HasTag(h: map<int, Obj>, a: int, tag: nat) {
    a in h && h[a].Fields? && h[a].tag == tag
  }

  // From v one gets to t.
  ghost predicate Denotes(h: map<int, Obj>, v: Value, t: Tree)
    decreases t
  {
    match t
    case Int(n) => v == Imm(n)
    case Out(a) => v == Ptr(a) && a !in h
    case Str(a, s) => v == Ptr(a) && a in h && h[a] == Bytes(s)
    case Inst(a, oid) => v == Ptr(a) && HasTag(h, a, OBJECT_TAG) && |h[a].f| >= 2 && h[a].f[1] == Imm(oid)
    case Num(a, compares, n) => v == Ptr(a) && a in h && h[a] == Custom(compares, n)
    case Opaque(a, tag) => v == Ptr(a) && HasTag(h, a, tag) && OpaqueTag(tag)
    case Fwd(a, target) => v == Ptr(a) && HasTag(h, a, FORWARD_TAG) && |h[a].f| >= 1 && Denotes(h, h[a].f[0], target)
    case Blk(a, tag, kids) =>
      && v == Ptr(a) && tag <= LAZY_TAG && HasTag(h, a, tag) && |h[a].f| == |kids|
      && forall i :: 0 <= i < |kids| ==> Denotes(h, h[a].f[i], kids[i])
  }

  lemma {:induction false} DenotesOne(h: map<int, Obj>, v: Value, t: Tree, u: Tree)
    requires Denotes(h, v, t) && Denotes(h, v, u)
    ensures t == u
    decreases t
  {
    match t {
      case Fwd(a, target) =>
        DenotesOne(h, h[a].f[0], target, u.target);
      case Blk(a, _, kids) =>
        forall i | 0 <= i < |kids| ensures kids[i] == u.kids[i] {
          DenotesOne(h, h[a].f[i], kids[i], u.kids[i]);
        }
      case _ =>
    }
  }

  // Both are in this heap.
  ghost predicate Both(h: map<int, Obj>, v: Value, t: Tree, w: Value, u: Tree) {
    Denotes(h, v, t) && Denotes(h, w, u)
  }

  lemma StructureAll(t: Tree)
    requires t.Blk?
    ensures Structure(t) == PBlk(t.tag, Structures(t.kids))
  {
    assert Structure(t).kids == Structures(t.kids);
  }

  // Without the shortcut for equal pointers, the answer depends on the structure only.
  lemma {:induction false} ByStructure(h: map<int, Obj>, v: Value, t: Tree, w: Value, u: Tree)
    requires Both(h, v, t, w, u) && Closed(t) && Closed(u)
    ensures Compare(t, u, false) == Order(Structure(t), Structure(u))
    decreases t, u
  {
    if t.Fwd? {
      ByStructure(h, h[t.a].f[0], t.target, w, u);
    } else if u.Fwd? {
      ByStructure(h, v, t, h[u.a].f[0], u.target);
    } else if t.Blk? && u.Blk? {
      StructureAll(t);
      StructureAll(u);
      if t.tag == u.tag && |t.kids| == |u.kids| {
        AllByStructure(h, h[t.a].f, t.kids, h[u.a].f, u.kids);
      }
    } else {
      LeafByStructure(h, v, t, w, u);
    }
  }

  lemma LeafByStructure(h: map<int, Obj>, v: Value, t: Tree, w: Value, u: Tree)
    requires Both(h, v, t, w, u) && Closed(t) && Closed(u) && !t.Fwd? && !u.Fwd? && !(t.Blk? && u.Blk?)
    ensures Compare(t, u, false) == Order(Structure(t), Structure(u))
  {
    if t.Str? && u.Str? { BytesEqual(t.bytes); }
  }

  lemma {:induction false} AllByStructure(h: map<int, Obj>, vs: seq<Value>, k: seq<Tree>, ws: seq<Value>, l: seq<Tree>)
    requires |vs| == |k| == |l| == |ws|
    requires forall i :: 0 <= i < |k| ==> Both(h, vs[i], k[i], ws[i], l[i]) && Closed(k[i]) && Closed(l[i])
    ensures CompareAll(k, l, false) == OrderAll(Structures(k), Structures(l))
    decreases k, l
  {
    if k != [] {
      assert Structures(k)[1..] == Structures(k[1..]) && Structures(l)[1..] == Structures(l[1..]);
      ByStructure(h, vs[0], k[0], ws[0], l[0]);
      AllByStructure(h, vs[1..], k[1..], ws[1..], l[1..]);
    }
  }

  // ---- The shortcut for equal pointers ----

  // Total comparison differs only where the other one finds something that cannot be compared.
  lemma {:induction false} Shortcut(h: map<int, Obj>, v: Value, t: Tree, w: Value, u: Tree)
    requires Both(h, v, t, w, u) && Closed(t) && Closed(u) && Compare(t, u, false).Cmp?
    ensures Compare(t, u, true) == Compare(t, u, false)
    decreases t, u
  {
    if SameRoot(t, u) {
      DenotesOne(h, v, t, u);
      ByStructure(h, v, t, v, t);
      OrderSelf(Structure(t));
    } else if t.Fwd? {
      Shortcut(h, h[t.a].f[0], t.target, w, u);
    } else if u.Fwd? {
      Shortcut(h, v, t, h[u.a].f[0], u.target);
    } else if t.Blk? && u.Blk? && t.tag == u.tag && |t.kids| == |u.kids| {
      ShortcutAll(h, h[t.a].f, t.kids, h[u.a].f, u.kids);
    }
  }

  lemma {:induction false} ShortcutAll(h: map<int, Obj>, vs: seq<Value>, k: seq<Tree>, ws: seq<Value>, l: seq<Tree>)
    requires |vs| == |k| == |l| == |ws| && CompareAll(k, l, false).Cmp?
    requires forall i :: 0 <= i < |k| ==> Both(h, vs[i], k[i], ws[i], l[i]) && Closed(k[i]) && Closed(l[i])
    ensures CompareAll(k, l, true) == CompareAll(k, l, false)
    decreases k, l
  {
    if k != [] {
      Shortcut(h, vs[0], k[0], ws[0], l[0]);
      if Compare(k[0], l[0], false) == Cmp(0) { ShortcutAll(h, vs[1..], k[1..], ws[1..], l[1..]); }
    }
  }

  // ---- Pointers out of the heap ----

  // They are compared by address, even with forwarding blocks and with blocks that are otherwise compared by
  // contents.  So a value may differ from itself, ...
  lemma OutNotReflexive()
    ensures var h, t := map[8 := Fields(FORWARD_TAG, [Ptr(100)])], Fwd(8, Out(100));
      Denotes(h, Ptr(8), t) && Compare(t, t, false) == Cmp(46)
  {
    assert Denotes(map[8 := Fields(FORWARD_TAG, [Ptr(100)])], Ptr(100), Out(100));
    assert Compare(Out(100), Fwd(8, Out(100)), false) == Cmp(46);
  }

  // ... and the order has cycles.
  lemma OutNotTransitive()
    ensures var h, s, p, t := map[8 := Bytes([2]), 200 := Bytes([1])], Str(8, [2]), Out(100), Str(200, [1]);
      && Denotes(h, Ptr(8), s) && Denotes(h, Ptr(100), p) && Denotes(h, Ptr(200), t)
      && Compare(s, p, true).n < 0 && Compare(p, t, true).n < 0 && Compare(s, t, true).n > 0
  {
  }

  // Where a chain of forwarding blocks ends.
  function Final(t: Tree): (e: Tree)
    ensures !e.Fwd?
  {
    if t.Fwd? then Final(t.target) else t
  }

  // Nothing in t cannot be compared, and no forwarding block in it leads out of the heap.
  predicate SelfOk(t: Tree) {
    match t
    case Num(_, compares, _) => compares
    case Opaque(_, _) => false
    case Fwd(_, target) => !Final(target).Out? && SelfOk(target)
    case Blk(_, _, kids) => forall i :: 0 <= i < |kids| ==> SelfOk(kids[i])
    case _ => true
  }

  lemma {:induction false} SkipLeft(t: Tree, u: Tree)
    requires !u.Out?
    ensures Compare(t, u, false) == Compare(Final(t), u, false)
  {
    if t.Fwd? { SkipLeft(t.target, u); }
  }

  lemma {:induction false} SkipRight(t: Tree, u: Tree)
    requires !t.Out? && !t.Fwd?
    ensures Compare(t, u, false) == Compare(t, Final(u), false)
  {
    if u.Fwd? { SkipRight(t, u.target); }
  }

  lemma {:induction false} FinalThere(h: map<int, Obj>, v: Value, t: Tree) returns (w: Value)
    requires Denotes(h, v, t)
    ensures Denotes(h, w, Final(t)) && (!Final(t).Out? ==> (SelfOk(t) <==> SelfOk(Final(t))))
    decreases t
  {
    if t.Fwd? { w := FinalThere(h, h[t.a].f[0], t.target); } else { w := v; }
  }

  // A value is equal to itself exactly when all that it leads to can be compared so.
  lemma {:induction false} EqualToItself(h: map<int, Obj>, v: Value, t: Tree)
    requires Denotes(h, v, t)
    ensures Compare(t, t, false) == Cmp(0) <==> SelfOk(t)
    decreases t, 1
  {
    if t.Fwd? {
      var e := Final(t);
      var w := FinalThere(h, v, t);
      SkipLeft(t, t);
      if !e.Out? {
        SkipRight(e, t);
        FinalSmaller(t);
        EqualToItself(h, w, e);
      }
    } else if t.Str? {
      BytesEqual(t.bytes);
    } else if t.Blk? {
      AllEqualThemselves(h, h[t.a].f, t.kids);
    }
  }

  lemma {:induction false} FinalSmaller(t: Tree)
    requires t.Fwd?
    ensures Final(t) < t
  {
    if t.target.Fwd? { FinalSmaller(t.target); }
  }

  lemma {:induction false} AllEqualThemselves(h: map<int, Obj>, vs: seq<Value>, k: seq<Tree>)
    requires |vs| == |k| && forall i :: 0 <= i < |k| ==> Denotes(h, vs[i], k[i])
    ensures CompareAll(k, k, false) == Cmp(0) <==> forall i :: 0 <= i < |k| ==> SelfOk(k[i])
    decreases k, 0
  {
    if k != [] {
      EqualToItself(h, vs[0], k[0]);
      AllEqualThemselves(h, vs[1..], k[1..]);
      var rest := k[1..];
      assert forall i :: 1 <= i < |k| ==> k[i] == rest[i - 1];
      assert (forall i :: 0 <= i < |k| ==> SelfOk(k[i])) <==>
        SelfOk(k[0]) && forall i :: 0 <= i < |rest| ==> SelfOk(rest[i]);
    }
  }

  // ---- A total order ----

  lemma {:induction false} OrderSelf(p: Plain)
    ensures Order(p, p).Cmp? ==> Order(p, p) == Cmp(0)
  {
    if p.PStr? { BytesEqual(p.bytes); } else if p.PBlk? { OrderSelves(p.kids); }
  }

  lemma {:induction false} OrderSelves(k: seq<Plain>)
    ensures OrderAll(k, k).Cmp? ==> OrderAll(k, k) == Cmp(0)
  {
    if k != [] {
      OrderSelf(k[0]);
      OrderSelves(k[1..]);
    }
  }

  // No functions and no abstract values.
  predicate Comparable(p: Plain) {
    match p
    case PNum(compares, _) => compares
    case POpaque(_) => false
    case PBlk(tag, kids) => tag <= LAZY_TAG && forall i :: 0 <= i < |kids| ==> Comparable(kids[i])
    case _ => true
  }

  predicate AllComparable(k: seq<Plain>) {
    forall i :: 0 <= i < |k| ==> Comparable(k[i])
  }

  lemma {:induction false} BytesAnti(s: seq<nat>, t: seq<nat>)
    ensures CompareBytes(t, s) == -CompareBytes(s, t) && (CompareBytes(s, t) == 0 <==> s == t)
  {
    if s != [] && t != [] && s[0] == t[0] {
      BytesAnti(s[1..], t[1..]);
      assert s == [s[0]] + s[1..] && t == [t[0]] + t[1..];
    }
  }

  lemma {:induction false} BytesTrans(s: seq<nat>, t: seq<nat>, u: seq<nat>)
    requires CompareBytes(s, t) <= 0 && CompareBytes(t, u) <= 0
    ensures CompareBytes(s, u) <= 0
  {
    if s != [] && t != [] && u != [] && s[0] == t[0] == u[0] { BytesTrans(s[1..], t[1..], u[1..]); }
  }

  // Comparing the other way round negates the answer, which is 0 for equal structures only.
  lemma {:induction false} OrderAnti(p: Plain, q: Plain)
    requires Comparable(p) && Comparable(q)
    ensures Order(p, q).Cmp? && Order(q, p) == Cmp(-Order(p, q).n) && (Order(p, q).n == 0 <==> p == q)
  {
    if p.PStr? && q.PStr? {
      BytesAnti(p.bytes, q.bytes);
    } else if p.PBlk? && q.PBlk? && p.tag == q.tag && |p.kids| == |q.kids| {
      OrderAllAnti(p.kids, q.kids);
    }
  }

  lemma {:induction false} OrderAllAnti(k: seq<Plain>, l: seq<Plain>)
    requires |k| == |l| && AllComparable(k) && AllComparable(l)
    ensures OrderAll(k, l).Cmp? && OrderAll(l, k) == Cmp(-OrderAll(k, l).n) && (OrderAll(k, l).n == 0 <==> k == l)
  {
    if k != [] {
      OrderAnti(k[0], l[0]);
      OrderAllAnti(k[1..], l[1..]);
      assert k == [k[0]] + k[1..] && l == [l[0]] + l[1..];
    }
  }

  lemma {:induction false} OrderTrans(p: Plain, q: Plain, r: Plain)
    requires Comparable(p) && Comparable(q) && Comparable(r)
    requires Order(p, q).Cmp? && Order(q, r).Cmp? && Order(p, q).n <= 0 && Order(q, r).n <= 0
    ensures Order(p, r).Cmp? && Order(p, r).n <= 0
  {
    OrderAnti(p, r);
    if p.PStr? && q.PStr? && r.PStr? {
      BytesTrans(p.bytes, q.bytes, r.bytes);
    } else if p.PBlk? && q.PBlk? && r.PBlk? && p.tag == q.tag == r.tag && |p.kids| == |q.kids| == |r.kids| {
      OrderAllTrans(p.kids, q.kids, r.kids);
    }
  }

  lemma {:induction false} OrderAllTrans(k: seq<Plain>, l: seq<Plain>, m: seq<Plain>)
    requires |k| == |l| == |m| && AllComparable(k) && AllComparable(l) && AllComparable(m)
    requires OrderAll(k, l).Cmp? && OrderAll(l, m).Cmp? && OrderAll(k, l).n <= 0 && OrderAll(l, m).n <= 0
    ensures OrderAll(k, m).Cmp? && OrderAll(k, m).n <= 0
  {
    OrderAllAnti(k, m);
    if k != [] {
      OrderAnti(k[0], l[0]);
      OrderAnti(l[0], m[0]);
      OrderAnti(k[0], m[0]);
      OrderTrans(k[0], l[0], m[0]);
      if k[0] == m[0] {
        OrderTrans(l[0], m[0], l[0]);
        OrderAllTrans(k[1..], l[1..], m[1..]);
      }
    }
  }

  // What the total comparison of two values answers.
  lemma TotalIs(h: map<int, Obj>, v: Value, t: Tree, w: Value, u: Tree)
    requires Both(h, v, t, w, u) && Closed(t) && Closed(u) && Comparable(Structure(t)) && Comparable(Structure(u))
    ensures Compare(t, u, true) == Order(Structure(t), Structure(u)) && Compare(t, u, true).Cmp?
  {
    ByStructure(h, v, t, w, u);
    OrderAnti(Structure(t), Structure(u));
    Shortcut(h, v, t, w, u);
  }

  ghost predicate Orderly(h: map<int, Obj>, v: Value, t: Tree) {
    Denotes(h, v, t) && Closed(t) && Comparable(Structure(t))
  }

  // On values without functions, abstract values and pointers out of the heap it is a total order of
  // structures.
  lemma TotalOrder(h: map<int, Obj>, v: Value, t: Tree, w: Value, u: Tree, x: Value, s: Tree)
    requires Orderly(h, v, t) && Orderly(h, w, u) && Orderly(h, x, s)
    ensures Compare(t, u, true).Cmp? && Compare(u, t, true) == Cmp(-Compare(t, u, true).n)
    ensures Compare(t, u, true) == Cmp(0) <==> Structure(t) == Structure(u)
    ensures Compare(u, s, true).Cmp? && Compare(t, s, true).Cmp?
    ensures Compare(t, u, true).n <= 0 && Compare(u, s, true).n <= 0 ==> Compare(t, s, true).n <= 0
  {
    var p, q, r := Structure(t), Structure(u), Structure(s);
    TotalIs(h, v, t, w, u);
    TotalIs(h, w, u, v, t);
    TotalIs(h, w, u, x, s);
    TotalIs(h, v, t, x, s);
    OrderAnti(p, q);
    if Order(p, q).n <= 0 && Order(q, r).n <= 0 { OrderTrans(p, q, r); }
  }

  // ---- With pointers out of the heap ----

  function Root(t: Tree): Value {
    if t.Int? then Imm(t.n) else Ptr(t.a)
  }

  // Values of a heap without functions and abstract values, with all they lead to.
  ghost predicate Family(h: map<int, Obj>, s: set<Tree>) {
    forall t :: t in s ==> Member(h, s, t)
  }

  ghost predicate Member(h: map<int, Obj>, s: set<Tree>, t: Tree) {
    && Denotes(h, Root(t), t) && Comparable(Structure(t))
    && (t.Fwd? ==> t.target in s)
    && (t.Blk? ==> forall i :: 0 <= i < |t.kids| ==> t.kids[i] in s)
  }

  // The address of t is on the side of a where its structure is: above, if it is a block, and below, if it
  // leads to an integer.  It does not lead out of the heap.
  predicate Beside(a: Address, t: Tree)
    requires !t.Int?
  {
    !Final(t).Out? && if Final(t).Int? then a > t.a else a < t.a
  }

  // So it is for all pointers out of the heap and all blocks of s.
  ghost predicate AllBeside(s: set<Tree>) {
    forall o, t :: o in s && t in s && o.Out? && !t.Int? && !t.Out? ==> Beside(o.a, t)
  }

  predicate SameSign(r: Outcome, s: Outcome) {
    r.Cmp? && s.Cmp? && (r.n < 0 <==> s.n < 0) && (r.n > 0 <==> s.n > 0)
  }

  ghost predicate Agree(t: Tree, u: Tree) {
    SameSign(Compare(t, u, true), Order(Structure(t), Structure(u)))
  }

  lemma {:induction false} StructureFinal(t: Tree)
    ensures Structure(Final(t)) == Structure(t)
  {
    if t.Fwd? { StructureFinal(t.target); }
  }

  // A pointer out of the heap against a block.
  lemma OutAgrees(h: map<int, Obj>, s: set<Tree>, o: Tree, t: Tree)
    requires Family(h, s) && o in s && t in s && o.Out? && !t.Int? && !t.Out?
    ensures !Final(t).Out? ==> (Agree(o, t) <==> Beside(o.a, t)) && (Agree(t, o) <==> Beside(o.a, t))
  {
    assert Member(h, s, o) && Member(h, s, t);
    StructureFinal(t);
    assert o.a != t.a && o.a % 2 == 0 && t.a % 2 == 0;
  }

  // A forwarding block that leads out of the heap is not where it leads.
  lemma ForwardOut(h: map<int, Obj>, s: set<Tree>, t: Tree)
    requires Family(h, s) && t in s && Final(t).Out? && t.Fwd?
    ensures Final(t) in s && !Agree(Final(t), t)
    decreases t
  {
    assert Member(h, s, t);
    var o := Final(t);
    StructureFinal(t);
    if t.target.Fwd? { ForwardOut(h, s, t.target); }
    assert Member(h, s, o);
    assert Order(Structure(o), Structure(t)) == Cmp(0) && o.a != t.a;
  }

  lemma {:induction false} PairAgrees(h: map<int, Obj>, s: set<Tree>, t: Tree, u: Tree)
    requires Family(h, s) && AllBeside(s) && t in s && u in s
    ensures Agree(t, u)
    decreases t, u
  {
    assert Member(h, s, t) && Member(h, s, u);
    OrderAnti(Structure(t), Structure(u));
    if SameRoot(t, u) {
      DenotesOne(h, Root(t), t, u);
    } else if t.Int? || u.Int? {
      if t.Fwd? { PairAgrees(h, s, t.target, u); }
      if u.Fwd? { PairAgrees(h, s, t, u.target); }
    } else if t.Out? || u.Out? {
      if !u.Out? { OutAgrees(h, s, t, u); }
      if !t.Out? { OutAgrees(h, s, u, t); }
    } else if t.Fwd? {
      PairAgrees(h, s, t.target, u);
    } else if u.Fwd? {
      PairAgrees(h, s, t, u.target);
    } else if t.Blk? && u.Blk? {
      StructureAll(t);
      StructureAll(u);
      if t.tag == u.tag && |t.kids| == |u.kids| { KidsAgree(h, s, t.kids, u.kids); }
    }
  }

  lemma {:induction false} KidsAgree(h: map<int, Obj>, s: set<Tree>, k: seq<Tree>, l: seq<Tree>)
    requires Family(h, s) && AllBeside(s) && |k| == |l|
    requires forall i :: 0 <= i < |k| ==> k[i] in s && l[i] in s
    ensures SameSign(CompareAll(k, l, true), OrderAll(Structures(k), Structures(l)))
    decreases k, l
  {
    if k != [] {
      assert Structures(k)[1..] == Structures(k[1..]) && Structures(l)[1..] == Structures(l[1..]);
      PairAgrees(h, s, k[0], l[0]);
      KidsAgree(h, s, k[1..], l[1..]);
    }
  }

  // The total comparison is the order of structures, up to the size of the answers, if and only if the pointers
  // out of the heap are beside the blocks as they are in that order.
  lemma AgreesExactly(h: map<int, Obj>, s: set<Tree>)
    requires Family(h, s)
    ensures (forall t, u :: t in s && u in s ==> Agree(t, u)) <==> AllBeside(s)
  {
    if AllBeside(s) {
      forall t, u | t in s && u in s ensures Agree(t, u) { PairAgrees(h, s, t, u); }
    }
    if forall t, u :: t in s && u in s ==> Agree(t, u) {
      forall o, t | o in s && t in s && o.Out? && !t.Int? && !t.Out? ensures Beside(o.a, t) {
        if Final(t).Out? { ForwardOut(h, s, t); }
        OutAgrees(h, s, o, t);
      }
    }
  }

  // Then it is a total order of structures.
  lemma TotalBeside(h: map<int, Obj>, s: set<Tree>, t: Tree, u: Tree, x: Tree)
    requires Family(h, s) && AllBeside(s) && t in s && u in s && x in s
    ensures Compare(t, u, true).Cmp? && Compare(u, t, true).Cmp? && Compare(u, x, true).Cmp? && Compare(t, x, true).Cmp?
    ensures Compare(t, u, true).n < 0 <==> Compare(u, t, true).n > 0
    ensures Compare(t, u, true).n == 0 <==> Structure(t) == Structure(u)
    ensures Compare(t, u, true).n <= 0 && Compare(u, x, true).n <= 0 ==> Compare(t, x, true).n <= 0
  {
    PairAgrees(h, s, t, u);
    PairAgrees(h, s, u, t);
    PairAgrees(h, s, u, x);
    PairAgrees(h, s, t, x);
    var p, q, r := Structure(t), Structure(u), Structure(x);
    assert Member(h, s, t) && Member(h, s, u) && Member(h, s, x);
    OrderAnti(p, q);
    if Order(p, q).n <= 0 && Order(q, r).n <= 0 { OrderTrans(p, q, r); }
  }

  // ---- The answer is a machine word, and never the one for unordered values ----

  const MIN_INT: int := -0x8000_0000_0000_0000

  predicate Word63(n: int) {
    -0x4000_0000_0000_0000 <= n < 0x4000_0000_0000_0000
  }

  predicate Word64(n: int) {
    MIN_INT <= n < -MIN_INT
  }

  predicate Fits(t: Tree) {
    match t
    case Int(n) => Word63(n)
    case Out(a) => Word64(a)
    case Str(a, s) => Word64(a) && |s| < 0x200_0000_0000_0000 && forall i :: 0 <= i < |s| ==> s[i] < 256
    case Inst(a, oid) => Word64(a) && Word63(oid)
    case Num(a, _, _) => Word64(a)
    case Opaque(a, tag) => Word64(a) && tag < 256
    case Fwd(a, target) => Word64(a) && Fits(target)
    case Blk(a, tag, kids) =>
      Word64(a) && tag < 256 && |kids| < 0x40_0000_0000_0000 && forall i :: 0 <= i < |kids| ==> Fits(kids[i])
  }

  ghost predicate Ordered(r: Outcome) {
    r.Cmp? ==> MIN_INT < r.n < -MIN_INT
  }

  lemma {:induction false} BytesFit(s: seq<nat>, t: seq<nat>)
    requires Fits(Str(0, s)) && Fits(Str(0, t))
    ensures Ordered(Cmp(CompareBytes(s, t)))
  {
    if s != [] && t != [] && s[0] == t[0] { BytesFit(s[1..], t[1..]); }
  }

  // For all values, whatever they lead to.
  lemma {:induction false} NeverUnordered(t: Tree, u: Tree, total: bool)
    requires Fits(t) && Fits(u)
    ensures Ordered(Compare(t, u, total))
    decreases t, u
  {
    if t.Fwd? { NeverUnordered(t.target, u, total); }
    if u.Fwd? { NeverUnordered(t, u.target, total); }
    if t.Str? && u.Str? {
      BytesFit(t.bytes, u.bytes);
    } else if t.Blk? && u.Blk? && t.tag == u.tag && |t.kids| == |u.kids| {
      AllFit(t.kids, u.kids, total);
    }
  }

  lemma {:induction false} AllFit(k: seq<Tree>, l: seq<Tree>, total: bool)
    requires |k| == |l| && forall i :: 0 <= i < |k| ==> Fits(k[i]) && Fits(l[i])
    ensures Ordered(CompareAll(k, l, total))
    decreases k, l
  {
    if k != [] {
      NeverUnordered(k[0], l[0], total);
      AllFit(k[1..], l[1..], total);
    }
  }
}
