// What the order on structures is, said without the functions that compute it.
module CompareMeaning {
  import opened Header
  import opened CompareOrder

  // Where s and t differ first, s has ended or has the smaller byte.
  predicate Differs(s: seq<nat>, t: seq<nat>, k: nat) {
    k <= |s| && k < |t| && s[..k] == t[..k] && (k < |s| ==> s[k] < t[k])
  }

  ghost predicate BytesPrecede(s: seq<nat>, t: seq<nat>) {
    exists k: nat :: Differs(s, t, k)
  }

  // Strings are ordered as in a dictionary.
  lemma {:induction false} BytesMeaning(s: seq<nat>, t: seq<nat>)
    ensures CompareBytes(s, t) < 0 <==> BytesPrecede(s, t)
  {
    if s == [] || t == [] {
      if s == [] && t != [] { assert Differs(s, t, 0); }
    } else if s[0] != t[0] {
      if s[0] < t[0] { assert Differs(s, t, 0); }
      if k: nat :| Differs(s, t, k) {
        if k > 0 { assert s[..k][0] == s[0] && t[..k][0] == t[0]; }
      }
    } else {
      BytesMeaning(s[1..], t[1..]);
      if k: nat :| Differs(s[1..], t[1..], k) { DiffersLater(s, t, k + 1); }
      if k: nat :| Differs(s, t, k) { DiffersLater(s, t, k); }
    }
  }

  lemma DiffersLater(s: seq<nat>, t: seq<nat>, k: nat)
    requires s != [] && t != [] && s[0] == t[0]
    ensures Differs(s, t, k) <==> k >= 1 && Differs(s[1..], t[1..], k - 1)
  {
    if 1 <= k <= |s| && k < |t| {
      assert s[..k] == [s[0]] + s[1..][..k - 1] && t[..k] == [t[0]] + t[1..][..k - 1];
      assert s[..k][1..] == s[1..][..k - 1] && t[..k][1..] == t[1..][..k - 1];
    }
  }

  // Integers come first, then pointers out of the heap, then blocks by tag.
  function Group(p: Plain): int {
    match p
    case PInt(_) => -2
    case POut(_) => -1
    case PBlk(tag, _) => tag
    case PInst(_) => OBJECT_TAG
    case POpaque(tag) => tag
    case PStr(_) => STRING_TAG
    case PNum(_, _) => CUSTOM_TAG
  }

  // Within a group, numbers, addresses, and objects by their identifiers are in order; of two blocks the one
  // with fewer fields comes first, or else the one with the smaller field where they differ first.
  ghost predicate Precedes(p: Plain, q: Plain)
    decreases p, 0
  {
    || Group(p) < Group(q)
    || (Group(p) == Group(q) &&
        match (p, q)
        case (PInt(n), PInt(m)) => n < m
        case (POut(a), POut(b)) => a < b
        case (PStr(s), PStr(t)) => BytesPrecede(s, t)
        case (PInst(i), PInst(j)) => i < j
        case (PNum(_, n), PNum(_, m)) => n < m
        case (PBlk(_, k), PBlk(_, l)) =>
          |k| < |l| || (|k| == |l| && exists i :: 0 <= i < |k| && k[..i] == l[..i] && Precedes(k[i], l[i]))
        case _ => false)
  }

  ghost predicate KidsPrecede(k: seq<Plain>, l: seq<Plain>, i: int)
    requires |k| == |l|
  {
    0 <= i < |k| && k[..i] == l[..i] && Precedes(k[i], l[i])
  }

  lemma {:induction false} OrderMeaning(p: Plain, q: Plain)
    requires Comparable(p) && Comparable(q)
    ensures Order(p, q).Cmp? && (Order(p, q).n < 0 <==> Precedes(p, q))
    decreases p, 0
  {
    OrderAnti(p, q);
    if p.PStr? && q.PStr? {
      BytesMeaning(p.bytes, q.bytes);
    } else if p.PBlk? && q.PBlk? && p.tag == q.tag && |p.kids| == |q.kids| {
      KidsMeaning(p.kids, q.kids);
      var k, l := p.kids, q.kids;
      assert (exists i :: KidsPrecede(k, l, i)) <==>
             (exists i :: 0 <= i < |k| && k[..i] == l[..i] && Precedes(k[i], l[i])) by {
        if i :| KidsPrecede(k, l, i) { assert k[..i] == l[..i]; }
        if i :| 0 <= i < |k| && k[..i] == l[..i] && Precedes(k[i], l[i]) { assert KidsPrecede(k, l, i); }
      }
    }
  }

  lemma {:induction false} KidsMeaning(k: seq<Plain>, l: seq<Plain>)
    requires |k| == |l| && AllComparable(k) && AllComparable(l)
    ensures OrderAll(k, l).Cmp? && (OrderAll(k, l).n < 0 <==> exists i :: KidsPrecede(k, l, i))
    decreases k, 0
  {
    if k != [] {
      OrderMeaning(k[0], l[0]);
      OrderAnti(k[0], l[0]);
      KidsMeaning(k[1..], l[1..]);
      if Order(k[0], l[0]) == Cmp(0) {
        OrderMeaning(k[0], k[0]);
        if i :| KidsPrecede(k[1..], l[1..], i) { KidsLater(k, l, i + 1); }
        if i :| KidsPrecede(k, l, i) { KidsLater(k, l, i); }
      } else {
        if i :| KidsPrecede(k, l, i) { KidsFirst(k, l, i); }
        if Order(k[0], l[0]).n < 0 { assert KidsPrecede(k, l, 0); }
      }
    }
  }

  lemma KidsFirst(k: seq<Plain>, l: seq<Plain>, i: int)
    requires |k| == |l| && KidsPrecede(k, l, i)
    ensures i == 0 || k[0] == l[0]
  {
    if i > 0 { assert k[..i][0] == k[0] && l[..i][0] == l[0]; }
  }

  lemma KidsLater(k: seq<Plain>, l: seq<Plain>, i: int)
    requires |k| == |l| > 0 && k[0] == l[0] && !Precedes(k[0], l[0])
    ensures KidsPrecede(k, l, i) <==> i >= 1 && KidsPrecede(k[1..], l[1..], i - 1)
  {
    if 1 <= i < |k| {
      assert k[..i] == [k[0]] + k[1..][..i - 1] && l[..i] == [l[0]] + l[1..][..i - 1];
      assert k[..i][1..] == k[1..][..i - 1] && l[..i][1..] == l[1..][..i - 1];
    }
  }

  // ---- What cannot be compared ----

  predicate Proper(p: Plain) {
    match p
    case POpaque(tag) => tag == CLOSURE_TAG || tag == INFIX_TAG || tag == ABSTRACT_TAG
    case PBlk(tag, kids) => tag <= LAZY_TAG && forall i :: 0 <= i < |kids| ==> Proper(kids[i])
    case _ => true
  }

  // The comparison ends with r: it is the exception for functional values at two closures, and that for abstract
  // values at two abstract blocks and at custom blocks without a comparison function, or at the first fields that
  // are not equal.
  ghost predicate Fails(p: Plain, q: Plain, r: Outcome)
    decreases p, 0
  {
    match (p, q)
    case (POpaque(tag), POpaque(tag')) => tag == tag' && r == if tag == ABSTRACT_TAG then Abstract else Functional
    case (PNum(compares, _), PNum(_, _)) => !compares && r == Abstract
    case (PBlk(tag, k), PBlk(tag', l)) =>
      && tag == tag' && |k| == |l|
      && exists i :: 0 <= i < |k| && (forall j :: 0 <= j < i ==> Order(k[j], l[j]) == Cmp(0)) && Fails(k[i], l[i], r)
    case _ => false
  }

  ghost predicate KidsFail(k: seq<Plain>, l: seq<Plain>, r: Outcome, i: int)
    requires |k| == |l|
  {
    0 <= i < |k| && (forall j :: 0 <= j < i ==> Order(k[j], l[j]) == Cmp(0)) && Fails(k[i], l[i], r)
  }

  lemma {:induction false} FailsExactly(p: Plain, q: Plain, r: Outcome)
    requires Proper(p) && Proper(q) && !r.Cmp?
    ensures Order(p, q) == r <==> Fails(p, q, r)
    decreases p, 0
  {
    if p.PBlk? && q.PBlk? && p.tag == q.tag && |p.kids| == |q.kids| {
      KidsFailExactly(p.kids, q.kids, r);
      BlocksFail(p, q, r);
    }
  }

  lemma BlocksFail(p: Plain, q: Plain, r: Outcome)
    requires p.PBlk? && q.PBlk? && p.tag == q.tag && |p.kids| == |q.kids|
    ensures Fails(p, q, r) <==> exists i :: KidsFail(p.kids, q.kids, r, i)
  {
    hide Order;
    var k, l := p.kids, q.kids;
    if i :| KidsFail(k, l, r, i) { assert Fails(k[i], l[i], r); }
    if Fails(p, q, r) {
      var i :| 0 <= i < |k| && (forall j :: 0 <= j < i ==> Order(k[j], l[j]) == Cmp(0)) && Fails(k[i], l[i], r);
      assert KidsFail(k, l, r, i);
    }
  }

  lemma {:induction false} KidsFailExactly(k: seq<Plain>, l: seq<Plain>, r: Outcome)
    requires |k| == |l| && !r.Cmp?
    requires forall i :: 0 <= i < |k| ==> Proper(k[i]) && Proper(l[i])
    ensures OrderAll(k, l) == r <==> exists i :: KidsFail(k, l, r, i)
    decreases k, 0
  {
    if k != [] {
      FailsExactly(k[0], l[0], r);
      if Order(k[0], l[0]) == Cmp(0) {
        KidsFailExactly(k[1..], l[1..], r);
        if i :| KidsFail(k[1..], l[1..], r, i) { KidsFailLater(k, l, r, i + 1); }
        if i :| KidsFail(k, l, r, i) { KidsFailLater(k, l, r, i); }
      } else {
        if Order(k[0], l[0]) == r { assert KidsFail(k, l, r, 0); }
        if i :| KidsFail(k, l, r, i) { assert i == 0; }
      }
    }
  }

  lemma KidsFailLater(k: seq<Plain>, l: seq<Plain>, r: Outcome, i: int)
    requires |k| == |l| > 0 && Order(k[0], l[0]) == Cmp(0) && !Fails(k[0], l[0], r)
    ensures KidsFail(k, l, r, i) <==> i >= 1 && KidsFail(k[1..], l[1..], r, i - 1)
  {
    if 1 <= i < |k| {
      var k', l' := k[1..], l[1..];
      assert forall j :: 1 <= j < i ==> k[j] == k'[j - 1] && l[j] == l'[j - 1];
      assert forall j :: 0 <= j < i - 1 ==> k'[j] == k[j + 1] && l'[j] == l[j + 1];
    }
  }

  lemma {:induction false} ProperStructure(t: Tree)
    requires Closed(t)
    ensures Proper(Structure(t))
  {
    match t
    case Fwd(_, target) => ProperStructure(target);
    case Blk(_, _, kids) =>
      StructureAll(t);
      forall i | 0 <= i < |kids| ensures Proper(Structures(kids)[i]) { ProperStructure(kids[i]); }
    case _ =>
  }
}
