// Ascending lists of addresses, linked from a sentinel.
module Lists {

  const HEAD: int := 0     // the sentinel, below every address
  const NULL: int := -1

  // Entry p of the list, from the sentinel, which is entry -1, to the null pointer after the last.
  function At(list: seq<int>, p: int): int {
    if p < 0 then HEAD else if p < |list| then list[p] else NULL
  }

  ghost predicate LinkAt(next: map<int, int>, list: seq<int>, p: int) {
    At(list, p) in next && var q := p + 1; next[At(list, p)] == At(list, q)
  }

  ghost predicate Linked(next: map<int, int>, list: seq<int>) {
    forall p :: -1 <= p < |list| ==> LinkAt(next, list, p)
  }

  ghost predicate Ascending(list: seq<int>) {
    && (forall i :: 0 <= i < |list| ==> 2 <= list[i])
    && (forall i, j :: 0 <= i < j < |list| ==> list[i] < list[j])
  }

  function Without(list: seq<int>, p: nat): seq<int>
    requires p < |list|
  {
    list[..p] + list[p + 1..]
  }

  function With(list: seq<int>, p: nat, b: int): seq<int>
    requires p <= |list|
  {
    list[..p] + [b] + list[p..]
  }

  lemma WithoutIs(list: seq<int>, p: nat)
    requires Ascending(list) && p < |list|
    ensures Ascending(Without(list, p))
    ensures forall x :: x in Without(list, p) <==> x in list && x != list[p]
    ensures forall q :: q < p ==> At(Without(list, p), q) == At(list, q)
    ensures forall q :: p <= q ==> var r := q + 1; At(Without(list, p), q) == At(list, r)
  {
    var l := Without(list, p);
    forall x | x in list && x != list[p] ensures x in l {
      var i :| 0 <= i < |list| && list[i] == x;
      if i < p { assert l[i] == x; } else { assert l[i - 1] == x; }
    }
  }

  lemma WithElems(list: seq<int>, p: nat, b: int)
    requires p <= |list|
    ensures forall x :: x in With(list, p, b) <==> x in list || x == b
  {
    var l := With(list, p, b);
    forall x | x in list ensures x in l {
      var i :| 0 <= i < |list| && list[i] == x;
      if i < p { assert l[i] == x; } else { assert l[i + 1] == x; }
    }
    assert l[p] == b;
  }

  lemma WithAt(list: seq<int>, p: nat, b: int)
    requires p <= |list|
    ensures forall q :: q < p ==> At(With(list, p, b), q) == At(list, q)
    ensures At(With(list, p, b), p) == b
    ensures forall q :: p <= q ==> var r := q + 1; At(With(list, p, b), r) == At(list, q)
  {
  }

  lemma WithIs(list: seq<int>, p: nat, b: int)
    requires Ascending(list) && p <= |list| && 2 <= b
    requires (p > 0 ==> list[p - 1] < b) && (p < |list| ==> b < list[p])
    ensures Ascending(With(list, p, b))
    ensures forall x :: x in With(list, p, b) <==> x in list || x == b
    ensures forall q :: q < p ==> At(With(list, p, b), q) == At(list, q)
    ensures At(With(list, p, b), p) == b
    ensures forall q :: p <= q ==> var r := q + 1; At(With(list, p, b), r) == At(list, q)
  {
    WithElems(list, p, b);
    WithAt(list, p, b);
  }

  lemma RemoveLinked(next: map<int, int>, list: seq<int>, p: nat)
    requires Ascending(list) && Linked(next, list) && p < |list|
    ensures At(list, p - 1) in next && list[p] in next
    ensures Linked(next[At(list, p - 1) := next[list[p]]], Without(list, p))
  {
    assert LinkAt(next, list, p) && LinkAt(next, list, p - 1);
    var l, next' := Without(list, p), next[At(list, p - 1) := next[list[p]]];
    WithoutIs(list, p);
    forall q | -1 <= q < |l| ensures LinkAt(next', l, q) {
      var r := q + 1;
      if q < p { assert LinkAt(next, list, q); } else { assert LinkAt(next, list, r); }
    }
  }

  lemma InsertLinked(next: map<int, int>, list: seq<int>, p: nat, b: int)
    requires Ascending(list) && Linked(next, list) && p <= |list| && 2 <= b
    requires (p > 0 ==> list[p - 1] < b) && (p < |list| ==> b < list[p])
    ensures Linked(next[b := At(list, p)][At(list, p - 1) := b], With(list, p, b))
  {
    var l, next' := With(list, p, b), next[b := At(list, p)][At(list, p - 1) := b];
    WithIs(list, p, b);
    forall q | -1 <= q < |l| ensures LinkAt(next', l, q) {
      var r := q - 1;
      if q < p { assert LinkAt(next, list, q); } else if q > p { assert LinkAt(next, list, r); }
    }
  }
}
