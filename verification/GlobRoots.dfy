// The three root lists of globroots.c: generational roots are never lost.
module GlobRoots {
  import opened Lists
  import opened SkipList

  // What a root holds: an immediate, a block of the minor or of the major heap, or a block of neither.
  datatype Val = Imm(n: int) | Young(a: nat) | Major(a: nat) | Elsewhere(a: nat)

  // A minor collection finds root r if it holds a young block; a root with a major block is in some list.
  ghost predicate Covered(v: Val, r: int, young: set<int>, old_: set<int>) {
    match v
    case Young(_) => r in young
    case Major(_) => r in young || r in old_
    case _ => true
  }

  // The one change that loses the root: from a block outside both heaps, when no list has it.
  ghost predicate Lost(before: Val, after: Val, r: int, young: set<int>, old_: set<int>) {
    before.Elsewhere? && ((after.Young? && r !in young) || (after.Major? && r !in young && r !in old_))
  }

  // Whether a root is in the young list after a change of what it holds, and whether in the old one.
  ghost predicate ListedYoung(before: Val, after: Val, listed: bool) {
    (after.Young? && (before.Major? || before.Imm?)) || (listed && !(before.Young? && after.Imm?))
  }

  ghost predicate ListedOld(before: Val, after: Val, listed: bool) {
    (after.Major? && before.Imm?) || (listed && !(before.Major? && (after.Young? || after.Imm?)))
  }

  class GlobalRoots {
    const roots: RootList           // caml_global_roots, and the two lists of generational roots
    const young: RootList
    const old_: RootList
    var mem: map<int, Val>          // what is at the addresses of the roots
    var seed: nat                   // random_seed
    ghost var gen: set<int>         // the generational roots that are registered

    ghost predicate Valid()
      reads this, roots, young, old_
    {
      && roots != young && young != old_ && roots != old_
      && roots.Valid() && young.Valid() && old_.Valid() && seed < WORD32
      && (forall r :: r in gen ==> r >= 2 && r in mem)
      && (forall r :: r in young.Contents() || r in roots.Contents() ==> r >= 2 && r in mem)
    }

    ghost predicate AllCovered()
      reads this, roots, young, old_
      requires Valid()
    {
      forall r :: r in gen ==> Covered(mem[r], r, young.Contents(), old_.Contents())
    }

    constructor (mem: map<int, Val>)
      ensures Valid() && AllCovered() && fresh(roots) && fresh(young) && fresh(old_) && this.mem == mem
      ensures gen == {} && roots.Contents() == {} && young.Contents() == {} && old_.Contents() == {}
    {
      this.mem, seed, gen := mem, 0, {};
      roots := new RootList();
      young := new RootList();
      old_ := new RootList();
    }

    // caml_register_global_root
    method RegisterPlain(r: int)
      requires Valid() && r >= 2 && r in mem
      modifies `seed, roots
      ensures Valid() && roots.Contents() == old(roots.Contents()) + {r}
    {
      seed := roots.Insert(r, seed);
    }

    // caml_remove_global_root
    method RemovePlain(r: int)
      requires Valid() && r >= 2
      modifies roots
      ensures Valid() && roots.Contents() == old(roots.Contents()) - {r}
    {
      roots.Delete(r);
    }

    // caml_register_generational_global_root
    method Register(r: int)
      requires Valid() && AllCovered() && r >= 2 && r in mem
      modifies this, young, old_
      ensures Valid() && AllCovered() && gen == old(gen) + {r} && mem == old(mem)
      ensures young.Contents() == if mem[r].Young? then old(young.Contents()) + {r} else old(young.Contents())
      ensures old_.Contents() == if mem[r].Major? then old(old_.Contents()) + {r} else old(old_.Contents())
    {
      if mem[r].Young? {
        seed := young.Insert(r, seed);
      } else if mem[r].Major? {
        seed := old_.Insert(r, seed);
      }
      gen := gen + {r};
    }

    // caml_remove_generational_global_root.  It looks in one list only; r may stay in the other.
    method Remove(r: int)
      requires Valid() && AllCovered() && r in gen
      modifies this, young, old_
      ensures Valid() && AllCovered() && gen == old(gen) - {r} && mem == old(mem)
      ensures r in young.Contents() <==> r in old(young.Contents()) && !mem[r].Young?
      ensures r in old_.Contents() <==> r in old(old_.Contents()) && !mem[r].Major?
    {
      if mem[r].Young? {
        young.Delete(r);
      } else if mem[r].Major? {
        old_.Delete(r);
      }
      gen := gen - {r};
    }

    // caml_modify_generational_global_root
    method Modify(r: int, v: Val)
      requires Valid() && AllCovered() && r in gen
      modifies this, young, old_
      ensures Valid() && mem == old(mem)[r := v] && gen == old(gen)
      ensures AllCovered() <==> !Lost(old(mem[r]), v, r, old(young.Contents()), old(old_.Contents()))
      ensures young.Contents() - {r} == old(young.Contents()) - {r}
      ensures old_.Contents() - {r} == old(old_.Contents()) - {r}
      ensures r in young.Contents() <==> ListedYoung(old(mem[r]), v, r in old(young.Contents()))
      ensures r in old_.Contents() <==> ListedOld(old(mem[r]), v, r in old(old_.Contents()))
    {
      hide LevelsOk;
      hide AllLinked;
      hide Elements;
      var before := mem[r];
      ghost var y0, o0 := young.Contents(), old_.Contents();
      Relist(r, before, v);
      mem := mem[r := v];
      assert Covered(before, r, y0, o0);
      assert Covered(v, r, young.Contents(), old_.Contents()) <==> !Lost(before, v, r, y0, o0);
      forall q | q in gen && q != r ensures Covered(mem[q], q, young.Contents(), old_.Contents()) {
        assert Covered(mem[q], q, y0, o0);
        assert q in young.Contents() - {r} <==> q in y0 - {r};
        assert q in old_.Contents() - {r} <==> q in o0 - {r};
      }
    }

    // The lists, when root r that held one value is to hold another.
    method Relist(r: int, before: Val, v: Val)
      requires Valid() && r in gen
      modifies `seed, young, old_
      ensures Valid()
      ensures young.Contents() - {r} == old(young.Contents()) - {r}
      ensures old_.Contents() - {r} == old(old_.Contents()) - {r}
      ensures r in young.Contents() <==> ListedYoung(before, v, r in old(young.Contents()))
      ensures r in old_.Contents() <==> ListedOld(before, v, r in old(old_.Contents()))
    {
      hide LevelsOk;
      hide AllLinked;
      hide Elements;
      if v.Young? && before.Major? {
        old_.Delete(r);
        seed := young.Insert(r, seed);
      } else if before.Imm? && !v.Imm? {
        if v.Young? {
          seed := young.Insert(r, seed);
        } else if v.Major? {
          seed := old_.Insert(r, seed);
        }
      } else if !before.Imm? && v.Imm? {
        if before.Young? {
          young.Delete(r);
        } else if before.Major? {
          old_.Delete(r);
        }
      }
    }

    // The collector's action on what the roots of a list hold.
    method Apply(list: RootList, f: Val -> Val)
      requires Valid() && (list == roots || list == young)
      modifies `mem
      ensures Valid() && mem.Keys == old(mem.Keys)
      ensures forall r :: r in mem ==> mem[r] == if r in list.Contents() then f(old(mem)[r]) else old(mem)[r]
    {
      var rs := list.Iterate();
      for i := 0 to |rs|
        invariant Valid() && mem.Keys == old(mem.Keys)
        invariant forall r :: r in mem ==> mem[r] == if r in rs[..i] then f(old(mem)[r]) else old(mem)[r]
      {
        assert rs[i] in Elements(rs);
        mem := mem[rs[i] := f(mem[rs[i]])];
      }
      assert rs[..|rs|] == rs;
    }

    // caml_scan_global_young_roots.  The action leaves no young block and nothing else changed.
    method ScanYoung(f: Val -> Val)
      requires Valid() && AllCovered() && forall v :: !f(v).Young? && (v.Young? || f(v) == v)
      modifies this, young, old_
      ensures Valid() && AllCovered() && gen == old(gen) && young.Contents() == {}
      ensures old_.Contents() == old(old_.Contents()) + old(young.Contents())
      ensures mem.Keys == old(mem.Keys)
      ensures forall r :: r in mem ==>
        mem[r] == if r in roots.Contents() || r in old(young.Contents()) then f(old(mem)[r]) else old(mem)[r]
      ensures forall r :: r in gen ==> mem[r] == f(old(mem)[r])
    {
      hide LevelsOk;
      hide AllLinked;
      hide Elements;
      Apply(roots, f);
      Apply(young, f);
      assert forall r :: r in gen ==> Covered(old(mem)[r], r, young.Contents(), old_.Contents());
      MoveYoung();
    }

    // Move young roots to old roots.
    method MoveYoung()
      requires Valid()
      modifies `seed, young, old_
      ensures Valid() && young.Contents() == {}
      ensures old_.Contents() == old(old_.Contents()) + old(young.Contents())
    {
      hide LevelsOk;
      hide AllLinked;
      hide Ascending;
      hide Elements;
      var rs := young.Iterate();
      ghost var o0, y0 := old_.Contents(), young.Contents();
      NoElements(rs);
      for i := 0 to |rs|
        invariant Valid() && young.Contents() == y0 && old_.Contents() == o0 + Elements(rs[..i])
      {
        OneElement(rs, i);
        seed := old_.Insert(rs[i], seed);
      }
      young.Empty();
    }
  }

  lemma NoElements(rs: seq<int>)
    ensures Elements(rs[..0]) == {} && rs[..|rs|] == rs
  {
  }

  lemma OneElement(rs: seq<int>, i: nat)
    requires i < |rs|
    ensures rs[i] in Elements(rs) && Elements(rs[..i + 1]) == Elements(rs[..i]) + {rs[i]}
  {
    assert rs[..i + 1] == rs[..i] + [rs[i]];
  }

  // A run that loses a root: it holds a block outside both heaps when it is registered, and a young one later.
  method LoseRoot() returns (g: GlobalRoots)
    ensures fresh(g) && g.Valid() && 4 in g.gen && g.mem == map[4 := Young(1)] && !g.AllCovered()
  {
    g := new GlobalRoots(map[4 := Elsewhere(9)]);
    g.Register(4);
    g.Modify(4, Young(1));
  }
  // A run after which a list has a root that was removed: it was in the young list when it was given a block of
  // the major heap.
  method KeepRemoved() returns (g: GlobalRoots)
    ensures fresh(g) && g.Valid() && 4 !in g.gen && 4 in g.young.Contents()
  {
    g := new GlobalRoots(map[4 := Young(1)]);
    g.Register(4);
    g.Modify(4, Major(2));
    g.Remove(4);
  }
}
