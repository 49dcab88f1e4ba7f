// What extern_rec says about a heap graph: the tokens, the numbering of the blocks, and the graph that
// the tokens describe.
module MarshalGraph {
  import opened Header
  import opened MarshalBytes

  datatype Word =
    | Imm(n: int)                   // tagged integer
    | Ptr(a: nat)                   // pointer to a block of the value area
    | Out(p: nat)                   // any other pointer
    | Raw(bs: seq<Byte>)            // eight bytes of a string
    | Ops(kind: Option<Kind>)       // the operations of a custom block; none if it cannot be serialized
    | Num(n: int)                   // its data
    | Mark(d: nat)                  // the number extern_record_location leaves in field 0

  datatype Node = Node(tag: nat, color: Color, words: seq<Word>)
  type Graph = map<nat, Node>

  // ---- Strings ----

  // The padding: null characters, then how many bytes of the last word are padding.
  function Padded(s: seq<Byte>): (r: seq<Byte>)
    ensures |r| == 8 * ((|s| + 8) / 8)
  {
    var n: nat := 7 - |s| % 8;
    s + seq(n, _ => 0) + [n]
  }

  function StringWords(s: seq<Byte>): (ws: seq<Word>)
    ensures |ws| == (|s| + 8) / 8
  {
    seq((|s| + 8) / 8, i requires 0 <= i < (|s| + 8) / 8 => Raw(Padded(s)[8 * i..8 * i + 8]))
  }

  predicate RawWords(ws: seq<Word>) {
    forall w :: w in ws ==> w.Raw? && |w.bs| == 8
  }

  function Bytes(ws: seq<Word>): (bs: seq<Byte>)
    requires RawWords(ws)
    ensures |bs| == 8 * |ws|
  {
    if ws == [] then [] else Bytes(ws[..|ws| - 1]) + ws[|ws| - 1].bs
  }

  // caml_string_length.
  function StringLength(ws: seq<Word>): int
    requires ws != [] && RawWords(ws)
  {
    8 * |ws| - 1 - ws[|ws| - 1].bs[7]
  }

  function StringOf(ws: seq<Word>): seq<Byte>
    requires ws != [] && RawWords(ws) && StringLength(ws) >= 0
  {
    Bytes(ws)[..StringLength(ws)]
  }

  predicate StringOk(ws: seq<Word>) {
    ws != [] && RawWords(ws) && StringLength(ws) >= 0 && ws == StringWords(StringOf(ws))
  }

  // ---- Graphs ----

  predicate Scanned(tag: nat) { tag < NO_SCAN_TAG }

  predicate ValueOk(g: Graph, w: Word) {
    match w
    case Imm(n) => Holds(Int(n))
    case Ptr(a) => a in g
    case Out(_) => true
    case _ => false
  }

  // The color bits that are written for a block without fields: those of its header, unless a code of one byte
  // is enough.
  function AtomColor(o: Node): nat {
    if o.tag < 16 then 0
    else
      match o.color
      case White => 0
      case Gray => 1
      case Blue => 2
      case Black => 3
  }

  predicate NodeOk(g: Graph, o: Node) {
    && Holds(Blk(|o.words|, o.tag, 0)) && o.color != Blue
    && o.tag != INFIX_TAG && o.tag != DOUBLE_TAG && o.tag != DOUBLE_ARRAY_TAG
    && (Scanned(o.tag) ==> forall w :: w in o.words ==> ValueOk(g, w))
    && (o.tag == FORWARD_TAG ==> |o.words| == 1)
    && (o.words != [] && o.tag == STRING_TAG ==> StringOk(o.words))
    && (o.words != [] && o.tag == CUSTOM_TAG ==>
          && |o.words| == 2 && o.words[0].Ops? && o.words[1].Num?
          && (o.words[0].kind.Some? ==> Holds(Custom(o.words[0].kind.value, o.words[1].n))))
  }

  ghost predicate GraphOk(g: Graph) {
    forall a :: a in g ==> NodeOk(g, g[a])
  }

  // Is a forwarding block with content f bypassed?
  predicate Bypassed(g: Graph, f: Word) {
    match f
    case Imm(_) => true
    case Ptr(b) => b in g && g[b].tag != FORWARD_TAG && g[b].tag != LAZY_TAG && g[b].tag != DOUBLE_TAG
    case _ => false
  }

  // What v is after the forwarding blocks that are bypassed.
  function Bypass(g: Graph, v: Word): (r: Word) {
    if v.Ptr? && v.a in g && g[v.a].tag == FORWARD_TAG && g[v.a].words != [] && Bypassed(g, g[v.a].words[0])
    then g[v.a].words[0]
    else v
  }

  // ---- Forcing ----

  datatype Forced = Done(v: Word) | Suspended | Unknown

  // What v gives when it is forced: a forwarding block gives its content, a lazy block has to run first, and what
  // is no lazy block is its own value.
  function Force(g: Graph, v: Word): Forced {
    match v
    case Imm(_) => Done(v)
    case Ptr(a) =>
      if a !in g then Unknown
      else if g[a].tag == FORWARD_TAG && g[a].words != [] then Done(g[a].words[0])
      else if g[a].tag == LAZY_TAG then Suspended
      else Done(v)
    case _ => Unknown
  }

  // A forwarding block is bypassed exactly if its content is a value, known not to be lazy and not a float.
  lemma BypassedExactly(g: Graph, f: Word)
    requires GraphOk(g)
    ensures Bypassed(g, f) <==>
      Force(g, f) == Done(f) && !(f.Ptr? && (g[f.a].tag == FORWARD_TAG || g[f.a].tag == DOUBLE_TAG))
  {
    if f.Ptr? && f.a in g { assert NodeOk(g, g[f.a]); }
  }

  // Whoever forces a value gets the same whether forwarding blocks were bypassed or not.
  lemma BypassForce(g: Graph, v: Word)
    requires GraphOk(g) && ValueOk(g, v)
    ensures ValueOk(g, Bypass(g, v)) && Force(g, Bypass(g, v)) == Force(g, v)
  {
    if Bypass(g, v) != v {
      assert NodeOk(g, g[v.a]) && g[v.a].words[0] in g[v.a].words;
      BypassedExactly(g, g[v.a].words[0]);
    }
  }

  // ---- The numbering ----

  function IndexOf(order: seq<nat>, a: nat): (i: nat)
    requires a in order
    ensures i < |order| && order[i] == a
  {
    if order[0] == a then 0 else 1 + IndexOf(order[1..], a)
  }

  lemma {:induction false} IndexStays(order: seq<nat>, more: seq<nat>, a: nat)
    requires a in order && order <= more
    ensures a in more && IndexOf(more, a) == IndexOf(order, a)
    decreases |order|
  {
    var i :| 0 <= i < |order| && order[i] == a;
    assert more[i] == a;
    if order[0] != a {
      assert order[1..][i - 1] == a;
      IndexStays(order[1..], more[1..], a);
    }
  }

  ghost function Unseen(g: Graph, order: seq<nat>): set<nat> {
    set a | a in g && a !in order
  }

  // A forwarding block that has been numbered, when the number, taken for its content, looks like an
  // integer: extern_rec tests the content before it tests for the mark.
  predicate Confused(g: Graph, order: seq<nat>, v: Word) {
    v.Ptr? && v.a in g && g[v.a].tag == FORWARD_TAG && v.a in order && IndexOf(order, v.a) % 2 == 1
  }

  // What extern_rec takes v for.
  function Look(g: Graph, order: seq<nat>, v: Word): Word {
    if Confused(g, order, v) then Imm(IndexOf(order, v.a) / 2)
    else if v.Ptr? && v.a in order then v
    else Bypass(g, v)
  }

  // ---- The visit ----

  // A value in what the tokens describe.
  datatype Ref = RImm(n: int) | RAtom(tag: nat) | RObj(i: nat)

  datatype Copy = CStr(s: seq<Byte>) | CCustom(kind: Kind, n: int) | CBlk(tag: nat, refs: seq<Ref>)

  // refs: what was said of the values visited; order: the blocks numbered so far; copies: the blocks
  // numbered by this visit; clean: no value was confused.
  datatype Trace = Trace(refs: seq<Ref>, toks: seq<Token>, order: seq<nat>, copies: seq<Copy>, clean: bool)

  datatype Visited = Said(t: Trace) | Refused

  ghost predicate Continues(g: Graph, order: seq<nat>, n: nat, r: Visited) {
    r.Said? ==>
      && |r.t.refs| == n && order <= r.t.order && |r.t.order| == |order| + |r.t.copies|
      && Unseen(g, r.t.order) <= Unseen(g, order)
  }

  ghost function Rank(g: Graph, order: seq<nat>): nat {
    |Unseen(g, order)|
  }

  lemma RankLess(g: Graph, order: seq<nat>, a: nat)
    requires a in g && a !in order
    ensures Rank(g, order + [a]) < Rank(g, order)
    ensures Unseen(g, order + [a]) <= Unseen(g, order)
  {
    assert a in Unseen(g, order) && a !in Unseen(g, order + [a]) by {
      assert (order + [a])[|order|] == a;
    }
    forall x | x in Unseen(g, order + [a]) ensures x in Unseen(g, order) {
      assert forall i :: 0 <= i < |order| ==> (order + [a])[i] == order[i];
    }
    SubsetSize(Unseen(g, order + [a]), Unseen(g, order), a);
  }

  lemma SubsetSize(s: set<nat>, t: set<nat>, a: nat)
    requires s <= t && a in t && a !in s
    ensures |s| < |t|
  {
    SubsetAtMost(s, t - {a});
  }

  lemma {:induction false} SubsetAtMost(s: set<nat>, t: set<nat>)
    requires s <= t
    ensures |s| <= |t|
    decreases |s|
  {
    if s != {} {
      var x :| x in s;
      SubsetAtMost(s - {x}, t - {x});
    }
  }

  // extern_rec on one value.
  ghost function Visit(g: Graph, order: seq<nat>, v: Word): (r: Visited)
    requires GraphOk(g)
    ensures Continues(g, order, 1, r)
    decreases Rank(g, order), 0
  {
    var clean := !Confused(g, order, v);
    match Look(g, order, v)
    case Imm(n) => Said(Trace([RImm(n)], [Int(n)], order, [], clean))
    case Ptr(a) =>
      if a !in g then Refused
      else
        var o := g[a];
        assert NodeOk(g, o);
        if o.words == [] then Said(Trace([RAtom(o.tag)], [Blk(0, o.tag, AtomColor(o))], order, [], clean))
        else if a in order then
          var i := IndexOf(order, a);
          Said(Trace([RObj(i)], [Shared(|order| - i)], order, [], clean))
        else
          RankLess(g, order, a);
          if o.tag == STRING_TAG then
            var s := StringOf(o.words);
            Said(Trace([RObj(|order|)], [Str(s)], order + [a], [CStr(s)], clean))
          else if o.tag == ABSTRACT_TAG then Refused
          else if o.tag == CUSTOM_TAG then
            if o.words[0].kind.None? then Refused
            else
              var k, n := o.words[0].kind.value, o.words[1].n;
              Said(Trace([RObj(|order|)], [Custom(k, n)], order + [a], [CCustom(k, n)], clean))
          else
            var r := VisitAll(g, order + [a], o.words);
            if r.Refused? then Refused
            else
              Said(Trace([RObj(|order|)], [Blk(|o.words|, o.tag, 0)] + r.t.toks, r.t.order,
                         [CBlk(o.tag, r.t.refs)] + r.t.copies, clean && r.t.clean))
    case _ => Refused
  }

  // extern_rec on the fields of a block, in order.
  ghost function VisitAll(g: Graph, order: seq<nat>, vs: seq<Word>): (r: Visited)
    requires GraphOk(g)
    ensures Continues(g, order, |vs|, r)
    decreases Rank(g, order), 1 + |vs|
  {
    if vs == [] then Said(Trace([], [], order, [], true))
    else
      var r := Visit(g, order, vs[0]);
      if r.Refused? then Refused
      else
        var t := r.t;
        SubsetAtMost(Unseen(g, t.order), Unseen(g, order));
        var r' := VisitAll(g, t.order, vs[1..]);
        if r'.Refused? then Refused
        else
          var u := r'.t;
          Said(Trace(t.refs + u.refs, t.toks + u.toks, u.order, t.copies + u.copies, t.clean && u.clean))
  }
}
