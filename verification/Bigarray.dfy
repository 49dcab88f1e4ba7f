// bigarray_stubs.c: arrays of any dimension over one block of elements.
module Bigarray {
  import opened Arith
  import Int64

  // c: row major with indices from 0; otherwise column major with indices from 1.  data is where the
  // elements begin, counted in elements.
  datatype Ba = Ba(c: bool, dims: seq<nat>, data: int)

  datatype Result = Ok(b: Ba) | TooManyIndices | OutOfBounds | BadSubArray

  function Prod(ds: seq<nat>): nat {
    if ds == [] then 1 else Prod(ds[..|ds| - 1]) * ds[|ds| - 1]
  }

  // ---- Mixed-radix numbers: the digits of an index, the most significant first ----

  predicate InRange(ds: seq<nat>, js: seq<int>) {
    |js| == |ds| && forall i :: 0 <= i < |ds| ==> 0 <= js[i] < ds[i]
  }

  function Rank(ds: seq<nat>, js: seq<int>): int
    requires |js| == |ds|
  {
    if ds == [] then 0
    else var n := |ds| - 1; Rank(ds[..n], js[..n]) * ds[n] + js[n]
  }

  function Unrank(ds: seq<nat>, v: nat): seq<int>
    requires forall i :: 0 <= i < |ds| ==> ds[i] > 0
  {
    if ds == [] then [] else var n := |ds| - 1; Unrank(ds[..n], v / ds[n]) + [v % ds[n]]
  }

  lemma {:induction false} RankBound(ds: seq<nat>, js: seq<int>)
    requires InRange(ds, js)
    ensures 0 <= Rank(ds, js) < Prod(ds)
  {
    if ds != [] {
      var n := |ds| - 1;
      RankBound(ds[..n], js[..n]);
      DigitBound(Rank(ds[..n], js[..n]), Prod(ds[..n]), ds[n], js[n]);
    }
  }

  lemma DigitBound(r: nat, p: nat, d: nat, j: int)
    requires r < p && 0 <= j < d
    ensures 0 <= r * d + j < p * d
  {
    MulLe(d, r + 1, p);
  }

  // Every number below the product is the rank of exactly one index.
  lemma {:induction false} RankUnrank(ds: seq<nat>, js: seq<int>)
    requires InRange(ds, js)
    ensures forall i :: 0 <= i < |ds| ==> ds[i] > 0
    ensures Rank(ds, js) >= 0 && Unrank(ds, Rank(ds, js)) == js
  {
    if ds != [] {
      var n := |ds| - 1;
      RankBound(ds, js);
      RankBound(ds[..n], js[..n]);
      DivModIs(Rank(ds, js), ds[n], Rank(ds[..n], js[..n]), js[n]);
      RankUnrank(ds[..n], js[..n]);
      assert js == js[..n] + [js[n]];
    }
  }

  lemma {:induction false} UnrankRank(ds: seq<nat>, v: nat)
    requires (forall i :: 0 <= i < |ds| ==> ds[i] > 0) && v < Prod(ds)
    ensures InRange(ds, Unrank(ds, v)) && Rank(ds, Unrank(ds, v)) == v
  {
    if ds != [] {
      var n := |ds| - 1;
      QuotientBelow(v, Prod(ds[..n]), ds[n]);
      UnrankRank(ds[..n], v / ds[n]);
      var js := Unrank(ds, v);
      assert js[..n] == Unrank(ds[..n], v / ds[n]);
    }
  }

  lemma QuotientBelow(v: nat, a: nat, d: nat)
    requires d > 0 && v < a * d
    ensures v / d < a && v == v / d * d + v % d
  {
    LessFactor(v / d, a, d);
  }

  // The digits of a longer number: the first ones count as often as there are values of the rest.
  lemma {:induction false} RankParts(ds: seq<nat>, js: seq<int>, es: seq<nat>, ks: seq<int>)
    requires |ds| == |js| && |es| == |ks|
    ensures Prod(ds + es) == Prod(ds) * Prod(es)
    ensures Rank(ds + es, js + ks) == Rank(ds, js) * Prod(es) + Rank(es, ks)
  {
    if es == [] {
      assert ds + es == ds && js + ks == js;
    } else {
      var n := |es| - 1;
      assert (ds + es)[..|ds + es| - 1] == ds + es[..n] && (js + ks)[..|js + ks| - 1] == js + ks[..n];
      RankParts(ds, js, es[..n], ks[..n]);
      PartsProduct(Prod(ds), Prod(es[..n]), es[n], Rank(ds, js), Rank(es[..n], ks[..n]));
    }
  }

  lemma PartsProduct(a: int, b: int, c: int, r: int, s: int)
    ensures (a * b) * c == a * (b * c) && (r * b + s) * c == r * (b * c) + s * c
  {
  }

  // ---- Both layouts ----

  function Reverse<T>(s: seq<T>): (r: seq<T>)
    ensures |r| == |s| && forall i :: 0 <= i < |s| ==> r[i] == s[|s| - 1 - i]
  {
    seq(|s|, i requires 0 <= i < |s| => s[|s| - 1 - i])
  }

  // The dimensions, the one that changes the address most first; and the digits of an index.
  function Radix(c: bool, dims: seq<nat>): (ds: seq<nat>)
    ensures |ds| == |dims|
  {
    if c then dims else Reverse(dims)
  }

  function DigitsOf(c: bool, index: seq<int>): (js: seq<int>)
    ensures |js| == |index|
  {
    if c then index else seq(|index|, i requires 0 <= i < |index| => index[|index| - 1 - i] - 1)
  }

  predicate InBounds(b: Ba, index: seq<int>) {
    && |index| == |b.dims|
    && forall i :: 0 <= i < |index| ==> if b.c then 0 <= index[i] < b.dims[i] else 1 <= index[i] <= b.dims[i]
  }

  lemma BoundsDigits(b: Ba, index: seq<int>)
    ensures InBounds(b, index) <==> InRange(Radix(b.c, b.dims), DigitsOf(b.c, index))
  {
    if !b.c && InRange(Radix(b.c, b.dims), DigitsOf(b.c, index)) {
      forall i | 0 <= i < |index| ensures 1 <= index[i] <= b.dims[i] {
        var k := |index| - 1 - i;
        assert DigitsOf(b.c, index)[k] == index[i] - 1 && Radix(b.c, b.dims)[k] == b.dims[i];
      }
    }
  }

  // Which element an index means.
  function Address(b: Ba, index: seq<int>): int
    requires |index| == |b.dims|
  {
    b.data + Rank(Radix(b.c, b.dims), DigitsOf(b.c, index))
  }

  // caml_ba_offset
  method Offset(b: Ba, index: seq<int>) returns (ok: bool, offset: int)
    requires |index| == |b.dims|
    ensures ok <==> InBounds(b, index)
    ensures ok ==> b.data + offset == Address(b, index)
  {
    BoundsDigits(b, index);
    if b.c { ok, offset := OffsetRow(b.dims, index); } else { ok, offset := OffsetColumn(b.dims, index); }
  }

  // Row major, indices start at 0.
  method OffsetRow(dims: seq<nat>, index: seq<int>) returns (ok: bool, offset: int)
    requires |index| == |dims|
    ensures ok <==> InRange(dims, index)
    ensures ok ==> offset == Rank(dims, index)
  {
    hide InRange;
    hide Rank;
    offset := 0;
    NothingYet(dims, index);
    for i := 0 to |dims|
      invariant InRange(dims[..i], index[..i]) && offset == Rank(dims[..i], index[..i])
    {
      RankNext(dims, index, i);
      if index[i] < 0 || index[i] >= dims[i] { return false, 0; }
      offset := offset * dims[i] + index[i];
    }
    assert dims[..|dims|] == dims && index[..|dims|] == index;
    ok := true;
  }

  // Column major, indices start at 1.
  method OffsetColumn(dims: seq<nat>, index: seq<int>) returns (ok: bool, offset: int)
    requires |index| == |dims|
    ensures ok <==> InRange(Radix(false, dims), DigitsOf(false, index))
    ensures ok ==> offset == Rank(Radix(false, dims), DigitsOf(false, index))
  {
    hide InRange;
    hide Rank;
    ghost var ds, js := Radix(false, dims), DigitsOf(false, index);
    offset := 0;
    NothingYet(ds, js);
    for i := |dims| downto 0
      invariant var k := |dims| - i; InRange(ds[..k], js[..k]) && offset == Rank(ds[..k], js[..k])
    {
      RankNext(ds, js, |dims| - 1 - i);
      if index[i] - 1 < 0 || index[i] - 1 >= dims[i] { return false, 0; }
      offset := offset * dims[i] + (index[i] - 1);
    }
    assert ds[..|ds|] == ds && js[..|js|] == js;
    ok := true;
  }

  lemma NothingYet(ds: seq<nat>, js: seq<int>)
    requires |js| == |ds|
    ensures InRange(ds[..0], js[..0]) && Rank(ds[..0], js[..0]) == 0
  {
  }

  lemma RankNext(ds: seq<nat>, js: seq<int>, k: nat)
    requires |js| == |ds| > k
    ensures Rank(ds[..k + 1], js[..k + 1]) == Rank(ds[..k], js[..k]) * ds[k] + js[k]
    ensures InRange(ds[..k], js[..k]) && 0 <= js[k] < ds[k] ==> InRange(ds[..k + 1], js[..k + 1])
    ensures InRange(ds, js) ==> 0 <= js[k] < ds[k]
  {
    assert ds[..k + 1][..k] == ds[..k] && js[..k + 1][..k] == js[..k];
  }

  lemma RankNextTo(ds: seq<nat>, js: seq<int>, k: nat)
    requires |js| == |ds| > k
    ensures Rank(ds, js[k := js[k] + 1]) == Rank(ds, js) + Prod(ds[k + 1..])
  {
    hide Prod;
    var js' := js[k := js[k] + 1];
    var r := Rank(ds[..k + 1], js[..k + 1]);
    assert ds == ds[..k + 1] + ds[k + 1..] && js == js[..k + 1] + js[k + 1..] && js' == js'[..k + 1] + js[k + 1..];
    RankParts(ds[..k + 1], js[..k + 1], ds[k + 1..], js[k + 1..]);
    RankParts(ds[..k + 1], js'[..k + 1], ds[k + 1..], js[k + 1..]);
    RankNext(ds, js, k);
    RankNext(ds, js', k);
    assert js'[..k] == js[..k];
    assert (r + 1) * Prod(ds[k + 1..]) == r * Prod(ds[k + 1..]) + Prod(ds[k + 1..]);
  }

  // The element at the lowest index is the first, and a step along one dimension goes past as many elements as
  // there are for the dimensions behind it, or in column-major arrays for the dimensions before it.
  lemma Strides(b: Ba, index: seq<int>, k: nat)
    requires |index| == |b.dims| > k
    ensures Address(b, seq(|index|, _ => if b.c then 0 else 1)) == b.data
    ensures Address(b, index[k := index[k] + 1]) ==
            Address(b, index) + if b.c then Prod(b.dims[k + 1..]) else Prod(b.dims[..k])
  {
    hide Rank;
    hide Prod;
    var n, index' := |index|, index[k := index[k] + 1];
    var ds, js := Radix(b.c, b.dims), DigitsOf(b.c, index);
    RankZeros(ds);
    assert DigitsOf(b.c, seq(n, _ => if b.c then 0 else 1)) == Zeros(n);
    if b.c {
      RankNextTo(ds, js, k);
    } else {
      var j := n - 1 - k;
      RankNextTo(ds, js, j);
      assert DigitsOf(false, index') == js[j := js[j] + 1];
      assert ds[j + 1..] == Reverse(b.dims[..k]);
      ProdReverse(b.dims[..k]);
    }
  }

  // ---- Slices ----

  function Zeros(n: nat): seq<int> {
    seq(n, _ => 0)
  }

  lemma {:induction false} RankZeros(ds: seq<nat>)
    ensures Rank(ds, Zeros(|ds|)) == 0
  {
    if ds != [] {
      var n := |ds| - 1;
      assert Zeros(|ds|)[..n] == Zeros(n);
      RankZeros(ds[..n]);
    }
  }

  // Where the elements begin whose first digits are js.
  function Start(ds: seq<nat>, js: seq<int>): int
    requires |js| <= |ds|
  {
    Rank(ds, js + Zeros(|ds| - |js|))
  }

  lemma StartIs(ds: seq<nat>, js: seq<int>)
    requires |js| <= |ds|
    ensures Start(ds, js) == Rank(ds[..|js|], js) * Prod(ds[|js|..])
  {
    var k := |js|;
    assert ds == ds[..k] + ds[k..];
    RankParts(ds[..k], js, ds[k..], Zeros(|ds| - k));
    RankZeros(ds[k..]);
  }

  // The element at ks of the slice at js is the element at js and ks.
  lemma SliceElement(ds: seq<nat>, js: seq<int>, ks: seq<int>)
    requires |js| + |ks| == |ds|
    ensures Start(ds, js) + Rank(ds[|js|..], ks) == Rank(ds, js + ks)
  {
    StartIs(ds, js);
    assert ds == ds[..|js|] + ds[|js|..];
    RankParts(ds[..|js|], js, ds[|js|..], ks);
  }

  // A slice of a slice is a slice.
  lemma SliceTwice(ds: seq<nat>, js: seq<int>, ks: seq<int>)
    requires |js| + |ks| <= |ds|
    ensures Start(ds, js) + Start(ds[|js|..], ks) == Start(ds, js + ks)
    ensures ds[|js|..][|ks|..] == ds[|js + ks|..]
  {
    var zs := Zeros(|ds| - |js| - |ks|);
    SliceElement(ds, js, ks + zs);
    assert js + (ks + zs) == (js + ks) + zs;
  }

  ghost predicate Sliceable(b: Ba, inds: seq<int>) {
    && |inds| < |b.dims|
    && InRange(Radix(b.c, b.dims)[..|inds|], DigitsOf(b.c, inds))
    && forall i :: |inds| <= i < |b.dims| ==> Radix(b.c, b.dims)[i] > 0
  }

  // caml_ba_slice.  A dimension that is left and is 0 makes the first element out of bounds.
  method Slice(b: Ba, inds: seq<int>) returns (r: Result)
    ensures if |inds| >= |b.dims| then r == TooManyIndices else if !Sliceable(b, inds) then r == OutOfBounds else r.Ok?
    ensures r.Ok? ==> r.b.c == b.c && r.b.data == b.data + Start(Radix(b.c, b.dims), DigitsOf(b.c, inds))
    ensures r.Ok? ==> Radix(b.c, r.b.dims) == Radix(b.c, b.dims)[|inds|..]
  {
    hide DigitsOf;
    hide Radix;
    hide Rank;
    hide InRange;
    if |inds| >= |b.dims| { return TooManyIndices; }
    var n := |b.dims| - |inds|;
    var index := if b.c then inds + Zeros(n) else seq(n, _ => 1) + inds;
    IndexDigits(b.c, inds, n);
    var ok, offset := Offset(b, index);
    SliceBounds(b, inds, index, n);
    if !ok { return OutOfBounds; }
    var dims := if b.c then b.dims[|inds|..] else b.dims[..n];
    RadixLeft(b.c, b.dims, |inds|);
    r := Ok(Ba(b.c, dims, b.data + offset));
  }

  lemma IndexDigits(c: bool, inds: seq<int>, n: nat)
    ensures DigitsOf(c, if c then inds + Zeros(n) else seq(n, _ => 1) + inds) == DigitsOf(c, inds) + Zeros(n)
  {
    var ones: seq<int> := seq(n, _ => 1);
    if !c { assert DigitsOf(false, ones + inds) == DigitsOf(false, inds) + Zeros(n); }
  }

  lemma RadixLeft(c: bool, dims: seq<nat>, k: nat)
    requires k <= |dims|
    ensures Radix(c, if c then dims[k..] else dims[..|dims| - k]) == Radix(c, dims)[k..]
  {
  }

  lemma SliceBounds(b: Ba, inds: seq<int>, index: seq<int>, n: nat)
    requires |inds| + n == |b.dims| == |index| && n > 0 && DigitsOf(b.c, index) == DigitsOf(b.c, inds) + Zeros(n)
    ensures InBounds(b, index) <==> Sliceable(b, inds)
  {
    BoundsDigits(b, index);
    var ds, js, k := Radix(b.c, b.dims), DigitsOf(b.c, index), |inds|;
    assert forall i :: k <= i < |ds| ==> js[i] == 0;
    assert forall i :: 0 <= i < k ==> js[i] == DigitsOf(b.c, inds)[i] && ds[..k][i] == ds[i];
  }

  // What the index of a slice means in the array.
  lemma SliceMeans(b: Ba, s: Ba, inds: seq<int>, index: seq<int>)
    requires |inds| < |b.dims| && s.c == b.c && s.data == b.data + Start(Radix(b.c, b.dims), DigitsOf(b.c, inds))
    requires Radix(b.c, s.dims) == Radix(b.c, b.dims)[|inds|..] && |index| == |s.dims|
    ensures Address(s, index) == Address(b, if b.c then inds + index else index + inds)
  {
    var whole := if b.c then inds + index else index + inds;
    assert DigitsOf(b.c, whole) == DigitsOf(b.c, inds) + DigitsOf(b.c, index);
    SliceElement(Radix(b.c, b.dims), DigitsOf(b.c, inds), DigitsOf(b.c, index));
  }

  // It is in bounds there exactly if it is in the slice.
  lemma SliceInBounds(b: Ba, s: Ba, inds: seq<int>, index: seq<int>)
    requires Sliceable(b, inds) && s.c == b.c && Radix(b.c, s.dims) == Radix(b.c, b.dims)[|inds|..]
    ensures InBounds(s, index) <==> InBounds(b, if b.c then inds + index else index + inds)
  {
    var whole := if b.c then inds + index else index + inds;
    var ds, js, ks := Radix(b.c, b.dims), DigitsOf(b.c, inds), DigitsOf(b.c, index);
    BoundsDigits(s, index);
    BoundsDigits(b, whole);
    assert DigitsOf(b.c, whole) == js + ks;
    if |index| == |s.dims| { RangeParts(ds, js, ks); }
  }

  lemma RangeParts(ds: seq<nat>, js: seq<int>, ks: seq<int>)
    requires |js| + |ks| == |ds| && InRange(ds[..|js|], js)
    ensures InRange(ds, js + ks) <==> InRange(ds[|js|..], ks)
  {
    if InRange(ds, js + ks) {
      forall i | 0 <= i < |ks| ensures 0 <= ks[i] < ds[|js|..][i] {
        assert (js + ks)[|js| + i] == ks[i];
      }
    }
    if InRange(ds[|js|..], ks) {
      forall i | 0 <= i < |ds| ensures 0 <= (js + ks)[i] < ds[i] {
        assert i < |js| ==> ds[..|js|][i] == ds[i];
        assert i >= |js| ==> ds[|js|..][i - |js|] == ds[i];
      }
    }
  }

  // ---- Sub-arrays ----

  // The dimension that is reduced, and from where, counted from 0.
  function Changed(b: Ba): (k: nat)
    requires b.dims != []
    ensures k < |b.dims|
  {
    if b.c then 0 else |b.dims| - 1
  }

  function First(b: Ba, ofs: int): int {
    if b.c then ofs else ofs - 1
  }

  // caml_ba_sub
  method Sub(b: Ba, ofs0: int, len: int) returns (r: Result)
    requires b.dims != []
    ensures r.Ok? <==> 0 <= First(b, ofs0) && 0 <= len && First(b, ofs0) + len <= b.dims[Changed(b)]
    ensures !r.Ok? ==> r == BadSubArray
    ensures r.Ok? ==> len >= 0 && r.b.c == b.c && r.b.dims == b.dims[Changed(b) := len]
    ensures r.Ok? ==> r.b.data == b.data + First(b, ofs0) * Prod(Radix(b.c, b.dims)[1..])
  {
    var mul, changedDim, ofs := 1, 0, ofs0;
    ghost var ds := Radix(b.c, b.dims);
    if b.c {
      for i := 1 to |b.dims|
        invariant mul == Prod(ds[1..i])
      {
        assert ds[1..i + 1][..i - 1] == ds[1..i];
        mul := mul * b.dims[i];
      }
      assert ds[1..|b.dims|] == ds[1..];
    } else {
      for i := 0 to |b.dims| - 1
        invariant mul == Prod(b.dims[..i])
      {
        assert b.dims[..i + 1][..i] == b.dims[..i];
        mul := mul * b.dims[i];
      }
      assert ds[1..] == Reverse(b.dims[..|b.dims| - 1]);
      ProdReverse(b.dims[..|b.dims| - 1]);
      changedDim := |b.dims| - 1;
      ofs := ofs - 1;
    }
    if ofs < 0 || len < 0 || ofs + len > b.dims[changedDim] { return BadSubArray; }
    r := Ok(Ba(b.c, b.dims[changedDim := len], b.data + ofs * mul));
  }

  lemma {:induction false} ProdParts(ds: seq<nat>, es: seq<nat>)
    ensures Prod(ds + es) == Prod(ds) * Prod(es)
  {
    RankParts(ds, Zeros(|ds|), es, Zeros(|es|));
  }

  lemma {:induction false} ProdReverse(ds: seq<nat>)
    ensures Prod(Reverse(ds)) == Prod(ds)
  {
    if ds == [] {
      assert Reverse(ds) == [];
    } else {
      var n := |ds| - 1;
      ProdReverse(ds[..n]);
      assert Reverse(ds) == [ds[n]] + Reverse(ds[..n]);
      ProdParts([ds[n]], Reverse(ds[..n]));
      ProdOne(ds[n]);
    }
  }

  lemma ProdOne(d: nat)
    ensures Prod([d]) == d
  {
    assert [d][..0] == [];
  }

  // The first digit counts as often as there are values of the others, whatever its dimension.
  lemma FirstDigit(ds: seq<nat>, js: seq<int>)
    requires |ds| == |js| > 0
    ensures Rank(ds, js) == js[0] * Prod(ds[1..]) + Rank(ds[1..], js[1..])
  {
    assert ds == [ds[0]] + ds[1..] && js == [js[0]] + js[1..];
    RankParts([ds[0]], [js[0]], ds[1..], js[1..]);
    assert [ds[0]][..0] == [] && [js[0]][..0] == [];
  }

  // What the index of a sub-array means in the array: the changed index is shifted.
  lemma SubMeans(b: Ba, s: Ba, ofs: int, index: seq<int>)
    requires b.dims != [] && |index| == |s.dims| == |b.dims| && s.c == b.c
    requires s.dims == b.dims[Changed(b) := s.dims[Changed(b)]]
    requires s.data == b.data + First(b, ofs) * Prod(Radix(b.c, b.dims)[1..])
    ensures Address(s, index) == Address(b, index[Changed(b) := index[Changed(b)] + First(b, ofs)])
  {
    hide Rank;
    hide Prod;
    var k, f := Changed(b), First(b, ofs);
    var ds, js := Radix(b.c, b.dims), DigitsOf(b.c, index);
    var js' := DigitsOf(b.c, index[k := index[k] + f]);
    assert js' == js[0 := js[0] + f];
    assert Radix(b.c, s.dims)[1..] == ds[1..] && js'[1..] == js[1..];
    FirstDigit(ds, js');
    FirstDigit(Radix(b.c, s.dims), js);
    TwoTerms(js[0], f, Prod(ds[1..]));
  }

  // The elements of a sub-array begin with those at ofs: its index 0 of a row-major array, or 1 of a column-major
  // one, means ofs.
  lemma SubBegins(b: Ba, s: Ba, ofs: int, index: seq<int>)
    requires b.dims != [] && |index| == |s.dims| == |b.dims| && s.c == b.c
    requires s.dims == b.dims[Changed(b) := s.dims[Changed(b)]]
    requires s.data == b.data + First(b, ofs) * Prod(Radix(b.c, b.dims)[1..])
    ensures b.c && index[0] == 0 ==> Address(s, index) == Address(b, index[0 := ofs])
    ensures var n := |index| - 1; !b.c && index[n] == 1 ==> Address(s, index) == Address(b, index[n := ofs])
  {
    SubMeans(b, s, ofs, index);
  }

  lemma TwoTerms(a: int, b: int, p: int)
    ensures (a + b) * p == a * p + b * p
  {
  }

  // An index in bounds of a sub-array is in bounds there.
  lemma SubInBounds(b: Ba, s: Ba, ofs: int, index: seq<int>)
    requires b.dims != [] && |s.dims| == |b.dims| && s.c == b.c && s.dims == b.dims[Changed(b) := s.dims[Changed(b)]]
    requires 0 <= First(b, ofs) && First(b, ofs) + s.dims[Changed(b)] <= b.dims[Changed(b)]
    ensures InBounds(s, index) ==> InBounds(b, index[Changed(b) := index[Changed(b)] + First(b, ofs)])
  {
  }

  // A sub-array of a sub-array is a sub-array.
  lemma SubTwice(b: Ba, ofs: int, ofs': int, s: Ba, t: Ba)
    requires b.dims != [] && |s.dims| == |b.dims| && s.c == b.c && s.dims == b.dims[Changed(b) := s.dims[Changed(b)]]
    requires s.data == b.data + First(b, ofs) * Prod(Radix(b.c, b.dims)[1..])
    requires t.data == s.data + First(s, ofs') * Prod(Radix(s.c, s.dims)[1..])
    ensures t.data == b.data + (First(b, ofs) + First(b, ofs')) * Prod(Radix(b.c, b.dims)[1..])
  {
    assert Radix(s.c, s.dims)[1..] == Radix(b.c, b.dims)[1..];
    var p := Prod(Radix(b.c, b.dims)[1..]);
    assert (First(b, ofs) + First(b, ofs')) * p == First(b, ofs) * p + First(b, ofs') * p;
  }

  // ---- The size of a new array ----

  const B: int := Int64.B
  const M: int := Int64.M

  // caml_ba_multov
  method MulOv(a: nat, b: nat, before: bool) returns (p: nat, overflow: bool)
    requires a < M && b < M
    ensures p == a * b % M && (a * b < M ==> p == a * b) && (overflow <==> before || a * b >= M)
  {
    overflow := before;
    var al, ah, bl, bh := a % B, a / B, b % B, b / B;
    var p1, p2 := al * bh, ah * bl;
    p := a * b % M;
    Int64.WordsProduct(ah, al, bh, bl);
    MulOvParts(al, ah, bl, bh, p1, p2, a * b);
    if ah != 0 && bh != 0 { overflow := true; }
    if p1 / B != 0 || p2 / B != 0 { overflow := true; }
    p1, p2 := p1 * B % M, p2 * B % M;
    p1 := (p1 + p2) % M;
    if p < p1 || p1 < p2 { overflow := true; }
  }

  // The test is exact: v = a * b.
  lemma MulOvParts(al: nat, ah: nat, bl: nat, bh: nat, p1: nat, p2: nat, v: nat)
    requires al < B && bl < B && ah < B && bh < B && p1 == al * bh && p2 == ah * bl
    requires v == al * bl + B * (p1 + p2) + M * (ah * bh)
    ensures var q1, q2, p := p1 * B % M, p2 * B % M, v % M; var q := (q1 + q2) % M;
      v >= M <==> (ah != 0 && bh != 0) || p1 / B != 0 || p2 / B != 0 || p < q || q < q2
  {
    SmallProduct(al, bl);
    if ah != 0 && bh != 0 {
      MulLe(ah, 1, bh);
    } else {
      assert ah * bh == 0 && (p1 == 0 || p2 == 0);
      OneProduct(al * bl, if p1 == 0 then p2 else p1, v);
    }
  }

  lemma OneProduct(x: nat, p: nat, v: nat)
    requires x < M && v == x + B * p
    ensures v >= M <==> p / B != 0 || v % M < p * B % M
  {
    if p / B == 0 {
      assert p * B % M == p * B;
      assert v % M == if v >= M then v - M else v;
    }
  }

  lemma SmallProduct(a: nat, b: nat)
    requires a < B && b < B
    ensures 0 <= a * b < M
  {
    MulLe(a, b, B - 1);
    MulLe(B - 1, a, B - 1);
  }

  ghost predicate PrefixesFit(dims: seq<nat>, n: nat)
    requires n <= |dims|
  {
    forall k: nat :: k <= n ==> Prod(dims[..k]) < M
  }

  // The size in bytes that caml_ba_alloc computes.
  method ByteSize(dims: seq<nat>, elementSize: nat) returns (size: nat, overflow: bool)
    requires elementSize < M && forall i :: 0 <= i < |dims| ==> dims[i] < M
    ensures !overflow <==> PrefixesFit(dims, |dims|) && Prod(dims) * elementSize < M
    ensures !overflow ==> size == Prod(dims) * elementSize
  {
    hide Prod;
    hide PrefixesFit;
    overflow := false;
    size := 1;
    NoPrefix(dims);
    for i := 0 to |dims|
      invariant size < M && (!overflow <==> PrefixesFit(dims, i)) && (!overflow ==> size == Prod(dims[..i]))
    {
      PrefixNext(dims, i);
      size, overflow := MulOv(size, dims[i], overflow);
    }
    assert dims[..|dims|] == dims;
    size, overflow := MulOv(size, elementSize, overflow);
  }

  lemma NoPrefix(dims: seq<nat>)
    ensures PrefixesFit(dims, 0) && Prod(dims[..0]) == 1
  {
  }

  lemma PrefixNext(dims: seq<nat>, i: nat)
    requires i < |dims|
    ensures Prod(dims[..i + 1]) == Prod(dims[..i]) * dims[i]
    ensures PrefixesFit(dims, i + 1) <==> PrefixesFit(dims, i) && Prod(dims[..i + 1]) < M
  {
    assert dims[..i + 1][..i] == dims[..i];
  }

  // When no dimension is 0, that is an overflow exactly if the size does not fit ...
  lemma {:induction false} FitsAll(dims: seq<nat>, elementSize: nat)
    requires elementSize >= 1 && forall i :: 0 <= i < |dims| ==> dims[i] >= 1
    ensures Prod(dims) * elementSize < M ==> PrefixesFit(dims, |dims|)
  {
    if Prod(dims) * elementSize < M {
      MulLe(Prod(dims), 1, elementSize);
      forall k: nat | k <= |dims| ensures Prod(dims[..k]) < M {
        PrefixLess(dims, k);
      }
    }
  }

  lemma PrefixLess(dims: seq<nat>, k: nat)
    requires k <= |dims| && forall i :: 0 <= i < |dims| ==> dims[i] >= 1
    ensures 1 <= Prod(dims[..k]) <= Prod(dims)
  {
    assert dims == dims[..k] + dims[k..];
    ProdParts(dims[..k], dims[k..]);
    ProdPositive(dims[..k]);
    ProdPositive(dims[k..]);
    MulLe(Prod(dims[..k]), 1, Prod(dims[k..]));
  }

  lemma {:induction false} ProdPositive(dims: seq<nat>)
    requires forall i :: 0 <= i < |dims| ==> dims[i] >= 1
    ensures Prod(dims) >= 1
  {
    if dims != [] {
      ProdPositive(dims[..|dims| - 1]);
      MulLe(Prod(dims[..|dims| - 1]), 1, dims[|dims| - 1]);
    }
  }

  // ... but an array without elements may be refused for the product of its other dimensions.
  lemma EmptyRefused()
    ensures var dims := [0x100_0000_0000, 0x100_0000_0000, 0];
      Prod(dims) == 0 && !PrefixesFit(dims, |dims|)
  {
    var d := 0x100_0000_0000;
    var dims := [d, d, 0];
    assert dims[..2] == [d, d] && [d, d][..1] == [d];
    ProdOne(d);
    assert dims[..3] == dims;
  }
}
