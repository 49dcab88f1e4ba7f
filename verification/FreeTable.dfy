// The sizes along the free list and their left-to-right maxima, which the first-fit table records.
module FreeTable {

  ghost predicate IsMax(sz: seq<nat>, m: int) {
    0 <= m < |sz| && forall j :: 0 <= j < m ==> sz[j] < sz[m]
  }

  ghost predicate Increasing(ms: seq<int>) {
    forall i, j :: 0 <= i < j < |ms| ==> ms[i] < ms[j]
  }

  // ms are the positions of the maxima below lim.
  ghost predicate Maxima(sz: seq<nat>, ms: seq<int>, lim: int) {
    && 0 <= lim <= |sz| && Increasing(ms)
    && (forall i :: 0 <= i < |ms| ==> ms[i] < lim && IsMax(sz, ms[i]))
    && (forall m :: 0 <= m < lim && IsMax(sz, m) ==> m in ms)
  }

  // The greatest size below position n.
  function MaxBelow(sz: seq<nat>, n: int): nat
    requires n <= |sz|
    decreases n
  {
    if n <= 0 then 0 else if sz[n - 1] > MaxBelow(sz, n - 1) then sz[n - 1] else MaxBelow(sz, n - 1)
  }

  lemma {:induction false} MaxBelowIs(sz: seq<nat>, n: nat)
    requires n <= |sz|
    ensures forall j :: 0 <= j < n ==> sz[j] <= MaxBelow(sz, n)
    ensures n > 0 ==> exists j :: 0 <= j < n && sz[j] == MaxBelow(sz, n)
  {
    if n > 0 {
      MaxBelowIs(sz, n - 1);
      if sz[n - 1] > MaxBelow(sz, n - 1) {
        assert sz[n - 1] == MaxBelow(sz, n);
      }
    }
  }

  lemma MaxByBound(sz: seq<nat>, m: nat)
    requires m < |sz| && sz[m] >= 1
    ensures IsMax(sz, m) <==> sz[m] > MaxBelow(sz, m)
  {
    MaxBelowIs(sz, m);
  }

  // The last maximum below lim is the greatest size below lim.
  lemma LastIsGreatest(sz: seq<nat>, ms: seq<int>, lim: int)
    requires Maxima(sz, ms, lim) && (forall j :: 0 <= j < |sz| ==> sz[j] >= 1)
    ensures MaxBelow(sz, lim) == if ms == [] then 0 else sz[ms[|ms| - 1]]
  {
    if lim > 0 {
      FirstGreatest(sz, lim);
      MaxBelowIs(sz, lim);
      forall k | 0 <= k < |ms| - 1 ensures sz[ms[k]] < sz[ms[|ms| - 1]] {
        assert IsMax(sz, ms[|ms| - 1]);
      }
      var m :| 0 <= m < lim && IsMax(sz, m) && sz[m] == MaxBelow(sz, lim);
      var i :| 0 <= i < |ms| && ms[i] == m;
    }
  }

  lemma {:induction false} FirstGreatest(sz: seq<nat>, n: nat)
    requires 0 < n <= |sz| && (forall j :: 0 <= j < |sz| ==> sz[j] >= 1)
    ensures exists m :: 0 <= m < n && IsMax(sz, m) && sz[m] == MaxBelow(sz, n)
  {
    MaxByBound(sz, n - 1);
    if sz[n - 1] > MaxBelow(sz, n - 1) {
      assert IsMax(sz, n - 1);
    } else {
      FirstGreatest(sz, n - 1);
    }
  }

  // ---- First fit ----

  ghost predicate FirstFit(sz: seq<nat>, want: nat, m: int) {
    0 <= m < |sz| && sz[m] >= want && forall j :: 0 <= j < m ==> sz[j] < want
  }

  // The first entry of the table that is big enough is the first block that is.
  lemma TableFinds(sz: seq<nat>, ms: seq<int>, lim: int, want: nat, i: nat)
    requires Maxima(sz, ms, lim) && i < |ms| && sz[ms[i]] >= want
    requires forall k :: 0 <= k < i ==> sz[ms[k]] < want
    ensures FirstFit(sz, want, ms[i])
  {
    forall j | 0 <= j < ms[i] ensures sz[j] < want {
      if sz[j] >= want { EarlierFound(sz, ms, lim, want, i, j); }
    }
  }

  lemma EarlierFound(sz: seq<nat>, ms: seq<int>, lim: int, want: nat, i: nat, j: nat)
    requires Maxima(sz, ms, lim) && i < |ms| && j < ms[i] && sz[j] >= want
    ensures exists k :: 0 <= k < i && sz[ms[k]] >= want
  {
    var m := FirstAtLeast(sz, want, j);
    assert IsMax(sz, m);
    var k :| 0 <= k < |ms| && ms[k] == m;
    assert 0 <= k < i && sz[ms[k]] >= want;
  }

  lemma {:induction false} FirstAtLeast(sz: seq<nat>, want: nat, j: nat) returns (m: nat)
    requires j < |sz| && sz[j] >= want
    ensures m <= j && FirstFit(sz, want, m)
    decreases j
  {
    if k: nat :| k < j && sz[k] >= want { m := FirstAtLeast(sz, want, k); } else { m := j; }
  }

  // ---- Extending the table ----

  lemma ExtendMax(sz: seq<nat>, ms: seq<int>, lim: nat)
    requires Maxima(sz, ms, lim) && lim < |sz| && IsMax(sz, lim)
    ensures Maxima(sz, ms + [lim], lim + 1)
  {
    var ns := ms + [lim];
    forall m | 0 <= m < lim + 1 && IsMax(sz, m) ensures m in ns {
      if m == lim { assert ns[|ms|] == m; }
    }
  }

  lemma ExtendNone(sz: seq<nat>, ms: seq<int>, lim: nat)
    requires Maxima(sz, ms, lim) && lim < |sz| && !IsMax(sz, lim)
    ensures Maxima(sz, ms, lim + 1)
  {
  }

  // ---- Changes ----

  // Nothing changed below lim.
  lemma SameBelow(sz: seq<nat>, sz': seq<nat>, ms: seq<int>, lim: nat)
    requires Maxima(sz, ms, lim) && lim <= |sz'| && sz'[..lim] == sz[..lim]
    ensures Maxima(sz', ms, lim)
  {
    forall m | 0 <= m < lim ensures IsMax(sz', m) <==> IsMax(sz, m) {
      forall j | 0 <= j <= m ensures sz'[j] == sz[j] {
        assert sz'[..lim][j] == sz[..lim][j];
      }
    }
  }

  // The maxima below k.
  lemma Fewer(sz: seq<nat>, ms: seq<int>, lim: nat, n: nat, k: nat)
    requires Maxima(sz, ms, lim) && n <= |ms| && k <= lim
    requires forall i :: 0 <= i < n ==> ms[i] < k
    requires forall i :: n <= i < |ms| ==> ms[i] >= k
    ensures Maxima(sz, ms[..n], k)
  {
    forall m | 0 <= m < k && IsMax(sz, m) ensures m in ms[..n] {
      var i :| 0 <= i < |ms| && ms[i] == m;
      assert ms[..n][i] == m;
    }
  }

  // bs are the positions from a on, below b, whose size is above all those before them, and above top.
  ghost predicate Risers(sz: seq<nat>, a: nat, b: nat, top: nat, bs: seq<int>) {
    && a <= b <= |sz| && Increasing(bs)
    && (forall i :: 0 <= i < |bs| ==> a <= bs[i] < b && Rises(sz, a, top, bs[i]))
    && (forall m :: a <= m < b && Rises(sz, a, top, m) ==> m in bs)
  }

  ghost predicate Rises(sz: seq<nat>, a: nat, top: nat, m: int) {
    a <= m < |sz| && sz[m] > top && forall j :: a <= j < m ==> sz[j] < sz[m]
  }

  // What is the greatest size so far.
  ghost predicate Crest(sz: seq<nat>, a: nat, b: nat, top: nat, h: nat) {
    && a <= b <= |sz| && h >= top
    && (forall j :: a <= j < b ==> sz[j] <= h)
    && (h == top || exists j :: a <= j < b && sz[j] == h)
  }

  lemma RisersMore(sz: seq<nat>, a: nat, b: nat, top: nat, bs: seq<int>, h: nat)
    requires Risers(sz, a, b, top, bs) && b < |sz| && Crest(sz, a, b, top, h)
    ensures sz[b] > h ==> Risers(sz, a, b + 1, top, bs + [b]) && Crest(sz, a, b + 1, top, sz[b])
    ensures sz[b] <= h ==> Risers(sz, a, b + 1, top, bs) && Crest(sz, a, b + 1, top, h)
  {
    if sz[b] > h {
      var ns := bs + [b];
      assert Rises(sz, a, top, b);
      forall m | a <= m < b + 1 && Rises(sz, a, top, m) ensures m in ns {
        if m == b { assert ns[|bs|] == m; }
      }
    } else {
      assert !Rises(sz, a, top, b);
    }
  }

  // Nothing from b to c rises above h.
  lemma RisersEnd(sz: seq<nat>, a: nat, b: nat, c: nat, top: nat, bs: seq<int>, h: nat)
    requires Risers(sz, a, b, top, bs) && Crest(sz, a, b, top, h) && b <= c <= |sz|
    requires forall j :: b <= j < c ==> sz[j] <= h
    ensures Risers(sz, a, c, top, bs)
  {
    forall m | b <= m < c ensures !Rises(sz, a, top, m) {
      if h > top {
        var j :| a <= j < b && sz[j] == h;
        assert j < m && sz[j] >= sz[m];
      }
    }
  }

  function Shifted(ms: seq<int>, d: int): (ns: seq<int>)
    ensures |ns| == |ms|
  {
    seq(|ms|, i requires 0 <= i < |ms| => ms[i] - d)
  }

  // The sizes when the one at m is removed (d == 1) or lowered (d == 0).
  ghost predicate Lowered(sz: seq<nat>, sz': seq<nat>, m: nat, d: nat) {
    && m < |sz| && d <= 1 && |sz'| == |sz| - d
    && (forall j :: 0 <= j < m ==> sz'[j] == sz[j])
    && (forall j :: m < j < |sz| ==> var k := j - d; sz'[k] == sz[j])
    && (d == 0 ==> sz'[m] < sz[m])
  }

  // The maxima after lowering: those before, the risers up to the next one, and those after.
  lemma LowerMid(sz: seq<nat>, sz': seq<nat>, ms: seq<int>, lim: nat, i: nat, d: nat, bs: seq<int>, top: nat)
    requires Maxima(sz, ms, lim) && i + 1 < |ms| && Lowered(sz, sz', ms[i], d)
    requires (forall j :: 0 <= j < |sz| ==> sz[j] >= 1) && (forall j :: 0 <= j < |sz'| ==> sz'[j] >= 1)
    requires top == (if i == 0 then 0 else sz[ms[i - 1]])
    requires Risers(sz', ms[i], ms[i + 1] - d, top, bs)
    ensures Maxima(sz', ms[..i] + bs + Shifted(ms[i + 1..], d), lim - d)
  {
    var m, n := ms[i], ms[i + 1];
    var ns := ms[..i] + bs + Shifted(ms[i + 1..], d);
    TopBelow(sz, ms, lim, i, top);
    Parts(ms, bs, i, d);
    forall x | 0 <= x < lim - d ensures IsMax(sz', x) <==> x in ns {
      if x < m {
        LowBefore(sz, sz', ms, lim, i, d, x);
      } else if x < n - d {
        LowBetween(sz, sz', m, d, x, top);
      } else {
        LowAfter(sz, sz', ms, lim, i, d, x);
        ShiftedIn(ms, i, d, x);
      }
    }
    LowBounds(sz, sz', ms, lim, i, d, bs, top);
  }

  lemma LowBounds(sz: seq<nat>, sz': seq<nat>, ms: seq<int>, lim: nat, i: nat, d: nat, bs: seq<int>, top: nat)
    requires Maxima(sz, ms, lim) && i + 1 < |ms| && Lowered(sz, sz', ms[i], d)
    requires Risers(sz', ms[i], ms[i + 1] - d, top, bs)
    ensures var ns := ms[..i] + bs + Shifted(ms[i + 1..], d);
      Increasing(ns) && forall k :: 0 <= k < |ns| ==> 0 <= ns[k] < lim - d
  {
  }

  lemma TopBelow(sz: seq<nat>, ms: seq<int>, lim: nat, i: nat, top: nat)
    requires Maxima(sz, ms, lim) && i < |ms| && top == (if i == 0 then 0 else sz[ms[i - 1]])
    requires forall j :: 0 <= j < |sz| ==> sz[j] >= 1
    ensures forall j :: 0 <= j < ms[i] ==> sz[j] <= top
    ensures top == 0 || exists j :: 0 <= j < ms[i] && sz[j] == top
  {
    Fewer(sz, ms, lim, i, ms[i]);
    LastIsGreatest(sz, ms[..i], ms[i]);
    MaxBelowIs(sz, ms[i]);
  }

  lemma LowBefore(sz: seq<nat>, sz': seq<nat>, ms: seq<int>, lim: nat, i: nat, d: nat, x: nat)
    requires Maxima(sz, ms, lim) && i < |ms| && Lowered(sz, sz', ms[i], d) && x < ms[i]
    ensures IsMax(sz', x) <==> x in ms
  {
    assert x < |sz'| && IsMax(sz', x) == IsMax(sz, x);
  }

  lemma LowBetween(sz: seq<nat>, sz': seq<nat>, m: nat, d: nat, x: nat, top: nat)
    requires Lowered(sz, sz', m, d) && m <= x < |sz'| && sz'[x] >= 1
    requires forall j :: 0 <= j < m ==> sz[j] <= top
    requires top == 0 || exists j :: 0 <= j < m && sz[j] == top
    ensures IsMax(sz', x) <==> Rises(sz', m, top, x)
  {
    if IsMax(sz', x) && top > 0 {
      var j :| 0 <= j < m && sz[j] == top;
      assert sz'[j] == top;
    }
  }

  lemma LowAfter(sz: seq<nat>, sz': seq<nat>, ms: seq<int>, lim: nat, i: nat, d: nat, x: nat)
    requires Maxima(sz, ms, lim) && i + 1 < |ms| && Lowered(sz, sz', ms[i], d)
    requires ms[i + 1] - d <= x < lim - d
    ensures IsMax(sz', x) <==> x + d in ms
  {
    var y := x + d;
    assert sz'[y - d] == sz[y];
    var n := ms[i + 1];
    assert IsMax(sz, n) && sz'[n - d] == sz[n];
    if IsMax(sz', x) {
      forall j | 0 <= j < y ensures sz[j] < sz[y] {
        if j < ms[i] {
          assert sz'[j] == sz[j];
        } else if j > ms[i] {
          var k := j - d;
          assert sz'[k] == sz[j];
        } else {
          assert sz[j] < sz[n];
        }
      }
      assert IsMax(sz, y);
    }
    if IsMax(sz, y) {
      forall k | 0 <= k < x ensures sz'[k] < sz'[x] {
        if k < ms[i] {
          assert sz'[k] == sz[k];
        } else if k == ms[i] && d == 0 {
          assert sz[k] < sz[y];
        } else {
          var j := k + d;
          assert sz'[j - d] == sz[j];
        }
      }
    }
  }

  ghost predicate AllAtLeast(ms: seq<int>, lo: int) {
    forall x :: x in ms ==> lo <= x
  }

  // The three parts of the new positions lie one after another.
  lemma Parts(ms: seq<int>, bs: seq<int>, i: nat, d: nat)
    requires i + 1 < |ms| && d <= 1 && Increasing(ms)
    ensures var ns := ms[..i] + bs + Shifted(ms[i + 1..], d);
      forall x {:trigger x in ns} :: x in ns <==> x in ms[..i] || x in bs || x in Shifted(ms[i + 1..], d)
    ensures forall x :: x in ms[..i] ==> x < ms[i]
    ensures AllAtLeast(Shifted(ms[i + 1..], d), ms[i + 1] - d)
    ensures forall x :: x in ms && x < ms[i] ==> x in ms[..i]
    ensures forall x :: x in ms[..i] ==> x in ms
  {
    forall x | x in ms && x < ms[i] ensures x in ms[..i] {
      var k :| 0 <= k < |ms| && ms[k] == x;
      assert ms[..i][k] == x;
    }
  }

  lemma ShiftedIn(ms: seq<int>, i: nat, d: nat, x: int)
    requires i + 1 < |ms| && d <= 1 && Increasing(ms) && ms[i + 1] - d <= x
    ensures x + d in ms <==> x in Shifted(ms[i + 1..], d)
  {
    var tail := ms[i + 1..];
    if x + d in ms {
      var k :| 0 <= k < |ms| && ms[k] == x + d;
      assert tail[k - i - 1] == x + d && Shifted(tail, d)[k - i - 1] == x;
    }
    if x in Shifted(tail, d) {
      var k :| 0 <= k < |tail| && Shifted(tail, d)[k] == x;
      assert tail[k] == x + d;
    }
  }

  // The last maximum of the table is lowered.
  lemma LowerLast(sz: seq<nat>, sz': seq<nat>, ms: seq<int>, lim: nat, d: nat, top: nat)
    requires Maxima(sz, ms, lim) && ms != [] && Lowered(sz, sz', ms[|ms| - 1], d)
    requires (forall j :: 0 <= j < |sz| ==> sz[j] >= 1) && (forall j :: 0 <= j < |sz'| ==> sz'[j] >= 1)
    requires top == (if |ms| == 1 then 0 else sz[ms[|ms| - 2]])
    ensures Maxima(sz', ms[..|ms| - 1], ms[|ms| - 1])
    ensures d == 0 && sz'[ms[|ms| - 1]] <= top ==> Maxima(sz', ms[..|ms| - 1], ms[|ms| - 1] + 1)
    ensures d == 0 && sz'[ms[|ms| - 1]] > top ==> Maxima(sz', ms, ms[|ms| - 1] + 1)
  {
    hide Maxima;
    var i := |ms| - 1;
    var m := ms[i];
    MaximaBounds(sz, ms, lim);
    Fewer(sz, ms, lim, i, m);
    SameBelow(sz, sz', ms[..i], m);
    if d == 0 {
      TopBelow(sz, ms, lim, i, top);
      LowBetween(sz, sz', m, 0, m, top);
      if sz'[m] > top {
        ExtendMax(sz', ms[..i], m);
        assert ms[..i] + [m] == ms;
      } else {
        ExtendNone(sz', ms[..i], m);
      }
    }
  }

  lemma MaximaBounds(sz: seq<nat>, ms: seq<int>, lim: int)
    requires Maxima(sz, ms, lim)
    ensures 0 <= lim <= |sz| && forall i :: 0 <= i < |ms| ==> 0 <= ms[i] < lim
    ensures forall i, j :: 0 <= i < j < |ms| ==> ms[i] < ms[j]
  {
  }
}
