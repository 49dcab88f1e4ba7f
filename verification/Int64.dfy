// int64_emul.h: 64-bit arithmetic on two halves of 32 bits.
module Int64 {
  import opened Arith
  import opened Bits

  const H: int := 0x1_0000
  const B: int := 0x1_0000_0000
  const M: int := 0x1_0000_0000_0000_0000

  type u32 = n: nat | n < B

  datatype I64 = I64(h: u32, l: u32)

  // Arithmetic on uint32 wraps around.
  function W(n: int): (r: u32)
    ensures (0 <= n < B ==> r == n) && (B <= n < 2 * B ==> r == n - B) && (-B <= n < 0 ==> r == n + B)
  {
    n % B
  }

  function Mod64(n: int): (r: nat)
    ensures r < M
    ensures (0 <= n < M ==> r == n) && (M <= n < 2 * M ==> r == n - M) && (-M <= n < 0 ==> r == n + M)
  {
    n % M
  }

  // The number that x is, without and with a sign.
  function Val(x: I64): (v: nat)
    ensures v < M
  {
    x.h * B + x.l
  }

  function Signed(x: I64): (v: int)
    ensures -M / 2 <= v < M / 2
  {
    if x.h >= B / 2 then Val(x) - M else Val(x)
  }

  // ---- Comparison, sum and difference ----

  function UCompare(x: I64, y: I64): (r: int)
    ensures r == if Val(x) > Val(y) then 1 else if Val(x) < Val(y) then -1 else 0
  {
    if x.h > y.h then 1 else if x.h < y.h then -1
    else if x.l > y.l then 1 else if x.l < y.l then -1 else 0
  }

  // (int32) x
  function Int32(x: u32): int {
    if x >= B / 2 then x - B else x
  }

  function Compare(x: I64, y: I64): (r: int)
    ensures r == if Signed(x) > Signed(y) then 1 else if Signed(x) < Signed(y) then -1 else 0
  {
    if Int32(x.h) > Int32(y.h) then 1 else if Int32(x.h) < Int32(y.h) then -1
    else if x.l > y.l then 1 else if x.l < y.l then -1 else 0
  }

  function Neg(x: I64): (r: I64)
    ensures Val(r) == Mod64(0 - Val(x))
  {
    var l := W(0 - x.l);
    var h: u32 := B - 1 - x.h;
    I64(if l == 0 then W(h + 1) else h, l)
  }

  function Add(x: I64, y: I64): (r: I64)
    ensures Val(r) == Mod64(Val(x) + Val(y))
  {
    var l, h := W(x.l + y.l), W(x.h + y.h);
    I64(if l < x.l then W(h + 1) else h, l)
  }

  function Sub(x: I64, y: I64): (r: I64)
    ensures Val(r) == Mod64(Val(x) - Val(y))
  {
    var l, h := W(x.l - y.l), W(x.h - y.h);
    I64(if x.l < y.l then W(h - 1) else h, l)
  }

  // ---- Product ----

  // The sum of the four products of 16-bit halves, with its carries.
  function SumProducts(p00: u32, p01: u32, p10: u32, p11: u32): I64 {
    var h0 := W(p11 + p01 / H + p10 / H);
    var s01, s10 := W(p01 * H), W(p10 * H);
    var l1 := W(p00 + s01);
    var h1 := if l1 < s01 then W(h0 + 1) else h0;
    var l2 := W(l1 + s10);
    var h2 := if l2 < s10 then W(h1 + 1) else h1;
    I64(h2, l2)
  }

  function LowMul(x: u32, y: u32): I64 {
    SumProducts(W((x % H) * (y % H)), W((x % H) * (y / H)), W((x / H) * (y % H)), W((x / H) * (y / H)))
  }

  function Mul(x: I64, y: I64): I64 {
    var low := LowMul(x.l, y.l);
    I64(W(low.h + W(W(x.l * y.h) + W(x.h * y.l))), low.l)
  }

  lemma ShiftHalf(p: u32)
    ensures W(p * H) == p % H * H && p == p / H * H + p % H
  {
    assert p * H == p / H * B + p % H * H;
  }

  lemma SumProductsIs(p00: u32, p01: u32, p10: u32, p11: u32)
    requires p00 <= (H - 1) * (H - 1) && p01 <= (H - 1) * (H - 1)
    requires p10 <= (H - 1) * (H - 1) && p11 <= (H - 1) * (H - 1)
    ensures Val(SumProducts(p00, p01, p10, p11)) == p00 + H * p01 + H * p10 + B * p11
  {
    ShiftHalf(p01);
    ShiftHalf(p10);
  }

  lemma SmallProduct(a: nat, b: nat)
    requires a < H && b < H
    ensures 0 <= a * b <= (H - 1) * (H - 1)
  {
    MulLe(a, b, H - 1);
    MulLe(H - 1, a, H - 1);
  }

  lemma HalvesProduct(a1: int, a0: int, b1: int, b0: int)
    ensures (a1 * H + a0) * (b1 * H + b0) == a0 * b0 + H * (a0 * b1) + H * (a1 * b0) + B * (a1 * b1)
  {
    assert (a1 * H + a0) * (b1 * H + b0) == (a1 * H) * (b1 * H) + (a1 * H) * b0 + a0 * (b1 * H) + a0 * b0;
    assert (a1 * H) * (b1 * H) == B * (a1 * b1);
    assert (a1 * H) * b0 == H * (a1 * b0) && a0 * (b1 * H) == H * (a0 * b1);
  }

  lemma WordsProduct(a1: int, a0: int, b1: int, b0: int)
    ensures (a1 * B + a0) * (b1 * B + b0) == a0 * b0 + B * (a0 * b1 + a1 * b0) + M * (a1 * b1)
  {
    assert (a1 * B + a0) * (b1 * B + b0) == (a1 * B) * (b1 * B) + (a1 * B) * b0 + a0 * (b1 * B) + a0 * b0;
    assert (a1 * B) * (b1 * B) == M * (a1 * b1);
    assert (a1 * B) * b0 == B * (a1 * b0) && a0 * (b1 * B) == B * (a0 * b1);
  }

  // The low product is exact.
  lemma LowProduct(x: u32, y: u32)
    ensures Val(LowMul(x, y)) == x * y
  {
    SmallProduct(x % H, y % H);
    SmallProduct(x % H, y / H);
    SmallProduct(x / H, y % H);
    SmallProduct(x / H, y / H);
    HalvesProduct(x / H, x % H, y / H, y % H);
    SumProductsIs((x % H) * (y % H), (x % H) * (y / H), (x / H) * (y % H), (x / H) * (y / H));
  }

  lemma ModAdd(a: int, b: int, k: int)
    requires a == b + M * k
    ensures a % M == b % M
  {
  }

  // I64_mul is the product modulo 2^64.
  lemma MulIs(x: I64, y: I64)
    ensures Val(Mul(x, y)) == Mod64(Val(x) * Val(y))
  {
    hide Mul;
    hide LowMul;
    hide Mod64;
    LowProduct(x.l, y.l);
    ValProduct(x, y);
    MulParts(x, y, x.l * y.h, x.h * y.l, x.h * y.h, Val(x) * Val(y));
  }

  lemma MulParts(x: I64, y: I64, c: nat, d: nat, e: nat, v: int)
    requires c == x.l * y.h && d == x.h * y.l && v == Val(LowMul(x.l, y.l)) + B * (c + d) + M * e
    ensures Val(Mul(x, y)) == Mod64(v)
  {
    hide LowMul;
    hide W;
    hide Mod64;
    hide Val;
    FinalMul(LowMul(x.l, y.l), c, d, e, v);
  }

  lemma ValProduct(x: I64, y: I64)
    ensures Val(x) * Val(y) == x.l * y.l + B * (x.l * y.h + x.h * y.l) + M * (x.h * y.h)
  {
    WordsProduct(x.h, x.l, y.h, y.l);
  }

  lemma FinalMul(low: I64, c: nat, d: nat, e: nat, v: int)
    requires v == Val(low) + B * (c + d) + M * e
    ensures Val(I64(W(low.h + W(W(c) + W(d))), low.l)) == Mod64(v)
  {
    HighPart(low.h, c, d, low.l, e);
  }

  lemma HighPart(h: u32, c: nat, d: nat, l: u32, e: nat)
    ensures W(h + W(W(c) + W(d))) * B + l == Mod64(h * B + l + B * (c + d) + M * e)
  {
    var w := W(h + W(W(c) + W(d)));
    var k := (h + c + d) / B;
    assert w == (h + c + d) % B;
    ModAdd(h * B + l + B * (c + d) + M * e, w * B + l, k + e);
  }

  // ---- Shifts ----

  function Or32(a: u32, b: u32): u32 {
    Pow32();
    OrBelow(a, b, 32);
    Or(a, b)
  }

  // x << s and x >> s on uint32
  function Left(x: u32, s: nat): u32 { W(x * Pow2(s)) }

  function Right(x: u32, s: nat): u32 {
    QuotientSmall(x, Pow2(s));
    Quotient(x, Pow2(s))
  }

  // (int32) x >> s
  function RightSigned(x: u32, s: nat): u32 { W(Quotient(Int32(x), Pow2(s))) }

  function Lsl(x: I64, n: int): I64 {
    var s := n % 64;
    if s == 0 then x
    else if s < 32 then I64(Or32(Left(x.h, s), Right(x.l, 32 - s)), Left(x.l, s))
    else I64(Left(x.l, s - 32), 0)
  }

  function Lsr(x: I64, n: int): I64 {
    var s := n % 64;
    if s == 0 then x
    else if s < 32 then I64(Right(x.h, s), Or32(Right(x.l, s), Left(x.h, 32 - s)))
    else I64(0, Right(x.h, s - 32))
  }

  function Asr(x: I64, n: int): I64 {
    var s := n % 64;
    if s == 0 then x
    else if s < 32 then I64(RightSigned(x.h, s), Or32(Right(x.l, s), Left(x.h, 32 - s)))
    else I64(RightSigned(x.h, 31), RightSigned(x.h, s - 32))
  }

  lemma WIs(x: int, k: int, r: u32)
    requires x == k * B + r
    ensures W(x) == r
  {
  }

  // A word is cut in two by a shift: x = a * 2^(32-s) + b.
  lemma CutLeft(x: u32, s: nat) returns (a: nat, b: nat)
    requires 0 < s < 32
    ensures a < Pow2(s) && b < Pow2(32 - s) && x == a * Pow2(32 - s) + b && Pow2(s) * Pow2(32 - s) == B
    ensures Right(x, 32 - s) == a && Left(x, s) == b * Pow2(s) && x * Pow2(s) == a * B + b * Pow2(s)
  {
    hide Pow2;
    hide Quotient;
    var p, q := Pow2(s), Pow2(32 - s);
    Pow32();
    Pow2Sum(s, 32 - s);
    a, b := DivMod(x, q);
    QuotientIs(x, q, a, b);
    LessFactor(a, p, q);
    CutProduct(x, a, b, p, q);
    MulLess(b, q, p);
    WIs(x * p, a, b * p);
  }

  lemma CutProduct(x: nat, a: nat, b: nat, p: nat, q: nat)
    requires x == a * q + b
    ensures x * p == a * (p * q) + b * p
  {
    assert x * p == (a * q) * p + b * p;
    assert (a * q) * p == a * (p * q);
  }

  lemma MulLess(b: nat, q: nat, p: nat)
    requires b < q && p > 0
    ensures 0 <= b * p < p * q
  {
    assert b * p < q * p;
  }

  lemma LslIs(x: I64, n: int)
    ensures Val(Lsl(x, n)) == Mod64(Val(x) * Pow2(n % 64))
  {
    var s := n % 64;
    if s == 0 {
      assert Pow2(0) == 1;
    } else if s < 32 {
      LslNear(x, s);
    } else {
      LslFar(x, s);
    }
  }

  lemma LslNear(x: I64, s: nat)
    requires 0 < s < 32
    ensures Val(I64(Or32(Left(x.h, s), Right(x.l, 32 - s)), Left(x.l, s))) == Mod64(Val(x) * Pow2(s))
  {
    hide Quotient;
    hide Pow2;
    hide W;
    var p := Pow2(s);
    var a, b := CutLeft(x.l, s);
    var c, d := CutLeft(x.h, s);
    OrApart(a, d * p, s, d);
    OrSwap(d * p, a);
    Distribute(x.h, x.l, p);
    JoinHalves(Val(x) * p, c, d * p, a, b * p, Or32(d * p, a), b * p);
  }

  lemma JoinHalves(v: int, c: nat, dp: nat, a: nat, bp: nat, h: u32, l: u32)
    requires h == dp + a && l == bp && v == (c * B + dp) * B + (a * B + bp)
    ensures Val(I64(h, l)) == Mod64(v)
  {
    ModAdd(v, h * B + l, c);
  }

  lemma Distribute(h: nat, l: nat, p: nat)
    ensures (h * B + l) * p == (h * p) * B + l * p
  {
  }

  lemma LslFar(x: I64, s: nat)
    requires 32 <= s < 64
    ensures W(x.l * Pow2(s - 32)) * B == Mod64(Val(x) * Pow2(s))
  {
    hide Pow2;
    var r := Pow2(s - 32);
    Pow32();
    Pow2Sum(s - 32, 32);
    FarProduct(x.h, x.l, r);
    FarMod(Val(x) * (r * B), x.h * r, x.l * r);
  }

  lemma FarMod(v: int, a: nat, b: nat)
    requires v == M * a + B * b
    ensures W(b) * B == Mod64(v)
  {
    var k, w := DivMod(b, B);
    WIs(b, k, w);
    ModAdd(v, w * B, a + k);
  }

  lemma FarProduct(h: nat, l: nat, r: nat)
    ensures (h * B + l) * (r * B) == M * (h * r) + B * (l * r)
  {
    assert (h * B + l) * (r * B) == (h * B) * (r * B) + l * (r * B);
    assert (h * B) * (r * B) == M * (h * r) && l * (r * B) == B * (l * r);
  }

  // The other way: x = c * 2^s + d.
  lemma CutRight(x: u32, s: nat) returns (c: nat, d: nat)
    requires 0 < s < 32
    ensures c < Pow2(32 - s) && d < Pow2(s) && x == c * Pow2(s) + d && Pow2(s) * Pow2(32 - s) == B
    ensures Right(x, s) == c && Left(x, 32 - s) == d * Pow2(32 - s)
  {
    hide Pow2;
    hide Quotient;
    c, d := CutLeft(x, 32 - s);
  }

  // h * 2^32 + l, with h = c * p + d, shifted right: only d goes to the low half.
  lemma ShiftedRight(h: int, l: u32, c: int, d: nat, p: nat, q: nat) returns (a: nat)
    requires p > 0 && p * q == B && h == c * p + d && d < p && q > 0
    ensures a == Quotient(l, p) < q && Quotient(h * B + l, p) == c * B + (d * q + a)
  {
    var b;
    a, b := DivMod(l, p);
    QuotientIs(l, p, a, b);
    LessFactor(a, q, p);
    assert h * B == (c * p) * B + d * (p * q);
    assert (c * p) * B == (c * B) * p && d * (p * q) == (d * q) * p;
    assert h * B + l == (c * B + (d * q + a)) * p + b;
    QuotientIs(h * B + l, p, c * B + (d * q + a), b);
  }

  lemma LsrIs(x: I64, n: int)
    ensures Val(Lsr(x, n)) == Quotient(Val(x), Pow2(n % 64))
  {
    hide Quotient;
    var s := n % 64;
    if s == 0 {
      QuotientIs(Val(x), Pow2(0), Val(x), 0);
    } else if s < 32 {
      var c, d := CutRight(x.h, s);
      var a := ShiftedRight(x.h, x.l, c, d, Pow2(s), Pow2(32 - s));
      OrApart(a, d * Pow2(32 - s), 32 - s, d);
    } else {
      FarRight(x.h, x.l, s);
    }
  }

  lemma FarRight(h: int, l: u32, s: nat)
    requires 32 <= s < 64
    ensures Quotient(h * B + l, Pow2(s)) == Quotient(h, Pow2(s - 32))
  {
    hide Pow2;
    hide Quotient;
    var r := Pow2(s - 32);
    Pow32();
    Pow2Sum(s - 32, 32);
    var q, m := Floor(h, r);
    assert h * B == q * (r * B) + m * B;
    assert m * B + l < r * B by { MulLe(B, m + 1, r); }
    QuotientIs(h * B + l, r * B, q, m * B + l);
  }

  // Of the signed number, rounding down.
  lemma AsrIs(x: I64, n: int)
    ensures Signed(Asr(x, n)) == Quotient(Signed(x), Pow2(n % 64))
  {
    hide Quotient;
    var s := n % 64;
    var h := Int32(x.h);
    assert Signed(x) == h * B + x.l;
    if s == 0 {
      QuotientIs(Signed(x), Pow2(0), Signed(x), 0);
    } else if s < 32 {
      var c, d := Floor(h, Pow2(s));
      Pow2Sum(s, 32 - s);
      Pow32();
      var a := ShiftedRight(h, x.l, c, d, Pow2(s), Pow2(32 - s));
      var c', d' := CutRight(x.h, s);
      SameLow(h, x.h, c, d, c', d', Pow2(s), Pow2(32 - s));
      OrApart(a, d * Pow2(32 - s), 32 - s, d);
      SignedHalf(c, h, Pow2(s), d);
    } else {
      AsrFar(x, s);
    }
  }

  // A negative number has the same low bits as the word it is.
  lemma SameLow(h: int, w: u32, c: int, d: nat, c': nat, d': nat, p: nat, q: nat)
    requires p * q == B && (w == h || w == h + B) && h == c * p + d && w == c' * p + d' && d < p && d' < p
    ensures d == d'
  {
    if w == h {
      Between(c, c', p, h);
    } else {
      assert w == (c + q) * p + d;
      Between(c + q, c', p, w);
    }
  }

  lemma SignedHalf(c: int, h: int, p: nat, d: nat)
    requires -B / 2 <= h < B / 2 && p > 0 && h == c * p + d && d < p
    ensures -B / 2 <= c < B / 2 && Int32(W(c)) == c
  {
    if c >= 0 { MulLe(c, 1, p); } else { MulLe(-c, 1, p); }
  }

  lemma AsrFar(x: I64, s: nat)
    requires 32 <= s < 64
    ensures Signed(I64(RightSigned(x.h, 31), RightSigned(x.h, s - 32))) == Quotient(Signed(x), Pow2(s))
  {
    hide Quotient;
    hide Pow2;
    var h := Int32(x.h);
    assert Signed(x) == h * B + x.l;
    FarRight(h, x.l, s);
    var q, m := Floor(h, Pow2(s - 32));
    SignJoin(h, q, Pow2(s - 32), m);
    SignWord(h);
  }

  lemma SignJoin(h: int, q: int, p: nat, m: nat)
    requires -B / 2 <= h < B / 2 && p > 0 && h == q * p + m && m < p
    ensures Signed(I64(if h < 0 then B - 1 else 0, W(q))) == q
  {
    SignedHalf(q, h, p, m);
    if h >= 0 { NotNegative(q, p, m); } else { Negative(q, p, m); }
  }

  lemma SignWord(h: int)
    requires -B / 2 <= h < B / 2
    ensures W(Quotient(h, Pow2(31))) == if h < 0 then B - 1 else 0
  {
    Pow32();
    Pow2Sum(31, 1);
    QuotientIs(h, Pow2(31), if h < 0 then -1 else 0, if h < 0 then h + B / 2 else h);
  }

  // ---- Division ----

  const ZERO := I64(0, 0)
  const ONE := I64(0, 1)

  // I64_SHL1 and I64_SHR1
  function Shl1(x: I64): (r: I64)
    requires x.h < B / 2
    ensures Val(r) == 2 * Val(x)
  {
    OrLow(W(2 * x.h), x.l / (B / 2));
    I64(Or32(W(2 * x.h), x.l / (B / 2)), W(2 * x.l))
  }

  lemma OrLow(a: u32, b: u32)
    requires a % 2 == 0 && b < 2
    ensures Or(a, b) == a + b
  {
    OrApart(b, a, 1, a / 2);
    OrSwap(a, b);
  }

  function Shr1(x: I64): (r: I64)
    ensures Val(r) == Val(x) / 2
  {
    OrTop(x.l / 2, W(x.h * (B / 2)), x.h);
    I64(x.h / 2, Or32(x.l / 2, W(x.h * (B / 2))))
  }

  lemma OrTop(a: u32, b: u32, h: u32)
    requires a < B / 2 && b == W(h * (B / 2))
    ensures Or(a, b) == a + b && b == h % 2 * (B / 2)
  {
    hide Pow2;
    hide Or;
    HalfUp(h);
    Half32();
    OrApart(a, b, 31, h % 2);
  }

  lemma HalfUp(h: u32)
    ensures W(h * (B / 2)) == h % 2 * (B / 2)
  {
    WIs(h * (B / 2), h / 2, h % 2 * (B / 2));
  }

  lemma Half32()
    ensures Pow2(31) == B / 2
  {
    Pow32();
    assert Pow2(32) == 2 * Pow2(31);
  }

  // A new bit of the quotient.
  function SetBit(q: I64, mask: I64): I64 {
    I64(Or32(q.h, mask.h), Or32(q.l, mask.l))
  }

  lemma SetBitIs(q: I64, mask: I64, k: nat, c: nat)
    requires k < 64 && Val(mask) == Pow2(k) && Val(q) == c * Pow2(k + 1)
    ensures Val(SetBit(q, mask)) == Val(q) + Pow2(k)
  {
    Pow32();
    if k < 32 {
      LowBit(q, mask, k, c);
    } else {
      HighBit(q, mask, k, c);
    }
  }

  lemma LowBit(q: I64, mask: I64, k: nat, c: nat)
    requires k < 32 && Val(mask) == Pow2(k) && Val(q) == c * Pow2(k + 1)
    ensures Val(SetBit(q, mask)) == Val(q) + Pow2(k)
  {
    hide Pow2;
    var p, r := Pow2(k + 1), Pow2(31 - k);
    Pow32();
    Pow2Sum(k + 1, 31 - k);
    MaskLow(mask, k);
    var d := LowMultiple(q.h, q.l, c, p, r);
    OrApart(mask.l, q.l, k + 1, d);
    OrSwap(q.l, mask.l);
  }

  lemma LowMultiple(h: nat, l: nat, c: nat, p: nat, r: nat) returns (d: nat)
    requires p > 0 && p * r == B && h * B + l == c * p
    ensures l == d * p
  {
    var e: int := c - h * r;
    assert e * p == c * p - h * (p * r);
    NotNegative(e, p, 0);
    d := e;
  }

  lemma MaskLow(mask: I64, k: nat)
    requires k < 32 && Val(mask) == Pow2(k)
    ensures mask.h == 0 && mask.l == Pow2(k) < Pow2(k + 1)
  {
    Pow32();
    Pow2Mono(k, 31);
    assert Pow2(32) == 2 * Pow2(31);
  }

  lemma HighBit(q: I64, mask: I64, k: nat, c: nat)
    requires 32 <= k < 64 && Val(mask) == Pow2(k) && Val(q) == c * Pow2(k + 1)
    ensures Val(SetBit(q, mask)) == Val(q) + Pow2(k)
  {
    hide Pow2;
    hide Or;
    MaskHigh(mask, k);
    QuotientHigh(q, k, c);
    OrZero(0);
    OrApart(mask.h, q.h, k - 31, c);
    OrSwap(q.h, mask.h);
  }

  lemma MaskHigh(mask: I64, k: nat)
    requires 32 <= k < 64 && Val(mask) == Pow2(k)
    ensures mask.l == 0 && mask.h == Pow2(k - 32) < Pow2(k - 31) && Pow2(k) == mask.h * B
  {
    Pow32();
    Pow2Sum(k - 32, 32);
    var j := k - 31;
    assert Pow2(j) == 2 * Pow2(j - 1);
    Between(mask.h, Pow2(k - 32), B, Val(mask));
  }

  lemma QuotientHigh(q: I64, k: nat, c: nat)
    requires 32 <= k < 64 && Val(q) == c * Pow2(k + 1)
    ensures q.l == 0 && q.h == c * Pow2(k - 31)
  {
    hide Pow2;
    Pow32();
    Pow2Sum(k - 31, 32);
    var p := Pow2(k - 31);
    assert c * (p * B) == (c * p) * B;
    Between(q.h, c * p, B, Val(q));
  }

  // I64_udivmod.  (The loops do not end for a divisor that is 0, unless the dividend is 0 too.)
  method UDivMod(x: I64, y: I64) returns (quo: I64, rem: I64)
    requires Val(y) != 0
    ensures Val(x) == Val(quo) * Val(y) + Val(rem) && Val(rem) < Val(y)
  {
    hide Pow2;
    hide Shl1;
    hide Shr1;
    hide SetBit;
    hide Sub;
    hide UCompare;
    var modulus, divisor, quotient, mask := x, y, ZERO, ONE;
    ghost var d, k: nat, c: nat := Val(y), 0, 0;
    PowZero();
    while divisor.h < B / 2
      invariant Val(divisor) == d * Pow2(k) && Val(mask) == Pow2(k) && k < 64
      decreases M - Val(divisor)
    {
      var cmp := UCompare(divisor, modulus);
      ShiftUp(Val(divisor), Val(mask), d, k);
      divisor, mask, k := Shl1(divisor), Shl1(mask), k + 1;
      if cmp >= 0 { break; }
    }
    MaskSet(mask, k);
    while mask.l != 0 || mask.h != 0
      invariant mask == ZERO || Going(Val(modulus), Val(divisor), Val(mask), Val(quotient), d, k, c)
      invariant mask == ZERO ==> Val(modulus) < d
      invariant Val(x) == Val(quotient) * d + Val(modulus)
      decreases Val(mask)
    {
      ghost var v, q := Val(modulus), Val(quotient);
      ghost var bit := Val(modulus) >= Val(divisor);
      StepDown(v, Val(divisor), Val(mask), q, d, k, c, bit);
      if UCompare(modulus, divisor) >= 0 {
        SetBitIs(quotient, mask, k, c);
        quotient := SetBit(quotient, mask);
        modulus := Sub(modulus, divisor);
      }
      mask := Shr1(mask);
      divisor := Shr1(divisor);
      c := 2 * c + if bit then 1 else 0;
      k := if k > 0 then k - 1 else 0;
    }
    quo, rem := quotient, modulus;
  }

  lemma PowZero()
    ensures Pow2(0) == 1 && Pow2(1) == 2
  {
  }

  lemma MaskSet(mask: I64, k: nat)
    requires Val(mask) == Pow2(k)
    ensures mask != ZERO
  {
  }

  // In the second loop: the divisor is d * 2^k, and the quotient has the bits above k.
  ghost predicate Going(v: nat, divisor: nat, mask: nat, q: nat, d: nat, k: nat, c: nat) {
    divisor == d * Pow2(k) && mask == Pow2(k) && k < 64 && v < 2 * divisor && q == c * Pow2(k + 1)
  }

  lemma StepDown(v: nat, divisor: nat, mask: nat, q: nat, d: nat, k: nat, c: nat, bit: bool)
    requires Going(v, divisor, mask, q, d, k, c) && (bit <==> v >= divisor)
    ensures var v', q', c' := if bit then v - divisor else v, if bit then q + mask else q, 2 * c + if bit then 1 else 0;
      && q' * d + v' == q * d + v
      && if k == 0 then mask / 2 == 0 && v' < d else Going(v', divisor / 2, mask / 2, q', d, k - 1, c')
  {
    assert (q + mask) * d == q * d + mask * d && mask * d == divisor;
    var c' := 2 * c + if bit then 1 else 0;
    assert Pow2(k + 1) == 2 * mask && c * (2 * mask) == (2 * c) * mask && (2 * c + 1) * mask == (2 * c) * mask + mask;
    if k > 0 {
      assert mask == 2 * Pow2(k - 1);
      assert d * (2 * Pow2(k - 1)) == 2 * (d * Pow2(k - 1));
    } else {
      assert Pow2(0) == 1;
    }
  }

  lemma ShiftUp(divisor: nat, mask: nat, d: nat, k: nat)
    requires d > 0 && divisor == d * Pow2(k) && mask == Pow2(k) && k < 64 && divisor < M / 2
    ensures mask < M / 2 && k < 63 && 2 * divisor == d * Pow2(k + 1) && 2 * mask == Pow2(k + 1) && divisor > 0
  {
    MulLe(Pow2(k), 1, d);
    assert d * (2 * Pow2(k)) == 2 * (d * Pow2(k));
    if k >= 63 { Top63(k); }
  }

  lemma Top63(k: nat)
    requires k >= 63
    ensures Pow2(k) >= M / 2
  {
    Pow64();
    assert Pow2(64) == 2 * Pow2(63);
    Pow2Mono(63, k);
  }

  function Abs(n: int): nat { if n < 0 then -n else n }

  // Division that rounds toward zero, and its remainder.
  function TruncDiv(a: int, b: int): int
    requires b != 0
  {
    if (a < 0) != (b < 0) then -Quotient(Abs(a), Abs(b)) else Quotient(Abs(a), Abs(b))
  }

  function TruncMod(a: int, b: int): int
    requires b != 0
  {
    a - TruncDiv(a, b) * b
  }

  lemma RemainderIs(a: int, b: int, q: int, r: nat)
    requires b != 0 && q >= 0 && Abs(a) == q * Abs(b) + r && r < Abs(b)
    ensures TruncMod(a, b) == if a < 0 then 0 - r else r
  {
    hide Quotient;
    QuotientIs(Abs(a), Abs(b), q, r);
    MulNeg(q, b);
  }

  // The remainder is smaller than the divisor and has the sign of the dividend.
  lemma TruncModIs(a: int, b: int)
    requires b != 0
    ensures Abs(TruncMod(a, b)) < Abs(b) && (TruncMod(a, b) > 0 ==> a > 0) && (TruncMod(a, b) < 0 ==> a < 0)
  {
    hide Quotient;
    var q, r := Floor(Abs(a), Abs(b));
    NotNegative(q, Abs(b), r);
    RemainderIs(a, b, q, r);
  }

  predicate Negative64(x: I64) { x.h >= B / 2 }

  lemma NegAbs(x: I64)
    ensures Negative64(x) <==> Signed(x) < 0
    ensures Val(if Negative64(x) then Neg(x) else x) == Abs(Signed(x))
  {
  }

  // I64_div.  The sign of x.h ^ y.h tells whether the signs differ.
  method Div(x: I64, y: I64) returns (q: I64)
    requires Signed(y) != 0
    ensures Val(q) == Mod64(TruncDiv(Signed(x), Signed(y)))
  {
    hide Quotient;
    NegAbs(x);
    NegAbs(y);
    var r;
    q, r := UDivMod(if Negative64(x) then Neg(x) else x, if Negative64(y) then Neg(y) else y);
    QuotientIs(Abs(Signed(x)), Abs(Signed(y)), Val(q), Val(r));
    if Negative64(x) != Negative64(y) { q := Neg(q); }
  }

  // I64_mod
  method Mod(x: I64, y: I64) returns (r: I64)
    requires Signed(y) != 0
    ensures Signed(r) == TruncMod(Signed(x), Signed(y))
  {
    hide Quotient;
    NegAbs(x);
    NegAbs(y);
    var q;
    q, r := UDivMod(if Negative64(x) then Neg(x) else x, if Negative64(y) then Neg(y) else y);
    RemainderIs(Signed(x), Signed(y), Val(q), Val(r));
    if Negative64(x) { r := Neg(r); }
  }

  // Only one quotient does not fit.
  lemma QuotientFits(a: int, b: int)
    requires -M / 2 <= a < M / 2 && b != 0
    ensures if a == -M / 2 && b == -1 then TruncDiv(a, b) == M / 2 else -M / 2 <= TruncDiv(a, b) < M / 2
  {
    QuotientSmall(Abs(a), Abs(b));
    if Abs(b) == 1 {
      QuotientIs(Abs(a), 1, Abs(a), 0);
    } else {
      var q, r := Floor(Abs(a), Abs(b));
      MulLe(q, 2, Abs(b));
    }
  }

  datatype Result = Ok(value: I64) | ZeroDivide | Failure

  // caml_int64_div and caml_int64_mod
  method Int64Div(x: I64, y: I64) returns (r: Result)
    ensures if Signed(y) == 0 then r == ZeroDivide
            else r.Ok? && Val(r.value) == Mod64(TruncDiv(Signed(x), Signed(y)))
    ensures r.Ok? && Signed(x) == -M / 2 && Signed(y) == -1 ==> r.value == x
    ensures r.Ok? && !(Signed(x) == -M / 2 && Signed(y) == -1) ==> Signed(r.value) == TruncDiv(Signed(x), Signed(y))
  {
    if y == ZERO { return ZeroDivide; }
    QuotientFits(Signed(x), Signed(y));
    if x == I64(0x8000_0000, 0) && y == I64(0xFFFF_FFFF, 0xFFFF_FFFF) { return Ok(x); }
    var q := Div(x, y);
    SignedOf(q, TruncDiv(Signed(x), Signed(y)));
    r := Ok(q);
  }

  lemma SignedOf(x: I64, v: int)
    requires Val(x) == Mod64(v) && -M / 2 <= v < M / 2
    ensures Signed(x) == v
  {
  }

  method Int64Mod(x: I64, y: I64) returns (r: Result)
    ensures if Signed(y) == 0 then r == ZeroDivide
            else r.Ok? && Signed(r.value) == TruncMod(Signed(x), Signed(y))
  {
    if y == ZERO { return ZeroDivide; }
    if x == I64(0x8000_0000, 0) && y == I64(0xFFFF_FFFF, 0xFFFF_FFFF) {
      QuotientFits(Signed(x), Signed(y));
      return Ok(ZERO);
    }
    var m := Mod(x, y);
    r := Ok(m);
  }
}
