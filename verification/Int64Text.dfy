// int64_format.h and caml_int64_of_string of ints.c: 64-bit integers as text.
module Int64Text {
  import opened Arith
  import opened Bits
  import opened Int64

  // ---- Digits ----

  function Digit(d: nat, upper: bool): char
    requires d < 16
  {
    if upper then "0123456789ABCDEF"[d] else "0123456789abcdef"[d]
  }

  function Digits(v: nat, base: nat, upper: bool): (s: string)
    requires 2 <= base <= 16
    ensures s != ""
    decreases v
  {
    if v < base then [Digit(v, upper)] else Digits(v / base, base, upper) + [Digit(v % base, upper)]
  }

  // parse_digit
  function ParseDigit(c: char): int {
    if '0' <= c <= '9' then (c - '0') as int
    else if 'A' <= c <= 'F' then (c - 'A') as int + 10
    else if 'a' <= c <= 'f' then (c - 'a') as int + 10
    else -1
  }

  predicate IsDigit(c: char, base: nat) {
    0 <= ParseDigit(c) < base
  }

  lemma DigitIs(d: nat, upper: bool)
    requires d < 16
    ensures ParseDigit(Digit(d, upper)) == d && Digit(d, upper) != '_'
  {
    assert d == 0 || d == 1 || d == 2 || d == 3 || d == 4 || d == 5 || d == 6 || d == 7 || d == 8 || d == 9 || d == 10
        || d == 11 || d == 12 || d == 13 || d == 14 || d == 15;
  }

  // ---- The number that a text stands for ----

  // After the first digit, underscores do not count.
  predicate Numeral(s: string, base: nat) {
    s != "" && IsDigit(s[0], base) && forall i :: 1 <= i < |s| ==> s[i] == '_' || IsDigit(s[i], base)
  }

  function Number(s: string, base: nat): int {
    if s == "" then 0
    else
      var n, c := Number(s[..|s| - 1], base), s[|s| - 1];
      if c == '_' then n else n * base + ParseDigit(c)
  }

  datatype Prefix = Prefix(len: nat, base: nat, sign: int)

  function CharAt(s: string, i: nat): char {
    if i < |s| then s[i] else '\0'
  }

  // parse_sign_and_base
  function SignAndBase(s: string): (p: Prefix)
    ensures p.base == 2 || p.base == 8 || p.base == 10 || p.base == 16
    ensures p.len <= |s|
  {
    var sign, p := if CharAt(s, 0) == '-' then -1 else 1, if CharAt(s, 0) == '-' then 1 else 0;
    if CharAt(s, p) == '0' then
      var c := CharAt(s, p + 1);
      if c == 'x' || c == 'X' then Prefix(p + 2, 16, sign)
      else if c == 'o' || c == 'O' then Prefix(p + 2, 8, sign)
      else if c == 'b' || c == 'B' then Prefix(p + 2, 2, sign)
      else Prefix(p, 10, sign)
    else Prefix(p, 10, sign)
  }

  // The texts that are accepted.  Only decimal numbers have to be in the signed range.
  predicate Accepted(s: string) {
    var p := SignAndBase(s);
    var t := s[p.len..];
    && Numeral(t, p.base) && Number(t, p.base) < M
    && (p.base == 10 ==> Number(t, 10) <= if p.sign < 0 then M / 2 else M / 2 - 1)
  }

  function Meaning(s: string): int {
    var p := SignAndBase(s);
    p.sign * Number(s[p.len..], p.base)
  }

  lemma {:induction false} NumberAt(s: string, base: nat, i: nat)
    requires i <= |s| && base >= 1 && (i > 0 ==> Numeral(s[..i], base))
    requires forall j :: i <= j < |s| ==> s[j] == '_' || IsDigit(s[j], base)
    ensures 0 <= Number(s[..i], base) <= Number(s, base)
    decreases |s|
  {
    if i == |s| {
      assert s[..i] == s;
      NumberPositive(s, base);
    } else {
      var n := |s| - 1;
      assert s[..n][..i] == s[..i];
      NumberAt(s[..n], base, i);
      var m := Number(s[..n], base);
      assert m * base >= m by { MulLe(m, 1, base); }
    }
  }

  lemma {:induction false} NumberPositive(s: string, base: nat)
    requires s != "" ==> Numeral(s, base)
    ensures Number(s, base) >= 0
  {
    if |s| > 1 {
      NumberPositive(s[..|s| - 1], base);
      MulLe(Number(s[..|s| - 1], base), 0, base);
    }
  }

  // I64_of_int32, for a number that is not negative.
  function OfDigit(d: nat): (x: I64)
    requires d < B
    ensures Val(x) == d
  {
    I64(0, d)
  }

  lemma NumberStep(t: string, base: nat, k: nat)
    requires 0 < k < |t| && Numeral(t[..k], base) && (t[k] == '_' || IsDigit(t[k], base))
    ensures Numeral(t[..k + 1], base)
    ensures Number(t[..k + 1], base) ==
      if t[k] == '_' then Number(t[..k], base) else Number(t[..k], base) * base + ParseDigit(t[k])
  {
    assert t[..k + 1][..k] == t[..k];
    assert t[..k + 1][0] == t[..k][0];
  }

  lemma TooBig(s: string, k: nat)
    requires var p := SignAndBase(s);
      k <= |s[p.len..]| && Numeral(s[p.len..][..k], p.base) && Number(s[p.len..][..k], p.base) >= M
    ensures !Accepted(s)
  {
    var p := SignAndBase(s);
    if Numeral(s[p.len..], p.base) { NumberAt(s[p.len..], p.base, k); }
  }

  // The two tests find out exactly whether the next number fits.
  lemma StepFits(base: nat, threshold: I64, res: I64, d: nat)
    requires 2 <= base <= 16 && Val(threshold) == Quotient(M - 1, base) && d < base
    ensures var r := Add(Mul(OfDigit(base), res), OfDigit(d));
      if Val(res) > Val(threshold) then Val(res) * base + d >= M
      else if Val(r) < d then Val(res) * base + d >= M
      else Val(r) == Val(res) * base + d
  {
    hide Mul;
    hide Add;
    hide Quotient;
    hide Mod64;
    hide Val;
    MulIs(OfDigit(base), res);
    ThresholdIs(base, Val(threshold), Val(res));
    var v := base * Val(res);
    Commutes(Val(res), base);
    SumFits(v, d);
    assert Val(Add(Mul(OfDigit(base), res), OfDigit(d))) == Mod64(Mod64(v) + d);
  }

  lemma Commutes(a: int, b: int)
    ensures a * b == b * a
  {
  }

  lemma SumFits(v: nat, d: nat)
    requires d < M
    ensures v < M ==> if Mod64(Mod64(v) + d) < d then v + d >= M else Mod64(Mod64(v) + d) == v + d
  {
  }

  lemma ThresholdIs(base: nat, q: nat, v: nat)
    requires base >= 2 && q == Quotient(M - 1, base)
    ensures if v > q then base * v >= M else base * v < M
  {
    hide Quotient;
    var q', m := Floor(M - 1, base);
    assert (q + 1) * base == q * base + base;
    if v > q { MulLe(base, q + 1, v); } else { MulLe(base, v, q); }
  }

  // One more digit.
  method AddDigit(n: I64, threshold: I64, base: nat, d: nat) returns (ok: bool, res: I64)
    requires 2 <= base <= 16 && Val(threshold) == Quotient(M - 1, base) && d < base
    ensures ok <==> Val(n) * base + d < M
    ensures ok ==> Val(res) == Val(n) * base + d
  {
    hide Mul;
    hide Add;
    hide Quotient;
    StepFits(base, threshold, n, d);
    res := n;
    // Overflow in the multiplication, ...
    if UCompare(threshold, res) < 0 { return false, res; }
    res := Add(Mul(OfDigit(base), res), OfDigit(d));
    // ... and in the addition.
    ok := UCompare(res, OfDigit(d)) >= 0;
  }

  // caml_int64_of_string
  method Int64OfString(s: string) returns (r: Result)
    ensures r != ZeroDivide && (r.Ok? <==> Accepted(s))
    ensures r.Ok? ==> Val(r.value) == Mod64(Meaning(s))
  {
    hide Number;
    hide Numeral;
    hide Mul;
    hide Add;
    hide Quotient;
    hide SignAndBase;
    hide Meaning;
    hide Mod64;
    MeaningIs(s);
    var pre := SignAndBase(s);
    var base, p := pre.base, pre.len;
    var threshold, res := UDivMod(I64(0xFFFF_FFFF, 0xFFFF_FFFF), OfDigit(base));
    QuotientIs(M - 1, base, Val(threshold), Val(res));
    ghost var t := s[p..];
    FirstDigit(t, base);
    assert CharAt(s, p) == CharAt(t, 0);
    var d := ParseDigit(CharAt(s, p));
    if d < 0 || d >= base { return Failure; }
    res := OfDigit(d);
    p := p + 1;
    while p < |s| && (s[p] == '_' || IsDigit(s[p], base))
      invariant pre.len < p <= |s| && Numeral(t[..p - pre.len], base)
      invariant Val(res) == Number(t[..p - pre.len], base)
    {
      ghost var k := p - pre.len;
      NumberStep(t, base, k);
      if s[p] != '_' {
        d := ParseDigit(s[p]);
        var ok;
        ok, res := AddDigit(res, threshold, base, d);
        if !ok {
          TooBig(s, k + 1);
          return Failure;
        }
      }
      p := p + 1;
    }
    AtEnd(t, base, p - pre.len);
    if p != |s| { return Failure; }
    r := SignedResult(res, base, pre.sign);
  }

  lemma MeaningIs(s: string)
    ensures var p := SignAndBase(s);
      Meaning(s) == if p.sign < 0 then 0 - Number(s[p.len..], p.base) else Number(s[p.len..], p.base)
  {
  }

  lemma FirstDigit(t: string, base: nat)
    ensures t != "" && IsDigit(t[0], base) ==> Numeral(t[..1], base) && Number(t[..1], base) == ParseDigit(t[0])
    ensures Numeral(t, base) ==> t != "" && IsDigit(t[0], base)
  {
    if t != "" && IsDigit(t[0], base) {
      assert t[..1][..0] == "" && Number("", base) == 0;
      DigitNotScore(t[0], base);
    }
  }

  lemma DigitNotScore(c: char, base: nat)
    requires IsDigit(c, base)
    ensures c != '_'
  {
  }

  lemma AtEnd(t: string, base: nat, k: nat)
    requires k <= |t| && Numeral(t[..k], base) && (k < |t| ==> t[k] != '_' && !IsDigit(t[k], base))
    ensures k == |t| ==> t[..k] == t
    ensures k < |t| ==> !Numeral(t, base)
  {
  }

  // The end of caml_int64_of_string.
  method SignedResult(n: I64, base: nat, sign: int) returns (r: Result)
    ensures r != ZeroDivide && (r.Ok? <==> base != 10 || Val(n) <= if sign < 0 then M / 2 else M / 2 - 1)
    ensures r.Ok? ==> Val(r.value) == Mod64(if sign < 0 then 0 - Val(n) else Val(n))
  {
    var res := n;
    if base == 10 {
      if UCompare(if sign >= 0 then I64(0x7FFF_FFFF, 0xFFFF_FFFF) else I64(0x8000_0000, 0), res) < 0 {
        return Failure;
      }
    }
    if sign < 0 { res := Neg(res); }
    r := Ok(res);
  }

  // ---- Formats ----

  datatype Spec =
    Spec(left: bool, plus: char, zeros: bool, alternate: bool, base: nat, signed: bool, width: int, upper: bool)

  const PLAIN := Spec(false, '-', false, false, 0, false, 0, false)

  function DigitRun(f: string): (n: nat)
    ensures n <= |f|
  {
    if f != "" && '0' <= f[0] <= '9' then 1 + DigitRun(f[1..]) else 0
  }

  function Atoi(f: string): nat {
    if f == "" then 0 else Atoi(f[..|f| - 1]) * 10 + (if '0' <= f[|f| - 1] <= '9' then (f[|f| - 1] - '0') as int else 0)
  }

  const LONG_MAX: int := 0x7FFF_FFFF_FFFF_FFFF

  // atoi: strtol stops at LONG_MAX, and the cast to int drops the high bits.
  function Width(f: string): int {
    var v := if Atoi(f) <= LONG_MAX then Atoi(f) else LONG_MAX;
    (v + 0x8000_0000) % 0x1_0000_0000 - 0x8000_0000
  }

  // The loop over the format.  After a width it goes past one more character.
  function ReadFormat(f: string, z: Spec): Spec
    decreases |f|
  {
    if f == "" then z
    else
      var c := f[0];
      if '1' <= c <= '9' then
        var n := DigitRun(f);
        var z' := z.(width := Width(f[..n]));
        if n < |f| then ReadFormat(f[n + 1..], z') else z'
      else ReadFormat(f[1..], ReadChar(c, z))
  }

  function ReadChar(c: char, z: Spec): Spec {
    if c == '-' then z.(left := true)
    else if c == '+' || c == ' ' then z.(plus := c)
    else if c == '0' then z.(zeros := true)
    else if c == '#' then z.(alternate := true)
    else if c == 'd' || c == 'i' then z.(signed := true, base := 10)
    else if c == 'u' then z.(base := 10)
    else if c == 'x' then z.(base := 16)
    else if c == 'X' then z.(base := 16, upper := true)
    else if c == 'o' then z.(base := 8)
    else z
  }

  function Spaces(n: int, c: char): string {
    if n <= 0 then "" else [c] + Spaces(n - 1, c)
  }

  function SignOf(z: Spec, negative: bool): string {
    if !z.signed then "" else if negative then "-" else if z.plus != '-' then [z.plus] else ""
  }

  function PrefixOf(z: Spec): string {
    if !z.alternate then "" else if z.base == 8 then "0" else if z.base == 16 then "0x" else ""
  }

  // The text of x: sign, prefix and digits, filled up to the width.
  function Text(z: Spec, x: I64): string
    requires 2 <= z.base <= 16
  {
    var neg := z.signed && Signed(x) < 0;
    var raw := Digits(if neg then Abs(Signed(x)) else Val(x), z.base, z.upper);
    var sign, prefix := SignOf(z, neg), PrefixOf(z);
    var fill := z.width - |raw| - |sign| - |prefix|;
    (if !z.left && !z.zeros then Spaces(fill, ' ') else "") + sign + prefix +
    (if !z.left && z.zeros then Spaces(fill, '0') else "") + raw + (if z.left then Spaces(fill, ' ') else "")
  }

  function Formatted(f: string, x: I64): string {
    var z := ReadFormat(f, PLAIN);
    if z.base < 2 || z.base > 16 then "" else Text(z, x)
  }

  predicate GoodBase(z: Spec) {
    z.base == 0 || z.base == 8 || z.base == 10 || z.base == 16
  }

  lemma CharBase(c: char, z: Spec)
    requires GoodBase(z)
    ensures GoodBase(ReadChar(c, z))
  {
  }

  lemma {:induction false} BaseIs(f: string, z: Spec)
    requires GoodBase(z)
    ensures GoodBase(ReadFormat(f, z))
    decreases |f|
  {
    hide ReadChar;
    hide Atoi;
    if f != "" {
      if '1' <= f[0] <= '9' {
        var n := DigitRun(f);
        if n < |f| { BaseIs(f[n + 1..], z.(width := Width(f[..n]))); }
      } else {
        CharBase(f[0], z);
        BaseIs(f[1..], ReadChar(f[0], z));
      }
    }
  }

  // Three bits for a digit: 22 digits are enough for base 8.
  lemma {:induction false} DigitsShort(v: nat, base: nat, upper: bool, n: nat)
    requires 8 <= base <= 16 && n >= 1 && v < Pow2(3 * n)
    ensures |Digits(v, base, upper)| <= n
    decreases n
  {
    if v >= base {
      assert Pow2(3) == 8;
      if n == 1 {
      } else {
        Pow2Sum(3 * n - 3, 3);
        EighthLess(v, base, Pow2(3 * n - 3));
        DigitsShort(v / base, base, upper, n - 1);
      }
    }
  }

  lemma EighthLess(v: nat, base: nat, p: nat)
    requires base >= 8 && v < p * 8
    ensures v / base < p
  {
    assert v / base * 8 <= v / base * base <= v;
  }

  lemma FitsBuffer(v: nat, base: nat, upper: bool)
    requires 8 <= base <= 16 && v < M
    ensures |Digits(v, base, upper)| <= 22
  {
    Pow64();
    Pow2Mono(64, 66);
    DigitsShort(v, base, upper, 22);
  }

  // The digits, from the end of the raw buffer.
  method RawDigits(x: I64, base: nat, upper: bool, raw: array<char>) returns (r: nat)
    requires 8 <= base <= 16 && raw.Length == 24
    modifies raw
    ensures r <= 24 && raw[r..] == Digits(Val(x), base, upper)
  {
    hide Digits;
    FitsBuffer(Val(x), base, upper);
    r := 24;
    var y, more := x, true;
    while more
      invariant r <= 24
      invariant more ==> r >= |Digits(Val(y), base, upper)|
      invariant more ==> Digits(Val(y), base, upper) + raw[r..] == Digits(Val(x), base, upper)
      invariant !more ==> raw[r..] == Digits(Val(x), base, upper)
      decreases more, Val(y)
    {
      ghost var v, tail := Val(y), raw[r..];
      var digit;
      y, digit := UDivMod(y, OfDigit(base));
      OneDigit(v, base, upper, Val(y), Val(digit));
      r := r - 1;
      raw[r] := Digit(digit.l, upper);
      assert raw[r..] == [Digit(Val(digit), upper)] + tail;
      more := y != ZERO;
    }
  }

  lemma OneDigit(v: nat, base: nat, upper: bool, q: nat, d: nat)
    requires 2 <= base <= 16 && v == q * base + d && d < base
    ensures Digits(v, base, upper) == (if q == 0 then "" else Digits(q, base, upper)) + [Digit(d, upper)]
    ensures q > 0 ==> q < v
  {
    DivModIs(v, base, q, d);
    QuotientLess(q, base, d);
  }

  lemma QuotientLess(q: nat, base: nat, d: nat)
    requires base >= 2
    ensures (q == 0 ==> q * base == 0) && (q > 0 ==> q < q * base + d && q * base + d >= base)
  {
    MulLe(q, 2, base);
    if q > 0 { MulLe(base, 1, q); }
  }

  // The loop over the format of I64_format.
  method ReadFmt(f: string) returns (z: Spec)
    ensures z == ReadFormat(f, PLAIN)
  {
    hide ReadChar;
    hide Atoi;
    var p := 0;
    z := PLAIN;
    while p < |f|
      invariant p <= |f| && ReadFormat(f[p..], z) == ReadFormat(f, PLAIN)
    {
      var c := f[p];
      if '1' <= c <= '9' {
        var n := DigitRun(f[p..]);
        z := z.(width := Width(f[p..][..n]));
        p := p + n;
        if p == |f| { break; }
        p := p + 1;
      } else {
        z := ReadChar(c, z);
        p := p + 1;
      }
    }
  }

  // Copies of c for the indices from i to width.
  method Fill(i: int, width: int, c: char) returns (s: string)
    ensures s == Spaces(width - i, c)
  {
    s := "";
    var j := width;
    while j > i
      invariant (j >= i || s == "") && (j >= i ==> s == Spaces(width - j, c)) && (i <= width ==> j >= i)
    {
      j := j - 1;
      s := [c] + s;
    }
  }

  // I64_format
  method Format(f: string, x0: I64) returns (buffer: string)
    ensures buffer == Formatted(f, x0)
  {
    hide ReadFormat;
    hide Digits;
    hide Text;
    var z := ReadFmt(f);
    BaseIs(f, PLAIN);
    if z.base == 0 { return ""; }
    var negative, x := false, x0;
    NegAbs(x0);
    if z.signed && Negative64(x) {
      negative, x := true, Neg(x);
    }
    var raw := new char[24](_ => ' ');
    var r := RawDigits(x, z.base, z.upper, raw);
    buffer := Layout(z, x0, negative, raw[r..]);
  }

  method AddSign(s: string, z: Spec, negative: bool) returns (buffer: string)
    ensures buffer == s + SignOf(z, negative) + PrefixOf(z)
  {
    buffer := s;
    if z.signed {
      if negative { buffer := buffer + "-"; } else if z.plus != '-' { buffer := buffer + [z.plus]; }
    }
    if z.alternate && z.base == 8 { buffer := buffer + "0"; }
    if z.alternate && z.base == 16 { buffer := buffer + "0x"; }
  }

  // The formatting itself.
  method Layout(z: Spec, ghost x: I64, negative: bool, raw: string) returns (buffer: string)
    requires z.base == 8 || z.base == 10 || z.base == 16
    requires (negative <==> z.signed && Signed(x) < 0)
    requires raw == Digits(if negative then Abs(Signed(x)) else Val(x), z.base, z.upper)
    ensures buffer == Text(z, x)
  {
    hide Digits;
    hide Spaces;
    var rawLen := |raw|;
    if z.signed && (negative || z.plus != '-') { rawLen := rawLen + 1; }
    if z.alternate {
      if z.base == 8 { rawLen := rawLen + 1; }
      if z.base == 16 { rawLen := rawLen + 2; }
    }
    var spaces := Fill(rawLen, z.width, ' ');
    var zeros := Fill(rawLen, z.width, '0');
    buffer := if !z.left && !z.zeros then spaces else "";
    buffer := AddSign(buffer, z, negative);
    if !z.left && z.zeros { buffer := buffer + zeros; }
    buffer := buffer + raw;
    if z.left { buffer := buffer + spaces; }
  }

  // ---- What is printed can be read back ----

  lemma {:induction false} NumberDigits(v: nat, base: nat, upper: bool)
    requires 2 <= base <= 16
    ensures Numeral(Digits(v, base, upper), base) && Number(Digits(v, base, upper), base) == v
    ensures forall i :: 0 <= i < |Digits(v, base, upper)| ==> IsDigit(Digits(v, base, upper)[i], base)
    decreases v
  {
    var q, d := DivMod(v, base);
    OneDigit(v, base, upper, q, d);
    DigitIs(d, upper);
    if q == 0 {
      OneCharNumber(Digit(d, upper), base);
      assert q * base == 0;
    } else {
      NumberDigits(q, base, upper);
      NumberSnoc(Digits(q, base, upper), Digit(d, upper), base);
    }
  }

  lemma OneCharNumber(c: char, base: nat)
    requires IsDigit(c, base) && c != '_'
    ensures Numeral([c], base) && Number([c], base) == ParseDigit(c)
  {
    assert [c][..0] == "" && Number("", base) == 0;
  }

  lemma NumberSnoc(s: string, c: char, base: nat)
    requires Numeral(s, base) && IsDigit(c, base) && c != '_'
    ensures Numeral(s + [c], base) && Number(s + [c], base) == Number(s, base) * base + ParseDigit(c)
  {
    assert (s + [c])[..|s|] == s;
  }

  lemma DecimalStart(s: string, v: nat)
    requires s == Digits(v, 10, false) || s == "-" + Digits(v, 10, false)
    ensures var p := SignAndBase(s);
      p.base == 10 && s[p.len..] == Digits(v, 10, false) && p.sign == if s[0] == '-' then -1 else 1
    ensures s[0] == '-' <==> s != Digits(v, 10, false)
  {
    var d := Digits(v, 10, false);
    NumberDigits(v, 10, false);
    if s == d {
      assert IsDigit(s[0], 10) && (|s| > 1 ==> IsDigit(s[1], 10));
    } else {
      assert s[1] == d[0] && (|d| > 1 ==> s[2] == d[1] && IsDigit(d[1], 10));
      assert s[1..] == d && IsDigit(d[0], 10);
    }
  }

  lemma ReadNext(c: char, f: string, z: Spec)
    requires !('1' <= c <= '9')
    ensures ReadFormat([c] + f, z) == ReadFormat(f, ReadChar(c, z))
  {
    assert ([c] + f)[1..] == f;
  }

  lemma ReadTwo(c: char, z: Spec)
    requires !('1' <= c <= '9') && ReadChar('%', z) == z
    ensures ReadFormat(['%', c], z) == ReadChar(c, z)
  {
    ReadNext('%', [c], z);
    ReadNext(c, "", z);
    assert [c] + "" == [c] && ['%'] + [c] == ['%', c];
  }

  lemma ReadThree(c: char, z: Spec)
    requires !('1' <= c <= '9') && ReadChar('%', z) == z
    ensures ReadFormat(['%', '#', c], z) == ReadChar(c, z.(alternate := true))
  {
    ReadNext('%', ['#', c], z);
    ReadNext('#', [c], z);
    ReadNext(c, "", z.(alternate := true));
    assert ['%'] + ['#', c] == ['%', '#', c] && ['#'] + [c] == ['#', c] && [c] + "" == [c];
  }

  // Without a width, nothing is filled up.
  lemma TextIs(z: Spec, x: I64)
    requires 2 <= z.base <= 16 && z.width == 0 && z.plus == '-' && z.base != 8
    ensures Text(z, x) ==
      (if z.signed && Signed(x) < 0 then "-" else "") + (if z.alternate && z.base == 16 then "0x" else "")
      + Digits(if z.signed && Signed(x) < 0 then Abs(Signed(x)) else Val(x), z.base, z.upper)
  {
    hide Digits;
    assert forall n: int, c :: n <= 0 ==> Spaces(n, c) == "";
  }

  lemma DecimalFormat(x: I64)
    ensures Formatted("%d", x) == (if Signed(x) < 0 then "-" else "") + Digits(Abs(Signed(x)), 10, false)
    ensures Formatted("%u", x) == Digits(Val(x), 10, false)
  {
    hide Digits;
    hide Text;
    hide ReadFormat;
    ReadTwo('d', PLAIN);
    ReadTwo('u', PLAIN);
    TextIs(PLAIN.(signed := true, base := 10), x);
    TextIs(PLAIN.(base := 10), x);
  }

  // %d: every number is read back as itself, min_int included.
  lemma DecimalBack(x: I64)
    ensures Accepted(Formatted("%d", x)) && Mod64(Meaning(Formatted("%d", x))) == Val(x)
  {
    DecimalFormat(x);
    DecimalStart(Formatted("%d", x), Abs(Signed(x)));
    NumberDigits(Abs(Signed(x)), 10, false);
  }

  // %u: only those that are not negative.
  lemma UnsignedBack(x: I64)
    ensures Accepted(Formatted("%u", x)) <==> Signed(x) >= 0
    ensures Signed(x) >= 0 ==> Meaning(Formatted("%u", x)) == Signed(x)
  {
    DecimalFormat(x);
    DecimalStart(Formatted("%u", x), Val(x));
    NumberDigits(Val(x), 10, false);
  }

  lemma HexFormat(x: I64)
    ensures Formatted("%#x", x) == "0x" + Digits(Val(x), 16, false)
    ensures Formatted("%#X", x) == "0x" + Digits(Val(x), 16, true)
  {
    hide Digits;
    hide Text;
    hide ReadFormat;
    ReadThree('x', PLAIN);
    ReadThree('X', PLAIN);
    TextIs(PLAIN.(alternate := true, base := 16), x);
    TextIs(PLAIN.(alternate := true, base := 16, upper := true), x);
  }

  lemma HexStart(s: string, d: string)
    requires s == "0x" + d
    ensures SignAndBase(s) == Prefix(2, 16, 1) && s[2..] == d
  {
  }

  // %#x and %#X: every bit pattern.
  lemma HexBack(x: I64, upper: bool)
    ensures var s := Formatted(if upper then "%#X" else "%#x", x); Accepted(s) && Meaning(s) == Val(x)
  {
    HexFormat(x);
    HexStart(Formatted(if upper then "%#X" else "%#x", x), Digits(Val(x), 16, upper));
    NumberDigits(Val(x), 16, upper);
  }

  predicate IsFlag(c: char) {
    c == '-' || c == '+' || c == ' ' || c == '0' || c == '#'
  }

  predicate IsConversion(c: char) {
    c == 'd' || c == 'i' || c == 'u' || c == 'x' || c == 'X' || c == 'o'
  }

  lemma {:induction false} FlagsPassed(flags: string, rest: string, z: Spec) returns (z': Spec)
    requires forall i :: 0 <= i < |flags| ==> IsFlag(flags[i])
    ensures ReadFormat(flags + rest, z) == ReadFormat(rest, z') && z'.base == z.base
    decreases |flags|
  {
    if flags == "" {
      assert flags + rest == rest;
      z' := z;
    } else {
      assert (flags + rest)[1..] == flags[1..] + rest;
      z' := FlagsPassed(flags[1..], rest, ReadChar(flags[0], z));
    }
  }

  // A conversion prints nothing exactly if it has a width: after the width, the conversion letter itself
  // is passed over.
  lemma WidthPrintsNothing(flags: string, w: string, c: char, x: I64)
    requires (forall i :: 0 <= i < |flags| ==> IsFlag(flags[i])) && IsConversion(c)
    requires (forall i :: 0 <= i < |w| ==> '0' <= w[i] <= '9') && (w != "" ==> w[0] != '0')
    ensures Formatted("%" + flags + w + [c], x) == "" <==> w != ""
  {
    hide Text;
    var f, g := "%" + flags + w + [c], w + [c];
    assert f == "%" + (flags + g);
    assert f[1..] == flags + g;
    assert ReadFormat(f, PLAIN) == ReadFormat(flags + g, PLAIN);
    var z := FlagsPassed(flags, g, PLAIN);
    if w == "" {
      assert g == [c] && g[1..] == "";
      assert ReadFormat(g, z) == ReadChar(c, z);
      TextNotEmpty(ReadChar(c, z), x);
    } else {
      RunIs(w, c);
      assert g[|w| + 1..] == "";
      assert ReadFormat(g, z) == z.(width := Width(g[..|w|]));
    }
  }

  lemma TextNotEmpty(z: Spec, x: I64)
    requires 2 <= z.base <= 16
    ensures Text(z, x) != ""
  {
  }

  lemma {:induction false} RunIs(w: string, c: char)
    requires (forall i :: 0 <= i < |w| ==> '0' <= w[i] <= '9') && !('0' <= c <= '9')
    ensures DigitRun(w + [c]) == |w|
  {
    if w != "" {
      assert (w + [c])[1..] == w[1..] + [c];
      RunIs(w[1..], c);
    }
  }
}
