// The bytes of a marshaled value: the codes of intext.h.
module MarshalBytes {
  datatype Option<T> = None | Some(value: T)

  type Byte = x: int | 0 <= x < 256

  datatype Kind = Int32 | Int64 | NativeInt

  datatype Token =
    | Int(n: int)
    | Blk(size: nat, tag: nat, color: nat)
    | Shared(d: nat)
    | Str(s: seq<Byte>)
    | Custom(kind: Kind, n: int)

  const CODE_INT8: Byte := 0x0
  const CODE_INT16: Byte := 0x1
  const CODE_INT32: Byte := 0x2
  const CODE_INT64: Byte := 0x3
  const CODE_SHARED8: Byte := 0x4
  const CODE_SHARED16: Byte := 0x5
  const CODE_SHARED32: Byte := 0x6
  const CODE_BLOCK32: Byte := 0x8
  const CODE_BLOCK64: Byte := 0x13
  const CODE_STRING8: Byte := 0x9
  const CODE_STRING32: Byte := 0xA
  const CODE_CUSTOM: Byte := 0x12

  // ---- Numbers, most significant byte first ----

  function Pow256(k: nat): (p: nat)
    ensures p > 0
  {
    if k == 0 then 1 else 256 * Pow256(k - 1)
  }

  // The k low bytes of n.
  function Big(k: nat, n: int): (bs: seq<Byte>)
    ensures |bs| == k
  {
    if k == 0 then [] else Big(k - 1, n / 256) + [n % 256]
  }

  function Unsigned(bs: seq<Byte>): nat {
    if bs == [] then 0 else Unsigned(bs[..|bs| - 1]) * 256 + bs[|bs| - 1]
  }

  function Signed(bs: seq<Byte>): int {
    var u, p := Unsigned(bs), Pow256(|bs|);
    if 2 * u < p then u else u - p
  }

  lemma ModTimes(n: int, p: nat)
    requires p > 0
    ensures n % (256 * p) == ((n / 256) % p) * 256 + n % 256
  {
    var q, r := (n / 256) / p, ((n / 256) % p) * 256 + n % 256;
    assert n == (256 * p) * q + r;
    assert 0 <= r < 256 * p;
    ModUnique(n, 256 * p, q, r);
  }

  lemma ModUnique(n: int, d: nat, q: int, r: int)
    requires d > 0 && n == d * q + r && 0 <= r < d
    ensures n % d == r
  {
    var q', r' := n / d, n % d;
    var x := q - q';
    assert d * x == r' - r;
    if x >= 1 { TimesAtLeast(d, x); }
    if x <= -1 { TimesAtLeast(d, -x); }
  }

  lemma TimesAtLeast(d: nat, x: nat)
    requires x >= 1
    ensures d * x >= d
  {
  }

  lemma {:induction false} UnsignedBig(k: nat, n: int)
    ensures Unsigned(Big(k, n)) == n % Pow256(k)
  {
    if k > 0 {
      UnsignedBig(k - 1, n / 256);
      ModTimes(n, Pow256(k - 1));
      assert Big(k, n)[..k - 1] == Big(k - 1, n / 256);
    }
  }

  lemma SignedBig(k: nat, n: int)
    requires 0 <= 2 * n + Pow256(k) && 2 * n < Pow256(k)
    ensures Signed(Big(k, n)) == n
  {
    UnsignedBig(k, n);
    if n >= 0 { ModUnique(n, Pow256(k), 0, n); } else { ModUnique(n, Pow256(k), -1, n + Pow256(k)); }
  }

  lemma UnsignedSmall(k: nat, n: nat)
    requires n < Pow256(k)
    ensures Unsigned(Big(k, n)) == n
  {
    UnsignedBig(k, n);
  }

  lemma Powers()
    ensures Pow256(1) == 0x100 && Pow256(2) == 0x1_0000 && Pow256(4) == 0x1_0000_0000
    ensures Pow256(8) == 0x1_0000_0000_0000_0000
  {
    assert Pow256(3) == 0x100_0000;
    assert Pow256(5) == 0x100_0000_0000;
    assert Pow256(6) == 0x1_0000_0000_0000;
    assert Pow256(7) == 0x100_0000_0000_0000;
  }

  // ---- Writing ----

  function EncodeInt(n: int): seq<Byte> {
    if 0 <= n < 0x40 then [0x40 + n]
    else if -0x80 <= n < 0x80 then [CODE_INT8] + Big(1, n)
    else if -0x8000 <= n < 0x8000 then [CODE_INT16] + Big(2, n)
    else if n < -0x8000_0000 || n >= 0x8000_0000 then [CODE_INT64] + Big(8, n)
    else [CODE_INT32] + Big(4, n)
  }

  function EncodeBlk(size: nat, tag: nat, color: nat): seq<Byte> {
    var hd := size * 1024 + color * 256 + tag;
    if tag < 16 && size < 8 then [0x80 + tag + size * 16]
    else if hd >= 0x1_0000_0000 then [CODE_BLOCK64] + Big(8, hd)
    else [CODE_BLOCK32] + Big(4, hd)
  }

  function EncodeShared(d: nat): seq<Byte> {
    if d < 0x100 then [CODE_SHARED8] + Big(1, d)
    else if d < 0x1_0000 then [CODE_SHARED16] + Big(2, d)
    else [CODE_SHARED32] + Big(4, d)
  }

  function EncodeStr(s: seq<Byte>): seq<Byte> {
    (if |s| < 0x20 then [0x20 + |s|]
     else if |s| < 0x100 then [CODE_STRING8] + Big(1, |s|)
     else [CODE_STRING32] + Big(4, |s|)) + s
  }

  // The identifiers "_i", "_j" and "_n", with the null character.
  function Ident(kind: Kind): (id: seq<Byte>)
    ensures |id| == 3
  {
    match kind
    case Int32 => [0x5F, 0x69, 0]
    case Int64 => [0x5F, 0x6A, 0]
    case NativeInt => [0x5F, 0x6E, 0]
  }

  function EncodeData(kind: Kind, n: int): seq<Byte> {
    match kind
    case Int32 => Big(4, n)
    case Int64 => Big(8, n)
    case NativeInt => if -0x8000_0000 <= n <= 0x7FFF_FFFF then [1] + Big(4, n) else [2] + Big(8, n)
  }

  function Encode(t: Token): (bs: seq<Byte>)
    ensures bs != []
  {
    match t
    case Int(n) => EncodeInt(n)
    case Blk(size, tag, color) => EncodeBlk(size, tag, color)
    case Shared(d) => EncodeShared(d)
    case Str(s) => EncodeStr(s)
    case Custom(kind, n) => [CODE_CUSTOM] + Ident(kind) + EncodeData(kind, n)
  }

  function EncodeAll(ts: seq<Token>): seq<Byte> {
    if ts == [] then [] else Encode(ts[0]) + EncodeAll(ts[1..])
  }

  lemma {:induction false} EncodeMore(ts: seq<Token>, us: seq<Token>)
    ensures EncodeAll(ts + us) == EncodeAll(ts) + EncodeAll(us)
  {
    if ts == [] {
      assert ts + us == us;
    } else {
      assert (ts + us)[1..] == ts[1..] + us;
      EncodeMore(ts[1..], us);
    }
  }

  lemma EncodeOne(t: Token)
    ensures EncodeAll([t]) == Encode(t)
  {
  }

  // ---- Reading ----

  function ReadInt(bs: seq<Byte>, k: nat): Option<(Token, nat)>
    requires bs != []
  {
    if |bs| < 1 + k then None else Some((Int(Signed(bs[1..1 + k])), 1 + k))
  }

  function ReadShared(bs: seq<Byte>, k: nat): Option<(Token, nat)>
    requires bs != []
  {
    if |bs| < 1 + k then None else Some((Shared(Unsigned(bs[1..1 + k])), 1 + k))
  }

  function ReadBlk(bs: seq<Byte>, k: nat): Option<(Token, nat)>
    requires bs != []
  {
    if |bs| < 1 + k then None
    else
      var hd := Unsigned(bs[1..1 + k]);
      Some((Blk(hd / 1024, hd % 256, hd / 256 % 4), 1 + k))
  }

  // A string of len bytes after the first i.
  function ReadStr(bs: seq<Byte>, i: nat, len: nat): Option<(Token, nat)> {
    if |bs| < i + len then None else Some((Str(bs[i..i + len]), i + len))
  }

  function ReadData(kind: Kind, bs: seq<Byte>): Option<(Token, nat)> {
    match kind
    case Int32 => if |bs| < 8 then None else Some((Custom(kind, Signed(bs[4..8])), 8))
    case Int64 => if |bs| < 12 then None else Some((Custom(kind, Signed(bs[4..12])), 12))
    case NativeInt =>
      if |bs| < 9 then None
      else if bs[4] == 1 then Some((Custom(kind, Signed(bs[5..9])), 9))
      else if bs[4] == 2 then (if |bs| < 13 then None else Some((Custom(kind, Signed(bs[5..13])), 13)))
      else None
  }

  function ReadCustom(bs: seq<Byte>): Option<(Token, nat)> {
    if |bs| < 4 then None
    else if bs[1..4] == Ident(Int32) then ReadData(Int32, bs)
    else if bs[1..4] == Ident(Int64) then ReadData(Int64, bs)
    else if bs[1..4] == Ident(NativeInt) then ReadData(NativeInt, bs)
    else None
  }

  // The first token of bs and its length; none if bs is ill-formed or too short.
  function Decode(bs: seq<Byte>): Option<(Token, nat)> {
    if bs == [] then None
    else
      var code := bs[0];
      if code >= 0x80 then Some((Blk((code / 16) % 8, code % 16, 0), 1))
      else if code >= 0x40 then Some((Int(code % 0x40), 1))
      else if code >= 0x20 then ReadStr(bs, 1, code % 0x20)
      else if code == CODE_INT8 then ReadInt(bs, 1)
      else if code == CODE_INT16 then ReadInt(bs, 2)
      else if code == CODE_INT32 then ReadInt(bs, 4)
      else if code == CODE_INT64 then ReadInt(bs, 8)
      else if code == CODE_SHARED8 then ReadShared(bs, 1)
      else if code == CODE_SHARED16 then ReadShared(bs, 2)
      else if code == CODE_SHARED32 then ReadShared(bs, 4)
      else if code == CODE_BLOCK32 then ReadBlk(bs, 4)
      else if code == CODE_BLOCK64 then ReadBlk(bs, 8)
      else if code == CODE_STRING8 then (if |bs| < 2 then None else ReadStr(bs, 2, Unsigned(bs[1..2])))
      else if code == CODE_STRING32 then (if |bs| < 5 then None else ReadStr(bs, 5, Unsigned(bs[1..5])))
      else if code == CODE_CUSTOM then ReadCustom(bs)
      else None
  }

  // The token is one that the code of its kind can hold.
  predicate Holds(t: Token) {
    match t
    case Int(n) => -0x8000_0000_0000_0000 <= n < 0x8000_0000_0000_0000
    case Blk(size, tag, color) =>
      size < 0x40_0000_0000_0000 && tag < 256 && color < 4 && (tag < 16 && size < 8 ==> color == 0)
    case Shared(d) => d < 0x1_0000_0000
    case Str(s) => |s| < 0x1_0000_0000
    case Custom(kind, n) =>
      if kind == Int32 then -0x8000_0000 <= n < 0x8000_0000
      else -0x8000_0000_0000_0000 <= n < 0x8000_0000_0000_0000
  }

  lemma NumberAfter(c: seq<Byte>, k: nat, n: int, rest: seq<Byte>)
    ensures (c + Big(k, n) + rest)[|c|..|c| + k] == Big(k, n)
  {
  }

  lemma DecodeInt(n: int, rest: seq<Byte>)
    requires Holds(Int(n))
    ensures Decode(EncodeInt(n) + rest) == Some((Int(n), |EncodeInt(n)|))
  {
    Powers();
    var bs := EncodeInt(n) + rest;
    if 0 <= n < 0x40 {
    } else {
      var k := if -0x80 <= n < 0x80 then 1 else if -0x8000 <= n < 0x8000 then 2
               else if n < -0x8000_0000 || n >= 0x8000_0000 then 8 else 4;
      NumberAfter([bs[0]], k, n, rest);
      SignedBig(k, n);
      assert bs[1..1 + k] == Big(k, n);
    }
  }

  lemma DecodeShared(d: nat, rest: seq<Byte>)
    requires Holds(Shared(d))
    ensures Decode(EncodeShared(d) + rest) == Some((Shared(d), |EncodeShared(d)|))
  {
    hide Pow256;
    hide Unsigned;
    hide Big;
    Powers();
    var bs := EncodeShared(d) + rest;
    var k := if d < 0x100 then 1 else if d < 0x1_0000 then 2 else 4;
    UnsignedSmall(k, d);
    assert bs[1..1 + k] == Big(k, d);
  }

  lemma HeaderParts(size: nat, tag: nat, color: nat)
    requires tag < 256 && color < 4
    ensures var hd := size * 1024 + color * 256 + tag;
      hd / 1024 == size && hd % 256 == tag && hd / 256 % 4 == color
  {
  }

  lemma DecodeBlk(size: nat, tag: nat, color: nat, rest: seq<Byte>)
    requires Holds(Blk(size, tag, color))
    ensures Decode(EncodeBlk(size, tag, color) + rest) ==
            Some((Blk(size, tag, color), |EncodeBlk(size, tag, color)|))
  {
    hide Pow256;
    hide Unsigned;
    hide Big;
    hide ReadInt;
    hide ReadShared;
    hide ReadStr;
    hide ReadCustom;
    HeaderParts(size, tag, color);
    Powers();
    var bs, hd := EncodeBlk(size, tag, color) + rest, size * 1024 + color * 256 + tag;
    if tag < 16 && size < 8 {
    } else {
      var k := if hd >= 0x1_0000_0000 then 8 else 4;
      UnsignedSmall(k, hd);
      assert bs[1..1 + k] == Big(k, hd);
    }
  }

  lemma DecodeStr(s: seq<Byte>, rest: seq<Byte>)
    requires Holds(Str(s))
    ensures Decode(EncodeStr(s) + rest) == Some((Str(s), |EncodeStr(s)|))
  {
    Powers();
    var bs := EncodeStr(s) + rest;
    if |s| < 0x20 {
      assert bs[1..1 + |s|] == s;
    } else {
      var k := if |s| < 0x100 then 1 else 4;
      UnsignedSmall(k, |s|);
      assert bs[1..1 + k] == Big(k, |s|);
      assert bs[1 + k..1 + k + |s|] == s;
    }
  }

  lemma DecodeCustom(kind: Kind, n: int, rest: seq<Byte>)
    requires Holds(Custom(kind, n))
    ensures var bs := Encode(Custom(kind, n)); Decode(bs + rest) == Some((Custom(kind, n), |bs|))
  {
    hide Big;
    hide Signed;
    hide Pow256;
    Powers();
    var bs := Encode(Custom(kind, n)) + rest;
    assert bs[1..4] == Ident(kind);
    assert Ident(Int32)[1] != Ident(Int64)[1] && Ident(Int32)[1] != Ident(NativeInt)[1];
    assert Ident(Int64)[1] != Ident(NativeInt)[1];
    if kind == NativeInt {
      var k := if -0x8000_0000 <= n <= 0x7FFF_FFFF then 4 else 8;
      SignedBig(k, n);
      assert bs[5..5 + k] == Big(k, n);
    } else {
      var k := if kind == Int32 then 4 else 8;
      SignedBig(k, n);
      assert bs[4..4 + k] == Big(k, n);
    }
  }

  // Reading undoes writing, whatever follows.
  lemma DecodeEncode(t: Token, rest: seq<Byte>)
    requires Holds(t)
    ensures Decode(Encode(t) + rest) == Some((t, |Encode(t)|))
  {
    hide Decode;
    match t
    case Int(n) => DecodeInt(n, rest);
    case Blk(size, tag, color) => DecodeBlk(size, tag, color, rest);
    case Shared(d) => DecodeShared(d, rest);
    case Str(s) => DecodeStr(s, rest);
    case Custom(kind, n) => DecodeCustom(kind, n, rest);
  }

  // ---- The bytes themselves, at both sides of every limit ----

  lemma BigTwo(n: int)
    ensures Big(1, n) == [n % 256] && Big(2, n) == [n / 256 % 256, n % 256]
  {
    assert Big(1, n / 256) == Big(0, n / 256 / 256) + [n / 256 % 256];
  }

  lemma BigTwoMore(k: nat, n: int)
    ensures Big(k + 2, n) == Big(k, n / 0x1_0000) + Big(2, n)
  {
    assert Big(k + 2, n) == Big(k + 1, n / 256) + [n % 256];
    assert Big(k + 1, n / 256) == Big(k, n / 256 / 256) + [n / 256 % 256];
    BigTwo(n);
  }

  lemma BigEight(n: int)
    ensures Big(4, n) == Big(2, n / 0x1_0000) + Big(2, n)
    ensures Big(8, n) == Big(4, n / 0x1_0000_0000) + Big(4, n)
  {
    hide Big;
    var m := n / 0x1_0000;
    BigTwoMore(6, n);
    BigTwoMore(4, m);
    BigTwoMore(2, n);
    assert m / 0x1_0000 == n / 0x1_0000_0000;
    assert Big(8, n) == (Big(4, n / 0x1_0000_0000) + Big(2, m)) + Big(2, n);
  }

  lemma NumberBytes(n: int)
    ensures Big(4, n) == [n / 0x100_0000 % 256, n / 0x1_0000 % 256, n / 256 % 256, n % 256]
    ensures Big(8, n) == Big(4, n / 0x1_0000_0000) + Big(4, n)
  {
    hide Big;
    BigEight(n);
    BigTwo(n);
    BigTwo(n / 0x1_0000);
  }

  lemma IntBytes()
    ensures Encode(Int(0)) == [0x40] && Encode(Int(63)) == [0x7F]
    ensures Encode(Int(64)) == [0x00, 0x40] && Encode(Int(127)) == [0x00, 0x7F]
    ensures Encode(Int(-1)) == [0x00, 0xFF] && Encode(Int(-128)) == [0x00, 0x80]
    ensures Encode(Int(128)) == [0x01, 0x00, 0x80] && Encode(Int(-129)) == [0x01, 0xFF, 0x7F]
    ensures Encode(Int(32767)) == [0x01, 0x7F, 0xFF] && Encode(Int(-32768)) == [0x01, 0x80, 0x00]
  {
    hide Big;
    BigTwo(64);
    BigTwo(127);
    BigTwo(-1);
    BigTwo(-128);
    BigTwo(128);
    BigTwo(-129);
    BigTwo(32767);
    BigTwo(-32768);
  }

  lemma LongIntBytes()
    ensures Encode(Int(32768)) == [0x02, 0x00, 0x00, 0x80, 0x00]
    ensures Encode(Int(-32769)) == [0x02, 0xFF, 0xFF, 0x7F, 0xFF]
    ensures Encode(Int(0x7FFF_FFFF)) == [0x02, 0x7F, 0xFF, 0xFF, 0xFF]
    ensures Encode(Int(-0x8000_0000)) == [0x02, 0x80, 0x00, 0x00, 0x00]
    ensures Encode(Int(0x8000_0000)) == [0x03, 0x00, 0x00, 0x00, 0x00, 0x80, 0x00, 0x00, 0x00]
    ensures Encode(Int(-0x8000_0001)) == [0x03, 0xFF, 0xFF, 0xFF, 0xFF, 0x7F, 0xFF, 0xFF, 0xFF]
  {
    hide Big;
    NumberBytes(32768);
    NumberBytes(-32769);
    NumberBytes(0x7FFF_FFFF);
    NumberBytes(-0x8000_0000);
    NumberBytes(0x8000_0000);
    NumberBytes(-0x8000_0001);
    NumberBytes(0);
    NumberBytes(-1);
  }

  // The header of a block: its size in the upper 54 bits, then 2 bits of color and 8 of tag.
  lemma BlkBytes()
    ensures Encode(Blk(0, 0, 0)) == [0x80] && Encode(Blk(7, 15, 0)) == [0xFF] && Encode(Blk(2, 3, 0)) == [0xA3]
    ensures Encode(Blk(8, 1, 0)) == [0x08, 0x00, 0x00, 0x20, 0x01]
    ensures Encode(Blk(1, 16, 0)) == [0x08, 0x00, 0x00, 0x04, 0x10]
    ensures Encode(Blk(0, 16, 3)) == [0x08, 0x00, 0x00, 0x03, 0x10]
    ensures Encode(Blk(0x3F_FFFF, 0, 0)) == [0x08, 0xFF, 0xFF, 0xFC, 0x00]
    ensures Encode(Blk(0x40_0000, 0, 0)) == [0x13, 0x00, 0x00, 0x00, 0x01, 0x00, 0x00, 0x00, 0x00]
  {
    hide Big;
    NumberBytes(0x2001);
    NumberBytes(0x410);
    NumberBytes(0x310);
    NumberBytes(0xFFFF_FC00);
    NumberBytes(0x1_0000_0000);
    NumberBytes(1);
  }

  lemma SharedBytes()
    ensures Encode(Shared(1)) == [0x04, 0x01] && Encode(Shared(0xFF)) == [0x04, 0xFF]
    ensures Encode(Shared(0x100)) == [0x05, 0x01, 0x00] && Encode(Shared(0xFFFF)) == [0x05, 0xFF, 0xFF]
    ensures Encode(Shared(0x1_0000)) == [0x06, 0x00, 0x01, 0x00, 0x00]
  {
    hide Big;
    BigTwo(1);
    BigTwo(0xFF);
    BigTwo(0x100);
    BigTwo(0xFFFF);
    NumberBytes(0x1_0000);
  }

  lemma StrBytes(s: seq<Byte>)
    ensures |s| == 0 ==> Encode(Str(s)) == [0x20]
    ensures |s| == 31 ==> Encode(Str(s)) == [0x3F] + s
    ensures |s| == 32 ==> Encode(Str(s)) == [0x09, 0x20] + s
    ensures |s| == 255 ==> Encode(Str(s)) == [0x09, 0xFF] + s
    ensures |s| == 256 ==> Encode(Str(s)) == [0x0A, 0x00, 0x00, 0x01, 0x00] + s
  {
    hide Big;
    BigTwo(32);
    BigTwo(255);
    NumberBytes(256);
  }

  // The identifiers are "_i", "_j" and "_n"; a native integer says in a byte how long it is.
  lemma CustomBytes()
    ensures Encode(Custom(Int32, 7)) == [0x12, '_' as int, 'i' as int, 0x00, 0x00, 0x00, 0x00, 0x07]
    ensures Encode(Custom(Int64, 7)) ==
            [0x12, '_' as int, 'j' as int, 0x00, 0x00, 0x00, 0x00, 0x00, 0x00, 0x00, 0x00, 0x07]
  {
    hide Big;
    NumberBytes(7);
    NumberBytes(0);
  }

  lemma NativeBytes()
    ensures Encode(Custom(NativeInt, -0x8000_0000)) ==
            [0x12, '_' as int, 'n' as int, 0x00, 0x01, 0x80, 0x00, 0x00, 0x00]
    ensures Encode(Custom(NativeInt, 0x7FFF_FFFF)) ==
            [0x12, '_' as int, 'n' as int, 0x00, 0x01, 0x7F, 0xFF, 0xFF, 0xFF]
    ensures Encode(Custom(NativeInt, 0x8000_0000)) ==
            [0x12, '_' as int, 'n' as int, 0x00, 0x02, 0x00, 0x00, 0x00, 0x00, 0x80, 0x00, 0x00, 0x00]
  {
    hide Big;
    NativeWords();
  }

  lemma NativeWords()
    ensures Big(4, -0x8000_0000) == [0x80, 0, 0, 0] && Big(4, 0x7FFF_FFFF) == [0x7F, 0xFF, 0xFF, 0xFF]
    ensures Big(8, 0x8000_0000) == [0, 0, 0, 0, 0x80, 0, 0, 0]
  {
    hide Big;
    NumberBytes(-0x8000_0000);
    NumberBytes(0x7FFF_FFFF);
    UpperHalf();
  }

  lemma UpperHalf()
    ensures Big(8, 0x8000_0000) == [0, 0, 0, 0, 0x80, 0, 0, 0]
  {
    hide Big;
    NumberBytes(0x8000_0000);
    NumberBytes(0);
  }
}
