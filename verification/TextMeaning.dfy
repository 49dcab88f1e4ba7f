// What texts of 64-bit integers mean: the prefixes and underscores that are read, and the flags of a format.
module TextMeaning {
  import opened Arith
  import opened Int64
  import opened Int64Text

  // ---- Reading ----

  // x and X are for base 16, o and O for base 8, and b and B for base 2.  With such a prefix all the numbers of
  // 64 bits are accepted, and no others.
  lemma PrefixRead(sign: string, c: char, base: nat, v: nat, upper: bool)
    requires sign == "" || sign == "-"
    requires (c in "xX" && base == 16) || (c in "oO" && base == 8) || (c in "bB" && base == 2)
    ensures var s := sign + "0" + [c] + Digits(v, base, upper);
      (Accepted(s) <==> v < M) && Meaning(s) == if sign == "-" then 0 - v else v
  {
    hide Digits;
    hide Number;
    hide Numeral;
    NumberDigits(v, base, upper);
    var d := Digits(v, base, upper);
    var s := sign + "0" + [c] + d;
    var p := SignAndBase(s);
    assert p == Prefix(|sign| + 2, base, if sign == "-" then -1 else 1);
    assert s[p.len..] == d;
  }

  // Without a prefix a number is decimal, and has to be in the signed range.
  lemma DecimalRead(sign: string, v: nat)
    requires sign == "" || sign == "-"
    ensures var s := sign + Digits(v, 10, false);
      && (Accepted(s) <==> v <= if sign == "-" then M / 2 else M / 2 - 1)
      && Meaning(s) == if sign == "-" then 0 - v else v
  {
    hide Digits;
    hide Number;
    hide Numeral;
    NumberDigits(v, 10, false);
    var s := sign + Digits(v, 10, false);
    assert "" + Digits(v, 10, false) == Digits(v, 10, false);
    DecimalStart(s, v);
  }

  lemma {:induction false} ScoreNumber(u: string, j: nat, base: nat)
    requires j <= |u|
    ensures Number(u[..j] + "_" + u[j..], base) == Number(u, base)
    decreases |u|
  {
    var t := u[..j] + "_" + u[j..];
    if j == |u| {
      assert t[..|t| - 1] == u;
    } else {
      var n := |u| - 1;
      ScoreNumber(u[..n], j, base);
      assert t[..|t| - 1] == u[..n][..j] + "_" + u[..n][j..];
    }
  }

  lemma ScoreNumeral(u: string, j: nat, base: nat)
    requires 1 <= j <= |u|
    ensures Numeral(u[..j] + "_" + u[j..], base) <==> Numeral(u, base)
  {
    var t := u[..j] + "_" + u[j..];
    assert t[0] == u[0];
    assert forall i :: 1 <= i < j ==> t[i] == u[i];
    assert forall i :: j <= i < |u| ==> t[i + 1] == u[i];
    assert forall i :: j < i < |t| ==> t[i] == u[i - 1];
    if Numeral(t, base) {
      forall i | 1 <= i < |u| ensures u[i] == '_' || IsDigit(u[i], base) {
        assert u[i] == if i < j then t[i] else t[i + 1];
      }
    }
  }

  // Underscores behind the first digit do not count; one before it is refused.
  lemma UnderscoreRead(s: string, i: nat)
    requires SignAndBase(s).len <= i <= |s|
    ensures var t := s[..i] + "_" + s[i..];
      if i > SignAndBase(s).len then (Accepted(t) <==> Accepted(s)) && Meaning(t) == Meaning(s)
      else !Accepted(t)
  {
    hide Number;
    hide Numeral;
    hide SignAndBase;
    var p := SignAndBase(s);
    var t := s[..i] + "_" + s[i..];
    if i > p.len {
      SamePrefix(s, i);
      var u := s[p.len..];
      assert t[p.len..] == u[..i - p.len] + "_" + u[i - p.len..];
      ScoreNumber(u, i - p.len, p.base);
      ScoreNumeral(u, i - p.len, p.base);
    } else {
      ScoreFirst(s);
    }
  }

  lemma SamePrefix(s: string, i: nat)
    requires SignAndBase(s).len < i <= |s|
    ensures SignAndBase(s[..i] + "_" + s[i..]) == SignAndBase(s)
  {
    var t := s[..i] + "_" + s[i..];
    assert forall k :: 0 <= k < i ==> t[k] == s[k];
    assert t[i] == '_';
  }

  lemma ScoreFirst(s: string)
    ensures var i := SignAndBase(s).len; !Accepted(s[..i] + "_" + s[i..])
  {
    var i := SignAndBase(s).len;
    var t := s[..i] + "_" + s[i..];
    assert forall k :: 0 <= k < i ==> t[k] == s[k];
    assert t[i] == '_';
    assert SignAndBase(t).len == i;
    assert t[i..][0] == '_';
  }

  // ---- Formats ----

  // The flags of a format, read one after the other.
  function Flagged(flags: string, z: Spec): Spec {
    if flags == "" then z else ReadChar(flags[|flags| - 1], Flagged(flags[..|flags| - 1], z))
  }

  lemma {:induction false} FlagsRead(flags: string, rest: string, z: Spec)
    requires forall i :: 0 <= i < |flags| ==> IsFlag(flags[i])
    ensures ReadFormat(flags + rest, z) == ReadFormat(rest, Flagged(flags, z))
    decreases |flags|
  {
    hide ReadChar;
    if flags == "" {
      assert flags + rest == rest;
    } else {
      var n := |flags| - 1;
      assert flags + rest == flags[..n] + ([flags[n]] + rest);
      FlagsRead(flags[..n], [flags[n]] + rest, z);
      ReadNext(flags[n], rest, Flagged(flags[..n], z));
    }
  }

  // The last of the flags + and a space.
  function LastSign(flags: string): string {
    if flags == "" then ""
    else
      var c := flags[|flags| - 1];
      if c == '+' || c == ' ' then [c] else LastSign(flags[..|flags| - 1])
  }

  lemma {:induction false} FlaggedIs(flags: string)
    requires forall i :: 0 <= i < |flags| ==> IsFlag(flags[i])
    ensures var s := LastSign(flags);
      Flagged(flags, PLAIN) ==
        Spec('-' in flags, if s == "" then '-' else s[0], '0' in flags, '#' in flags, 0, false, 0, false)
    ensures var s := LastSign(flags); s == "" || s == "+" || s == " "
    decreases |flags|
  {
    if flags != "" {
      var n := |flags| - 1;
      FlaggedIs(flags[..n]);
      assert flags == flags[..n] + [flags[n]];
    }
  }

  // What a format with any flags and no width prints: the sign of a signed number or the last of the flags + and a
  // space, the prefix of base 8 or 16 if # is a flag, and the digits.
  lemma FormatMeaning(flags: string, c: char, x: I64)
    requires (forall i :: 0 <= i < |flags| ==> IsFlag(flags[i])) && IsConversion(c)
    ensures var signed := c == 'd' || c == 'i';
      Formatted("%" + flags + [c], x) ==
        (if !signed then "" else if Signed(x) < 0 then "-" else LastSign(flags))
        + (if '#' !in flags then "" else if c == 'o' then "0" else if c in "xX" then "0x" else "")
        + Digits(if signed then Abs(Signed(x)) else Val(x),
                 if c == 'o' then 8 else if c in "xX" then 16 else 10, c == 'X')
  {
    hide Digits;
    hide Text;
    hide Formatted;
    hide LastSign;
    hide Flagged;
    hide ReadChar;
    FlaggedIs(flags);
    FormatSpec(flags, c, x);
    var z := Flagged(flags, PLAIN);
    Conversion(c, z);
    NoFill(ReadChar(c, z), x);
    Unsigned(x);
  }

  lemma Conversion(c: char, z: Spec)
    requires IsConversion(c) && !z.signed && !z.upper
    ensures ReadChar(c, z) ==
      z.(signed := c == 'd' || c == 'i', base := if c == 'o' then 8 else if c in "xX" then 16 else 10,
         upper := c == 'X')
  {
  }

  lemma ReadEnds()
    ensures ReadChar('%', PLAIN) == PLAIN && forall z :: ReadFormat("", z) == z
  {
  }

  lemma FormatSpec(flags: string, c: char, x: I64)
    requires (forall i :: 0 <= i < |flags| ==> IsFlag(flags[i])) && IsConversion(c)
    ensures var z := ReadChar(c, Flagged(flags, PLAIN));
      2 <= z.base <= 16 ==> Formatted("%" + flags + [c], x) == Text(z, x)
  {
    hide Text;
    hide Flagged;
    hide ReadFormat;
    hide ReadChar;
    ReadEnds();
    var f := "%" + flags + [c];
    assert f == ['%'] + (flags + [c]);
    ReadNext('%', flags + [c], PLAIN);
    FlagsRead(flags, [c], PLAIN);
    ReadNext(c, "", Flagged(flags, PLAIN));
    assert [c] + "" == [c];
  }

  lemma Unsigned(x: I64)
    ensures Signed(x) >= 0 ==> Signed(x) == Val(x) == Abs(Signed(x))
  {
  }

  // Without a width nothing is filled up.
  lemma NoFill(z: Spec, x: I64)
    requires 2 <= z.base <= 16 && z.width == 0
    ensures var neg := z.signed && Signed(x) < 0;
      Text(z, x) == SignOf(z, neg) + PrefixOf(z) + Digits(if neg then Abs(Signed(x)) else Val(x), z.base, z.upper)
  {
    hide Digits;
    hide SignOf;
    hide PrefixOf;
    assert forall n: int, c :: n <= 0 ==> Spaces(n, c) == "";
  }

  lemma {:induction false} SpacesAre(n: int, c: char)
    ensures |Spaces(n, c)| == (if n <= 0 then 0 else n) && forall i :: 0 <= i < |Spaces(n, c)| ==> Spaces(n, c)[i] == c
  {
    if n > 0 { SpacesAre(n - 1, c); }
  }

  // With a width, a text that is shorter is filled up to the width: at its end if the format says so, or else
  // with spaces before it or with zeros behind its sign and its prefix.
  lemma TextFilled(z: Spec, x: I64)
    requires 2 <= z.base <= 16
    ensures var body, all := Text(z.(width := 0), x), Text(z, x);
      && |all| == (if z.width > |body| then z.width else |body|)
      && var n := |all| - |body|;
         if z.left then all[..|body|] == body && forall i :: |body| <= i < |all| ==> all[i] == ' '
         else if !z.zeros then all[n..] == body && forall i :: 0 <= i < n ==> all[i] == ' '
         else
           var k := |SignOf(z, z.signed && Signed(x) < 0) + PrefixOf(z)|;
           k + n <= |all| && all[..k] + all[k + n..] == body && forall i :: k <= i < k + n ==> all[i] == '0'
  {
    hide Digits;
    hide SignOf;
    hide PrefixOf;
    hide Spaces;
    hide Text;
    NoFill(z.(width := 0), x);
    var neg := z.signed && Signed(x) < 0;
    var raw := Digits(if neg then Abs(Signed(x)) else Val(x), z.base, z.upper);
    SameSigns(z, neg);
    TextParts(z, x);
    var sign := SignOf(z, neg) + PrefixOf(z);
    var fill := z.width - |raw| - |sign|;
    SpacesAre(fill, ' ');
    SpacesAre(fill, '0');
    if z.left {
      Behind(sign + raw, Spaces(fill, ' '));
    } else if !z.zeros {
      Behind(Spaces(fill, ' '), sign + raw);
    } else {
      Inside(sign, Spaces(fill, '0'), raw);
    }
  }

  lemma TextParts(z: Spec, x: I64)
    requires 2 <= z.base <= 16
    ensures var neg := z.signed && Signed(x) < 0;
      var raw := Digits(if neg then Abs(Signed(x)) else Val(x), z.base, z.upper);
      var sign := SignOf(z, neg) + PrefixOf(z);
      var fill := z.width - |raw| - |sign|;
      Text(z, x) ==
        if z.left then (sign + raw) + Spaces(fill, ' ')
        else if !z.zeros then Spaces(fill, ' ') + (sign + raw)
        else sign + Spaces(fill, '0') + raw
  {
    hide Digits;
    hide SignOf;
    hide PrefixOf;
    hide Spaces;
  }

  lemma Behind(s: string, t: string)
    ensures (s + t)[..|s|] == s && (s + t)[|s|..] == t
    ensures forall i :: |s| <= i < |s + t| ==> (s + t)[i] == t[i - |s|]
  {
  }

  lemma Inside(s: string, t: string, u: string)
    ensures (s + t + u)[..|s|] == s && (s + t + u)[|s| + |t|..] == u
    ensures forall i :: |s| <= i < |s| + |t| ==> (s + t + u)[i] == t[i - |s|]
  {
  }

  lemma SameSigns(z: Spec, neg: bool)
    ensures SignOf(z.(width := 0), neg) == SignOf(z, neg) && PrefixOf(z.(width := 0)) == PrefixOf(z)
  {
  }

  // The width is the number that its digits spell.
  lemma {:induction false} AtoiDigits(v: nat)
    ensures Atoi(Digits(v, 10, false)) == v
    ensures v < 0x8000_0000 ==> Width(Digits(v, 10, false)) == v
    decreases v
  {
    hide Atoi;
    hide Digits;
    var q, d := DivMod(v, 10);
    OneDigit(v, 10, false, q, d);
    DecimalDigit(d);
    if q == 0 {
      AtoiSnoc("", Digit(d, false));
      assert "" + [Digit(d, false)] == [Digit(d, false)];
    } else {
      AtoiDigits(q);
      AtoiSnoc(Digits(q, 10, false), Digit(d, false));
    }
  }

  lemma DecimalDigit(d: nat)
    requires d < 10
    ensures Digit(d, false) == '0' + d as char
  {
    assert d == 0 || d == 1 || d == 2 || d == 3 || d == 4 || d == 5 || d == 6 || d == 7 || d == 8 || d == 9;
  }

  lemma AtoiSnoc(s: string, c: char)
    requires '0' <= c <= '9'
    ensures Atoi("") == 0 && Atoi(s + [c]) == Atoi(s) * 10 + (c - '0') as int
  {
    assert (s + [c])[..|s|] == s;
  }

  // ---- %#o is not read back ----

  lemma {:induction false} OctalAsDecimal(v: nat)
    ensures var s := Digits(v, 8, false);
      Numeral(s, 10) && (if v < 8 then Number(s, 10) == v else Number(s, 10) > v)
    decreases v
  {
    var q, d := DivMod(v, 8);
    OneDigit(v, 8, false, q, d);
    DigitIs(d, false);
    if q == 0 {
      OneCharNumber(Digit(d, false), 10);
      assert q * 8 == 0;
    } else {
      OctalAsDecimal(q);
      NumberSnoc(Digits(q, 8, false), Digit(d, false), 10);
    }
  }

  // The prefix of base 8 that is printed is not one that is read: only numbers of one digit come back.
  lemma OctalBack(x: I64)
    ensures var s := Formatted("%#o", x);
      Accepted(s) && Mod64(Meaning(s)) == Val(x) <==> Val(x) < 8
  {
    hide Digits;
    hide Number;
    hide Numeral;
    hide Formatted;
    var d := Digits(Val(x), 8, false);
    OctalAsDecimal(Val(x));
    NumberDigits(Val(x), 8, false);
    assert "%" + "#" + ['o'] == "%#o";
    FormatMeaning("#", 'o', x);
    assert Formatted("%#o", x) == "0" + d;
    LeadingZero(d);
    var p := SignAndBase("0" + d);
    assert IsDigit(d[0], 8);
    assert p == Prefix(0, 10, 1);
    assert ("0" + d)[0..] == "0" + d;
  }

  lemma {:induction false} ZeroNumber(s: string, base: nat)
    ensures Number("0" + s, base) == Number(s, base)
    decreases |s|
  {
    if s == "" {
      assert "0" + "" == "0" && "0"[..0] == "" && Number("", base) == 0;
    } else {
      ZeroNumber(s[..|s| - 1], base);
      assert ("0" + s)[..|s|] == "0" + s[..|s| - 1];
    }
  }

  lemma LeadingZero(s: string)
    requires Numeral(s, 10)
    ensures Numeral("0" + s, 10) && Number("0" + s, 10) == Number(s, 10)
  {
    ZeroNumber(s, 10);
    var t := "0" + s;
    assert IsDigit(t[0], 10);
    assert forall i :: 1 <= i < |t| ==> t[i] == s[i - 1];
  }
}
