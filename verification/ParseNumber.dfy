/**
 The decimal parser and generator of measurement_proxy/tun2socks/misc/parse_number.h, with the
 64-bit arithmetic of uintmax_t.
 */
module ParseNumber {
  import opened Numeral

  const UINTMAX_MAX: int := 0xFFFF_FFFF_FFFF_FFFF
  const UINTMAX_MAX_STR: string := "18446744073709551615"

  ghost predicate Reads(s: string, n: nat, a: nat, b: nat, c: nat, d: nat) {
    && n + 4 <= |s| && Digit(Decimal, s[n]) == a && Digit(Decimal, s[n + 1]) == b
    && Digit(Decimal, s[n + 2]) == c && Digit(Decimal, s[n + 3]) == d
  }

  /** Four more digits of a numeral. */
  lemma {:induction false} FourDigits(s: string, n: nat, a: nat, b: nat, c: nat, d: nat)
    requires Reads(s, n, a, b, c, d) && IsNumeral(Decimal, s[..n])
    ensures IsNumeral(Decimal, s[..n + 4])
    ensures Value(Decimal, s[..n + 4]) == 10000 * Value(Decimal, s[..n]) + 1000 * a + 100 * b + 10 * c + d
  {
    assert s[..n + 1] == s[..n] + [s[n]];
    ValueSnoc(Decimal, s[..n], s[n]);
    assert s[..n + 2] == s[..n + 1] + [s[n + 1]];
    ValueSnoc(Decimal, s[..n + 1], s[n + 1]);
    assert s[..n + 3] == s[..n + 2] + [s[n + 2]];
    ValueSnoc(Decimal, s[..n + 2], s[n + 2]);
    assert s[..n + 4] == s[..n + 3] + [s[n + 3]];
    ValueSnoc(Decimal, s[..n + 3], s[n + 3]);
  }

  lemma {:induction false} TwentyDigits(s: string)
    requires |s| == 20 && Reads(s, 0, 1, 8, 4, 4) && Reads(s, 4, 6, 7, 4, 4) && Reads(s, 8, 0, 7, 3, 7)
    requires Reads(s, 12, 0, 9, 5, 5) && Reads(s, 16, 1, 6, 1, 5)
    ensures IsNumeral(Decimal, s) && Value(Decimal, s) == UINTMAX_MAX
  {
    FourDigits(s, 0, 1, 8, 4, 4);
    FourDigits(s, 4, 6, 7, 4, 4);
    FourDigits(s, 8, 0, 7, 3, 7);
    FourDigits(s, 12, 0, 9, 5, 5);
    FourDigits(s, 16, 1, 6, 1, 5);
    assert s[..20] == s;
  }

  lemma MaxValue()
    ensures IsNumeral(Decimal, UINTMAX_MAX_STR) && Value(Decimal, UINTMAX_MAX_STR) == UINTMAX_MAX
  {
    TwentyDigits(UINTMAX_MAX_STR);
  }

  /** memcmp on strings of the same length: the sign of the first difference. */
  function Memcmp(s: string, t: string): int
    requires |s| == |t|
  {
    if s == [] then 0
    else if s[0] != t[0] then s[0] as int - t[0] as int
    else Memcmp(s[1..], t[1..])
  }

  lemma {:induction false} MemcmpSnoc(s: string, t: string, c: char, d: char)
    requires |s| == |t|
    ensures Memcmp(s + [c], t + [d]) == if Memcmp(s, t) != 0 then Memcmp(s, t) else c as int - d as int
  {
    if s != [] {
      assert (s + [c])[1..] == s[1..] + [c] && (t + [d])[1..] == t[1..] + [d];
      MemcmpSnoc(s[1..], t[1..], c, d);
    }
  }

  /** Numerals of the same length compare as their values do. */
  lemma {:induction false} MemcmpIsComparison(s: string, t: string)
    requires |s| == |t| && IsNumeral(Decimal, s) && IsNumeral(Decimal, t)
    ensures Memcmp(s, t) > 0 <==> Value(Decimal, s) > Value(Decimal, t)
    ensures Memcmp(s, t) == 0 <==> Value(Decimal, s) == Value(Decimal, t)
  {
    if s != [] {
      var n := |s| - 1;
      assert s == s[..n] + [s[n]] && t == t[..n] + [t[n]];
      MemcmpIsComparison(s[..n], t[..n]);
      MemcmpSnoc(s[..n], t[..n], s[n], t[n]);
    }
  }

  function Pow10(k: nat): (p: int)
    ensures p > 0
  {
    if k == 0 then 1 else 10 * Pow10(k - 1)
  }

  lemma Pow10Bounds()
    ensures Pow10(19) < UINTMAX_MAX < Pow10(20)
  {
    assert Pow10(5) == 100000;
    assert Pow10(10) == 10000000000;
    assert Pow10(15) == 1000000000000000;
    assert Pow10(19) == 10000000000000000000;
  }

  lemma {:induction false} Pow10Monotone(k: nat, l: nat)
    requires k <= l
    ensures Pow10(k) <= Pow10(l)
  {
    if k < l {
      Pow10Monotone(k, l - 1);
    }
  }

  lemma {:induction false} ValueRange(s: string)
    requires IsNumeral(Decimal, s)
    ensures Value(Decimal, s) < Pow10(|s|)
    ensures s != [] && s[0] != '0' ==> Pow10(|s| - 1) <= Value(Decimal, s)
  {
    if s != [] {
      ValueRange(s[..|s| - 1]);
    }
  }

  /** Length and lexicographic order decide whether a numeral without leading zeros fits in 64 bits. */
  lemma {:induction false} OverflowByComparison(s: string)
    requires IsNumeral(Decimal, s) && (s == [] || s[0] != '0')
    ensures Value(Decimal, s) > UINTMAX_MAX <==>
              |s| > |UINTMAX_MAX_STR| || (|s| == |UINTMAX_MAX_STR| && Memcmp(s, UINTMAX_MAX_STR) > 0)
  {
    ValueRange(s);
    Pow10Bounds();
    if |s| > 20 {
      Pow10Monotone(20, |s| - 1);
    } else if |s| < 20 {
      Pow10Monotone(|s|, 19);
    } else {
      MaxValue();
      MemcmpIsComparison(s, UINTMAX_MAX_STR);
    }
  }

  /** parse__no_overflow: the value modulo 2^64 of a string of digits. */
  method ParseNoOverflow(str: string) returns (ok: bool, out: int)
    ensures ok <==> IsNumeral(Decimal, str)
    ensures ok ==> out == Value(Decimal, str) % (UINTMAX_MAX + 1)
  {
    ok, out := true, 0;
    var i := 0;
    while i < |str|
      invariant 0 <= i <= |str| && ok && IsNumeral(Decimal, str[..i])
      invariant out == Value(Decimal, str[..i]) % (UINTMAX_MAX + 1)
    {
      if str[i] < '0' || str[i] > '9' {
        ok := false;
        return;
      }
      ValueSnoc(Decimal, str[..i], str[i]);
      assert str[..i + 1] == str[..i] + [str[i]];
      WrapStep(Value(Decimal, str[..i]), Digit(Decimal, str[i]));
      out := (10 * out + (str[i] as int - '0' as int)) % (UINTMAX_MAX + 1);
      i := i + 1;
    }
    assert str[..i] == str;
  }

  lemma WrapStep(n: nat, d: nat)
    ensures (10 * (n % (UINTMAX_MAX + 1)) + d) % (UINTMAX_MAX + 1) == (10 * n + d) % (UINTMAX_MAX + 1)
  {
    var m := UINTMAX_MAX + 1;
    assert 10 * n + d == 10 * (n % m) + d + 10 * (n / m) * m;
  }

  lemma {:induction false} LeadingZero(s: string)
    requires s != [] && s[0] == '0'
    ensures IsNumeral(Decimal, s) <==> IsNumeral(Decimal, s[1..])
    ensures IsNumeral(Decimal, s) ==> Value(Decimal, s[1..]) == Value(Decimal, s)
  {
    assert s == [s[0]] + s[1..];
    if IsNumeral(Decimal, s[1..]) && |s| > 1 {
      var front := s[..|s| - 1];
      LeadingZero(front);
      assert front[1..] == s[1..][..|s| - 2];
    }
  }

  /** parse_unsigned_integer succeeds exactly on the non-empty digit strings that fit in 64 bits. */
  method ParseUnsignedInteger(str: string) returns (ok: bool, out: int)
    ensures ok <==> str != [] && IsNumeral(Decimal, str) && Value(Decimal, str) <= UINTMAX_MAX
    ensures ok ==> out == Value(Decimal, str)
  {
    if str == [] {
      ok, out := false, 0;
      return;
    }
    var s := str;
    while |s| > 0 && s[0] == '0'
      invariant IsNumeral(Decimal, s) <==> IsNumeral(Decimal, str)
      invariant IsNumeral(Decimal, str) ==> Value(Decimal, s) == Value(Decimal, str)
      decreases |s|
    {
      LeadingZero(s);
      s := s[1..];
    }
    if IsNumeral(Decimal, s) {
      OverflowByComparison(s);
    }
    if |s| > |UINTMAX_MAX_STR| || (|s| == |UINTMAX_MAX_STR| && Memcmp(s, UINTMAX_MAX_STR) > 0) {
      ok, out := false, 0;
      return;
    }
    ok, out := ParseNoOverflow(s);
  }

  // ---------------------------------------------------------------- generation

  lemma {:induction false} ReprLength(x: nat)
    ensures |Repr(Decimal, x)| == 1 + if x < 10 then 0 else |Repr(Decimal, x / 10)|
  {}

  /** compute_decimal_repr_size */
  method ComputeDecimalReprSize(x0: nat) returns (size: nat)
    ensures size == |Repr(Decimal, x0)|
  {
    size := 1;
    var x := x0 / 10;
    while x > 0
      invariant size + (if x > 0 then |Repr(Decimal, x)| else 0) == |Repr(Decimal, x0)|
    {
      size := size + 1;
      x := x / 10;
    }
  }

  /** generate_decimal_repr: the digits are written from the last to the first. */
  method GenerateDecimalRepr(x0: nat, out: array<char>, reprSize: nat)
    requires reprSize == |Repr(Decimal, x0)| <= out.Length
    modifies out
    ensures out[..reprSize] == Repr(Decimal, x0) && out[reprSize..] == old(out[reprSize..])
  {
    var pos, x := reprSize - 1, x0 / 10;
    out[pos] := '0' + (x0 % 10) as char;
    while x > 0
      invariant 0 <= pos < reprSize && out[reprSize..] == old(out[reprSize..])
      invariant pos == if x > 0 then |Repr(Decimal, x)| else 0
      invariant (if x > 0 then Repr(Decimal, x) else []) + out[pos..reprSize] == Repr(Decimal, x0)
    {
      pos := pos - 1;
      out[pos] := '0' + (x % 10) as char;
      x := x / 10;
    }
  }

  /** What is generated parses back to the same number. */
  method RoundTrip(x: nat) returns (ok: bool, y: int)
    requires x <= UINTMAX_MAX
    ensures ok && y == x
  {
    var size := ComputeDecimalReprSize(x);
    var out := new char[size];
    GenerateDecimalRepr(x, out, size);
    assert out[..] == out[..size];
    ReprValue(Decimal, x);
    ok, y := ParseUnsignedInteger(out[..]);
  }
}
