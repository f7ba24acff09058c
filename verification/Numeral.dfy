/** Numerals in base ten and sixteen: their values, and the digits of a number. */
module Numeral {

  datatype Radix = Decimal | Hex

  function Times(r: Radix, n: int): int {
    if r.Decimal? then 10 * n else 16 * n
  }

  /** The value of a digit, or -1. Both cases of the letters are hexadecimal digits. */
  function Digit(r: Radix, c: char): (d: int)
    ensures -1 <= d < Times(r, 1)
  {
    if '0' <= c <= '9' then c as int - '0' as int
    else if r.Hex? && 'a' <= c <= 'f' then c as int - 'a' as int + 10
    else if r.Hex? && 'A' <= c <= 'F' then c as int - 'A' as int + 10
    else -1
  }

  /** The lower-case digit with the given value. */
  function DigitChar(r: Radix, d: int): (c: char)
    requires 0 <= d < Times(r, 1)
    ensures Digit(r, c) == d && c !in {':', '.', '/'}
  {
    if d < 10 then '0' + d as char else 'a' + (d - 10) as char
  }

  const LOWER := "0123456789abcdef"
  const UPPER := "0123456789ABCDEF"

  /** The digits are those of these two lists, each with its place as value. */
  lemma DigitTable(d: nat)
    requires d < 16
    ensures Digit(Hex, LOWER[d]) == d && Digit(Hex, UPPER[d]) == d && DigitChar(Hex, d) == LOWER[d]
    ensures d < 10 ==> Digit(Decimal, LOWER[d]) == d && DigitChar(Decimal, d) == LOWER[d]
  {
    assert d in [0, 1, 2, 3, 4, 5, 6, 7, 8, 9, 10, 11, 12, 13, 14, 15];
  }

  lemma NoOtherDigits(c: char)
    ensures c !in LOWER && c !in UPPER ==> Digit(Hex, c) == -1
    ensures c !in LOWER[..10] ==> Digit(Decimal, c) == -1
  {
    if Digit(Hex, c) >= 0 {
      DigitTable(Digit(Hex, c));
      var d := Digit(Hex, c);
      assert c == LOWER[d] || c == UPPER[d];
    }
    if Digit(Decimal, c) >= 0 {
      DigitTable(Digit(Decimal, c));
      assert c == LOWER[..10][Digit(Decimal, c)];
    }
  }

  predicate IsNumeral(r: Radix, s: string) {
    forall k :: 0 <= k < |s| ==> Digit(r, s[k]) >= 0
  }

  /** The number written by a string of digits; the empty string is zero. */
  function Value(r: Radix, s: string): nat
    requires IsNumeral(r, s)
  {
    if s == [] then 0 else Times(r, Value(r, s[..|s| - 1])) + Digit(r, s[|s| - 1])
  }

  lemma {:induction false} ValueSnoc(r: Radix, s: string, c: char)
    requires IsNumeral(r, s) && Digit(r, c) >= 0
    ensures IsNumeral(r, s + [c]) && Value(r, s + [c]) == Times(r, Value(r, s)) + Digit(r, c)
  {
    assert (s + [c])[..|s|] == s;
  }

  /** A number with `n` zeros behind it, in base ten or sixteen. */
  function ShiftLeft(r: Radix, v: nat, n: nat): nat {
    if n == 0 then v else if r.Decimal? then 10 * ShiftLeft(r, v, n - 1) else 16 * ShiftLeft(r, v, n - 1)
  }

  /** Numerals are positional, in base ten or sixteen. */
  lemma {:induction false} ValueOfConcat(r: Radix, s: string, t: string)
    requires IsNumeral(r, s) && IsNumeral(r, t)
    ensures IsNumeral(r, s + t) && Value(r, s + t) == ShiftLeft(r, Value(r, s), |t|) + Value(r, t)
  {
    if t == [] {
      assert s + t == s;
    } else {
      var u, c := t[..|t| - 1], t[|t| - 1];
      ValueOfConcat(r, s, u);
      ValueSnoc(r, s + u, c);
      assert s + t == s + u + [c];
    }
  }

  // ---------------------------------------------------------------- canonical numerals

  function Quotient(r: Radix, n: nat): (q: nat)
    ensures Times(r, q) <= n < Times(r, q) + Times(r, 1)
  {
    if r.Decimal? then n / 10 else n / 16
  }

  /** The digits of a number without leading zeros; zero is one digit. */
  function Repr(r: Radix, n: nat): string
    decreases n
  {
    if n < Times(r, 1) then [DigitChar(r, n)]
    else Repr(r, Quotient(r, n)) + [DigitChar(r, n - Times(r, Quotient(r, n)))]
  }

  lemma {:induction false} ReprValue(r: Radix, n: nat)
    ensures IsNumeral(r, Repr(r, n)) && Value(r, Repr(r, n)) == n && Repr(r, n) != []
    ensures ':' !in Repr(r, n) && '.' !in Repr(r, n) && '/' !in Repr(r, n)
    ensures Repr(r, n)[0] == '0' ==> n == 0
    decreases n
  {
    if n < Times(r, 1) {
      assert Repr(r, n) == [] + [DigitChar(r, n)];
      ValueSnoc(r, [], DigitChar(r, n));
    } else {
      var q := Quotient(r, n);
      ReprValue(r, q);
      ValueSnoc(r, Repr(r, q), DigitChar(r, n - Times(r, q)));
    }
  }

  /** A numeral without leading zeros is the canonical one of its value. */
  lemma {:induction false} ReprUnique(s: string)
    requires s != [] && IsNumeral(Decimal, s) && (|s| == 1 || s[0] != '0')
    ensures s == Repr(Decimal, Value(Decimal, s))
  {
    var front, d := s[..|s| - 1], Digit(Decimal, s[|s| - 1]);
    assert s == front + [s[|s| - 1]];
    if front != [] {
      ReprUnique(front);
      LeadingDigit(front);
      assert Quotient(Decimal, Value(Decimal, s)) == Value(Decimal, front);
    }
  }

  lemma {:induction false} LeadingDigit(s: string)
    requires s != [] && IsNumeral(Decimal, s) && s[0] != '0'
    ensures Value(Decimal, s) > 0
  {
    if |s| > 1 {
      LeadingDigit(s[..|s| - 1]);
    }
  }
}
