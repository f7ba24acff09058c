/**
 The texts that section 2.2 of RFC 4291 allows, and in which points
 measurement_proxy/tun2socks/misc/ipaddr6.h accepts more or less.
 */
module Ipv6Rfc {
  import opened Numeral
  import opened Ipv6Text
  import opened Ipv6Quad
  import Ipaddr6
  import Ipv6Print

  /** One to four hexadecimal digits. */
  predicate RfcGroup(g: string) {
    1 <= |g| <= 4 && IsNumeral(Hex, g)
  }

  /** A decimal number up to 255; the section says nothing about leading zeros. */
  predicate RfcOctet(o: string) {
    o != [] && IsNumeral(Decimal, o) && Value(Decimal, o) <= 255
  }

  /** Eight blocks, or fewer with a "::" that stands for at least one. */
  ghost predicate RfcForm(f: Form) {
    && (forall k :: 0 <= k < |f.groups| ==> RfcGroup(f.groups[k]))
    && (f.quad == [] || (|f.quad| == 4 && forall k :: 0 <= k < 4 ==> RfcOctet(f.quad[k])))
    && -1 <= f.gap <= |f.groups|
    && (if f.gap == -1 then BlockCount(f) == 8 else BlockCount(f) <= 7)
  }

  ghost predicate RfcText(name: string) {
    exists f :: RfcForm(f) && Text(f) == name
  }

  function Pow16(n: nat): int {
    if n == 0 then 1 else 16 * Pow16(n - 1)
  }

  lemma {:induction false} ValueBelow(g: string)
    requires IsNumeral(Hex, g)
    ensures Value(Hex, g) < Pow16(|g|)
  {
    if g != [] {
      ValueBelow(g[..|g| - 1]);
    }
  }

  lemma {:induction false} RfcGroupIsValid(g: string)
    requires RfcGroup(g)
    ensures ValidGroup(g)
  {
    ValueBelow(g);
    assert Pow16(1) == 16 && Pow16(2) == 256;
    assert Pow16(3) == 4096 && Pow16(4) == 65536;
  }

  predicate LeadingZero(o: string) {
    |o| > 1 && o[0] == '0'
  }

  /** No number of the IPv4 ending is written with a leading zero. */
  ghost predicate PlainQuad(f: Form) {
    forall k :: 0 <= k < |f.quad| ==> !LeadingZero(f.quad[k])
  }

  lemma {:induction false} RfcFormIsValid(f: Form)
    requires RfcForm(f) && PlainQuad(f)
    ensures Valid(f)
  {
    forall k | 0 <= k < |f.groups| ensures ValidGroup(f.groups[k]) {
      RfcGroupIsValid(f.groups[k]);
    }
    if f.quad != [] {
      forall k | 0 <= k < 4 ensures ValidOctet(f.quad[k]) {
        assert RfcOctet(f.quad[k]) && !LeadingZero(f.quad[k]);
      }
    }
  }

  // ---------------------------------------------------------------- the ending of a text

  /** The parts of a text are digits, and an IPv4 ending follows a ':'. */
  ghost predicate Spelled(f: Form) {
    && (forall k :: 0 <= k < |f.groups| ==> IsNumeral(Hex, f.groups[k]))
    && (f.quad == [] || (|f.quad| == 4 && forall k :: 0 <= k < 4 ==> IsNumeral(Decimal, f.quad[k])))
    && -1 <= f.gap <= |f.groups| && (f.quad != [] ==> f.groups != [] || f.gap == 0)
  }

  lemma {:induction false} RfcSpelled(f: Form)
    requires RfcForm(f)
    ensures Spelled(f)
  {
    if f.quad != [] {
      forall k | 0 <= k < 4 ensures IsNumeral(Decimal, f.quad[k]) {
        assert RfcOctet(f.quad[k]);
      }
    }
  }

  lemma {:induction false} ValidSpelled(f: Form)
    requires Valid(f)
    ensures Spelled(f)
  {
    if f.quad != [] {
      forall k | 0 <= k < 4 ensures IsNumeral(Decimal, f.quad[k]) {
        assert ValidOctet(f.quad[k]);
      }
    }
  }

  lemma {:induction false} NoDotInTail(f: Form, k: nat)
    requires Spelled(f) && f.quad == [] && k <= |f.groups|
    ensures '.' !in Tail(f, k)
    decreases |f.groups| - k
  {
    if k < |f.groups| {
      NoDotInTail(f, k + 1);
      assert IsNumeral(Hex, f.groups[k]) && Digit(Hex, '.') < 0;
      assert '.' !in f.groups[k] && '.' !in Separator(f.gap == k + 1);
    }
  }

  lemma {:induction false} NoColonInDotted(quad: seq<string>, k: nat)
    requires k < |quad| && forall i :: 0 <= i < |quad| ==> IsNumeral(Decimal, quad[i])
    ensures ':' !in DottedTail(quad, k)
    decreases |quad| - k
  {
    assert IsNumeral(Decimal, quad[k]) && Digit(Decimal, ':') < 0;
    assert ':' !in quad[k];
    if k + 1 < |quad| {
      NoColonInDotted(quad, k + 1);
    }
  }

  /** What precedes the first `c` and what follows it. */
  lemma {:induction false} SameSplit(c: char, a: string, s: string, b: string, t: string)
    requires c !in a && c !in b && a + [c] + s == b + [c] + t
    ensures a == b && s == t
  {
    var n, m := |a|, |b|;
    assert (a + [c] + s)[n] == c && (b + [c] + t)[m] == c;
    assert a == (a + [c] + s)[..n] && b == (b + [c] + t)[..m];
    assert s == (a + [c] + s)[n + 1..] && t == (b + [c] + t)[m + 1..];
  }

  /** What leads to the last `c` and what follows it. */
  lemma {:induction false} SameEnding(c: char, a: string, s: string, b: string, t: string)
    requires a != [] && a[|a| - 1] == c && b != [] && b[|b| - 1] == c
    requires c !in s && c !in t && a + s == b + t
    ensures s == t
  {
    var n, m := |a|, |b|;
    assert (a + s)[n - 1] == c && (b + t)[m - 1] == c;
    assert s == (a + s)[n..] && t == (b + t)[m..];
  }

  lemma {:induction false} SameDotted(quad: seq<string>, quad': seq<string>, k: nat)
    requires k < |quad| == |quad'| && DottedTail(quad, k) == DottedTail(quad', k)
    requires forall i :: 0 <= i < |quad| ==> IsNumeral(Decimal, quad[i]) && IsNumeral(Decimal, quad'[i])
    ensures forall i :: k <= i < |quad| ==> quad[i] == quad'[i]
    decreases |quad| - k
  {
    if k + 1 < |quad| {
      assert IsNumeral(Decimal, quad[k]) && IsNumeral(Decimal, quad'[k]) && Digit(Decimal, '.') < 0;
      SameSplit('.', quad[k], DottedTail(quad, k + 1), quad'[k], DottedTail(quad', k + 1));
      SameDotted(quad, quad', k + 1);
    }
  }

  lemma {:induction false} EndingText(f: Form) returns (lead: string)
    requires Spelled(f) && f.quad != []
    ensures Text(f) == lead + DottedTail(f.quad, 0) && lead != [] && lead[|lead| - 1] == ':'
    ensures ':' !in DottedTail(f.quad, 0) && '.' in Text(f)
  {
    lead := Lead(f.groups, f.gap);
    LeadTail(f, |f.groups|);
    assert f.groups[..|f.groups|] == f.groups;
    LeadEndsInColon(f.groups, f.gap);
    NoColonInDotted(f.quad, 0);
    assert DottedTail(f.quad, 0)[|f.quad[0]|] == '.';
    assert Text(f)[|lead| + |f.quad[0]|] == '.';
  }

  /** The IPv4 ending can be read off the text. */
  lemma {:induction false} SameQuad(f: Form, g: Form)
    requires Spelled(f) && Spelled(g) && Text(f) == Text(g)
    ensures f.quad == g.quad
  {
    if f.quad == [] {
      NoDotInTail(f, 0);
    }
    if g.quad == [] {
      NoDotInTail(g, 0);
    }
    if f.quad != [] {
      var a := EndingText(f);
      if g.quad != [] {
        var b := EndingText(g);
        SameEnding(':', a, DottedTail(f.quad, 0), b, DottedTail(g.quad, 0));
        SameDotted(f.quad, g.quad, 0);
      }
    } else if g.quad != [] {
      var b := EndingText(g);
    }
  }

  // ---------------------------------------------------------------- allowed and accepted

  /** A form that is allowed, and whose text is accepted, has no leading zeros in its IPv4 ending. */
  lemma {:induction false} AcceptedIsPlain(f: Form, g: Form)
    requires RfcForm(f) && Valid(g) && Text(f) == Text(g)
    ensures PlainQuad(f) && Valid(f)
  {
    RfcSpelled(f);
    ValidSpelled(g);
    SameQuad(f, g);
    forall k | 0 <= k < |f.quad| ensures !LeadingZero(f.quad[k]) {
      assert ValidOctet(g.quad[k]);
    }
    RfcFormIsValid(f);
  }

  /** A text that the RFC allows is accepted exactly if its IPv4 ending has no leading zeros, and then gives its address. */
  lemma {:induction false} RfcTextsParse(f: Form, ok: bool, bytes: seq<nat>)
    requires RfcForm(f) && Ipaddr6.Parsed(Text(f), ok, bytes)
    ensures ok <==> PlainQuad(f)
    ensures ok ==> Valid(f) && bytes == Bytes(Address(f))
  {
    if ok {
      var g :| Denotes(Text(f), g) && bytes == Bytes(Address(g));
      AcceptedIsPlain(f, g);
    } else if PlainQuad(f) {
      RfcFormIsValid(f);
    }
  }

  ghost predicate ShortGroups(f: Form) {
    forall k :: 0 <= k < |f.groups| ==> |f.groups[k]| <= 4
  }

  predicate GapStandsForBlock(f: Form) {
    f.gap >= 0 ==> BlockCount(f) <= 7
  }

  /** A text that the parser accepts is allowed exactly if no group has more than four digits and a "::" stands for a block. */
  lemma {:induction false} AcceptedIsRfcIff(name: string, f: Form)
    requires Denotes(name, f)
    ensures RfcText(name) <==> ShortGroups(f) && GapStandsForBlock(f)
  {
    forall g | RfcForm(g) && Text(g) == name ensures g == f {
      AcceptedIsPlain(g, f);
    }
    if ShortGroups(f) && GapStandsForBlock(f) {
      forall k | 0 <= k < |f.groups| ensures RfcGroup(f.groups[k]) {
        assert ValidGroup(f.groups[k]);
      }
      assert f.quad != [] ==> forall k :: 0 <= k < 4 ==> ValidOctet(f.quad[k]);
      assert RfcForm(f);
    }
  }

  lemma {:induction false} ReprsAreRfc(blocks: seq<nat>)
    requires Ipv6Print.AreBlocks(blocks)
    ensures forall k :: 0 <= k < |blocks| ==> RfcGroup(Ipv6Print.Reprs(blocks)[k])
  {
    forall k | 0 <= k < |blocks| ensures RfcGroup(Ipv6Print.Reprs(blocks)[k]) {
      ReprValue(Hex, blocks[k]);
      Ipv6Print.ReprLength(blocks[k]);
    }
  }

  /** What is printed is allowed. */
  lemma {:induction false} PrintedIsRfc(blocks: seq<nat>, start: nat, len: nat)
    requires |blocks| == 8 && Ipv6Print.AreBlocks(blocks) && start + len <= 8
    ensures RfcForm(Ipv6Print.PrintForm(blocks, start, len))
  {
    if len > 1 {
      ReprsAreRfc(blocks[..start] + blocks[start + len..]);
    } else {
      ReprsAreRfc(blocks);
    }
  }

  // ---------------------------------------------------------------- examples of the differences

  const LEADING_ZERO: Form := Form([], 0, ["01", "2", "3", "4"])

  lemma LeadingZeroText()
    ensures Text(LEADING_ZERO) == "::01.2.3.4"
  {
    var q := LEADING_ZERO.quad;
    assert DottedTail(q, 3) == "4";
    assert DottedTail(q, 2) == "3.4";
    assert DottedTail(q, 1) == "2.3.4";
    assert DottedTail(q, 0) == "01.2.3.4";
  }

  lemma OneDigit(c: char)
    requires Digit(Decimal, c) >= 0
    ensures RfcOctet([c]) && Value(Decimal, [c]) == Digit(Decimal, c)
  {
    ValueSnoc(Decimal, [], c);
    assert [] + [c] == [c];
  }

  lemma LeadingZeroForm()
    ensures RfcForm(LEADING_ZERO) && LeadingZero(LEADING_ZERO.quad[0])
  {
    var q := LEADING_ZERO.quad;
    OneDigit('0');
    ValueSnoc(Decimal, "0", '1');
    assert "0" + ['1'] == "01";
    OneDigit('2');
    OneDigit('3');
    OneDigit('4');
    assert RfcOctet(q[0]) && RfcOctet(q[1]) && RfcOctet(q[2]) && RfcOctet(q[3]);
  }

  /** A leading zero in an IPv4 ending is refused, although it is allowed. */
  lemma LeadingZeroRefused()
    ensures RfcText("::01.2.3.4") && NoForm("::01.2.3.4")
  {
    LeadingZeroForm();
    LeadingZeroText();
    forall g | Valid(g) && Text(g) == "::01.2.3.4" ensures false {
      AcceptedIsPlain(LEADING_ZERO, g);
    }
  }

  lemma {:induction false} DigitGroup(c: char)
    requires Digit(Hex, c) >= 0
    ensures ValidGroup([c])
  {
    ValueSnoc(Hex, [], c);
    assert [] + [c] == [c];
  }

  const GAPLESS: Form := Form(["1", "2", "3", "4", "5", "6", "7", "8"], 4, [])

  lemma GaplessText()
    ensures Text(GAPLESS) == "1:2:3:4::5:6:7:8"
  {
    var f := GAPLESS;
    assert Tail(f, 6) == "7:8";
    assert Tail(f, 4) == "5:6:7:8";
    assert Tail(f, 2) == "3:4::5:6:7:8";
  }

  /** A "::" between eight groups is accepted, although it stands for nothing. */
  lemma EmptyGapAccepted()
    ensures Denotes("1:2:3:4::5:6:7:8", GAPLESS) && !RfcText("1:2:3:4::5:6:7:8")
  {
    var f := GAPLESS;
    forall k | 0 <= k < 8 ensures ValidGroup(f.groups[k]) {
      DigitGroup(f.groups[k][0]);
      assert f.groups[k] == [f.groups[k][0]];
    }
    GaplessText();
    UniqueForm(f);
    AcceptedIsRfcIff("1:2:3:4::5:6:7:8", f);
  }

  const LONG_GROUP: Form := Form(["00001"], 1, [])

  /** A group of more than four digits is accepted as long as its value fits. */
  lemma LongGroupAccepted()
    ensures Denotes("00001::", LONG_GROUP) && !RfcText("00001::")
  {
    var f := LONG_GROUP;
    ZerosThenOne("0000");
    assert "0000" + ['1'] == "00001";
    assert Text(f) == "00001::";
    UniqueForm(f);
    AcceptedIsRfcIff("00001::", f);
  }

  lemma {:induction false} ZerosValue(z: string)
    requires forall k :: 0 <= k < |z| ==> z[k] == '0'
    ensures IsNumeral(Hex, z) && Value(Hex, z) == 0
  {
    if z != [] {
      ZerosValue(z[..|z| - 1]);
    }
  }

  /** Any number of zeros may stand before a digit. */
  lemma {:induction false} ZerosThenOne(z: string)
    requires forall k :: 0 <= k < |z| ==> z[k] == '0'
    ensures ValidGroup(z + ['1'])
  {
    ZerosValue(z);
    ValueSnoc(Hex, z, '1');
  }
}
