/**
 The text form of IPv6 addresses (section 2.2 of RFC 4291), as
 measurement_proxy/tun2socks/misc/ipaddr6.h reads it.
 */
module Ipv6Text {
  import opened Numeral

  /**
   A text split into its parts: hexadecimal groups, the number of groups before "::" or -1, and
   the four decimal numbers of an IPv4 ending, if there is one.
   */
  datatype Form = Form(groups: seq<string>, gap: int, quad: seq<string>)

  predicate ValidGroup(g: string) {
    g != [] && IsNumeral(Hex, g) && Value(Hex, g) <= 0xFFFF
  }

  /** No leading zeros, at most 255. */
  predicate ValidOctet(o: string) {
    o != [] && IsNumeral(Decimal, o) && Value(Decimal, o) <= 255 && (|o| == 1 || o[0] != '0')
  }

  function BlockCount(f: Form): nat {
    |f.groups| + if f.quad == [] then 0 else 2
  }

  ghost predicate Valid(f: Form) {
    && (forall k :: 0 <= k < |f.groups| ==> ValidGroup(f.groups[k]))
    && (f.quad == [] || (|f.quad| == 4 && forall k :: 0 <= k < 4 ==> ValidOctet(f.quad[k])))
    && -1 <= f.gap <= |f.groups|
    && (if f.gap == -1 then BlockCount(f) == 8 else BlockCount(f) <= 8)
    && (f.quad == [] && f.gap == |f.groups| ==> |f.groups| <= 7)
  }

  // ---------------------------------------------------------------- the text of a form

  function Separator(double: bool): string {
    if double then "::" else ":"
  }

  /** The numbers of an IPv4 ending from `k` on. */
  function DottedTail(quad: seq<string>, k: nat): string
    requires k < |quad|
    decreases |quad| - k
  {
    if k + 1 == |quad| then quad[k] else quad[k] + "." + DottedTail(quad, k + 1)
  }

  /** There is something to write after the first `k` groups and what separates them. */
  predicate HasTail(f: Form, k: int) {
    k < |f.groups| || f.quad != [] || f.gap == k
  }

  /** The text from group `k` on. */
  function Tail(f: Form, k: nat): string
    requires k <= |f.groups|
    decreases |f.groups| - k
  {
    if k == |f.groups| then
      if f.quad == [] then "" else DottedTail(f.quad, 0)
    else if HasTail(f, k + 1) then
      f.groups[k] + Separator(f.gap == k + 1) + Tail(f, k + 1)
    else
      f.groups[k]
  }

  function Text(f: Form): string {
    (if f.gap == 0 then "::" else "") + Tail(f, 0)
  }

  /** The text before group `k`, from what is known when it is reached. */
  function Lead(groups: seq<string>, gap: int): string {
    if groups == [] then
      if gap == 0 then "::" else ""
    else
      Lead(groups[..|groups| - 1], gap) + groups[|groups| - 1] + Separator(gap == |groups|)
  }

  function Seen(gap: int, k: int): int {
    if gap <= k then gap else -1
  }

  lemma {:induction false} LeadIgnoresLater(groups: seq<string>, gap: int)
    requires gap > |groups|
    ensures Lead(groups, gap) == Lead(groups, -1)
  {
    if groups != [] {
      LeadIgnoresLater(groups[..|groups| - 1], gap);
    }
  }

  /** The text is what leads to group `k` and what follows. */
  lemma {:induction false} LeadTail(f: Form, k: nat)
    requires k <= |f.groups| && HasTail(f, k) && f.gap >= -1
    ensures Text(f) == Lead(f.groups[..k], f.gap) + Tail(f, k)
  {
    if k > 0 {
      LeadTail(f, k - 1);
      assert f.groups[..k][..k - 1] == f.groups[..k - 1];
      var a, g, sep, t := Lead(f.groups[..k - 1], f.gap), f.groups[k - 1], Separator(f.gap == k), Tail(f, k);
      assert a + (g + sep + t) == (a + g + sep) + t;
    } else {
      assert f.groups[..0] == [];
    }
  }

  lemma {:induction false} LeadEndsInColon(groups: seq<string>, gap: int)
    requires groups != [] || gap == 0
    ensures Lead(groups, gap) != [] && Lead(groups, gap)[|Lead(groups, gap)| - 1] == ':'
  {}

  // ---------------------------------------------------------------- the address of a form

  function GroupBlocks(groups: seq<string>): (r: seq<nat>)
    requires forall k :: 0 <= k < |groups| ==> ValidGroup(groups[k])
    ensures |r| == |groups|
  {
    if groups == [] then []
    else
      assert ValidGroup(groups[|groups| - 1]);
      GroupBlocks(groups[..|groups| - 1]) + [Value(Hex, groups[|groups| - 1])]
  }

  function QuadBlocks(quad: seq<string>): seq<nat>
    requires quad == [] || (|quad| == 4 && forall k :: 0 <= k < 4 ==> ValidOctet(quad[k]))
  {
    if quad == [] then []
    else [256 * Value(Decimal, quad[0]) + Value(Decimal, quad[1]), 256 * Value(Decimal, quad[2]) + Value(Decimal, quad[3])]
  }

  function Zeros(n: nat): seq<nat> {
    seq(n, _ => 0)
  }

  /** All eight blocks, with zero blocks in the gap. */
  function Expand(blocks: seq<nat>, gap: int): seq<nat>
    requires |blocks| <= 8 && gap <= |blocks|
  {
    if gap < 0 then blocks else blocks[..gap] + Zeros(8 - |blocks|) + blocks[gap..]
  }

  ghost function Address(f: Form): seq<nat>
    requires Valid(f)
  {
    Expand(GroupBlocks(f.groups) + QuadBlocks(f.quad), f.gap)
  }

  /** The sixteen bytes of eight blocks, most significant first. */
  function Bytes(blocks: seq<nat>): (b: seq<nat>)
    ensures |b| == 2 * |blocks|
  {
    if blocks == [] then []
    else Bytes(blocks[..|blocks| - 1]) + [blocks[|blocks| - 1] / 256, blocks[|blocks| - 1] % 256]
  }

  lemma {:induction false} BytesAppend(a: seq<nat>, b: seq<nat>)
    ensures Bytes(a + b) == Bytes(a) + Bytes(b)
  {
    if b == [] {
      assert a + b == a;
    } else {
      var n := |b| - 1;
      BytesAppend(a, b[..n]);
      assert (a + b)[..|a| + n] == a + b[..n];
    }
  }

  lemma {:induction false} BytesZeros(n: nat)
    ensures Bytes(Zeros(n)) == Zeros(2 * n)
  {
    if n > 0 {
      BytesZeros(n - 1);
      assert Zeros(n)[..n - 1] == Zeros(n - 1);
    }
  }

  // ---------------------------------------------------------------- reading a form from left to right

  /** What the parser knows: the finished groups, the gap it has seen, the digits of the open group. */
  datatype Scan = Scan(groups: seq<string>, gap: int, cur: string)

  /** What was read so far is the text of what is known. */
  ghost predicate Sound(name: string, i: int, s: Scan) {
    && 0 <= i <= |name| && name[..i] == Lead(s.groups, s.gap) + s.cur
    && (forall k :: 0 <= k < |s.groups| ==> ValidGroup(s.groups[k]))
    && IsNumeral(Hex, s.cur) && Value(Hex, s.cur) <= 0xFFFF && -1 <= s.gap <= |s.groups| <= 7
  }

  /** The form `f` continues what is known with the rest of the text. */
  ghost predicate Continues(f: Form, name: string, i: int, s: Scan) {
    && 0 <= i <= |name| && |s.groups| <= |f.groups| && HasTail(f, |s.groups|)
    && s.groups == f.groups[..|s.groups|] && s.gap == Seen(f.gap, |s.groups|)
    && s.cur + name[i..] == Tail(f, |s.groups|)
  }

  ghost predicate Agrees(f: Form, name: string, i: int, s: Scan) {
    if i == 0 then s == Scan([], -1, "") else Continues(f, name, i, s)
  }

  ghost predicate AgreesIfForm(f: Form, name: string, i: int, s: Scan) {
    Valid(f) && Text(f) == name ==> Agrees(f, name, i, s)
  }

  /** Every form of the text continues what is known. */
  ghost predicate Determined(name: string, i: int, s: Scan) {
    forall f :: AgreesIfForm(f, name, i, s)
  }

  ghost predicate NoForm(name: string) {
    forall f :: Valid(f) ==> Text(f) != name
  }

  // ---------------------------------------------------------------- tokens

  /** The digits with which the text goes on at group `k`. */
  function Token(f: Form, k: nat): string
    requires k <= |f.groups|
  {
    if k < |f.groups| then f.groups[k] else if f.quad != [] then f.quad[0] else ""
  }

  /** What follows the digits. */
  function AfterToken(f: Form, k: nat): string
    requires k <= |f.groups|
  {
    if k < |f.groups| then
      if HasTail(f, k + 1) then Separator(f.gap == k + 1) + Tail(f, k + 1) else ""
    else if |f.quad| > 1 then "." + DottedTail(f.quad, 1) else ""
  }

  lemma {:induction false} TokenTail(f: Form, k: nat)
    requires Valid(f) && k <= |f.groups|
    ensures Tail(f, k) == Token(f, k) + AfterToken(f, k)
    ensures IsNumeral(Hex, Token(f, k)) && Value(Hex, Token(f, k)) <= 0xFFFF
    ensures Token(f, k) == "" ==> k == |f.groups| && f.quad == []
    ensures AfterToken(f, k) == "" || AfterToken(f, k)[0] == if k < |f.groups| then ':' else '.'
  {
    if k < |f.groups| {
      if HasTail(f, k + 1) {
        var g, sep, t := f.groups[k], Separator(f.gap == k + 1), Tail(f, k + 1);
        assert g + sep + t == g + (sep + t);
      }
    } else if f.quad != [] {
      OctetInHex(f.quad[0]);
      var q, t := f.quad[0], DottedTail(f.quad, 1);
      assert q + "." + t == q + ("." + t);
    }
  }

  /** An octet is also a hexadecimal numeral that fits in a block. */
  lemma {:induction false} OctetInHex(o: string)
    requires ValidOctet(o)
    ensures IsNumeral(Hex, o) && Value(Hex, o) <= 0xFFFF
  {
    assert IsNumeral(Hex, o);
    HexBound(o);
  }

  lemma {:induction false} HexBound(o: string)
    requires IsNumeral(Decimal, o) && IsNumeral(Hex, o)
    ensures Value(Decimal, o) == 0 ==> Value(Hex, o) == 0
    ensures Value(Decimal, o) <= 9 ==> Value(Hex, o) <= 9
    ensures Value(Decimal, o) <= 99 ==> Value(Hex, o) <= 999
    ensures Value(Decimal, o) <= 999 ==> Value(Hex, o) <= 0xFFFF
  {
    if o != [] {
      HexBound(o[..|o| - 1]);
    }
  }

  lemma {:induction false} PrefixValue(r: Radix, s: string, n: nat)
    requires IsNumeral(r, s) && n <= |s|
    ensures IsNumeral(r, s[..n]) && Value(r, s[..n]) <= Value(r, s)
  {
    if n < |s| {
      PrefixValue(r, s[..|s| - 1], n);
      assert s[..|s| - 1][..n] == s[..n];
    } else {
      assert s[..n] == s;
    }
  }

  /** The digits `cur` are the start of a token; the rest of it and what follows is still ahead. */
  ghost predicate Within(r: Radix, cur: string, rest: string, token: string, after: string) {
    && |cur| <= |token| && cur == token[..|cur|] && rest == token[|cur|..] + after
    && IsNumeral(r, token) && (after == "" || after[0] == ':' || after[0] == '.')
  }

  /** Digits at the start of the rest belong to the token. */
  lemma {:induction false} WithinToken(r: Radix, cur: string, rest: string, token: string, after: string)
    requires cur + rest == token + after && IsNumeral(r, cur) && IsNumeral(r, token)
    requires after == "" || after[0] == ':' || after[0] == '.'
    ensures Within(r, cur, rest, token, after)
  {
    assert forall k :: 0 <= k < |cur| ==> (cur + rest)[k] == cur[k];
    assert after != "" ==> (token + after)[|token|] == after[0];
    assert |cur| <= |token|;
    forall k | 0 <= k < |cur| ensures cur[k] == token[k] {
      assert (cur + rest)[k] == (token + after)[k];
    }
    assert rest == (cur + rest)[|cur|..];
    assert token[|cur|..] + after == (token + after)[|cur|..];
  }

  /** One more digit. */
  lemma {:induction false} WithinDigit(r: Radix, cur: string, rest: string, token: string, after: string)
    requires Within(r, cur, rest, token, after) && rest != "" && rest[0] != ':' && rest[0] != '.'
    ensures |cur| < |token| && Digit(r, rest[0]) >= 0 && IsNumeral(r, cur + [rest[0]])
    ensures Value(r, cur + [rest[0]]) <= Value(r, token)
  {
    var n := |cur|;
    assert n < |token| && token[n] == rest[0];
    assert cur + [rest[0]] == token[..n + 1];
    PrefixValue(r, token, n + 1);
  }

  /** No more digit. */
  lemma {:induction false} WithinEnd(r: Radix, cur: string, rest: string, token: string, after: string)
    requires Within(r, cur, rest, token, after) && (rest == "" || rest[0] == ':' || rest[0] == '.')
    ensures cur == token && rest == after
  {
    assert forall k :: |cur| <= k < |token| ==> rest[k - |cur|] == token[k];
    assert token[|cur|..] == "";
  }

  /** Where in a form the parser is. */
  lemma {:induction false} InToken(f: Form, name: string, i: int, s: Scan)
    requires Valid(f) && Continues(f, name, i, s) && IsNumeral(Hex, s.cur)
    ensures Within(Hex, s.cur, name[i..], Token(f, |s.groups|), AfterToken(f, |s.groups|))
    ensures Value(Hex, Token(f, |s.groups|)) <= 0xFFFF
  {
    var k := |s.groups|;
    TokenTail(f, k);
    WithinToken(Hex, s.cur, name[i..], Token(f, k), AfterToken(f, k));
  }

  // ---------------------------------------------------------------- the steps of the parser

  /** Unless the text starts with "::", every form of it is ahead at the start. */
  lemma {:induction false} AtStart(f: Form)
    requires Valid(f) && f.gap != 0
    ensures Continues(f, Text(f), 0, Scan([], -1, ""))
  {
    assert Text(f) == Tail(f, 0);
    assert f.groups[..0] == [];
    assert "" + Text(f)[0..] == Text(f);
  }

  function Digits(s: Scan, c: char): Scan {
    s.(cur := s.cur + [c])
  }

  lemma {:induction false} CharacterTaken(f: Form, name: string, i: int, s: Scan)
    requires Continues(f, name, i, s) && i < |name|
    ensures Continues(f, name, i + 1, Digits(s, name[i]))
  {
    assert s.cur + [name[i]] + name[i + 1..] == s.cur + name[i..];
  }

  lemma {:induction false} DigitOf(f: Form, name: string, i: int, s: Scan)
    requires Valid(f) && Continues(f, name, i, s) && IsNumeral(Hex, s.cur)
    requires i < |name| && name[i] != ':' && name[i] != '.'
    ensures DigitFitsBlock(s.cur, name[i])
  {
    InToken(f, name, i, s);
    assert name[i..][0] == name[i];
    WithinDigit(Hex, s.cur, name[i..], Token(f, |s.groups|), AfterToken(f, |s.groups|));
    ValueSnoc(Hex, s.cur, name[i]);
  }

  predicate DigitFitsBlock(cur: string, c: char)
    requires IsNumeral(Hex, cur)
  {
    Digit(Hex, c) >= 0 && 16 * Value(Hex, cur) + Digit(Hex, c) <= 0xFFFF
  }

  /** A text that does not start with ':' starts with its first token. */
  lemma {:induction false} Started(f: Form, name: string, i: int, s: Scan)
    requires Valid(f) && Text(f) == name && Agrees(f, name, i, s) && 0 <= i < |name| && (i == 0 ==> name[0] != ':')
    ensures Continues(f, name, i, s)
  {
    if i == 0 {
      assert f.gap != 0;
      AtStart(f);
    }
  }

  lemma {:induction false} DigitOfForm(f: Form, name: string, i: int, s: Scan)
    requires Sound(name, i, s) && AgreesIfForm(f, name, i, s) && i < |name| && name[i] != ':' && name[i] != '.'
    ensures AgreesIfForm(f, name, i + 1, Digits(s, name[i]))
    ensures Valid(f) && Text(f) == name ==> DigitFitsBlock(s.cur, name[i])
  {
    if Valid(f) && Text(f) == name {
      Started(f, name, i, s);
      DigitOf(f, name, i, s);
      CharacterTaken(f, name, i, s);
    }
  }

  lemma {:induction false} DigitSound(name: string, i: int, s: Scan)
    requires Sound(name, i, s) && i < |name| && DigitFitsBlock(s.cur, name[i])
    ensures Sound(name, i + 1, Digits(s, name[i]))
  {
    ValueSnoc(Hex, s.cur, name[i]);
    assert name[..i + 1] == name[..i] + [name[i]];
    assert Lead(s.groups, s.gap) + s.cur + [name[i]] == Lead(s.groups, s.gap) + (s.cur + [name[i]]);
  }

  /** A character other than ':' and '.'. */
  lemma {:induction false} DigitStep(name: string, i: int, s: Scan)
    requires Sound(name, i, s) && Determined(name, i, s) && i < |name| && name[i] != ':' && name[i] != '.'
    ensures if !DigitFitsBlock(s.cur, name[i]) then NoForm(name)
            else Sound(name, i + 1, Digits(s, name[i])) && Determined(name, i + 1, Digits(s, name[i]))
  {
    forall f
      ensures AgreesIfForm(f, name, i + 1, Digits(s, name[i]))
      ensures Valid(f) && Text(f) == name ==> DigitFitsBlock(s.cur, name[i])
    {
      assert AgreesIfForm(f, name, i, s);
      DigitOfForm(f, name, i, s);
    }
    if DigitFitsBlock(s.cur, name[i]) {
      DigitSound(name, i, s);
    }
  }

  predicate Double(name: string, i: int)
    requires 0 <= i < |name|
  {
    i + 1 < |name| && name[i + 1] == ':'
  }

  /** The scan after a group and its separator. */
  function Closed(s: Scan, double: bool): Scan {
    Scan(s.groups + [s.cur], if double then |s.groups| + 1 else s.gap, "")
  }

  lemma {:induction false} SeparatorAhead(f: Form, name: string, i: int, k: nat)
    requires Valid(f) && k < |f.groups| && HasTail(f, k + 1) && 0 <= i < |name|
    requires name[i..] == Separator(f.gap == k + 1) + Tail(f, k + 1)
    ensures Double(name, i) <==> f.gap == k + 1
    ensures var i' := if Double(name, i) then i + 2 else i + 1; i' <= |name| && name[i'..] == Tail(f, k + 1)
  {
    TokenTail(f, k + 1);
    var rest := name[i..];
    if f.gap == k + 1 {
      assert rest[1] == ':';
      assert name[i + 2..] == rest[2..];
    } else {
      var token := Token(f, k + 1);
      assert rest[1] == token[0] && Digit(Hex, token[0]) >= 0;
      assert name[i + 1..] == rest[1..];
    }
  }

  /** At a ':' the parser is at the end of a group. */
  lemma {:induction false} AtColon(f: Form, name: string, i: int, s: Scan)
    requires Valid(f) && Continues(f, name, i, s) && IsNumeral(Hex, s.cur) && i < |name| && name[i] == ':'
    ensures var k := |s.groups|;
      && k < |f.groups| && HasTail(f, k + 1) && s.cur == f.groups[k] && s.cur != ""
      && name[i..] == Separator(f.gap == k + 1) + Tail(f, k + 1)
  {
    var k := |s.groups|;
    InToken(f, name, i, s);
    WithinEnd(Hex, s.cur, name[i..], Token(f, k), AfterToken(f, k));
    TokenTail(f, k);
  }

  lemma {:induction false} GroupClosed(f: Form, name: string, i: int, s: Scan, double: bool)
    requires |s.groups| < |f.groups| && s.groups == f.groups[..|s.groups|] && s.cur == f.groups[|s.groups|]
    requires s.gap == Seen(f.gap, |s.groups|) && (double <==> f.gap == |s.groups| + 1)
    requires HasTail(f, |s.groups| + 1) && 0 <= i <= |name| && name[i..] == Tail(f, |s.groups| + 1)
    ensures Continues(f, name, i, Closed(s, double))
  {
    var k := |s.groups|;
    assert f.groups[..k + 1] == f.groups[..k] + [f.groups[k]];
    assert "" + name[i..] == name[i..];
  }

  lemma {:induction false} ColonOf(f: Form, name: string, i: int, s: Scan)
    requires Valid(f) && Continues(f, name, i, s) && IsNumeral(Hex, s.cur) && i < |name| && name[i] == ':'
    ensures s.cur != "" && |s.groups| < 7 && (Double(name, i) ==> s.gap == -1)
    ensures Continues(f, name, if Double(name, i) then i + 2 else i + 1, Closed(s, Double(name, i)))
  {
    var k := |s.groups|;
    AtColon(f, name, i, s);
    SeparatorAhead(f, name, i, k);
    GroupClosed(f, name, if Double(name, i) then i + 2 else i + 1, s, Double(name, i));
  }

  lemma {:induction false} ColonSound(name: string, i: int, s: Scan)
    requires Sound(name, i, s) && i < |name| && name[i] == ':' && s.cur != "" && |s.groups| < 7 && (Double(name, i) ==> s.gap == -1)
    ensures Sound(name, if Double(name, i) then i + 2 else i + 1, Closed(s, Double(name, i)))
  {
    var double := Double(name, i);
    var s' := Closed(s, double);
    var n := |s'.groups|;
    assert s'.groups[..n - 1] == s.groups;
    if double {
      LeadIgnoresLater(s.groups, n);
      assert name[..i + 2] == name[..i] + "::";
    } else {
      assert name[..i + 1] == name[..i] + ":";
    }
    assert Lead(s'.groups, s'.gap) == Lead(s.groups, s.gap) + s.cur + Separator(double);
    assert Lead(s'.groups, s'.gap) + "" == Lead(s'.groups, s'.gap);
  }

  /** A ':' after the first character. */
  lemma {:induction false} ColonStep(name: string, i: int, s: Scan)
    requires Sound(name, i, s) && Determined(name, i, s) && 0 < i < |name| && name[i] == ':'
    ensures if s.cur == "" || |s.groups| == 7 || (Double(name, i) && s.gap != -1) then NoForm(name)
            else var i' := if Double(name, i) then i + 2 else i + 1;
                 Sound(name, i', Closed(s, Double(name, i))) && Determined(name, i', Closed(s, Double(name, i)))
  {
    var i' := if Double(name, i) then i + 2 else i + 1;
    forall f | Valid(f) && Text(f) == name
      ensures s.cur != "" && |s.groups| < 7 && (Double(name, i) ==> s.gap == -1)
      ensures Agrees(f, name, i', Closed(s, Double(name, i)))
    {
      assert AgreesIfForm(f, name, i, s);
      ColonOf(f, name, i, s);
    }
    if s.cur != "" && |s.groups| < 7 && (Double(name, i) ==> s.gap == -1) {
      ColonSound(name, i, s);
    }
  }

  lemma {:induction false} StartsWithDigit(f: Form)
    requires Valid(f) && f.gap != 0
    ensures Text(f) != "" && Digit(Hex, Text(f)[0]) >= 0
  {
    TokenTail(f, 0);
    assert Text(f)[0] == Token(f, 0)[0];
  }

  /** A ':' as the first character. */
  lemma {:induction false} StartStep(name: string)
    requires |name| > 0 && name[0] == ':'
    ensures if !Double(name, 0) then NoForm(name)
            else Sound(name, 2, Scan([], 0, "")) && Determined(name, 2, Scan([], 0, ""))
  {
    forall f | Valid(f) && Text(f) == name
      ensures Double(name, 0) && Agrees(f, name, 2, Scan([], 0, ""))
    {
      if f.gap != 0 {
        StartsWithDigit(f);
        assert false;
      }
      assert name == "::" + Tail(f, 0);
      assert f.groups[..0] == [];
      assert "" + name[2..] == Tail(f, 0);
    }
    if Double(name, 0) {
      assert name[..2] == "::" + "";
    }
  }

  // ---------------------------------------------------------------- the end of the text

  /** The form of a text that ends here. */
  function Finished(s: Scan): Form {
    Form(if s.cur != "" then s.groups + [s.cur] else s.groups, s.gap, [])
  }

  predicate CanFinish(s: Scan) {
    (s.cur != "" || |s.groups| == s.gap) && (s.gap == -1 ==> BlockCount(Finished(s)) == 8)
  }

  lemma {:induction false} EndOf(f: Form, name: string, s: Scan)
    requires Valid(f) && Continues(f, name, |name|, s) && IsNumeral(Hex, s.cur)
    ensures f == Finished(s) && CanFinish(s)
  {
    var k := |s.groups|;
    InToken(f, name, |name|, s);
    WithinEnd(Hex, s.cur, name[|name|..], Token(f, k), AfterToken(f, k));
    TokenTail(f, k);
    if s.cur != "" {
      assert k < |f.groups| && !HasTail(f, k + 1);
      assert f.groups == f.groups[..k] + [f.groups[k]];
    } else {
      assert f.groups == f.groups[..k];
    }
  }

  lemma {:induction false} EndSound(name: string, s: Scan)
    requires Sound(name, |name|, s) && CanFinish(s)
    ensures Valid(Finished(s)) && Text(Finished(s)) == name
  {
    var f, k := Finished(s), |s.groups|;
    assert name[..|name|] == name;
    assert f.groups[..k] == s.groups;
    LeadTail(f, k);
    assert Tail(f, k) == s.cur;
  }

  lemma {:induction false} EndStep(name: string, s: Scan)
    requires Sound(name, |name|, s) && Determined(name, |name|, s)
    ensures if CanFinish(s) then Denotes(name, Finished(s)) else NoForm(name)
  {
    forall f | Valid(f) && Text(f) == name ensures f == Finished(s) && CanFinish(s) {
      assert AgreesIfForm(f, name, |name|, s);
      if name == "" {
        assert f.gap != 0;
        AtStart(f);
      }
      EndOf(f, name, s);
    }
    if CanFinish(s) {
      EndSound(name, s);
    }
  }

  /** The text has one form, which is `f`. */
  ghost predicate Denotes(name: string, f: Form) {
    Valid(f) && Text(f) == name && forall g :: Valid(g) && Text(g) == name ==> g == f
  }
}
