/**
 What the address of a text is, byte by byte, and that the case of its letters does not matter:
 facts about misc/ipaddr6.h that do not mention how a form is expanded.
 */
module Ipv6Meaning {
  import opened Numeral
  import opened Ipv6Text
  import Ipaddr6
  import Ipv6Print

  // ---------------------------------------------------------------- the bytes of an address

  /** The 16-bit number at position `p`, most significant byte first. */
  function Word(bytes: seq<nat>, p: nat): nat
    requires 2 * p + 1 < |bytes|
  {
    0x100 * bytes[2 * p] + bytes[2 * p + 1]
  }

  lemma {:induction false} GroupAt(groups: seq<string>, k: nat)
    requires k < |groups| && forall i :: 0 <= i < |groups| ==> ValidGroup(groups[i])
    ensures ValidGroup(groups[k]) && GroupBlocks(groups)[k] == Value(Hex, groups[k])
  {
    if k < |groups| - 1 {
      GroupAt(groups[..|groups| - 1], k);
    }
  }

  lemma {:induction false} BytesAt(blocks: seq<nat>, k: nat)
    requires k < |blocks| && blocks[k] <= 0xFFFF
    ensures Bytes(blocks)[2 * k] == blocks[k] / 0x100 < 0x100 && Bytes(blocks)[2 * k + 1] == blocks[k] % 0x100
    ensures Word(Bytes(blocks), k) == blocks[k]
  {
    if k < |blocks| - 1 {
      BytesAt(blocks[..|blocks| - 1], k);
    }
  }

  /** The blocks that are written, in order. */
  ghost function Written(f: Form): seq<nat>
    requires Valid(f)
  {
    GroupBlocks(f.groups) + QuadBlocks(f.quad)
  }

  lemma {:induction false} WrittenFit(f: Form)
    requires Valid(f)
    ensures |Written(f)| == BlockCount(f) && forall k :: 0 <= k < |Written(f)| ==> Written(f)[k] <= 0xFFFF
    ensures |Address(f)| == 8 && forall k :: 0 <= k < 8 ==> Address(f)[k] <= 0xFFFF
  {
    forall k | 0 <= k < |f.groups| ensures GroupBlocks(f.groups)[k] <= 0xFFFF {
      GroupAt(f.groups, k);
    }
    assert f.quad != [] ==> ValidOctet(f.quad[0]) && ValidOctet(f.quad[1]) && ValidOctet(f.quad[2]) && ValidOctet(f.quad[3]);
  }

  /** The groups before the gap come first, those behind it last, and there are zeros between. */
  lemma {:induction false} GroupWord(f: Form, k: nat)
    requires Valid(f) && k < |f.groups|
    ensures ValidGroup(f.groups[k])
    ensures var p := if f.gap < 0 || k < f.gap then k else 8 - BlockCount(f) + k;
            0 <= p < 8 && Word(Bytes(Address(f)), p) == Value(Hex, f.groups[k])
  {
    WrittenFit(f);
    GroupAt(f.groups, k);
    var p := if f.gap < 0 || k < f.gap then k else 8 - BlockCount(f) + k;
    assert Address(f)[p] == Written(f)[k];
    BytesAt(Address(f), p);
  }

  lemma {:induction false} GapWord(f: Form, p: nat)
    requires Valid(f) && 0 <= f.gap <= p < f.gap + 8 - BlockCount(f)
    ensures Word(Bytes(Address(f)), p) == 0
  {
    WrittenFit(f);
    assert Address(f)[p] == 0;
    BytesAt(Address(f), p);
  }

  lemma {:induction false} QuadWord(f: Form, h: nat)
    requires Valid(f) && f.quad != [] && h < 2
    ensures ValidOctet(f.quad[2 * h]) && ValidOctet(f.quad[2 * h + 1])
    ensures Address(f)[6 + h] == 0x100 * Value(Decimal, f.quad[2 * h]) + Value(Decimal, f.quad[2 * h + 1])
  {
    assert Address(f)[6 + h] == Written(f)[|f.groups| + h] == QuadBlocks(f.quad)[h];
  }

  /** The numbers of an IPv4 ending are the last four bytes. */
  lemma {:induction false} QuadBytes(f: Form, h: nat)
    requires Valid(f) && f.quad != [] && h < 2
    ensures ValidOctet(f.quad[2 * h]) && Bytes(Address(f))[12 + 2 * h] == Value(Decimal, f.quad[2 * h])
    ensures ValidOctet(f.quad[2 * h + 1]) && Bytes(Address(f))[13 + 2 * h] == Value(Decimal, f.quad[2 * h + 1])
  {
    WrittenFit(f);
    QuadWord(f, h);
    BytesAt(Address(f), 6 + h);
  }

  // ---------------------------------------------------------------- upper and lower case

  function ToUpper(c: char): char {
    if 'a' <= c <= 'f' then (c as int - 'a' as int + 'A' as int) as char else c
  }

  /** The texts differ only in the case of hexadecimal letters. */
  ghost predicate SameButCase(s: string, t: string) {
    |s| == |t| && forall k :: 0 <= k < |s| ==> ToUpper(s[k]) == ToUpper(t[k])
  }

  lemma {:induction false} SameDigit(c: char, d: char)
    requires ToUpper(c) == ToUpper(d)
    ensures Digit(Hex, c) == Digit(Hex, d) && (Digit(Decimal, c) >= 0 || c == ':' || c == '.' ==> c == d)
  {}

  lemma {:induction false} SameGroup(s: string, t: string)
    requires SameButCase(s, t) && IsNumeral(Hex, s)
    ensures IsNumeral(Hex, t) && Value(Hex, s) == Value(Hex, t)
  {
    if s != [] {
      var n := |s| - 1;
      SameDigit(s[n], t[n]);
      SameGroup(s[..n], t[..n]);
      assert t == t[..n] + [t[n]];
      ValueSnoc(Hex, t[..n], t[n]);
    }
  }

  ghost predicate NoLetters(s: string) {
    forall k :: 0 <= k < |s| ==> Digit(Decimal, s[k]) >= 0 || s[k] == ':' || s[k] == '.'
  }

  lemma {:induction false} NoLettersConcat(s: string, t: string)
    requires NoLetters(s) && NoLetters(t)
    ensures NoLetters(s + t)
  {}

  /** A text without letters has only itself. */
  lemma {:induction false} SameNumbers(s: string, t: string)
    requires SameButCase(s, t) && NoLetters(s)
    ensures s == t
  {
    forall k | 0 <= k < |s| ensures s[k] == t[k] {
      SameDigit(s[k], t[k]);
    }
  }

  lemma {:induction false} DottedCharacters(quad: seq<string>, k: nat)
    requires k < |quad| && forall i :: 0 <= i < |quad| ==> ValidOctet(quad[i])
    ensures NoLetters(DottedTail(quad, k))
    decreases |quad| - k
  {
    assert ValidOctet(quad[k]);
    if k + 1 < |quad| {
      DottedCharacters(quad, k + 1);
      NoLettersConcat(quad[k], ".");
      NoLettersConcat(quad[k] + ".", DottedTail(quad, k + 1));
    }
  }

  /** The text from a group on says nothing about the groups before. */
  lemma {:induction false} TailIgnoresEarlier(f: Form, g: Form, k: nat)
    requires k <= |f.groups| == |g.groups| && f.gap == g.gap && f.quad == g.quad && f.groups[k..] == g.groups[k..]
    ensures Tail(f, k) == Tail(g, k)
    decreases |f.groups| - k
  {
    if k < |f.groups| {
      assert f.groups[k] == f.groups[k..][0] && g.groups[k] == g.groups[k..][0];
      assert f.groups[k + 1..] == f.groups[k..][1..] && g.groups[k + 1..] == g.groups[k..][1..];
      TailIgnoresEarlier(f, g, k + 1);
    }
  }

  /** Both forms have the same parts, up to the case of the groups. */
  ghost predicate Recased(f: Form, g: Form) {
    && |f.groups| == |g.groups| && f.gap == g.gap && f.quad == g.quad
    && forall i :: 0 <= i < |f.groups| ==> SameButCase(f.groups[i], g.groups[i])
  }

  /** What separates group `k` from the rest, and the rest. */
  function After(f: Form, k: nat): (string, string)
    requires k < |f.groups|
  {
    if HasTail(f, k + 1) then (Separator(f.gap == k + 1), Tail(f, k + 1)) else ("", "")
  }

  /** The form with another group `k`. */
  lemma {:induction false} WithGroup(f: Form, h: Form, k: nat, group: string, rest: string) returns (g: Form)
    requires Recased(f, h) && k < |f.groups| && SameButCase(f.groups[k], group) && After(h, k).1 == rest
    ensures Recased(f, g) && Tail(g, k) == group + After(f, k).0 + rest
  {
    g := h.(groups := h.groups[k := group]);
    assert g.groups[k + 1..] == h.groups[k + 1..];
    TailIgnoresEarlier(g, h, k + 1);
    if !HasTail(f, k + 1) {
      assert group + "" + "" == group;
    }
  }

  /** A text in another case has the same form in that case, from group `k` on. */
  lemma {:induction false} RecaseTail(f: Form, k: nat, t: string) returns (g: Form)
    requires Valid(f) && k <= |f.groups| && SameButCase(Tail(f, k), t)
    ensures Recased(f, g) && Tail(g, k) == t
    decreases |f.groups| - k
  {
    if k == |f.groups| {
      g := f;
      if f.quad != [] {
        DottedCharacters(f.quad, 0);
      }
      SameNumbers(Tail(f, k), t);
    } else {
      var (sep, rest) := After(f, k);
      AllParts(f, k);
      var group, t' := SplitSame(f.groups[k], sep, rest, t);
      var h := f;
      if HasTail(f, k + 1) {
        h := RecaseTail(f, k + 1, t');
      }
      g := WithGroup(f, h, k, group, t');
    }
  }

  lemma {:induction false} AllParts(f: Form, k: nat)
    requires k < |f.groups|
    ensures Tail(f, k) == f.groups[k] + After(f, k).0 + After(f, k).1
  {
    assert f.groups[k] + "" + "" == f.groups[k];
  }

  lemma {:induction false} SplitSame(a: string, sep: string, b: string, t: string) returns (a': string, b': string)
    requires SameButCase(a + sep + b, t) && (forall k :: 0 <= k < |sep| ==> sep[k] == ':')
    ensures t == a' + sep + b' && SameButCase(a, a') && SameButCase(b, b')
  {
    var s, n, m := a + sep + b, |a|, |a| + |sep|;
    a', b' := t[..n], t[m..];
    assert forall k :: 0 <= k < n ==> s[k] == a[k];
    assert forall k :: 0 <= k < |b| ==> s[m + k] == b[k];
    assert forall k :: 0 <= k < |sep| ==> s[n + k] == sep[k];
    SameNumbers(sep, t[n..m]);
    assert t == t[..n] + t[n..m] + t[m..];
  }

  lemma {:induction false} RecasedBlocks(a: seq<string>, b: seq<string>)
    requires |a| == |b| && forall i :: 0 <= i < |a| ==> ValidGroup(a[i]) && SameButCase(a[i], b[i])
    ensures forall i :: 0 <= i < |b| ==> ValidGroup(b[i])
    ensures GroupBlocks(a) == GroupBlocks(b)
  {
    forall i | 0 <= i < |b| ensures ValidGroup(b[i]) {
      SameGroup(a[i], b[i]);
    }
    if a != [] {
      var n := |a| - 1;
      RecasedBlocks(a[..n], b[..n]);
      SameGroup(a[n], b[n]);
    }
  }

  /** A text that differs from one with a form only in case has a form, with the same address. */
  lemma {:induction false} RecaseText(f: Form, t: string) returns (g: Form)
    requires Valid(f) && SameButCase(Text(f), t)
    ensures Valid(g) && Text(g) == t && Address(g) == Address(f)
  {
    var lead := if f.gap == 0 then "::" else "";
    assert "" + lead + Tail(f, 0) == Text(f);
    var none, t' := SplitSame("", lead, Tail(f, 0), t);
    assert t == lead + t';
    g := RecaseTail(f, 0, t');
    RecasedValid(f, g);
  }

  lemma {:induction false} RecasedValid(f: Form, g: Form)
    requires Valid(f) && Recased(f, g)
    ensures Valid(g) && Address(g) == Address(f)
  {
    RecasedBlocks(f.groups, g.groups);
  }

  /** The case of the letters of a text changes neither whether it is accepted nor its address. */
  lemma {:induction false} CaseIgnored(name: string, name': string, ok: bool, bytes: seq<nat>, ok': bool, bytes': seq<nat>)
    requires SameButCase(name, name') && Ipaddr6.Parsed(name, ok, bytes) && Ipaddr6.Parsed(name', ok', bytes')
    ensures ok == ok' && (ok ==> bytes == bytes')
  {
    if ok {
      var f :| Denotes(name, f) && bytes == Bytes(Address(f));
      var g := RecaseText(f, name');
    }
    if ok' {
      var f :| Denotes(name', f) && bytes' == Bytes(Address(f));
      var g := RecaseText(f, name);
    }
  }

  // ---------------------------------------------------------------- what is printed

  lemma {:induction false} ReprLower(n: nat)
    ensures Repr(Hex, n) != [] && (forall c :: c in Repr(Hex, n) ==> c in LOWER) && (Repr(Hex, n)[0] == '0' ==> Repr(Hex, n) == "0")
    decreases n
  {
    if n < 16 {
      DigitTable(n);
      assert DigitChar(Hex, n) in LOWER;
    } else {
      var q := Quotient(Hex, n);
      ReprLower(q);
      ReprValue(Hex, n);
      DigitTable(n - 16 * q);
      assert DigitChar(Hex, n - 16 * q) in LOWER;
    }
  }

  /** Two or more zero blocks are printed as "::", all others as lower-case groups without leading zeros. */
  lemma {:induction false} PrintedShape(blocks: seq<nat>, start: nat, len: nat, k: nat)
    requires |blocks| == 8 && Ipv6Print.AreBlocks(blocks) && start + len <= 8
    ensures var f := Ipv6Print.PrintForm(blocks, start, len);
      && f.quad == [] && f.gap == (if len >= 2 then start else -1) && |f.groups| == (if len >= 2 then 8 - len else 8)
      && (k < |f.groups| ==> (forall c :: c in f.groups[k] ==> c in LOWER) && (|f.groups[k]| > 1 ==> f.groups[k][0] != '0'))
  {
    var kept := if len >= 2 then blocks[..start] + blocks[start + len..] else blocks;
    if k < |kept| {
      ReprLower(kept[k]);
    }
  }
}
