/**
 The printer of IPv6 addresses of measurement_proxy/tun2socks/misc/ipaddr6.h, and the round
 trip through its parser.
 */
module Ipv6Print {
  import opened Numeral
  import opened Ipv6Text
  import Ipaddr6
  import ParseNumber

  const IPADDR6_PRINT_MAX := 44

  ghost predicate IsAddress(addr: seq<nat>) {
    |addr| == 16 && forall k :: 0 <= k < 16 ==> addr[k] <= 255
  }

  function Block(addr: seq<nat>, i: nat): nat
    requires 2 * i + 1 < |addr|
  {
    256 * addr[2 * i] + addr[2 * i + 1]
  }

  function Blocks(addr: seq<nat>): seq<nat>
    requires |addr| == 16
  {
    seq(8, i requires 0 <= i < 8 => Block(addr, i))
  }

  ghost predicate AreBlocks(blocks: seq<nat>) {
    forall k :: 0 <= k < |blocks| ==> blocks[k] <= 0xFFFF
  }

  // ---------------------------------------------------------------- the run to compress

  ghost predicate ZeroRun(blocks: seq<nat>, start: int, len: int) {
    0 <= start <= start + len <= |blocks| && forall k :: start <= k < start + len ==> blocks[k] == 0
  }

  /** The run is the longest among those that end at `end` or before, and the first of its length. */
  ghost predicate LongestRun(blocks: seq<nat>, end: int, start: int, len: int) {
    && ZeroRun(blocks, start, len) && start + len <= end
    && forall a, l :: ZeroRun(blocks, a, l) && a + l <= end && l > 0 ==> l < len || (l == len && start <= a)
  }

  lemma {:induction false} RunsAtEnd(blocks: seq<nat>, end: int, start: int, a: int, l: int)
    requires ZeroRun(blocks, start, end - start) && ZeroRun(blocks, a, l) && a + l == end && l > 0
    requires start == 0 || blocks[start - 1] != 0
    ensures start <= a
  {}

  method FindLongestRun(addr: seq<nat>) returns (start: nat, len: nat)
    requires IsAddress(addr)
    ensures LongestRun(Blocks(addr), 8, start, len)
  {
    ghost var blocks := Blocks(addr);
    var currentStart, currentLen := 0, 0;
    start, len := 0, 0;
    var i := 0;
    while i < 8
      invariant 0 <= i <= 8 && LongestRun(blocks, i, start, len)
      invariant currentStart + currentLen == i && start <= currentStart && ZeroRun(blocks, currentStart, currentLen)
      invariant currentStart == 0 || blocks[currentStart - 1] != 0
    {
      assert blocks[i] == Block(addr, i);
      if addr[2 * i] == 0 && addr[2 * i + 1] == 0 {
        currentLen := currentLen + 1;
        forall a, l | ZeroRun(blocks, a, l) && a + l == i + 1 && l > 0 ensures currentStart <= a {
          RunsAtEnd(blocks, i + 1, currentStart, a, l);
        }
        if currentLen > len {
          start, len := currentStart, currentLen;
        }
      } else {
        assert blocks[i] != 0;
        currentStart, currentLen := i + 1, 0;
      }
      i := i + 1;
    }
  }

  // ---------------------------------------------------------------- the printed form

  function Reprs(blocks: seq<nat>): seq<string> {
    seq(|blocks|, k requires 0 <= k < |blocks| => Repr(Hex, blocks[k]))
  }

  lemma {:induction false} ReprsValid(blocks: seq<nat>)
    requires AreBlocks(blocks)
    ensures forall k :: 0 <= k < |blocks| ==> ValidGroup(Reprs(blocks)[k])
    ensures GroupBlocks(Reprs(blocks)) == blocks
  {
    forall k | 0 <= k < |blocks| ensures ValidGroup(Reprs(blocks)[k]) {
      ReprValue(Hex, blocks[k]);
    }
    if blocks != [] {
      var n := |blocks| - 1;
      ReprsValid(blocks[..n]);
      assert Reprs(blocks)[..n] == Reprs(blocks[..n]);
      ReprValue(Hex, blocks[n]);
    }
  }

  /** A run of two or more zero blocks is left out. */
  function PrintForm(blocks: seq<nat>, start: nat, len: nat): Form
    requires |blocks| == 8 && start + len <= 8
  {
    if len > 1 then Form(Reprs(blocks[..start] + blocks[start + len..]), start, []) else Form(Reprs(blocks), -1, [])
  }

  lemma {:induction false} RunLeftOut(blocks: seq<nat>, start: nat, len: nat)
    requires |blocks| == 8 && ZeroRun(blocks, start, len)
    ensures Expand(blocks[..start] + blocks[start + len..], start) == blocks
  {
    var kept := blocks[..start] + blocks[start + len..];
    assert kept[..start] == blocks[..start] && kept[start..] == blocks[start + len..];
    assert Zeros(len) == blocks[start..start + len];
    assert blocks[..start] + blocks[start..start + len] + blocks[start + len..] == blocks;
  }

  /** A form of canonical groups has their values as its address. */
  lemma {:induction false} ReprsForm(blocks: seq<nat>, gap: int)
    requires AreBlocks(blocks) && -1 <= gap <= |blocks| && (if gap == -1 then |blocks| == 8 else |blocks| <= 7)
    ensures Valid(Form(Reprs(blocks), gap, [])) && Address(Form(Reprs(blocks), gap, [])) == Expand(blocks, gap)
  {
    ReprsValid(blocks);
    assert blocks + QuadBlocks([]) == blocks;
  }

  /** The printed form is a form of the address. */
  lemma {:induction false} PrintFormValid(blocks: seq<nat>, start: nat, len: nat)
    requires |blocks| == 8 && AreBlocks(blocks) && ZeroRun(blocks, start, len)
    ensures Valid(PrintForm(blocks, start, len)) && Address(PrintForm(blocks, start, len)) == blocks
  {
    if len > 1 {
      RunLeftOut(blocks, start, len);
      ReprsForm(blocks[..start] + blocks[start + len..], start);
    } else {
      ReprsForm(blocks, -1);
    }
  }

  // ---------------------------------------------------------------- printing

  lemma {:induction false} LeadSnoc(groups: seq<string>, m: nat, gap: int)
    requires m < |groups|
    ensures Lead(groups[..m + 1], gap) == Lead(groups[..m], gap) + groups[m] + Separator(gap == m + 1)
  {
    assert groups[..m + 1][..m] == groups[..m];
  }

  /** Without its last ':' a lead that ends in a group is the whole text. */
  lemma {:induction false} TextOfLead(f: Form, text: string)
    requires f.quad == [] && -1 <= f.gap < |f.groups| && text + ":" == Lead(f.groups, f.gap)
    ensures text == Text(f)
  {
    var n := |f.groups|;
    LeadTail(f, n - 1);
    assert f.groups[..n] == f.groups;
    LeadSnoc(f.groups, n - 1, f.gap);
    assert text == (text + ":")[..|text|];
    assert (Text(f) + ":")[..|Text(f)|] == Text(f);
  }

  lemma {:induction false} TextOfGap(f: Form)
    requires f.quad == [] && f.gap == |f.groups|
    ensures Text(f) == Lead(f.groups, f.gap)
  {
    LeadTail(f, |f.groups|);
    assert f.groups[..|f.groups|] == f.groups;
    assert Lead(f.groups, f.gap) + "" == Lead(f.groups, f.gap);
  }

  /** The groups before the gap, each with a ':', and one more ':' if there are none. */
  method PrintFront(addr: seq<nat>, start: nat, ghost groups: seq<string>) returns (text: string)
    requires |addr| == 16 && start <= 8 && start <= |groups|
    requires forall k :: 0 <= k < start ==> groups[k] == Repr(Hex, Block(addr, k))
    ensures text + ":" == Lead(groups[..start], start)
  {
    text := "";
    assert groups[..0] == [];
    for i := 0 to start
      invariant text == Lead(groups[..i], -1)
    {
      LeadSnoc(groups, i, -1);
      text := text + Repr(Hex, Block(addr, i)) + ":";
    }
    if start == 0 {
      text := text + ":";
    } else {
      GapBehind(groups, start);
    }
  }

  /** A gap behind the last group is one more ':'. */
  lemma {:induction false} GapBehind(groups: seq<string>, start: nat)
    requires 0 < start <= |groups|
    ensures Lead(groups[..start], -1) + ":" == Lead(groups[..start], start)
  {
    LeadSnoc(groups, start - 1, -1);
    LeadSnoc(groups, start - 1, start);
    LeadIgnoresLater(groups[..start - 1], start);
    var before := Lead(groups[..start - 1], -1) + groups[start - 1];
    assert before + ":" + ":" == before + "::";
  }

  /** The groups after the gap, each after a ':'. */
  method PrintRear(addr: seq<nat>, start: nat, len: nat, front: string, ghost groups: seq<string>) returns (text: string)
    requires |addr| == 16 && start + len <= 8 && |groups| == 8 - len && front + ":" == Lead(groups[..start], start)
    requires forall k :: start <= k < 8 - len ==> groups[k] == Repr(Hex, Block(addr, k + len))
    ensures text + ":" == Lead(groups, start)
  {
    text := front;
    var i := start + len;
    while i < 8
      invariant start + len <= i <= 8 && text + ":" == Lead(groups[..i - len], start)
    {
      var block := Repr(Hex, Block(addr, i));
      assert block == groups[i - len];
      LeadSnoc(groups, i - len, start);
      text := text + ":" + block;
      i := i + 1;
    }
    assert groups[..i - len] == groups;
  }

  /** One more ':' if no group follows the gap. */
  method PrintEnd(rear: string, start: nat, len: nat, ghost groups: seq<string>) returns (text: string)
    requires start + len <= 8 && |groups| == 8 - len && rear + ":" == Lead(groups, start)
    ensures text == Text(Form(groups, start, []))
  {
    text := rear;
    if start + len == 8 {
      text := text + ":";
      TextOfGap(Form(groups, start, []));
    } else {
      TextOfLead(Form(groups, start, []), text);
    }
  }

  /** All eight groups. */
  method PrintAll(addr: seq<nat>, ghost groups: seq<string>) returns (text: string)
    requires |addr| == 16 && |groups| == 8 && forall k :: 0 <= k < 8 ==> groups[k] == Repr(Hex, Block(addr, k))
    ensures text == Text(Form(groups, -1, []))
  {
    text := "";
    var prefix := "";
    assert groups[..0] == [];
    for i := 0 to 8
      invariant prefix == if i == 0 then "" else ":"
      invariant text + prefix == Lead(groups[..i], -1)
    {
      LeadSnoc(groups, i, -1);
      text := text + prefix + Repr(Hex, Block(addr, i));
      prefix := ":";
    }
    assert groups[..8] == groups;
    TextOfLead(Form(groups, -1, []), text);
  }

  /** ipaddr6_print_addr: the first longest run of two or more zero blocks is compressed. */
  method PrintAddr(addr: seq<nat>) returns (text: string, ghost start: nat, ghost len: nat)
    requires IsAddress(addr)
    ensures LongestRun(Blocks(addr), 8, start, len) && text == Text(PrintForm(Blocks(addr), start, len))
  {
    var largestStart, largestLen := FindLongestRun(addr);
    start, len := largestStart, largestLen;
    ghost var groups := PrintForm(Blocks(addr), start, len).groups;
    if largestLen > 1 {
      var front := PrintFront(addr, largestStart, groups);
      var rear := PrintRear(addr, largestStart, largestLen, front, groups);
      text := PrintEnd(rear, largestStart, largestLen, groups);
    } else {
      text := PrintAll(addr, groups);
    }
  }

  // ---------------------------------------------------------------- the length of the text

  lemma {:induction false} ReprLength(n: nat)
    requires n <= 0xFFFF
    ensures |Repr(Hex, n)| <= 4
  {
    assert n >= 16 ==> |Repr(Hex, n)| == |Repr(Hex, n / 16)| + 1;
    assert n >= 256 ==> |Repr(Hex, n / 16)| == |Repr(Hex, n / 16 / 16)| + 1;
    assert n >= 4096 ==> |Repr(Hex, n / 16 / 16)| == |Repr(Hex, n / 16 / 16 / 16)| + 1;
  }

  lemma {:induction false} LeadLength(groups: seq<string>, gap: int)
    requires forall k :: 0 <= k < |groups| ==> |groups[k]| <= 4
    ensures |Lead(groups, gap)| <= 5 * |groups| + if gap == 0 then 2 else if 0 < gap <= |groups| then 1 else 0
  {
    if groups != [] {
      LeadLength(groups[..|groups| - 1], gap);
    }
  }

  /** A printed address has at most 39 characters. */
  lemma {:induction false} PrintedLength(blocks: seq<nat>, start: nat, len: nat)
    requires |blocks| == 8 && AreBlocks(blocks) && start + len <= 8
    ensures |Text(PrintForm(blocks, start, len))| <= 39
  {
    var f := PrintForm(blocks, start, len);
    var n := |f.groups|;
    forall k | 0 <= k < n ensures |f.groups[k]| <= 4 {
      var kept := if len > 1 then blocks[..start] + blocks[start + len..] else blocks;
      ReprLength(kept[k]);
    }
    var m := if f.gap == n then n else n - 1;
    LeadTail(f, m);
    LeadLength(f.groups[..m], f.gap);
  }

  // ---------------------------------------------------------------- round trip

  lemma {:induction false} BytesAt(blocks: seq<nat>, k: nat)
    requires k < |blocks|
    ensures Bytes(blocks)[2 * k] == blocks[k] / 256 && Bytes(blocks)[2 * k + 1] == blocks[k] % 256
  {
    if k < |blocks| - 1 {
      BytesAt(blocks[..|blocks| - 1], k);
    }
  }

  lemma {:induction false} BytesOfBlocks(addr: seq<nat>)
    requires IsAddress(addr)
    ensures AreBlocks(Blocks(addr)) && Bytes(Blocks(addr)) == addr
  {
    forall k | 0 <= k < 16 ensures Bytes(Blocks(addr))[k] == addr[k] {
      BytesAt(Blocks(addr), k / 2);
    }
  }

  /** Whatever the parser makes of a printed address is the address. */
  lemma {:induction false} PrintedParses(addr: seq<nat>, start: nat, len: nat, ok: bool, bytes: seq<nat>)
    requires IsAddress(addr) && LongestRun(Blocks(addr), 8, start, len)
    requires Ipaddr6.Parsed(Text(PrintForm(Blocks(addr), start, len)), ok, bytes)
    ensures ok && bytes == addr
  {
    BytesOfBlocks(addr);
    PrintFormValid(Blocks(addr), start, len);
  }

  // ---------------------------------------------------------------- addresses with a prefix

  ghost predicate IsFirst(str: string, c: char, pos: int) {
    0 <= pos < |str| && str[pos] == c && forall k :: 0 <= k < pos ==> str[k] != c
  }

  /** MemRef_FindChar */
  method FindChar(str: string, c: char) returns (found: bool, pos: nat)
    ensures if found then IsFirst(str, c, pos) else c !in str
  {
    pos := 0;
    while pos < |str|
      invariant 0 <= pos <= |str| && forall k :: 0 <= k < pos ==> str[k] != c
    {
      if str[pos] == c {
        return true, pos;
      }
      pos := pos + 1;
    }
    found := false;
  }

  ghost predicate IsPrefix(str: string) {
    str != [] && IsNumeral(Decimal, str) && Value(Decimal, str) <= 128
  }

  /** ipaddr6_parse_ipv6_prefix */
  method ParsePrefix(str: string) returns (ok: bool, num: int)
    ensures ok <==> IsPrefix(str)
    ensures ok ==> num == Value(Decimal, str)
  {
    ok, num := ParseNumber.ParseUnsignedInteger(str);
    if ok && num > 128 {
      ok := false;
    }
  }

  /** An address, the first slash and a prefix length, or one of them is wrong. */
  ghost predicate IfaddrParsed(str: string, ok: bool, bytes: seq<nat>, prefix: int) {
    if ok then
      exists pos :: IsFirst(str, '/', pos) && Ipaddr6.Parsed(str[..pos], true, bytes)
                    && IsPrefix(str[pos + 1..]) && prefix == Value(Decimal, str[pos + 1..])
    else
      forall pos :: IsFirst(str, '/', pos) ==> NoForm(str[..pos]) || !IsPrefix(str[pos + 1..])
  }

  /** ipaddr6_parse_ipv6_ifaddr */
  method ParseIfaddr(str: string, out: array<nat>) returns (ok: bool, prefix: int)
    requires out.Length == 16
    modifies out
    ensures IfaddrParsed(str, ok, out[..], prefix)
  {
    prefix := 0;
    var slash;
    ok, slash := FindChar(str, '/');
    if !ok {
      return;
    }
    ok := Ipaddr6.ParseAddr(str[..slash], out);
    if ok {
      ok, prefix := ParsePrefix(str[slash + 1..]);
    }
  }

  lemma PrefixLength(p: nat)
    requires p <= 128
    ensures |Repr(Decimal, p)| <= 3
  {
    assert p >= 10 ==> |Repr(Decimal, p)| == |Repr(Decimal, p / 10)| + 1;
    assert p >= 100 ==> |Repr(Decimal, p / 10)| == |Repr(Decimal, p / 10 / 10)| + 1;
  }

  /** ipaddr6_print_ifaddr: the text and its terminating zero fit in the buffer. */
  method PrintIfaddr(addr: seq<nat>, prefix: nat) returns (text: string, ghost start: nat, ghost len: nat)
    requires IsAddress(addr) && prefix <= 128
    ensures LongestRun(Blocks(addr), 8, start, len)
    ensures text == Text(PrintForm(Blocks(addr), start, len)) + "/" + Repr(Decimal, prefix)
    ensures |text| + 1 <= IPADDR6_PRINT_MAX
  {
    text, start, len := PrintAddr(addr);
    BytesOfBlocks(addr);
    PrintedLength(Blocks(addr), start, len);
    PrefixLength(prefix);
    text := text + "/" + Repr(Decimal, prefix);
  }

  lemma {:induction false} LeadWithoutSlash(groups: seq<string>, gap: int)
    requires forall k :: 0 <= k < |groups| ==> ValidGroup(groups[k])
    ensures '/' !in Lead(groups, gap)
  {
    if groups != [] {
      LeadWithoutSlash(groups[..|groups| - 1], gap);
      assert ValidGroup(groups[|groups| - 1]);
    }
  }

  lemma {:induction false} TextWithoutSlash(f: Form)
    requires Valid(f) && f.quad == []
    ensures '/' !in Text(f)
  {
    var n := |f.groups|;
    var m := if f.gap == n then n else n - 1;
    LeadTail(f, m);
    LeadWithoutSlash(f.groups[..m], f.gap);
    if m < n {
      assert ValidGroup(f.groups[m]);
    }
  }

  /** Whatever the parser makes of a printed address with a prefix length is the same pair. */
  lemma {:induction false} PrintedIfaddrParses(addr: seq<nat>, p: nat, start: nat, len: nat, ok: bool, bytes: seq<nat>, prefix: int)
    requires IsAddress(addr) && p <= 128 && LongestRun(Blocks(addr), 8, start, len)
    requires IfaddrParsed(Text(PrintForm(Blocks(addr), start, len)) + "/" + Repr(Decimal, p), ok, bytes, prefix)
    ensures ok && bytes == addr && prefix == p
  {
    BytesOfBlocks(addr);
    PrintFormValid(Blocks(addr), start, len);
    var text, digits := Text(PrintForm(Blocks(addr), start, len)), Repr(Decimal, p);
    TextWithoutSlash(PrintForm(Blocks(addr), start, len));
    ReprValue(Decimal, p);
    FirstSlash(text, digits);
    if ok {
      PrintedParses(addr, start, len, true, bytes);
    }
  }

  lemma FirstSlash(a: string, b: string)
    requires '/' !in a
    ensures IsFirst(a + "/" + b, '/', |a|) && (a + "/" + b)[..|a|] == a && (a + "/" + b)[|a| + 1..] == b
    ensures forall pos :: IsFirst(a + "/" + b, '/', pos) ==> pos == |a|
  {
    var s := a + "/" + b;
    assert s[|a|] == '/';
    assert forall k :: 0 <= k < |a| ==> s[k] == a[k];
  }
}
