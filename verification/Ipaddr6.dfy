/** The parser of IPv6 addresses of measurement_proxy/tun2socks/misc/ipaddr6.h. */
module Ipaddr6 {
  import opened Numeral
  import opened Ipv6Text
  import opened Ipv6Quad

  // ---------------------------------------------------------------- writing the address

  method StoreBlock(out: array<nat>, n: nat, block: nat, ghost blocks: seq<nat>)
    requires out.Length == 16 && n < 8 && |blocks| == n && out[..2 * n] == Bytes(blocks)
    modifies out
    ensures out[..2 * (n + 1)] == Bytes(blocks + [block])
  {
    out[2 * n] := block / 256;
    out[2 * n + 1] := block % 256;
    assert (blocks + [block])[..n] == blocks;
    assert out[..2 * n] == Bytes(blocks);
    assert out[..2 * (n + 1)] == out[..2 * n] + [block / 256, block % 256];
  }

  ghost function Moved(b: seq<nat>, to: nat, from: nat, len: nat): seq<nat>
    requires to + len <= |b| && from + len <= |b|
  {
    b[..to] + b[from..from + len] + b[to + len..]
  }

  ghost function Filled(b: seq<nat>, to: nat, len: nat): seq<nat>
    requires to + len <= |b|
  {
    b[..to] + Zeros(len) + b[to + len..]
  }

  method Memmove(out: array<nat>, to: nat, from: nat, len: nat)
    requires to + len <= out.Length && from + len <= out.Length
    modifies out
    ensures out[..] == Moved(old(out[..]), to, from, len)
  {
    forall k | 0 <= k < len {
      out[to + k] := out[from + k];
    }
  }

  method MemsetZero(out: array<nat>, to: nat, len: nat)
    requires to + len <= out.Length
    modifies out
    ensures out[..] == Filled(old(out[..]), to, len)
  {
    forall k | 0 <= k < len {
      out[to + k] := 0;
    }
  }

  /** The blocks after the gap are moved to the end and the gap is filled with zeros. */
  method Spread(out: array<nat>, numBlocks: nat, compress: nat, ghost blocks: seq<nat>)
    requires out.Length == 16 && |blocks| == numBlocks <= 8 && compress <= numBlocks
    requires out[..2 * numBlocks] == Bytes(blocks)
    modifies out
    ensures out[..] == Bytes(Expand(blocks, compress))
  {
    var rear := numBlocks - compress;
    assert out[..][..2 * numBlocks] == out[..2 * numBlocks];
    SpreadBytes(out[..], blocks, compress);
    Memmove(out, 2 * (8 - rear), 2 * compress, 2 * rear);
    MemsetZero(out, 2 * compress, 2 * (8 - rear - compress));
  }

  lemma {:induction false} BytesSplit(blocks: seq<nat>, n: nat, bytes: seq<nat>)
    requires n <= |blocks| && 2 * |blocks| <= |bytes| && bytes[..2 * |blocks|] == Bytes(blocks)
    ensures bytes[..2 * n] == Bytes(blocks[..n]) && bytes[2 * n..2 * |blocks|] == Bytes(blocks[n..])
  {
    BytesAppend(blocks[..n], blocks[n..]);
    assert blocks == blocks[..n] + blocks[n..];
    assert bytes[..2 * n] == bytes[..2 * |blocks|][..2 * n];
    assert bytes[2 * n..2 * |blocks|] == bytes[..2 * |blocks|][2 * n..];
  }

  lemma {:induction false} ExpandBytes(a: seq<nat>, b: seq<nat>, z: nat)
    ensures Bytes(a + Zeros(z) + b) == Bytes(a) + Zeros(2 * z) + Bytes(b)
  {
    BytesZeros(z);
    BytesAppend(a, Zeros(z));
    BytesAppend(a + Zeros(z), b);
  }

  lemma {:induction false} SpreadBytes(bytes: seq<nat>, blocks: seq<nat>, n: nat)
    requires |bytes| == 16 && n <= |blocks| <= 8 && bytes[..2 * |blocks|] == Bytes(blocks)
    ensures var rear := |blocks| - n;
            Filled(Moved(bytes, 2 * (8 - rear), 2 * n, 2 * rear), 2 * n, 2 * (8 - |blocks|)) == Bytes(Expand(blocks, n))
  {
    var a, b := blocks[..n], blocks[n..];
    BytesSplit(blocks, n, bytes);
    ExpandBytes(a, b, 8 - |blocks|);
    var rear := |blocks| - n;
    FilledMoved(bytes, 2 * n, 2 * (8 - |blocks|), 2 * (8 - rear), 2 * rear, Bytes(a), Bytes(b));
  }

  lemma {:induction false} FilledMoved(bytes: seq<nat>, m: nat, z: nat, at: nat, r: nat, a: seq<nat>, b: seq<nat>)
    requires at == m + z && at + r == |bytes| && bytes[..m] == a && bytes[m..m + r] == b
    ensures Filled(Moved(bytes, at, m, r), m, z) == a + Zeros(z) + b
  {
    var moved := Moved(bytes, at, m, r);
    assert bytes[|bytes|..] == [];
    assert moved[..m] == a && moved[at..] == b;
  }

  /** The last step of the parser: without a gap there must be eight blocks. */
  method Finish(out: array<nat>, numBlocks: nat, compressPos: int, ghost blocks: seq<nat>) returns (ok: bool)
    requires out.Length == 16 && |blocks| == numBlocks <= 8 && -1 <= compressPos <= numBlocks
    requires out[..2 * numBlocks] == Bytes(blocks)
    modifies out
    ensures ok <==> compressPos != -1 || numBlocks == 8
    ensures ok ==> out[..] == Bytes(Expand(blocks, compressPos))
  {
    if compressPos == -1 {
      if numBlocks != 8 {
        return false;
      }
      assert blocks[..0] + Zeros(0) + blocks[0..] == blocks;
      Spread(out, numBlocks, 0, blocks);
    } else {
      Spread(out, numBlocks, compressPos, blocks);
    }
    ok := true;
  }

  // ---------------------------------------------------------------- parsing

  /** The parser accepts exactly the texts that have a form, and then stores its address. */
  ghost predicate Parsed(name: string, ok: bool, bytes: seq<nat>) {
    if ok then exists f :: Denotes(name, f) && bytes == Bytes(Address(f)) else NoForm(name)
  }

  /** The finished groups are stored. */
  ghost predicate Stored(bytes: seq<nat>, s: Scan) {
    && (forall k :: 0 <= k < |s.groups| ==> ValidGroup(s.groups[k]))
    && 2 * |s.groups| <= |bytes| && bytes[..2 * |s.groups|] == Bytes(GroupBlocks(s.groups))
  }

  ghost function OctetValues(octets: seq<string>): seq<nat>
    requires forall k :: 0 <= k < |octets| ==> ValidOctet(octets[k])
  {
    if octets == [] then []
    else assert ValidOctet(octets[|octets| - 1]); OctetValues(octets[..|octets| - 1]) + [Value(Decimal, octets[|octets| - 1])]
  }

  lemma {:induction false} OctetValuesSnoc(octets: seq<string>, o: string)
    requires (forall k :: 0 <= k < |octets| ==> ValidOctet(octets[k])) && ValidOctet(o)
    ensures OctetValues(octets + [o]) == OctetValues(octets) + [Value(Decimal, o)]
  {
    assert (octets + [o])[..|octets|] == octets;
  }

  lemma {:induction false} GroupBlocksSnoc(groups: seq<string>, g: string)
    requires (forall k :: 0 <= k < |groups| ==> ValidGroup(groups[k])) && ValidGroup(g)
    ensures GroupBlocks(groups + [g]) == GroupBlocks(groups) + [Value(Hex, g)]
  {
    assert (groups + [g])[..|groups|] == groups;
  }

  /** What the variables of the second loop stand for. */
  ghost predicate OctetsRead(name: string, start: int, i: int, s: Scan, q: Octets, bytes: seq<nat>, byte: int, empty: bool) {
    && QuadSound(name, start, i, q) && QuadDetermined(name, i, s, q) && |bytes| == |q.octets| && bytes == OctetValues(q.octets)
    && byte == Value(Decimal, q.cur) && (empty <==> q.cur == "")
  }

  lemma {:induction false} DotRead(name: string, start: int, i: int, s: Scan, q: Octets, bytes: seq<nat>, byte: nat, empty: bool)
    requires OctetsRead(name, start, i, s, q, bytes, byte, empty) && i < |name| && name[i] == '.'
    ensures if empty || |bytes| == 3 then NoForm(name)
            else OctetsRead(name, start, i + 1, s, Octets(q.octets + [q.cur], ""), bytes + [byte], 0, true)
  {
    OctetDotStep(name, start, i, s, q);
    if !empty && |bytes| != 3 {
      OctetValuesSnoc(q.octets, q.cur);
    }
  }

  lemma {:induction false} DigitRead(name: string, start: int, i: int, s: Scan, q: Octets, bytes: seq<nat>, byte: nat, empty: bool)
    requires OctetsRead(name, start, i, s, q, bytes, byte, empty) && i < |name| && name[i] != '.'
    ensures var digit := Digit(Decimal, name[i]);
            if (!empty && byte == 0) || digit < 0 || byte > 255 / 10 || digit > 255 - 10 * byte then NoForm(name)
            else OctetsRead(name, start, i + 1, s, q.(cur := q.cur + [name[i]]), bytes, 10 * byte + digit, false)
  {
    OctetDigitStep(name, start, i, s, q);
    if Digit(Decimal, name[i]) >= 0 {
      ValueSnoc(Decimal, q.cur, name[i]);
    }
  }

  /** One round of the second loop. */
  method ReadOctetChar(name: string, ghost start: int, i: int, ghost s: Scan, ghost q: Octets, bytes: seq<nat>, byte: nat, empty: bool)
    returns (ok: bool, bytes': seq<nat>, byte': nat, empty': bool, ghost q': Octets)
    requires OctetsRead(name, start, i, s, q, bytes, byte, empty) && i < |name|
    ensures if ok then OctetsRead(name, start, i + 1, s, q', bytes', byte', empty') else NoForm(name)
  {
    ok, bytes', byte', empty', q' := false, bytes, byte, empty, q;
    if name[i] == '.' {
      DotRead(name, start, i, s, q, bytes, byte, empty);
      if empty || |bytes| == 3 {
        return;
      }
      ok, bytes', byte', empty', q' := true, bytes + [byte], 0, true, Octets(q.octets + [q.cur], "");
    } else {
      DigitRead(name, start, i, s, q, bytes, byte, empty);
      if !empty && byte == 0 {
        return;
      }
      var digit := Digit(Decimal, name[i]);
      if digit < 0 || byte > 255 / 10 || digit > 255 - 10 * byte {
        return;
      }
      ok, byte', empty', q' := true, 10 * byte + digit, false, q.(cur := q.cur + [name[i]]);
    }
  }

  /** Reads the four decimal numbers. */
  method ReadOctets(name: string, start: int, ghost s: Scan) returns (ok: bool, bytes: seq<nat>, ghost q: Octets)
    requires QuadSound(name, start, start, Octets([], "")) && QuadDetermined(name, start, s, Octets([], ""))
    ensures if ok then OctetsFinished(name, start, s, q, bytes) else NoForm(name)
  {
    var i, byte: nat, empty := start, 0, true;
    bytes, q := [], Octets([], "");
    while i < |name|
      invariant start <= i <= |name| && OctetsRead(name, start, i, s, q, bytes, byte, empty)
    {
      ok, bytes, byte, empty, q := ReadOctetChar(name, start, i, s, q, bytes, byte, empty);
      if !ok {
        return;
      }
      i := i + 1;
    }
    OctetsAtEnd(name, start, s, q, bytes, byte, empty);
    ok, bytes := |bytes| == 3 && !empty, bytes + [byte];
  }

  ghost predicate OctetsFinished(name: string, start: int, s: Scan, q: Octets, bytes: seq<nat>) {
    && QuadSound(name, start, |name|, q) && QuadDetermined(name, |name|, s, q)
    && ValidOctet(q.cur) && |q.octets| == 3 && bytes == OctetValues(q.octets + [q.cur])
  }

  lemma {:induction false} OctetsAtEnd(name: string, start: int, s: Scan, q: Octets, bytes: seq<nat>, byte: nat, empty: bool)
    requires OctetsRead(name, start, |name|, s, q, bytes, byte, empty)
    ensures if |bytes| == 3 && !empty then OctetsFinished(name, start, s, q, bytes + [byte]) else NoForm(name)
  {
    if |bytes| == 3 && !empty {
      OctetValuesSnoc(q.octets, q.cur);
    } else {
      QuadUnfinished(name, s, q);
    }
  }

  lemma {:induction false} QuadUnfinished(name: string, s: Scan, q: Octets)
    requires QuadDetermined(name, |name|, s, q) && OpenOctet(q.cur) && (|q.octets| != 3 || q.cur == "")
    ensures NoForm(name)
  {
    forall f | Valid(f) ensures Text(f) != name {
      if Text(f) == name {
        assert QuadAgreesIfForm(f, name, |name|, s, q);
        QuadEndOf(f, name, s, q);
      }
    }
  }

  lemma {:induction false} OctetValuesAt(octets: seq<string>, k: nat)
    requires (forall k :: 0 <= k < |octets| ==> ValidOctet(octets[k])) && k < |octets|
    ensures ValidOctet(octets[k])
    ensures |OctetValues(octets)| == |octets| && OctetValues(octets)[k] == Value(Decimal, octets[k])
  {
    var n := |octets| - 1;
    if n > 0 {
      OctetValuesAt(octets[..n], if k < n then k else 0);
    }
  }

  lemma TwoBlocks(x: nat, y: nat)
    ensures Bytes([x, y]) == [x / 256, x % 256, y / 256, y % 256]
  {
    assert [x, y][..1] == [x] && [x][..0] == [];
    assert Bytes([x]) == Bytes([]) + [x / 256, x % 256];
  }

  /** The four numbers are the bytes of two blocks. */
  lemma {:induction false} QuadBytes(quad: seq<string>)
    requires |quad| == 4 && forall k :: 0 <= k < 4 ==> ValidOctet(quad[k])
    ensures |OctetValues(quad)| == 4 && Bytes(QuadBlocks(quad)) == OctetValues(quad)
  {
    OctetValuesAt(quad, 0);
    OctetValuesAt(quad, 1);
    OctetValuesAt(quad, 2);
    OctetValuesAt(quad, 3);
    var b := QuadBlocks(quad);
    TwoBlocks(b[0], b[1]);
  }

  method StoreQuad(out: array<nat>, n: nat, bytes: seq<nat>, ghost blocks: seq<nat>, ghost quad: seq<string>)
    requires out.Length == 16 && n <= 6 && |blocks| == n && out[..2 * n] == Bytes(blocks)
    requires |quad| == 4 && (forall k :: 0 <= k < 4 ==> ValidOctet(quad[k])) && bytes == OctetValues(quad)
    modifies out
    ensures out[..2 * (n + 2)] == Bytes(blocks + QuadBlocks(quad))
  {
    QuadBytes(quad);
    BytesAppend(blocks, QuadBlocks(quad));
    forall k | 0 <= k < 4 {
      out[2 * n + k] := bytes[k];
    }
    assert out[..2 * n] == Bytes(blocks);
    assert out[2 * n..2 * n + 4] == bytes;
    assert out[..2 * (n + 2)] == out[..2 * n] + out[2 * n..2 * n + 4];
  }

  /** Goes back to the start of the open group. */
  method GroupStart(name: string, i: int, ghost s: Scan) returns (start: int)
    requires Sound(name, i, s) && (s.groups != [] || s.gap != -1)
    ensures start == i - |s.cur| && Sound(name, start, s.(cur := ""))
  {
    ColonBefore(name, i, s);
    start := i;
    while name[start - 1] != ':'
      invariant i - |s.cur| <= start <= i
      decreases start
    {
      start := start - 1;
    }
    assert name[..start] == name[..i][..start];
    assert Lead(s.groups, s.gap) + "" == Lead(s.groups, s.gap);
  }

  /** The parser from the first '.' on. */
  method ReadIpv4Ending(name: string, i: int, numBlocks: nat, compressPos: int, empty: bool, out: array<nat>, ghost s: Scan) returns (ok: bool)
    requires Sound(name, i, s) && Determined(name, i, s) && i < |name| && name[i] == '.'
    requires out.Length == 16 && Stored(out[..], s)
    requires numBlocks == |s.groups| && compressPos == s.gap && (empty <==> s.cur == "")
    modifies out
    ensures Parsed(name, ok, out[..])
  {
    DotStep(name, i, s);
    if empty || (numBlocks == 0 && compressPos == -1) {
      return false;
    }
    var start := GroupStart(name, i, s);
    var bytes;
    ghost var q;
    ok, bytes, q := ReadOctets(name, start, s);
    if !ok {
      return;
    }
    QuadEndStep(name, start, s, q);
    if 8 - numBlocks < 2 {
      return false;
    }
    ok := StoreEnding(out, numBlocks, compressPos, bytes, s, q);
  }

  method StoreEnding(out: array<nat>, numBlocks: nat, compressPos: int, bytes: seq<nat>, ghost s: Scan, ghost q: Octets) returns (ok: bool)
    requires out.Length == 16 && Stored(out[..], s) && -1 <= s.gap <= |s.groups|
    requires numBlocks == |s.groups| <= 6 && compressPos == s.gap
    requires (forall k :: 0 <= k < |q.octets| ==> ValidOctet(q.octets[k])) && ValidOctet(q.cur) && |q.octets| == 3
    requires bytes == OctetValues(q.octets + [q.cur])
    modifies out
    ensures ok <==> CanFinishQuad(s, q)
    ensures ok ==> Valid(FinishedQuad(s, q)) && out[..] == Bytes(Address(FinishedQuad(s, q)))
  {
    ghost var f := FinishedQuad(s, q);
    StoreQuad(out, numBlocks, bytes, GroupBlocks(s.groups), f.quad);
    ok := Finish(out, numBlocks + 2, compressPos, GroupBlocks(s.groups) + QuadBlocks(f.quad));
  }

  /** What the variables of the first loop stand for. */
  ghost predicate GroupsRead(name: string, i: int, s: Scan, numBlocks: int, compressPos: int, block: int, empty: bool) {
    && Sound(name, i, s) && Determined(name, i, s) && (i == 0 ==> s == Scan([], -1, ""))
    && numBlocks == |s.groups| && compressPos == s.gap && block == Value(Hex, s.cur) && (empty <==> s.cur == "")
  }

  lemma {:induction false} GroupDigitRead(name: string, i: int, s: Scan, numBlocks: int, compressPos: int, block: nat, empty: bool)
    requires GroupsRead(name, i, s, numBlocks, compressPos, block, empty) && i < |name| && name[i] != ':' && name[i] != '.'
    ensures var digit := Digit(Hex, name[i]);
            if digit < 0 || block > 0xFFFF / 16 || digit > 0xFFFF - 16 * block then NoForm(name)
            else GroupsRead(name, i + 1, Digits(s, name[i]), numBlocks, compressPos, 16 * block + digit, false)
  {
    DigitStep(name, i, s);
    if Digit(Hex, name[i]) >= 0 {
      ValueSnoc(Hex, s.cur, name[i]);
    }
  }

  /** One round of the first loop at a character that should be a digit. */
  method ReadDigit(name: string, i: int, ghost s: Scan, ghost numBlocks: nat, ghost compressPos: int, block: nat, ghost empty: bool)
    returns (ok: bool, block': nat, ghost s': Scan)
    requires GroupsRead(name, i, s, numBlocks, compressPos, block, empty) && i < |name| && name[i] != ':' && name[i] != '.'
    ensures if ok then GroupsRead(name, i + 1, s', numBlocks, compressPos, block', false) && s'.groups == s.groups else NoForm(name)
  {
    GroupDigitRead(name, i, s, numBlocks, compressPos, block, empty);
    ok, block', s' := false, block, s;
    var digit := Digit(Hex, name[i]);
    if digit < 0 || block > 0xFFFF / 16 || digit > 0xFFFF - 16 * block {
      return;
    }
    ok, block', s' := true, 16 * block + digit, Digits(s, name[i]);
  }

  method StoreGroup(out: array<nat>, n: nat, block: nat, ghost s: Scan)
    requires out.Length == 16 && Stored(out[..], s) && n == |s.groups| < 8 && ValidGroup(s.cur) && block == Value(Hex, s.cur)
    modifies out
    ensures Stored(out[..], Scan(s.groups + [s.cur], s.gap, ""))
  {
    assert out[..][..2 * n] == out[..2 * n];
    GroupBlocksSnoc(s.groups, s.cur);
    StoreBlock(out, n, block, GroupBlocks(s.groups));
    assert out[..][..2 * (n + 1)] == out[..2 * (n + 1)];
  }

  /** One round of the first loop at a ':'. */
  method ReadColon(name: string, i: int, ghost s: Scan, numBlocks: nat, compressPos: int, block: nat, empty: bool, out: array<nat>)
    returns (ok: bool, i': int, numBlocks': nat, compressPos': int, ghost s': Scan)
    requires GroupsRead(name, i, s, numBlocks, compressPos, block, empty) && i < |name| && name[i] == ':'
    requires out.Length == 16 && Stored(out[..], s)
    modifies out
    ensures if ok then i' > i && GroupsRead(name, i', s', numBlocks', compressPos', 0, true) && Stored(out[..], s') else NoForm(name)
  {
    ok, numBlocks', compressPos', s' := false, numBlocks, compressPos, s;
    var isDouble := Double(name, i);
    i' := if isDouble then i + 2 else i + 1;
    if i > 0 {
      ColonStep(name, i, s);
      if empty || numBlocks == 7 {
        return;
      }
      StoreGroup(out, numBlocks, block, s);
      numBlocks' := numBlocks + 1;
      s' := Closed(s, isDouble);
    } else {
      StartStep(name);
      if !isDouble {
        return;
      }
      s' := Scan([], 0, "");
    }
    if isDouble {
      if compressPos != -1 {
        return;
      }
      compressPos' := numBlocks';
    }
    ok := true;
  }

  /** The first loop at the end of the text. */
  method FinishGroups(name: string, ghost s: Scan, numBlocks: nat, compressPos: int, block: nat, empty: bool, out: array<nat>) returns (ok: bool)
    requires GroupsRead(name, |name|, s, numBlocks, compressPos, block, empty) && out.Length == 16 && Stored(out[..], s)
    modifies out
    ensures Parsed(name, ok, out[..])
  {
    EndStep(name, s);
    var n := numBlocks;
    if !empty {
      StoreGroup(out, n, block, s);
      n := n + 1;
    } else if numBlocks != compressPos {
      return false;
    }
    ghost var blocks := GroupBlocks(Finished(s).groups);
    assert out[..][..2 * n] == out[..2 * n];
    ok := Finish(out, n, compressPos, blocks);
    assert blocks + QuadBlocks([]) == blocks;
  }

  /** ipaddr6_parse_ipv6_addr */
  method ParseAddr(name: string, out: array<nat>) returns (ok: bool)
    requires out.Length == 16
    modifies out
    ensures Parsed(name, ok, out[..])
  {
    var i, numBlocks: nat, compressPos, block: nat, empty := 0, 0, -1, 0, true;
    ghost var s := Scan([], -1, "");
    Unread(name, out[..]);
    while i < |name|
      invariant 0 <= i <= |name| && GroupsRead(name, i, s, numBlocks, compressPos, block, empty) && Stored(out[..], s)
    {
      if name[i] == '.' {
        ok := ReadIpv4Ending(name, i, numBlocks, compressPos, empty, out, s);
        return;
      } else if name[i] == ':' {
        ok, i, numBlocks, compressPos, s := ReadColon(name, i, s, numBlocks, compressPos, block, empty, out);
        block, empty := 0, true;
      } else {
        ok, block, s := ReadDigit(name, i, s, numBlocks, compressPos, block, empty);
        i, empty := i + 1, false;
      }
      if !ok {
        return;
      }
    }
    ok := FinishGroups(name, s, numBlocks, compressPos, block, empty, out);
  }

  lemma {:induction false} Unread(name: string, bytes: seq<nat>)
    ensures GroupsRead(name, 0, Scan([], -1, ""), 0, -1, 0, true) && Stored(bytes, Scan([], -1, ""))
  {
    assert name[..0] == "" + "";
    assert bytes[..0] == [];
  }
}
