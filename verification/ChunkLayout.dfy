/** How packets lie in the memory of a circular packet buffer: a length block and data blocks each. */
module ChunkLayout {
  import opened Basics

  const INT_MAX := 0x7FFF_FFFF

  /** A size stored in a 32-bit int. */
  function ToInt(n: int): (r: int)
    ensures r == n <==> -INT_MAX - 1 <= n <= INT_MAX
  {
    var r := n % 0x1_0000_0000;
    if r <= INT_MAX then r else r - 0x1_0000_0000
  }
  const BLOCK := 4  // sizeof(struct ChunkBuffer2_block)

  /** bdivide_up by the block size. */
  function Blocks(len: nat): nat {
    if len % BLOCK > 0 then len / BLOCK + 1 else len / BLOCK
  }

  lemma {:induction false} BlocksCover(len: nat)
    ensures len <= BLOCK * Blocks(len) < len + BLOCK
  {}

  lemma {:induction false} BlocksMonotone(a: nat, b: nat)
    requires a <= b
    ensures Blocks(a) <= Blocks(b)
  {}

  /** The blocks a packet takes, with its length block. */
  function Size(p: Packet): nat {
    1 + Blocks(|p|)
  }

  function Span(ps: seq<Packet>): nat {
    if ps == [] then 0 else Size(ps[0]) + Span(ps[1..])
  }

  lemma {:induction false} SpanConcat(a: seq<Packet>, b: seq<Packet>)
    ensures Span(a + b) == Span(a) + Span(b)
  {
    if a == [] {
      assert a + b == b;
    } else {
      assert (a + b)[1..] == a[1..] + b;
      SpanConcat(a[1..], b);
    }
  }

  // ---------------------------------------------------------------- the length block

  /** The int stored at byte `i`. */
  function ReadInt(m: seq<byte>, i: int): int
    requires 0 <= i && i + 4 <= |m|
  {
    m[i] as int + 0x100 * (m[i + 1] as int) + 0x1_0000 * (m[i + 2] as int) + 0x100_0000 * (m[i + 3] as int)
  }

  function IntBytes(v: int): seq<byte>
    requires 0 <= v <= INT_MAX
  {
    [v % 0x100, v / 0x100 % 0x100, v / 0x1_0000 % 0x100, v / 0x100_0000 % 0x100]
  }

  /** The memory after the length `len` has been written at byte `at`. */
  function Headed(m: seq<byte>, at: int, len: int): seq<byte>
    requires 0 <= at && at + 4 <= |m| && 0 <= len <= INT_MAX
  {
    m[..at] + IntBytes(len) + m[at + 4..]
  }

  lemma {:induction false} IntRoundTrip(v: int)
    requires 0 <= v <= INT_MAX
    ensures ReadInt(IntBytes(v), 0) == v
  {
    assert v / 0x1_0000 == v / 0x100 / 0x100 && v / 0x100_0000 == v / 0x100 / 0x100 / 0x100;
  }

  // ---------------------------------------------------------------- packets in memory

  /** The packet `p` is stored at block `pos`. */
  ghost predicate PacketAt(m: seq<byte>, pos: int, p: Packet) {
    && 0 <= pos && BLOCK * (pos + Size(p)) <= |m|
    && ReadInt(m, BLOCK * pos) == |p|
    && BLOCK * (pos + 1) + |p| <= |m| && m[BLOCK * (pos + 1)..BLOCK * (pos + 1) + |p|] == p
  }

  /** The packets `ps` are stored one after the other from block `pos`. */
  ghost predicate Laid(m: seq<byte>, pos: int, ps: seq<Packet>)
    decreases ps
  {
    ps == [] || (PacketAt(m, pos, ps[0]) && Laid(m, pos + Size(ps[0]), ps[1..]))
  }

  /** Both memories agree on the blocks from `lo` up to `hi`. */
  ghost predicate SameBlocks(m: seq<byte>, m': seq<byte>, lo: int, hi: int) {
    |m| == |m'| && forall i :: BLOCK * lo <= i < BLOCK * hi && 0 <= i < |m| ==> m[i] == m'[i]
  }

  lemma {:induction false} PacketFrame(m: seq<byte>, m': seq<byte>, pos: int, p: Packet)
    requires PacketAt(m, pos, p) && SameBlocks(m, m', pos, pos + Size(p))
    ensures PacketAt(m', pos, p)
  {
    BlocksCover(|p|);
    var i := BLOCK * (pos + 1);
    assert m'[i..i + |p|] == m[i..i + |p|];
  }

  lemma {:induction false} LaidFrame(m: seq<byte>, m': seq<byte>, pos: int, ps: seq<Packet>)
    requires Laid(m, pos, ps) && SameBlocks(m, m', pos, pos + Span(ps))
    ensures Laid(m', pos, ps)
    decreases ps
  {
    if ps != [] {
      PacketFrame(m, m', pos, ps[0]);
      LaidFrame(m, m', pos + Size(ps[0]), ps[1..]);
    }
  }

  lemma {:induction false} LaidAppend(m: seq<byte>, pos: int, ps: seq<Packet>, e: int, p: Packet)
    requires Laid(m, pos, ps) && PacketAt(m, e, p) && e == pos + Span(ps)
    ensures Laid(m, pos, ps + [p])
    decreases ps
  {
    if ps == [] {
      assert ps + [p] == [p] + [];
      LaidCons(m, pos, p, []);
    } else {
      var first, rest := ps[0], ps[1..];
      assert ps == [first] + rest && ps + [p] == [first] + (rest + [p]);
      LaidUncons(m, pos, first, rest);
      LaidAppend(m, pos + Size(first), rest, e, p);
      LaidCons(m, pos, first, rest + [p]);
    }
  }

  lemma {:induction false} LaidUncons(m: seq<byte>, pos: int, p: Packet, ps: seq<Packet>)
    requires Laid(m, pos, [p] + ps)
    ensures PacketAt(m, pos, p) && Laid(m, pos + Size(p), ps) && Span([p] + ps) == Size(p) + Span(ps)
  {
    assert ([p] + ps)[1..] == ps;
  }

  lemma {:induction false} LaidCons(m: seq<byte>, pos: int, p: Packet, ps: seq<Packet>)
    requires PacketAt(m, pos, p) && Laid(m, pos + Size(p), ps)
    ensures Laid(m, pos, [p] + ps)
  {
    assert ([p] + ps)[1..] == ps;
  }

  /** A packet is stored by writing its length block behind the data that is already there. */
  lemma {:induction false} StoredPacket(m: seq<byte>, m': seq<byte>, pos: int, p: Packet)
    requires 0 <= pos && BLOCK * (pos + Size(p)) <= |m| == |m'| && |p| <= INT_MAX
    requires BLOCK * (pos + 1) + |p| <= |m| && m[BLOCK * (pos + 1)..BLOCK * (pos + 1) + |p|] == p
    requires m'[BLOCK * pos..BLOCK * pos + 4] == IntBytes(|p|)
    requires SameBlocks(m, m', pos + 1, pos + Size(p))
    ensures PacketAt(m', pos, p)
  {
    BlocksCover(|p|);
    IntRoundTrip(|p|);
    var i, b := BLOCK * (pos + 1), BLOCK * pos;
    assert m'[b] == m'[b..b + 4][0] && m'[b + 1] == m'[b..b + 4][1] && m'[b + 2] == m'[b..b + 4][2] && m'[b + 3] == m'[b..b + 4][3];
    assert m'[i..i + |p|] == m[i..i + |p|];
  }

  /** Four bytes written over one block. */
  lemma {:induction false} BlockWritten(m: seq<byte>, m': seq<byte>, e: int, b: seq<byte>, lo: int, hi: int)
    requires 0 <= e && BLOCK * (e + 1) <= |m| && |b| == 4 && (hi <= e || e < lo)
    requires m' == m[..BLOCK * e] + b + m[BLOCK * e + 4..]
    ensures SameBlocks(m, m', lo, hi) && m'[BLOCK * e..BLOCK * e + 4] == b
  {}

  /** Packets on either side of the written block stay where they are. */
  lemma {:induction false} LaidBeside(m: seq<byte>, m': seq<byte>, e: int, b: seq<byte>, pos: int, ps: seq<Packet>)
    requires 0 <= e && BLOCK * (e + 1) <= |m| && |b| == 4 && (pos + Span(ps) <= e || e < pos)
    requires m' == m[..BLOCK * e] + b + m[BLOCK * e + 4..] && Laid(m, pos, ps)
    ensures Laid(m', pos, ps)
  {
    BlockWritten(m, m', e, b, pos, pos + Span(ps));
    LaidFrame(m, m', pos, ps);
  }

  /** The length written in front of the data of a packet makes it a stored packet. */
  lemma {:induction false} PacketStored(m: seq<byte>, m': seq<byte>, e: int, p: Packet)
    requires 0 <= e && BLOCK * (e + Size(p)) <= |m| && |p| <= INT_MAX
    requires BLOCK * (e + 1) + |p| <= |m| && m[BLOCK * (e + 1)..BLOCK * (e + 1) + |p|] == p
    requires m' == Headed(m, BLOCK * e, |p|)
    ensures PacketAt(m', e, p)
  {
    BlockWritten(m, m', e, IntBytes(|p|), e + 1, e + Size(p));
    StoredPacket(m, m', e, p);
  }

  /** Writing the length of `p` at block `e` stores it without disturbing two other runs of packets. */
  lemma {:induction false} HeaderLaid(m: seq<byte>, m': seq<byte>, e: int, p: Packet, pos: int, ps: seq<Packet>, qs: seq<Packet>)
    requires 0 <= e && BLOCK * (e + Size(p)) <= |m| && |p| <= INT_MAX
    requires BLOCK * (e + 1) + |p| <= |m| && m[BLOCK * (e + 1)..BLOCK * (e + 1) + |p|] == p
    requires m' == Headed(m, BLOCK * e, |p|)
    requires Laid(m, pos, ps) && (pos + Span(ps) <= e || e < pos)
    requires Laid(m, 0, qs) && Span(qs) <= e
    ensures |m'| == |m| && Laid(m', pos, ps) && Laid(m', 0, qs) && PacketAt(m', e, p)
  {
    LaidBeside(m, m', e, IntBytes(|p|), pos, ps);
    LaidBeside(m, m', e, IntBytes(|p|), 0, qs);
    PacketStored(m, m', e, p);
  }
}
