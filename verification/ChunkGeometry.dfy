/** The arithmetic of structure/ChunkBuffer2.h: where the used and the free blocks are. */
module ChunkGeometry {
  import opened Basics
  import opened ChunkLayout

  datatype Geo = Geo(size: int, wrap: int, start: int, used: int, mtu: int) {
    /** Whether the used blocks reach the wrap point. */
    predicate Wrapped() {
      used >= wrap - start
    }

    /** _ChunkBuffer2_end */
    function End(): int {
      if used >= wrap - start then used - (wrap - start) else start + used
    }

    /** The number of free blocks behind the end. */
    function Free(): int {
      if used >= wrap - start then start - End() else size - End()
    }

    /** Whether the input view offers any space, and how many bytes. */
    predicate Offers() {
      size - End() - 1 >= mtu && Free() > 0
    }

    function Avail(): int {
      if Offers() then (Free() - 1) * BLOCK else -1
    }

    /** The geometry after a packet of `blocklen` data blocks has been submitted. */
    function Submitted(blocklen: nat): Geo {
      var used' := used + 1 + blocklen;
      if used' <= wrap - start && mtu > size - (End() + 1 + blocklen) - 1
      then this.(used := used', wrap := End() + 1 + blocklen)
      else this.(used := used')
    }

    /** The geometry after the first packet, of `blocklen` data blocks, has been consumed. */
    function Consumed(blocklen: nat): Geo {
      if start + 1 + blocklen == wrap
      then this.(start := 0, used := used - (1 + blocklen), wrap := size)
      else this.(start := start + 1 + blocklen, used := used - (1 + blocklen))
    }

    /** What the code asserts in _ChunkBuffer2_assert_buffer. */
    predicate Asserted() {
      && 0 < size && 0 < wrap <= size && 0 <= start < wrap && 0 <= used <= wrap && 0 <= mtu
      && (wrap == size || used >= wrap - start)
    }
  }

  /** The block of the last length block in `ps`, stored from `pos`. */
  ghost function LastHeader(pos: int, ps: seq<Packet>): int
    requires ps != []
  {
    pos + Span(ps[..|ps| - 1])
  }

  /**
   `front` is stored from the start, up to the wrap point if the data is wrapped, and `back`
   from block zero. No length block is at a place where a packet of MTU size would not fit.
   */
  ghost predicate Fits(g: Geo, front: seq<Packet>, back: seq<Packet>) {
    && g.Asserted()
    && (if g.Wrapped()
        then front != [] && Span(front) == g.wrap - g.start && Span(back) == g.used - (g.wrap - g.start)
        else Span(front) == g.used && back == [])
    && (if g.mtu >= g.size then front == [] && g.start == 0
        else if g.Wrapped() then g.size - LastHeader(g.start, front) - 1 >= g.mtu && g.wrap + g.mtu >= g.size
        else g.size - g.End() - 1 >= g.mtu)
  }

  /** In every state a packet of MTU size fits between the end and the end of the memory. */
  lemma {:induction false} RoomBehindEnd(g: Geo, front: seq<Packet>, back: seq<Packet>)
    requires Fits(g, front, back) && g.mtu < g.size
    ensures g.size - g.End() - 1 >= g.mtu
  {
    if g.Wrapped() {
      SpanConcat(front[..|front| - 1], [front[|front| - 1]]);
      assert front[..|front| - 1] + [front[|front| - 1]] == front;
    }
  }

  /** The packets in front and at the back after a submit. */
  ghost function FrontAfterSubmit(g: Geo, front: seq<Packet>, p: Packet): seq<Packet> {
    if g.Wrapped() then front else front + [p]
  }

  ghost function BackAfterSubmit(g: Geo, back: seq<Packet>, p: Packet): seq<Packet> {
    if g.Wrapped() then back + [p] else back
  }

  lemma {:induction false} SpanSnoc(ps: seq<Packet>, p: Packet)
    ensures Span(ps + [p]) == Span(ps) + Size(p)
  {
    SpanConcat(ps, [p]);
    var one: seq<Packet> := [p];
    assert one[1..] == [];
  }

  /** Submitting what the input view allows keeps the layout. */
  lemma {:induction false} SubmitFits(g: Geo, front: seq<Packet>, back: seq<Packet>, p: Packet)
    requires Fits(g, front, back) && g.Offers() && |p| <= g.Avail()
    ensures Fits(g.Submitted(Blocks(|p|)), FrontAfterSubmit(g, front, p), BackAfterSubmit(g, back, p))
    ensures g.End() + Size(p) <= g.size && (g.Wrapped() ==> g.End() + Size(p) <= g.start)
  {
    BlocksCover(|p|);
    SpanSnoc(front, p);
    SpanSnoc(back, p);
    assert (front + [p])[..|front|] == front;
  }

  /** The packets in front and at the back after the first one has been consumed. */
  ghost function FrontAfterConsume(front: seq<Packet>, back: seq<Packet>): seq<Packet>
    requires front != []
  {
    if |front| == 1 then back else front[1..]
  }

  ghost function BackAfterConsume(front: seq<Packet>, back: seq<Packet>): seq<Packet> {
    if |front| == 1 then [] else back
  }

  lemma {:induction false} SpanOfRest(front: seq<Packet>)
    requires front != []
    ensures Span(front) == Size(front[0]) + Span(front[1..])
    ensures |front| == 1 ==> front[1..] == []
    ensures |front| > 1 ==> Span(front[1..]) > 0
    ensures |front| > 1 ==> Span(front[..|front| - 1]) == Size(front[0]) + Span(front[1..][..|front| - 2])
  {
    if |front| > 1 {
      assert front[..|front| - 1] == [front[0]] + front[1..][..|front| - 2];
      SpanConcat([front[0]], front[1..][..|front| - 2]);
      var one: seq<Packet> := [front[0]];
      assert one[1..] == [];
    }
  }

  /** The input view stays where it is and does not shrink; without wrapped data it is the same. */
  predicate InputGrows(g: Geo, g': Geo) {
    && g'.End() == g.End() && g.Avail() <= g'.Avail() && (g.Offers() ==> g'.Offers())
    && (!g.Wrapped() ==> g'.Avail() == g.Avail() && g'.Offers() == g.Offers())
  }

  /**
   Consuming keeps the layout. It leaves a non-null input view where it was, and never shrinks
   it; if the data was not wrapped the view is exactly the same, which is why the code then
   does not update it.
   */
  lemma {:induction false} ConsumeFits(g: Geo, front: seq<Packet>, back: seq<Packet>)
    requires Fits(g, front, back) && g.used > 0
    ensures front != []
    ensures var g' := g.Consumed(Blocks(|front[0]|));
            && Fits(g', FrontAfterConsume(front, back), BackAfterConsume(front, back))
            && InputGrows(g, g')
  {
    SpanOfRest(front);
    RoomBehindEnd(g, front, back);
  }

  // ---------------------------------------------------------------- memory

  /** The packets are laid out in memory `m` as the geometry says. */
  ghost predicate InMemory(m: seq<byte>, g: Geo, front: seq<Packet>, back: seq<Packet>) {
    && |m| == BLOCK * g.size && BLOCK * (g.size - 1) <= INT_MAX
    && Fits(g, front, back)
    && Laid(m, g.start, front) && Laid(m, 0, back)
  }

  /** The length block written at the end makes the bytes behind it the newest packet. */
  lemma {:induction false} SubmitStores(m: seq<byte>, m': seq<byte>, g: Geo, g': Geo, front: seq<Packet>, back: seq<Packet>, at: int, p: Packet)
    returns (front': seq<Packet>, back': seq<Packet>)
    requires InMemory(m, g, front, back) && g.Offers() && |p| <= g.Avail()
    requires at == BLOCK * (g.End() + 1) && at + |p| <= |m| && m[at..at + |p|] == p
    requires m' == Headed(m, BLOCK * g.End(), |p|)
    requires g' == g.Submitted(Blocks(|p|))
    ensures InMemory(m', g', front', back') && front' + back' == front + back + [p]
  {
    SubmitFits(g, front, back, p);
    front', back' := FrontAfterSubmit(g, front, p), BackAfterSubmit(g, back, p);
    HeaderLaid(m, m', g.End(), p, g.start, front, back);
    AppendLaid(m', g, front, back, p);
  }

  lemma {:induction false} AppendLaid(m: seq<byte>, g: Geo, front: seq<Packet>, back: seq<Packet>, p: Packet)
    requires Laid(m, g.start, front) && Laid(m, 0, back) && PacketAt(m, g.End(), p)
    requires if g.Wrapped() then g.End() == Span(back) else g.End() == g.start + Span(front) && back == []
    ensures Laid(m, g.start, FrontAfterSubmit(g, front, p)) && Laid(m, 0, BackAfterSubmit(g, back, p))
    ensures FrontAfterSubmit(g, front, p) + BackAfterSubmit(g, back, p) == front + back + [p]
  {
    if g.Wrapped() {
      LaidAppend(m, 0, back, g.End(), p);
    } else {
      LaidAppend(m, g.start, front, g.End(), p);
    }
  }

  /** What is left in memory after the oldest packet has been consumed. */
  lemma {:induction false} ConsumeLeaves(m: seq<byte>, g: Geo, g': Geo, front: seq<Packet>, back: seq<Packet>)
    returns (front': seq<Packet>, back': seq<Packet>)
    requires InMemory(m, g, front, back) && g.used > 0 && front != [] && g' == g.Consumed(Blocks(|front[0]|))
    ensures InMemory(m, g', front', back') && front' + back' == (front + back)[1..]
  {
    ConsumeFits(g, front, back);
    front', back' := FrontAfterConsume(front, back), BackAfterConsume(front, back);
    assert front[1..] + back == (front + back)[1..];
    RestLaid(m, g, front, back);
  }

  lemma {:induction false} RestLaid(m: seq<byte>, g: Geo, front: seq<Packet>, back: seq<Packet>)
    requires Fits(g, front, back) && front != [] && Laid(m, g.start, front) && Laid(m, 0, back)
    ensures Laid(m, g.Consumed(Blocks(|front[0]|)).start, FrontAfterConsume(front, back))
    ensures Laid(m, 0, BackAfterConsume(front, back))
  {
    SpanOfRest(front);
  }

  /** Blocks are used exactly when packets are stored, and then the oldest one is at the start. */
  lemma {:induction false} UsedIffPackets(m: seq<byte>, g: Geo, front: seq<Packet>, back: seq<Packet>)
    requires InMemory(m, g, front, back)
    ensures g.used > 0 <==> front + back != []
    ensures g.used > 0 ==> front != [] && PacketAt(m, g.start, (front + back)[0]) && ReadInt(m, BLOCK * g.start) == |(front + back)[0]|
  {
    if front == [] {
      assert Span(front) == 0;
    } else {
      SpanOfRest(front);
    }
  }

  lemma {:induction false} InputBounds(g: Geo, front: seq<Packet>, back: seq<Packet>, len: nat)
    requires Fits(g, front, back) && g.Offers() && len <= g.Avail()
    ensures 0 <= g.End() && BLOCK * (g.End() + 1) + len <= BLOCK * g.size
  {}

  /** Bytes written where the input view points do not disturb what is stored. */
  lemma {:induction false} InputRegionFree(m: seq<byte>, m': seq<byte>, g: Geo, front: seq<Packet>, back: seq<Packet>, len: nat)
    requires InMemory(m, g, front, back) && g.Offers() && len <= g.Avail() && |m| == |m'|
    requires forall i :: 0 <= i < |m| && !(BLOCK * (g.End() + 1) <= i < BLOCK * (g.End() + 1) + len) ==> m[i] == m'[i]
    ensures 0 <= g.End() && BLOCK * (g.End() + 1) + len <= |m| && InMemory(m', g, front, back)
  {
    LaidFrame(m, m', g.start, front);
    LaidFrame(m, m', 0, back);
  }

  // ---------------------------------------------------------------- capacity

  /** ChunkBuffer2_calc_blocks, with the range checks of the C int; -1 stands for failure. */
  function CalcBlocks(chunkLen: nat, num: nat): (blocks: int)
    requires chunkLen <= INT_MAX && num <= INT_MAX
    ensures (1 + Blocks(chunkLen)) * (num + 1) <= INT_MAX ==> blocks == (1 + Blocks(chunkLen)) * (num + 1)
    ensures (1 + Blocks(chunkLen)) * (num + 1) > INT_MAX ==> blocks == -1
  {
    var chunkDataBlocks := Blocks(chunkLen);
    if chunkDataBlocks > INT_MAX - 1 then -1
    else
      var chunkBlocks := 1 + chunkDataBlocks;
      if num > INT_MAX - 1 then LargeNum(chunkBlocks, num); -1
      else
        var numChunks := num + 1;
        QuotientCheck(chunkBlocks, numChunks);
        if chunkBlocks > INT_MAX / numChunks then -1 else chunkBlocks * numChunks
  }

  lemma {:induction false} LargeNum(a: int, num: int)
    requires a >= 1 && num >= INT_MAX
    ensures a * (num + 1) > INT_MAX
  {
    assert a * (num + 1) >= num + 1;
  }

  /** The division check is exactly an overflow check of the product. */
  lemma {:induction false} QuotientCheck(a: int, n: int)
    requires a >= 1 && n >= 1
    ensures a > INT_MAX / n <==> a * n > INT_MAX
  {
    var q, r := INT_MAX / n, INT_MAX % n;
    assert INT_MAX == n * q + r && 0 <= r < n;
    if a > q {
      assert a * n >= (q + 1) * n == n * q + n;
    } else {
      assert a * n <= q * n;
    }
  }

  lemma {:induction false} SpanBound(ps: seq<Packet>, len: nat)
    requires forall i :: 0 <= i < |ps| ==> |ps[i]| <= len
    ensures Span(ps) <= |ps| * (1 + Blocks(len))
  {
    if ps != [] {
      SpanBound(ps[1..], len);
      BlocksMonotone(|ps[0]|, len);
      assert |ps| * (1 + Blocks(len)) == (1 + Blocks(len)) + (|ps| - 1) * (1 + Blocks(len));
    }
  }

  /**
   With the computed number of blocks there is room for a packet of maximum length whenever
   fewer than `num` packets are stored.
   */
  lemma {:induction false} Capacity(g: Geo, front: seq<Packet>, back: seq<Packet>, len: nat, num: nat)
    requires Fits(g, front, back) && g.mtu == Blocks(len) && g.size == (1 + Blocks(len)) * (num + 1)
    requires forall i :: 0 <= i < |front + back| ==> |(front + back)[i]| <= len
    requires |front + back| < num
    ensures g.Offers() && len <= g.Avail()
  {
    SpareBlocks(|front + back|, num, 1 + Blocks(len));
    SpanConcat(front, back);
    SpanBound(front + back, len);
    EnoughFree(g, front, back);
    BlocksCover(len);
  }

  /** Fewer than `num` chunks of `c` blocks leave at least two of `num + 1`. */
  lemma {:induction false} SpareBlocks(k: nat, num: nat, c: nat)
    requires k < num
    ensures k * c + 2 * c <= c * (num + 1)
  {
    if k + 1 < num {
      SpareBlocks(k, num - 1, c);
      assert c * (num + 1) == c * num + c;
    } else {
      assert c * (k + 2) == c * k + c * 2;
    }
  }

  lemma {:induction false} EnoughFree(g: Geo, front: seq<Packet>, back: seq<Packet>)
    requires Fits(g, front, back) && Span(front) + Span(back) + 2 * (1 + g.mtu) <= g.size
    ensures g.Offers() && g.mtu * BLOCK <= g.Avail()
  {
    RoomBehindEnd(g, front, back);
  }
}
