/** The circular packet buffer of structure/ChunkBuffer2.h. */
module ChunkBuffer2 {
  import opened Basics
  import opened ChunkLayout
  import opened ChunkGeometry

  class ChunkBuffer2 {
    const buffer: array<byte>
    const size: int
    const mtu: int
    var wrap: int
    var start: int
    var used: int
    // byte offsets into the buffer; -1 stands for the null pointer
    var inputDest: int
    var inputAvail: int
    var outputDest: int
    var outputAvail: int
    ghost var front: seq<Packet>
    ghost var back: seq<Packet>

    ghost function Geometry(): Geo
      reads this`wrap, this`start, this`used
    {
      Geo(size, wrap, start, used, mtu)
    }

    /** The stored packets, oldest first. */
    ghost function Packets(): seq<Packet>
      reads this`front, this`back
    {
      front + back
    }

    ghost predicate Stored()
      reads this`wrap, this`start, this`used, this`front, this`back, buffer
    {
      InMemory(buffer[..], Geometry(), front, back)
    }

    /** The input view as _ChunkBuffer2_assert_io checks it. */
    ghost predicate InputCurrent()
      reads this`wrap, this`start, this`used, this`inputDest, this`inputAvail
    {
      && inputAvail == Geometry().Avail()
      && inputDest == if Geometry().Offers() then BLOCK * (Geometry().End() + 1) else -1
    }

    /** The output view shows the oldest packet. */
    ghost predicate OutputCurrent()
      reads this`start, this`front, this`back, this`outputDest, this`outputAvail
    {
      if Packets() == [] then outputDest == -1 && outputAvail == -1
      else outputDest == BLOCK * (start + 1) && outputAvail == |Packets()[0]|
    }

    ghost predicate Valid()
      reads this, buffer
    {
      Stored() && InputCurrent() && OutputCurrent()
    }

    /** _ChunkBuffer2_update_input; the number of bytes is stored in an int. */
    method UpdateInput()
      modifies this`inputDest, this`inputAvail
      ensures inputDest == if Geometry().Offers() then BLOCK * (Geometry().End() + 1) else -1
      ensures inputAvail == if Geometry().Offers() then ToInt(Geometry().Avail()) else -1
      ensures Stored() ==> InputCurrent()
    {
      var end := if used >= wrap - start then used - (wrap - start) else start + used;
      if size - end - 1 < mtu {
        inputDest, inputAvail := -1, -1;
        return;
      }
      var free := if used >= wrap - start then start - end else size - end;
      if free > 0 {
        inputDest, inputAvail := BLOCK * (end + 1), ToInt((free - 1) * BLOCK);
      } else {
        inputDest, inputAvail := -1, -1;
      }
    }

    /** _ChunkBuffer2_update_output */
    method UpdateOutput()
      requires if used > 0 then Stored() else Packets() == []
      modifies this`outputDest, this`outputAvail
      ensures OutputCurrent()
    {
      if used > 0 {
        UsedIffPackets(buffer[..], Geometry(), front, back);
        var datalen := ReadInt(buffer[..], BLOCK * start);
        outputDest, outputAvail := BLOCK * (start + 1), datalen;
      } else {
        outputDest, outputAvail := -1, -1;
      }
    }

    /**
     ChunkBuffer2_Init. The input view is right exactly if it offers nothing or its length fits in
     an int, as _ChunkBuffer2_assert_io demands.
     */
    constructor (blocks: int, mtuBytes: nat)
      requires 0 < blocks <= INT_MAX
      ensures Packets() == [] && size == blocks && mtu == Blocks(mtuBytes) && fresh(buffer) && OutputCurrent()
      ensures InputCurrent() <==> blocks - 1 < mtu || BLOCK * (blocks - 1) <= INT_MAX
      ensures BLOCK * (blocks - 1) <= INT_MAX ==> Valid()
    {
      buffer := new byte[BLOCK * blocks];
      size, wrap, start, used := blocks, blocks, 0, 0;
      mtu := Blocks(mtuBytes);
      front, back := [], [];
      inputDest, inputAvail, outputDest, outputAvail := -1, -1, -1, -1;
      new;
      UpdateInput();
      UpdateOutput();
    }

    /** Where a packet of `len` bytes in the input view lies. */
    lemma {:induction false} InputReady(len: nat)
      requires Stored() && InputCurrent() && inputDest != -1 && len <= inputAvail
      ensures Geometry().Offers() && len <= Geometry().Avail() && 0 <= Geometry().End()
      ensures inputDest == BLOCK * (Geometry().End() + 1) && inputDest + len <= buffer.Length
      ensures used == 0 <==> Packets() == []
    {
      InputBounds(Geometry(), front, back, len);
      UsedIffPackets(buffer[..], Geometry(), front, back);
    }

    /**
     The input view starts one block behind the newest packet and reaches to the oldest one, or to
     the end of the memory if the data has not wrapped; there is none exactly if no block is free.
     */
    lemma {:induction false} ViewIsAllThatIsFree()
      requires Valid() && mtu < size
      ensures var newestEnd := if back != [] || used >= wrap - start then Span(back) else start + Span(front);
              var freeEnd := if back != [] || used >= wrap - start then start else size;
              if inputDest == -1 then newestEnd == freeEnd
              else newestEnd < freeEnd && inputDest == BLOCK * (newestEnd + 1) && inputDest + inputAvail == BLOCK * freeEnd
    {
      RoomBehindEnd(Geometry(), front, back);
    }

    /** The first `len` bytes in the input view. */
    ghost function Input(len: nat): Packet
      requires Valid() && inputDest != -1 && len <= inputAvail
      reads this, buffer
    {
      InputReady(len);
      buffer[inputDest..inputDest + len]
    }

    /** The bytes in the output view: they are the oldest packet. */
    ghost function Output(): (p: Packet)
      requires Valid() && outputDest != -1
      reads this, buffer
      ensures Packets() != [] && p == Packets()[0]
    {
      OutputShowsFirst();
      buffer[outputDest..outputDest + outputAvail]
    }

    lemma {:induction false} OutputShowsFirst()
      requires Valid() && outputDest != -1
      ensures Packets() != [] && 0 <= outputDest <= outputDest + outputAvail <= buffer.Length
      ensures buffer[outputDest..outputDest + outputAvail] == Packets()[0]
    {
      UsedIffPackets(buffer[..], Geometry(), front, back);
      ghost var d, n := outputDest, outputAvail;
      assert buffer[..][d..d + n] == buffer[d..d + n];
    }

    /** The sender writes a packet into the input view; stored packets are not touched. */
    method Fill(data: Packet)
      requires Valid() && inputDest != -1 && |data| <= inputAvail
      modifies buffer
      ensures Valid() && Input(|data|) == data
    {
      InputBounds(Geometry(), front, back, |data|);
      ghost var m := buffer[..];
      WriteBytes(inputDest, data);
      InputRegionFree(m, buffer[..], Geometry(), front, back, |data|);
    }

    method WriteBytes(at: int, data: seq<byte>)
      requires 0 <= at && at + |data| <= buffer.Length
      modifies buffer
      ensures buffer[..] == old(buffer[..])[..at] + data + old(buffer[..])[at + |data|..]
    {
      forall i | 0 <= i < |data| {
        buffer[at + i] := data[i];
      }
    }

    /** The length block is written at the end and the used blocks grow. */
    method WriteHeader(len: nat)
      requires len <= INT_MAX && 0 <= Geometry().End() && BLOCK * (Geometry().End() + 1) <= buffer.Length
      modifies this`used, this`wrap, buffer
      ensures Geometry() == old(Geometry()).Submitted(Blocks(len))
      ensures used == old(used) + 1 + Blocks(len)
      ensures buffer[..] == Headed(old(buffer[..]), BLOCK * old(Geometry()).End(), len)
    {
      var end := if used >= wrap - start then used - (wrap - start) else start + used;
      WriteBytes(BLOCK * end, IntBytes(len));
      var blocklen := Blocks(len);
      used := used + 1 + blocklen;
      if used <= wrap - start && mtu > size - (end + 1 + blocklen) - 1 {
        wrap := end + 1 + blocklen;
      }
    }

    /** The first part of ChunkBuffer2_SubmitPacket, before the views are updated. */
    method StoreHeader(len: nat, ghost at: int, ghost p: Packet)
      requires Stored() && Geometry().Offers() && len <= Geometry().Avail() && 0 <= Geometry().End()
      requires at == BLOCK * (Geometry().End() + 1) && at + len <= buffer.Length && p == buffer[at..at + len]
      modifies this`used, this`wrap, this`front, this`back, buffer
      ensures Stored() && Packets() == old(Packets()) + [p] && used == old(used) + 1 + Blocks(len)
    {
      ghost var m, g := buffer[..], Geometry();
      assert m[at..at + len] == p;
      ghost var f, b := SubmitStores(m, Headed(m, BLOCK * g.End(), len), g, g.Submitted(Blocks(len)), front, back, at, p);
      WriteHeader(len);
      SetPackets(f, b);
    }

    /** The ghost record of the packets follows what is in memory. */
    ghost method SetPackets(f: seq<Packet>, b: seq<Packet>)
      requires InMemory(buffer[..], Geometry(), f, b)
      modifies this`front, this`back
      ensures Stored() && front == f && back == b
    {
      ghost var m := buffer[..];
      front, back := f, b;
      assert buffer[..] == m;
    }

    /** ChunkBuffer2_SubmitPacket: the bytes in the input view become the newest packet. */
    method SubmitPacket(len: nat)
      requires Valid() && inputDest != -1 && len <= inputAvail
      modifies this, buffer
      ensures Valid() && Packets() == old(Packets()) + [old(Input(len))]
    {
      InputReady(len);
      ghost var before, p := Packets(), Input(len);
      StoreHeader(len, inputDest, p);
      FirstKept(before, Packets(), p);
      UpdateViews(len);
    }

    static lemma FirstKept(before: seq<Packet>, after: seq<Packet>, p: Packet)
      requires after == before + [p]
      ensures after != [] && (before != [] ==> after[0] == before[0])
    {}

    /** The last part of ChunkBuffer2_SubmitPacket; a non-empty buffer keeps its output view. */
    method UpdateViews(len: nat)
      requires Stored() && (used != 1 + Blocks(len) ==> OutputCurrent())
      modifies this`inputDest, this`inputAvail, this`outputDest, this`outputAvail
      ensures Valid() && Packets() == old(Packets())
    {
      UpdateInput();
      if used == 1 + Blocks(len) {
        UpdateOutput();
      }
    }

    /** The block arithmetic of ChunkBuffer2_ConsumePacket. */
    method SkipFirst(blocklen: nat)
      modifies this`start, this`used, this`wrap
      ensures Geometry() == old(Geometry()).Consumed(blocklen)
    {
      start := start + 1 + blocklen;
      used := used - (1 + blocklen);
      if start == wrap {
        start := 0;
        wrap := size;
      }
    }

    /** The first part of ChunkBuffer2_ConsumePacket, before the views are updated. */
    method RemoveFirst()
      requires Stored() && used > 0
      modifies this`start, this`used, this`wrap, this`front, this`back
      ensures Stored() && old(Packets()) != [] && Packets() == old(Packets())[1..]
      ensures InputGrows(old(Geometry()), Geometry())
    {
      ghost var m, g := buffer[..], Geometry();
      UsedIffPackets(m, g, front, back);
      SkipFirst(Blocks(ReadInt(buffer[..], BLOCK * start)));
      ghost var g' := Geometry();
      ConsumeFits(g, front, back);
      ghost var f, b := ConsumeLeaves(m, g, g', front, back);
      assert buffer[..] == m;
      SetPackets(f, b);
    }

    /** The last part of ChunkBuffer2_ConsumePacket; an input view behind unwrapped data is still right. */
    method ShrinkViews(dataWrapped: bool, ghost g: Geo)
      requires Stored() && InputGrows(g, Geometry()) && dataWrapped == g.Wrapped()
      requires inputAvail == g.Avail() && inputDest == if g.Offers() then BLOCK * (g.End() + 1) else -1
      modifies this`inputDest, this`inputAvail, this`outputDest, this`outputAvail
      ensures Valid() && (old(inputDest) != -1 ==> inputDest == old(inputDest)) && old(inputAvail) <= inputAvail
    {
      if dataWrapped {
        UpdateInput();
      }
      UpdateOutput();
    }

    /** ChunkBuffer2_ConsumePacket: the oldest packet is removed. */
    method ConsumePacket()
      requires Valid() && outputDest != -1
      modifies this
      ensures Valid() && old(Packets()) != [] && Packets() == old(Packets())[1..]
      ensures old(inputDest) != -1 ==> inputDest == old(inputDest)
      ensures old(inputAvail) <= inputAvail
    {
      UsedIffPackets(buffer[..], Geometry(), front, back);
      ghost var g := Geometry();
      var dataWrapped := used >= wrap - start;
      RemoveFirst();
      ShrinkViews(dataWrapped, g);
    }
  }
}
