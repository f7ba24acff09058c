/** flow/PacketBuffer.c: a buffer between a packet receiver and a packet sender. */
module PacketBuffer {
  import opened Basics
  import opened ChunkLayout
  import opened ChunkGeometry
  import CB = ChunkBuffer2

  class PacketBuffer {
    const buf: CB.ChunkBuffer2
    const inputMtu: nat
    const numPackets: nat
    // whether an operation is outstanding on the input and on the output interface
    var recvPending: bool
    var sendPending: bool
    ghost var received: seq<Packet>
    ghost var delivered: seq<Packet>

    ghost predicate Sized()
      reads buf
    {
      && 0 < numPackets
      && buf.mtu == Blocks(inputMtu) && buf.size == (1 + Blocks(inputMtu)) * (numPackets + 1)
      && forall i :: 0 <= i < |buf.Packets()| ==> |buf.Packets()[i]| <= inputMtu
    }

    /**
     A receive is outstanding exactly when a packet of maximum length fits, a send exactly when
     something is stored, and what has come in is what has gone out and what is stored.
     */
    ghost predicate Valid()
      reads this, buf, buf.buffer
    {
      && buf.Valid() && Sized()
      && (recvPending <==> buf.inputAvail >= inputMtu)
      && (sendPending <==> buf.Packets() != [])
      && received == delivered + buf.Packets()
    }

    /** PacketRecvInterface_Receiver_Recv, which must not be called while a receive is outstanding. */
    method StartReceive()
      requires !recvPending
      modifies this`recvPending
      ensures recvPending
    {
      recvPending := true;
    }

    /** PacketPassInterface_Sender_Send, which must not be called while a send is outstanding. */
    method StartSend()
      requires !sendPending
      modifies this`sendPending
      ensures sendPending
    {
      sendPending := true;
    }

    /** Fewer packets than the buffer was made for always leave room for another one. */
    lemma RoomWhenNotFull()
      requires buf.Valid() && Sized() && |buf.Packets()| < numPackets
      ensures inputMtu <= buf.inputAvail && buf.inputDest != -1
    {
      Capacity(buf.Geometry(), buf.front, buf.back, inputMtu, numPackets);
    }

    /** PacketBuffer_Init once the number of blocks is known. */
    constructor (inputMtu: nat, numPackets: nat, blocks: int)
      requires 0 < blocks <= INT_MAX && 0 < numPackets && blocks == (1 + Blocks(inputMtu)) * (numPackets + 1)
      ensures (buf.InputCurrent() <==> BLOCK * (blocks - 1) <= INT_MAX) && (buf.InputCurrent() ==> Valid())
      ensures received == delivered == [] && fresh(buf) && fresh(buf.buffer) && recvPending && !sendPending
      ensures this.inputMtu == inputMtu && this.numPackets == numPackets
    {
      buf := new CB.ChunkBuffer2(blocks, inputMtu);
      this.inputMtu, this.numPackets := inputMtu, numPackets;
      recvPending, sendPending := false, false;
      received, delivered := [], [];
      new;
      ManyBlocks(inputMtu, numPackets, blocks);
      if BLOCK * (blocks - 1) <= INT_MAX {
        RoomWhenNotFull();
      }
      StartReceive();
    }

    static lemma ManyBlocks(inputMtu: nat, numPackets: nat, blocks: int)
      requires blocks == (1 + Blocks(inputMtu)) * (numPackets + 1)
      ensures Blocks(inputMtu) <= blocks - 1
    {
      assert (1 + Blocks(inputMtu)) * (numPackets + 1) == (1 + Blocks(inputMtu)) * numPackets + (1 + Blocks(inputMtu));
    }

    /**
     PacketBuffer_Init: it fails exactly when the number of blocks does not fit in an int or they
     are not allocated. The input view is right, and then everything is, exactly if the bytes
     behind the first length block can be counted in an int.
     */
    static method Init(inputMtu: nat, numPackets: nat, reserved: bool) returns (b: PacketBuffer?)
      requires inputMtu <= INT_MAX && 0 < numPackets <= INT_MAX
      ensures var blocks := (1 + Blocks(inputMtu)) * (numPackets + 1);
              && (b == null <==> blocks > INT_MAX || !reserved)
              && (b != null ==> (b.buf.InputCurrent() <==> BLOCK * (blocks - 1) <= INT_MAX) && (b.buf.InputCurrent() ==> b.Valid()))
      ensures b != null ==> fresh(b) && fresh(b.buf) && fresh(b.buf.buffer) && b.received == b.delivered == []
      ensures b != null ==> b.recvPending && !b.sendPending && b.inputMtu == inputMtu && b.numPackets == numPackets
    {
      var blocks := CalcBlocks(inputMtu, numPackets);
      if blocks < 0 || !reserved {
        return null;
      }
      assert (1 + Blocks(inputMtu)) * (numPackets + 1) >= 1;
      b := new PacketBuffer(inputMtu, numPackets, blocks);
    }

    /** The packet in the input view is stored and recorded. */
    method StoreReceived(data: Packet)
      requires buf.Valid() && Sized() && received == delivered + buf.Packets()
      requires buf.inputDest != -1 && |data| <= buf.inputAvail && |data| <= inputMtu
      modifies this`received, buf, buf.buffer
      ensures buf.Valid() && Sized() && buf.Packets() == old(buf.Packets()) + [data]
      ensures received == old(received) + [data]
    {
      buf.Fill(data);
      buf.SubmitPacket(|data|);
      received := received + [data];
    }

    /** input_handler_done: the outstanding receive has put `data` into the input view. */
    method InputHandlerDone(data: Packet)
      requires Valid() && recvPending && |data| <= inputMtu
      modifies this, buf, buf.buffer
      ensures Valid() && received == old(received) + [data] && delivered == old(delivered)
    {
      OutputTells();
      var wasEmpty := buf.outputAvail < 0;
      StoreReceived(data);
      recvPending := false;
      Resume(buf.inputAvail >= inputMtu, wasEmpty);
    }

    /** Starts the operations that can go on. */
    method Resume(receive: bool, send: bool)
      requires buf.Valid() && Sized() && received == delivered + buf.Packets()
      requires (receive ==> !recvPending) && (recvPending || receive <==> buf.inputAvail >= inputMtu)
      requires (send ==> !sendPending) && (sendPending || send <==> buf.Packets() != [])
      modifies this`recvPending, this`sendPending
      ensures Valid() && recvPending == (old(recvPending) || receive)
    {
      if receive {
        StartReceive();
      }
      if send {
        StartSend();
      }
    }

    /** The bytes that were sent are recorded as delivered, and the oldest packet is removed. */
    method RemoveSent(ghost data: Packet)
      requires buf.Valid() && Sized() && received == delivered + buf.Packets() && buf.outputDest != -1
      requires buf.Packets() != [] && data == buf.Packets()[0]
      modifies this`delivered, buf
      ensures buf.Valid() && Sized() && delivered == old(delivered) + [data] && received == delivered + buf.Packets()
      ensures old(buf.inputDest) != -1 ==> buf.inputDest == old(buf.inputDest)
      ensures old(buf.inputAvail) <= buf.inputAvail
    {
      Handed(received, delivered, buf.Packets());
      buf.ConsumePacket();
      delivered := delivered + [data];
    }

    /** The first stored packet counts as delivered instead. */
    static lemma Handed(received: seq<Packet>, delivered: seq<Packet>, stored: seq<Packet>)
      requires received == delivered + stored && stored != []
      ensures received == delivered + [stored[0]] + stored[1..]
    {}

    /** The output view tells whether anything is stored. */
    lemma OutputTells()
      requires buf.Valid()
      ensures buf.outputAvail < 0 <==> buf.Packets() == []
    {}

    /** output_handler_done: the oldest packet has been sent. */
    method OutputHandlerDone()
      requires Valid() && sendPending
      modifies this, buf
      ensures Valid() && received == old(received)
      ensures delivered == old(delivered) + [old(buf.Output())]
      ensures old(recvPending) ==> recvPending && buf.inputDest == old(buf.inputDest) && old(buf.inputAvail) <= buf.inputAvail
    {
      var wasFull := buf.inputAvail < inputMtu;
      assert recvPending == !wasFull;
      RemoveSent(buf.Output());
      OutputTells();
      sendPending := false;
      Resume(wasFull && buf.inputAvail >= inputMtu, buf.outputAvail >= 0);
    }

    /** The buffer is never idle: it is always waiting for its input or for its output. */
    lemma NeverIdle()
      requires Valid()
      ensures recvPending || sendPending
      ensures |buf.Packets()| < numPackets ==> recvPending
      ensures delivered <= received
    {
      if |buf.Packets()| < numPackets {
        RoomWhenNotFull();
      }
    }
  }
}
