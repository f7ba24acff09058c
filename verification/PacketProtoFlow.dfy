/** The flow objects that speak PacketProto: encoder, stream sender and decoder. */
module PacketProtoFlow {
  import opened Basics
  import opened PacketProto

  /** flow/PacketProtoEncoder.c */
  class PacketProtoEncoder {
    const mtu: nat
    var outputPacket: array?<byte>
    /** Where the input was asked to put its packet, or -1 if no receive is outstanding. */
    var recvAt: int

    /** A receive is outstanding exactly while there is a packet to fill, right behind its header. */
    ghost predicate Valid()
      reads this
    {
      && mtu <= MAX_PAYLOAD && recvAt == (if outputPacket == null then -1 else HEADER)
      && (outputPacket != null ==> recvAt + mtu <= outputPacket.Length)
    }

    constructor (mtu: nat)
      requires mtu <= MAX_PAYLOAD
      ensures Valid() && outputPacket == null && this.mtu == mtu
    {
      this.mtu := mtu;
      outputPacket, recvAt := null, -1;
    }

    /** PacketRecvInterface_Receiver_Recv, which must not be called while a receive is outstanding. */
    method StartReceive(at: nat)
      requires recvAt == -1
      modifies this`recvAt
      ensures recvAt == at
    {
      recvAt := at;
    }

    /** output_handler_recv: the input is asked to put its packet behind the header. */
    method OutputHandlerRecv(data: array<byte>)
      requires Valid() && outputPacket == null && data.Length >= HEADER + mtu
      modifies this
      ensures Valid() && outputPacket == data && recvAt == HEADER && recvAt + mtu <= data.Length
    {
      outputPacket := data;
      StartReceive(HEADER);
    }

    /** input_handler_done: the packet of `inLen` bytes behind the header is completed in place. */
    method InputHandlerDone(inLen: nat) returns (outLen: nat)
      requires Valid() && outputPacket != null && inLen <= mtu
      modifies this, outputPacket
      ensures Valid() && outputPacket == null
      ensures var data := old(outputPacket);
              outLen == HEADER + inLen <= data.Length && data[..outLen] == Encode(old(outputPacket[recvAt..recvAt + inLen]))
      ensures var data := old(outputPacket);
              && data[0] as int + 0x100 * (data[1] as int) == inLen && data[2..2 + inLen] == old(outputPacket[2..2 + inLen])
    {
      var data := outputPacket;
      ghost var packet := data[HEADER..HEADER + inLen];
      data[0], data[1] := inLen % 0x100, inLen / 0x100;
      assert data[..HEADER] == Header(inLen) && data[HEADER..HEADER + inLen] == packet;
      outputPacket, recvAt := null, -1;
      outLen := HEADER + inLen;
    }
  }

  /** flow/PacketStreamSender.c: sends packets over a stream that may take them in pieces. */
  class PacketStreamSender {
    var inLen: int
    var input: seq<byte>
    var inUsed: int
    ghost var accepted: seq<byte>  // the bytes of all packets handed over so far
    ghost var sent: seq<byte>      // the bytes the stream has taken so far

    /** While a packet is being sent, a send of a positive number of bytes is outstanding. */
    ghost predicate Valid()
      reads this
    {
      if inLen == -1 then sent == accepted
      else 0 <= inUsed < inLen == |input| && sent + input[inUsed..] == accepted
    }

    constructor ()
      ensures Valid() && inLen == -1 && accepted == sent == []
    {
      inLen, input, inUsed := -1, [], 0;
      accepted, sent := [], [];
    }

    /** send_data; the packet is finished when all of it has been taken. */
    method SendData() returns (done: bool)
      requires 0 <= inUsed <= inLen == |input| && sent + input[inUsed..] == accepted
      modifies this`inLen
      ensures Valid() && done == (inUsed == old(inLen)) && inLen == if done then -1 else old(inLen)
    {
      if inUsed < inLen {
        done := false;
      } else {
        inLen := -1;
        done := true;
        assert input[inUsed..] == [];
      }
    }

    /** input_handler_send */
    method InputHandlerSend(data: seq<byte>) returns (done: bool)
      requires Valid() && inLen == -1
      modifies this
      ensures Valid() && accepted == old(accepted) + data && sent == old(sent) && done == (data == [])
      ensures inLen == if done then -1 else |data|
    {
      inLen := |data|;
      input := data;
      inUsed := 0;
      accepted := accepted + data;
      done := SendData();
    }

    /** output_handler_done: the stream took `n` of the offered bytes. */
    method OutputHandlerDone(n: nat) returns (done: bool)
      requires Valid() && inLen != -1 && 0 < n <= inLen - inUsed
      modifies this
      ensures Valid() && accepted == old(accepted) && sent == old(sent) + old(input)[old(inUsed)..old(inUsed) + n]
      ensures inLen == if done then -1 else old(inLen)
    {
      sent := sent + input[inUsed..inUsed + n];
      assert input[inUsed..] == input[inUsed..inUsed + n] + input[inUsed + n..];
      inUsed := inUsed + n;
      done := SendData();
    }
  }

  /** flow/PacketProtoDecoder.c */
  class PacketProtoDecoder {
    const outputMtu: nat
    const bufSize: nat
    const buf: array<byte>
    var bufStart: nat
    var bufUsed: nat
    var sending: bool  // a packet is outstanding at the output, otherwise a receive at the input

    ghost function Abs(): Decoder
      reads this, buf
      requires Shaped()
    {
      Decoder(buf[bufStart..bufStart + bufUsed], sending)
    }

    ghost predicate Shaped()
      reads this
    {
      && outputMtu <= MAX_PAYLOAD && bufSize == HEADER + outputMtu == buf.Length
      && bufStart + bufUsed <= bufSize
    }

    /** A receive is outstanding for a positive number of bytes that fit in the buffer. */
    ghost predicate Valid()
      reads this
    {
      Shaped() && (!sending ==> bufStart + bufUsed < bufSize)
    }

    /** PacketProtoDecoder_Init */
    constructor (outputMtu: nat)
      ensures Valid() && fresh(buf) && this.outputMtu == if outputMtu < MAX_PAYLOAD then outputMtu else MAX_PAYLOAD
      ensures Abs() == START.last
    {
      var m := if outputMtu < MAX_PAYLOAD then outputMtu else MAX_PAYLOAD;
      this.outputMtu := m;
      bufSize := HEADER + m;
      buf := new byte[HEADER + m];
      bufStart, bufUsed, sending := 0, 0, false;
    }

    /** memmove of the pending bytes to the start of the buffer. */
    method MoveToFront()
      requires Shaped()
      modifies this`bufStart, buf
      ensures Shaped() && bufStart == 0 && Abs() == old(Abs())
    {
      ghost var pending := buf[bufStart..bufStart + bufUsed];
      forall i | 0 <= i < bufUsed {
        buf[i] := buf[bufStart + i];
      }
      assert buf[..bufUsed] == pending;
      bufStart := 0;
    }

    /** process_data */
    method ProcessData() returns (out: Output)
      requires Shaped()
      modifies this, buf
      ensures Valid() && (Abs(), out) == old(Process(outputMtu, Abs().pending))
    {
      ghost var pending := buf[bufStart..bufStart + bufUsed];
      sending := false;
      if bufUsed >= HEADER {
        var dataLen := buf[bufStart] as int + 0x100 * (buf[bufStart + 1] as int);
        assert dataLen == Length(pending);
        if dataLen > outputMtu {
          bufStart, bufUsed := 0, 0;
          return Error;
        }
        if bufUsed - HEADER >= dataLen {
          var at := bufStart + HEADER;
          bufStart := bufStart + HEADER + dataLen;
          bufUsed := bufUsed - (HEADER + dataLen);
          sending := true;
          assert buf[at..at + dataLen] == pending[HEADER..HEADER + dataLen];
          return Emit(buf[at..at + dataLen]);
        }
      }
      if bufStart + bufUsed == bufSize {
        MoveToFront();
      }
      return Nothing;
    }

    /** input_handler_done: the stream put `data` behind the pending bytes. */
    method InputHandlerDone(data: seq<byte>) returns (out: Output)
      requires Valid() && !sending && 0 < |data| <= bufSize - (bufStart + bufUsed)
      modifies this, buf
      ensures Valid() && (Abs(), out) == old(Step(outputMtu, Abs(), Recv(data)))
    {
      ghost var pending := buf[bufStart..bufStart + bufUsed];
      var end := bufStart + bufUsed;
      forall i | 0 <= i < |data| {
        buf[end + i] := data[i];
      }
      bufUsed := bufUsed + |data|;
      assert buf[bufStart..bufStart + bufUsed] == pending + data;
      out := ProcessData();
    }

    /** output_handler_done: the output took the packet. */
    method OutputHandlerDone() returns (out: Output)
      requires Valid() && sending
      modifies this, buf
      ensures Valid() && (Abs(), out) == old(Step(outputMtu, Abs(), Sent))
    {
      out := ProcessData();
    }

    /** PacketProtoDecoder_Reset: the next byte starts a new stream; an outstanding receive is not disturbed. */
    method Reset()
      requires Valid()
      modifies this
      ensures Valid() && Abs() == Decoder([], old(sending)) && bufStart + bufUsed == old(bufStart + bufUsed)
    {
      bufStart := bufStart + bufUsed;
      bufUsed := 0;
    }
  }
}
