/** The stream format of protocol/packetproto.h: a 16-bit little-endian length and the payload. */
module PacketProto {
  import opened Basics

  const MAX_PAYLOAD := 0xFFFF
  const HEADER := 2

  /** htol16 and ltoh16 on the two header bytes. */
  function Length(s: seq<byte>): int
    requires |s| >= HEADER
  {
    s[0] as int + 0x100 * (s[1] as int)
  }

  function Header(len: int): seq<byte>
    requires 0 <= len <= MAX_PAYLOAD
  {
    [len % 0x100, len / 0x100]
  }

  function Encode(p: Packet): seq<byte>
    requires |p| <= MAX_PAYLOAD
  {
    Header(|p|) + p
  }

  ghost predicate AllFit(ps: seq<Packet>, mtu: int) {
    forall i :: 0 <= i < |ps| ==> |ps[i]| <= mtu
  }

  /** The bytes of a sequence of packets on the stream. */
  ghost function EncodeAll(ps: seq<Packet>): seq<byte>
    requires AllFit(ps, MAX_PAYLOAD)
  {
    if ps == [] then [] else Encode(ps[0]) + EncodeAll(ps[1..])
  }

  /** What can be said about the bytes received and not yet passed on. */
  datatype Verdict = More | Ready(packet: Packet, rest: seq<byte>) | TooLarge

  function Inspect(mtu: int, s: seq<byte>): Verdict {
    if |s| < HEADER then More
    else if Length(s) > mtu then TooLarge
    else if |s| - HEADER < Length(s) then More
    else Ready(s[HEADER..HEADER + Length(s)], s[HEADER + Length(s)..])
  }

  /** A received packet, put back in front of what follows it, is what was received. */
  lemma {:induction false} ReadyIsEncoded(mtu: int, s: seq<byte>)
    requires Inspect(mtu, s).Ready? && mtu <= MAX_PAYLOAD
    ensures var r := Inspect(mtu, s); |r.packet| <= mtu && s == Encode(r.packet) + r.rest
  {
    var r := Inspect(mtu, s);
    assert s[..HEADER] == Header(Length(s));
    assert s == s[..HEADER] + r.packet + r.rest;
  }

  /** A whole packet at the front is recognised, whatever follows. */
  lemma {:induction false} EncodedIsReady(mtu: int, p: Packet, rest: seq<byte>)
    requires |p| <= mtu <= MAX_PAYLOAD
    ensures Inspect(mtu, Encode(p) + rest) == Ready(p, rest)
  {
    var s := Encode(p) + rest;
    assert Length(s) == |p|;
    assert s[HEADER..HEADER + |p|] == p && s[HEADER + |p|..] == rest;
  }

  /** A proper prefix of an encoded packet is never an error and never a packet. */
  lemma {:induction false} PrefixNeedsMore(mtu: int, p: Packet, s: seq<byte>)
    requires |p| <= mtu <= MAX_PAYLOAD && s < Encode(p)
    ensures Inspect(mtu, s) == More
  {
    if |s| >= HEADER {
      assert s[0] == Encode(p)[0] && s[1] == Encode(p)[1];
    }
  }

  lemma {:induction false} EncodeAllConcat(ps: seq<Packet>, qs: seq<Packet>)
    requires AllFit(ps, MAX_PAYLOAD) && AllFit(qs, MAX_PAYLOAD)
    ensures EncodeAll(ps + qs) == EncodeAll(ps) + EncodeAll(qs)
  {
    if ps == [] {
      assert ps + qs == qs;
    } else {
      EncodeAllConcat(ps[1..], qs);
      assert (ps + qs)[1..] == ps[1..] + qs && (ps + qs)[0] == ps[0];
      assert Encode(ps[0]) + (EncodeAll(ps[1..]) + EncodeAll(qs)) == EncodeAll(ps) + EncodeAll(qs);
    }
  }

  /** Streams are uniquely decodable: whole packets in front of a stream are its first packets. */
  lemma {:induction false} UniquelyDecodable(ps: seq<Packet>, emitted: seq<Packet>, pending: seq<byte>)
    requires AllFit(ps, MAX_PAYLOAD) && AllFit(emitted, MAX_PAYLOAD)
    requires EncodeAll(emitted) + pending <= EncodeAll(ps)
    ensures emitted <= ps && pending <= EncodeAll(ps[|emitted|..])
  {
    if emitted != [] {
      var p := emitted[0];
      var s := EncodeAll(emitted) + pending;
      assert s == Encode(p) + (EncodeAll(emitted[1..]) + pending);
      var all := EncodeAll(ps);
      assert all[0] == s[0] && all[1] == s[1];
      SameHeader(p, ps[0], EncodeAll(emitted[1..]) + pending, EncodeAll(ps[1..]));
      UniquelyDecodable(ps[1..], emitted[1..], pending);
      assert ps[1..][|emitted| - 1..] == ps[|emitted|..];
    }
  }

  lemma {:induction false} SameHeader(p: Packet, q: Packet, s: seq<byte>, t: seq<byte>)
    requires |p| <= MAX_PAYLOAD && |q| <= MAX_PAYLOAD && Encode(p) + s <= Encode(q) + t
    ensures p == q && s <= t
  {
    var a, b := Encode(p) + s, Encode(q) + t;
    assert a[0] == b[0] && a[1] == b[1];
    assert Length(a) == |p| && Length(b) == |q|;
    assert p == a[HEADER..HEADER + |p|] == b[HEADER..HEADER + |q|] == q;
    assert s == a[HEADER + |p|..] && t == b[HEADER + |q|..];
  }

  /**
   The round trip, whatever the fragmentation: as long as what has been received is a prefix of
   the encoded packets, the packets passed on are the first of them and there is no error; and
   when everything has been received and no more can be passed on, all of them have been.
   */
  lemma {:induction false} RoundTrip(mtu: int, ps: seq<Packet>, received: seq<byte>, emitted: seq<Packet>, pending: seq<byte>)
    requires 0 <= mtu <= MAX_PAYLOAD && AllFit(ps, mtu) && AllFit(emitted, mtu)
    requires received <= EncodeAll(ps) && received == EncodeAll(emitted) + pending
    ensures emitted <= ps && Inspect(mtu, pending) != TooLarge
    ensures Inspect(mtu, pending).Ready? ==> emitted + [Inspect(mtu, pending).packet] <= ps
    ensures received == EncodeAll(ps) && Inspect(mtu, pending).More? ==> emitted == ps && pending == []
  {
    UniquelyDecodable(ps, emitted, pending);
    var left := ps[|emitted|..];
    assert emitted + left == ps;
    EncodeAllConcat(emitted, left);
    if left == [] {
      assert pending == [];
    } else {
      var first, tail := Encode(left[0]), EncodeAll(left[1..]);
      if |pending| < |first| {
        assert pending == (first + tail)[..|pending|] == first[..|pending|];
        PrefixNeedsMore(mtu, left[0], pending);
      } else {
        assert pending == first + pending[|first|..];
        EncodedIsReady(mtu, left[0], pending[|first|..]);
      }
    }
  }

  // ---------------------------------------------------------------- the decoder as a state machine

  /** The bytes not yet passed on, and whether a packet is being sent. */
  datatype Decoder = Decoder(pending: seq<byte>, sending: bool)

  datatype Output = Nothing | Emit(packet: Packet) | Error

  datatype Event =
    | Recv(data: seq<byte>)  // the stream delivered some bytes
    | Sent                   // the output took the packet

  /** process_data: pass on a packet, ask for more, or drop everything on an error. */
  function Process(mtu: int, pending: seq<byte>): (Decoder, Output) {
    match Inspect(mtu, pending)
    case More => (Decoder(pending, false), Nothing)
    case Ready(p, rest) => (Decoder(rest, true), Emit(p))
    case TooLarge => (Decoder([], false), Error)
  }

  /** Data comes only while no packet is being sent, and never empty. */
  predicate Enabled(d: Decoder, e: Event) {
    if e.Recv? then !d.sending && e.data != [] else d.sending
  }

  function Step(mtu: int, d: Decoder, e: Event): (Decoder, Output) {
    if e.Recv? then Process(mtu, d.pending + e.data) else Process(mtu, d.pending)
  }

  /** A run of the decoder: everything received, everything passed on, the last state. */
  datatype Run = Run(received: seq<byte>, emitted: seq<Packet>, errors: nat, last: Decoder)

  const START := Run([], [], 0, Decoder([], false))

  ghost function Extend(mtu: int, r: Run, e: Event): Run {
    var (d, out) := Step(mtu, r.last, e);
    Run(if e.Recv? then r.received + e.data else r.received,
        if out.Emit? then r.emitted + [out.packet] else r.emitted,
        if out.Error? then r.errors + 1 else r.errors, d)
  }

  ghost function RunOf(mtu: int, events: seq<Event>): Run {
    if events == [] then START else Extend(mtu, RunOf(mtu, events[..|events| - 1]), events[|events| - 1])
  }

  ghost predicate ValidRun(mtu: int, events: seq<Event>) {
    forall i :: 0 <= i < |events| ==> Enabled(RunOf(mtu, events[..i]).last, events[i])
  }

  /** Without an error nothing is lost, duplicated or reordered, and a pause means nothing is ready. */
  ghost predicate Faithful(mtu: int, r: Run) {
    && AllFit(r.emitted, mtu) && AllFit(r.emitted, MAX_PAYLOAD)
    && r.received == EncodeAll(r.emitted) + r.last.pending
    && (!r.last.sending ==> Inspect(mtu, r.last.pending).More?)
  }

  lemma {:induction false} EmitFaithful(emitted: seq<Packet>, p: Packet, rest: seq<byte>)
    requires AllFit(emitted, MAX_PAYLOAD) && |p| <= MAX_PAYLOAD
    ensures AllFit(emitted + [p], MAX_PAYLOAD)
    ensures EncodeAll(emitted) + (Encode(p) + rest) == EncodeAll(emitted + [p]) + rest
  {
    var one: seq<Packet> := [p];
    EncodeAllConcat(emitted, one);
    assert one[1..] == [] && EncodeAll(one) == Encode(p) + [];
  }

  /** A step on the bytes `s` keeps a run faithful if it is not an error. */
  lemma {:induction false} ProcessFaithful(mtu: int, received: seq<byte>, emitted: seq<Packet>, s: seq<byte>)
    requires 0 <= mtu <= MAX_PAYLOAD && AllFit(emitted, mtu) && AllFit(emitted, MAX_PAYLOAD)
    requires received == EncodeAll(emitted) + s && !Inspect(mtu, s).TooLarge?
    ensures var (d, out) := Process(mtu, s);
            Faithful(mtu, Run(received, if out.Emit? then emitted + [out.packet] else emitted, 0, d))
  {
    var v := Inspect(mtu, s);
    if v.Ready? {
      ReadyIsEncoded(mtu, s);
      EmitFaithful(emitted, v.packet, v.rest);
    }
  }

  lemma {:induction false} ExtendFaithful(mtu: int, r: Run, e: Event)
    requires 0 <= mtu <= MAX_PAYLOAD && Faithful(mtu, r)
    requires Extend(mtu, r, e).errors == r.errors
    ensures Faithful(mtu, Extend(mtu, r, e))
  {
    var s := if e.Recv? then r.last.pending + e.data else r.last.pending;
    var received := if e.Recv? then r.received + e.data else r.received;
    assert received == EncodeAll(r.emitted) + s;
    ProcessFaithful(mtu, received, r.emitted, s);
  }

  /**
   For every packet sequence within the MTU and every way of delivering its encoding in
   non-empty pieces: the decoder never reports an error, what it has passed on so far is a
   prefix, and once everything is delivered and nothing is being sent it has passed on all of it.
   */
  lemma {:induction false} DecoderRoundTrip(mtu: int, ps: seq<Packet>, events: seq<Event>)
    requires 0 <= mtu <= MAX_PAYLOAD && AllFit(ps, mtu)
    requires ValidRun(mtu, events) && RunOf(mtu, events).received <= EncodeAll(ps)
    ensures var r := RunOf(mtu, events);
            && r.errors == 0 && r.emitted <= ps && Faithful(mtu, r)
            && (r.received == EncodeAll(ps) && !r.last.sending ==> r.emitted == ps && r.last.pending == [])
  {
    var n, r := |events|, RunOf(mtu, events);
    if n > 0 {
      ValidPrefix(mtu, events);
      DecoderRoundTrip(mtu, ps, events[..n - 1]);
      StepRoundTrip(mtu, ps, RunOf(mtu, events[..n - 1]), events[n - 1]);
    }
    RoundTrip(mtu, ps, r.received, r.emitted, r.last.pending);
  }

  lemma {:induction false} StepRoundTrip(mtu: int, ps: seq<Packet>, r: Run, e: Event)
    requires 0 <= mtu <= MAX_PAYLOAD && AllFit(ps, mtu) && Faithful(mtu, r) && Extend(mtu, r, e).received <= EncodeAll(ps)
    ensures Extend(mtu, r, e).errors == r.errors && Faithful(mtu, Extend(mtu, r, e))
  {
    var s := if e.Recv? then r.last.pending + e.data else r.last.pending;
    var received := Extend(mtu, r, e).received;
    assert received == EncodeAll(r.emitted) + s;
    RoundTrip(mtu, ps, received, r.emitted, s);
    ExtendFaithful(mtu, r, e);
  }

  // ---------------------------------------------------------------- any stream

  /** The packets of a stream up to where it needs more or has a length above the MTU, and the rest. */
  datatype Reading = Reading(packets: seq<Packet>, rest: seq<byte>)

  function Read(mtu: int, s: seq<byte>): Reading
    decreases |s|
  {
    match Inspect(mtu, s)
    case Ready(p, rest) => var r := Read(mtu, rest); Reading([p] + r.packets, r.rest)
    case _ => Reading([], s)
  }

  lemma {:induction false} ReadOne(mtu: int, p: Packet, t: seq<byte>, s: seq<byte>, r: Reading)
    requires |p| <= mtu <= MAX_PAYLOAD && s == Encode(p) + t && r == Read(mtu, t)
    ensures Read(mtu, s) == Reading([p] + r.packets, r.rest)
  {
    EncodedIsReady(mtu, p, t);
  }

  lemma {:induction false} EncodedFirst(ps: seq<Packet>, s: seq<byte>)
    requires AllFit(ps, MAX_PAYLOAD) && ps != []
    ensures EncodeAll(ps) + s == Encode(ps[0]) + (EncodeAll(ps[1..]) + s)
  {}

  /** Packets within the MTU at the front of a stream are its first packets. */
  lemma {:induction false} ReadAfter(mtu: int, ps: seq<Packet>, s: seq<byte>, r: Reading) returns (all: Reading)
    requires 0 <= mtu <= MAX_PAYLOAD && AllFit(ps, mtu) && AllFit(ps, MAX_PAYLOAD) && r == Read(mtu, s)
    ensures all == Read(mtu, EncodeAll(ps) + s) && all == Reading(ps + r.packets, r.rest)
  {
    if ps == [] {
      assert EncodeAll(ps) + s == s && ps + r.packets == r.packets;
      all := r;
    } else {
      all := ReadAfter(mtu, ps[1..], s, r);
      EncodedFirst(ps, s);
      ReadOne(mtu, ps[0], EncodeAll(ps[1..]) + s, EncodeAll(ps) + s, all);
      all := Reading([ps[0]] + all.packets, all.rest);
      FirstAndRest(ps, r.packets);
    }
  }

  lemma {:induction false} ReadUpTo(mtu: int, ps: seq<Packet>, s: seq<byte>)
    requires 0 <= mtu <= MAX_PAYLOAD && AllFit(ps, mtu) && AllFit(ps, MAX_PAYLOAD) && !Inspect(mtu, s).Ready?
    ensures Read(mtu, EncodeAll(ps) + s) == Reading(ps, s)
  {
    var all := ReadAfter(mtu, ps, s, Reading([], s));
    assert ps + [] == ps;
  }

  /** As long as there is no error, what was received is what was passed on and what is pending. */
  lemma {:induction false} FaithfulUntilError(mtu: int, events: seq<Event>)
    requires 0 <= mtu <= MAX_PAYLOAD && RunOf(mtu, events).errors == 0
    ensures Faithful(mtu, RunOf(mtu, events))
  {
    if events != [] {
      var n := |events| - 1;
      FaithfulUntilError(mtu, events[..n]);
      ExtendFaithful(mtu, RunOf(mtu, events[..n]), events[n]);
    }
  }

  /** The step that reports the first error does so at a length above the MTU behind all packets passed on. */
  lemma {:induction false} FirstError(mtu: int, r: Run, e: Event)
    requires 0 <= mtu <= MAX_PAYLOAD && Faithful(mtu, r) && Extend(mtu, r, e).errors != r.errors
    ensures var r' := Extend(mtu, r, e);
            && r'.emitted == r.emitted == Read(mtu, r'.received).packets && Inspect(mtu, Read(mtu, r'.received).rest).TooLarge?
            && !r'.last.sending
  {
    var s := if e.Recv? then r.last.pending + e.data else r.last.pending;
    assert Extend(mtu, r, e).received == EncodeAll(r.emitted) + s;
    ReadUpTo(mtu, r.emitted, s);
  }

  /**
   For every stream, whatever its bytes and its pieces, up to and including the first error: the
   decoder passes on the packets the stream starts with, and when it pauses it has passed on all
   of them and has reported the error exactly if a length above the MTU follows.
   */
  lemma {:induction false} AnyStream(mtu: int, events: seq<Event>)
    requires 0 <= mtu <= MAX_PAYLOAD && (events != [] ==> RunOf(mtu, events[..|events| - 1]).errors == 0)
    ensures var r := RunOf(mtu, events);
            var stream := Read(mtu, r.received);
            && r.emitted <= stream.packets && r.errors <= 1
            && (r.errors == 1 ==> !r.last.sending)
            && (!r.last.sending ==> r.emitted == stream.packets && (r.errors == 1 <==> Inspect(mtu, stream.rest).TooLarge?))
  {
    var r := RunOf(mtu, events);
    if r.errors == 0 {
      FaithfulUntilError(mtu, events);
      var _ := ReadAfter(mtu, r.emitted, r.last.pending, Read(mtu, r.last.pending));
      if !r.last.sending {
        ReadUpTo(mtu, r.emitted, r.last.pending);
      }
    } else {
      var n := |events| - 1;
      FaithfulUntilError(mtu, events[..n]);
      FirstError(mtu, RunOf(mtu, events[..n]), events[n]);
    }
  }

  lemma {:induction false} ValidPrefix(mtu: int, events: seq<Event>)
    requires ValidRun(mtu, events) && events != []
    ensures ValidRun(mtu, events[..|events| - 1])
    ensures Enabled(RunOf(mtu, events[..|events| - 1]).last, events[|events| - 1])
    ensures RunOf(mtu, events[..|events| - 1]).received <= RunOf(mtu, events).received
  {
    var n := |events| - 1;
    forall i | 0 <= i < n ensures Enabled(RunOf(mtu, events[..n][..i]).last, events[..n][i]) {
      assert events[..n][..i] == events[..i];
    }
  }
}
