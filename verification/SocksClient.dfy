/**
 The SOCKS5 client of measurement_proxy/tun2socks/socksclient/BSocksClient.c. Its handlers are
 called when the connection is made, when a message was sent and when bytes were received, in
 pieces of any size.
 */
module SocksClient {
  import opened SocksSpec
  import SocksGrammar

  datatype Phase =
    | Connecting | SendingHello | SentHello | SendingPassword | SentPassword
    | SendingRequest | SentRequest | ReceivedReplyHeader | Up
    | Failed  // the server said something wrong
    | Lost    // the connection failed, or memory ran out

  datatype Event = EventUp | EventError | EventErrorClosed

  predicate IsSending(p: Phase) {
    p == SendingHello || p == SendingPassword || p == SendingRequest
  }

  predicate IsReceiving(p: Phase) {
    p == SentHello || p == SentPassword || p == SentRequest || p == ReceivedReplyHeader
  }

  predicate InDialogue(p: Phase) {
    p != Connecting && p != Lost
  }

  // ---------------------------------------------------------------- what the state means

  /** How many bytes belong to earlier messages. */
  function Earlier(p: Phase, received: Bytes): nat {
    if p == SentHello || |received| < 2 then 0 else if p == SentPassword then 2 else AuthLen(received)
  }

  /** What the server must have said before the phase. */
  ghost predicate Reached(c: Config, p: Phase, received: Bytes) {
    match p
    case SendingHello => received == []
    case SentHello => true
    case SendingPassword => |received| == 2 && GoodHello(c, received) && AuthLen(received) == 4
    case SentPassword => |received| >= 2 && GoodHello(c, received[..2]) && AuthLen(received) == 4
    case SendingRequest => Authenticated(c, received)
    case SentRequest =>
      |received| >= 2 && |received| >= AuthLen(received) && Authenticated(c, received[..AuthLen(received)])
    case ReceivedReplyHeader =>
      && |received| >= 2 && |received| >= AuthLen(received) + 4 && Authenticated(c, received[..AuthLen(received)])
      && GoodHeader(received[AuthLen(received)..AuthLen(received) + 4])
    case Up => VerdictOn(c, received) == Accepted(|received|)
    case Failed => VerdictOn(c, received) == Rejected(|received|)
    case _ => true
  }

  /** How long the message is that is being received, and where its part in the buffer starts. */
  function Expected(p: Phase, received: Bytes): (nat, nat) {
    match p
    case SentHello => (0, 2)
    case SentPassword => (0, 2)
    case SentRequest => (0, 4)
    case ReceivedReplyHeader => (4, if |received| >= 2 && |received| >= AuthLen(received) + 4 then AddrLen(received[AuthLen(received) + 3]) else 0)
    case _ => (0, 0)
  }

  /** The buffer holds what was received of the current message, and has room for the rest. */
  ghost predicate Buffered(p: Phase, received: Bytes, buf: Bytes, dest: nat, len: nat, total: nat) {
    && Expected(p, received) == (dest, total) && dest + total <= |buf| && len <= total
    && |received| == Earlier(p, received) + dest + len && received[Earlier(p, received)..] == buf[..dest + len]
  }

  /** The events that were reported. */
  ghost predicate Reported(p: Phase, events: seq<Event>) {
    match p
    case Up => events == [EventUp]
    case Failed => events == [EventError]
    case Lost => events == [EventError] || events == [EventUp, EventError] || events == [EventUp, EventErrorClosed]
    case _ => events == []
  }

  // ---------------------------------------------------------------- what more bytes change

  lemma {:induction false} Prefixes(r: Bytes, data: Bytes)
    ensures forall n :: 0 <= n <= |r| ==> (r + data)[..n] == r[..n]
    ensures forall m, n :: 0 <= m <= n <= |r| ==> (r + data)[m..n] == r[m..n]
  {}

  lemma {:induction false} Longer(r: Bytes, data: Bytes)
    ensures r <= r + data
  {}

  /** More bytes of the current message leave the phase as it is. */
  lemma {:induction false} StillReached(c: Config, p: Phase, r: Bytes, data: Bytes)
    requires IsReceiving(p) && Reached(c, p, r)
    ensures Reached(c, p, r + data) && Expected(p, r + data) == Expected(p, r)
    ensures Earlier(p, r + data) == Earlier(p, r)
  {
    Prefixes(r, data);
  }

  /** Before a message is complete there is nothing more to say. */
  lemma {:induction false} NothingToSay(c: Config, p: Phase, r: Bytes, data: Bytes)
    requires IsReceiving(p) && Reached(c, p, r)
    requires |r + data| < Earlier(p, r + data) + Expected(p, r).0 + Expected(p, r).1
    ensures Said(c, r + data) == Said(c, r)
  {
    Prefixes(r, data);
  }

  /** The buffer after the bytes were stored. */
  lemma {:induction false} StillBuffered(p: Phase, r: Bytes, buf: Bytes, dest: nat, len: nat, total: nat, data: Bytes, buf': Bytes)
    requires Buffered(p, r, buf, dest, len, total) && len + |data| <= total && |buf'| == |buf|
    requires buf'[..dest + len] == buf[..dest + len] && buf'[dest + len..dest + len + |data|] == data
    requires Expected(p, r + data) == Expected(p, r) && Earlier(p, r + data) == Earlier(p, r)
    ensures Buffered(p, r + data, buf', dest, len + |data|, total)
  {
    var e, n := Earlier(p, r), dest + len;
    assert (r + data)[e..] == r[e..] + data;
    assert buf'[..n + |data|] == buf'[..n] + buf'[n..n + |data|];
  }

  /** The server's choice of a method. */
  lemma {:induction false} HelloComplete(c: Config, r: Bytes)
    requires |r| == 2
    ensures !GoodHello(c, r) ==> VerdictOn(c, r) == Rejected(2) && Said(c, r) == [HelloMessage(c)]
    ensures GoodHello(c, r) && r[1] == METHOD_PASSWORD ==>
              Said(c, r) == [HelloMessage(c)] + [PasswordMessage(c.auth[Choice(c.auth, METHOD_PASSWORD)])]
    ensures GoodHello(c, r) && r[1] != METHOD_PASSWORD ==>
              Authenticated(c, r) && Said(c, r) == [HelloMessage(c)] + [RequestMessage(c)]
  {
    assert r[..2] == r;
  }

  lemma {:induction false} PasswordComplete(c: Config, r: Bytes, r0: Bytes)
    requires |r| == 4 && Reached(c, SentPassword, r) && |r0| < 4 && Reached(c, SentPassword, r0) && r0 <= r
    ensures !GoodPassword(r[2..4]) ==> VerdictOn(c, r) == Rejected(4) && Said(c, r) == Said(c, r0)
    ensures GoodPassword(r[2..4]) ==> Authenticated(c, r) && Said(c, r) == Said(c, r0) + [RequestMessage(c)]
  {
    assert r[..2] == r0[..2];
  }

  lemma {:induction false} HeaderComplete(c: Config, r: Bytes)
    requires Reached(c, SentRequest, r) && |r| == AuthLen(r) + 4
    ensures !GoodHeader(r[AuthLen(r)..AuthLen(r) + 4]) ==> VerdictOn(c, r) == Rejected(|r|)
    ensures GoodHeader(r[AuthLen(r)..AuthLen(r) + 4]) ==> Reached(c, ReceivedReplyHeader, r)
  {
    var k := AuthLen(r);
    assert r[..k][..2] == r[..2];
    assert k == 4 ==> r[..k][2..4] == r[2..4];
  }

  lemma {:induction false} RestComplete(c: Config, r: Bytes)
    requires Reached(c, ReceivedReplyHeader, r) && |r| == AuthLen(r) + 4 + AddrLen(r[AuthLen(r) + 3])
    ensures VerdictOn(c, r) == Accepted(|r|)
  {
    var k := AuthLen(r);
    assert r[..k][..2] == r[..2];
    assert k == 4 ==> r[..k][2..4] == r[2..4];
  }

  /** Once the client is let in, it has said everything. */
  lemma {:induction false} AllSaid(c: Config, r: Bytes, r0: Bytes)
    requires r0 <= r && |r0| >= 2 && |r0| >= AuthLen(r0) && Authenticated(c, r0[..AuthLen(r0)])
    ensures Said(c, r) == Said(c, r0)
  {
    var k := AuthLen(r0);
    assert r[..2] == r0[..2] == r0[..k][..2];
    assert k == 4 ==> r[2..4] == r0[2..4] == r0[..k][2..4];
  }

  class SocksClient {
    const config: Config
    var state: Phase
    var buffer: array<nat>
    var recvDest: nat
    var recvLen: nat
    var recvTotal: nat
    var sent: seq<Bytes>
    var events: seq<Event>
    ghost var received: Bytes

    ghost predicate Valid()
      reads this, buffer
    {
      && ValidConfig(config) && Reported(state, events)
      && (if state == Connecting then received == [] && sent == []
          else if state == Lost then sent <= Said(config, received)
          else sent == Said(config, received))
      && Reached(config, state, received) && (state == SentRequest ==> buffer.Length == 4 + 18)
      && (IsReceiving(state) ==> recvLen < recvTotal && Buffered(state, received, buffer[..], recvDest, recvLen, recvTotal))
    }

    constructor (c: Config)
      requires ValidConfig(c)
      ensures Valid() && config == c && state == Connecting
    {
      config := c;
      state, sent, events, received := Connecting, [], [], [];
      buffer := new nat[0];
      recvDest, recvLen, recvTotal := 0, 0, 0;
    }

    /** report_error when the client itself cannot go on. */
    method Abandon()
      modifies this`state, this`events
      ensures state == Lost && events == old(events) + [EventError]
    {
      events := events + [EventError];
      state := Lost;
    }

    /**
     connector_handler: the hello offers all methods. `connected` and `reserved` say whether the
     connection object was made and whether the buffer was allocated.
     */
    method ConnectorHandler(isError: bool, connected: bool, reserved: bool)
      requires Valid() && state == Connecting
      modifies this
      ensures Valid() && received == []
      ensures state == if isError || !connected || |config.auth| == 0 || |config.auth| > 255 || !reserved then Lost else SendingHello
    {
      if isError || !connected {
        Abandon();
        return;
      }
      if |config.auth| == 0 || |config.auth| > 255 || !reserved {
        Abandon();
        return;
      }
      var hello := WriteHello();
      buffer := hello;
      sent := sent + [hello[..]];
      state := SendingHello;
    }

    method WriteHello() returns (b: array<nat>)
      ensures fresh(b) && b[..] == HelloMessage(config)
    {
      var n := |config.auth|;
      b := new nat[2 + n];
      b[0], b[1] := SOCKS_VERSION, n;
      var i := 0;
      while i < n
        invariant 0 <= i <= n && b[0] == SOCKS_VERSION && b[1] == n
        invariant forall k :: 0 <= k < i ==> b[2 + k] == Method(config.auth[k])
      {
        b[2 + i] := Method(config.auth[i]);
        i := i + 1;
      }
    }

    /** start_receive into a new buffer. */
    method StartReceive(size: nat, total: nat)
      requires 0 < total <= size
      modifies this`buffer, this`recvDest, this`recvLen, this`recvTotal
      ensures fresh(buffer) && buffer.Length == size && recvDest == 0 && recvLen == 0 && recvTotal == total
    {
      buffer := new nat[size];
      recvDest, recvLen, recvTotal := 0, 0, total;
    }

    /** send_handler_done: the answer is awaited, if its buffer was allocated. */
    method SendHandlerDone(reserved: bool)
      requires Valid() && IsSending(state)
      modifies this
      ensures Valid() && received == old(received) && Continues(reserved) && (buffer == old(buffer) || fresh(buffer))
      ensures state == if !reserved then Lost
                       else match old(state) case SendingHello => SentHello case SendingPassword => SentPassword case _ => SentRequest
    {
      if !reserved {
        Abandon();
      } else if state == SendingHello {
        StartReceive(2, 2);
        state := SentHello;
      } else if state == SendingRequest {
        assert received[..AuthLen(received)] == received;
        StartReceive(4 + 18, 4);
        state := SentRequest;
      } else {
        assert received[..2] == received;
        StartReceive(2, 2);
        state := SentPassword;
      }
    }

    /** The bytes are stored and counted. */
    method Store(data: Bytes)
      requires recvDest + recvLen + |data| <= buffer.Length
      modifies buffer, this`recvLen
      ensures recvLen == old(recvLen) + |data|
      ensures var n := recvDest + old(recvLen); buffer[..n] == old(buffer[..n]) && buffer[n..n + |data|] == data
    {
      var n := recvDest + recvLen;
      forall k | 0 <= k < |data| {
        buffer[n + k] := data[k];
      }
      recvLen := recvLen + |data|;
    }

    method Fail()
      modifies this`state, this`events
      ensures state == Failed && events == old(events) + [EventError]
    {
      events := events + [EventError];
      state := Failed;
    }

    /** The client goes on, or has given up because memory ran out; a message is sent only if there was memory for it. */
    ghost predicate Continues(reserved: bool)
      reads this
    {
      if state == Lost then !reserved && events == [EventError] else InDialogue(state) && (IsSending(state) ==> reserved)
    }

    /** recv_handler_done; `reserved` says whether the buffer for the next message, if any, was allocated. */
    method RecvHandlerDone(data: Bytes, reserved: bool)
      requires Valid() && IsReceiving(state) && |data| <= recvTotal - recvLen
      modifies this, buffer
      ensures Valid() && received == old(received) + data && Continues(reserved)
      ensures |data| < old(recvTotal - recvLen) ==> state == old(state)
      ensures buffer == old(buffer) || fresh(buffer)
    {
      ghost var r0 := received;
      Take(data);
      Proceed(r0, data, reserved);
    }

    /** What follows once the bytes are counted: the client waits for more, or the message is complete. */
    method Proceed(ghost r0: Bytes, ghost data: Bytes, reserved: bool)
      requires Taken(r0) && received == r0 + data && (recvLen == recvTotal ==> data != [])
      modifies this
      ensures Valid() && received == old(received) && Continues(reserved)
      ensures old(recvLen < recvTotal) ==> state == old(state)
      ensures buffer == old(buffer) || fresh(buffer)
    {
      if recvLen < recvTotal {
        StillWaiting(r0, data);
        return;
      }
      FinishMessage(r0, reserved);
    }

    /** The bytes are stored and recorded. */
    method Take(data: Bytes)
      requires Valid() && IsReceiving(state) && |data| <= recvTotal - recvLen
      modifies this`recvLen, this`received, buffer
      ensures received == old(received) + data && recvLen == old(recvLen) + |data| && Taken(old(received))
    {
      ghost var r0, buf, len := received, buffer[..], recvLen;
      Longer(r0, data);
      StillReached(config, state, r0, data);
      Store(data);
      received := received + data;
      StillBuffered(state, r0, buf, recvDest, len, recvTotal, data, buffer[..]);
    }

    /** More of the current message was received than `r0`. */
    ghost predicate Taken(r0: Bytes)
      reads this, buffer
    {
      && ValidConfig(config) && events == [] && IsReceiving(state) && r0 <= received
      && Reached(config, state, r0) && Reached(config, state, received) && (state == SentRequest ==> buffer.Length == 4 + 18)
      && sent == Said(config, r0) && Buffered(state, received, buffer[..], recvDest, recvLen, recvTotal)
    }

    /** As long as the message is not complete the client waits for the rest. */
    lemma {:induction false} StillWaiting(r0: Bytes, data: Bytes)
      requires Taken(r0) && received == r0 + data && recvLen < recvTotal
      ensures Valid()
    {
      NothingToSay(config, state, r0, data);
    }

    /** The message that was received is complete. */
    ghost predicate Complete(r0: Bytes)
      reads this, buffer
    {
      Taken(r0) && |r0| < |received| && recvLen == recvTotal
    }

    method FinishMessage(ghost r0: Bytes, reserved: bool)
      requires Complete(r0)
      modifies this
      ensures Valid() && received == old(received) && Continues(reserved) && (buffer == old(buffer) || fresh(buffer))
    {
      if state == SentHello {
        FinishHello(r0, reserved);
      } else if state == SentPassword {
        FinishPassword(r0, reserved);
      } else if state == SentRequest {
        FinishHeader(r0);
      } else {
        FinishReply(r0);
      }
    }

    method FinishHello(ghost r0: Bytes, reserved: bool)
      requires Complete(r0) && state == SentHello
      modifies this
      ensures Valid() && received == old(received) && Continues(reserved) && (buffer == old(buffer) || fresh(buffer))
    {
      HelloComplete(config, received);
      assert received == buffer[..][..2];
      if buffer[0] != SOCKS_VERSION {
        Fail();
        return;
      }
      var k := FindAuth(buffer[1]);
      if k == |config.auth| {
        Fail();
        return;
      }
      if config.auth[k].NoAuth? {
        AuthFinished(reserved);
      } else {
        SendPassword(config.auth[k], reserved);
      }
    }

    /** The first offered way to authenticate that the server picked. */
    method FindAuth(m: nat) returns (k: nat)
      ensures k == Choice(config.auth, m)
    {
      k := 0;
      while k < |config.auth|
        invariant 0 <= k <= |config.auth|
        invariant forall j :: 0 <= j < k ==> Method(config.auth[j]) != m
      {
        if Method(config.auth[k]) == m {
          return;
        }
        k := k + 1;
      }
    }

    method SendPassword(a: Auth, reserved: bool)
      requires ValidConfig(config) && events == [] && a.Password? && |received| == 2 && sent == [HelloMessage(config)]
      requires received[0] == SOCKS_VERSION && received[1] == METHOD_PASSWORD
      requires var k := Choice(config.auth, METHOD_PASSWORD); k < |config.auth| && config.auth[k] == a
      modifies this
      ensures Valid() && received == old(received) && Continues(reserved) && (buffer == old(buffer) || fresh(buffer))
    {
      HelloComplete(config, received);
      var n, m := |a.username|, |a.password|;
      if n == 0 || n > 255 || m == 0 || m > 255 {
        Fail();
        return;
      }
      if !reserved {
        Abandon();
        return;
      }
      buffer := WritePassword(a);
      sent := sent + [buffer[..]];
      state := SendingPassword;
    }

    method WritePassword(a: Auth) returns (b: array<nat>)
      requires a.Password?
      ensures fresh(b) && b[..] == PasswordMessage(a)
    {
      var n, m := |a.username|, |a.password|;
      b := new nat[1 + 1 + n + 1 + m];
      b[0], b[1], b[2 + n] := 1, n, m;
      forall k | 0 <= k < n {
        b[2 + k] := a.username[k];
      }
      forall k | 0 <= k < m {
        b[3 + n + k] := a.password[k];
      }
    }

    method FinishPassword(ghost r0: Bytes, reserved: bool)
      requires Complete(r0) && state == SentPassword
      modifies this
      ensures Valid() && received == old(received) && Continues(reserved) && (buffer == old(buffer) || fresh(buffer))
    {
      PasswordComplete(config, received, r0);
      assert received[2..4] == buffer[..][..2];
      if buffer[0] != 1 || buffer[1] != 0 {
        Fail();
        return;
      }
      AuthFinished(reserved);
    }

    method FinishHeader(ghost r0: Bytes)
      requires Complete(r0) && state == SentRequest
      modifies this
      ensures Valid() && received == old(received) && InDialogue(state) && buffer == old(buffer)
    {
      HeaderKnown(r0);
      if buffer[0] != SOCKS_VERSION || buffer[1] != REP_SUCCEEDED || (buffer[3] != ATYP_IPV4 && buffer[3] != ATYP_IPV6) {
        Fail();
      } else {
        ReceiveRest();
      }
    }

    /** What the header in the buffer says about the dialogue. */
    lemma {:induction false} HeaderKnown(r0: Bytes)
      requires Complete(r0) && state == SentRequest
      ensures |received| == AuthLen(received) + 4 && sent == Said(config, received)
      ensures received[AuthLen(received)..] == buffer[..4]
      ensures if GoodHeader(buffer[..4]) then Reached(config, ReceivedReplyHeader, received)
              else VerdictOn(config, received) == Rejected(|received|)
    {
      var k := AuthLen(received);
      HeaderComplete(config, received);
      AllSaid(config, received, r0);
      assert received[k..k + 4] == received[k..] == buffer[..][..4] == buffer[..4];
    }

    /** The rest of the reply is received behind its header. */
    method ReceiveRest()
      requires ValidConfig(config) && events == [] && Reached(config, ReceivedReplyHeader, received) && sent == Said(config, received)
      requires buffer.Length == 4 + 18 && |received| == AuthLen(received) + 4 && received[AuthLen(received)..] == buffer[..4]
      modifies this`recvDest, this`recvLen, this`recvTotal, this`state
      ensures Valid() && state == ReceivedReplyHeader
    {
      assert buffer[3] == buffer[..4][3] == received[AuthLen(received) + 3];
      recvDest, recvLen, recvTotal := 4, 0, AddrLen(buffer[3]);
      state := ReceivedReplyHeader;
      assert buffer[..][..4] == buffer[..4];
    }

    method FinishReply(ghost r0: Bytes)
      requires Complete(r0) && state == ReceivedReplyHeader
      modifies this
      ensures Valid() && received == old(received) && fresh(buffer) && state == Up
    {
      RestComplete(config, received);
      AllSaid(config, received, r0);
      buffer := new nat[0];
      state := Up;
      events := events + [EventUp];
    }

    /** auth_finished: the request is sent, if its buffer was allocated. */
    method AuthFinished(reserved: bool)
      requires ValidConfig(config) && events == [] && Authenticated(config, received)
      requires Said(config, received) == sent + [RequestMessage(config)]
      modifies this
      ensures Valid() && received == old(received) && (buffer == old(buffer) || fresh(buffer))
      ensures Continues(reserved) && state == if reserved then SendingRequest else Lost
    {
      if !reserved {
        Abandon();
        return;
      }
      var n := |config.dest.bytes|;
      buffer := new nat[4 + n];
      buffer[0], buffer[1], buffer[2] := SOCKS_VERSION, CMD_CONNECT, 0;
      buffer[3] := if config.dest.Ipv4? then ATYP_IPV4 else ATYP_IPV6;
      forall k | 0 <= k < n {
        buffer[4 + k] := config.dest.bytes[k];
      }
      assert buffer[..] == RequestMessage(config);
      sent := sent + [buffer[..]];
      state := SendingRequest;
    }

    /** connection_handler: an error of the connection ends the dialogue. */
    method ConnectionHandler(recvClosed: bool)
      requires Valid() && state != Connecting && state != Failed && state != Lost
      modifies this`state, this`events
      ensures Valid() && state == Lost
      ensures events == old(events) + [if old(state) == Up && recvClosed then EventErrorClosed else EventError]
    {
      if state == Up && recvClosed {
        events := events + [EventErrorClosed];
      } else {
        events := events + [EventError];
      }
      state := Lost;
    }
  }

  // ---------------------------------------------------------------- whole runs

  /** A client that waits for bytes has not heard enough to decide. */
  lemma {:induction false} WaitingIsUndecided(c: Config, p: Phase, r: Bytes)
    requires IsReceiving(p) && Reached(c, p, r)
    requires |r| < Earlier(p, r) + Expected(p, r).0 + Expected(p, r).1
    ensures VerdictOn(c, r) == Starved
  {
    if p == SentRequest || p == ReceivedReplyHeader {
      var k := AuthLen(r);
      assert r[..k][..2] == r[..2];
      assert k == 4 ==> r[..k][2..4] == r[2..4];
    }
  }

  /** What a client must have come to when it has read `n` bytes of the stream. */
  ghost predicate Decided(v: Verdict, p: Phase, events: seq<Event>, n: nat, length: nat) {
    match v
    case Accepted(k) => n == k && p == Up && events == [EventUp]
    case Rejected(k) => n == k && p == Failed && events == [EventError]
    case Starved => n == length && IsReceiving(p) && events == []
  }

  lemma {:induction false} DecidedByStream(c: Config, p: Phase, events: seq<Event>, stream: Bytes, n: nat)
    requires n <= |stream| && Reached(c, p, stream[..n]) && Reported(p, events)
    requires InDialogue(p) && !IsSending(p) && (IsReceiving(p) ==> n == |stream|)
    requires IsReceiving(p) ==> n < Earlier(p, stream[..n]) + Expected(p, stream[..n]).0 + Expected(p, stream[..n]).1
    ensures Decided(VerdictOn(c, stream), p, events, n, |stream|)
  {
    assert stream == stream[..n] + stream[n..];
    VerdictExtends(c, stream[..n], stream[n..]);
    if IsReceiving(p) {
      assert stream[..n] == stream;
      WaitingIsUndecided(c, p, stream);
    }
  }

  /** One call of a handler: a message was sent, or a piece of the stream was received. */
  method Handle(c: SocksClient, stream: Bytes, n: nat, piece: nat, reserved: bool) returns (n': nat)
    requires c.Valid() && n <= |stream| && c.received == stream[..n]
    requires IsSending(c.state) || (IsReceiving(c.state) && n < |stream|)
    modifies c, c.buffer
    ensures c.Valid() && n' <= |stream| && c.received == stream[..n'] && c.Continues(reserved)
    ensures n' > n || (n' == n && old(IsSending(c.state)) && !IsSending(c.state))
    ensures c.buffer == old(c.buffer) || fresh(c.buffer)
  {
    if IsSending(c.state) {
      c.SendHandlerDone(reserved);
      n' := n;
    } else {
      var most := if c.recvTotal - c.recvLen < |stream| - n then c.recvTotal - c.recvLen else |stream| - n;
      n' := n + 1 + piece % most;
      c.RecvHandlerDone(stream[n..n'], reserved);
      assert stream[..n'] == stream[..n] + stream[n..n'];
    }
  }

  /**
   Feeds a stream of server bytes to the client in pieces of any sizes. Unless memory ran out,
   where the client ends and how many bytes it has taken depends on the stream alone.
   */
  method Feed(c: SocksClient, stream: Bytes, pieces: nat -> nat, reserved: nat -> bool) returns (n: nat)
    requires c.Valid() && c.state == SendingHello
    modifies c, c.buffer
    ensures c.Valid() && n <= |stream| && c.received == stream[..n]
    ensures if c.state == Lost then c.events == [EventError] && c.sent <= Said(c.config, stream[..n]) && exists k :: !reserved(k)
            else c.sent == Said(c.config, stream[..n]) && Decided(VerdictOn(c.config, stream), c.state, c.events, n, |stream|)
    ensures c.state != Lost ==> (c.state == Up <==> SocksGrammar.Successful(c.config, stream[..n]))
  {
    n := 0;
    var round := 0;
    while IsSending(c.state) || (IsReceiving(c.state) && n < |stream|)
      invariant c.Valid() && n <= |stream| && c.received == stream[..n]
      invariant if c.state == Lost then c.events == [EventError] && exists k :: !reserved(k) else InDialogue(c.state)
      invariant c.buffer == old(c.buffer) || fresh(c.buffer)
      decreases |stream| - n, if IsSending(c.state) then 1 else 0
    {
      n := Handle(c, stream, n, pieces(round), reserved(round));
      round := round + 1;
    }
    if c.state != Lost {
      DecidedByStream(c.config, c.state, c.events, stream, n);
      SocksGrammar.AcceptedIff(c.config, stream, n);
    }
  }
}
