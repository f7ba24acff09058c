/**
 The dialogue of sections 3, 4 and 6 of RFC 1928 and section 2 of RFC 1929 as a grammar, with the
 numbers those documents give: the streams a server may send, and what it reads from the client.
 */
module SocksGrammar {
  import opened SocksSpec

  // ---------------------------------------------------------------- what a server may send

  /** The way to authenticate that was offered first with this method. */
  ghost predicate FirstOffered(c: Config, k: int, m: nat) {
    && 0 <= k < |c.auth| && MethodNumber(c.auth[k]) == m
    && forall j :: 0 <= j < k ==> MethodNumber(c.auth[j]) != m
  }

  function MethodNumber(a: Auth): nat {
    if a.Password? then 2 else 0
  }

  /** The method was offered, and a password that goes with it can be sent. */
  ghost predicate CanUse(c: Config, m: nat) {
    exists k :: FirstOffered(c, k, m) &&
      (m == 2 ==> c.auth[k].Password? && 1 <= |c.auth[k].username| <= 255 && 1 <= |c.auth[k].password| <= 255)
  }

  /** A successful dialogue: the method, the reserved byte, and the address and port of the reply. */
  datatype Dialogue = Dialogue(way: nat, reserved: nat, ipv6: bool, addr: Bytes)

  ghost predicate ValidDialogue(c: Config, d: Dialogue) {
    CanUse(c, d.way) && |d.addr| == if d.ipv6 then 16 + 2 else 4 + 2
  }

  function PasswordReply(m: nat): Bytes {
    if m == 2 then [1, 0] else []
  }

  /** All the server says. */
  function Stream(d: Dialogue): Bytes {
    [5, d.way] + PasswordReply(d.way) + [5, 0, d.reserved, if d.ipv6 then 4 else 1] + d.addr
  }

  /** What was received is a successful dialogue. */
  ghost predicate Successful(c: Config, s: Bytes) {
    exists d :: ValidDialogue(c, d) && Stream(d) == s
  }

  /** What was received may become a successful dialogue. */
  ghost predicate Begun(c: Config, s: Bytes) {
    exists d :: ValidDialogue(c, d) && s <= Stream(d)
  }

  /** Where the messages before the address end. */
  predicate MessageEnd(s: Bytes, n: nat) {
    n == 2 || (|s| >= 2 && if s[1] == 2 then n == 4 || n == 8 else n == 6)
  }

  // ---------------------------------------------------------------- the verdict, by the grammar

  lemma {:induction false} HelloIsUsable(c: Config, b: Bytes)
    requires |b| == 2
    ensures GoodHello(c, b) <==> b[0] == 5 && CanUse(c, b[1])
  {
    var k := Choice(c.auth, b[1]);
    if b[0] == 5 && k < |c.auth| {
      assert FirstOffered(c, k, b[1]);
    }
    forall j | FirstOffered(c, j, b[1]) ensures j == k {
      assert Method(c.auth[j]) == MethodNumber(c.auth[j]);
    }
  }

  /** A stream that starts well is a successful one up to some byte. */
  function DialogueOf(s: Bytes, k: nat, n: nat): Dialogue
    requires 2 <= k && k + 4 <= n <= |s|
  {
    Dialogue(s[1], s[k + 2], s[k + 3] == 4, s[k + 4..n])
  }

  lemma {:induction false} StreamParts(d: Dialogue)
    ensures var s, k := Stream(d), if d.way == 2 then 4 else 2;
      && |s| == k + 4 + |d.addr| && s[..2] == [5, d.way] && s[2..k] == PasswordReply(d.way)
      && s[k..k + 4] == [5, 0, d.reserved, if d.ipv6 then 4 else 1] && s[k + 4..] == d.addr
  {}

  lemma {:induction false} PartsMakeStream(s: Bytes, d: Dialogue)
    requires var k := if d.way == 2 then 4 else 2;
      && |s| >= k + 4 && s[..2] == [5, d.way] && s[2..k] == PasswordReply(d.way)
      && s[k..k + 4] == [5, 0, d.reserved, if d.ipv6 then 4 else 1] && s[k + 4..] == d.addr
    ensures s == Stream(d)
  {
    var k := if d.way == 2 then 4 else 2;
    assert s == s[..2] + s[2..k] + s[k..k + 4] + s[k + 4..];
  }

  /** The whole stream of a successful dialogue is accepted. */
  lemma {:induction false} StreamAccepted(c: Config, d: Dialogue)
    requires ValidDialogue(c, d)
    ensures VerdictOn(c, Stream(d)) == Accepted(|Stream(d)|)
  {
    var s, k := Stream(d), if d.way == 2 then 4 else 2;
    StreamParts(d);
    HelloIsUsable(c, s[..2]);
    assert s[k..k + 4][3] == s[k + 3] && s[..2][1] == s[1];
  }

  /** What is accepted is a successful dialogue. */
  lemma {:induction false} AcceptedStream(c: Config, s: Bytes)
    requires VerdictOn(c, s).Accepted?
    ensures var n := VerdictOn(c, s).n; n <= |s| && Successful(c, s[..n])
  {
    var n, k := VerdictOn(c, s).n, AuthLen(s);
    var d := DialogueOf(s, k, n);
    HelloIsUsable(c, s[..2]);
    var p := s[..n];
    assert s == p + s[n..];
    Slices(p, s[n..], 0, 2);
    Slices(p, s[n..], 2, k);
    Slices(p, s[n..], k, k + 4);
    assert p[k + 4..] == s[k + 4..n];
    assert s[k..k + 4][3] == s[k + 3] && s[k..k + 4][2] == s[k + 2];
    PartsMakeStream(p, d);
  }

  /** The client is up after exactly the bytes of a successful dialogue. */
  lemma {:induction false} AcceptedIff(c: Config, s: Bytes, n: nat)
    ensures VerdictOn(c, s) == Accepted(n) <==> n <= |s| && Successful(c, s[..n])
  {
    if VerdictOn(c, s) == Accepted(n) {
      AcceptedStream(c, s);
    }
    if n <= |s| && Successful(c, s[..n]) {
      var d :| ValidDialogue(c, d) && Stream(d) == s[..n];
      StreamAccepted(c, d);
      VerdictExtends(c, s[..n], s[n..]);
      assert s[..n] + s[n..] == s;
    }
  }

  // ---------------------------------------------------------------- beginnings

  /** Zeros as an address of the right length. */
  function SomeDialogue(m: nat, reserved: nat, ipv6: bool): (d: Dialogue)
    ensures |d.addr| == if ipv6 then 18 else 6
  {
    Dialogue(m, reserved, ipv6, seq(if ipv6 then 18 else 6, _ => 0))
  }

  lemma {:induction false} BegunHello(c: Config, p: Bytes)
    requires |p| == 2
    ensures Begun(c, p) <==> GoodHello(c, p)
  {
    HelloIsUsable(c, p);
    if GoodHello(c, p) {
      var d := SomeDialogue(p[1], 0, false);
      StreamParts(d);
      assert ValidDialogue(c, d) && Stream(d)[..2] == p;
    }
    forall d | ValidDialogue(c, d) && p <= Stream(d) ensures p == [5, d.way] {
      StreamParts(d);
      assert p == Stream(d)[..2];
    }
  }

  lemma {:induction false} BegunPassword(c: Config, p: Bytes)
    requires |p| == 4 && p[1] == 2
    ensures Begun(c, p) <==> GoodHello(c, p[..2]) && GoodPassword(p[2..4])
  {
    HelloIsUsable(c, p[..2]);
    if GoodHello(c, p[..2]) && GoodPassword(p[2..4]) {
      var d := SomeDialogue(2, 0, false);
      StreamParts(d);
      assert p == p[..2] + p[2..4] && Stream(d)[..4] == Stream(d)[..2] + Stream(d)[2..4];
      assert ValidDialogue(c, d) && Stream(d)[..4] == p;
    }
    forall d | ValidDialogue(c, d) && p <= Stream(d) ensures p[..2] == [5, d.way] && p[2..4] == [1, 0] {
      StreamParts(d);
      assert p == Stream(d)[..4] && p[..2] == Stream(d)[..2];
      assert p[2..4] == Stream(d)[2..4];
    }
  }

  lemma {:induction false} HeaderWithin(c: Config, p: Bytes, k: nat, d: Dialogue)
    requires |p| >= 2 && k == AuthLen(p) && |p| == k + 4 && ValidDialogue(c, d) && p <= Stream(d)
    ensures p[..2] == [5, d.way] && p[2..k] == PasswordReply(d.way)
    ensures p[k..k + 4] == [5, 0, d.reserved, if d.ipv6 then 4 else 1]
  {
    StreamParts(d);
    assert p == Stream(d)[..k + 4] && p[..2] == Stream(d)[..2];
    assert p[1] == p[..2][1];
    assert p[2..k] == Stream(d)[2..k] && p[k..k + 4] == Stream(d)[k..k + 4];
  }

  lemma {:induction false} BegunHeader(c: Config, p: Bytes, k: nat)
    requires |p| >= 2 && k == AuthLen(p) && |p| == k + 4
    ensures Begun(c, p) <==> GoodHello(c, p[..2]) && (k == 4 ==> GoodPassword(p[2..4])) && GoodHeader(p[k..k + 4])
  {
    HelloIsUsable(c, p[..2]);
    if GoodHello(c, p[..2]) && (k == 4 ==> GoodPassword(p[2..4])) && GoodHeader(p[k..k + 4]) {
      var d := SomeDialogue(p[1], p[k + 2], p[k + 3] == 4);
      var s := p + d.addr;
      assert s[..2] == p[..2] && s[2..k] == p[2..k] && s[k..k + 4] == p[k..k + 4] && s[k + 4..] == d.addr;
      assert p[k..k + 4][2] == p[k + 2] && p[k..k + 4][3] == p[k + 3];
      PartsMakeStream(s, d);
      assert ValidDialogue(c, d) && p <= Stream(d);
    }
    forall d | ValidDialogue(c, d) && p <= Stream(d)
      ensures GoodHello(c, p[..2]) && (k == 4 ==> GoodPassword(p[2..4])) && GoodHeader(p[k..k + 4])
    {
      HeaderWithin(c, p, k, d);
    }
  }

  /** Which of the messages that are complete are good, by the grammar and by the checks of the client. */
  lemma {:induction false} EndsBegun(c: Config, s: Bytes, n: nat)
    requires n <= |s| && MessageEnd(s, n)
    ensures n == 2 ==> (Begun(c, s[..n]) <==> GoodHello(c, s[..2]))
    ensures n == 4 ==> (Begun(c, s[..n]) <==> GoodHello(c, s[..2]) && GoodPassword(s[2..4]))
    ensures n == AuthLen(s) + 4 ==>
              (Begun(c, s[..n]) <==>
                 GoodHello(c, s[..2]) && (n == 8 ==> GoodPassword(s[2..4])) && GoodHeader(s[AuthLen(s)..AuthLen(s) + 4]))
  {
    var p := s[..n];
    assert p[..2] == s[..2];
    if n == 2 {
      BegunHello(c, p);
    } else if n == 4 {
      assert p[2..4] == s[2..4];
      BegunPassword(c, p);
    } else {
      var k := AuthLen(s);
      assert p[2..4] == s[2..4] && p[k..k + 4] == s[k..k + 4];
      BegunHeader(c, p, k);
    }
  }

  /** The client rejects at the end of the first message that no successful dialogue has. */
  lemma {:induction false} RejectedIff(c: Config, s: Bytes, n: nat)
    ensures VerdictOn(c, s) == Rejected(n) <==>
              && n <= |s| && MessageEnd(s, n) && !Begun(c, s[..n])
              && forall m :: 0 <= m < n && MessageEnd(s, m) ==> Begun(c, s[..m])
  {
    forall m: nat | m <= |s| && MessageEnd(s, m) ensures MessageKnown(c, s, m) {
      EndsBegun(c, s, m);
    }
    assert |s| >= 2 ==> MessageKnown(c, s, 2);
    assert |s| >= 4 && s[1] == 2 ==> MessageKnown(c, s, 4);
    assert |s| >= 2 && |s| >= AuthLen(s) + 4 ==> MessageKnown(c, s, AuthLen(s) + 4);
  }

  ghost predicate MessageKnown(c: Config, s: Bytes, n: nat)
    requires n <= |s| && MessageEnd(s, n)
  {
    && (n == 2 ==> (Begun(c, s[..n]) <==> GoodHello(c, s[..2])))
    && (n == 4 ==> (Begun(c, s[..n]) <==> GoodHello(c, s[..2]) && GoodPassword(s[2..4])))
    && (n == AuthLen(s) + 4 ==>
          (Begun(c, s[..n]) <==>
             GoodHello(c, s[..2]) && (n == 8 ==> GoodPassword(s[2..4])) && GoodHeader(s[AuthLen(s)..AuthLen(s) + 4])))
  }

  /** The client waits exactly if it has neither seen a whole successful dialogue nor a wrong message. */
  lemma {:induction false} StarvedIff(c: Config, s: Bytes)
    ensures VerdictOn(c, s) == Starved <==>
              && (forall n :: 0 <= n <= |s| ==> !Successful(c, s[..n]))
              && (forall n :: 0 <= n <= |s| && MessageEnd(s, n) ==> Begun(c, s[..n]))
  {
    forall n | 0 <= n <= |s| ensures VerdictOn(c, s) == Accepted(n) <==> Successful(c, s[..n]) {
      AcceptedIff(c, s, n);
    }
    if VerdictOn(c, s).Rejected? {
      RejectedIff(c, s, VerdictOn(c, s).n);
    }
    if VerdictOn(c, s).Accepted? {
      AcceptedIff(c, s, VerdictOn(c, s).n);
    }
    if VerdictOn(c, s) == Starved {
      forall n | 0 <= n <= |s| && MessageEnd(s, n) ensures Begun(c, s[..n]) {
        StarvedBegun(c, s, n);
      }
    }
  }

  lemma {:induction false} StarvedBegun(c: Config, s: Bytes, n: nat)
    requires VerdictOn(c, s) == Starved && n <= |s| && MessageEnd(s, n)
    ensures Begun(c, s[..n])
  {
    EndsBegun(c, s, n);
  }

  // ---------------------------------------------------------------- what the server reads

  /** Section 3 of RFC 1928: version, number of methods, methods. */
  lemma {:induction false} HelloRead(c: Config, k: nat)
    ensures var m := HelloMessage(c); |m| == 2 + |c.auth| && m[0] == 5 && m[1] == |c.auth|
    ensures k < |c.auth| ==> HelloMessage(c)[2 + k] == (if c.auth[k].Password? then 2 else 0)
  {}

  /** Section 2 of RFC 1929: what a server reads as the username and as the password. */
  function ReadUsername(m: Bytes): Bytes {
    if |m| >= 2 && 2 + m[1] <= |m| then m[2..2 + m[1]] else []
  }

  function ReadPassword(m: Bytes): Bytes {
    var n := 2 + |ReadUsername(m)|;
    if n < |m| && n + 1 + m[n] <= |m| then m[n + 1..n + 1 + m[n]] else []
  }

  lemma {:induction false} PasswordRead(a: Auth)
    requires a.Password?
    ensures var m := PasswordMessage(a);
      && m[0] == 1 && ReadUsername(m) == a.username && ReadPassword(m) == a.password
      && |m| == 3 + |a.username| + |a.password|
  {
    var m, n := PasswordMessage(a), |a.username|;
    assert m[1] == n && m[2 + n] == |a.password|;
    assert m[2..2 + n] == a.username;
    assert m[3 + n..3 + n + |a.password|] == a.password;
  }

  /** Section 4 of RFC 1928: version, CONNECT, reserved, type of the address, address and port. */
  lemma {:induction false} RequestRead(c: Config)
    ensures var m := RequestMessage(c);
      |m| == 4 + |c.dest.bytes| && m[..4] == [5, 1, 0, if c.dest.Ipv6? then 4 else 1] && m[4..] == c.dest.bytes
  {}

  /** A client that is accepted has said hello, has given the password it offered first if asked, and has asked for its destination. */
  lemma {:induction false} SaidAll(c: Config, s: Bytes)
    requires VerdictOn(c, s).Accepted?
    ensures Said(c, s) == if s[1] == 2
                          then [HelloMessage(c), PasswordMessage(c.auth[Choice(c.auth, 2)]), RequestMessage(c)]
                          else [HelloMessage(c), RequestMessage(c)]
  {}

  /** The request is said only once the server has let the client in, the password only if it was asked for. */
  lemma {:induction false} SaidInOrder(c: Config, s: Bytes)
    ensures |Said(c, s)| >= 1 && Said(c, s)[0] == HelloMessage(c) && |Said(c, s)| <= 3
    ensures |Said(c, s)| > 1 ==> |s| >= 2 && Begun(c, s[..2])
    ensures |Said(c, s)| > 2 ==> s[1] == 2 && |s| >= 4 && Begun(c, s[..4])
  {
    if |s| >= 2 {
      EndsBegun(c, s, 2);
      if |s| >= 4 && s[1] == 2 {
        EndsBegun(c, s, 4);
      }
    }
  }
}
