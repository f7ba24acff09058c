/**
 The SOCKS5 dialogue as the client of
 measurement_proxy/tun2socks/socksclient/BSocksClient.c sees it: which streams of server bytes
 it accepts and what it sends (sections 3, 4 and 6 of RFC 1928, section 2 of RFC 1929).
 */
module SocksSpec {

  const SOCKS_VERSION := 5
  const METHOD_NONE := 0
  const METHOD_PASSWORD := 2
  const CMD_CONNECT := 1
  const ATYP_IPV4 := 1
  const ATYP_IPV6 := 4
  const REP_SUCCEEDED := 0

  type Bytes = seq<nat>

  datatype Auth = NoAuth | Password(username: Bytes, password: Bytes)

  /** An address as it is written in a request, with the port: 4 + 2 or 16 + 2 bytes. */
  datatype Addr = Ipv4(bytes: Bytes) | Ipv6(bytes: Bytes)

  datatype Config = Config(auth: seq<Auth>, dest: Addr)

  predicate ValidConfig(c: Config) {
    |c.dest.bytes| == if c.dest.Ipv4? then 6 else 18
  }

  function Method(a: Auth): nat {
    if a.NoAuth? then METHOD_NONE else METHOD_PASSWORD
  }

  /** The first offered way to authenticate with the given method, or how many there are. */
  function Choice(auth: seq<Auth>, m: nat): (k: nat)
    ensures k <= |auth| && (k < |auth| ==> Method(auth[k]) == m)
    ensures forall j :: 0 <= j < k ==> Method(auth[j]) != m
  {
    if auth == [] || Method(auth[0]) == m then 0 else 1 + Choice(auth[1..], m)
  }

  predicate UsablePassword(a: Auth) {
    a.Password? && 0 < |a.username| <= 255 && 0 < |a.password| <= 255
  }

  // ---------------------------------------------------------------- what the server says

  /** The server picked a method that was offered and can be used. */
  predicate GoodHello(c: Config, b: Bytes)
    requires |b| == 2
  {
    && b[0] == SOCKS_VERSION && Choice(c.auth, b[1]) < |c.auth|
    && (b[1] == METHOD_PASSWORD ==> UsablePassword(c.auth[Choice(c.auth, b[1])]))
  }

  predicate GoodPassword(b: Bytes)
    requires |b| == 2
  {
    b[0] == 1 && b[1] == 0
  }

  predicate GoodHeader(b: Bytes)
    requires |b| == 4
  {
    b[0] == SOCKS_VERSION && b[1] == REP_SUCCEEDED && (b[3] == ATYP_IPV4 || b[3] == ATYP_IPV6)
  }

  function AddrLen(atyp: nat): nat {
    if atyp == ATYP_IPV4 then 6 else 18
  }

  /** How a stream of server bytes ends for the client, and after how many bytes. */
  datatype Verdict = Accepted(n: nat) | Rejected(n: nat) | Starved

  function ReplyVerdict(s: Bytes, k: nat): Verdict {
    if |s| < k + 4 then Starved
    else if !GoodHeader(s[k..k + 4]) then Rejected(k + 4)
    else if |s| < k + 4 + AddrLen(s[k + 3]) then Starved
    else Accepted(k + 4 + AddrLen(s[k + 3]))
  }

  /** How many bytes the authentication takes, if the server has agreed so far. */
  function AuthLen(s: Bytes): nat
    requires |s| >= 2
  {
    if s[1] == METHOD_PASSWORD then 4 else 2
  }

  function VerdictOn(c: Config, s: Bytes): Verdict {
    if |s| < 2 then Starved
    else if !GoodHello(c, s[..2]) then Rejected(2)
    else if |s| < AuthLen(s) then Starved
    else if AuthLen(s) == 4 && !GoodPassword(s[2..4]) then Rejected(4)
    else ReplyVerdict(s, AuthLen(s))
  }

  /** The server has let the client in after exactly these bytes. */
  predicate Authenticated(c: Config, s: Bytes) {
    |s| >= 2 && GoodHello(c, s[..2]) && |s| == AuthLen(s) && (|s| == 4 ==> GoodPassword(s[2..4]))
  }

  // ---------------------------------------------------------------- what the client says

  function Methods(auth: seq<Auth>): Bytes {
    seq(|auth|, k requires 0 <= k < |auth| => Method(auth[k]))
  }

  function HelloMessage(c: Config): Bytes {
    [SOCKS_VERSION, |c.auth|] + Methods(c.auth)
  }

  function PasswordMessage(a: Auth): Bytes
    requires a.Password?
  {
    [1, |a.username|] + a.username + [|a.password|] + a.password
  }

  function RequestMessage(c: Config): Bytes {
    [SOCKS_VERSION, CMD_CONNECT, 0, if c.dest.Ipv4? then ATYP_IPV4 else ATYP_IPV6] + c.dest.bytes
  }

  /** Everything the client has said once it has read `s`. */
  function Said(c: Config, s: Bytes): seq<Bytes> {
    if |s| < 2 || !GoodHello(c, s[..2]) then [HelloMessage(c)]
    else
      var password := if AuthLen(s) == 4 then [PasswordMessage(c.auth[Choice(c.auth, METHOD_PASSWORD)])] else [];
      var request := if |s| >= AuthLen(s) && (AuthLen(s) == 4 ==> GoodPassword(s[2..4])) then [RequestMessage(c)] else [];
      [HelloMessage(c)] + password + request
  }

  // ---------------------------------------------------------------- longer streams

  lemma {:induction false} Slices(s: Bytes, t: Bytes, i: nat, j: nat)
    requires i <= j <= |s|
    ensures (s + t)[i..j] == s[i..j]
  {}

  lemma {:induction false} ReplyExtends(s: Bytes, t: Bytes, k: nat)
    ensures ReplyVerdict(s, k) == Starved || ReplyVerdict(s + t, k) == ReplyVerdict(s, k)
  {
    if |s| >= k + 4 {
      Slices(s, t, k, k + 4);
    }
  }

  /** A decision does not depend on what comes later. */
  lemma {:induction false} VerdictExtends(c: Config, s: Bytes, t: Bytes)
    ensures VerdictOn(c, s) == Starved || VerdictOn(c, s + t) == VerdictOn(c, s)
  {
    if |s| >= 2 {
      Slices(s, t, 0, 2);
      ReplyExtends(s, t, AuthLen(s));
      if |s| >= 4 {
        Slices(s, t, 2, 4);
      }
    }
  }

  /** What is accepted has the lengths of its messages: a hello, perhaps a password reply, a reply. */
  lemma {:induction false} AcceptedLength(c: Config, s: Bytes)
    requires VerdictOn(c, s).Accepted?
    ensures var password, addr := AuthLen(s) - 2, AddrLen(s[AuthLen(s) + 3]);
            && VerdictOn(c, s) == Accepted(2 + password + 4 + addr) && 2 + password + 4 + addr <= |s|
            && (password == 2 <==> s[1] == 2) && (password == 0 || password == 2)
            && ((s[AuthLen(s) + 3] == 1 && addr == 6) || (s[AuthLen(s) + 3] == 4 && addr == 18))
  {}
}
