/** SOCKS5 addresses, datagrams and the two sides of the handshake (RFC 1928 and RFC 1929). */
module Socks5 {
  import opened Wrappers
  import opened Bytes
  import opened Confluence

  const CMD_CONNECT: byte := 1
  const CMD_UDP_ASSOCIATE: byte := 3

  const ATYP_IPV4: byte := 1
  const ATYP_DOMAIN: byte := 3
  const ATYP_IPV6: byte := 4

  const MAX_ADDR_LEN := 1 + 1 + 255 + 2

  // ---------- addresses ----------

  /** The length that the first bytes of an address announce. */
  function AddrLen(b: bytes): Option<nat> {
    if |b| < 1 then None
    else if b[0] == ATYP_DOMAIN then if |b| < 2 then None else Some(1 + 1 + b[1] as int + 2)
    else if b[0] == ATYP_IPV4 then Some(1 + 4 + 2)
    else if b[0] == ATYP_IPV6 then Some(1 + 16 + 2)
    else None
  }

  /** SplitAddr */
  function SplitAddr(b: bytes): (r: Option<bytes>) {
    match AddrLen(b)
    case None => None
    case Some(n) => if |b| < n then None else Some(b[..n])
  }

  predicate ValidAddr(a: bytes) {
    AddrLen(a) == Some(|a|)
  }

  /** An address is found at the front of any bytes exactly when it is a valid one: it says where it ends. */
  lemma SplitFinds(a: bytes, rest: bytes)
    ensures SplitAddr(a + rest) == Some(a) <==> ValidAddr(a)
    ensures SplitAddr(a).Some? ==> ValidAddr(SplitAddr(a).value) && SplitAddr(a).value <= a
  {
    if ValidAddr(a) {
      assert (a + rest)[..|a|] == a;
    }
    if SplitAddr(a + rest) == Some(a) {
      assert (a + rest)[..|a|] == a;
      assert |a| >= 2 && (a + rest)[0] == a[0] && (a + rest)[1] == a[1];
    }
  }

  // ---------- datagrams ----------

  datatype Decoded = Decoded(addr: bytes, payload: bytes, err: bool)

  /** EncodeUDPPacket with an address that is not nil. */
  function EncodeUdp(addr: bytes, payload: bytes): bytes {
    [0, 0, 0] + addr + payload
  }

  /** DecodeUDPPacket; when no address is found the error comes with all that follows the header as payload. */
  function DecodeUdp(packet: bytes): (r: Decoded) {
    if |packet| < 5 then Decoded([], [], true)
    else if packet[..2] != [0, 0] then Decoded([], [], true)
    else if packet[2] != 0 then Decoded([], [], true)
    else
      match SplitAddr(packet[3..])
      case None => Decoded([], packet[3..], true)
      case Some(a) => Decoded(a, packet[3 + |a|..], false)
  }

  /** A datagram decodes to what was encoded exactly when its address is a valid one. */
  lemma UdpRoundTrip(addr: bytes, payload: bytes)
    ensures DecodeUdp(EncodeUdp(addr, payload)) == Decoded(addr, payload, false) <==> ValidAddr(addr)
  {
    var packet := EncodeUdp(addr, payload);
    assert packet[3..] == addr + payload;
    assert packet[..2] == [0, 0];
    SplitFinds(addr, payload);
    if ValidAddr(addr) {
      assert packet[3 + |addr|..] == payload;
    }
  }

  /** What decodes without error is the encoding of what it decodes to. */
  lemma UdpDecodedIsEncoded(packet: bytes)
    ensures
      var d := DecodeUdp(packet);
      !d.err ==> ValidAddr(d.addr) && EncodeUdp(d.addr, d.payload) == packet
  {
    var d := DecodeUdp(packet);
    if !d.err {
      SplitFinds(packet[3..], []);
      Rejoin(packet, d.addr);
    }
  }

  lemma Rejoin(packet: bytes, addr: bytes)
    requires |packet| >= 3 && packet[..2] == [0, 0] && packet[2] == 0 && addr <= packet[3..]
    ensures [0, 0, 0] + addr + packet[3 + |addr|..] == packet
  {
    assert packet[3..] == addr + packet[3..][|addr|..];
    assert packet[..3] == [0, 0, 0];
  }

  // ---------- the two sides ----------

  datatype User = User(name: bytes, password: bytes)

  type Authenticator = (bytes, bytes) -> bool

  /** What each side is called with: `local` is the server's own address, None if it cannot be written. */
  datatype Setup = Setup(auth: Option<Authenticator>, local: Option<bytes>, user: Option<User>, command: byte, addr: bytes)

  datatype Error = Eof | AuthFailed | AddressNotSupported | CommandNotSupported | VersionError | NeedsAuth | Rejected

  datatype Outcome = Target(addr: bytes, command: byte) | Bound(addr: bytes) | Failed(error: Error)

  /** Where ReadAddr stands: at the type, at a domain's length, or with n bytes to go. */
  datatype Reading = AtType | AtLength | Rest(sofar: bytes, n: nat)

  /** Where a side stands in its handshake; it reads next, except in Start, where the client writes first. */
  datatype Phase =
    | Hello | Methods(n: nat) | AuthHeader | UserName(n: nat) | PassLen(name: bytes) | Pass(name: bytes, n: nat)
    | Request | RequestAddr(command: byte, a: Reading)
    | Start | Method | AuthReply | Reply | ReplyAddr(a: Reading)
    | Done(outcome: Outcome)

  function ReadingNeeds(a: Reading): nat {
    match a case AtType => 1 case AtLength => 1 case Rest(_, n) => n
  }

  /** How many bytes a side reads next. */
  function Needs(p: Phase): nat {
    match p
    case Hello => 2
    case Methods(n) => n
    case AuthHeader => 2
    case UserName(n) => n
    case PassLen(_) => 1
    case Pass(_, n) => n
    case Request => 3
    case RequestAddr(_, a) => ReadingNeeds(a)
    case Start => 0
    case Method => 2
    case AuthReply => 2
    case Reply => 3
    case ReplyAddr(a) => ReadingNeeds(a)
    case Done(_) => 0
  }

  predicate KnownType(b: byte) {
    b == ATYP_DOMAIN || b == ATYP_IPV4 || b == ATYP_IPV6
  }

  datatype AddrStep = More(a: Reading) | Read(addr: bytes) | Unsupported

  /** ReadAddr, one read at a time. */
  function ReactAddr(a: Reading, data: bytes): AddrStep
    requires |data| == ReadingNeeds(a)
  {
    match a
    case AtType =>
      if data[0] == ATYP_DOMAIN then More(AtLength)
      else if data[0] == ATYP_IPV4 then More(Rest(data, 4 + 2))
      else if data[0] == ATYP_IPV6 then More(Rest(data, 16 + 2))
      else Unsupported
    case AtLength => More(Rest([ATYP_DOMAIN] + data, data[0] as int + 2))
    case Rest(sofar, n) => Read(sofar + data)
  }

  /** What a side writes, and where it goes on, when it has read what it needs. */
  function React(x: Setup, p: Phase, data: bytes): (bytes, Phase)
    requires |data| == Needs(p)
  {
    match p
    // the server
    case Hello => ([], Methods(data[1]))
    case Methods(_) => if x.auth.Some? then ([5, 2], AuthHeader) else ([5, 0], Request)
    case AuthHeader => if data[1] == 0 then ([1, 1], Done(Failed(AuthFailed))) else ([], UserName(data[1]))
    case UserName(_) => ([], PassLen(data))
    case PassLen(name) => if data[0] == 0 then ([1, 1], Done(Failed(AuthFailed))) else ([], Pass(name, data[0]))
    case Pass(name, _) =>
      if x.auth.Some? && x.auth.value(name, data) then ([1, 0], Request) else ([1, 1], Done(Failed(AuthFailed)))
    case Request => ([], RequestAddr(data[1], AtType))
    case RequestAddr(command, a) =>
      (match ReactAddr(a, data)
       case More(b) => ([], RequestAddr(command, b))
       case Unsupported => ([], Done(Failed(AddressNotSupported)))
       case Read(addr) => AnswerRequest(x, command, addr))
    // the client
    case Start => ([5, 1, if x.user.Some? then 2 else 0], Method)
    case Method =>
      if data[0] != 5 then ([], Done(Failed(VersionError)))
      else if data[1] == 2 then
        if x.user.None? then ([], Done(Failed(AuthFailed))) else (AuthMessage(x.user.value), AuthReply)
      else if data[1] != 0 then ([], Done(Failed(NeedsAuth)))
      else (RequestMessage(x), Reply)
    case AuthReply => if data[1] != 0 then ([], Done(Failed(Rejected))) else (RequestMessage(x), Reply)
    case Reply => ([], ReplyAddr(AtType))
    case ReplyAddr(a) =>
      (match ReactAddr(a, data)
       case More(b) => ([], ReplyAddr(b))
       case Unsupported => ([], Done(Failed(AddressNotSupported)))
       case Read(addr) => ([], Done(Bound(addr))))
    case Done(_) => ([], p)
  }

  /** The server's reply, none to a command it does not support. */
  function AnswerRequest(x: Setup, command: byte, addr: bytes): (bytes, Phase) {
    if command != CMD_CONNECT && command != CMD_UDP_ASSOCIATE then ([], Done(Failed(CommandNotSupported)))
    else if x.local.None? then ([], Done(Failed(AddressNotSupported)))
    else ([5, 0, 0] + x.local.value, Done(Target(addr, command)))
  }

  /** Lengths are cast to one byte. */
  function AuthMessage(u: User): bytes {
    [1, |u.name| % 0x100] + u.name + [|u.password| % 0x100] + u.password
  }

  function RequestMessage(x: Setup): bytes {
    [5, x.command, 0] + x.addr
  }

  /** Every reaction brings a side closer to its end. */
  function Rank(p: Phase): nat {
    match p
    case Hello => 10 case Methods(_) => 9 case AuthHeader => 8 case UserName(_) => 7 case PassLen(_) => 6
    case Pass(_, _) => 5 case Request => 4 case RequestAddr(_, a) => ReadingRank(a)
    case Start => 7 case Method => 6 case AuthReply => 5 case Reply => 4 case ReplyAddr(a) => ReadingRank(a)
    case Done(_) => 0
  }

  function ReadingRank(a: Reading): nat {
    match a case AtType => 3 case AtLength => 2 case Rest(_, _) => 1
  }

  lemma ReactDescends(x: Setup, p: Phase, data: bytes)
    requires |data| == Needs(p) && !p.Done?
    ensures Rank(React(x, p, data).1) < Rank(p)
  {
  }

  // ---------- the conversation ----------

  /** `up` and `down` are the bytes on their way to the server and to the client. */
  datatype Talk = Talk(client: Phase, server: Phase, up: bytes, down: bytes)

  function Begin(): Talk {
    Talk(Start, Hello, [], [])
  }

  predicate Enabled(t: Talk, client: bool) {
    if client then !t.client.Done? && Needs(t.client) <= |t.down|
    else !t.server.Done? && Needs(t.server) <= |t.up|
  }

  function Step(x: Setup, t: Talk, client: bool): Talk {
    if !Enabled(t, client) then t
    else if client then
      var n := Needs(t.client);
      var (out, p) := React(x, t.client, t.down[..n]);
      Talk(p, t.server, t.up + out, t.down[n..])
    else
      var n := Needs(t.server);
      var (out, p) := React(x, t.server, t.up[..n]);
      Talk(t.client, p, t.up[n..], t.down + out)
  }

  function Handshake(x: Setup): Game<Talk> {
    Game(Enabled, (t, client) => Step(x, t, client))
  }
}
