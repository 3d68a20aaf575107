/** The handshake as each side runs it: reads into a reused buffer, writes in between. */
module Socks5Conn {
  import opened Wrappers
  import opened Bytes
  import opened Confluence
  import opened Socks5

  // ---------- one side alone ----------

  datatype Ran = Ran(end: Phase, rest: bytes, out: bytes)

  /** A side run on all the bytes it will get: where it ends, what it leaves unread, what it has written. */
  function Solo(x: Setup, p: Phase, input: bytes): Ran
    decreases Rank(p)
  {
    if p.Done? || |input| < Needs(p) then Ran(p, input, [])
    else
      var n := Needs(p);
      ReactDescends(x, p, input[..n]);
      var (out, q) := React(x, p, input[..n]);
      var r := Solo(x, q, input[n..]);
      Ran(r.end, r.rest, out + r.out)
  }

  /** A side that comes to its end reads no byte beyond: whatever follows stays as it is. */
  lemma {:induction false} BytesBeyondStay(x: Setup, p: Phase, input: bytes, beyond: bytes)
    requires Solo(x, p, input).end.Done?
    ensures
      var r := Solo(x, p, input);
      Solo(x, p, input + beyond) == Ran(r.end, r.rest + beyond, r.out)
    decreases Rank(p)
  {
    if !p.Done? {
      var n := Needs(p);
      ReactDescends(x, p, input[..n]);
      Ahead(input, n, beyond);
      BytesBeyondStay(x, React(x, p, input[..n]).1, input[n..], beyond);
    }
  }

  lemma Ahead(input: bytes, n: nat, beyond: bytes)
    requires n <= |input|
    ensures (input + beyond)[..n] == input[..n] && (input + beyond)[n..] == input[n..] + beyond
  {
  }

  function Turns(client: bool, n: nat): (r: seq<bool>) {
    if n == 0 then [] else [client] + Turns(client, n - 1)
  }

  lemma NoMoreTurns(x: Setup, t: Talk, client: bool, n: nat)
    requires !Enabled(t, client)
    ensures Run(Handshake(x), t, Turns(client, n)) == t
  {
    if n > 0 {
      NoMoreTurns(x, t, client, n - 1);
      assert Turns(client, n)[1..] == Turns(client, n - 1);
    }
  }

  /** Running the server alone is a run of the conversation in which only the server moves. */
  lemma {:induction false} SoloIsRun(x: Setup, t: Talk, n: nat)
    requires n >= Rank(t.server)
    ensures
      var r := Solo(x, t.server, t.up);
      Run(Handshake(x), t, Turns(false, n)) == Talk(t.client, r.end, r.rest, t.down + r.out)
    decreases n
  {
    if Enabled(t, false) {
      ReactDescends(x, t.server, t.up[..Needs(t.server)]);
      var s := Step(x, t, false);
      SoloIsRun(x, s, n - 1);
      assert Turns(false, n)[1..] == Turns(false, n - 1);
      var (out, q) := React(x, t.server, t.up[..Needs(t.server)]);
      Associative(t.down, out, Solo(x, q, t.up[Needs(t.server)..]).out);
    } else {
      NoMoreTurns(x, t, false, n);
      assert t.down + [] == t.down;
    }
  }

  /** The same for the client. */
  lemma {:induction false} ClientSoloIsRun(x: Setup, t: Talk, n: nat)
    requires n >= Rank(t.client)
    ensures
      var r := Solo(x, t.client, t.down);
      Run(Handshake(x), t, Turns(true, n)) == Talk(r.end, t.server, t.up + r.out, r.rest)
    decreases n
  {
    if Enabled(t, true) {
      ReactDescends(x, t.client, t.down[..Needs(t.client)]);
      var s := Step(x, t, true);
      ClientSoloIsRun(x, s, n - 1);
      assert Turns(true, n)[1..] == Turns(true, n - 1);
      var (out, q) := React(x, t.client, t.down[..Needs(t.client)]);
      Associative(t.up, out, Solo(x, q, t.down[Needs(t.client)..]).out);
    } else {
      NoMoreTurns(x, t, true, n);
      assert t.up + [] == t.up;
    }
  }

  /** On the way: what is still to come, after `out`, is what the phase makes of the rest. */
  predicate OnTheWay(x: Setup, all: Ran, p: Phase, input: bytes, out: bytes) {
    var r := Solo(x, p, input);
    all == Ran(r.end, r.rest, out + r.out)
  }

  lemma Begun(x: Setup, p: Phase, input: bytes)
    ensures OnTheWay(x, Solo(x, p, input), p, input, [])
  {
    assert [] + Solo(x, p, input).out == Solo(x, p, input).out;
  }

  /** One more read, of `data`. */
  lemma Advance(x: Setup, all: Ran, p: Phase, input: bytes, out: bytes, data: bytes, rest: bytes)
    requires OnTheWay(x, all, p, input, out) && !p.Done? && |data| == Needs(p) && input == data + rest
    ensures OnTheWay(x, all, React(x, p, data).1, rest, out + React(x, p, data).0)
  {
    assert input[..|data|] == data && input[|data|..] == rest;
    var (o, q) := React(x, p, data);
    Associative(out, o, Solo(x, q, rest).out);
  }

  /** A read that is answered with nothing. */
  lemma AdvanceQuietly(x: Setup, all: Ran, p: Phase, input: bytes, out: bytes, data: bytes, rest: bytes, q: Phase)
    requires OnTheWay(x, all, p, input, out) && !p.Done? && |data| == Needs(p) && input == data + rest
    requires React(x, p, data) == ([], q)
    ensures OnTheWay(x, all, q, rest, out)
  {
    Advance(x, all, p, input, out, data, rest);
    assert out + [] == out;
  }

  /** Out of bytes, or done. */
  lemma Over(x: Setup, all: Ran, p: Phase, input: bytes, out: bytes)
    requires OnTheWay(x, all, p, input, out) && (p.Done? || |input| < Needs(p))
    ensures all == Ran(p, input, out)
  {
    assert out + [] == out;
  }

  // ---------- the connection ----------

  /** The other side's bytes, as far as they will ever come, and one's own. */
  class Conn {
    var input: bytes
    var output: bytes

    constructor (b: bytes)
      ensures input == b && output == []
    {
      input, output := b, [];
    }

    /** io.ReadFull into a part of a buffer. */
    method ReadFull(buf: array<byte>, lo: nat, hi: nat) returns (ok: bool)
      requires lo <= hi <= buf.Length
      modifies this`input, buf
      ensures ok <==> |old(input)| >= hi - lo
      ensures ok ==> old(input) == buf[lo..hi] + input
      ensures forall k :: 0 <= k < buf.Length && !(lo <= k < hi) ==> buf[k] == old(buf[k])
      ensures !ok ==> input == []
    {
      var n := hi - lo;
      ok := |input| >= n;
      var m := if ok then n else |input|;
      forall k | 0 <= k < m {
        buf[lo + k] := input[k];
      }
      assert ok ==> buf[lo..hi] == input[..n];
      input := input[m..];
    }

    method Write(b: bytes)
      modifies this`output
      ensures output == old(output) + b
    {
      output := output + b;
    }
  }

  // ---------- reading an address ----------

  datatype AddrResult = Got(addr: bytes) | Short | BadType | ShortBuffer

  /** ReadAddr takes from the stream exactly the address at its front. */
  method ReadAddr(conn: Conn, buf: array<byte>) returns (r: AddrResult)
    modifies conn`input, buf
    ensures r.ShortBuffer? <==> buf.Length < 259
    ensures match r
            case Got(a) => SplitAddr(old(conn.input)) == Some(a) && old(conn.input) == a + conn.input
            case BadType => old(conn.input) != [] && !KnownType(old(conn.input)[0]) && conn.input == old(conn.input)[1..]
            case Short => SplitAddr(old(conn.input)) == None && (old(conn.input) == [] || KnownType(old(conn.input)[0]))
            case ShortBuffer => conn.input == old(conn.input)
  {
    if buf.Length < MAX_ADDR_LEN {
      return ShortBuffer;
    }
    ghost var all := conn.input;
    var ok := conn.ReadFull(buf, 0, 1);
    if !ok {
      return Short;
    }
    assert buf[..1] == buf[0..1];
    if buf[0] == ATYP_DOMAIN {
      ok := conn.ReadFull(buf, 1, 2);
      if !ok {
        return Short;
      }
      assert buf[..2] == buf[..1] + buf[1..2];
      assert all == buf[..2] + conn.input;
      r := ReadRest(conn, buf, 2, 1 + 1 + buf[1] as int + 2, all);
    } else if buf[0] == ATYP_IPV4 {
      r := ReadRest(conn, buf, 1, 1 + 4 + 2, all);
    } else if buf[0] == ATYP_IPV6 {
      r := ReadRest(conn, buf, 1, 1 + 16 + 2, all);
    } else {
      return BadType;
    }
  }

  /** The rest of an address of n bytes, the first k of which are in the buffer. */
  method ReadRest(conn: Conn, buf: array<byte>, k: nat, n: nat, ghost all: bytes) returns (r: AddrResult)
    requires 0 < k <= n <= buf.Length && all == buf[..k] + conn.input && KnownType(all[0]) && AddrLen(all) == Some(n)
    modifies conn`input, buf
    ensures r.Got? || r.Short?
    ensures r.Got? ==> SplitAddr(all) == Some(r.addr) && all == r.addr + conn.input
    ensures r.Short? ==> SplitAddr(all) == None
  {
    ghost var head := buf[..k];
    var ok := conn.ReadFull(buf, k, n);
    if !ok {
      return Short;
    }
    assert buf[..k] == head;
    assert buf[..n] == buf[..k] + buf[k..n];
    r := Got(buf[..n]);
    assert all[..n] == buf[..n];
  }

  /** One read of a side alone. */
  lemma SoloStep(x: Setup, p: Phase, input: bytes)
    requires !p.Done? && |input| >= Needs(p)
    ensures
      var n := Needs(p);
      var (out, q) := React(x, p, input[..n]);
      var r := Solo(x, q, input[n..]);
      && Solo(x, p, input) == Ran(r.end, r.rest, out + r.out)
      && (out == [] ==> Solo(x, p, input) == r)
      && (q.Done? ==> Solo(x, p, input) == Ran(q, input[n..], out))
  {
    var r := Solo(x, React(x, p, input[..Needs(p)]).1, input[Needs(p)..]);
    assert [] + r.out == r.out;
  }

  lemma Slices(b: bytes, i: nat, j: nat)
    requires i + j <= |b|
    ensures b[..i] + b[i..][..j] == b[..i + j] && b[i..][j..] == b[i + j..]
  {
  }

  /** The server's read of an address. */
  function AddrRan(x: Setup, command: byte, addr: bytes, rest: bytes): Ran {
    var (out, q) := AnswerRequest(x, command, addr);
    Ran(q, rest, out)
  }

  lemma RequestRest(x: Setup, command: byte, sofar: bytes, n: nat, input: bytes)
    ensures
      var r := Solo(x, RequestAddr(command, Rest(sofar, n)), input);
      if |input| < n then !r.end.Done? && r.out == [] else r == AddrRan(x, command, sofar + input[..n], input[n..])
  {
    if |input| >= n {
      SoloStep(x, RequestAddr(command, Rest(sofar, n)), input);
    }
  }

  /** What is known about the address at the front of some bytes, as a reader finds out. */
  lemma DomainAddr(input: bytes)
    requires |input| > 1 && input[0] == ATYP_DOMAIN
    ensures [ATYP_DOMAIN] + input[1..][..1] == input[..2] && input[1..][1..] == input[2..]
    ensures
      var n := input[1] as int + 2;
      SplitAddr(input) == if |input[2..]| < n then None else Some(input[..2] + input[2..][..n])
  {
    var n := input[1] as int + 2;
    Slices(input, 1, 1);
    if |input| >= 2 + n { Slices(input, 2, n); }
  }

  lemma FixedAddr(input: bytes)
    requires input != [] && KnownType(input[0]) && input[0] != ATYP_DOMAIN
    ensures
      var n := if input[0] == ATYP_IPV4 then 6 else 18;
      SplitAddr(input) == if |input[1..]| < n then None else Some(input[..1] + input[1..][..n])
  {
    var n := if input[0] == ATYP_IPV4 then 6 else 18;
    if |input| >= 1 + n { Slices(input, 1, n); }
  }

  /** What the server makes of the address at the front of its bytes. */
  ghost predicate ServerMakes(x: Setup, command: byte, input: bytes, r: Ran) {
    match SplitAddr(input)
    case Some(a) => r == AddrRan(x, command, a, input[|a|..])
    case None =>
      if input == [] || KnownType(input[0]) then !r.end.Done? && r.out == []
      else r == Ran(Done(Failed(AddressNotSupported)), input[1..], [])
  }

  lemma RequestDomain(x: Setup, command: byte, input: bytes)
    requires input != [] && input[0] == ATYP_DOMAIN
    ensures ServerMakes(x, command, input, Solo(x, RequestAddr(command, AtLength), input[1..]))
  {
    if |input| > 1 {
      var n := input[1] as int + 2;
      SoloStep(x, RequestAddr(command, AtLength), input[1..]);
      DomainAddr(input);
      RequestRest(x, command, input[..2], n, input[2..]);
      if |input| >= 2 + n { Slices(input, 2, n); }
    }
  }

  lemma RequestFixed(x: Setup, command: byte, input: bytes)
    requires input != [] && KnownType(input[0]) && input[0] != ATYP_DOMAIN
    ensures
      var n := if input[0] == ATYP_IPV4 then 6 else 18;
      ServerMakes(x, command, input, Solo(x, RequestAddr(command, Rest(input[..1], n)), input[1..]))
  {
    var n := if input[0] == ATYP_IPV4 then 6 else 18;
    FixedAddr(input);
    RequestRest(x, command, input[..1], n, input[1..]);
    if |input| >= 1 + n { Slices(input, 1, n); }
  }

  lemma RequestAddrSolo(x: Setup, command: byte, input: bytes)
    ensures ServerMakes(x, command, input, Solo(x, RequestAddr(command, AtType), input))
  {
    if input != [] {
      SoloStep(x, RequestAddr(command, AtType), input);
      if input[0] == ATYP_DOMAIN {
        RequestDomain(x, command, input);
      } else if KnownType(input[0]) {
        RequestFixed(x, command, input);
      }
    }
  }

  lemma ReplyRest(x: Setup, sofar: bytes, n: nat, input: bytes)
    ensures
      var r := Solo(x, ReplyAddr(Rest(sofar, n)), input);
      if |input| < n then !r.end.Done? && r.out == [] else r == Ran(Done(Bound(sofar + input[..n])), input[n..], [])
  {
    if |input| >= n {
      SoloStep(x, ReplyAddr(Rest(sofar, n)), input);
    }
  }

  /** What the client makes of the address at the front of its bytes. */
  ghost predicate ClientMakes(input: bytes, r: Ran) {
    match SplitAddr(input)
    case Some(a) => r == Ran(Done(Bound(a)), input[|a|..], [])
    case None =>
      if input == [] || KnownType(input[0]) then !r.end.Done? && r.out == []
      else r == Ran(Done(Failed(AddressNotSupported)), input[1..], [])
  }

  lemma ReplyDomain(x: Setup, input: bytes)
    requires input != [] && input[0] == ATYP_DOMAIN
    ensures ClientMakes(input, Solo(x, ReplyAddr(AtLength), input[1..]))
  {
    if |input| > 1 {
      var n := input[1] as int + 2;
      SoloStep(x, ReplyAddr(AtLength), input[1..]);
      DomainAddr(input);
      ReplyRest(x, input[..2], n, input[2..]);
      if |input| >= 2 + n { Slices(input, 2, n); }
    }
  }

  lemma ReplyFixed(x: Setup, input: bytes)
    requires input != [] && KnownType(input[0]) && input[0] != ATYP_DOMAIN
    ensures
      var n := if input[0] == ATYP_IPV4 then 6 else 18;
      ClientMakes(input, Solo(x, ReplyAddr(Rest(input[..1], n)), input[1..]))
  {
    var n := if input[0] == ATYP_IPV4 then 6 else 18;
    FixedAddr(input);
    ReplyRest(x, input[..1], n, input[1..]);
    if |input| >= 1 + n { Slices(input, 1, n); }
  }

  lemma ReplyAddrSolo(x: Setup, input: bytes)
    ensures ClientMakes(input, Solo(x, ReplyAddr(AtType), input))
  {
    if input != [] {
      SoloStep(x, ReplyAddr(AtType), input);
      if input[0] == ATYP_DOMAIN {
        ReplyDomain(x, input);
      } else if KnownType(input[0]) {
        ReplyFixed(x, input);
      }
    }
  }

  // ---------- the handshakes ----------

  /** What a handshake did: all that its side does alone, with Eof where it would wait for ever. */
  ghost predicate Did(all: Ran, r: Outcome, rest: bytes, out: bytes) {
    && out == all.out
    && if all.end.Done? then r == all.end.outcome && rest == all.rest else r == Failed(Eof)
  }

  /** ServerHandshake */
  method ServerHandshake(conn: Conn, x: Setup) returns (r: Outcome)
    requires conn.output == []
    modifies conn
    ensures Did(Solo(x, Hello, old(conn.input)), r, conn.input, conn.output)
  {
    ghost var all := Solo(x, Hello, conn.input);
    Begun(x, Hello, conn.input);
    var buf := new byte[MAX_ADDR_LEN];
    ghost var input := conn.input;
    var ok := conn.ReadFull(buf, 0, 2);
    if !ok {
      Over(x, all, Hello, input, []);
      return Failed(Eof);
    }
    Advance(x, all, Hello, input, [], buf[..2], conn.input);
    var nmethods := buf[1];
    input := conn.input;
    ok := conn.ReadFull(buf, 0, nmethods);
    if !ok {
      Over(x, all, Methods(nmethods), input, []);
      return Failed(Eof);
    }
    Advance(x, all, Methods(nmethods), input, [], buf[..nmethods], conn.input);
    if x.auth.Some? {
      conn.Write([5, 2]);
      var failed := Authenticate(conn, x, all);
      if failed.Some? {
        return failed.value;
      }
    } else {
      conn.Write([5, 0]);
    }
    r := HandleRequest(conn, x, buf, all);
  }

  /** The username and password of RFC 1929. */
  method Authenticate(conn: Conn, x: Setup, ghost all: Ran) returns (failed: Option<Outcome>)
    requires x.auth.Some? && OnTheWay(x, all, AuthHeader, conn.input, conn.output)
    modifies conn
    ensures failed.None? ==> OnTheWay(x, all, Request, conn.input, conn.output)
    ensures failed.Some? ==> Did(all, failed.value, conn.input, conn.output)
  {
    var header, authBuf := new byte[2], new byte[255];
    ghost var input := conn.input;
    var ok := conn.ReadFull(header, 0, 2);
    if !ok {
      Over(x, all, AuthHeader, input, conn.output);
      return Some(Failed(Eof));
    }
    var head := header[..2];
    var userLen := head[1];
    if userLen <= 0 {
      Advance(x, all, AuthHeader, input, conn.output, head, conn.input);
      conn.Write([1, 1]);
      Over(x, all, Done(Failed(AuthFailed)), conn.input, conn.output);
      return Some(Failed(AuthFailed));
    }
    AdvanceQuietly(x, all, AuthHeader, input, conn.output, head, conn.input, UserName(userLen));
    input := conn.input;
    ok := conn.ReadFull(authBuf, 0, userLen);
    if !ok {
      Over(x, all, UserName(userLen), input, conn.output);
      return Some(Failed(Eof));
    }
    var user := authBuf[..userLen];
    AdvanceQuietly(x, all, UserName(userLen), input, conn.output, user, conn.input, PassLen(user));
    failed := Password(conn, x, header, authBuf, user, all);
  }

  method Password(conn: Conn, x: Setup, header: array<byte>, authBuf: array<byte>, user: bytes, ghost all: Ran)
    returns (failed: Option<Outcome>)
    requires x.auth.Some? && OnTheWay(x, all, PassLen(user), conn.input, conn.output)
    requires header.Length == 2 && authBuf.Length == 255
    modifies conn, header, authBuf
    ensures failed.None? ==> OnTheWay(x, all, Request, conn.input, conn.output)
    ensures failed.Some? ==> Did(all, failed.value, conn.input, conn.output)
  {
    ghost var input := conn.input;
    var ok := conn.ReadFull(header, 0, 1);
    if !ok {
      Over(x, all, PassLen(user), input, conn.output);
      return Some(Failed(Eof));
    }
    var passLen := header[0];
    assert header[0..1] == [passLen];
    if passLen <= 0 {
      Advance(x, all, PassLen(user), input, conn.output, [passLen], conn.input);
      conn.Write([1, 1]);
      Over(x, all, Done(Failed(AuthFailed)), conn.input, conn.output);
      return Some(Failed(AuthFailed));
    }
    AdvanceQuietly(x, all, PassLen(user), input, conn.output, [passLen], conn.input, Pass(user, passLen));
    input := conn.input;
    ok := conn.ReadFull(authBuf, 0, passLen);
    if !ok {
      Over(x, all, Pass(user, passLen), input, conn.output);
      return Some(Failed(Eof));
    }
    var pass := authBuf[..passLen];
    failed := Verify(conn, x, user, pass, input, all);
  }

  method Verify(conn: Conn, x: Setup, user: bytes, pass: bytes, ghost input: bytes, ghost all: Ran)
    returns (failed: Option<Outcome>)
    requires x.auth.Some? && OnTheWay(x, all, Pass(user, |pass|), input, conn.output) && input == pass + conn.input
    modifies conn`output
    ensures failed.None? ==> OnTheWay(x, all, Request, conn.input, conn.output)
    ensures failed.Some? ==> Did(all, failed.value, conn.input, conn.output)
  {
    Advance(x, all, Pass(user, |pass|), input, conn.output, pass, conn.input);
    if !x.auth.value(user, pass) {
      conn.Write([1, 1]);
      Over(x, all, Done(Failed(AuthFailed)), conn.input, conn.output);
      return Some(Failed(AuthFailed));
    }
    conn.Write([1, 0]);
    return None;
  }

  /** The request, and the reply to it. */
  method HandleRequest(conn: Conn, x: Setup, buf: array<byte>, ghost all: Ran) returns (r: Outcome)
    requires OnTheWay(x, all, Request, conn.input, conn.output) && buf.Length == MAX_ADDR_LEN
    modifies conn, buf
    ensures Did(all, r, conn.input, conn.output)
  {
    ghost var input := conn.input;
    var ok := conn.ReadFull(buf, 0, 3);
    if !ok {
      Over(x, all, Request, input, conn.output);
      return Failed(Eof);
    }
    var head := buf[..3];
    AdvanceQuietly(x, all, Request, input, conn.output, head, conn.input, RequestAddr(head[1], AtType));
    r := AnswerTarget(conn, x, buf, head[1], all);
  }

  method AnswerTarget(conn: Conn, x: Setup, buf: array<byte>, command: byte, ghost all: Ran) returns (r: Outcome)
    requires OnTheWay(x, all, RequestAddr(command, AtType), conn.input, conn.output) && buf.Length == MAX_ADDR_LEN
    modifies conn, buf
    ensures Did(all, r, conn.input, conn.output)
  {
    ghost var input, out := conn.input, conn.output;
    RequestAddrSolo(x, command, input);
    var addr := ReadAddr(conn, buf);
    if !addr.Got? {
      assert out + [] == out;
      return Failed(if addr.BadType? then AddressNotSupported else Eof);
    }
    assert input[|addr.addr|..] == conn.input;
    assert all == Ran(AnswerRequest(x, command, addr.addr).1, conn.input, out + AnswerRequest(x, command, addr.addr).0);
    assert out + [] == out;
    if command == CMD_CONNECT || command == CMD_UDP_ASSOCIATE {
      if x.local.None? {
        return Failed(AddressNotSupported);
      }
      conn.Write([5, 0, 0] + x.local.value);
      return Target(addr.addr, command);
    }
    return Failed(CommandNotSupported);
  }

  /** ClientHandshake */
  method ClientHandshake(conn: Conn, x: Setup) returns (r: Outcome)
    requires conn.output == []
    modifies conn
    ensures Did(Solo(x, Start, old(conn.input)), r, conn.input, conn.output)
  {
    ghost var all := Solo(x, Start, conn.input);
    Begun(x, Start, conn.input);
    var buf := new byte[MAX_ADDR_LEN];
    Advance(x, all, Start, conn.input, [], [], conn.input);
    conn.Write(if x.user.Some? then [5, 1, 2] else [5, 1, 0]);
    ghost var input := conn.input;
    var ok := conn.ReadFull(buf, 0, 2);
    if !ok {
      Over(x, all, Method, input, conn.output);
      return Failed(Eof);
    }
    Advance(x, all, Method, input, conn.output, buf[..2], conn.input);
    if buf[0] != 5 {
      Over(x, all, Done(Failed(VersionError)), conn.input, conn.output);
      return Failed(VersionError);
    }
    if buf[1] == 2 {
      if x.user.None? {
        Over(x, all, Done(Failed(AuthFailed)), conn.input, conn.output);
        return Failed(AuthFailed);
      }
      conn.Write(AuthMessage(x.user.value));
      r := AwaitAuth(conn, x, buf, all);
      return;
    }
    if buf[1] != 0 {
      Over(x, all, Done(Failed(NeedsAuth)), conn.input, conn.output);
      return Failed(NeedsAuth);
    }
    conn.Write(RequestMessage(x));
    r := AwaitReply(conn, x, buf, all);
  }

  method AwaitAuth(conn: Conn, x: Setup, buf: array<byte>, ghost all: Ran) returns (r: Outcome)
    requires OnTheWay(x, all, AuthReply, conn.input, conn.output) && buf.Length == MAX_ADDR_LEN
    modifies conn, buf
    ensures Did(all, r, conn.input, conn.output)
  {
    ghost var input := conn.input;
    var ok := conn.ReadFull(buf, 0, 2);
    if !ok {
      Over(x, all, AuthReply, input, conn.output);
      return Failed(Eof);
    }
    Advance(x, all, AuthReply, input, conn.output, buf[..2], conn.input);
    if buf[1] != 0 {
      Over(x, all, Done(Failed(Rejected)), conn.input, conn.output);
      return Failed(Rejected);
    }
    conn.Write(RequestMessage(x));
    r := AwaitReply(conn, x, buf, all);
  }

  method AwaitReply(conn: Conn, x: Setup, buf: array<byte>, ghost all: Ran) returns (r: Outcome)
    requires OnTheWay(x, all, Reply, conn.input, conn.output) && buf.Length == MAX_ADDR_LEN
    modifies conn, buf
    ensures Did(all, r, conn.input, conn.output)
  {
    ghost var input := conn.input;
    var ok := conn.ReadFull(buf, 0, 3);
    if !ok {
      Over(x, all, Reply, input, conn.output);
      return Failed(Eof);
    }
    Advance(x, all, Reply, input, conn.output, buf[..3], conn.input);
    input := conn.input;
    ReplyAddrSolo(x, input);
    var addr := ReadAddr(conn, buf);
    assert conn.output + [] == conn.output;
    match addr {
      case Got(a) =>
        assert input[|a|..] == conn.input;
        return Bound(a);
      case BadType => return Failed(AddressNotSupported);
      case Short => return Failed(Eof);
      case ShortBuffer => assert false;
    }
  }
}
