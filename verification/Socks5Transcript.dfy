/**
 What goes over the wire in a handshake, byte by byte, in the numbers of RFC 1928 and RFC 1929: what each side writes on
 what the other sends, and where it ends. Nothing here rests on what the two sides share.
 */
module Socks5Transcript {
  import opened Wrappers
  import opened Bytes
  import opened Socks5
  import opened Socks5Conn

  // ---------- addresses and datagrams ----------

  /** An address is type 1 with 4 bytes, type 4 with 16, or type 3 with a length byte and that many, and then 2 for the
      port. */
  lemma AddrLayout(a: bytes)
    ensures
      ValidAddr(a) <==>
        || (|a| == 7 && a[0] == 1)
        || (|a| == 19 && a[0] == 4)
        || (|a| >= 2 && a[0] == 3 && |a| == 4 + a[1] as int)
    ensures a != [] ==> (KnownType(a[0]) <==> a[0] == 1 || a[0] == 3 || a[0] == 4)
  {
  }

  /** A datagram is accepted if and only if it begins with three zero bytes and a valid address. */
  lemma UdpAccepted(packet: bytes)
    ensures !DecodeUdp(packet).err <==> exists a :: ValidAddr(a) && [0, 0, 0] + a <= packet
    ensures DecodeUdp(packet).err ==> DecodeUdp(packet).addr == []
  {
    if !DecodeUdp(packet).err {
      var d := DecodeUdp(packet);
      UdpDecodedIsEncoded(packet);
      assert packet == ([0, 0, 0] + d.addr) + d.payload;
    }
    if a :| ValidAddr(a) && [0, 0, 0] + a <= packet {
      AddrLayout(a);
      var payload := packet[3 + |a|..];
      assert packet == EncodeUdp(a, payload);
      UdpRoundTrip(a, payload);
    }
  }

  // ---------- one read ----------

  lemma {:induction false} SoloRead(x: Setup, p: Phase, data: bytes, rest: bytes)
    requires !p.Done? && |data| == Needs(p)
    ensures
      var (out, q) := React(x, p, data);
      var r := Solo(x, q, rest);
      Solo(x, p, data + rest) == Ran(r.end, r.rest, out + r.out)
  {
    SoloStep(x, p, data + rest);
    assert (data + rest)[..|data|] == data && (data + rest)[|data|..] == rest;
  }

  /** A read that is answered with nothing. */
  lemma {:induction false} SoloQuietly(x: Setup, p: Phase, data: bytes, rest: bytes, q: Phase)
    requires !p.Done? && |data| == Needs(p) && React(x, p, data) == ([], q)
    ensures Solo(x, p, data + rest) == Solo(x, q, rest)
  {
    SoloRead(x, p, data, rest);
    var r := Solo(x, q, rest);
    assert [] + r.out == r.out;
  }

  /** The last read. */
  lemma {:induction false} SoloLast(x: Setup, p: Phase, data: bytes, rest: bytes, out: bytes, q: Phase)
    requires !p.Done? && |data| == Needs(p) && React(x, p, data) == (out, q) && q.Done?
    ensures Solo(x, p, data + rest) == Ran(q, rest, out)
  {
    SoloRead(x, p, data, rest);
    assert out + [] == out;
  }

  // ---------- the server ----------

  /** The end of a request for `command` and `addr`, with `before` written by then. */
  function Requested(x: Setup, command: byte, addr: bytes, rest: bytes, before: bytes): Ran {
    if command != 1 && command != 3 then Ran(Done(Failed(CommandNotSupported)), rest, before)
    else if x.local.None? then Ran(Done(Failed(AddressNotSupported)), rest, before)
    else Ran(Done(Target(addr, command)), rest, before + [5, 0, 0] + x.local.value)
  }

  lemma {:induction false} ServerRequest(x: Setup, v: byte, command: byte, r: byte, addr: bytes, rest: bytes)
    requires ValidAddr(addr)
    ensures Solo(x, Request, [v, command, r] + (addr + rest)) == Requested(x, command, addr, rest, [])
  {
    SoloQuietly(x, Request, [v, command, r], addr + rest, RequestAddr(command, AtType));
    RequestAddrSolo(x, command, addr + rest);
    SplitFinds(addr, rest);
    assert (addr + rest)[|addr|..] == rest;
    if x.local.Some? {
      assert [] + [5, 0, 0] + x.local.value == [5, 0, 0] + x.local.value;
    }
  }

  lemma {:induction false} RequestedAfter(x: Setup, command: byte, addr: bytes, rest: bytes, out: bytes, before: bytes)
    ensures
      var r := Requested(x, command, addr, rest, before);
      Ran(r.end, r.rest, out + r.out) == Requested(x, command, addr, rest, out + before)
  {
    if x.local.Some? {
      assert out + (before + [5, 0, 0] + x.local.value) == (out + before) + [5, 0, 0] + x.local.value;
    }
  }

  /** The server answers 5 to the greeting, and 2 with an authenticator or 0 without one, whatever methods are listed. */
  lemma {:induction false} ServerGreets(x: Setup, v: byte, methods: bytes, rest: bytes)
    requires |methods| < 256
    ensures
      var r := Solo(x, if x.auth.Some? then AuthHeader else Request, rest);
      Solo(x, Hello, [v, |methods|] + (methods + rest)) == Ran(r.end, r.rest, [5, if x.auth.Some? then 2 else 0] + r.out)
  {
    SoloQuietly(x, Hello, [v, |methods|], methods + rest, Methods(|methods|));
    SoloRead(x, Methods(|methods|), methods, rest);
  }

  /** Without an authenticator it goes on to the request, and answers 5 0 0 and its own address to one it supports. */
  lemma {:induction false} ServerOpen(x: Setup, v: byte, methods: bytes, w: byte, command: byte, r: byte, addr: bytes, rest: bytes)
    requires x.auth.None? && |methods| < 256 && ValidAddr(addr)
    ensures
      Solo(x, Hello, [v, |methods|] + (methods + ([w, command, r] + (addr + rest)))) ==
      Requested(x, command, addr, rest, [5, 0])
  {
    ServerGreets(x, v, methods, [w, command, r] + (addr + rest));
    ServerRequest(x, w, command, r, addr, rest);
    RequestedAfter(x, command, addr, rest, [5, 0], []);
    assert [5, 0] + [] == [5, 0];
  }

  lemma {:induction false} ServerReadsName(x: Setup, a: byte, name: bytes, rest: bytes)
    requires 1 <= |name| < 256
    ensures Solo(x, AuthHeader, [a, |name|] + (name + rest)) == Solo(x, PassLen(name), rest)
  {
    SoloQuietly(x, AuthHeader, [a, |name|], name + rest, UserName(|name|));
    SoloQuietly(x, UserName(|name|), name, rest, PassLen(name));
  }

  lemma {:induction false} ServerReadsPassword(x: Setup, name: bytes, password: bytes, rest: bytes)
    requires x.auth.Some? && 1 <= |password| < 256
    ensures
      var r := Solo(x, Request, rest);
      Solo(x, PassLen(name), [|password|] + (password + rest)) ==
      if x.auth.value(name, password) then Ran(r.end, r.rest, [1, 0] + r.out)
      else Ran(Done(Failed(AuthFailed)), rest, [1, 1])
  {
    SoloQuietly(x, PassLen(name), [|password|], password + rest, Pass(name, |password|));
    if x.auth.value(name, password) {
      SoloRead(x, Pass(name, |password|), password, rest);
    } else {
      SoloLast(x, Pass(name, |password|), password, rest, [1, 1], Done(Failed(AuthFailed)));
    }
  }

  lemma {:induction false} ServerVerifies(x: Setup, v: byte, methods: bytes, a: byte, name: bytes, password: bytes, request: bytes)
    requires x.auth.Some? && |methods| < 256 && 1 <= |name| < 256 && 1 <= |password| < 256
    ensures
      var r := Solo(x, Request, request);
      Solo(x, Hello, [v, |methods|] + (methods + ([a, |name|] + (name + ([|password|] + (password + request)))))) ==
      if x.auth.value(name, password) then Ran(r.end, r.rest, [5, 2] + ([1, 0] + r.out))
      else Ran(Done(Failed(AuthFailed)), request, [5, 2] + [1, 1])
  {
    ServerGreets(x, v, methods, [a, |name|] + (name + ([|password|] + (password + request))));
    ServerReadsBoth(x, a, name, password, request);
  }

  lemma {:induction false} ServerReadsBoth(x: Setup, a: byte, name: bytes, password: bytes, rest: bytes)
    requires x.auth.Some? && 1 <= |name| < 256 && 1 <= |password| < 256
    ensures
      var r := Solo(x, Request, rest);
      Solo(x, AuthHeader, [a, |name|] + (name + ([|password|] + (password + rest)))) ==
      if x.auth.value(name, password) then Ran(r.end, r.rest, [1, 0] + r.out)
      else Ran(Done(Failed(AuthFailed)), rest, [1, 1])
  {
    ServerReadsName(x, a, name, [|password|] + (password + rest));
    ServerReadsPassword(x, name, password, rest);
  }

  /** With an authenticator the request comes after name and password, of 1 to 255 bytes, which are answered with 1 0, or
      with 1 1 if they are refused. */
  lemma {:induction false} ServerAuth(
      x: Setup, v: byte, methods: bytes, a: byte, name: bytes, password: bytes, w: byte, command: byte, r: byte, addr: bytes,
      rest: bytes)
    requires x.auth.Some? && |methods| < 256 && ValidAddr(addr) && 1 <= |name| < 256 && 1 <= |password| < 256
    ensures
      var request := [w, command, r] + (addr + rest);
      Solo(x, Hello, [v, |methods|] + (methods + ([a, |name|] + (name + ([|password|] + (password + request)))))) ==
      if x.auth.value(name, password) then Requested(x, command, addr, rest, [5, 2, 1, 0])
      else Ran(Done(Failed(AuthFailed)), request, [5, 2, 1, 1])
  {
    var request := [w, command, r] + (addr + rest);
    ServerVerifies(x, v, methods, a, name, password, request);
    ServerRequest(x, w, command, r, addr, rest);
    Answers(x, command, addr, rest);
  }

  lemma {:induction false} Answers(x: Setup, command: byte, addr: bytes, rest: bytes)
    ensures
      var r := Requested(x, command, addr, rest, []);
      Ran(r.end, r.rest, [5, 2] + ([1, 0] + r.out)) == Requested(x, command, addr, rest, [5, 2, 1, 0])
    ensures [5, 2] + [1, 1] == [5, 2, 1, 1]
  {
    var r := Requested(x, command, addr, rest, []);
    assert [5, 2] + ([1, 0] + r.out) == [5, 2, 1, 0] + r.out;
    RequestedAfter(x, command, addr, rest, [5, 2, 1, 0], []);
    assert [5, 2, 1, 0] + [] == [5, 2, 1, 0];
  }

  /** An empty name is refused at once. */
  lemma {:induction false} ServerRefusesEmptyName(x: Setup, v: byte, methods: bytes, a: byte, rest: bytes)
    requires x.auth.Some? && |methods| < 256
    ensures
      Solo(x, Hello, [v, |methods|] + (methods + ([a, 0] + rest))) == Ran(Done(Failed(AuthFailed)), rest, [5, 2, 1, 1])
  {
    ServerGreets(x, v, methods, [a, 0] + rest);
    SoloLast(x, AuthHeader, [a, 0], rest, [1, 1], Done(Failed(AuthFailed)));
    assert [5, 2] + [1, 1] == [5, 2, 1, 1];
  }

  /** An empty password is refused when the name has been read. */
  lemma {:induction false} ServerRefusesEmptyPassword(x: Setup, v: byte, methods: bytes, a: byte, name: bytes, rest: bytes)
    requires x.auth.Some? && |methods| < 256 && 1 <= |name| < 256
    ensures
      Solo(x, Hello, [v, |methods|] + (methods + ([a, |name|] + (name + ([0] + rest))))) ==
      Ran(Done(Failed(AuthFailed)), rest, [5, 2, 1, 1])
  {
    ServerGreets(x, v, methods, [a, |name|] + (name + ([0] + rest)));
    ServerReadsName(x, a, name, [0] + rest);
    SoloLast(x, PassLen(name), [0], rest, [1, 1], Done(Failed(AuthFailed)));
    assert [5, 2] + [1, 1] == [5, 2, 1, 1];
  }

  // ---------- the client ----------

  lemma {:induction false} ClientReply(x: Setup, v: byte, rep: byte, r: byte, addr: bytes, rest: bytes)
    requires ValidAddr(addr)
    ensures Solo(x, Reply, [v, rep, r] + (addr + rest)) == Ran(Done(Bound(addr)), rest, [])
  {
    SoloQuietly(x, Reply, [v, rep, r], addr + rest, ReplyAddr(AtType));
    ReplyAddrSolo(x, addr + rest);
    SplitFinds(addr, rest);
    assert (addr + rest)[|addr|..] == rest;
  }

  /** The client greets with 5 1 and the one method it can do, 2 with a user and 0 without. */
  lemma {:induction false} ClientGreets(x: Setup, input: bytes)
    ensures
      var r := Solo(x, Method, input);
      Solo(x, Start, input) == Ran(r.end, r.rest, [5, 1, if x.user.Some? then 2 else 0] + r.out)
  {
    SoloRead(x, Start, [], input);
    assert [] + input == input;
  }

  /** Told to send no password it requests at once: 5, the command, 0 and the address. */
  lemma {:induction false} ClientOpen(x: Setup, v: byte, rep: byte, r: byte, addr: bytes, rest: bytes)
    requires ValidAddr(addr)
    ensures
      Solo(x, Start, [5, 0] + ([v, rep, r] + (addr + rest))) ==
      Ran(Done(Bound(addr)), rest, [5, 1, if x.user.Some? then 2 else 0] + ([5, x.command, 0] + x.addr))
  {
    var reply := [v, rep, r] + (addr + rest);
    ClientGreets(x, [5, 0] + reply);
    SoloRead(x, Method, [5, 0], reply);
    ClientReply(x, v, rep, r, addr, rest);
    assert ([5, x.command, 0] + x.addr) + [] == [5, x.command, 0] + x.addr;
  }

  lemma {:induction false} ClientSends(x: Setup, input: bytes)
    requires x.user.Some?
    ensures
      var r := Solo(x, AuthReply, input);
      var u := x.user.value;
      var auth := [1, |u.name| % 256] + u.name + [|u.password| % 256] + u.password;
      Solo(x, Start, [5, 2] + input) == Ran(r.end, r.rest, [5, 1, 2] + (auth + r.out))
  {
    ClientGreets(x, [5, 2] + input);
    SoloRead(x, Method, [5, 2], input);
  }

  lemma {:induction false} ClientRequests(x: Setup, a: byte, v: byte, rep: byte, r: byte, addr: bytes, rest: bytes)
    requires ValidAddr(addr)
    ensures
      Solo(x, AuthReply, [a, 0] + ([v, rep, r] + (addr + rest))) == Ran(Done(Bound(addr)), rest, [5, x.command, 0] + x.addr)
  {
    SoloRead(x, AuthReply, [a, 0], [v, rep, r] + (addr + rest));
    ClientReply(x, v, rep, r, addr, rest);
    assert ([5, x.command, 0] + x.addr) + [] == [5, x.command, 0] + x.addr;
  }

  /** Told to send one it sends 1, name and password, each after its length in one byte, and requests when it has read a
      0 in second place. */
  lemma {:induction false} ClientAuth(x: Setup, a: byte, v: byte, rep: byte, r: byte, addr: bytes, rest: bytes)
    requires ValidAddr(addr) && x.user.Some?
    ensures
      var u := x.user.value;
      var auth := [1, |u.name| % 256] + u.name + [|u.password| % 256] + u.password;
      Solo(x, Start, [5, 2] + ([a, 0] + ([v, rep, r] + (addr + rest)))) ==
      Ran(Done(Bound(addr)), rest, [5, 1, 2] + (auth + ([5, x.command, 0] + x.addr)))
  {
    ClientSends(x, [a, 0] + ([v, rep, r] + (addr + rest)));
    ClientRequests(x, a, v, rep, r, addr, rest);
  }

  /** Anything else in second place is a refusal. */
  lemma {:induction false} ClientRejected(x: Setup, a: byte, status: byte, rest: bytes)
    requires x.user.Some? && status != 0
    ensures
      var u := x.user.value;
      var auth := [1, |u.name| % 256] + u.name + [|u.password| % 256] + u.password;
      Solo(x, Start, [5, 2] + ([a, status] + rest)) == Ran(Done(Failed(Rejected)), rest, [5, 1, 2] + auth)
  {
    var u := x.user.value;
    var auth := [1, |u.name| % 256] + u.name + [|u.password| % 256] + u.password;
    ClientSends(x, [a, status] + rest);
    SoloLast(x, AuthReply, [a, status], rest, [], Done(Failed(Rejected)));
    assert auth + [] == auth;
  }

  /** It gives up on another version, on a password it has not got, and on any other method, with nothing written but the
      greeting. */
  lemma {:induction false} ClientGivesUp(x: Setup, v: byte, offer: byte, rest: bytes)
    requires v != 5 || (offer == 2 && x.user.None?) || (offer != 2 && offer != 0)
    ensures
      Solo(x, Start, [v, offer] + rest) ==
      Ran(Done(Failed(if v != 5 then VersionError else if offer == 2 then AuthFailed else NeedsAuth)), rest,
          [5, 1, if x.user.Some? then 2 else 0])
  {
    var error := if v != 5 then VersionError else if offer == 2 then AuthFailed else NeedsAuth;
    ClientGreets(x, [v, offer] + rest);
    SoloLast(x, Method, [v, offer], rest, [], Done(Failed(error)));
    var greeting: bytes := [5, 1, if x.user.Some? then 2 else 0];
    assert greeting + [] == greeting;
  }
}
