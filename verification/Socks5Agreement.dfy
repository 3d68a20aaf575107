/** However the two sides of the handshake are scheduled, the conversation has one end. */
module Socks5Agreement {
  import opened Bytes
  import opened Confluence
  import opened Socks5

  // ---------- one end for every schedule ----------

  lemma Queue(q: bytes, n: nat, out: bytes)
    requires n <= |q|
    ensures (q + out)[..n] == q[..n] && (q + out)[n..] == q[n..] + out
  {
  }

  /** Each side keeps its turn while the other moves, and the order of two moves does not matter. */
  lemma Diamond(x: Setup, t: Talk)
    requires Enabled(t, true) && Enabled(t, false)
    ensures Enabled(Step(x, t, true), false) && Enabled(Step(x, t, false), true)
    ensures Step(x, Step(x, t, true), false) == Step(x, Step(x, t, false), true)
  {
    var (up, _) := React(x, t.client, t.down[..Needs(t.client)]);
    var (down, _) := React(x, t.server, t.up[..Needs(t.server)]);
    Queue(t.up, Needs(t.server), up);
    Queue(t.down, Needs(t.client), down);
  }

  lemma HandshakeCommutes(x: Setup)
    ensures Commutes(Handshake(x))
  {
    var g := Handshake(x);
    forall t: Talk | g.on(t, true) && g.on(t, false)
      ensures g.on(g.step(t, true), false) && g.on(g.step(t, false), true)
      ensures g.step(g.step(t, true), false) == g.step(g.step(t, false), true)
    {
      Diamond(x, t);
    }
  }

  // ---------- walking to the end ----------

  ghost predicate Leads(x: Setup, t: Talk, u: Talk) {
    exists n: nat :: Ends(Handshake(x), t, u, n)
  }

  lemma MoveLeads(x: Setup, t: Talk, client: bool, u: Talk)
    requires Enabled(t, client) && Leads(x, Step(x, t, client), u)
    ensures Leads(x, t, u)
  {
    var n: nat :| Ends(Handshake(x), Step(x, t, client), u, n);
    var g := Handshake(x);
    assert g.on(t, client) && Ends(g, g.step(t, client), u, n);
    assert Ends(g, t, u, n + 1);
  }

  /** One move of the client that reads exactly `data`. */
  lemma ClientMoves(x: Setup, t: Talk, data: bytes, rest: bytes, v: Talk, u: Talk)
    requires !t.client.Done? && |data| == Needs(t.client) && t.down == data + rest
    requires var (out, p) := React(x, t.client, data); v == Talk(p, t.server, t.up + out, rest)
    requires Leads(x, v, u)
    ensures Leads(x, t, u)
  {
    assert t.down[..|data|] == data && t.down[|data|..] == rest;
    MoveLeads(x, t, true, u);
  }

  lemma ServerMoves(x: Setup, t: Talk, data: bytes, rest: bytes, v: Talk, u: Talk)
    requires !t.server.Done? && |data| == Needs(t.server) && t.up == data + rest
    requires var (out, p) := React(x, t.server, data); v == Talk(t.client, p, rest, t.down + out)
    requires Leads(x, v, u)
    ensures Leads(x, t, u)
  {
    assert t.up[..|data|] == data && t.up[|data|..] == rest;
    MoveLeads(x, t, false, u);
  }

  lemma AlreadyThere(x: Setup, u: Talk)
    requires Stuck(Handshake(x), u)
    ensures Leads(x, u, u)
  {
    assert Ends(Handshake(x), u, u, 0);
  }

  // ---------- addresses ----------

  /** The reading of an address ends, having read exactly it. */
  predicate Reads(a: Reading, b: bytes, addr: bytes)
    decreases match a case AtType => 2 case AtLength => 1 case Rest(_, _) => 0
  {
    var n := ReadingNeeds(a);
    && n <= |b|
    && match ReactAddr(a, b[..n])
       case More(c) => (a.AtType? || a.AtLength?) && (a.AtLength? ==> c.Rest?) && (a.AtType? ==> !c.AtType?) && Reads(c, b[n..], addr)
       case Read(d) => d == addr && |b| == n
       case Unsupported => false
  }

  lemma ValidReads(addr: bytes)
    requires ValidAddr(addr)
    ensures Reads(AtType, addr, addr)
  {
    var tail := addr[1..];
    assert addr == addr[..1] + tail;
    if addr[0] == ATYP_DOMAIN {
      assert tail[..1] == [addr[1]];
      assert addr == [ATYP_DOMAIN] + tail[..1] + tail[1..];
      assert tail[1..][..|tail| - 1] == tail[1..];
      assert Reads(Rest([ATYP_DOMAIN] + tail[..1], addr[1] as int + 2), tail[1..], addr);
      assert Reads(AtLength, tail, addr);
    } else {
      assert tail[..|tail|] == tail;
      assert Reads(Rest(addr[..1], |tail|), tail, addr);
    }
  }

  /** The server reads the address. */
  lemma {:induction false} ServerReads(x: Setup, t: Talk, b: bytes, addr: bytes, v: Talk, u: Talk)
    requires t.server.RequestAddr? && t.up == b && Reads(t.server.a, b, addr)
    requires v == AddrRead(x, t.client, t.server.command, addr, t.down)
    requires Leads(x, v, u)
    ensures Leads(x, t, u)
    decreases match t.server.a case AtType => 2 case AtLength => 1 case Rest(_, _) => 0
  {
    var n := ReadingNeeds(t.server.a);
    assert b == b[..n] + b[n..];
    match ReactAddr(t.server.a, b[..n]) {
      case More(c) =>
        var w := Talk(t.client, RequestAddr(t.server.command, c), b[n..], t.down);
        ServerReads(x, w, b[n..], addr, v, u);
        assert t.down + [] == t.down;
        ServerMoves(x, t, b[..n], b[n..], w, u);
      case Read(_) =>
        assert b[n..] == [] && t.down + [] == t.down;
        ServerMoves(x, t, b[..n], b[n..], v, u);
    }
  }

  /** What the server does once it has the address. */
  function AddrRead(x: Setup, client: Phase, command: byte, addr: bytes, down: bytes): Talk {
    if command != CMD_CONNECT && command != CMD_UDP_ASSOCIATE then Talk(client, Done(Failed(CommandNotSupported)), [], down)
    else if x.local.None? then Talk(client, Done(Failed(AddressNotSupported)), [], down)
    else Talk(client, Done(Target(addr, command)), [], down + ([5, 0, 0] + x.local.value))
  }

  lemma {:induction false} ClientReads(x: Setup, t: Talk, b: bytes, addr: bytes, u: Talk)
    requires t.client.ReplyAddr? && t.down == b && Reads(t.client.a, b, addr)
    requires Leads(x, Talk(Done(Bound(addr)), t.server, t.up, []), u)
    ensures Leads(x, t, u)
    decreases match t.client.a case AtType => 2 case AtLength => 1 case Rest(_, _) => 0
  {
    var n := ReadingNeeds(t.client.a);
    assert b == b[..n] + b[n..];
    match ReactAddr(t.client.a, b[..n]) {
      case More(c) =>
        var w := Talk(ReplyAddr(c), t.server, t.up, b[n..]);
        ClientReads(x, w, b[n..], addr, u);
        assert t.up + [] == t.up;
        ClientMoves(x, t, b[..n], b[n..], w, u);
      case Read(_) =>
        assert b[n..] == [] && t.up + [] == t.up;
        ClientMoves(x, t, b[..n], b[n..], Talk(Done(Bound(addr)), t.server, t.up, []), u);
    }
  }

  // ---------- the end of a handshake ----------

  /** Arguments the handshake is meant for. */
  predicate Proper(x: Setup) {
    && ValidAddr(x.addr)
    && (x.local.Some? ==> ValidAddr(x.local.value))
    && (x.user.Some? ==> Announced(x.user.value.name) && Announced(x.user.value.password))
  }

  /** The one byte for its length says how long it is, or says 0, which a multiple of 256 does too. */
  predicate Announced(b: bytes) {
    |b| <= 255 || |b| % 0x100 == 0
  }

  predicate Empty(b: bytes) {
    |b| % 0x100 == 0
  }

  predicate Accepted(x: Setup) {
    x.auth.None? ||
    (x.user.Some? &&
     var u := x.user.value; !Empty(u.name) && !Empty(u.password) && x.auth.value(u.name, u.password))
  }

  predicate Supported(x: Setup) {
    (x.command == CMD_CONNECT || x.command == CMD_UDP_ASSOCIATE) && x.local.Some?
  }

  /** The server knows the target, the client the address it is bound to, and no byte is left over. */
  function Agreed(x: Setup): Talk
    requires x.local.Some?
  {
    Talk(Done(Bound(x.local.value)), Done(Target(x.addr, x.command)), [], [])
  }

  function Ending(x: Setup): Talk {
    if !Accepted(x) then
      if x.user.None? then Talk(Done(Failed(AuthFailed)), AuthHeader, [], [])
      else
        var u := x.user.value;
        var rest := [|u.password| % 0x100] + u.password;
        Talk(Done(Failed(Rejected)), Done(Failed(AuthFailed)),
             if Empty(u.name) then u.name + rest else if Empty(u.password) then u.password else [], [])
    else if !Supported(x) then
      var supported := x.command == CMD_CONNECT || x.command == CMD_UDP_ASSOCIATE;
      Talk(Reply, Done(Failed(if supported then AddressNotSupported else CommandNotSupported)), [], [])
    else Agreed(x)
  }

  lemma EndingIsStuck(x: Setup)
    ensures Stuck(Handshake(x), Ending(x))
  {
  }

  /** From the request on. */
  lemma FromRequest(x: Setup)
    requires Proper(x) && Accepted(x)
    ensures Leads(x, Talk(Reply, Request, RequestMessage(x), []), Ending(x))
  {
    EndingIsStuck(x);
    AlreadyThere(x, Ending(x));
    var v := AddrRead(x, Reply, x.command, x.addr, []);
    if Supported(x) {
      FromReply(x);
    }
    ValidReads(x.addr);
    var t := Talk(Reply, RequestAddr(x.command, AtType), x.addr, []);
    ServerReads(x, t, x.addr, x.addr, v, Ending(x));
    ServerMoves(x, Talk(Reply, Request, RequestMessage(x), []), [5, x.command, 0], x.addr, t, Ending(x));
  }

  lemma FromReply(x: Setup)
    requires Proper(x) && Accepted(x) && Supported(x)
    ensures Leads(x, AddrRead(x, Reply, x.command, x.addr, []), Ending(x))
  {
    var server, local := Done(Target(x.addr, x.command)), x.local.value;
    EndingIsStuck(x);
    AlreadyThere(x, Ending(x));
    ValidReads(local);
    var t := Talk(ReplyAddr(AtType), server, [], local);
    ClientReads(x, t, local, local, Ending(x));
    var s := AddrRead(x, Reply, x.command, x.addr, []);
    assert s.down == [5, 0, 0] + local;
    ClientMoves(x, s, [5, 0, 0], local, t, Ending(x));
  }

  lemma FromRejected(x: Setup, up: bytes)
    requires !Accepted(x) && x.user.Some? && up == Ending(x).up
    ensures Leads(x, Talk(AuthReply, Done(Failed(AuthFailed)), up, [1, 1]), Ending(x))
  {
    EndingIsStuck(x);
    AlreadyThere(x, Ending(x));
    assert up + [] == up;
    ClientMoves(x, Talk(AuthReply, Done(Failed(AuthFailed)), up, [1, 1]), [1, 1], [], Ending(x), Ending(x));
  }

  /** From the client's credentials on. */
  lemma FromAuth(x: Setup)
    requires Proper(x) && x.auth.Some? && x.user.Some?
    ensures Leads(x, Talk(AuthReply, AuthHeader, AuthMessage(x.user.value), []), Ending(x))
  {
    var u := x.user.value;
    var rest := [|u.password| % 0x100] + u.password;
    var t := Talk(AuthReply, AuthHeader, AuthMessage(u), []);
    var head := [1, |u.name| % 0x100];
    assert AuthMessage(u) == head + (u.name + rest);
    if Empty(u.name) {
      FromRejected(x, u.name + rest);
      ServerMoves(x, t, head, u.name + rest, Talk(AuthReply, Done(Failed(AuthFailed)), u.name + rest, [1, 1]), Ending(x));
    } else {
      FromPassword(x);
      var v := Talk(AuthReply, UserName(|u.name|), u.name + rest, []);
      ServerMoves(x, v, u.name, rest, Talk(AuthReply, PassLen(u.name), rest, []), Ending(x));
      ServerMoves(x, t, head, u.name + rest, v, Ending(x));
    }
  }

  lemma FromAccepted(x: Setup)
    requires Proper(x) && Accepted(x)
    ensures Leads(x, Talk(AuthReply, Request, [], [1, 0]), Ending(x))
  {
    FromRequest(x);
    ClientMoves(x, Talk(AuthReply, Request, [], [1, 0]), [1, 0], [],
                Talk(Reply, Request, RequestMessage(x), []), Ending(x));
  }

  lemma FromPassword(x: Setup)
    requires Proper(x) && x.auth.Some? && x.user.Some? && !Empty(x.user.value.name)
    ensures
      var u := x.user.value;
      Leads(x, Talk(AuthReply, PassLen(u.name), [|u.password| % 0x100] + u.password, []), Ending(x))
  {
    var u := x.user.value;
    var head := [|u.password| % 0x100];
    var t := Talk(AuthReply, PassLen(u.name), head + u.password, []);
    if Empty(u.password) {
      FromRejected(x, u.password);
      ServerMoves(x, t, head, u.password, Talk(AuthReply, Done(Failed(AuthFailed)), u.password, [1, 1]), Ending(x));
    } else {
      var v := Talk(AuthReply, Pass(u.name, |u.password|), u.password, []);
      assert u.password + [] == u.password;
      if Accepted(x) {
        var w := Talk(AuthReply, Request, [], [1, 0]);
        FromAccepted(x);
        ServerMoves(x, v, u.password, [], w, Ending(x));
      } else {
        FromRejected(x, []);
        ServerMoves(x, v, u.password, [], Talk(AuthReply, Done(Failed(AuthFailed)), [], [1, 1]), Ending(x));
      }
      ServerMoves(x, t, head, u.password, v, Ending(x));
    }
  }

  /** From the choice of a method on. */
  lemma FromMethod(x: Setup)
    requires Proper(x)
    ensures
      var t := if x.auth.Some? then Talk(Method, AuthHeader, [], [5, 2]) else Talk(Method, Request, [], [5, 0]);
      Leads(x, t, Ending(x))
  {
    EndingIsStuck(x);
    AlreadyThere(x, Ending(x));
    if x.auth.None? {
      FromRequest(x);
      ClientMoves(x, Talk(Method, Request, [], [5, 0]), [5, 0], [], Talk(Reply, Request, RequestMessage(x), []), Ending(x));
    } else if x.user.None? {
      ClientMoves(x, Talk(Method, AuthHeader, [], [5, 2]), [5, 2], [], Ending(x), Ending(x));
    } else {
      FromAuth(x);
      ClientMoves(x, Talk(Method, AuthHeader, [], [5, 2]), [5, 2], [],
                  Talk(AuthReply, AuthHeader, AuthMessage(x.user.value), []), Ending(x));
    }
  }

  lemma FromMethods(x: Setup)
    requires Proper(x)
    ensures Leads(x, Talk(Method, Methods(1), [if x.user.Some? then 2 else 0], []), Ending(x))
  {
    FromMethod(x);
    var m: byte := if x.user.Some? then 2 else 0;
    var c := if x.auth.Some? then Talk(Method, AuthHeader, [], [5, 2]) else Talk(Method, Request, [], [5, 0]);
    ServerMoves(x, Talk(Method, Methods(1), [m], []), [m], [], c, Ending(x));
  }

  lemma FromBegin(x: Setup)
    requires Proper(x)
    ensures Leads(x, Begin(), Ending(x))
  {
    FromMethods(x);
    var m: byte := if x.user.Some? then 2 else 0;
    var a, b := Talk(Method, Hello, [5, 1, m], []), Talk(Method, Methods(1), [m], []);
    ServerMoves(x, a, [5, 1], [m], b, Ending(x));
    ClientMoves(x, Begin(), [], [], a, Ending(x));
  }

  /**
   The handshake has one end, whatever the schedule: every run can go on to it, and a run in which neither side can
   move is there.
   */
  lemma OneOutcome(x: Setup, schedule: seq<bool>)
    requires Proper(x)
    ensures
      var t := Run(Handshake(x), Begin(), schedule);
      Leads(x, t, Ending(x)) && (Stuck(Handshake(x), t) ==> t == Ending(x))
  {
    FromBegin(x);
    HandshakeCommutes(x);
    var n: nat :| Ends(Handshake(x), Begin(), Ending(x), n);
    var m := OneEnd(Handshake(x), Begin(), Ending(x), n, schedule);
  }

  /**
   Both sides succeed, with the server holding the client's address and command, the client the server's address and
   no byte left over, if and only if the credentials are accepted and the command and the local address supported.
   */
  lemma Agreement(x: Setup, schedule: seq<bool>)
    requires Proper(x) && Stuck(Handshake(x), Run(Handshake(x), Begin(), schedule))
    ensures
      var t := Run(Handshake(x), Begin(), schedule);
      && ((t.server.Done? && t.server.outcome.Target?) <==> Accepted(x) && Supported(x))
      && ((t.client.Done? && t.client.outcome.Bound?) <==> Accepted(x) && Supported(x))
      && (Accepted(x) && Supported(x) ==> t == Agreed(x))
  {
    OneOutcome(x, schedule);
  }

  /** The end is reached: some schedule gets there. */
  lemma EndingIsReached(x: Setup) returns (schedule: seq<bool>)
    requires Proper(x)
    ensures Run(Handshake(x), Begin(), schedule) == Ending(x)
  {
    FromBegin(x);
    var n: nat :| Ends(Handshake(x), Begin(), Ending(x), n);
    schedule := EndIsReached(Handshake(x), Begin(), Ending(x), n);
  }

  // ---------- any arguments at all ----------

  /** Every move brings one side closer to its end, so from anywhere there is an end. */
  lemma {:induction false} HasEnd(x: Setup, t: Talk) returns (u: Talk, n: nat)
    ensures Ends(Handshake(x), t, u, n)
    decreases Rank(t.client) + Rank(t.server)
  {
    var g := Handshake(x);
    if Stuck(g, t) {
      u, n := t, 0;
    } else {
      var client := g.on(t, true);
      MoveDescends(x, t, client);
      u, n := HasEnd(x, Step(x, t, client));
      assert g.on(t, client) && Ends(g, g.step(t, client), u, n);
      n := n + 1;
    }
  }

  lemma MoveDescends(x: Setup, t: Talk, client: bool)
    requires Enabled(t, client)
    ensures Rank(Step(x, t, client).client) + Rank(Step(x, t, client).server) < Rank(t.client) + Rank(t.server)
  {
    if client {
      ReactDescends(x, t.client, t.down[..Needs(t.client)]);
    } else {
      ReactDescends(x, t.server, t.up[..Needs(t.server)]);
    }
  }

  /** Whatever the two sides are called with, names of any length and invalid addresses included, the schedule never
      decides the outcome: there is one end, it is reached, and every run that can go no further is there. */
  lemma ScheduleNeverMatters(x: Setup) returns (u: Talk, reached: seq<bool>)
    ensures Run(Handshake(x), Begin(), reached) == u && Stuck(Handshake(x), u)
    ensures forall schedule :: Stuck(Handshake(x), Run(Handshake(x), Begin(), schedule)) ==>
              Run(Handshake(x), Begin(), schedule) == u
  {
    var n;
    u, n := HasEnd(x, Begin());
    HandshakeCommutes(x);
    reached := EndIsReached(Handshake(x), Begin(), u, n);
    var m := OneEnd(Handshake(x), Begin(), u, n, reached);
    EndIsStuck(Handshake(x), Begin(), u, n);
    forall schedule | Stuck(Handshake(x), Run(Handshake(x), Begin(), schedule))
      ensures Run(Handshake(x), Begin(), schedule) == u
    {
      var k := OneEnd(Handshake(x), Begin(), u, n, schedule);
    }
  }
}
