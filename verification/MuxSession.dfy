/** A session and its connections as objects: maps, queues and remainders updated in place, bytes on the pipe. */
module MuxSession {
  import opened Bytes
  import opened MuxProtocol
  import MuxWire
  import MuxSafety

  /** The generator: the number given is `delta` past the last one, modulo 2^32. */
  lemma NextNumber(initSeq: nat, delta: nat, n: nat)
    requires initSeq < 0x1_0000_0000
    ensures Generated(initSeq, delta, 0) == initSeq
    ensures Generated(initSeq, delta, n + 1) == (Generated(initSeq, delta, n) + delta) % 0x1_0000_0000
  {
    assert (n + 1) * delta == n * delta + delta;
  }

  /** stdSeqGen */
  class SeqGen {
    var seqno: nat
    var started: bool
    const delta: nat
    const initSeq: nat
    ghost var given: nat

    ghost predicate Valid()
      reads this
    {
      && initSeq < 0x1_0000_0000
      && seqno == (if started then Generated(initSeq, delta, given) else 0)
      && (!started ==> given == 0)
    }

    constructor (initSeq: nat, delta: nat)
      requires initSeq < 0x1_0000_0000
      ensures Valid() && given == 0 && this.initSeq == initSeq && this.delta == delta
    {
      this.initSeq, this.delta := initSeq, delta;
      seqno, started, given := 0, false, 0;
    }

    /** The k-th call returns the k-th number of the generator. */
    method GenSeq() returns (n: nat)
      requires Valid()
      modifies this
      ensures Valid() && given == old(given) + 1 && n == Generated(initSeq, delta, given)
      ensures n == (initSeq + given * delta) % 0x1_0000_0000
    {
      if !started {
        seqno, started := initSeq, true;
        NextNumber(initSeq, delta, 0);
      }
      NextNumber(initSeq, delta, given);
      seqno := (seqno + delta) % 0x1_0000_0000;
      given := given + 1;
      n := seqno;
    }
  }

  /** A frame as it is encoded. */
  function Wire(f: Frame): (r: MuxWire.Frame) {
    MuxWire.Frame(if f.fin then MuxWire.CMD_FIN else MuxWire.CMD_DATA, f.seqno, f.data)
  }

  function WireAll(fs: seq<Frame>): (r: bytes) {
    if fs == [] then [] else WireAll(fs[..|fs| - 1]) + MuxWire.Encode(Wire(fs[|fs| - 1]))
  }

  /** What is left to decode after the first frame is the other frames. */
  lemma {:induction false} WireAllFirst(fs: seq<Frame>)
    requires fs != []
    ensures WireAll(fs) == MuxWire.Encode(Wire(fs[0])) + WireAll(fs[1..])
  {
    if |fs| > 1 {
      WireAllFirst(fs[..|fs| - 1]);
      assert fs[..|fs| - 1][1..] == fs[1..][..|fs| - 2];
    }
  }

  /** What a session has put on the pipe is read at the other end as exactly the frames it has sent. */
  lemma {:induction false} PipeCarriesFrames(fs: seq<Frame>)
    requires forall i :: 0 <= i < |fs| ==> MuxWire.Legal(Wire(fs[i]))
    ensures
      var read := MuxWire.Frames(WireAll(fs));
      |read| == |fs| && forall i :: 0 <= i < |fs| ==> read[i] == Wire(fs[i])
  {
    if fs != [] {
      WireAllFirst(fs);
      MuxWire.FramesStep(Wire(fs[0]), WireAll(fs[1..]));
      PipeCarriesFrames(fs[1..]);
    }
  }

  class MuxConn {
    const seqno: nat
    ghost const sid: Sid
    var fin: bool
    var finWait: bool
    var inbound: seq<bytes>
    var buf: bytes
    var finSent: bool
    ghost var forgotten: bool
    ghost var written: bytes
    ghost var read: bytes

    constructor (seqno: nat, ghost sid: Sid)
      ensures View() == NewConn(seqno) && this.sid == sid
    {
      this.seqno, this.sid := seqno, sid;
      fin, finWait, inbound, buf := false, false, [], [];
      finSent, forgotten, written, read := false, false, [], [];
    }

    ghost function View(): Conn
      reads this
    {
      Conn(seqno, fin, finSent, finWait, forgotten, inbound, buf, written, read)
    }

    /**
     Read into a buffer of the given size. With nothing half read, the end of the stream may be picked although
     frames wait; with neither, the call would block.
     */
    method Read(size: nat, pickEof: bool) returns (r: Reading)
      modifies this
      ensures match r
              case Data(b) =>
                && (old(buf) != [] || old(inbound) != []) && View() == ReadConn(old(View()), size)
                && read == old(read) + b && |b| <= size
                // nothing is lost, repeated or taken out of turn
                && b + buf + Concat(inbound) == old(buf) + old(Concat(inbound))
                // a frame that fits is finished, and a second one never begun
                && (|b| < size ==> buf == [])
                && inbound == (if old(buf) != [] then old(inbound) else old(inbound)[1..])
              case Eof => old(buf) == [] && old(finWait) && View() == old(View())
              case Blocks => old(buf) == [] && old(inbound) == [] && !old(finWait) && View() == old(View())
    {
      if buf != [] {
        var n := Min(size, |buf|);
        assert buf == buf[..n] + buf[n..];
        r := Data(buf[..n]);
        buf := buf[n..];
        read := read + r.data;
        return;
      }
      if finWait && (pickEof || inbound == []) {
        return Eof;
      }
      if inbound == [] {
        return Blocks;
      }
      var wsb := inbound[0];
      inbound := inbound[1..];
      var n := Min(size, |wsb|);
      assert wsb == wsb[..n] + wsb[n..];
      r := Data(wsb[..n]);
      buf := wsb[n..];
      read := read + r.data;
    }
  }

  datatype Reading = Data(data: bytes) | Eof | Blocks

  /** Close within a session: no more writes, and the FIN is sent, once. */
  function Closed(e: End, sid: Sid): End
    requires sid in e.conns
  {
    WithConn(e, sid, e.conns[sid].(fin := true, finSent := true))
  }

  function FinFrames(c: Conn, sid: Sid): seq<Frame> {
    if c.finSent then [] else [Frame(true, c.seqno, [], sid)]
  }

  /** Close is the two actions that close for writing and send the FIN. */
  lemma CloseIsSteps(s: State, me: bool, sid: Sid)
    requires sid in At(s, me).conns && (At(s, me).conns[sid].finSent ==> At(s, me).conns[sid].fin)
    ensures
      Step(Step(s, me, StartClose(sid)), me, SendFin(sid)) ==
      WithSent(WithEnd(s, me, Closed(At(s, me), sid)), me, Sent(s, me) + FinFrames(At(s, me).conns[sid], sid))
  {
    var e := At(s, me);
    var mid := Step(s, me, StartClose(sid));
    assert At(mid, me) == WithConn(e, sid, e.conns[sid].(fin := true));
    assert WithConn(At(mid, me), sid, e.conns[sid].(fin := true, finSent := true)) == Closed(e, sid);
    if e.conns[sid].finSent {
      assert e.conns[sid].(fin := true, finSent := true) == e.conns[sid];
      assert Closed(e, sid) == e == At(mid, me);
    }
  }

  /** The streams that a map by number refers to. */
  ghost function Names(m: map<nat, MuxConn>): (r: map<nat, Sid>) {
    map k | k in m :: m[k].sid
  }

  ghost function NamesOf(cs: seq<MuxConn>): (r: seq<Sid>) {
    if cs == [] then [] else NamesOf(cs[..|cs| - 1]) + [cs[|cs| - 1].sid]
  }

  ghost function Views(conns: map<Sid, MuxConn>): (r: map<Sid, Conn>)
    reads conns.Values
  {
    map sid | sid in conns :: conns[sid].View()
  }

  /** Every stream has its own object, and both maps refer to these. */
  ghost predicate Registered(conns: map<Sid, MuxConn>, dials: map<nat, MuxConn>, accepts: map<nat, MuxConn>) {
    && (forall sid :: sid in conns ==> conns[sid].sid == sid)
    && (forall k :: k in dials ==> dials[k].sid in conns && conns[dials[k].sid] == dials[k])
    && (forall k :: k in accepts ==> accepts[k].sid in conns && conns[accepts[k].sid] == accepts[k])
  }

  lemma NamesPut(m: map<nat, MuxConn>, k: nat, c: MuxConn)
    ensures Names(m[k := c]) == Names(m)[k := c.sid]
  {
  }

  lemma NamesDrop(m: map<nat, MuxConn>, k: nat)
    ensures Names(m - {k}) == Names(m) - {k}
  {
  }

  lemma NamesSnoc(cs: seq<MuxConn>, c: MuxConn)
    ensures NamesOf(cs + [c]) == NamesOf(cs) + [c.sid]
  {
    assert (cs + [c])[..|cs|] == cs;
  }

  lemma ViewsPut(conns: map<Sid, MuxConn>, c: MuxConn)
    ensures Views(conns[c.sid := c]) == Views(conns)[c.sid := c.View()]
  {
  }

  lemma RegisteredPut(conns: map<Sid, MuxConn>, dials: map<nat, MuxConn>, accepts: map<nat, MuxConn>, k: nat, c: MuxConn)
    requires Registered(conns, dials, accepts) && c.sid !in conns
    ensures Registered(conns[c.sid := c], dials[k := c], accepts)
    ensures Registered(conns[c.sid := c], dials, accepts[k := c])
  {
  }

  lemma RegisteredDrop(conns: map<Sid, MuxConn>, dials: map<nat, MuxConn>, accepts: map<nat, MuxConn>, k: nat)
    requires Registered(conns, dials, accepts)
    ensures Registered(conns, dials - {k}, accepts - {k})
  {
  }

  class Session {
    ghost const me: bool
    const gen: SeqGen
    var accepts: map<nat, MuxConn>
    var dials: map<nat, MuxConn>
    var accepted: seq<MuxConn>
    var out: bytes
    ghost var conns: map<Sid, MuxConn>
    ghost var sent: seq<Frame>

    constructor (ghost left: bool, gen: SeqGen)
      requires gen.Valid() && gen.given == 0 && gen.delta == 2 && gen.initSeq == (if left then 0 else 1)
      ensures Valid() && me == left && View() == Init().l && sent == []
    {
      me, this.gen := left, gen;
      accepts, dials, accepted, out := map[], map[], [], [];
      conns, sent := map[], [];
    }

    ghost predicate Valid()
      reads this, gen
    {
      && gen.Valid() && gen.delta == 2 && gen.initSeq == (if me then 0 else 1)
      && Registered(conns, dials, accepts)
      && out == WireAll(sent)
    }

    /** The end of the transition system this object stands for. */
    ghost function View(): End
      reads this, gen, conns.Values
    {
      End(gen.given, Names(dials), Names(accepts), Views(conns), NamesOf(accepted), false)
    }

    ghost predicate Owned(c: MuxConn)
      reads this
    {
      c.sid in conns && conns[c.sid] == c
    }

    /** When one connection is all that has changed, so is its stream in the view. */
    lemma OneChanged(before: End, c: MuxConn)
      requires Owned(c) && before == View().(conns := before.conns)
      requires forall y :: y in before.conns <==> y in conns
      requires forall y :: y in before.conns && y != c.sid ==> conns[y].View() == before.conns[y]
      ensures View() == WithConn(before, c.sid, c.View())
    {
    }

    /** OpenStream */
    method OpenStream() returns (c: MuxConn)
      requires Valid() && Sid(me, gen.given + 1) !in conns
      modifies this`dials, this`conns, gen
      ensures Valid() && fresh(c) && c.sid == Sid(me, gen.given) && Owned(c) && View() == Opened(old(View()), me)
      ensures gen.given == old(gen.given) + 1 && c.seqno == ((if me then 0 else 1) + gen.given * 2) % 0x1_0000_0000
      ensures dials == old(dials)[c.seqno := c] && accepts == old(accepts)
    {
      ghost var before := View();
      var n := gen.GenSeq();
      c := new MuxConn(n, Sid(me, gen.given));
      Register(c, before);
    }

    /** A new connection is entered under its number. */
    method Register(c: MuxConn, ghost before: End)
      requires gen.Valid() && gen.delta == 2 && gen.initSeq == (if me then 0 else 1) && gen.given == before.opens + 1
      requires Registered(conns, dials, accepts) && out == WireAll(sent)
      requires c.sid == Sid(me, gen.given) && c.sid !in conns && c.View() == NewConn(NumberOf(c.sid))
      requires before == View().(opens := before.opens)
      modifies this`dials, this`conns
      ensures Valid() && Owned(c) && View() == Opened(before, me) && dials == old(dials)[c.seqno := c]
    {
      NamesPut(dials, c.seqno, c);
      ViewsPut(conns, c);
      RegisteredPut(conns, dials, accepts, c.seqno, c);
      dials := dials[c.seqno := c];
      conns := conns[c.sid := c];
    }

    /** Write, under the write lock: nothing once closed, else one DATA frame. */
    method Write(c: MuxConn, p: bytes) returns (n: nat, ok: bool)
      requires Valid() && Owned(c)
      modifies this`out, this`sent, c
      ensures Valid() && ok == !old(c.fin)
      ensures !ok ==> n == 0 && View() == old(View()) && sent == old(sent)
      ensures ok ==>
                && n == |p| && sent == old(sent) + [Frame(false, c.seqno, p, c.sid)]
                && View() == WithConn(old(View()), c.sid, old(c.View()).(written := old(c.written) + p))
    {
      if c.fin {
        return 0, false;
      }
      ghost var before := View();
      Send(Frame(false, c.seqno, p, c.sid), MuxWire.CMD_DATA, c.seqno, p);
      c.written := c.written + p;
      OneChanged(before, c);
      return |p|, true;
    }

    /** The bytes of one frame go onto the pipe together. */
    method Send(ghost f: Frame, cmd: byte, seqno: nat, p: bytes)
      requires out == WireAll(sent)
      requires Wire(f) == MuxWire.Frame(cmd, seqno, p)
      modifies this`out, this`sent
      ensures sent == old(sent) + [f] && out == WireAll(sent)
    {
      sent := sent + [f];
      out := out + ([0, cmd] + BE16(|p|) + BE32(seqno) + p);
      assert sent[..|sent| - 1] == old(sent);
    }

    /** Close: what closeOnce guards. */
    method Close(c: MuxConn)
      requires Valid() && Owned(c) && (c.finSent ==> c.fin)
      modifies this`out, this`sent, c
      ensures Valid() && View() == Closed(old(View()), c.sid) && sent == old(sent) + FinFrames(old(c.View()), c.sid)
    {
      ghost var before := View();
      assert before.conns[c.sid] == c.View();
      CloseOnce(c);
      OneChanged(before, c);
    }

    method CloseOnce(c: MuxConn)
      requires out == WireAll(sent) && (c.finSent ==> c.fin)
      modifies this`out, this`sent, c
      ensures out == WireAll(sent) && c.View() == old(c.View()).(fin := true, finSent := true)
      ensures sent == old(sent) + FinFrames(old(c.View()), c.sid)
    {
      if !c.finSent {
        c.fin := true;
        Send(Frame(true, c.seqno, [], c.sid), MuxWire.CMD_FIN, c.seqno, []);
        c.finSent := true;
      }
    }

    /** close(finWait): the wait of Close ends, at the other side's FIN or, without it, when the time is over. */
    method EndWait(c: MuxConn)
      requires Valid() && Owned(c) && !c.finWait
      modifies c`finWait
      ensures c.View() == old(c.View()).(finWait := true)
      ensures Valid() && View() == WithConn(old(View()), c.sid, old(c.View()).(finWait := true))
    {
      ghost var before := View();
      c.finWait := true;
      OneChanged(before, c);
    }

    /** What Close does after the wait for the other side's FIN. */
    method Forget(c: MuxConn)
      requires Valid() && Owned(c)
      modifies this`dials, this`accepts, c`forgotten
      ensures Valid() && View() == Forgotten(old(View()), c.sid)
    {
      ghost var before := View();
      c.forgotten := true;
      OneChanged(before, c);
      Delete(c.seqno);
    }

    method Delete(seqno: nat)
      requires Valid()
      modifies this`dials, this`accepts
      ensures Valid()
      ensures View() == old(View()).(dials := old(View()).dials - {seqno}, accepts := old(View()).accepts - {seqno})
    {
      NamesDrop(dials, seqno);
      NamesDrop(accepts, seqno);
      RegisteredDrop(conns, dials, accepts, seqno);
      dials := dials - {seqno};
      accepts := accepts - {seqno};
    }

    /** nextFrame: the bytes of the next frame, given f as the frame they were made from. */
    method NextFrame(pipe: MuxWire.Pipe, ghost f: Frame, ghost rest: bytes) returns (r: MuxWire.Next)
      requires Valid() && pipe.left == MuxWire.Encode(Wire(f)) + rest && MuxWire.Legal(Wire(f))
      requires Found(View(), f.seqno) == [] ==> f.sid !in conns
      requires forall sid :: sid in conns ==> (conns[sid].finSent ==> conns[sid].fin)
      requires f.fin ==> forall sid :: sid in conns && [sid] == Found(View(), f.seqno) ==> !conns[sid].finWait
      modifies this, conns.Values, pipe
      ensures Valid() && r.Got? && pipe.left == rest
      ensures View() == Handled(old(View()), f)
      ensures sent == old(sent) + Answer(old(View()), f)
    {
      MuxWire.FrameRoundTrip(Wire(f), rest);
      r := pipe.ReadFrame();
      Handle(r.frame, f);
    }

    /** What nextFrame does with a frame, looked up by its number alone. */
    method Handle(g: MuxWire.Frame, ghost f: Frame)
      requires Valid() && Wire(f) == g
      requires Found(View(), f.seqno) == [] ==> f.sid !in conns
      requires forall sid :: sid in conns ==> (conns[sid].finSent ==> conns[sid].fin)
      requires f.fin ==> forall sid :: sid in conns && [sid] == Found(View(), f.seqno) ==> !conns[sid].finWait
      modifies this, conns.Values
      ensures Valid()
      ensures View() == Handled(old(View()), f)
      ensures sent == old(sent) + Answer(old(View()), f)
    {
      var conn := Lookup(g.seqno);
      if g.cmd == MuxWire.CMD_DATA {
        HandleData(conn, g.seqno, g.data, f);
      } else {
        HandleEnd(conn, f);
      }
    }

    method HandleData(conn: MuxConn?, seqno: nat, data: bytes, ghost f: Frame)
      requires Valid() && f == Frame(false, seqno, data, f.sid)
      requires if conn == null then Found(View(), seqno) == [] && f.sid !in conns
               else Owned(conn) && Found(View(), seqno) == [conn.sid]
      modifies this`accepts, this`accepted, this`conns, conn
      ensures Valid() && View() == Handled(old(View()), f) && Answer(old(View()), f) == []
    {
      DeliverCases(View(), f);
      if conn == null {
        Accept(seqno, data, f);
      } else {
        Queue(conn, data);
      }
    }

    method HandleEnd(conn: MuxConn?, ghost f: Frame)
      requires Valid() && f.fin
      requires if conn == null then Found(View(), f.seqno) == []
               else Owned(conn) && Found(View(), f.seqno) == [conn.sid] && (conn.finSent ==> conn.fin) && !conn.finWait
      modifies this`out, this`sent, conn
      ensures Valid() && View() == Handled(old(View()), f) && sent == old(sent) + Answer(old(View()), f)
    {
      DeliverCases(View(), f);
      if conn != null {
        HandleFin(conn);
      }
    }

    /** The dialed streams come second and win. */
    method Lookup(seqno: nat) returns (conn: MuxConn?)
      requires Valid()
      ensures (conn == null) == (Found(View(), seqno) == [])
      ensures conn != null ==> Owned(conn) && Found(View(), seqno) == [conn.sid]
    {
      conn := null;
      if seqno in accepts {
        conn := accepts[seqno];
      }
      if seqno in dials {
        conn := dials[seqno];
      }
    }

    /** DATA for a stream that is known. */
    method Queue(c: MuxConn, data: bytes)
      requires Valid() && Owned(c)
      modifies c
      ensures Valid()
      ensures View() == WithConn(old(View()), c.sid, old(c.View()).(inbound := old(c.inbound) + [data]))
    {
      ghost var before := View();
      c.inbound := c.inbound + [data];
      OneChanged(before, c);
    }

    /** DATA for a number that is not known: the stream is accepted. */
    method Accept(seqno: nat, data: bytes, ghost f: Frame)
      requires Valid() && f.seqno == seqno && f.data == data && f.sid !in conns
      modifies this`accepts, this`accepted, this`conns
      ensures Valid() && View() == MuxSafety.Accepted(old(View()), f)
    {
      ghost var before := View();
      var c := new MuxConn(seqno, f.sid);
      c.inbound := [data];
      Enter(c, before, f);
    }

    method Enter(c: MuxConn, ghost before: End, ghost f: Frame)
      requires Valid() && before == View() && f.sid !in conns
      requires c.sid == f.sid && c.View() == NewConn(f.seqno).(inbound := [f.data])
      modifies this`accepts, this`accepted, this`conns
      ensures Valid() && View() == MuxSafety.Accepted(before, f)
    {
      NamesPut(accepts, c.seqno, c);
      NamesSnoc(accepted, c);
      ViewsPut(conns, c);
      RegisteredPut(conns, dials, accepts, c.seqno, c);
      accepts := accepts[c.seqno := c];
      accepted := accepted + [c];
      conns := conns[c.sid := c];
      EnteredIsAccepted(before, View(), f);
    }

    /** A FIN ends the wait of its stream, by closing a channel that must not be closed yet, and closes the stream. */
    method HandleFin(conn: MuxConn)
      requires Valid() && Owned(conn) && (conn.finSent ==> conn.fin) && !conn.finWait
      modifies this`out, this`sent, conn
      ensures Valid() && sent == old(sent) + FinFrames(old(conn.View()), conn.sid)
      ensures View() == FinAnswered(old(View()), conn.sid)
    {
      ghost var before := View();
      EndWait(conn);
      Close(conn);
      WaitedAndClosed(before, conn.sid);
    }
  }

  lemma EnteredIsAccepted(e: End, t: End, f: Frame)
    requires t == e.(accepts := t.accepts, accepted := t.accepted, conns := t.conns)
    requires t.accepts == e.accepts[f.seqno := f.sid] && t.accepted == e.accepted + [f.sid]
    requires t.conns == e.conns[f.sid := NewConn(f.seqno).(inbound := [f.data])]
    ensures t == MuxSafety.Accepted(e, f)
  {
  }

  lemma WaitedAndClosed(e: End, sid: Sid)
    requires sid in e.conns && !e.panicked && !e.conns[sid].finWait
    ensures Closed(WithConn(e, sid, e.conns[sid].(finWait := true)), sid) == FinAnswered(e, sid)
  {
    var c := e.conns[sid];
    assert e.conns[sid := c.(finWait := true)][sid := c.(finWait := true, fin := true, finSent := true)]
        == e.conns[sid := c.(finWait := true, fin := true, finSent := true)];
  }

  /** A FIN that finds its stream also makes this side close it. */
  function Handled(e: End, f: Frame): End {
    var found := Found(e, f.seqno);
    if f.fin && found != [] && found[0] in e.conns then Closed(Deliver(e, f), found[0]) else Deliver(e, f)
  }

  function Answer(e: End, f: Frame): seq<Frame> {
    var found := Found(e, f.seqno);
    if f.fin && found != [] && found[0] in e.conns then FinFrames(e.conns[found[0]], found[0]) else []
  }

  /** A FIN has arrived for a stream, and this side has closed it too. */
  function FinAnswered(e: End, sid: Sid): End
    requires sid in e.conns
  {
    var c := e.conns[sid];
    WithConn(e.(panicked := e.panicked || c.finWait), sid, c.(finWait := true, fin := true, finSent := true))
  }

  lemma DeliverCases(e: End, f: Frame)
    requires Found(e, f.seqno) != [] ==> Found(e, f.seqno)[0] in e.conns
    ensures Found(e, f.seqno) == [] ==> Handled(e, f) == if f.fin then e else MuxSafety.Accepted(e, f)
    ensures Found(e, f.seqno) == [] || !f.fin ==> Answer(e, f) == []
    ensures Found(e, f.seqno) != [] ==>
              var sid := Found(e, f.seqno)[0];
              var c := e.conns[sid];
              if f.fin then Handled(e, f) == FinAnswered(e, sid) && Answer(e, f) == FinFrames(c, sid)
              else Handled(e, f) == WithConn(e, sid, c.(inbound := c.inbound + [f.data]))
  {
    if f.fin && Found(e, f.seqno) != [] {
      var sid := Found(e, f.seqno)[0];
      assert Handled(e, f).conns == FinAnswered(e, sid).conns;
    }
  }

  /** The frame handler takes only steps of the system: it receives, then closes. */
  lemma NextFrameIsSteps(s: State, me: bool)
    requires Sent(s, !me) != []
    requires forall sid :: sid in At(s, me).conns ==> (At(s, me).conns[sid].finSent ==> At(s, me).conns[sid].fin)
    ensures
      var e, f := At(s, me), Sent(s, !me)[0];
      var t := WithSent(WithSent(WithEnd(s, me, Handled(e, f)), !me, Sent(s, !me)[1..]), me, Sent(s, me) + Answer(e, f));
      || t == Step(s, me, Receive)
      || exists sid :: t == Step(Step(Step(s, me, Receive), me, StartClose(sid)), me, SendFin(sid))
  {
    var e, f := At(s, me), Sent(s, !me)[0];
    var found := Found(e, f.seqno);
    if f.fin && found != [] && found[0] in e.conns {
      CloseIsSteps(Step(s, me, Receive), me, found[0]);
    }
  }

  // ---------- what methods and handler do, and the steps of the system ----------

  /** The other methods are steps of the system too. */
  lemma MethodsAreSteps(s: State, me: bool, sid: Sid, p: bytes, size: nat)
    requires sid in At(s, me).conns && |p| < 0x1_0000
    ensures
      var e, c := At(s, me), At(s, me).conns[sid];
      && Step(s, me, Write(sid, p)) ==
           (if c.fin then s
            else WithSent(WithEnd(s, me, WithConn(e, sid, c.(written := c.written + p))), me,
                          Sent(s, me) + [Frame(false, c.seqno, p, sid)]))
      && (c.buf != [] || c.inbound != [] ==>
            Step(s, me, Read(sid, size)) == WithEnd(s, me, WithConn(e, sid, ReadConn(c, size))))
      && (c.finSent && c.finWait && !c.forgotten ==> Step(s, me, Forget(sid)) == WithEnd(s, me, Forgotten(e, sid)))
      && Step(s, me, Open) == WithEnd(s, me, Opened(e, me))
  {
  }

  /** Nothing of the stream is left under its number, and nothing else changes. */
  lemma ForgetEffect(e: End, sid: Sid)
    requires sid in e.conns
    ensures
      var c := e.conns[sid];
      && Forgotten(e, sid) == End(e.opens, e.dials - {c.seqno}, e.accepts - {c.seqno}, e.conns[sid := c.(forgotten := true)],
                                  e.accepted, e.panicked)
  {
  }

  /**
   What a frame does. Its stream is the dialed one of its number, or else the accepted one. DATA goes to the end of the
   stream's queue, or makes a new accepted stream; a FIN ends the stream's wait, closes it and is answered with a FIN
   unless one was sent, or is ignored. Nothing else changes.
   */
  lemma FrameEffect(e: End, f: Frame)
    requires f.seqno in e.dials ==> e.dials[f.seqno] in e.conns
    requires f.seqno in e.accepts ==> e.accepts[f.seqno] in e.conns
    ensures
      f.seqno !in e.dials && f.seqno !in e.accepts ==>
        && Answer(e, f) == []
        && Handled(e, f) ==
           if f.fin then e
           else e.(conns := e.conns[f.sid := Conn(f.seqno, false, false, false, false, [f.data], [], [], [])],
                   accepts := e.accepts[f.seqno := f.sid], accepted := e.accepted + [f.sid])
    ensures
      f.seqno in e.dials || f.seqno in e.accepts ==>
        var sid := if f.seqno in e.dials then e.dials[f.seqno] else e.accepts[f.seqno];
        var c := e.conns[sid];
        && Answer(e, f) == (if f.fin && !c.finSent then [Frame(true, c.seqno, [], sid)] else [])
        && Handled(e, f) ==
           if f.fin then e.(conns := e.conns[sid := c.(finWait := true, fin := true, finSent := true)],
                            panicked := e.panicked || c.finWait)
           else e.(conns := e.conns[sid := c.(inbound := c.inbound + [f.data])])
  {
    DeliverCases(e, f);
  }

  /** A FIN is command 1 and carries nothing, DATA is command 0. */
  lemma CommandOf(f: Frame)
    requires f.seqno < 0x1_0000_0000 && |f.data| < 0x1_0000
    ensures MuxWire.Legal(Wire(f)) && MuxWire.Encode(Wire(f))[1] == if f.fin then 1 else 0
    ensures MuxWire.Encode(Wire(f))[8..] == f.data
  {
    MuxWire.FrameLayout(Wire(f));
  }
}
