/**
 Two connmux sessions over one ordered pipe in each direction, as a transition system.

 Stream numbers are uint32 and come round again. A stream is identified by who opened it and how many streams that
 side had opened before; this identity travels with each frame and each connection as history only, the program
 looks streams up by their number alone. What is proved is that the two never disagree.
 */
module MuxProtocol {
  import opened Bytes

  /** The n-th stream opened by the left (even numbers) or the right session (odd numbers). */
  datatype Sid = Sid(left: bool, n: nat)

  /** stdSeqGen: the n-th number of a generator. */
  function Generated(initSeq: nat, delta: nat, n: nat): nat {
    (initSeq + n * delta) % 0x1_0000_0000
  }

  function NumberOf(sid: Sid): nat {
    Generated(if sid.left then 0 else 1, 2, sid.n)
  }

  datatype Frame = Frame(fin: bool, seqno: nat, data: bytes, sid: Sid)

  /**
   A MuxConn. `fin`: closed for writing; `finSent`: its FIN is on the wire; `finWait`: the peer's FIN has arrived;
   `forgotten`: Close has finished waiting and has deleted it from the maps. `written` and `read` are history.
   */
  datatype Conn = Conn(
    seqno: nat, fin: bool, finSent: bool, finWait: bool, forgotten: bool,
    inbound: seq<bytes>, buf: bytes, written: bytes, read: bytes)

  /** A MuxSession; `opens` counts OpenStream, `panicked` says that a closed channel was closed again. */
  datatype End = End(
    opens: nat, dials: map<nat, Sid>, accepts: map<nat, Sid>, conns: map<Sid, Conn>, accepted: seq<Sid>, panicked: bool)

  /** `lr` and `rl` are the frames on their way from left to right and from right to left. */
  datatype State = State(l: End, r: End, lr: seq<Frame>, rl: seq<Frame>)

  function NewConn(seqno: nat): Conn {
    Conn(seqno, false, false, false, false, [], [], [], [])
  }

  function Init(): State {
    var e := End(0, map[], map[], map[], [], false);
    State(e, e, [], [])
  }

  /** The session on a side, and the frames it has sent. */
  function At(s: State, left: bool): End {
    if left then s.l else s.r
  }

  function Sent(s: State, left: bool): seq<Frame> {
    if left then s.lr else s.rl
  }

  function WithEnd(s: State, left: bool, e: End): State {
    if left then s.(l := e) else s.(r := e)
  }

  function WithSent(s: State, left: bool, w: seq<Frame>): State {
    if left then s.(lr := w) else s.(rl := w)
  }

  function WithConn(e: End, sid: Sid, c: Conn): End {
    e.(conns := e.conns[sid := c])
  }

  datatype Action =
    | Open
    | Write(sid: Sid, data: bytes)
    | StartClose(sid: Sid)
    | SendFin(sid: Sid)
    | Forget(sid: Sid)
    | TimeOut(sid: Sid)
    | Receive
    | Read(sid: Sid, size: nat)

  predicate On(w: seq<Frame>, sid: Sid) {
    exists i :: 0 <= i < |w| && w[i].sid == sid
  }

  /** Something of the stream is left: a frame on its way, or a connection not yet forgotten. */
  predicate Alive(s: State, sid: Sid) {
    || On(s.lr, sid) || On(s.rl, sid)
    || (sid in s.l.conns && !s.l.conns[sid].forgotten)
    || (sid in s.r.conns && !s.r.conns[sid].forgotten)
  }

  /** The number the generator gives next does not belong to a stream that is still alive. OpenStream does not ask;
      MuxReuse proves that this is exactly what it would have to ask. */
  ghost predicate NumberIsFree(s: State, left: bool) {
    forall sid :: Alive(s, sid) ==> NumberOf(sid) != NumberOf(Sid(left, At(s, left).opens + 1))
  }

  ghost predicate Enabled(s: State, me: bool, a: Action) {
    var e := At(s, me);
    match a
    case Open => true
    case Write(sid, p) => sid in e.conns && !e.conns[sid].fin && |p| < 0x1_0000
    case StartClose(sid) => sid in e.conns
    case SendFin(sid) => sid in e.conns && e.conns[sid].fin && !e.conns[sid].finSent
    case Forget(sid) =>
      sid in e.conns && e.conns[sid].finSent && e.conns[sid].finWait && !e.conns[sid].forgotten
    // the wait for the peer's FIN ends only when the peer has never learned of the stream
    case TimeOut(sid) =>
      && sid in e.conns && e.conns[sid].finSent && !e.conns[sid].finWait
      && sid !in At(s, !me).conns && !On(Sent(s, me), sid)
    case Receive => Sent(s, !me) != []
    case Read(sid, _) => sid in e.conns && (e.conns[sid].buf != [] || e.conns[sid].inbound != [])
  }

  /** nextFrame looks the number up among the accepted, then among the dialed streams. */
  function Found(e: End, seqno: nat): (sids: seq<Sid>) {
    if seqno in e.dials then [e.dials[seqno]]
    else if seqno in e.accepts then [e.accepts[seqno]]
    else []
  }

  /** What nextFrame does with a frame. */
  function Deliver(e: End, f: Frame): End {
    var found := Found(e, f.seqno);
    if !f.fin then
      if found == [] then
        var c := NewConn(f.seqno).(inbound := [f.data]);
        WithConn(e, f.sid, c).(accepts := e.accepts[f.seqno := f.sid], accepted := e.accepted + [f.sid])
      else if found[0] in e.conns then
        var c := e.conns[found[0]];
        WithConn(e, found[0], c.(inbound := c.inbound + [f.data]))
      else e
    else
      if found == [] || found[0] !in e.conns then e
      else
        var c := e.conns[found[0]];
        WithConn(e, found[0], c.(finWait := true, fin := true)).(panicked := e.panicked || c.finWait)
  }

  /** MuxConn.Read */
  function ReadConn(c: Conn, size: nat): Conn
    requires c.buf != [] || c.inbound != []
  {
    var data := if c.buf != [] then c.buf else c.inbound[0];
    var rest := if c.buf != [] then c.inbound else c.inbound[1..];
    var n := Min(size, |data|);
    c.(buf := data[n..], inbound := rest, read := c.read + data[..n])
  }

  /** OpenStream */
  function Opened(e: End, me: bool): End {
    var sid := Sid(me, e.opens + 1);
    WithConn(e, sid, NewConn(NumberOf(sid))).(opens := e.opens + 1, dials := e.dials[NumberOf(sid) := sid])
  }

  /** The end of Close: whatever the maps hold under the number is deleted. */
  function Forgotten(e: End, sid: Sid): End
    requires sid in e.conns
  {
    var c := e.conns[sid];
    WithConn(e, sid, c.(forgotten := true)).(dials := e.dials - {c.seqno}, accepts := e.accepts - {c.seqno})
  }

  /** An action of one side. */
  ghost function Apply(s: State, me: bool, a: Action): State
    requires Enabled(s, me, a)
  {
    var e, w := At(s, me), Sent(s, me);
    match a
    case Open =>
      WithEnd(s, me, Opened(e, me))
    case Write(sid, p) =>
      var c := e.conns[sid];
      WithSent(WithEnd(s, me, WithConn(e, sid, c.(written := c.written + p))), me, w + [Frame(false, c.seqno, p, sid)])
    case StartClose(sid) => WithEnd(s, me, WithConn(e, sid, e.conns[sid].(fin := true)))
    case SendFin(sid) =>
      var c := e.conns[sid];
      WithSent(WithEnd(s, me, WithConn(e, sid, c.(finSent := true))), me, w + [Frame(true, c.seqno, [], sid)])
    case Forget(sid) =>
      WithEnd(s, me, Forgotten(e, sid))
    case TimeOut(sid) => WithEnd(s, me, WithConn(e, sid, e.conns[sid].(finWait := true)))
    case Receive =>
      var q := Sent(s, !me);
      WithSent(WithEnd(s, me, Deliver(e, q[0])), !me, q[1..])
    case Read(sid, n) => WithEnd(s, me, WithConn(e, sid, ReadConn(e.conns[sid], n)))
  }

  ghost function Step(s: State, me: bool, a: Action): State {
    if Enabled(s, me, a) then Apply(s, me, a) else s
  }

  ghost function Run(acts: seq<(bool, Action)>): State {
    if acts == [] then Init() else Step(Run(acts[..|acts| - 1]), acts[|acts| - 1].0, acts[|acts| - 1].1)
  }

  /** Every stream of the run was opened when its number was free. */
  ghost predicate Careful(acts: seq<(bool, Action)>) {
    acts == [] ||
    (var front, last := acts[..|acts| - 1], acts[|acts| - 1];
     Careful(front) && (last.1.Open? ==> NumberIsFree(Run(front), last.0)))
  }
}
