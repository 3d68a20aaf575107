/**
 One direction of one RDT connection, as a transition system.

 The sender and the receiver exchange messages through a network that may lose, duplicate and reorder: the
 network is the set of every message ever sent, a message in it may be handled any number of times, or never.
 The receiver is modelled at the grain of the program: the packet loop delivers frames one lookup, one delete,
 one push and one increment at a time, and the goroutine that answers queries scans the pool one lookup at a
 time, in any interleaving.
 */
module RdtProtocol {
  import opened Bytes

  datatype Msg =
    | Data(no: nat, payload: bytes)
    | Query(no: nat)
    | Nck(no: nat, missing: seq<nat>)
    | Fin(no: nat)
    | FinAck(no: nat)

  /**
   What Write, resend, recv (for NCK) and Close update on the sending side. `ncks`: the buffered channel from the packet
   loop to the NCK loop, first in, first out. `hand`: the NCK, at most one, that the packet loop is about to put there.
   `parked`: the NCK loop has handled an NCK and waits in its send on the unbuffered channel sendEvent; only a Write
   that waits for the window receives from it. `waiting`: how many Writes wait there.
   */
  datatype Sender = Sender(
    open: bool, sentNO: nat, ackNO: nat, pool: map<nat, bytes>, ncks: seq<Msg>, hand: seq<Msg>, parked: bool, waiting: nat)

  /** The NCKs the NCK loop will take next, in this order, before any other. */
  function Inbox(snd: Sender): seq<Msg> {
    snd.ncks + snd.hand
  }

  /** How many NCKs the channel holds. */
  const NCK_QUEUE := 256

  /** Where the packet loop is inside recvData: between packets, or at one of the statements of the drain loop. */
  datatype Loop = Idle | Looking | Found(payload: bytes) | Pushing(payload: bytes) | Bumping

  /** Where the query goroutine is inside sendNCK; `base` is the recvNO it read on entry. */
  datatype Scan = NoScan | Scanning(base: nat, next: nat, upTo: nat, missing: seq<nat>)

  /** `buf` is inboundBuf; no frame is empty, so the empty string stands for nil. */
  datatype Receiver = Receiver(
    recvNO: nat,
    pool: map<nat, bytes>,
    inbound: seq<bytes>,
    buf: bytes,
    loop: Loop,
    queries: seq<nat>,
    scan: Scan,
    acked: bool,
    closed: bool)

  /**
   The last five fields are history: the frames Write made, the frames pushed into `inbound`, the bytes Read
   returned before Close, the bytes Close threw away, and the bytes Read returned after Close.
   */
  datatype System = System(
    mtu: nat,
    snd: Sender,
    rcv: Receiver,
    net: set<Msg>,
    frames: seq<bytes>,
    pushed: seq<bytes>,
    early: bytes,
    lost: bytes,
    late: bytes)

  datatype Action =
    // sender
    | WriteFrame(payload: bytes)
    | Ask(seenSent: nat, seenAck: nat)
    | AckNck(nck: Msg)
    | QueueNck
    | HandleNck
    | BeginWait
    | Wake
    | StartClose
    | SendFin
    // receiver, packet loop
    | RecvData(data: Msg)
    | Lookup
    | Delete
    | Push
    | Bump
    | RecvQuery(query: Msg)
    | RecvFin(fin: Msg)
    | PassiveClose
    // receiver, query goroutine
    | ScanStart
    | ScanNext
    | ScanEnd
    // receiver, application
    | Read(size: nat)

  predicate ValidMtu(mtu: nat) {
    11 <= mtu <= 1500
  }

  function Window(mtu: nat): (w: nat)
    requires ValidMtu(mtu)
    ensures 1 <= w <= 373
  {
    (mtu - 7) / 4
  }

  function FrameSize(mtu: nat): nat
    requires ValidMtu(mtu)
  {
    mtu - 7
  }

  function Init(mtu: nat): System {
    System(mtu, Sender(true, 0, 0, map[], [], [], false, 0),
           Receiver(0, map[], [], [], Idle, [], NoScan, false, false),
           {}, [], [], [], [], [])
  }

  /** Frame k has reached the receiver: delivered, or waiting in its pool. */
  predicate Holds(r: Receiver, k: nat) {
    k <= r.recvNO || k in r.pool
  }

  /** The numbers in i..upTo that have no entry in the pool, ascending: the list sendNCK builds. */
  function Missing(pool: map<nat, bytes>, i: nat, upTo: nat): (r: seq<nat>)
    ensures |r| <= if i <= upTo then upTo + 1 - i else 0
    decreases upTo + 1 - i
  {
    if i > upTo then []
    else (if i in pool then [] else [i]) + Missing(pool, i + 1, upTo)
  }

  /** What sendNCK puts on the wire: the count is a uint16, too many gaps send nothing, and the peer parses as
      many numbers as the length field announces. */
  function NckReply(w: nat, no: nat, missing: seq<nat>): seq<Msg> {
    var count := |missing| % 0x1_0000;
    if count > w then [] else [Nck(no, missing[..count])]
  }

  /** A complete sendNCK(no), as the packet loop runs it (nothing else writes the pool). */
  function SendNck(w: nat, r: Receiver, no: nat): seq<Msg> {
    NckReply(w, no, Missing(r.pool, r.recvNO + 1, no))
  }

  function Trim(pool: map<nat, bytes>, no: nat, missing: seq<nat>): map<nat, bytes> {
    map k | k in pool && (k in missing || k > no) :: pool[k]
  }

  /** resend: the frames it puts on the wire again, in the order of the list. */
  function Resent(pool: map<nat, bytes>, missing: seq<nat>): seq<Msg> {
    if missing == [] then []
    else (if missing[0] in pool then [Data(missing[0], pool[missing[0]])] else []) + Resent(pool, missing[1..])
  }

  /** recv of an NCK: an empty list advances ackNO. */
  function Acked(snd: Sender, no: nat, missing: seq<nat>): Sender {
    if missing == [] && no > snd.ackNO then snd.(ackNO := no) else snd
  }

  /** resend, up to its last statement: the sender parked there, and the frames on the network. */
  function ApplyResend(s: System, no: nat, missing: seq<nat>): System {
    var pool := s.snd.pool;
    s.(snd := s.snd.(pool := Trim(pool, no, missing), parked := true), net := Send(s.net, Resent(pool, missing)))
  }

  predicate Enabled(s: System, a: Action)
    requires ValidMtu(s.mtu)
  {
    var w := Window(s.mtu);
    match a
    case WriteFrame(p) =>
      && s.snd.open && |s.snd.pool| < w && 1 <= |p| <= FrameSize(s.mtu)
      && s.snd.sentNO + 1 + 2 * w < 0x1_0000_0000
    case Ask(sent, ack) => sent <= s.snd.sentNO && ack <= s.snd.ackNO
    case AckNck(m) => m in s.net && m.Nck? && s.snd.hand == []
    case QueueNck => s.snd.hand != [] && |s.snd.ncks| < NCK_QUEUE
    case HandleNck => !s.snd.parked && s.snd.ncks != [] && s.snd.ncks[0].Nck?
    case BeginWait => s.snd.open && |s.snd.pool| >= w
    case Wake => s.snd.parked && s.snd.waiting > 0
    case StartClose => s.snd.open && s.snd.waiting == 0
    case SendFin => !s.snd.open
    case RecvData(m) => m in s.net && m.Data? && s.rcv.loop.Idle?
    case Lookup => s.rcv.loop.Looking?
    case Delete => s.rcv.loop.Found?
    case Push => s.rcv.loop.Pushing?
    case Bump => s.rcv.loop.Bumping?
    case RecvQuery(m) => m in s.net && m.Query? && s.rcv.loop.Idle?
    case RecvFin(m) => m in s.net && m.Fin? && s.rcv.loop.Idle?
    case PassiveClose => s.rcv.acked && !s.rcv.closed
    case ScanStart => s.rcv.scan.NoScan? && s.rcv.queries != []
    case ScanNext => s.rcv.scan.Scanning? && s.rcv.scan.next <= s.rcv.scan.upTo
    case ScanEnd => s.rcv.scan.Scanning? && s.rcv.scan.next > s.rcv.scan.upTo
    case Read(_) => s.rcv.buf != [] || s.rcv.inbound != []
  }

  /** The network after these messages were sent on it. */
  function Send(net: set<Msg>, ms: seq<Msg>): set<Msg> {
    net + set m | m in ms
  }

  /** no % w == 0. */
  predicate IsMultiple(no: nat, w: nat)
    requires w >= 1
  {
    if no < w then no == 0 else IsMultiple(no - w, w)
  }

  lemma {:induction false} IsMultipleIsMod(no: nat, w: nat)
    requires w >= 1
    ensures IsMultiple(no, w) <==> no % w == 0
  {
    if no >= w {
      IsMultipleIsMod(no - w, w);
      ModStep(no, w);
    }
  }

  lemma ModStep(n: nat, w: nat)
    requires 1 <= w <= n
    ensures n % w == (n - w) % w
  {
    var d := n / w - (n - w) / w - 1;
    Distribute(d, (n - w) / w + 1, w);
    Distribute(1, (n - w) / w, w);
    assert n == n / w * w + n % w;
    assert n - w == (n - w) / w * w + (n - w) % w;
    assert d * w == (n - w) % w - n % w;
    if d >= 1 {
      Distribute(d - 1, 1, w);
    } else if d <= -1 {
      Distribute(d + 1, -1, w);
    }
  }

  lemma Distribute(a: int, b: int, w: nat)
    ensures (a + b) * w == a * w + b * w
    ensures a >= 0 ==> a * w >= 0
    ensures a <= 0 ==> a * w <= 0
  {
  }

  /** The report recvData makes before it looks at the frame: at every multiple of the window. */
  function FirstReply(w: nat, r: Receiver, no: nat): seq<Msg>
    requires w >= 1
  {
    if IsMultiple(no, w) then SendNck(w, r, Min(r.recvNO + w, no)) else []
  }

  /** The report it makes when the frame is out of reach. */
  function SecondReply(w: nat, r: Receiver, no: nat): seq<Msg> {
    if no > r.recvNO + 1 && no - r.recvNO > w * 2 then SendNck(w, r, r.recvNO + w) else []
  }

  function DataReplies(w: nat, r: Receiver, no: nat): seq<Msg>
    requires w >= 1
  {
    FirstReply(w, r, no) + SecondReply(w, r, no)
  }

  /** recvData up to the first statement that touches `inbound`. */
  function ApplyData(s: System, no: nat, p: bytes): System
    requires ValidMtu(s.mtu)
  {
    var w, r := Window(s.mtu), s.rcv;
    var net := Send(s.net, DataReplies(w, r, no));
    if no <= r.recvNO then s.(net := net)
    else if no == r.recvNO + 1 then s.(net := net, rcv := r.(loop := Pushing(p)))
    else if no - r.recvNO > w * 2 then s.(net := net)
    else s.(net := net, rcv := r.(pool := r.pool[no := p]))
  }

  /** Read: serve `buf`, or take one frame out of `inbound` and keep what does not fit. */
  function TakeRead(r: Receiver, size: nat): (Receiver, bytes)
    requires r.buf != [] || r.inbound != []
  {
    var data := if r.buf != [] then r.buf else r.inbound[0];
    var rest := if r.buf != [] then r.inbound else r.inbound[1..];
    var n := Min(size, |data|);
    (r.(buf := data[n..], inbound := rest), data[..n])
  }

  function ApplyRead(s: System, size: nat): System
    requires s.rcv.buf != [] || s.rcv.inbound != []
  {
    var (r, data) := TakeRead(s.rcv, size);
    if r.closed then s.(rcv := r, late := s.late + data) else s.(rcv := r, early := s.early + data)
  }

  function Apply(s: System, a: Action): System
    requires ValidMtu(s.mtu) && Enabled(s, a)
  {
    var w, snd, r := Window(s.mtu), s.snd, s.rcv;
    match a
    case WriteFrame(p) =>
      var no := snd.sentNO + 1;
      s.(snd := snd.(sentNO := no, pool := snd.pool[no := p]), net := s.net + {Data(no, p)}, frames := s.frames + [p])
    case Ask(sent, ack) => s.(net := s.net + {Query(Min(sent, ack + w))})
    case AckNck(m) => s.(snd := Acked(snd, m.no, m.missing).(hand := [m]))
    case QueueNck => s.(snd := snd.(ncks := snd.ncks + snd.hand, hand := []))
    case HandleNck =>
      var t := s.(snd := snd.(ncks := snd.ncks[1..]));
      ApplyResend(t, snd.ncks[0].no, snd.ncks[0].missing)
    case BeginWait => s.(snd := snd.(waiting := snd.waiting + 1))
    case Wake => s.(snd := snd.(parked := false, waiting := snd.waiting - 1))
    case StartClose => s.(snd := snd.(open := false))
    case SendFin => s.(net := s.net + {Fin(snd.sentNO)})
    case RecvData(m) => ApplyData(s, m.no, m.payload)
    case Lookup =>
      s.(rcv := r.(loop := if r.recvNO + 1 in r.pool then Found(r.pool[r.recvNO + 1]) else Idle))
    case Delete => s.(rcv := r.(pool := r.pool - {r.recvNO}, loop := Pushing(r.loop.payload)))
    case Push =>
      var p := r.loop.payload;
      s.(rcv := r.(inbound := r.inbound + [p], loop := Bumping), pushed := s.pushed + [p])
    case Bump => s.(rcv := r.(recvNO := r.recvNO + 1, loop := Looking))
    case RecvQuery(m) => s.(rcv := r.(queries := r.queries + [m.no]))
    case RecvFin(m) =>
      if r.recvNO < m.no then s.(net := Send(s.net, SendNck(w, r, m.no)))
      else s.(net := s.net + {FinAck(m.no)}, rcv := r.(acked := true))
    case PassiveClose => s.(rcv := r.(buf := [], closed := true), lost := r.buf)
    case ScanStart =>
      s.(rcv := r.(queries := r.queries[1..], scan := Scanning(r.recvNO, r.recvNO + 1, r.queries[0], [])))
    case ScanNext =>
      var c := r.scan;
      s.(rcv := r.(scan := c.(next := c.next + 1,
                              missing := c.missing + if c.next in r.pool then [] else [c.next])))
    case ScanEnd => s.(rcv := r.(scan := NoScan), net := Send(s.net, NckReply(w, r.scan.upTo, r.scan.missing)))
    case Read(n) => ApplyRead(s, n)
  }

  /** An action that is not enabled (a lost packet, a blocked goroutine) changes nothing. */
  function Step(s: System, a: Action): (t: System)
    requires ValidMtu(s.mtu)
    ensures t.mtu == s.mtu
  {
    if Enabled(s, a) then Apply(s, a) else s
  }

  function Exec(s: System, acts: seq<Action>): (t: System)
    requires ValidMtu(s.mtu)
    ensures t.mtu == s.mtu
  {
    if acts == [] then s else Step(Exec(s, acts[..|acts| - 1]), acts[|acts| - 1])
  }

  lemma ExecSnoc(s: System, acts: seq<Action>, a: Action)
    requires ValidMtu(s.mtu)
    ensures Exec(s, acts + [a]) == Step(Exec(s, acts), a)
  {
    assert (acts + [a])[..|acts|] == acts;
  }

  lemma {:induction false} ExecAppend(s: System, a: seq<Action>, b: seq<Action>)
    requires ValidMtu(s.mtu)
    ensures Exec(s, a + b) == Exec(Exec(s, a), b)
    decreases |b|
  {
    if b == [] {
      assert a + b == a;
    } else {
      var front, last := b[..|b| - 1], b[|b| - 1];
      ExecAppend(s, a, front);
      LastSplit(a, b);
      OneMore(s, a + front, Exec(s, a), front, last);
    }
  }

  lemma OneMore(s: System, x: seq<Action>, t: System, y: seq<Action>, last: Action)
    requires ValidMtu(s.mtu) && ValidMtu(t.mtu) && Exec(s, x) == Exec(t, y)
    ensures Exec(s, x + [last]) == Exec(t, y + [last])
  {
    ExecSnoc(s, x, last);
    ExecSnoc(t, y, last);
  }

  lemma ExecOne(s: System, a: Action)
    requires ValidMtu(s.mtu)
    ensures Exec(s, [a]) == Step(s, a)
  {
    assert [a][..0] == [];
  }

  /** Some run leads from s to t. */
  ghost predicate Leads(s: System, t: System) {
    ValidMtu(s.mtu) && exists acts :: Exec(s, acts) == t
  }

  lemma LeadsFurther(s: System, t: System, u: System)
    requires Leads(s, t) && Leads(t, u)
    ensures Leads(s, u)
  {
    var a :| Exec(s, a) == t;
    var b :| Exec(t, b) == u;
    ExecAppend(s, a, b);
  }

  lemma LeadsSelf(s: System)
    requires ValidMtu(s.mtu)
    ensures Leads(s, s)
  {
    assert Exec(s, []) == s;
  }

  lemma StepLeads(s: System, a: Action)
    requires ValidMtu(s.mtu)
    ensures Leads(s, Step(s, a))
  {
    ExecOne(s, a);
  }

  /** Steps in which a Write takes part. */
  predicate ByWriter(a: Action) {
    a.WriteFrame? || a.BeginWait? || a.Wake?
  }

  predicate Alone(acts: seq<Action>) {
    forall a :: a in acts ==> !ByWriter(a)
  }

  /** Some run in which no Write takes part leads from s to t. */
  ghost predicate LeadsAlone(s: System, t: System) {
    ValidMtu(s.mtu) && exists acts :: Alone(acts) && Exec(s, acts) == t
  }

  lemma AloneBy(s: System, acts: seq<Action>)
    requires ValidMtu(s.mtu) && Alone(acts)
    ensures LeadsAlone(s, Exec(s, acts)) && Leads(s, Exec(s, acts))
  {
  }

  lemma AloneFurther(s: System, t: System, u: System)
    requires LeadsAlone(s, t) && LeadsAlone(t, u)
    ensures LeadsAlone(s, u) && Leads(s, u)
  {
    var a :| Alone(a) && Exec(s, a) == t;
    var b :| Alone(b) && Exec(t, b) == u;
    ExecAppend(s, a, b);
    assert Alone(a + b);
  }

  lemma DivUnique(x: nat, w: nat, q: nat)
    requires w >= 1 && q * w <= x < q * w + w
    ensures x / w == q
  {
    var d := x / w - q;
    Distribute(d, q, w);
    assert x == x / w * w + x % w;
    assert d * w == x - x % w - q * w;
    if d >= 1 {
      Distribute(d - 1, 1, w);
    } else if d <= -1 {
      Distribute(d + 1, -1, w);
    }
  }
}
