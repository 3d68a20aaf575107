/** Concrete runs in which RDT does what a reader might not expect. */
module RdtFindings {
  import opened Bytes
  import opened RdtProtocol
  import opened RdtGuarantees
  import opened RdtAtomic
  import opened RdtProgress
  import opened RdtStuck

  lemma Extend(s: System, t: System, a: Action, u: System)
    requires Leads(s, t) && u == Step(t, a)
    ensures Leads(s, u)
  {
    StepLeads(t, a);
    LeadsFurther(s, t, u);
  }

  /** Two frames are on the network and nothing has arrived. */
  function TwoSent(p: bytes, q: bytes): System {
    Init(1428).(snd := Sender(true, 2, 0, map[1 := p, 2 := q], [], [], false, 0), net := {Data(1, p), Data(2, q)}, frames := [p, q])
  }

  lemma TwoSentIsReached(p: bytes, q: bytes)
    requires 1 <= |p| <= 1421 && 1 <= |q| <= 1421
    ensures Leads(Init(1428), TwoSent(p, q))
  {
    var s := Init(1428);
    assert Exec(s, []) == s;
    var t := Step(s, WriteFrame(p));
    assert t == s.(snd := Sender(true, 1, 0, map[1 := p], [], [], false, 0), net := {Data(1, p)}, frames := [p]);
    Extend(s, s, WriteFrame(p), t);
    var u := Step(t, WriteFrame(q));
    assert |t.snd.pool| == 1;
    assert u == TwoSent(p, q);
    Extend(s, t, WriteFrame(q), u);
  }

  // ---------- acknowledged before delivered ----------

  lemma QueryQueued(i: System, a: System) returns (c: System)
    requires Leads(i, a) && a.mtu == 1428 && a.snd.sentNO == 2 && a.snd.ackNO == 0
    requires a.rcv.loop == Idle && a.rcv.queries == []
    ensures Leads(i, c) && c == a.(net := a.net + {Query(2)}, rcv := a.rcv.(queries := [2]))
  {
    var b := a.(net := a.net + {Query(2)});
    Extend(i, a, Ask(2, 0), b);
    c := b.(rcv := b.rcv.(queries := [2]));
    assert b.rcv.queries + [2] == [2];
    Extend(i, b, RecvQuery(Query(2)), c);
  }

  lemma SecondArrives(i: System, c: System, q: bytes) returns (d: System)
    requires Leads(i, c) && c.mtu == 1428 && c.rcv.loop == Idle && c.rcv.recvNO == 0 && c.rcv.pool == map[]
    requires Data(2, q) in c.net
    ensures Leads(i, d) && d == c.(rcv := c.rcv.(pool := map[2 := q]))
  {
    d := c.(rcv := c.rcv.(pool := map[2 := q]));
    assert Send(c.net, []) == c.net;
    Extend(i, c, RecvData(Data(2, q)), d);
  }

  lemma FirstArrives(i: System, d: System, p: bytes) returns (g: System)
    requires Leads(i, d) && d.mtu == 1428 && d.rcv.loop == Idle && d.rcv.recvNO == 0 && Data(1, p) in d.net
    ensures Leads(i, g) && g.mtu == d.mtu && g.snd == d.snd
    ensures g.rcv == d.rcv.(loop := Looking, recvNO := 1, inbound := d.rcv.inbound + [p])
  {
    var e := d.(rcv := d.rcv.(loop := Pushing(p)));
    assert Send(d.net, []) == d.net;
    Extend(i, d, RecvData(Data(1, p)), e);
    g := FirstPushed(i, e, p);
  }

  lemma FirstPushed(i: System, e: System, p: bytes) returns (g: System)
    requires Leads(i, e) && e.mtu == 1428 && e.rcv.loop == Pushing(p) && e.rcv.recvNO == 0
    ensures Leads(i, g) && g.mtu == e.mtu && g.snd == e.snd
    ensures g.rcv == e.rcv.(loop := Looking, recvNO := 1, inbound := e.rcv.inbound + [p])
  {
    var f := Step(e, Push);
    Extend(i, e, Push, f);
    g := Step(f, Bump);
    Extend(i, f, Bump, g);
  }

  /** In the middle of the drain loop the query goroutine can report a frame that waits in the pool: the sender's
      ackNO is then ahead of the receiver's recvNO. Between packets this cannot be (AckWhenIdle). */
  lemma AckAheadOfDelivery(p: bytes, q: bytes) returns (s: System)
    requires 1 <= |p| <= 1421 && 1 <= |q| <= 1421
    ensures Leads(Init(1428), s) && s.snd.ackNO == 2 && s.rcv.recvNO == 1
  {
    TwoSentIsReached(p, q);
    var c := QueryQueued(Init(1428), TwoSent(p, q));
    var d := SecondArrives(Init(1428), c, q);
    var g := FirstArrives(Init(1428), d, p);
    s := AckOfHalfDrained(Init(1428), g);
  }

  lemma ScanOfHalfDrained(i: System, g: System) returns (j: System)
    requires Leads(i, g) && g.mtu == 1428
    requires g.rcv.queries == [2] && g.rcv.scan == NoScan && g.rcv.recvNO == 1 && 2 in g.rcv.pool
    ensures Leads(i, j) && j.mtu == 1428 && j.snd == g.snd && j.rcv.recvNO == 1 && j.rcv.scan == Scanning(1, 3, 2, [])
  {
    var h := g.(rcv := g.rcv.(queries := [], scan := Scanning(1, 2, 2, [])));
    Extend(i, g, ScanStart, h);
    j := h.(rcv := h.rcv.(scan := Scanning(1, 3, 2, [])));
    assert h.rcv.scan.missing + [] == [];
    Extend(i, h, ScanNext, j);
  }

  lemma ReportOfHalfDrained(i: System, j: System) returns (k: System)
    requires Leads(i, j) && j.mtu == 1428 && j.rcv.recvNO == 1 && j.rcv.scan == Scanning(1, 3, 2, [])
    ensures Leads(i, k) && k.mtu == 1428 && k.snd == j.snd && k.rcv.recvNO == 1 && Nck(2, []) in k.net
  {
    assert NckReply(355, 2, []) == [Nck(2, [])];
    k := j.(rcv := j.rcv.(scan := NoScan), net := Send(j.net, [Nck(2, [])]));
    Extend(i, j, ScanEnd, k);
  }

  lemma AckOfHalfDrained(i: System, g: System) returns (s: System)
    requires Leads(i, g) && g.mtu == 1428 && g.snd.ackNO == 0 && g.snd.hand == []
    requires g.rcv.queries == [2] && g.rcv.scan == NoScan && g.rcv.recvNO == 1 && 2 in g.rcv.pool
    ensures Leads(i, s) && s.snd.ackNO == 2 && s.rcv.recvNO == 1
  {
    var j := ScanOfHalfDrained(i, g);
    var k := ReportOfHalfDrained(i, j);
    s := Step(k, AckNck(Nck(2, [])));
    Extend(i, k, AckNck(Nck(2, [])), s);
  }

  // ---------- bytes skipped by the close ----------

  lemma DeliverNext(i: System, s: System, m: Msg) returns (t: System)
    requires Leads(i, s) && s.mtu == 1428 && s.rcv.loop.Idle? && m.Data? && m in s.net
    requires m.no == s.rcv.recvNO + 1 < 300 && s.rcv.pool == map[]
    ensures Leads(i, t)
    ensures t == s.(rcv := s.rcv.(inbound := s.rcv.inbound + [m.payload], recvNO := m.no), pushed := s.pushed + [m.payload])
  {
    var acts := DataIsRun(s, m);
    t := AtomicData(s, m.no, m.payload);
    assert Send(s.net, []) == s.net;
    var before :| Exec(i, before) == s;
    ExecAppend(i, before, acts);
  }

  lemma ReadOne(i: System, c: System) returns (d: System)
    requires Leads(i, c) && c.mtu == 1428 && c.rcv.inbound == [[1, 2], [3]] && c.rcv.buf == [] && c.early == [] && !c.rcv.closed
    ensures Leads(i, d) && d == c.(rcv := c.rcv.(buf := [2], inbound := [[3]]), early := [1])
  {
    d := c.(rcv := c.rcv.(buf := [2], inbound := [[3]]), early := [1]);
    assert [] + [1] == [1];
    assert [1, 2][1..] == [2] && [[1, 2], [3]][1..] == [[3]];
    Extend(i, c, Read(1), d);
  }

  lemma FinArrives(i: System, d: System) returns (g: System)
    requires Leads(i, d) && d.mtu == 1428 && d.snd.open && d.snd.waiting == 0 && d.snd.sentNO == 2
    requires d.rcv.loop == Idle && d.rcv.recvNO == 2
    ensures Leads(i, g)
    ensures g == d.(snd := d.snd.(open := false), net := d.net + {Fin(2)} + {FinAck(2)}, rcv := d.rcv.(acked := true))
  {
    var e := d.(snd := d.snd.(open := false));
    Extend(i, d, StartClose, e);
    var f := e.(net := e.net + {Fin(2)});
    Extend(i, e, SendFin, f);
    g := f.(net := f.net + {FinAck(2)}, rcv := f.rcv.(acked := true));
    Extend(i, f, RecvFin(Fin(2)), g);
  }

  lemma CloseAndRead(i: System, g: System) returns (j: System)
    requires Leads(i, g) && g.mtu == 1428 && g.rcv.acked && !g.rcv.closed
    requires g.rcv.buf == [2] && g.rcv.inbound == [[3]] && g.late == []
    ensures Leads(i, j) && j.late == [3] && j.early == g.early && j.frames == g.frames
  {
    var h := g.(rcv := g.rcv.(buf := [], closed := true), lost := [2]);
    Extend(i, g, PassiveClose, h);
    j := Step(h, Read(1));
    assert [] + [3] == [3];
    Extend(i, h, Read(1), j);
  }

  /** A run in which the application reads 1, 3 although 1, 2, 3 was written. */
  lemma CloseSkipsBytes() returns (acts: seq<Action>)
    ensures Written(Init(1428), acts) == [1, 2, 3] && Returned(Init(1428), acts) == [1, 3]
  {
    var i, a := Init(1428), TwoSent([1, 2], [3]);
    TwoSentIsReached([1, 2], [3]);
    var b := DeliverNext(i, a, Data(1, [1, 2]));
    var c := DeliverNext(i, b, Data(2, [3]));
    assert c.rcv.inbound == [[1, 2], [3]];
    var d := ReadOne(i, c);
    var g := FinArrives(i, d);
    var j := CloseAndRead(i, g);
    acts :| Exec(i, acts) == j;
    HistoryIsRun(1428, acts);
    ConcatSnoc([[1, 2]], [3]);
    ConcatSnoc([], [1, 2]);
    assert [[1, 2]] + [[3]] == [[1, 2], [3]] && [] + [[1, 2]] == [[1, 2]];
    assert j.early + j.late == [1, 3];
  }

  // ---------- delivered frames that stay in the pool ----------

  /** With a window of two frames: everything written so far is delivered and acknowledged, no frame is left in the
      send pool, and n delivered frames are still in the receive pool. */
  ghost predicate Leaked(s: System, n: nat) {
    && s.mtu == 15 && s.snd.open && Quiet(s.rcv)
    && s.snd.sentNO == s.snd.ackNO == s.rcv.recvNO == 2 * n
    && s.snd.pool == map[] && Inbox(s.snd) == [] && !s.snd.parked && s.snd.waiting == 0
    && |s.rcv.pool| == n && (forall k :: k in s.rcv.pool ==> k <= s.rcv.recvNO)
  }

  lemma LeadsData(i: System, s: System, m: Msg) returns (t: System)
    requires Leads(i, s) && s.mtu == 15 && s.rcv.loop.Idle? && m.Data? && m in s.net
    ensures Leads(i, t) && t == AtomicData(s, m.no, m.payload)
  {
    var acts := DataIsRun(s, m);
    t := AtomicData(s, m.no, m.payload);
    LeadsFurther(i, s, t);
  }

  lemma OneMoreSent(i: System, s: System) returns (t: System)
    requires Leads(i, s) && s.mtu == 15 && s.snd.open && |s.snd.pool| < 2 && s.snd.sentNO + 5 < 0x1_0000_0000
    ensures Leads(i, t) && t.mtu == 15 && t.rcv == s.rcv && t.net == s.net + {Data(s.snd.sentNO + 1, [0])}
    ensures t.snd == s.snd.(sentNO := s.snd.sentNO + 1, pool := s.snd.pool[s.snd.sentNO + 1 := [0]])
  {
    t := Step(s, WriteFrame([0]));
    Extend(i, s, WriteFrame([0]), t);
  }

  lemma TwoMoreSent(i: System, s: System, n: nat) returns (t: System)
    requires Leads(i, s) && Leaked(s, n) && 2 * n + 6 < 0x1_0000_0000
    ensures Leads(i, t) && t.mtu == 15 && t.rcv == s.rcv
    ensures t.snd.open && t.snd.sentNO == 2 * n + 2 && t.snd.ackNO == 2 * n && !t.snd.parked && t.snd.waiting == 1
    ensures Inbox(t.snd) == [] && forall k :: k in t.snd.pool ==> k <= 2 * n + 2
    ensures Data(2 * n + 1, [0]) in t.net && Data(2 * n + 2, [0]) in t.net
  {
    var a := OneMoreSent(i, s);
    OneEntry(2 * n + 1);
    var b := OneMoreSent(i, a);
    TwoEntries(2 * n + 1);
    t := NextWaits(i, b);
  }

  lemma OneEntry(k: nat)
    ensures var m: map<nat, bytes> := map[]; |m[k := [0]]| == 1
  {
  }

  lemma TwoEntries(k: nat)
    ensures
      var m: map<nat, bytes> := map[];
      var p := m[k := [0]][k + 1 := [0]];
      |p| == 2 && forall j :: j in p ==> j <= k + 1
  {
    var m: map<nat, bytes> := map[];
    assert |m[k := [0]]| == 1;
  }

  lemma NextWaits(i: System, s: System) returns (t: System)
    requires Leads(i, s) && s.mtu == 15 && s.snd.open && |s.snd.pool| >= 2
    ensures Leads(i, t) && t == s.(snd := s.snd.(waiting := s.snd.waiting + 1))
  {
    BeginWaitStep(s);
    t := Step(s, BeginWait);
    Extend(i, s, BeginWait, t);
  }

  lemma NextWoken(i: System, s: System) returns (t: System)
    requires Leads(i, s) && s.mtu == 15 && s.snd.parked && s.snd.waiting > 0
    ensures Leads(i, t) && t == s.(snd := s.snd.(parked := false, waiting := s.snd.waiting - 1))
  {
    WakeStep(s);
    t := Step(s, Wake);
    Extend(i, s, Wake, t);
  }

  lemma LaterArrives(i: System, s: System, m: nat) returns (t: System)
    requires Leads(i, s) && s.mtu == 15 && Quiet(s.rcv) && s.rcv.recvNO == m && Data(m + 2, [0]) in s.net
    ensures Leads(i, t) && t.mtu == 15 && t.snd == s.snd && s.net <= t.net
    ensures t.rcv == s.rcv.(pool := s.rcv.pool[m + 2 := [0]])
  {
    t := LeadsData(i, s, Data(m + 2, [0]));
  }

  lemma EarlierArrives(i: System, s: System, m: nat) returns (t: System)
    requires Leads(i, s) && s.mtu == 15 && Quiet(s.rcv) && s.rcv.recvNO == m && Data(m + 1, [0]) in s.net
    requires m + 2 in s.rcv.pool && m + 1 !in s.rcv.pool && m + 3 !in s.rcv.pool
    ensures Leads(i, t) && t.mtu == 15 && t.snd == s.snd && Quiet(t.rcv)
    ensures t.rcv.recvNO == m + 2 && t.rcv.pool == s.rcv.pool
  {
    t := LeadsData(i, s, Data(m + 1, [0]));
    EarlierDrains(s, m);
  }

  lemma EarlierDrains(s: System, m: nat)
    requires s.mtu == 15 && s.rcv.recvNO == m && m + 2 in s.rcv.pool && m + 1 !in s.rcv.pool && m + 3 !in s.rcv.pool
    ensures
      var t := AtomicData(s, m + 1, [0]);
      && t.mtu == s.mtu && t.snd == s.snd
      && t.rcv == s.rcv.(recvNO := m + 2, inbound := s.rcv.inbound + [[0]] + [s.rcv.pool[m + 2]])
  {
    var r := s.rcv.(inbound := s.rcv.inbound + [[0]], recvNO := m + 1);
    DrainsOne(r);
    AtomicInOrder(s, m + 1, [0], Drained(r));
  }

  lemma DrainsOne(r: Receiver)
    requires r.recvNO !in r.pool && r.recvNO + 1 in r.pool && r.recvNO + 2 !in r.pool
    ensures Drained(r) == r.(recvNO := r.recvNO + 1, inbound := r.inbound + [r.pool[r.recvNO + 1]])
  {
    assert Drained(Turn(r)) == Turn(r);
    assert r.pool - {r.recvNO} == r.pool;
  }

  /** The two arrive in the wrong order: both are delivered and the second stays in the pool. */
  lemma Reordered(i: System, s: System, m: nat) returns (t: System)
    requires Leads(i, s) && s.mtu == 15 && Quiet(s.rcv) && s.rcv.recvNO == m
    requires Data(m + 1, [0]) in s.net && Data(m + 2, [0]) in s.net
    requires forall k :: k in s.rcv.pool ==> k <= m
    ensures Leads(i, t) && t.mtu == 15 && t.snd == s.snd && Quiet(t.rcv) && t.rcv.recvNO == m + 2
    ensures t.rcv.pool == s.rcv.pool[m + 2 := [0]]
  {
    var a := LaterArrives(i, s, m);
    t := EarlierArrives(i, a, m);
  }

  lemma NoneMissing(i: System, a: System, n: nat) returns (b: System)
    requires Leads(i, a) && a.mtu == 15 && Quiet(a.rcv) && a.rcv.recvNO == n && Query(n) in a.net
    ensures Leads(i, b) && b == a.(net := Send(a.net, [Nck(n, [])]))
  {
    var acts := QueryIsRun(a, n);
    b := Exec(a, acts);
    LeadsFurther(i, a, b);
    assert Missing(a.rcv.pool, n + 1, n) == [];
    assert NckReply(2, n, []) == [Nck(n, [])];
  }

  /** The check loop asks, everything is acknowledged, and the next Write goes on. */
  lemma AllAcked(i: System, s: System, m: nat) returns (t: System)
    requires Leads(i, s) && s.mtu == 15 && Quiet(s.rcv) && s.rcv.recvNO == s.snd.sentNO == m + 2 && s.snd.ackNO == m
    requires Inbox(s.snd) == [] && !s.snd.parked && s.snd.waiting == 1 && forall k :: k in s.snd.pool ==> k <= m + 2
    ensures Leads(i, t) && t.mtu == 15 && t.rcv == s.rcv
    ensures t.snd == s.snd.(ackNO := m + 2, pool := map[], waiting := 0)
  {
    var a := s.(net := s.net + {Query(m + 2)});
    TickStep(s);
    Extend(i, s, Ask(m + 2, m), a);
    var b := NoneMissing(i, a, m + 2);
    var c := NoneLeft(i, b, m + 2);
    t := NextWoken(i, c);
  }

  lemma NoneLeft(i: System, b: System, n: nat) returns (t: System)
    requires Leads(i, b) && b.mtu == 15 && Nck(n, []) in b.net && Inbox(b.snd) == [] && !b.snd.parked && n > b.snd.ackNO
    requires forall k :: k in b.snd.pool ==> k <= n
    ensures Leads(i, t) && t.mtu == 15 && t.rcv == b.rcv
    ensures t.snd == b.snd.(ackNO := n, pool := map[], parked := true)
  {
    NckIsRun(b, Nck(n, []));
    t := Exec(b, [AckNck(Nck(n, [])), QueueNck, HandleNck]);
    LeadsFurther(i, b, t);
    assert t.snd.pool.Keys == {};
  }

  lemma LeakMore(i: System, s: System, n: nat) returns (t: System)
    requires Leads(i, s) && Leaked(s, n) && 2 * n + 6 < 0x1_0000_0000
    ensures Leads(i, t) && Leaked(t, n + 1)
  {
    var a := TwoMoreSent(i, s, n);
    var b := Reordered(i, a, 2 * n);
    t := AllAcked(i, b, 2 * n);
    OneMoreLeaked(s.rcv.pool, 2 * n);
  }

  lemma OneMoreLeaked(pool: map<nat, bytes>, m: nat)
    requires forall k :: k in pool ==> k <= m
    ensures |pool[m + 2 := [0]]| == |pool| + 1
  {
  }

  /** Each reordering leaves a delivered frame behind: for every n that the frame numbers allow there is a run after
      which all is delivered and acknowledged and the receive pool still holds n frames. */
  lemma {:induction false} PoolKeepsDelivered(n: nat) returns (s: System)
    requires 2 * n + 4 < 0x1_0000_0000
    ensures Leads(Init(15), s) && Leaked(s, n)
  {
    if n == 0 {
      s := Init(15);
      assert Exec(s, []) == s;
    } else {
      var t := PoolKeepsDelivered(n - 1);
      s := LeakMore(Init(15), t, n - 1);
    }
  }

  // ---------- everything on its way, and yet the pool cannot empty ----------

  /** With a window of two frames: the first two have been sent, the second has arrived, a third Write waits. */
  lemma SecondOfTwoArrived(i: System) returns (t: System)
    requires i == Init(15)
    ensures Leads(i, t) && t.mtu == 15 && Quiet(t.rcv) && t.rcv.recvNO == 0 && t.rcv.pool == map[2 := [0]]
    ensures t.snd == Sender(true, 2, 0, map[1 := [0], 2 := [0]], [], [], false, 1)
  {
    LeadsSelf(i);
    var a := OneMoreSent(i, i);
    OneEntry(1);
    var b := OneMoreSent(i, a);
    TwoEntries(1);
    var c := NextWaits(i, b);
    t := LaterArrives(i, c, 0);
  }

  /** The report on what the check loop asks lists the first; it is sent again, and the third Write goes on. */
  lemma FirstIsListed(i: System, s: System) returns (t: System)
    requires Leads(i, s) && s.mtu == 15 && Quiet(s.rcv) && s.rcv.recvNO == 0 && s.rcv.pool == map[2 := [0]]
    requires s.snd == Sender(true, 2, 0, map[1 := [0], 2 := [0]], [], [], false, 1)
    ensures Leads(i, t) && t.mtu == 15 && t.snd == Sender(true, 2, 0, map[1 := [0]], [], [], false, 0)
    ensures Data(1, [0]) in t.net && t.rcv == s.rcv
  {
    var a := s.(net := s.net + {Query(2)});
    TickStep(s);
    Extend(i, s, Ask(2, 0), a);
    var b := FirstIsMissing(i, a);
    var c := FirstIsHandled(i, b);
    t := NextWoken(i, c);
  }

  lemma FirstIsMissing(i: System, a: System) returns (b: System)
    requires Leads(i, a) && a.mtu == 15 && Quiet(a.rcv) && a.rcv.recvNO == 0 && a.rcv.pool == map[2 := [0]]
    requires Query(2) in a.net
    ensures Leads(i, b) && b == a.(net := Send(a.net, [Nck(2, [1])]))
  {
    var acts := QueryIsRun(a, 2);
    b := Exec(a, acts);
    LeadsFurther(i, a, b);
    assert Missing(a.rcv.pool, 3, 2) == [] && Missing(a.rcv.pool, 2, 2) == [];
    assert Missing(a.rcv.pool, 1, 2) == [1];
    assert NckReply(2, 2, [1]) == [Nck(2, [1])];
  }

  lemma FirstIsHandled(i: System, b: System) returns (t: System)
    requires Leads(i, b) && b.mtu == 15 && Nck(2, [1]) in b.net
    requires b.snd == Sender(true, 2, 0, map[1 := [0], 2 := [0]], [], [], false, 1)
    ensures Leads(i, t) && t.mtu == 15 && t.snd == Sender(true, 2, 0, map[1 := [0]], [], [], true, 1)
    ensures Data(1, [0]) in t.net && t.rcv == b.rcv
  {
    NckIsRun(b, Nck(2, [1]));
    t := Exec(b, [AckNck(Nck(2, [1])), QueueNck, HandleNck]);
    LeadsFurther(i, b, t);
    assert Trim(b.snd.pool, 2, [1]) == map[1 := [0]];
    FirstIsResent(b.snd.pool);
  }

  lemma FirstIsResent(pool: map<nat, bytes>)
    requires 1 in pool && pool[1] == [0]
    ensures Resent(pool, [1]) == [Data(1, [0])]
  {
    assert Resent(pool, []) == [];
  }

  /**
   The NCK loop is free, nothing waits in the channel, and the frames that have not arrived are on their way. Still no
   run without a Write empties the pool: the query of the check loop, like every report it leads to, goes up to frame 2
   only, and after one NCK the loop is parked.
   */
  lemma OneQueryIsNotEnough() returns (s: System)
    ensures Leads(Init(15), s)
    ensures
      var t := s.(net := {Data(1, [0]), Data(3, [0])});
      t.net <= s.net && !t.snd.parked && Inbox(t.snd) == [] && AllComing(t) && !CanEmptyAlone(t)
  {
    var a := SecondOfTwoArrived(Init(15));
    var b := FirstIsListed(Init(15), a);
    OneEntry(1);
    s := OneMoreSent(Init(15), b);
    var acts :| Exec(Init(15), acts) == s;
    ThirdNotCovered(s.(net := {Data(1, [0]), Data(3, [0])}));
    EmptiesAfterLoss(15, acts, {Data(1, [0]), Data(3, [0])});
  }

  lemma ThirdNotCovered(t: System)
    requires t.mtu == 15 && t.net == {Data(1, [0]), Data(3, [0])} && t.rcv.recvNO == 0 && 2 in t.rcv.pool
    requires t.snd.ackNO == 0 && t.snd.sentNO == 3 && 3 in t.snd.pool && Inbox(t.snd) == []
    ensures AllComing(t) && !NextClears(t)
  {
    assert Data(1, [0]) in t.net && Data(3, [0]) in t.net;
    assert !IsMultiple(1, 2);
    assert IsMultiple(3, 2) == IsMultiple(1, 2);
  }
}
