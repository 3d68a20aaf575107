/**
 Each call of the program as one function on the fields it updates, and the proof that such a call is a run of the
 fine-grained system. The functions specify the methods of RdtConn; the runs carry over every guarantee.
 */
module RdtAtomic {
  import opened Bytes
  import opened RdtProtocol
  import opened RdtSafety
  import opened RdtGuarantees

  // ---------- receiver ----------

  /** One turn of the drain loop. The entry it deletes is the one below the one it delivers. */
  function Turn(r: Receiver): (r': Receiver)
    requires r.recvNO + 1 in r.pool
    ensures Waiting(r') < Waiting(r)
  {
    assert r.recvNO + 1 in Waiting(r);
    r.(recvNO := r.recvNO + 1, pool := r.pool - {r.recvNO}, inbound := r.inbound + [r.pool[r.recvNO + 1]])
  }

  /** The drain loop of recvData. */
  function Drained(r: Receiver): Receiver
    decreases Waiting(r)
  {
    if r.recvNO + 1 in r.pool then Drained(Turn(r)) else r
  }

  /** recvData(no, p), without the NCKs it sends. */
  function Accept(w: nat, r: Receiver, no: nat, p: bytes): Receiver {
    if no <= r.recvNO then r
    else if no == r.recvNO + 1 then Drained(r.(inbound := r.inbound + [p], recvNO := r.recvNO + 1))
    else if no - r.recvNO > w * 2 then r
    else r.(pool := r.pool[no := p])
  }

  /** A frame that is old or more than two windows ahead is dropped, one that is ahead is kept, and the next one is
      delivered with those that wait behind it. */
  lemma AcceptCases(w: nat, r: Receiver, no: nat, p: bytes)
    requires w >= 1
    ensures no <= r.recvNO || no > r.recvNO + 2 * w ==> Accept(w, r, no, p) == r
    ensures r.recvNO + 1 < no <= r.recvNO + 2 * w ==> Accept(w, r, no, p) == r.(pool := r.pool[no := p])
    ensures no == r.recvNO + 1 ==>
              var t := r.(recvNO := no, inbound := r.inbound + [p]);
              Accept(w, r, no, p) == Drained(t) && Drained(t).recvNO >= no && r.inbound + [p] <= Drained(t).inbound
  {
    DrainGrows(r.(recvNO := no, inbound := r.inbound + [p]));
    DrainedSpec(r.(recvNO := no, inbound := r.inbound + [p]));
  }

  /** A report is made on each frame whose number is a multiple of the window, and on one too far ahead. */
  lemma ReplyCases(w: nat, r: Receiver, no: nat)
    requires w >= 1
    ensures
      var near := if no % w == 0 then SendNck(w, r, if no <= r.recvNO + w then no else r.recvNO + w) else [];
      var far := if no > r.recvNO + 2 * w then SendNck(w, r, r.recvNO + w) else [];
      DataReplies(w, r, no) == near + far
  {
    IsMultipleIsMod(no, w);
  }

  /** The drain loop delivers the longest run of consecutive entries, in order. */
  lemma {:induction false} DrainedOrder(r: Receiver)
    ensures
      var d := Drained(r);
      && r.recvNO <= d.recvNO && d.recvNO + 1 !in r.pool
      && |d.inbound| == |r.inbound| + d.recvNO - r.recvNO && r.inbound <= d.inbound
      && (forall k :: r.recvNO < k <= d.recvNO ==> k in r.pool && d.inbound[|r.inbound| + k - r.recvNO - 1] == r.pool[k])
    decreases Waiting(r)
  {
    if r.recvNO + 1 in r.pool {
      var r' := Turn(r);
      DrainedOrder(r');
      var d := Drained(r);
      assert d == Drained(r');
      forall k | r.recvNO < k <= d.recvNO
        ensures k in r.pool && d.inbound[|r.inbound| + k - r.recvNO - 1] == r.pool[k]
      {
        assert k > r.recvNO + 1 ==> k in r'.pool;
      }
    }
  }

  /** It deletes the entries from the one below the first delivery up to the last delivery but one: the entry of the
      last frame delivered stays, as do older ones. Nothing else of the receiver changes. */
  lemma {:induction false} DrainedSpec(r: Receiver)
    ensures
      var d := Drained(r);
      && r.recvNO <= d.recvNO && d.recvNO + 1 !in r.pool
      && (forall k :: k in d.pool <==> k in r.pool && !(r.recvNO <= k < d.recvNO))
      && (forall k :: k in d.pool ==> d.pool[k] == r.pool[k])
      && d == r.(recvNO := d.recvNO, pool := d.pool, inbound := d.inbound)
    decreases Waiting(r)
  {
    if r.recvNO + 1 in r.pool {
      var r' := Turn(r);
      DrainedSpec(r');
      assert Drained(r) == Drained(r');
    }
  }

  /** The system after the packet loop has handled a DATA frame without interruption. */
  function AtomicData(s: System, no: nat, p: bytes): System
    requires ValidMtu(s.mtu)
  {
    var w := Window(s.mtu);
    var r := Accept(w, s.rcv, no, p);
    DrainGrows(s.rcv.(inbound := s.rcv.inbound + [p], recvNO := s.rcv.recvNO + 1));
    s.(rcv := r, net := Send(s.net, DataReplies(w, s.rcv, no)), pushed := s.pushed + r.inbound[|s.rcv.inbound|..])
  }

  lemma {:induction false} DrainGrows(r: Receiver)
    ensures r.inbound <= Drained(r).inbound
    decreases Waiting(r)
  {
    if r.recvNO + 1 in r.pool {
      DrainGrows(Turn(r));
    }
  }

  lemma ExecTwo(s: System, a: Action, b: Action)
    requires ValidMtu(s.mtu)
    ensures Exec(s, [a, b]) == Step(Step(s, a), b)
  {
    assert [a] + [b] == [a, b];
    ExecOne(s, a);
    ExecSnoc(s, [a], b);
  }

  /** The system after one turn of the drain loop. */
  function DrainTurn(s: System): System
    requires s.rcv.recvNO + 1 in s.rcv.pool
  {
    s.(rcv := Turn(s.rcv), pushed := s.pushed + [s.rcv.pool[s.rcv.recvNO + 1]])
  }

  lemma DrainTurnSteps(s: System)
    requires ValidMtu(s.mtu) && s.rcv.loop.Looking? && s.rcv.recvNO + 1 in s.rcv.pool
    ensures Step(Step(Step(Step(s, Lookup), Delete), Push), Bump) == DrainTurn(s)
  {
    var a := Step(s, Lookup);
    assert a == s.(rcv := s.rcv.(loop := Found(s.rcv.pool[s.rcv.recvNO + 1])));
    var b := Step(a, Delete);
    assert b == s.(rcv := s.rcv.(loop := Pushing(s.rcv.pool[s.rcv.recvNO + 1]), pool := s.rcv.pool - {s.rcv.recvNO}));
  }

  lemma DrainTurnIsRun(s: System)
    requires ValidMtu(s.mtu) && s.rcv.loop.Looking? && s.rcv.recvNO + 1 in s.rcv.pool
    ensures Exec(s, [Lookup, Delete, Push, Bump]) == DrainTurn(s)
  {
    ExecTwo(s, Lookup, Delete);
    ExecTwo(Exec(s, [Lookup, Delete]), Push, Bump);
    ExecAppend(s, [Lookup, Delete], [Push, Bump]);
    assert [Lookup, Delete] + [Push, Bump] == [Lookup, Delete, Push, Bump];
    DrainTurnSteps(s);
  }

  /** The system when the drain loop has run to its end. */
  function DrainDone(s: System): System {
    DrainGrows(s.rcv);
    var d := Drained(s.rcv);
    s.(rcv := d.(loop := Idle), pushed := s.pushed + d.inbound[|s.rcv.inbound|..])
  }

  lemma DrainTurnDone(s: System)
    requires s.rcv.recvNO + 1 in s.rcv.pool
    ensures DrainDone(s) == DrainDone(DrainTurn(s))
  {
    var t := DrainTurn(s);
    DrainGrows(t.rcv);
    var d := Drained(s.rcv);
    assert d == Drained(t.rcv);
    assert d.inbound[|s.rcv.inbound|..] == [d.inbound[|s.rcv.inbound|]] + d.inbound[|t.rcv.inbound|..];
  }

  lemma {:induction false} DrainIsRun(s: System) returns (acts: seq<Action>)
    requires ValidMtu(s.mtu) && s.rcv.loop.Looking?
    ensures Alone(acts)
    ensures Exec(s, acts) == DrainDone(s)
    decreases Waiting(s.rcv)
  {
    if s.rcv.recvNO + 1 in s.rcv.pool {
      var t := DrainTurn(s);
      DrainTurnIsRun(s);
      DrainTurnDone(s);
      var rest := DrainIsRun(t);
      acts := [Lookup, Delete, Push, Bump] + rest;
      ExecAppend(s, [Lookup, Delete, Push, Bump], rest);
    } else {
      acts := [Lookup];
      ExecOne(s, Lookup);
    }
  }

  /** recvData is a run: whatever holds after every run holds after every uninterrupted call. */
  lemma DataIsRun(s: System, m: Msg) returns (acts: seq<Action>)
    requires ValidMtu(s.mtu) && s.rcv.loop.Idle? && m.Data? && m in s.net
    ensures Alone(acts)
    ensures Exec(s, acts) == AtomicData(s, m.no, m.payload)
  {
    ExecOne(s, RecvData(m));
    if m.no == s.rcv.recvNO + 1 {
      var rest := InOrderIsRun(s, Step(s, RecvData(m)), m.no, m.payload);
      acts := [RecvData(m)] + rest;
      ExecAppend(s, [RecvData(m)], rest);
    } else {
      acts := [RecvData(m)];
      assert s.pushed + [] == s.pushed;
    }
  }

  /** The frame is next: it is pushed, and the drain loop runs. */
  lemma InOrderIsRun(s: System, t: System, no: nat, p: bytes) returns (acts: seq<Action>)
    requires ValidMtu(s.mtu) && s.rcv.loop.Idle? && no == s.rcv.recvNO + 1
    requires t == s.(net := Send(s.net, DataReplies(Window(s.mtu), s.rcv, no)), rcv := s.rcv.(loop := Pushing(p)))
    ensures Alone(acts)
    ensures Exec(t, acts) == AtomicData(s, no, p)
  {
    var u := Exec(t, [Push, Bump]);
    ExecTwo(t, Push, Bump);
    var rest := DrainIsRun(u);
    acts := [Push, Bump] + rest;
    ExecAppend(t, [Push, Bump], rest);
    InOrderDone(s, u, no, p);
  }

  lemma InOrderDone(s: System, u: System, no: nat, p: bytes)
    requires ValidMtu(s.mtu) && s.rcv.loop.Idle? && no == s.rcv.recvNO + 1
    requires u == s.(net := Send(s.net, DataReplies(Window(s.mtu), s.rcv, no)),
                     rcv := s.rcv.(inbound := s.rcv.inbound + [p], recvNO := no, loop := Looking), pushed := s.pushed + [p])
    ensures DrainDone(u) == AtomicData(s, no, p)
  {
    var r := s.rcv.(inbound := s.rcv.inbound + [p], recvNO := no);
    assert u.rcv.(loop := Idle) == r;
    InOrderTail(u.rcv, s.rcv.inbound, p);
    AtomicInOrder(s, no, p, Drained(r));
    Associative(s.pushed, [p], Drained(u.rcv).inbound[|u.rcv.inbound|..]);
  }

  lemma AtomicInOrder(s: System, no: nat, p: bytes, d: Receiver)
    requires ValidMtu(s.mtu) && no == s.rcv.recvNO + 1
    requires d == Drained(s.rcv.(inbound := s.rcv.inbound + [p], recvNO := no)) && s.rcv.inbound <= d.inbound
    ensures
      AtomicData(s, no, p) ==
      s.(rcv := d, net := Send(s.net, DataReplies(Window(s.mtu), s.rcv, no)),
         pushed := s.pushed + d.inbound[|s.rcv.inbound|..])
  {
  }

  lemma InOrderTail(r: Receiver, before: seq<bytes>, p: bytes)
    requires r.inbound == before + [p]
    ensures
      var d := Drained(r.(loop := Idle));
      Drained(r).(loop := Idle) == d && r.inbound <= d.inbound && d.inbound[|before|..] == [p] + Drained(r).inbound[|r.inbound|..]
  {
    LoopIsInert(r);
    DrainGrows(r);
    FirstOfTail(Drained(r).inbound, before, p);
  }

  lemma FirstOfTail(all: seq<bytes>, before: seq<bytes>, p: bytes)
    requires before + [p] <= all
    ensures all[|before|..] == [p] + all[|before| + 1..]
  {
    assert all[|before|] == (before + [p])[|before|];
  }

  /** Where the loop stands does not matter to what it delivers. */
  lemma {:induction false} LoopIsInert(r: Receiver)
    ensures Drained(r).(loop := Idle) == Drained(r.(loop := Idle))
    decreases Waiting(r)
  {
    if r.recvNO + 1 in r.pool {
      LoopIsInert(Turn(r));
    }
  }

  // ---------- query goroutine ----------

  /** Nothing is half done on the receiving side. */
  predicate Quiet(r: Receiver) {
    r.loop.Idle? && r.queries == [] && r.scan.NoScan?
  }

  /** The system when the query goroutine has finished its report. */
  function ScanDone(s: System): System
    requires ValidMtu(s.mtu) && s.rcv.scan.Scanning?
  {
    var c := s.rcv.scan;
    var missing := c.missing + Missing(s.rcv.pool, c.next, c.upTo);
    s.(rcv := s.rcv.(scan := NoScan), net := Send(s.net, NckReply(Window(s.mtu), c.upTo, missing)))
  }

  lemma ScanTurnDone(s: System)
    requires ValidMtu(s.mtu) && s.rcv.scan.Scanning? && s.rcv.scan.next <= s.rcv.scan.upTo
    ensures ScanDone(Step(s, ScanNext)) == ScanDone(s)
  {
    var c := s.rcv.scan;
    var here := if c.next in s.rcv.pool then [] else [c.next];
    var rest := Missing(s.rcv.pool, c.next + 1, c.upTo);
    assert c.missing + (here + rest) == (c.missing + here) + rest;
  }

  lemma {:induction false} ScanIsRun(s: System) returns (acts: seq<Action>)
    requires ValidMtu(s.mtu) && s.rcv.scan.Scanning?
    ensures Alone(acts)
    ensures Exec(s, acts) == ScanDone(s)
    decreases s.rcv.scan.upTo + 1 - s.rcv.scan.next
  {
    var c := s.rcv.scan;
    if c.next <= c.upTo {
      ScanTurnDone(s);
      var rest := ScanIsRun(Step(s, ScanNext));
      acts := [ScanNext] + rest;
      ExecOne(s, ScanNext);
      ExecAppend(s, [ScanNext], rest);
    } else {
      acts := [ScanEnd];
      ExecOne(s, ScanEnd);
      assert c.missing + [] == c.missing;
    }
  }

  /** A query answered without interruption is a run. */
  lemma QueryIsRun(s: System, q: nat) returns (acts: seq<Action>)
    requires ValidMtu(s.mtu) && Quiet(s.rcv) && Query(q) in s.net
    ensures Alone(acts)
    ensures Exec(s, acts) == s.(net := Send(s.net, SendNck(Window(s.mtu), s.rcv, q)))
  {
    var t := QueryStarts(s, q);
    var rest := ScanIsRun(t);
    acts := [RecvQuery(Query(q)), ScanStart] + rest;
    ExecAppend(s, [RecvQuery(Query(q)), ScanStart], rest);
    AnswerDone(s, t, q);
  }

  lemma AnswerDone(s: System, t: System, q: nat)
    requires ValidMtu(s.mtu) && s.rcv.scan.NoScan?
    requires t == s.(rcv := s.rcv.(scan := Scanning(s.rcv.recvNO, s.rcv.recvNO + 1, q, [])))
    ensures ScanDone(t) == s.(net := Send(s.net, SendNck(Window(s.mtu), s.rcv, q)))
  {
    var missing := Missing(s.rcv.pool, s.rcv.recvNO + 1, q);
    assert [] + missing == missing;
  }

  lemma QueryStarts(s: System, q: nat) returns (t: System)
    requires ValidMtu(s.mtu) && Quiet(s.rcv) && Query(q) in s.net
    ensures t == Exec(s, [RecvQuery(Query(q)), ScanStart])
    ensures t == s.(rcv := s.rcv.(scan := Scanning(s.rcv.recvNO, s.rcv.recvNO + 1, q, [])))
  {
    t := Exec(s, [RecvQuery(Query(q)), ScanStart]);
    ExecTwo(s, RecvQuery(Query(q)), ScanStart);
  }

  // ---------- sender ----------

  /** The NCK in the hand of the packet loop goes into the channel as soon as there is room. */
  function Queued(snd: Sender): Sender {
    if snd.hand != [] && |snd.ncks| < NCK_QUEUE then snd.(ncks := snd.ncks + snd.hand, hand := []) else snd
  }

  /** recv of an NCK. */
  function Received(snd: Sender, m: Msg): Sender
    requires m.Nck?
  {
    Queued(Acked(snd, m.no, m.missing).(hand := [m]))
  }

  /** The NCK loop takes the first NCK of the channel. */
  function Taken(snd: Sender): Sender
    requires snd.ncks != []
  {
    snd.(ncks := snd.ncks[1..])
  }

  /** resend: what stays in the pool, and the sender parked. */
  function Trimmed(snd: Sender, no: nat, missing: seq<nat>): Sender {
    snd.(pool := Trim(snd.pool, no, missing), parked := true)
  }

  /** A waiting Write has taken the event: the NCK loop goes on. */
  function Freed(snd: Sender): Sender {
    snd.(parked := false)
  }

  /** An NCK received with nothing before it in the channel and, the NCK loop being free, handled: the loop is parked
      afterwards. */
  lemma NckIsRun(s: System, m: Msg)
    requires ValidMtu(s.mtu) && m.Nck? && m in s.net && !s.snd.parked && Inbox(s.snd) == []
    ensures
      Exec(s, [AckNck(m), QueueNck, HandleNck]) ==
      s.(snd := Trimmed(Acked(s.snd, m.no, m.missing), m.no, m.missing),
         net := Send(s.net, Resent(s.snd.pool, m.missing)))
  {
    assert s.snd.ncks == [] && s.snd.hand == [] && [] + [m] == [m] && [m][1..] == [];
    ReceiveIsRun(s, m);
    ExecSnoc(s, [AckNck(m), QueueNck], HandleNck);
    assert [AckNck(m), QueueNck] + [HandleNck] == [AckNck(m), QueueNck, HandleNck];
    HandleStep(s.(snd := Received(s.snd, m)));
  }

  /** recv of an NCK: it goes into the channel, or stays in the hand of the packet loop. */
  lemma ReceiveIsRun(s: System, m: Msg)
    requires ValidMtu(s.mtu) && m.Nck? && m in s.net && s.snd.hand == []
    ensures Exec(s, [AckNck(m), QueueNck]) == s.(snd := Received(s.snd, m))
  {
    ExecTwo(s, AckNck(m), QueueNck);
    QueueNckStep(s.(snd := Acked(s.snd, m.no, m.missing).(hand := [m])));
  }

  lemma QueueNckStep(s: System)
    requires ValidMtu(s.mtu)
    ensures Step(s, QueueNck) == s.(snd := Queued(s.snd))
  {
  }

  /** The NCK loop takes an NCK and acts upon it. */
  lemma HandleStep(s: System)
    requires ValidMtu(s.mtu) && !s.snd.parked && s.snd.ncks != [] && s.snd.ncks[0].Nck?
    ensures
      var m := s.snd.ncks[0];
      Step(s, HandleNck) ==
      s.(snd := Trimmed(Taken(s.snd), m.no, m.missing), net := Send(s.net, Resent(s.snd.pool, m.missing)))
  {
  }

  /** What the check loop asks when it comes round. */
  function Tick(w: nat, snd: Sender): seq<Msg> {
    if snd.pool == map[] then [] else [Query(Min(snd.sentNO, snd.ackNO + w))]
  }

  /** This is the query that the check loop must send: about everything sent, but no more than a window beyond ackNO. */
  predicate IsTick(w: nat, snd: Sender, m: Msg) {
    m.Query? && ((m.no == snd.sentNO <= snd.ackNO + w) || (m.no == snd.ackNO + w <= snd.sentNO))
  }

  /** In every reachable state the check loop sends nothing if and only if the pool is empty, and otherwise that one query.
      It is a step of the system, and the receiver can always answer it: between packets it asks for no more than a window
      beyond what is delivered, so that the answer is not dropped. */
  lemma TickIsRun(mtu: nat, acts: seq<Action>)
    requires ValidMtu(mtu)
    ensures TickOk(Exec(Init(mtu), acts))
  {
    var s := Reachable(mtu, acts);
    TickAt(s);
  }

  lemma TickAt(s: State)
    ensures TickOk(s)
  {
    TickReach(s);
    TickStep(s);
  }

  ghost predicate TickOk(s: System)
    requires ValidMtu(s.mtu)
  {
    var w := Window(s.mtu);
    var asked := Tick(w, s.snd);
    && (asked == [] <==> s.snd.pool == map[])
    && (s.snd.pool != map[] ==>
          && |asked| == 1 && IsTick(w, s.snd, asked[0]) && asked[0].no <= s.snd.sentNO
          && Step(s, Ask(s.snd.sentNO, s.snd.ackNO)) == s.(net := s.net + {asked[0]})
          && (s.rcv.loop.Idle? ==>
                SendNck(w, s.rcv, asked[0].no) == [Nck(asked[0].no, Missing(s.rcv.pool, s.rcv.recvNO + 1, asked[0].no))]))
  }

  lemma TickReach(s: State)
    ensures
      var q := Min(s.snd.sentNO, s.snd.ackNO + Window(s.mtu));
      s.rcv.loop.Idle? ==>
        SendNck(Window(s.mtu), s.rcv, q) == [Nck(q, Missing(s.rcv.pool, s.rcv.recvNO + 1, q))]
  {
    if s.rcv.loop.Idle? {
      assert !Holds(s.rcv, s.rcv.recvNO + 1);
      NckAt(s, Min(s.snd.sentNO, s.snd.ackNO + Window(s.mtu)));
    }
  }

  lemma TickStep(s: System)
    requires ValidMtu(s.mtu)
    ensures
      Step(s, Ask(s.snd.sentNO, s.snd.ackNO)) ==
      s.(net := s.net + {Query(Min(s.snd.sentNO, s.snd.ackNO + Window(s.mtu)))})
  {
  }

  /** Whatever the query goroutine has told the sender, the packet loop can deliver without another packet. */
  lemma AckWithinDrain(mtu: nat, acts: seq<Action>)
    requires ValidMtu(mtu)
    ensures
      var s := Exec(Init(mtu), acts);
      s.snd.ackNO <= Drained(s.rcv).recvNO <= s.snd.sentNO
  {
    var s := Reachable(mtu, acts);
    AckAt(s);
  }

  lemma AckAt(s: System)
    requires ValidMtu(s.mtu) && SenderOk(s) && FlowOk(s) && PoolCovers(s) && ReceiverOk(s)
    ensures s.snd.ackNO <= Drained(s.rcv).recvNO <= s.snd.sentNO
  {
    forall k | s.rcv.recvNO < k <= s.snd.ackNO ensures k in s.rcv.pool {
      assert Holds(s.rcv, k);
    }
    DrainReaches(s.rcv, s.snd.ackNO);
    DrainBounded(s.rcv, s.snd.sentNO);
  }

  lemma {:induction false} DrainReaches(r: Receiver, n: nat)
    requires forall k :: r.recvNO < k <= n ==> k in r.pool
    ensures Drained(r).recvNO >= n
    decreases Waiting(r)
  {
    if r.recvNO + 1 in r.pool {
      DrainReaches(Turn(r), n);
    }
  }

  lemma {:induction false} DrainBounded(r: Receiver, n: nat)
    requires r.recvNO <= n && forall k :: k in r.pool ==> k <= n
    ensures Drained(r).recvNO <= n
    decreases Waiting(r)
  {
    if r.recvNO + 1 in r.pool {
      DrainBounded(Turn(r), n);
    }
  }
}
