/**
 When the send pool can empty and when it cannot. resend ends in a send on an unbuffered channel that only a Write
 waiting for the window receives: after one NCK, the first in the channel from the packet loop, the NCK loop is parked
 until such a Write comes. States are any that keep the invariant, so they include those in which everything on its way
 has just been lost; what is in the channel cannot be lost.
 */
module RdtStuck {
  import opened Bytes
  import opened RdtProtocol
  import opened RdtSafety
  import opened RdtGuarantees
  import opened RdtAtomic
  import opened RdtProgress
  import opened RdtWrite

  // ---------- a parked loop ----------

  lemma ParkedStep(s: System, a: Action)
    requires ValidMtu(s.mtu) && s.snd.parked && !ByWriter(a)
    ensures
      var t := Step(s, a);
      t.snd.parked && t.snd.pool == s.snd.pool && forall m :: m in t.net && m.Data? ==> m in s.net
  {
  }

  /** While no Write takes part a parked sender keeps every frame in its pool and sends none again. */
  lemma {:induction false} ParkedStays(s: System, acts: seq<Action>)
    requires ValidMtu(s.mtu) && s.snd.parked && Alone(acts)
    ensures
      var t := Exec(s, acts);
      t.snd.parked && t.snd.pool == s.snd.pool && forall m :: m in t.net && m.Data? ==> m in s.net
  {
    if acts != [] {
      ParkedStays(s, acts[..|acts| - 1]);
      ParkedStep(Exec(s, acts[..|acts| - 1]), acts[|acts| - 1]);
    }
  }

  // ---------- frames that will not come ----------

  /** Frame k is with the receiver, or in the hands of its packet loop. */
  predicate Arrived(r: Receiver, k: nat) {
    Holds(r, k) || (k == r.recvNO + 1 && (r.loop.Pushing? || r.loop.Bumping?))
  }

  /** Frame k has arrived, or a copy of it is on its way. */
  predicate Coming(s: System, k: nat) {
    Arrived(s.rcv, k) || exists m :: m in s.net && m.Data? && m.no == k
  }

  lemma ArrivedStep(s: System, a: Action, k: nat)
    requires ValidMtu(s.mtu) && Arrived(s.rcv, k)
    ensures Arrived(Step(s, a).rcv, k)
  {
  }

  lemma {:induction false} ArrivedStays(s: System, acts: seq<Action>, k: nat)
    requires ValidMtu(s.mtu) && Arrived(s.rcv, k)
    ensures Arrived(Exec(s, acts).rcv, k)
  {
    if acts != [] {
      ArrivedStays(s, acts[..|acts| - 1], k);
      ArrivedStep(Exec(s, acts[..|acts| - 1]), acts[|acts| - 1], k);
    }
  }

  /** Frame k is in the pool, and either the loop is parked or nothing will bring the frame to the receiver. */
  ghost predicate Owed(s: System, k: nat) {
    k in s.snd.pool && (s.snd.parked || !Coming(s, k))
  }

  lemma NotComingStep(s: System, a: Action, k: nat)
    requires ValidMtu(s.mtu) && ReceiverOk(s) && !Coming(s, k) && !ByWriter(a) && !(a.HandleNck? && Enabled(s, a))
    ensures !Coming(Step(s, a), k) && Step(s, a).snd.pool == s.snd.pool
  {
    var t := Step(s, a);
    assert forall m :: m in t.net && m.Data? ==> m in s.net;
    NotArrivedStep(s, a, k);
  }

  lemma NotArrivedStep(s: System, a: Action, k: nat)
    requires ValidMtu(s.mtu) && ReceiverOk(s) && !Arrived(s.rcv, k)
    requires a.RecvData? && Enabled(s, a) ==> a.data.no != k
    ensures !Arrived(Step(s, a).rcv, k)
  {
  }

  lemma OwedStep(s: State, a: Action, k: nat)
    requires Owed(s, k) && !ByWriter(a)
    ensures Owed(Step(s, a), k)
  {
    if s.snd.parked {
      ParkedStep(s, a);
    } else if a.HandleNck? && Enabled(s, a) {
      HeadOk(s);
      HandleStep(s);
      OwedSurvives(s, s.snd.ncks[0], k);
    } else {
      NotComingStep(s, a, k);
    }
  }

  /** No NCK says that a frame has arrived which has not. */
  lemma OwedSurvives(s: System, m: Msg, k: nat)
    requires ValidMtu(s.mtu) && m.Nck? && Truthful(s.rcv, m.no, m.missing) && k >= 1
    requires k in s.snd.pool && !Coming(s, k)
    ensures k in Trim(s.snd.pool, m.no, m.missing)
  {
    assert !Holds(s.rcv, k);
  }

  lemma {:induction false} OwedStays(s: State, acts: seq<Action>, k: nat)
    requires Owed(s, k) && Alone(acts)
    ensures Owed(Exec(s, acts), k)
  {
    if acts != [] {
      var front := acts[..|acts| - 1];
      OwedStays(s, front, k);
      var t := ExecKeeps(s, front);
      OwedStep(t, acts[|acts| - 1], k);
    }
  }

  // ---------- everything arrives ----------

  /** Copies of the frames up to n that the receiver does not hold. */
  function Copies(s: System, n: nat): (ms: seq<Msg>)
    requires n <= |s.frames|
    ensures forall m :: m in ms ==> m.Data? && 1 <= m.no <= n && m.payload == s.frames[m.no - 1] && !Holds(s.rcv, m.no)
    ensures forall k :: 1 <= k <= n && !Holds(s.rcv, k) ==> exists m :: m in ms && m.no == k
  {
    if n == 0 then []
    else if Holds(s.rcv, n) then Copies(s, n - 1)
    else
      var m := Data(n, s.frames[n - 1]);
      assert m in Copies(s, n - 1) + [m];
      Copies(s, n - 1) + [m]
  }

  lemma {:induction false} CopiesAreComing(s: Rested)
    requires forall k :: 1 <= k <= s.snd.sentNO ==> Coming(s, k)
    ensures forall m :: m in Copies(s, s.snd.sentNO) ==> m in s.net
  {
    forall m | m in Copies(s, s.snd.sentNO) ensures m in s.net {
      CopyIsComing(s, m.no);
    }
  }

  lemma CopyIsComing(s: System, k: nat)
    requires ValidMtu(s.mtu) && NetOk(s) && s.rcv.loop.Idle? && Coming(s, k) && !Holds(s.rcv, k)
    ensures 1 <= k <= |s.frames| && Data(k, s.frames[k - 1]) in s.net
  {
    var c :| c in s.net && c.Data? && c.no == k;
    assert MsgOk(s, c);
  }

  /** When a copy of every frame is on its way, all can be delivered. */
  lemma AllArrive(s: Rested) returns (t: Rested)
    requires forall k :: 1 <= k <= s.snd.sentNO ==> Coming(s, k)
    ensures LeadsAlone(s, t) && t.snd == s.snd && t.mtu == s.mtu && t.rcv.recvNO == t.snd.sentNO
  {
    var ms := Copies(s, s.snd.sentNO);
    CopiesAreComing(s);
    var acts := ArriveIsRun(s, ms);
    AloneBy(s, acts);
    var u := ExecKeeps(s, acts);
    t := u;
    forall k | 1 <= k <= s.snd.sentNO ensures Holds(t.rcv, k) {
      ArriveHolds(s, ms, k);
    }
    AllHeld(t);
  }

  lemma AllHeld(s: Rested)
    requires forall k :: 1 <= k <= s.snd.sentNO ==> Holds(s.rcv, k)
    ensures s.rcv.recvNO == s.snd.sentNO
  {
    IdleHoldsNoNext(s);
    assert !Holds(s.rcv, s.rcv.recvNO + 1);
  }

  // ---------- what the next NCK can do ----------

  /** Handling this NCK empties the pool. */
  predicate Clears(snd: Sender, m: Msg) {
    m.Nck? && forall k :: k in snd.pool ==> k <= m.no && k !in m.missing
  }

  predicate Covers(snd: Sender, no: nat) {
    forall k :: k in snd.pool ==> k <= no
  }

  predicate AllComing(s: System) {
    forall k :: 1 <= k <= s.snd.sentNO ==> Coming(s, k)
  }

  /**
   Some NCK that clears the pool can be the next to reach the sender: one on its way does it, or the next query of the
   check loop, which goes no further than a window beyond ackNO, reaches far enough, or so does a DATA frame on its way
   whose number makes the receiver report.
   */
  predicate CanReport(s: System)
    requires ValidMtu(s.mtu)
  {
    || Covers(s.snd, s.snd.ackNO + Window(s.mtu))
    || (exists m :: m in s.net && m.Data? && IsMultiple(m.no, Window(s.mtu)) && Covers(s.snd, m.no))
    || (exists m :: m in s.net && Clears(s.snd, m))
  }

  lemma ClearsAll(snd: Sender, m: Msg)
    requires m.Nck?
    ensures Clears(snd, m) <==> Trim(snd.pool, m.no, m.missing) == map[]
  {
    var t := Trim(snd.pool, m.no, m.missing);
    if t == map[] {
      forall k | k in snd.pool ensures k <= m.no && k !in m.missing {
        assert k !in t;
      }
    } else {
      assert t.Keys != {};
    }
  }

  /** The next NCK waits already. */
  lemma HeadClears(s: State)
    requires Inbox(s.snd) != [] && !s.snd.parked && Clears(s.snd, Inbox(s.snd)[0])
    ensures CanEmptyAlone(s)
  {
    ClearsAll(s.snd, Inbox(s.snd)[0]);
    var t := HeadHandled(s);
  }

  /** An NCK on its way comes first. */
  lemma NckClears(s: State, m: Msg)
    requires Inbox(s.snd) == [] && !s.snd.parked && m in s.net && Clears(s.snd, m)
    ensures CanEmptyAlone(s)
  {
    var t := ComesFirst(s, m);
    HeadClears(t);
    EmptyFurther(s, t);
  }

  lemma ComesFirst(s: State, m: Msg) returns (t: State)
    requires Inbox(s.snd) == [] && m in s.net && m.Nck?
    ensures LeadsAlone(s, t) && t == s.(snd := Received(s.snd, m)) && Inbox(t.snd) == [m]
  {
    ReceiveIsRun(s, m);
    AloneBy(s, [AckNck(m), QueueNck]);
    t := ExecKeeps(s, [AckNck(m), QueueNck]);
    assert [] + [m] == [m] && [m] + [] == [m];
  }

  lemma EmptyFurther(s: System, t: System)
    requires LeadsAlone(s, t) && ValidMtu(t.mtu) && CanEmptyAlone(t)
    ensures CanEmptyAlone(s)
  {
    var acts :| Alone(acts) && Exec(t, acts).snd.pool == map[];
    AloneBy(t, acts);
    AloneFurther(s, t, Exec(t, acts));
  }

  /** When everything is coming, all can be delivered first. */
  lemma Delivers(s: State) returns (t: Rested)
    requires AllComing(s)
    ensures LeadsAlone(s, t) && t.mtu == s.mtu && t.snd == s.snd && t.rcv.recvNO == s.snd.sentNO && s.net <= t.net
  {
    var a := Settles(s);
    ComingStays(s, a);
    t := AllArrive(a);
    AloneFurther(s, a, t);
    AloneGrows(s, t);
  }

  lemma AloneGrows(s: State, t: State)
    requires LeadsAlone(s, t)
    ensures s.net <= t.net && t.mtu == s.mtu
  {
    var acts :| Alone(acts) && Exec(s, acts) == t;
    var u := ExecKeeps(s, acts);
  }

  /** The check loop's query is answered with an empty list. */
  lemma QueryClears(s: Rested)
    requires s.rcv.recvNO == s.snd.sentNO && Inbox(s.snd) == [] && !s.snd.parked
    requires Covers(s.snd, s.snd.ackNO + Window(s.mtu))
    ensures CanEmptyAlone(s)
  {
    var t := Answered(s);
    PoolIsSent(s);
    NckClears(t, Nck(Asked(s), []));
    EmptyFurther(s, t);
  }

  lemma PoolIsSent(s: State)
    ensures Covers(s.snd, s.snd.sentNO)
  {
  }

  lemma Answered(s: Rested) returns (t: State)
    requires s.rcv.recvNO == s.snd.sentNO
    ensures LeadsAlone(s, t) && t.mtu == s.mtu && t.rcv == s.rcv && t.snd == s.snd && Nck(Asked(s), []) in t.net
  {
    IdleHoldsNoNext(s);
    NckAt(s, Asked(s));
    var acts := AnswerIsRun(s);
    AloneBy(s, acts);
    t := ExecKeeps(s, acts);
  }

  /** So is a DATA frame, however old, whose number is a multiple of the window. */
  lemma DataClears(s: Rested, d: Msg)
    requires s.rcv.recvNO == s.snd.sentNO && Inbox(s.snd) == [] && !s.snd.parked
    requires d in s.net && d.Data? && IsMultiple(d.no, Window(s.mtu)) && Covers(s.snd, d.no)
    ensures CanEmptyAlone(s)
  {
    var t := DataReported(s, d);
    NckClears(t, Nck(d.no, []));
    EmptyFurther(s, t);
  }

  lemma DataReported(s: Rested, d: Msg) returns (t: State)
    requires s.rcv.recvNO == s.snd.sentNO && d in s.net && d.Data? && IsMultiple(d.no, Window(s.mtu))
    ensures LeadsAlone(s, t) && t.mtu == s.mtu && t.snd == s.snd && Nck(d.no, []) in t.net
  {
    assert MsgOk(s, d);
    IdleHoldsNoNext(s);
    NckAt(s, d.no);
    t := LeadsOne(s, RecvData(d));
    ReportStep(s, d);
  }

  lemma ReportStep(s: System, d: Msg)
    requires ValidMtu(s.mtu) && Enabled(s, RecvData(d)) && d.no <= s.rcv.recvNO && IsMultiple(d.no, Window(s.mtu))
    requires SendNck(Window(s.mtu), s.rcv, d.no) == [Nck(d.no, [])]
    ensures Step(s, RecvData(d)).snd == s.snd && Nck(d.no, []) in Step(s, RecvData(d)).net
  {
    assert FirstReply(Window(s.mtu), s.rcv, d.no) == [Nck(d.no, [])];
    assert Nck(d.no, []) in DataReplies(Window(s.mtu), s.rcv, d.no);
  }

  lemma Empties(s: State)
    requires !s.snd.parked && Inbox(s.snd) == [] && AllComing(s) && CanReport(s)
    ensures CanEmptyAlone(s)
  {
    if m :| m in s.net && Clears(s.snd, m) {
      NckClears(s, m);
    } else {
      var t := Delivers(s);
      if m :| m in s.net && m.Data? && IsMultiple(m.no, Window(s.mtu)) && Covers(s.snd, m.no) {
        DataClears(t, m);
      } else {
        QueryClears(t);
      }
      EmptyFurther(s, t);
    }
  }

  // ---------- when it cannot ----------

  /** The one NCK that can still be handled does not clear the pool, whichever it is. */
  ghost predicate Doomed(s: System)
    requires ValidMtu(s.mtu)
  {
    s.snd.pool != map[] &&
    (s.snd.parked || if Inbox(s.snd) != [] then !Clears(s.snd, Inbox(s.snd)[0]) else !CanReport(s))
  }

  /** Steps that leave the sender alone may report, but not so as to clear the pool. */
  lemma NoNewReport(s: State, a: Action, m: Msg)
    requires Inbox(s.snd) == [] && !CanReport(s) && !ByWriter(a) && !a.AckNck?
    requires m in Step(s, a).net && m !in s.net
    ensures !m.Data? && !Clears(s.snd, m)
  {
    if a.ScanEnd? {
      ScanReplyOk(s);
    } else if a.RecvData? && Enabled(s, a) {
      assert MsgOk(s, a.data);
      NoDataReport(s, a.data, m);
    } else if a.RecvFin? && Enabled(s, a) {
      assert MsgOk(s, a.fin);
      NoFinReport(s, a.fin.no, m);
    }
  }

  lemma ReplyNumber(w: nat, no: nat, missing: seq<nat>, m: Msg)
    requires m in NckReply(w, no, missing)
    ensures m.Nck? && m.no == no
  {
  }

  lemma NoDataReport(s: State, d: Msg, m: Msg)
    requires !CanReport(s) && Enabled(s, RecvData(d)) && d.no <= s.rcv.recvNO + 2 * Window(s.mtu)
    requires m in Step(s, RecvData(d)).net && m !in s.net
    ensures !m.Data? && !Clears(s.snd, m)
  {
    DataReport(s, d, m);
    assert !Covers(s.snd, d.no);
  }

  /** What a DATA frame within reach makes the receiver report. */
  lemma DataReport(s: System, d: Msg, m: Msg)
    requires ValidMtu(s.mtu) && Enabled(s, RecvData(d)) && d.no <= s.rcv.recvNO + 2 * Window(s.mtu)
    requires m in Step(s, RecvData(d)).net && m !in s.net
    ensures m.Nck? && m.no <= d.no && IsMultiple(d.no, Window(s.mtu))
  {
    var w := Window(s.mtu);
    assert m in FirstReply(w, s.rcv, d.no);
    var no := Min(s.rcv.recvNO + w, d.no);
    ReplyNumber(w, no, Missing(s.rcv.pool, s.rcv.recvNO + 1, no), m);
  }

  /** The report on a FIN names the next frame, which is still in the pool. */
  lemma NoFinReport(s: State, no: nat, m: Msg)
    requires s.rcv.loop.Idle? && no == s.snd.sentNO
    requires m in (if s.rcv.recvNO < no then SendNck(Window(s.mtu), s.rcv, no) else [FinAck(no)])
    ensures !m.Data? && !Clears(s.snd, m)
  {
    if s.rcv.recvNO < no {
      var missing := Missing(s.rcv.pool, s.rcv.recvNO + 1, no);
      MissingSpec(s.rcv.pool, s.rcv.recvNO + 1, no);
      FinLength(s, missing);
      ReplyOf(Window(s.mtu), no, missing, m);
      assert s.rcv.recvNO + 1 in missing && !Holds(s.rcv, s.rcv.recvNO + 1);
    }
  }

  lemma FinLength(s: State, missing: seq<nat>)
    requires missing == Missing(s.rcv.pool, s.rcv.recvNO + 1, s.snd.sentNO)
    ensures |missing| < 0x1_0000
  {
  }

  /** Nothing on the sending side moves. */
  lemma SenderStays(s: System, a: Action)
    requires ValidMtu(s.mtu) && !ByWriter(a) && !a.AckNck? && Inbox(s.snd) == []
    ensures
      var t := Step(s, a);
      t.snd.pool == s.snd.pool && t.snd.ackNO == s.snd.ackNO && Inbox(t.snd) == [] && t.snd.parked == s.snd.parked
  {
  }

  /** An NCK that comes waits behind the others. */
  lemma HeadStays(s: System, a: Action)
    requires ValidMtu(s.mtu) && !ByWriter(a) && !a.HandleNck? && Inbox(s.snd) != []
    ensures
      var t := Step(s, a);
      t.snd.pool == s.snd.pool && Inbox(t.snd) != [] && Inbox(t.snd)[0] == Inbox(s.snd)[0] && t.snd.parked == s.snd.parked
  {
  }

  lemma DoomedStep(s: State, a: Action)
    requires Doomed(s) && !ByWriter(a)
    ensures Doomed(Step(s, a))
  {
    if s.snd.parked {
      ParkedStep(s, a);
    } else if Inbox(s.snd) != [] {
      if a.HandleNck? {
        if Enabled(s, a) { DoomedHandled(s); }
      } else {
        HeadStays(s, a);
      }
    } else if a.AckNck? {
      if Enabled(s, a) { DoomedReceived(s, a.nck); }
    } else {
      DoomedAside(s, a);
    }
  }

  lemma DoomedHandled(s: State)
    requires Enabled(s, HandleNck) && !Clears(s.snd, Inbox(s.snd)[0])
    ensures Step(s, HandleNck).snd.parked && Step(s, HandleNck).snd.pool != map[]
  {
    HeadOk(s);
    HeadFirst(s.snd);
    HandleStep(s);
    ClearsAll(s.snd, s.snd.ncks[0]);
  }

  lemma DoomedReceived(s: System, m: Msg)
    requires ValidMtu(s.mtu) && Enabled(s, AckNck(m)) && Inbox(s.snd) == [] && !CanReport(s)
    ensures
      var t := Step(s, AckNck(m));
      t.snd.pool == s.snd.pool && Inbox(t.snd) == [m] && !Clears(t.snd, m)
  {
    assert [] + [m] == [m];
  }

  lemma DoomedAside(s: State, a: Action)
    requires Doomed(s) && !s.snd.parked && Inbox(s.snd) == [] && !ByWriter(a) && !a.AckNck?
    ensures Doomed(Step(s, a))
  {
    var t := Step(s, a);
    SenderStays(s, a);
    forall m | m in t.net && m !in s.net ensures !m.Data? && !Clears(s.snd, m) {
      NoNewReport(s, a, m);
    }
    StillNoReport(s, t);
  }

  lemma StillNoReport(s: System, t: System)
    requires ValidMtu(s.mtu) && !CanReport(s) && t.mtu == s.mtu && t.snd.pool == s.snd.pool && t.snd.ackNO == s.snd.ackNO
    requires forall m :: m in t.net && m !in s.net ==> !m.Data? && !Clears(s.snd, m)
    ensures !CanReport(t)
  {
    assert forall m :: Clears(t.snd, m) <==> Clears(s.snd, m);
    assert forall no: nat :: Covers(t.snd, no) <==> Covers(s.snd, no);
  }

  lemma {:induction false} DoomedStays(s: State, acts: seq<Action>)
    requires Doomed(s) && Alone(acts)
    ensures Doomed(Exec(s, acts))
  {
    if acts != [] {
      var front := acts[..|acts| - 1];
      DoomedStays(s, front);
      var t := ExecKeeps(s, front);
      DoomedStep(t, acts[|acts| - 1]);
    }
  }

  // ---------- the exact condition ----------

  ghost predicate CanEmptyAlone(s: System)
    requires ValidMtu(s.mtu)
  {
    exists acts :: Alone(acts) && Exec(s, acts).snd.pool == map[]
  }

  lemma ComingStays(s: State, t: State)
    requires LeadsAlone(s, t)
    ensures forall k :: Coming(s, k) ==> Coming(t, k)
  {
    var acts :| Alone(acts) && Exec(s, acts) == t;
    var u := ExecKeeps(s, acts);
    forall k | Coming(s, k) ensures Coming(t, k) {
      if Arrived(s.rcv, k) {
        ArrivedStays(s, acts, k);
      } else {
        var m :| m in s.net && m.Data? && m.no == k;
        assert m in t.net;
      }
    }
  }

  /** The next NCK is there and clears the pool, or there is none yet and all that is needed can still come. */
  ghost predicate NextClears(s: System)
    requires ValidMtu(s.mtu)
  {
    if Inbox(s.snd) != [] then Clears(s.snd, Inbox(s.snd)[0]) else AllComing(s) && CanReport(s)
  }

  lemma NeverEmpties(s: State, acts: seq<Action>)
    requires s.snd.pool != map[] && Alone(acts) && (s.snd.parked || !NextClears(s))
    ensures Exec(s, acts).snd.pool != map[]
  {
    if !s.snd.parked && Inbox(s.snd) == [] && !AllComing(s) {
      var k :| 1 <= k <= s.snd.sentNO && !Coming(s, k);
      assert !Holds(s.rcv, k);
      OwedStays(s, acts, k);
    } else {
      DoomedStays(s, acts);
    }
  }

  /**
   Without a Write taking part the pool can be emptied if and only if it is empty already, or the NCK loop is free and
   the next NCK, the only one it will handle, clears it: the first that waits, or, when none waits, one that can still
   come, every frame that has not arrived being on its way.
   */
  lemma EmptiesAlone(s: State)
    ensures CanEmptyAlone(s) <==> s.snd.pool == map[] || (!s.snd.parked && NextClears(s))
  {
    if s.snd.pool == map[] {
      AloneBy(s, []);
      assert Alone([]) && Exec(s, []) == s;
    } else if !s.snd.parked && NextClears(s) {
      if Inbox(s.snd) != [] { HeadClears(s); } else { Empties(s); }
    } else {
      forall acts | Alone(acts) ensures Exec(s, acts).snd.pool != map[] {
        NeverEmpties(s, acts);
      }
    }
  }

  /** The same after any run and any loss: `left` is what is still on its way. */
  lemma EmptiesAfterLoss(mtu: nat, past: seq<Action>, left: set<Msg>)
    requires ValidMtu(mtu) && left <= Exec(Init(mtu), past).net
    ensures
      var s := Exec(Init(mtu), past).(net := left);
      CanEmptyAlone(s) <==> s.snd.pool == map[] || (!s.snd.parked && NextClears(s))
  {
    var r := Reachable(mtu, past);
    var s := LossKeeps(r, left);
    EmptiesAlone(s);
  }

  // ---------- the last frame of a connection ----------

  lemma FirstDone(p: bytes) returns (s: State)
    requires 1 <= |p| <= 1421
    ensures Leads(Init(1428), s) && s.mtu == 1428 && Quiet(s.rcv) && s.rcv.recvNO == 1 && s.rcv.pool == map[]
    ensures s.snd == Sender(true, 1, 1, map[], [], [], true, 0) && s.frames == [p]
  {
    var a := FirstWritten(p);
    var b := FirstDelivered(a, p);
    LeadsFurther(Init(1428), a, b);
    s := FirstHandled(b);
    LeadsFurther(Init(1428), b, s);
  }

  lemma FirstWritten(p: bytes) returns (s: Free)
    requires 1 <= |p| <= 1421
    ensures Leads(Init(1428), s)
    ensures s == Init(1428).(snd := Sender(true, 1, 0, map[1 := p], [], [], false, 0), net := {Data(1, p)}, frames := [p])
  {
    var i := InitIsState(1428);
    s := WrittenFirst(i, p);
    FirstStep(p);
  }

  lemma WrittenFirst(i: Free, p: bytes) returns (s: Free)
    ensures s == Step(i, WriteFrame(p)) && Leads(i, s)
  {
    var a := StepKeeps(i, WriteFrame(p));
    StepLeads(i, WriteFrame(p));
    s := a;
  }

  lemma FirstStep(p: bytes)
    requires 1 <= |p| <= 1421
    ensures
      var i := Init(1428);
      Step(i, WriteFrame(p)) ==
      i.(snd := Sender(true, 1, 0, map[1 := p], [], [], false, 0), net := {Data(1, p)}, frames := [p])
  {
  }

  lemma FirstDelivered(s: Free, p: bytes) returns (t: Free)
    requires s.mtu == 1428 && s.rcv == Init(1428).rcv && Data(1, p) in s.net
    ensures Leads(s, t) && t.snd == s.snd && t.frames == s.frames && t.mtu == 1428
    ensures t.rcv.recvNO == 1 && t.rcv.pool == map[]
  {
    var acts := DataIsRun(s, Data(1, p));
    var u := ExecKeeps(s, acts);
    assert Quiet(u.rcv);
    t := u;
  }

  lemma FirstHandled(b: Free) returns (s: State)
    requires b.mtu == 1428 && b.snd.open && b.snd.sentNO == 1 && b.snd.ackNO == 0 && b.snd.waiting == 0
    requires b.rcv.recvNO == 1 && b.rcv.pool == map[] && forall k :: k in b.snd.pool ==> k == 1
    ensures Leads(b, s) && s.mtu == 1428 && s.rcv == b.rcv && s.snd == Sender(true, 1, 1, map[], [], [], true, 0)
    ensures s.frames == b.frames
  {
    AskedInReach(b);
    var acts := HandledIsRun(b);
    HandledSender(b);
    var t := HandledKeeps(b);
    assert t.snd.pool.Keys == {};
    s := t;
  }

  /** The first frame is delivered and acknowledged, the second written. */
  lemma LastWritten(p: bytes, q: bytes) returns (s: State)
    requires 1 <= |p| <= 1421 && 1 <= |q| <= 1421
    ensures Leads(Init(1428), s) && s.mtu == 1428 && s.frames == [p, q]
    ensures s.snd == Sender(true, 2, 1, map[2 := q], [], [], true, 0)
    ensures Quiet(s.rcv) && s.rcv.recvNO == 1 && s.rcv.pool == map[]
  {
    var a := FirstDone(p);
    s := SecondWritten(a, q);
    LeadsFurther(Init(1428), a, s);
  }

  /**
   A run after which the last frame written can be lost for good: the first frame is written, delivered and
   acknowledged, which parks the NCK loop; the second is written and lost. As long as no Write waits for the window
   it stays in the pool and is never sent again.
   */
  lemma LastFrameLost(p: bytes, q: bytes) returns (s: State)
    requires 1 <= |p| <= 1421 && 1 <= |q| <= 1421
    ensures Leads(Init(1428), s) && s.frames == [p, q]
    ensures
      forall acts :: Alone(acts) ==>
        var t := Exec(s.(net := {}), acts);
        t.snd.pool == map[2 := q] && !Holds(t.rcv, 2)
  {
    s := LastWritten(p, q);
    SecondLost(s, q);
  }

  lemma SecondLost(s: State, q: bytes)
    requires s.snd == Sender(true, 2, 1, map[2 := q], [], [], true, 0)
    requires Quiet(s.rcv) && s.rcv.recvNO == 1 && s.rcv.pool == map[]
    ensures
      forall acts :: Alone(acts) ==>
        var t := Exec(s.(net := {}), acts);
        t.snd.pool == map[2 := q] && !Holds(t.rcv, 2)
  {
    var lost := LossKeeps(s, {});
    assert !Coming(lost, 2);
    forall acts | Alone(acts)
      ensures
        var t := Exec(s.(net := {}), acts);
        t.snd.pool == map[2 := q] && !Holds(t.rcv, 2)
    {
      NothingComes(lost, acts, 2);
    }
  }

  lemma SecondWritten(s: State, q: bytes) returns (t: State)
    requires 1 <= |q| <= 1421 && s.mtu == 1428 && s.snd == Sender(true, 1, 1, map[], [], [], true, 0)
    ensures Leads(s, t) && t.snd == Sender(true, 2, 1, map[2 := q], [], [], true, 0) && t.rcv == s.rcv && t.mtu == 1428
    ensures t.frames == s.frames + [q]
  {
    t := StepKeeps(s, WriteFrame(q));
    StepLeads(s, WriteFrame(q));
  }

  /** What a parked sender does not send again does not arrive. */
  lemma {:induction false} NothingComes(s: State, acts: seq<Action>, k: nat)
    requires s.snd.parked && !Coming(s, k) && Alone(acts)
    ensures Exec(s, acts).snd.pool == s.snd.pool && Exec(s, acts).snd.parked && !Coming(Exec(s, acts), k)
  {
    if acts != [] {
      var front := acts[..|acts| - 1];
      NothingComes(s, front, k);
      var t := ExecKeeps(s, front);
      NothingComesStep(t, acts[|acts| - 1], k);
    }
  }

  lemma NothingComesStep(s: State, a: Action, k: nat)
    requires s.snd.parked && !Coming(s, k) && !ByWriter(a)
    ensures Step(s, a).snd.pool == s.snd.pool && Step(s, a).snd.parked && !Coming(Step(s, a), k)
  {
    NotComingStep(s, a, k);
    ParkedStep(s, a);
  }

  // ---------- a Write that waits ----------

  /** A Write begins to wait. */
  lemma RestedWaits(s: Rested) returns (t: Rested)
    requires s.snd.open && |s.snd.pool| >= Window(s.mtu)
    ensures Leads(s, t) && t == s.(snd := s.snd.(waiting := s.snd.waiting + 1))
  {
    BeginWaitStep(s);
    var u := StepKeeps(s, BeginWait);
    StepLeads(s, BeginWait);
    t := u;
  }

  /** If the NCK loop is parked a waiting Write takes the event and, the pool being full, waits again. */
  lemma WaitsOn(s: Rested) returns (t: Rested)
    requires s.snd.open && |s.snd.pool| >= Window(s.mtu) && s.snd.waiting > 0
    ensures Leads(s, t) && t == s.(snd := s.snd.(parked := false))
  {
    if s.snd.parked {
      var v := RestedWoken(s);
      t := RestedWaits(v);
      LeadsFurther(s, v, t);
    } else {
      LeadsSelf(s);
      t := s;
    }
  }

  /** The NCKs in the channel are handled one by one, each followed by a wake-up, and then rounds go on. */
  lemma {:induction false} QueueThenRoom(s: Rested) returns (t: State)
    requires s.snd.open && s.snd.waiting > 0 && |s.snd.pool| >= Window(s.mtu)
    ensures Leads(s, t) && t.mtu == s.mtu && t.frames == s.frames && t.snd.open
    ensures |t.snd.pool| < Window(s.mtu) && t.snd.waiting == s.snd.waiting - 1
    decreases |Inbox(s.snd)|
  {
    var u := WaitsOn(s);
    if Inbox(s.snd) == [] {
      t := WaitEnds(u);
    } else {
      var v := HeadHandled(u);
      if |v.snd.pool| >= Window(s.mtu) {
        t := QueueThenRoom(v);
      } else {
        t := RestedWoken(v);
      }
      LeadsFurther(u, v, t);
    }
    LeadsFurther(s, u, t);
  }

  /** From any state, whatever has been lost and whatever waits in the channel, a Write finds room sooner or later: only
      messages sent from now on are needed, and nothing is written meanwhile. */
  lemma RoomComes(s: State) returns (t: State)
    requires s.snd.open
    ensures Leads(s, t) && t.mtu == s.mtu && t.frames == s.frames && t.snd.open && |t.snd.pool| < Window(s.mtu)
    ensures t.snd.waiting == s.snd.waiting
  {
    var a := Settles(s);
    AloneFurtherSelf(s, a);
    t := RestedRoom(a);
    LeadsFurther(s, a, t);
  }

  lemma RestedRoom(s: Rested) returns (t: State)
    requires s.snd.open
    ensures Leads(s, t) && t.mtu == s.mtu && t.frames == s.frames && t.snd.open && |t.snd.pool| < Window(s.mtu)
    ensures t.snd.waiting == s.snd.waiting
  {
    if |s.snd.pool| < Window(s.mtu) {
      LeadsSelf(s);
      t := s;
    } else {
      var b := RestedWaits(s);
      t := QueueThenRoom(b);
      LeadsFurther(s, b, t);
    }
  }

  lemma AloneFurtherSelf(s: System, t: System)
    requires LeadsAlone(s, t)
    ensures Leads(s, t) && t.mtu == s.mtu
  {
  }

  /**
   No Write is stuck: from any state, after any loss, frames of any number that the numbering allows can all be
   accepted, in order and behind what was written before.
   */
  lemma {:induction false} WriteFinishes(s: State, frames: seq<bytes>) returns (t: State)
    requires s.snd.open && s.snd.sentNO + |frames| + 2 * Window(s.mtu) < 0x1_0000_0000
    requires Legal(s.mtu, frames)
    ensures Leads(s, t) && t.mtu == s.mtu && t.frames == s.frames + frames && t.snd.open
    decreases |frames|
  {
    if frames == [] {
      LeadsSelf(s);
      t := s;
    } else {
      LegalRest(s.mtu, frames);
      var u := RoomComes(s);
      SentIsCounted(s, u);
      var v := OneWritten(u, frames[0]);
      LeadsFurther(s, u, v);
      t := WriteFinishes(v, frames[1..]);
      LeadsFurther(s, v, t);
      FirstThenRest(s.frames, frames);
    }
  }

  lemma FirstThenRest(before: seq<bytes>, frames: seq<bytes>)
    requires frames != []
    ensures (before + [frames[0]]) + frames[1..] == before + frames
  {
  }

  lemma SentIsCounted(s: State, t: State)
    requires s.frames == t.frames
    ensures s.snd.sentNO == t.snd.sentNO
  {
  }

  lemma OneWritten(s: State, p: bytes) returns (t: State)
    requires s.snd.open && |s.snd.pool| < Window(s.mtu) && 1 <= |p| <= s.mtu - 7
    requires s.snd.sentNO + 1 + 2 * Window(s.mtu) < 0x1_0000_0000
    ensures Leads(s, t) && t.mtu == s.mtu && t.frames == s.frames + [p] && t.snd.open && t.snd.sentNO == s.snd.sentNO + 1
  {
    t := StepKeeps(s, WriteFrame(p));
    StepLeads(s, WriteFrame(p));
  }
}
