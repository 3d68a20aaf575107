/**
 The channel between the packet loop and the NCK loop fills up. While the NCK loop is parked and frames are in the send
 pool every turn of the check loop brings one more NCK; when the channel is full the next one stops the packet loop, and
 with it every other connection of the same listener.
 */
module RdtQueue {
  import opened Bytes
  import opened RdtProtocol
  import opened RdtSafety
  import opened RdtGuarantees
  import opened RdtAtomic
  import opened RdtProgress
  import opened RdtStuck

  /** The NCK loop is parked, a frame is unacknowledged, and nothing is half done. */
  ghost predicate Stopped(s: System) {
    Inv(s) && Quiet(s.rcv) && s.snd.parked && s.snd.pool != map[] && s.snd.hand == []
  }

  /** Nothing but the NCKs that wait differs, apart from the network. */
  predicate OnlyInbox(s: System, t: System) {
    && t.mtu == s.mtu && t.rcv == s.rcv && t.frames == s.frames
    && t.snd == s.snd.(ackNO := t.snd.ackNO, ncks := t.snd.ncks, hand := t.snd.hand)
  }

  /** The check loop asks, as it does while the pool is not empty, and the answer is put on the network. */
  lemma TickAnswered(s: Rested) returns (t: State, m: Msg)
    ensures m.Nck? && m in t.net && LeadsAlone(s, t) && t == s.(net := t.net)
  {
    IdleHoldsNoNext(s);
    AskedInReach(s);
    NckAt(s, Asked(s));
    m := Nck(Asked(s), Missing(s.rcv.pool, s.rcv.recvNO + 1, Asked(s)));
    var acts := AnswerIsRun(s);
    t := LeadsBy(s, acts);
  }

  /** recv of that answer: one more NCK waits, or the packet loop is stopped. */
  lemma TickReceived(s: State) returns (t: State)
    requires Stopped(s)
    ensures LeadsAlone(s, t) && OnlyInbox(s, t)
    ensures
      if |s.snd.ncks| < NCK_QUEUE then
        t.snd.hand == [] && |t.snd.ncks| == |s.snd.ncks| + 1
      else
        t.snd.hand != [] && t.snd.ncks == s.snd.ncks
  {
    var a, m := TickAnswered(s);
    t := NckReceived(a, m);
    AloneFurther(s, a, t);
    OneMoreWaits(s.snd, m);
  }

  lemma OneMoreWaits(snd: Sender, m: Msg)
    requires m.Nck? && snd.hand == []
    ensures
      var t := Received(snd, m);
      && t == snd.(ackNO := t.ackNO, ncks := t.ncks, hand := t.hand)
      && t.ncks + t.hand == snd.ncks + [m]
      && (if |snd.ncks| < NCK_QUEUE then t.hand == [] else t.hand == [m] && t.ncks == snd.ncks)
  {
    assert [m] + [] == [m];
  }

  lemma NckReceived(s: State, m: Msg) returns (t: State)
    requires m.Nck? && m in s.net && s.snd.hand == []
    ensures LeadsAlone(s, t) && t == s.(snd := Received(s.snd, m))
  {
    ReceiveIsRun(s, m);
    t := LeadsBy(s, [AckNck(m), QueueNck]);
  }

  /** For every n up to the capacity there is a run, in which no Write takes part, that leaves n NCKs in the channel. */
  lemma {:induction false} QueueFills(s: State, n: nat) returns (t: State)
    requires Stopped(s) && |s.snd.ncks| <= n <= NCK_QUEUE
    ensures LeadsAlone(s, t) && Stopped(t) && OnlyInbox(s, t) && |t.snd.ncks| == n
    decreases n - |s.snd.ncks|
  {
    if |s.snd.ncks| == n {
      t := LeadsBy(s, []);
    } else {
      var u := TickReceived(s);
      t := QueueFills(u, n);
      AloneFurther(s, u, t);
    }
  }

  // ---------- the packet loop ----------

  /** The packet loop is not in its send, or that send can end. */
  predicate Unblocked(snd: Sender) {
    snd.hand == [] || !snd.parked || |snd.ncks| < NCK_QUEUE
  }

  ghost predicate CanFreeHand(s: System)
    requires ValidMtu(s.mtu)
  {
    exists acts :: Alone(acts) && Exec(s, acts).snd.hand == []
  }

  lemma BlockedStep(s: System, a: Action)
    requires ValidMtu(s.mtu) && !Unblocked(s.snd) && !ByWriter(a)
    ensures !Unblocked(Step(s, a).snd) && Step(s, a).snd.hand == s.snd.hand
  {
  }

  lemma {:induction false} BlockedStays(s: System, acts: seq<Action>)
    requires ValidMtu(s.mtu) && !Unblocked(s.snd) && Alone(acts)
    ensures !Unblocked(Exec(s, acts).snd) && Exec(s, acts).snd.hand == s.snd.hand
  {
    if acts != [] {
      BlockedStays(s, acts[..|acts| - 1]);
      BlockedStep(Exec(s, acts[..|acts| - 1]), acts[|acts| - 1]);
    }
  }

  /** There is room: the send ends. */
  lemma SendEnds(s: State) returns (t: State)
    requires s.snd.hand == [] || |s.snd.ncks| < NCK_QUEUE
    ensures LeadsAlone(s, t) && t == s.(snd := Queued(s.snd)) && t.snd.hand == []
  {
    QueueNckStep(s);
    t := LeadsOne(s, QueueNck);
  }

  /** The NCK loop makes room. */
  lemma MakesRoom(s: State) returns (t: State)
    requires !s.snd.parked && |s.snd.ncks| == NCK_QUEUE
    ensures LeadsAlone(s, t) && |t.snd.ncks| < NCK_QUEUE && t.snd.sentNO == s.snd.sentNO && t.snd.open == s.snd.open
  {
    HeadOk(s);
    HandleStep(s);
    t := LeadsOne(s, HandleNck);
  }

  lemma HandFreed(s: State) returns (t: State)
    requires Unblocked(s.snd)
    ensures LeadsAlone(s, t) && t.snd.hand == [] && t.snd.sentNO == s.snd.sentNO && t.snd.open == s.snd.open
  {
    if s.snd.hand == [] || |s.snd.ncks| < NCK_QUEUE {
      t := SendEnds(s);
    } else {
      var u := MakesRoom(s);
      t := SendEnds(u);
      AloneFurther(s, u, t);
    }
  }

  /** Without a Write taking part the packet loop, about to put an NCK into the channel, goes on if and only if the NCK
      loop is free or the channel is not full. */
  lemma HandFrees(s: State)
    requires s.snd.hand != []
    ensures CanFreeHand(s) <==> !s.snd.parked || |s.snd.ncks| < NCK_QUEUE
  {
    if Unblocked(s.snd) {
      var t := HandFreed(s);
    } else {
      forall acts | Alone(acts) ensures Exec(s, acts).snd.hand != [] {
        BlockedStays(s, acts);
      }
    }
  }

  /** One more turn of the check loop than the channel holds, and the packet loop does not go on by itself. */
  lemma PacketLoopStops(s: State) returns (t: State)
    requires Stopped(s)
    ensures LeadsAlone(s, t) && OnlyInbox(s, t) && t.snd.hand != [] && !CanFreeHand(t)
  {
    var u := QueueFills(s, NCK_QUEUE);
    t := TickReceived(u);
    AloneFurther(s, u, t);
    HandFrees(t);
  }

  /** It happens: after two writes and nothing but the loops of the two ends, with no frame lost but the last. */
  lemma ListenerStops(p: bytes, q: bytes) returns (t: State)
    requires 1 <= |p| <= 1421 && 1 <= |q| <= 1421
    ensures Leads(Init(1428), t) && t.frames == [p, q] && t.snd.pool == map[2 := q] && t.snd.hand != [] && !CanFreeHand(t)
  {
    var s := LastWritten(p, q);
    t := PacketLoopStops(s);
    LeadsFurther(Init(1428), s, t);
  }
}
