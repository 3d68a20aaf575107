/** What the RDT invariant means for the program: theorems about every run from the initial state. */
module RdtGuarantees {
  import opened Bytes
  import opened RdtProtocol
  import opened RdtSafety

  // ---------- bytes in, bytes out ----------

  /** The bytes one action passes to the sender's Write. */
  function WriteOf(s: System, a: Action): bytes
    requires ValidMtu(s.mtu)
  {
    if a.WriteFrame? && Enabled(s, a) then a.payload else []
  }

  /** The bytes one action hands to the caller of Read. */
  function ReadOf(s: System, a: Action): bytes
    requires ValidMtu(s.mtu)
  {
    if a.Read? && Enabled(s, a) then TakeRead(s.rcv, a.size).1 else []
  }

  function Written(s: System, acts: seq<Action>): bytes
    requires ValidMtu(s.mtu)
  {
    if acts == [] then []
    else
      var front := acts[..|acts| - 1];
      Written(s, front) + WriteOf(Exec(s, front), acts[|acts| - 1])
  }

  function Returned(s: System, acts: seq<Action>): bytes
    requires ValidMtu(s.mtu)
  {
    if acts == [] then []
    else
      var front := acts[..|acts| - 1];
      Returned(s, front) + ReadOf(Exec(s, front), acts[|acts| - 1])
  }

  lemma InitIsState(mtu: nat) returns (s: State)
    requires ValidMtu(mtu)
    ensures s == Init(mtu)
  {
    var t := Init(mtu);
    assert SenderOk(t) && FlowOk(t) && PoolCovers(t);
    assert ReceiverOk(t) && Conserved(t) && NetOk(t) && ScanOk(t);
    s := t;
  }

  /** Every run from the initial state stays within the invariant. */
  lemma Reachable(mtu: nat, acts: seq<Action>) returns (s: State)
    requires ValidMtu(mtu)
    ensures s == Exec(Init(mtu), acts)
  {
    var t := InitIsState(mtu);
    s := ExecKeeps(t, acts);
  }

  /** The history fields of the system are the bytes written and read in the run. */
  lemma {:induction false} HistoryIsRun(mtu: nat, acts: seq<Action>)
    requires ValidMtu(mtu)
    ensures
      var s := Exec(Init(mtu), acts);
      Concat(s.frames) == Written(Init(mtu), acts) && s.early + s.late == Returned(Init(mtu), acts)
  {
    if acts != [] {
      var front := acts[..|acts| - 1];
      HistoryIsRun(mtu, front);
      var s := Reachable(mtu, front);
      HistoryStep(s, acts[|acts| - 1]);
    }
  }

  lemma HistoryStep(s: System, a: Action)
    requires ValidMtu(s.mtu) && Conserved(s)
    ensures
      var t := Step(s, a);
      && Concat(t.frames) == Concat(s.frames) + WriteOf(s, a)
      && t.early + t.late == s.early + s.late + ReadOf(s, a)
  {
    if a.WriteFrame? {
      ConcatSnoc(s.frames, a.payload);
      HistoryWrite(s, a);
    } else if a.Read? && Enabled(s, a) {
      HistoryRead(s, a.size);
    } else {
      HistoryOther(s, a);
    }
  }

  lemma HistoryWrite(s: System, a: Action)
    requires ValidMtu(s.mtu) && a.WriteFrame?
    ensures
      var t := Step(s, a);
      && t.early == s.early && t.late == s.late
      && t.frames == if Enabled(s, a) then s.frames + [a.payload] else s.frames
  {
  }

  lemma HistoryOther(s: System, a: Action)
    requires ValidMtu(s.mtu) && Conserved(s) && !a.WriteFrame? && !(a.Read? && Enabled(s, a))
    ensures
      var t := Step(s, a);
      t.frames == s.frames && t.early == s.early && t.late == s.late
  {
  }

  lemma HistoryRead(s: System, size: nat)
    requires Conserved(s) && (s.rcv.buf != [] || s.rcv.inbound != [])
    ensures
      var t := ApplyRead(s, size);
      t.frames == s.frames && t.early + t.late == s.early + s.late + TakeRead(s.rcv, size).1
  {
    var data := TakeRead(s.rcv, size).1;
    if !s.rcv.closed {
      assert s.early + data + [] == s.early + [] + data;
    } else {
      assert s.early + (s.late + data) == s.early + s.late + data;
    }
  }

  // ---------- facts about one state ----------

  lemma PrefixAt(s: System)
    requires Conserved(s)
    ensures s.pushed <= s.frames && |s.pushed| == Delivered(s.rcv)
    ensures s.early + s.lost + s.late + s.rcv.buf + Concat(s.rcv.inbound) <= Concat(s.frames)
    ensures !s.rcv.closed ==> s.early + s.late <= Concat(s.frames)
  {
    var n := Delivered(s.rcv);
    ConcatPrefix(s.frames, n);
    if !s.rcv.closed {
      var rest := s.rcv.buf + Concat(s.rcv.inbound);
      assert s.early + s.lost + s.late + s.rcv.buf + Concat(s.rcv.inbound) == (s.early + s.late) + rest;
    }
  }

  lemma IntervalSize(a: set<nat>, lo: nat, hi: nat)
    requires lo <= hi && forall k :: k in a ==> lo < k <= hi
    ensures |a| <= hi - lo
    decreases hi - lo
  {
    if lo < hi {
      IntervalSize(a - {hi}, lo, hi - 1);
    } else {
      assert a == {};
    }
  }

  /** The frames that wait in the receive pool for a gap to close. */
  function Waiting(r: Receiver): set<nat> {
    set k | k in r.pool && k > r.recvNO
  }

  lemma WaitingAt(s: System)
    requires ValidMtu(s.mtu) && SenderOk(s) && FlowOk(s) && ReceiverOk(s)
    ensures |Waiting(s.rcv)| <= 2 * Window(s.mtu) - 1
  {
    var r, w := s.rcv, Window(s.mtu);
    if r.recvNO + 1 in r.pool {
      IntervalSize(Waiting(r), r.recvNO, r.recvNO + 2 * w - 1);
    } else {
      IntervalSize(Waiting(r), r.recvNO + 1, r.recvNO + 2 * w);
    }
  }

  lemma TrimAt(s: System, m: Msg)
    requires ValidMtu(s.mtu) && SenderOk(s) && PoolCovers(s) && m.Nck? && NckOk(s, m.no, m.missing)
    ensures
      var pool := Trim(s.snd.pool, m.no, m.missing);
      && (forall k :: k in s.snd.pool && k !in pool ==> Holds(s.rcv, k))
      && (forall k :: k in m.missing && !Holds(s.rcv, k) ==>
            1 <= k <= |s.frames| && k in pool && pool[k] == s.frames[k - 1])
  {
  }

  lemma NckAt(s: System, no: nat)
    requires ValidMtu(s.mtu) && s.rcv.recvNO + 1 !in s.rcv.pool
    ensures
      var w, missing := Window(s.mtu), Missing(s.rcv.pool, s.rcv.recvNO + 1, no);
      && (missing == [] <==> no <= s.rcv.recvNO)
      && (no <= s.rcv.recvNO + w ==> SendNck(w, s.rcv, no) == [Nck(no, missing)])
  {
    var missing := Missing(s.rcv.pool, s.rcv.recvNO + 1, no);
    MissingSpec(s.rcv.pool, s.rcv.recvNO + 1, no);
    if no > s.rcv.recvNO {
      assert s.rcv.recvNO + 1 in missing;
    }
    if no <= s.rcv.recvNO + Window(s.mtu) {
      FewMissing(Window(s.mtu), no, missing);
    }
  }

  lemma FewMissing(w: nat, no: nat, missing: seq<nat>)
    requires |missing| <= w < 0x1_0000
    ensures NckReply(w, no, missing) == [Nck(no, missing)]
  {
    assert missing[..|missing|] == missing;
  }

  // ---------- delivery ----------

  /** Whatever the network did: the frames in `inbound` are frames 1..recvNO in order (one more while recvNO is being
      incremented), and what Read returned, what Close dropped and what is still inside are, in this order, a
      prefix of what was written. */
  lemma InOrderDelivery(mtu: nat, acts: seq<Action>)
    requires ValidMtu(mtu)
    ensures
      var s := Exec(Init(mtu), acts);
      && s.pushed <= s.frames && |s.pushed| == Delivered(s.rcv)
      && s.early + s.lost + s.late + s.rcv.buf + Concat(s.rcv.inbound) <= Written(Init(mtu), acts)
  {
    var s := Reachable(mtu, acts);
    HistoryIsRun(mtu, acts);
    PrefixAt(s);
  }

  /** Until the receiving side closes, the bytes returned by Read are a prefix of the bytes passed to Write. */
  lemma ReadsArePrefix(mtu: nat, acts: seq<Action>)
    requires ValidMtu(mtu) && !Exec(Init(mtu), acts).rcv.closed
    ensures Returned(Init(mtu), acts) <= Written(Init(mtu), acts)
  {
    var s := Reachable(mtu, acts);
    HistoryIsRun(mtu, acts);
    PrefixAt(s);
  }

  // ---------- flow control ----------

  /** The sender is never more than two windows ahead, so recvData never rejects a frame as too far, and fewer than
      two windows of frames ever wait for a gap to close. */
  lemma FlowControl(mtu: nat, acts: seq<Action>)
    requires ValidMtu(mtu)
    ensures
      var s, w := Exec(Init(mtu), acts), Window(mtu);
      && |s.snd.pool| <= w
      && s.rcv.recvNO <= s.snd.sentNO <= s.rcv.recvNO + 2 * w
      && |Waiting(s.rcv)| <= 2 * w - 1
  {
    var s := Reachable(mtu, acts);
    WaitingAt(s);
  }

  /** No DATA frame of the peer takes the branch for frames beyond two windows, however late it arrives. */
  lemma NeverTooFar(mtu: nat, past: seq<Action>, since: seq<Action>, m: Msg)
    requires ValidMtu(mtu)
    requires m.Data? && m in Exec(Init(mtu), past).net
    ensures m.no <= Exec(Init(mtu), past + since).rcv.recvNO + 2 * Window(mtu)
  {
    var s := StaysOnNet(mtu, past, since, m);
  }

  /** A message once sent satisfies the message invariant at every later moment. */
  lemma StaysOnNet(mtu: nat, past: seq<Action>, since: seq<Action>, m: Msg) returns (s: State)
    requires ValidMtu(mtu) && m in Exec(Init(mtu), past).net
    ensures s == Exec(Init(mtu), past + since) && MsgOk(s, m)
  {
    var t := Reachable(mtu, past);
    s := ExecKeeps(t, since);
    ExecAppend(Init(mtu), past, since);
  }

  // ---------- selective acknowledgement ----------

  /** Any NCK ever generated may be handled at any later time: it removes only frames the receiver holds, and every
      frame it names as missing that is still missing stays in the pool, unchanged, for resend to find. */
  lemma OldNckIsSafe(mtu: nat, past: seq<Action>, since: seq<Action>, m: Msg)
    requires ValidMtu(mtu)
    requires m.Nck? && m in Exec(Init(mtu), past).net
    ensures
      var s := Exec(Init(mtu), past + since);
      var pool := Trim(s.snd.pool, m.no, m.missing);
      && (forall k :: k in s.snd.pool && k !in pool ==> Holds(s.rcv, k))
      && (forall k :: k in m.missing && !Holds(s.rcv, k) ==>
            1 <= k <= |s.frames| && k in pool && pool[k] == s.frames[k - 1])
  {
    var s := StaysOnNet(mtu, past, since, m);
    TrimAt(s, m);
  }

  /** At every moment, each frame sent and not yet received is in the send pool with its original bytes. */
  lemma UnreceivedIsPooled(mtu: nat, acts: seq<Action>, k: nat)
    requires ValidMtu(mtu)
    requires 1 <= k <= |Exec(Init(mtu), acts).frames| && !Holds(Exec(Init(mtu), acts).rcv, k)
    ensures
      var s := Exec(Init(mtu), acts);
      k in s.snd.pool && s.snd.pool[k] == s.frames[k - 1]
  {
    var s := Reachable(mtu, acts);
  }

  // ---------- acknowledgement arithmetic ----------

  /** Between packets everything acknowledged has been delivered. */
  lemma AckWhenIdle(mtu: nat, acts: seq<Action>)
    requires ValidMtu(mtu)
    requires Exec(Init(mtu), acts).rcv.loop.Idle?
    ensures
      var s := Exec(Init(mtu), acts);
      s.snd.ackNO <= s.rcv.recvNO <= s.snd.sentNO
  {
    var s := Reachable(mtu, acts);
    AckIdle(s);
  }

  lemma AckIdle(s: System)
    requires ValidMtu(s.mtu) && FlowOk(s) && PoolCovers(s) && s.rcv.recvNO + 1 !in s.rcv.pool
    ensures s.snd.ackNO <= s.rcv.recvNO <= s.snd.sentNO
  {
    assert !Holds(s.rcv, s.rcv.recvNO + 1);
  }

  /** sendNCK run between packets: no gap is listed exactly when everything up to `no` is delivered, and a number
      within the window is never dropped for overflow. */
  lemma NckWhenIdle(mtu: nat, acts: seq<Action>, no: nat)
    requires ValidMtu(mtu)
    requires Exec(Init(mtu), acts).rcv.loop.Idle?
    ensures
      var s, w := Exec(Init(mtu), acts), Window(mtu);
      var missing := Missing(s.rcv.pool, s.rcv.recvNO + 1, no);
      && (missing == [] <==> no <= s.rcv.recvNO)
      && (no <= s.rcv.recvNO + w ==> SendNck(w, s.rcv, no) == [Nck(no, missing)])
  {
    var s := Reachable(mtu, acts);
    NckAt(s, no);
  }

  /** The query goroutine may run between any two statements of the drain loop; its answer is always sent, and it
      leaves out only numbers that have really arrived. */
  lemma QueryAnswer(mtu: nat, acts: seq<Action>)
    requires ValidMtu(mtu)
    requires Enabled(Exec(Init(mtu), acts), ScanEnd)
    ensures
      var s := Exec(Init(mtu), acts);
      var c := s.rcv.scan;
      && Nck(c.upTo, c.missing) in Step(s, ScanEnd).net
      && Truthful(s.rcv, c.upTo, c.missing)
      && c.upTo <= s.rcv.recvNO + Window(mtu)
  {
    var s := Reachable(mtu, acts);
    ScanReplyOk(s);
  }

  // ---------- close ----------

  lemma FinAckAt(s: System, no: nat)
    requires ValidMtu(s.mtu) && SenderOk(s) && FlowOk(s) && Conserved(s) && MsgOk(s, FinAck(no))
    ensures !s.snd.open && no == s.rcv.recvNO == s.snd.sentNO && s.pushed == s.frames
    ensures s.early + s.lost + s.late + s.rcv.buf + Concat(s.rcv.inbound) == Concat(s.frames)
  {
    assert s.frames[..|s.frames|] == s.frames;
  }

  /** The peer sends FINACK, and so closes, only when it has every frame: a sendFIN that sees its own number come
      back knows that all it wrote is in the peer's `inbound` or beyond. */
  lemma GracefulClose(mtu: nat, acts: seq<Action>, no: nat)
    requires ValidMtu(mtu)
    requires FinAck(no) in Exec(Init(mtu), acts).net
    ensures
      var s := Exec(Init(mtu), acts);
      && !s.snd.open
      && no == s.rcv.recvNO == s.snd.sentNO
      && s.pushed == s.frames
      && s.early + s.lost + s.late + s.rcv.buf + Concat(s.rcv.inbound) == Written(Init(mtu), acts)
  {
    var s := Reachable(mtu, acts);
    HistoryIsRun(mtu, acts);
    FinAckAt(s, no);
  }
}
