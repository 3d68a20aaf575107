/**
 A round in the midst of everything else: the query, its NCK and the frames sent again need not follow each other
 directly; any other steps of either side, late and repeated messages among them, may come in between.
 */
module RdtRounds {
  import opened RdtProtocol
  import opened RdtSafety
  import opened RdtAtomic
  import opened RdtProgress

  predicate NoWrite(acts: seq<Action>) {
    forall a :: a in acts ==> !a.WriteFrame?
  }

  /** What a run without new frames does to the sender. */
  ghost predicate OnlyLess(s: System, t: System) {
    && Grows(s, t) && t.snd.sentNO == s.snd.sentNO && t.frames == s.frames && t.mtu == s.mtu
    && t.snd.pool.Keys <= s.snd.pool.Keys
  }

  lemma OnlyLessStep(s: State, a: Action) returns (t: State)
    requires !a.WriteFrame?
    ensures t == Step(s, a) && OnlyLess(s, t)
  {
    t := StepKeeps(s, a);
    KeysOnlyShrink(s, a);
  }

  lemma KeysOnlyShrink(s: System, a: Action)
    requires ValidMtu(s.mtu) && !a.WriteFrame?
    ensures
      var t := Step(s, a);
      t.snd.pool.Keys <= s.snd.pool.Keys && t.snd.sentNO == s.snd.sentNO && t.frames == s.frames
  {
  }

  lemma {:induction false} OnlyLessRun(s: State, acts: seq<Action>) returns (t: State)
    requires NoWrite(acts)
    ensures t == Exec(s, acts) && OnlyLess(s, t)
  {
    if acts == [] {
      t := s;
    } else {
      var u := OnlyLessRun(s, acts[..|acts| - 1]);
      t := OnlyLessStep(u, acts[|acts| - 1]);
      GrowsFurther(s, u, t);
    }
  }

  lemma OnlyLessFurther(s: System, t: System, u: System)
    requires OnlyLess(s, t) && OnlyLess(t, u)
    ensures OnlyLess(s, u)
  {
    GrowsFurther(s, t, u);
  }

  /** The answer to a query, at the moment `v` at which the query goroutine sends it. */
  function AnswerAt(v: System): Msg
    requires v.rcv.scan.Scanning?
  {
    Nck(v.rcv.scan.upTo, v.rcv.scan.missing)
  }

  /** Everything asked about had been delivered when the scan began: the answer lists nothing. */
  lemma NothingMissing(s: System, v: State)
    requires v.rcv.scan.Scanning? && v.rcv.scan.base >= s.rcv.recvNO >= v.rcv.scan.upTo
    ensures v.rcv.scan.missing == []
  {
  }

  /** Every number the answer leaves out has arrived for good, and so has every other number in the end. */
  lemma AllOfItHeld(v: State, t: State)
    requires Grows(v, t) && v.rcv.scan.Scanning? && v.rcv.scan.next > v.rcv.scan.upTo
    requires t.rcv.loop.Idle? && forall k :: k in v.rcv.scan.missing ==> Holds(t.rcv, k)
    ensures t.rcv.recvNO >= v.rcv.scan.upTo
  {
    var q := v.rcv.scan.upTo;
    forall k | 1 <= k <= q ensures Holds(t.rcv, k) {
      if k !in v.rcv.scan.missing {
        assert Holds(v.rcv, k);
      }
    }
    assert !Holds(t.rcv, t.rcv.recvNO + 1);
  }

  lemma AckedBy(s: System, q: nat)
    requires ValidMtu(s.mtu) && Enabled(s, AckNck(Nck(q, [])))
    ensures Step(s, AckNck(Nck(q, []))).snd.ackNO >= q
  {
  }

  lemma TrimmedBy(s: State, q: nat)
    requires Enabled(s, HandleNck) && s.snd.ncks[0] == Nck(q, []) && q == s.snd.sentNO
    ensures Step(s, HandleNck).snd.pool == map[]
  {
    HandleStep(s);
    assert Step(s, HandleNck).snd.pool.Keys == {};
  }

  lemma LessBy(s: System, t: System)
    requires OnlyLess(s, t) && t.snd.ackNO <= t.snd.sentNO && t.rcv.recvNO <= t.snd.sentNO
    requires t.snd.ackNO > s.snd.ackNO || t.rcv.recvNO > s.rcv.recvNO || (t.snd.pool == map[] && s.snd.pool != map[])
    ensures Less(Measure(t), Measure(s))
  {
    SubsetSize(t.snd.pool.Keys, s.snd.pool.Keys);
    if t.snd.pool == map[] && s.snd.pool != map[] {
      assert s.snd.pool.Keys != {};
    }
  }

  /**
   From s, in which frames are unacknowledged, the run a1 leads to the moment at which the query goroutine has
   finished its scan for what the check loop asks in s, begun no earlier than s; after a2 its answer reaches the
   sender, after a3 it is the first in the channel and the NCK loop handles it, and after a4 everything the answer listed has arrived and the packet
   loop is idle. Whatever else happens in between, as long as nothing is written there is then strictly less to do.
   */
  lemma InterleavedRound(s: State, a1: seq<Action>, a2: seq<Action>, a3: seq<Action>, a4: seq<Action>)
    requires s.snd.pool != map[] && NoWrite(a1) && NoWrite(a2) && NoWrite(a3) && NoWrite(a4)
    requires
      var v := Exec(s, a1);
      && Enabled(v, ScanEnd) && v.rcv.scan.upTo == Asked(s) && v.rcv.scan.base >= s.rcv.recvNO
      && var m := AnswerAt(v);
      var x := Exec(Step(v, ScanEnd), a2);
      && Enabled(x, AckNck(m))
      && var y := Exec(Step(x, AckNck(m)), a3);
      && Enabled(y, HandleNck) && y.snd.ncks[0] == m
      && var t := Exec(Step(y, HandleNck), a4);
      t.rcv.loop.Idle? && forall k :: k in m.missing ==> Holds(t.rcv, k)
    ensures
      var v := Exec(s, a1);
      var x := Exec(Step(v, ScanEnd), a2);
      var y := Exec(Step(x, AckNck(AnswerAt(v))), a3);
      var t := Exec(Step(y, HandleNck), a4);
      && t.snd.ackNO <= t.snd.sentNO && t.rcv.recvNO <= t.snd.sentNO
      && Less(Measure(t), Measure(s))
  {
    var v := OnlyLessRun(s, a1);
    var m := AnswerAt(v);
    var v', x := Sent(v, a2);
    var t := Acted(x, m.no, m.missing, a3, a4);
    OnlyLessFurther(v, x, t);
    OnlyLessFurther(s, v, t);
    if s.rcv.recvNO < m.no {
      AllOfItHeld(v, t);
    } else {
      NothingMissing(s, v);
    }
    LessBy(s, t);
  }

  /** The answer has reached the sender and has been handled. */
  lemma Acted(x: State, no: nat, missing: seq<nat>, a3: seq<Action>, a4: seq<Action>) returns (t: State)
    requires Enabled(x, AckNck(Nck(no, missing))) && NoWrite(a3) && NoWrite(a4)
    requires
      var y := Exec(Step(x, AckNck(Nck(no, missing))), a3);
      Enabled(y, HandleNck) && y.snd.ncks[0] == Nck(no, missing)
    ensures t == Exec(Step(Exec(Step(x, AckNck(Nck(no, missing))), a3), HandleNck), a4)
    ensures OnlyLess(x, t) && (missing == [] ==> t.snd.ackNO >= no)
    ensures missing == [] && no == t.snd.sentNO ==> t.snd.pool == map[]
  {
    var m := Nck(no, missing);
    var x' := OnlyLessStep(x, AckNck(m));
    var y := OnlyLessRun(x', a3);
    var y' := OnlyLessStep(y, HandleNck);
    t := OnlyLessRun(y', a4);
    OnlyLessFurther(x', y, y');
    OnlyLessFurther(x', y', t);
    OnlyLessFurther(x, x', t);
    if missing == [] {
      AckedBy(x, no);
      if no == t.snd.sentNO {
        TrimmedBy(y, no);
        StaysEmpty(y', t);
      }
    }
  }

  lemma StaysEmpty(s: System, t: System)
    requires OnlyLess(s, t) && s.snd.pool == map[]
    ensures t.snd.pool == map[]
  {
    assert t.snd.pool.Keys == {};
  }

  /** The answer is on the network from the end of the scan on. */
  lemma Sent(v: State, a2: seq<Action>) returns (v': State, x: State)
    requires v.rcv.scan.Scanning? && Enabled(v, ScanEnd) && NoWrite(a2)
    ensures v' == Step(v, ScanEnd) && x == Exec(v', a2) && OnlyLess(v, x) && AnswerAt(v) in x.net
  {
    v' := OnlyLessStep(v, ScanEnd);
    ScanReplyOk(v);
    ReplyIsSent(v);
    x := OnlyLessRun(v', a2);
    OnlyLessFurther(v, v', x);
  }

  lemma ReplyIsSent(v: System)
    requires ValidMtu(v.mtu) && Enabled(v, ScanEnd)
    requires NckReply(Window(v.mtu), v.rcv.scan.upTo, v.rcv.scan.missing) == [AnswerAt(v)]
    ensures AnswerAt(v) in Step(v, ScanEnd).net
  {
  }
}
