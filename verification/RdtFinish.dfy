/**
 When a close can still succeed. Closing sends FINs until a FINACK comes; the receiver sends one when it has delivered
 everything and otherwise reports what is missing. No Write waits any more, so the NCK loop handles at most one more NCK.
 */
module RdtFinish {
  import opened Bytes
  import opened RdtProtocol
  import opened RdtSafety
  import opened RdtGuarantees
  import opened RdtAtomic
  import opened RdtProgress
  import opened RdtStuck
  import opened RdtQueue

  /** A state after the close has begun. */
  type Closing = s: System | Inv(s) && !s.snd.open ghost witness Step(Init(1428), StartClose)

  /** The FINACK that the close waits for is on the network, and the packet loop can receive it. */
  predicate Finished(s: System) {
    FinAck(s.snd.sentNO) in s.net && s.snd.hand == []
  }

  /** Some run ends so. */
  ghost predicate CanFinish(s: System)
    requires ValidMtu(s.mtu)
  {
    exists acts :: Finished(Exec(s, acts))
  }

  /** The numbers an NCK lists. */
  function Listed(m: Msg): seq<nat> {
    if m.Nck? then m.missing else []
  }

  /** Every frame that has not arrived and is not on its way is in this list. */
  predicate NamesAllLost(s: System, missing: seq<nat>) {
    forall k :: 1 <= k <= s.snd.sentNO && !Coming(s, k) ==> k in missing
  }

  // ---------- when it can ----------

  lemma FinishFurther(s: System, t: System)
    requires Leads(s, t) && ValidMtu(t.mtu) && CanFinish(t)
    ensures CanFinish(s)
  {
    var acts :| Finished(Exec(t, acts));
    var before :| Exec(s, before) == t;
    ExecAppend(s, before, acts);
  }

  /** The FIN is sent and reaches the receiver. */
  lemma FinStep(s: System)
    requires ValidMtu(s.mtu) && !s.snd.open && s.rcv.loop.Idle?
    ensures
      var t := Step(Step(s, SendFin), RecvFin(Fin(s.snd.sentNO)));
      if s.rcv.recvNO < s.snd.sentNO then
        t == s.(net := Send(s.net + {Fin(s.snd.sentNO)}, SendNck(Window(s.mtu), s.rcv, s.snd.sentNO)))
      else
        t.snd == s.snd && FinAck(s.snd.sentNO) in t.net
  {
  }

  lemma AllThereFinishes(s: System)
    requires ValidMtu(s.mtu) && !s.snd.open && s.rcv.loop.Idle? && s.rcv.recvNO >= s.snd.sentNO && s.snd.hand == []
    ensures CanFinish(s)
  {
    FinStep(s);
    ExecTwo(s, SendFin, RecvFin(Fin(s.snd.sentNO)));
  }

  lemma AllComingFinishes(s: Closing)
    requires AllComing(s) && Unblocked(s.snd)
    ensures CanFinish(s)
  {
    var u := HandFreed(s);
    ComingStays(s, u);
    AloneGrows(s, u);
    FreeHandFinishes(u);
    FinishFurther(s, u);
  }

  lemma FreeHandFinishes(s: Closing)
    requires AllComing(s) && s.snd.hand == []
    ensures CanFinish(s)
  {
    var t := Delivers(s);
    AllThereFinishes(t);
    FinishFurther(s, t);
  }

  /** The report on a FIN is never too long: what is missing is in the send pool. */
  lemma FinReport(s: Rested)
    requires s.rcv.recvNO < s.snd.sentNO
    ensures
      var missing := Missing(s.rcv.pool, s.rcv.recvNO + 1, s.snd.sentNO);
      && SendNck(Window(s.mtu), s.rcv, s.snd.sentNO) == [Nck(s.snd.sentNO, missing)]
      && forall k :: 1 <= k <= s.snd.sentNO && !Holds(s.rcv, k) ==> k in missing
  {
    var missing := Missing(s.rcv.pool, s.rcv.recvNO + 1, s.snd.sentNO);
    MissingSpec(s.rcv.pool, s.rcv.recvNO + 1, s.snd.sentNO);
    MissingFits(s.rcv.pool, s.rcv.recvNO + 1, s.snd.sentNO, s.snd.pool.Keys);
    FewMissing(Window(s.mtu), s.snd.sentNO, missing);
  }

  /** A list of gaps that lie in a set is no longer than the set. */
  lemma {:induction false} MissingFits(pool: map<nat, bytes>, i: nat, upTo: nat, all: set<nat>)
    requires forall k :: i <= k <= upTo && k !in pool ==> k in all
    ensures |Missing(pool, i, upTo)| <= |all|
    decreases upTo + 1 - i
  {
    if i <= upTo {
      MissingFits(pool, i + 1, upTo, all - {i});
    }
  }

  lemma Reports(s: Rested) returns (t: State, m: Msg)
    requires !s.snd.open && s.rcv.recvNO < s.snd.sentNO
    ensures LeadsAlone(s, t) && t.snd == s.snd && t.mtu == s.mtu
    ensures m in t.net && m.Nck? && NamesAllLost(t, m.missing)
  {
    m := Nck(s.snd.sentNO, Missing(s.rcv.pool, s.rcv.recvNO + 1, s.snd.sentNO));
    FinReport(s);
    FinStep(s);
    var acts := [SendFin, RecvFin(Fin(s.snd.sentNO))];
    ExecTwo(s, acts[0], acts[1]);
    t := LeadsBy(s, acts);
  }

  /** Handling an NCK that names all that is lost sends it again. */
  lemma NamedFinishes(s: Closing)
    requires Inbox(s.snd) != [] && !s.snd.parked && NamesAllLost(s, Listed(Inbox(s.snd)[0]))
    ensures CanFinish(s)
  {
    var t := HeadHandled(s);
    forall k | 1 <= k <= t.snd.sentNO ensures Coming(t, k) {
      HandledComes(s, t, k);
    }
    AllComingFinishes(t);
    FinishFurther(s, t);
  }

  lemma HandledComes(s: State, t: State, k: nat)
    requires Inbox(s.snd) != [] && HandledHead(s, t)
    requires 1 <= k <= s.snd.sentNO && NamesAllLost(s, Listed(Inbox(s.snd)[0]))
    ensures Coming(t, k)
  {
    var missing := Listed(Inbox(s.snd)[0]);
    if !Coming(s, k) {
      assert !Holds(s.rcv, k);
      ResentSpec(s.snd.pool, missing);
      assert Data(k, s.snd.pool[k]) in Resent(s.snd.pool, missing);
    } else if !Arrived(s.rcv, k) {
      var m :| m in s.net && m.Data? && m.no == k;
      assert m in t.net;
    }
  }

  /** Nothing waits: the receiver is asked by a FIN. */
  lemma AskedFinishes(s: Closing)
    requires Inbox(s.snd) == [] && !s.snd.parked
    ensures CanFinish(s)
  {
    assert s.snd.hand == [];
    var a := Settles(s);
    if a.rcv.recvNO >= a.snd.sentNO {
      AllThereFinishes(a);
    } else {
      var b, m := Reports(a);
      ReportFinishes(b, m);
      FinishFurther(a, b);
    }
    FinishFurther(s, a);
  }

  lemma ReportFinishes(s: Closing, m: Msg)
    requires Inbox(s.snd) == [] && !s.snd.parked && m in s.net && m.Nck? && NamesAllLost(s, m.missing)
    ensures CanFinish(s)
  {
    var t := ComesFirst(s, m);
    StillNamed(s, t, m.missing);
    NamedFinishes(t);
    FinishFurther(s, t);
  }

  lemma StillNamed(s: System, t: System, missing: seq<nat>)
    requires NamesAllLost(s, missing) && t == s.(snd := t.snd) && t.snd.sentNO == s.snd.sentNO
    ensures NamesAllLost(t, missing)
  {
    assert forall k :: Coming(t, k) <==> Coming(s, k);
  }

  // ---------- when it cannot ----------

  /** Frame k is lost and will not be sent again. */
  predicate Gone(s: System, k: nat) {
    && 1 <= k <= s.snd.sentNO && !Coming(s, k)
    && (s.snd.parked || (Inbox(s.snd) != [] && k !in Listed(Inbox(s.snd)[0])))
  }

  lemma GoneStep(s: Closing, a: Action, k: nat)
    requires Gone(s, k)
    ensures Gone(Step(s, a), k)
  {
    if ByWriter(a) {
      assert !Enabled(s, a);
    } else if a.HandleNck? && Enabled(s, a) {
      HeadOk(s);
      HandleStep(s);
      HeadFirst(s.snd);
      GoneHandled(s, k);
    } else {
      NotComingStep(s, a, k);
      GoneWaits(s, a);
    }
  }

  lemma GoneHandled(s: System, k: nat)
    requires ValidMtu(s.mtu) && Enabled(s, HandleNck) && 1 <= k <= s.snd.sentNO && !Coming(s, k)
    requires k !in s.snd.ncks[0].missing
    ensures Gone(Step(s, HandleNck), k)
  {
    HandleStep(s);
    ResentSpec(s.snd.pool, s.snd.ncks[0].missing);
  }

  lemma GoneWaits(s: System, a: Action)
    requires ValidMtu(s.mtu) && !ByWriter(a) && !(a.HandleNck? && Enabled(s, a))
    ensures
      var t := Step(s, a);
      && t.snd.sentNO == s.snd.sentNO && t.snd.parked == s.snd.parked
      && (Inbox(s.snd) != [] ==> Inbox(t.snd) != [] && Inbox(t.snd)[0] == Inbox(s.snd)[0])
  {
  }

  lemma {:induction false} GoneStays(s: Closing, acts: seq<Action>, k: nat) returns (t: Closing)
    requires Gone(s, k)
    ensures t == Exec(s, acts) && Gone(t, k) && t.snd.sentNO == s.snd.sentNO
  {
    if acts == [] {
      t := s;
    } else {
      var u := GoneStays(s, acts[..|acts| - 1], k);
      var a := acts[|acts| - 1];
      GoneStep(u, a, k);
      t := ClosingStep(u, a);
    }
  }

  lemma ClosingStep(s: Closing, a: Action) returns (t: Closing)
    ensures t == Step(s, a) && t.snd.sentNO == s.snd.sentNO
  {
    var u := StepKeeps(s, a);
    t := u;
  }

  /** The packet loop is stopped for good: no Write comes any more. */
  lemma {:induction false} BlockedForever(s: Closing, acts: seq<Action>) returns (t: Closing)
    requires !Unblocked(s.snd)
    ensures t == Exec(s, acts) && !Unblocked(t.snd)
  {
    if acts == [] {
      t := s;
    } else {
      var u := BlockedForever(s, acts[..|acts| - 1]);
      var a := acts[|acts| - 1];
      if ByWriter(a) {
        assert !Enabled(u, a);
      } else {
        BlockedStep(u, a);
      }
      t := ClosingStep(u, a);
    }
  }

  lemma GoneNotFinished(s: State, k: nat)
    requires Gone(s, k)
    ensures !Finished(s)
  {
    if FinAck(s.snd.sentNO) in s.net {
      assert MsgOk(s, FinAck(s.snd.sentNO));
      assert Holds(s.rcv, k);
    }
  }

  // ---------- the exact condition ----------

  /** The NCK loop is free, and nothing that is lost is missing from the NCK it handles next: one that waits in the
      channel, or else the report on a FIN. */
  predicate NextNamesAll(s: System) {
    !s.snd.parked && (Inbox(s.snd) == [] || NamesAllLost(s, Listed(Inbox(s.snd)[0])))
  }

  /**
   Once the close has begun, it can still receive a FINACK if and only if the packet loop is not stopped and every frame
   has arrived or is on its way, or the NCK loop is free and the NCK it handles next names all that is lost.
   */
  lemma CloseCanSucceed(s: Closing)
    ensures CanFinish(s) <==> (AllComing(s) && Unblocked(s.snd)) || NextNamesAll(s)
  {
    if AllComing(s) && Unblocked(s.snd) {
      AllComingFinishes(s);
    } else if NextNamesAll(s) {
      if Inbox(s.snd) == [] { AskedFinishes(s); } else { NamedFinishes(s); }
    } else {
      forall acts ensures !Finished(Exec(s, acts)) {
        NeverFinishes(s, acts);
      }
    }
  }

  lemma NeverFinishes(s: Closing, acts: seq<Action>)
    requires !(AllComing(s) && Unblocked(s.snd)) && !NextNamesAll(s)
    ensures !Finished(Exec(s, acts))
  {
    if Unblocked(s.snd) {
      var k := SomeGone(s);
      var t := GoneStays(s, acts, k);
      GoneNotFinished(t, k);
    } else {
      var t := BlockedForever(s, acts);
    }
  }

  lemma SomeGone(s: System) returns (k: nat)
    requires !AllComing(s) && !NextNamesAll(s)
    ensures Gone(s, k)
  {
    if s.snd.parked {
      k :| 1 <= k <= s.snd.sentNO && !Coming(s, k);
    } else {
      k :| 1 <= k <= s.snd.sentNO && !Coming(s, k) && k !in Listed(Inbox(s.snd)[0]);
    }
  }

  /** It happens: two frames are written, the second is lost, the connection is closed, and no FINACK can come. */
  lemma CloseFails(p: bytes, q: bytes) returns (s: State)
    requires 1 <= |p| <= 1421 && 1 <= |q| <= 1421
    ensures Leads(Init(1428), s) && s.frames == [p, q] && !s.snd.open && !CanFinish(s.(net := {}))
  {
    var a := LastWritten(p, q);
    s := Closes(a);
    LeadsFurther(Init(1428), a, s);
    LostFrameFails(s);
  }

  lemma LostFrameFails(s: Closing)
    requires s.snd.parked && !Arrived(s.rcv, s.snd.sentNO) && s.snd.sentNO >= 1
    ensures !CanFinish(s.(net := {}))
  {
    var lost := LossKeeps(s, {});
    assert !Coming(lost, s.snd.sentNO);
    CloseCanSucceed(lost);
  }

  lemma Closes(s: State) returns (t: State)
    requires s.snd.open && s.snd.waiting == 0
    ensures Leads(s, t) && t == s.(snd := s.snd.(open := false))
  {
    t := StepKeeps(s, StartClose);
    StepLeads(s, StartClose);
  }
}
