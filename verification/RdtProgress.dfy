/**
 RDT delivers: a round that the network lets through makes progress, and a known number of rounds finishes. After
 each NCK it handles the NCK loop is parked until a Write that waits for the window wakes it, so a round begins with
 such a wake-up when it is needed. Module RdtStuck proves what happens when no Write waits.
 */
module RdtProgress {
  import opened Bytes
  import opened RdtProtocol
  import opened RdtSafety
  import opened RdtGuarantees
  import opened RdtAtomic
  import opened Iteration

  /** The receiving side is between packets and between queries. */
  type Rested = s: System | Inv(s) && Quiet(s.rcv) ghost witness Init(1428)

  /** So is the sending side: no NCK waits to be handled. */
  type Calm = s: System | Inv(s) && Quiet(s.rcv) && Inbox(s.snd) == [] ghost witness Init(1428)

  /** A calm state in which the NCK loop can handle an NCK. */
  type Free = s: System | Inv(s) && Quiet(s.rcv) && Inbox(s.snd) == [] && !s.snd.parked ghost witness Init(1428)

  /** These DATA frames reach the receiver one after the other. */
  function Arrive(s: System, ms: seq<Msg>): (t: System)
    requires ValidMtu(s.mtu)
    ensures t.mtu == s.mtu
    decreases |ms|
  {
    if ms == [] then s
    else if ms[0].Data? then Arrive(AtomicData(s, ms[0].no, ms[0].payload), ms[1..])
    else Arrive(s, ms[1..])
  }

  /** What the next query of the check loop asks about. */
  function Asked(s: System): nat
    requires ValidMtu(s.mtu)
  {
    Min(s.snd.sentNO, s.snd.ackNO + Window(s.mtu))
  }

  /** What resend sends again when that query is answered. */
  function Again(s: System): seq<Msg>
    requires ValidMtu(s.mtu)
  {
    Resent(s.snd.pool, Missing(s.rcv.pool, s.rcv.recvNO + 1, Asked(s)))
  }

  /** The first half of a round: the check loop asks, the query arrives, the NCK comes back and is handled. */
  function Handled(s: System): (t: System)
    requires ValidMtu(s.mtu)
    ensures t.mtu == s.mtu
  {
    var q, w := Asked(s), Window(s.mtu);
    var missing := Missing(s.rcv.pool, s.rcv.recvNO + 1, q);
    s.(net := Send(Send(s.net + {Query(q)}, SendNck(w, s.rcv, q)), Again(s)),
       snd := Trimmed(Acked(s.snd, q, missing), q, missing))
  }

  /** A waiting Write takes the event of a parked NCK loop. */
  function Woken(s: System): System {
    if s.snd.parked && s.snd.waiting > 0 then s.(snd := s.snd.(parked := false, waiting := s.snd.waiting - 1)) else s
  }

  /** How many NCKs the NCK loop can handle: one for each waiting Write, and one if the loop is free now. */
  function Wakes(s: System): nat {
    s.snd.waiting + if s.snd.parked then 0 else 1
  }

  /** One completed round: if the check loop finds the pool non-empty it asks, the NCK loop handles the answer, woken
      before if it must be, and every frame that resend sends again arrives. */
  function Round(s: System): System {
    if s.snd.pool == map[] || Wakes(s) == 0 || !ValidMtu(s.mtu) then s   // no NCK may be waiting
    else Arrive(Handled(Woken(s)), Again(Woken(s)))
  }

  // ---------- rounds are runs ----------

  lemma QuietData(s: System, no: nat, p: bytes)
    requires ValidMtu(s.mtu) && Quiet(s.rcv)
    ensures Quiet(AtomicData(s, no, p).rcv)
    ensures no <= s.rcv.recvNO + 2 * Window(s.mtu) ==> Holds(AtomicData(s, no, p).rcv, no)
  {
    DrainedSpec(s.rcv.(inbound := s.rcv.inbound + [p], recvNO := s.rcv.recvNO + 1));
  }

  lemma {:induction false} ArriveIsRun(s: System, ms: seq<Msg>) returns (acts: seq<Action>)
    requires ValidMtu(s.mtu) && Quiet(s.rcv)
    requires forall m :: m in ms ==> m.Data? && m in s.net
    ensures Alone(acts)
    ensures Exec(s, acts) == Arrive(s, ms)
    ensures Quiet(Arrive(s, ms).rcv) && Arrive(s, ms).snd == s.snd && Arrive(s, ms).frames == s.frames
    decreases |ms|
  {
    if ms == [] {
      acts := [];
    } else {
      assert ms[0] in ms;
      var first := DataIsRun(s, ms[0]);
      var t := AtomicData(s, ms[0].no, ms[0].payload);
      QuietData(s, ms[0].no, ms[0].payload);
      var rest := ArriveIsRun(t, ms[1..]);
      acts := first + rest;
      ExecAppend(s, first, rest);
    }
  }

  lemma AskedInReach(s: Rested)
    ensures s.snd.ackNO <= s.rcv.recvNO && Asked(s) <= s.rcv.recvNO + Window(s.mtu)
  {
    assert !Holds(s.rcv, s.rcv.recvNO + 1);
  }

  lemma WokenKeeps(s: Calm) returns (t: Free)
    requires Wakes(s) > 0
    ensures t == Woken(s) && Leads(s, t) && t.rcv == s.rcv && t.frames == s.frames && Asked(t) == Asked(s)
    ensures Wakes(t) == Wakes(s)
  {
    var u := RestedWoken(s);
    t := u;
  }

  lemma AgainIsSent(s: System)
    requires ValidMtu(s.mtu)
    ensures forall m :: m in Again(s) ==> m.Data? && m in Handled(s).net
  {
    ResentSpec(s.snd.pool, Missing(s.rcv.pool, s.rcv.recvNO + 1, Asked(s)));
  }

  /** The query reaches the receiver and its answer the network. */
  lemma AnswerIsRun(s: Rested) returns (acts: seq<Action>)
    ensures Alone(acts) && acts != [] && acts[0] == Ask(s.snd.sentNO, s.snd.ackNO)
    ensures
      Exec(s, acts) == s.(net := Send(s.net + {Query(Asked(s))}, SendNck(Window(s.mtu), s.rcv, Asked(s))))
  {
    var a1 := [Ask(s.snd.sentNO, s.snd.ackNO)];
    ExecOne(s, a1[0]);
    var a2 := QueryIsRun(Exec(s, a1), Asked(s));
    acts := a1 + a2;
    ExecAppend(s, a1, a2);
  }

  lemma HandledIsRun(s: Free) returns (acts: seq<Action>)
    ensures Alone(acts) && acts != [] && acts[0] == Ask(s.snd.sentNO, s.snd.ackNO)
    ensures Exec(s, acts) == Handled(s)
  {
    AskedInReach(s);
    IdleHoldsNoNext(s);
    NckAt(s, Asked(s));
    var a1 := AnswerIsRun(s);
    var a2 := HandledFrom(s, Exec(s, a1));
    acts := a1 + a2;
    ExecAppend(s, a1, a2);
  }

  lemma HandledFrom(s: System, u: System) returns (acts: seq<Action>)
    requires ValidMtu(s.mtu) && !s.snd.parked && Inbox(s.snd) == []
    requires
      var q, w := Asked(s), Window(s.mtu);
      && u == s.(net := Send(s.net + {Query(q)}, SendNck(w, s.rcv, q)))
      && SendNck(w, s.rcv, q) == [Nck(q, Missing(s.rcv.pool, s.rcv.recvNO + 1, q))]
    ensures Alone(acts)
    ensures Exec(u, acts) == Handled(s)
  {
    var nck := Nck(Asked(s), Missing(s.rcv.pool, s.rcv.recvNO + 1, Asked(s)));
    assert nck in u.net;
    NckIsRun(u, nck);
    acts := [AckNck(nck), QueueNck, HandleNck];
    HandledIs(s, u, Asked(s), nck.missing);
  }

  lemma HandledIs(s: System, u: System, q: nat, missing: seq<nat>)
    requires ValidMtu(s.mtu) && q == Asked(s) && missing == Missing(s.rcv.pool, s.rcv.recvNO + 1, q)
    requires u == s.(net := Send(s.net + {Query(q)}, SendNck(Window(s.mtu), s.rcv, q)))
    ensures
      u.(snd := Trimmed(Acked(u.snd, q, missing), q, missing), net := Send(u.net, Resent(u.snd.pool, missing))) == Handled(s)
  {
  }

  /** A round from a state in which the NCK loop is free. */
  lemma FreeRoundIsRun(s: Free) returns (acts: seq<Action>)
    ensures Alone(acts) && acts != [] && acts[0] == Ask(s.snd.sentNO, s.snd.ackNO)
    ensures Exec(s, acts) == Arrive(Handled(s), Again(s))
    ensures
      var t := Arrive(Handled(s), Again(s));
      Quiet(t.rcv) && t.frames == s.frames && t.snd == Handled(s).snd
  {
    AgainIsSent(s);
    var a1 := HandledIsRun(s);
    var a2 := ArriveIsRun(Handled(s), Again(s));
    acts := a1 + a2;
    ExecAppend(s, a1, a2);
  }

  // ---------- what a round achieves ----------

  lemma ArrivalKeeps(s: Rested, m: Msg) returns (t: Rested)
    requires m.Data? && m in s.net
    ensures t == AtomicData(s, m.no, m.payload) && s.net <= t.net
    ensures Holds(t.rcv, m.no) && (forall k :: Holds(s.rcv, k) ==> Holds(t.rcv, k))
  {
    assert MsgOk(s, m);
    var acts := DataIsRun(s, m);
    var u := ExecKeeps(s, acts);
    QuietData(s, m.no, m.payload);
    t := u;
  }

  /** Each frame that arrives is held from then on. */
  lemma {:induction false} ArriveHolds(s: Rested, ms: seq<Msg>, k: nat)
    requires forall m :: m in ms ==> m.Data? && m in s.net
    requires Holds(s.rcv, k) || exists m :: m in ms && m.no == k
    ensures Holds(Arrive(s, ms).rcv, k)
    decreases |ms|
  {
    if ms != [] {
      var first, rest := ms[0], ms[1..];
      assert first in ms && ms == [first] + rest;
      var t := ArrivalKeeps(s, first);
      ArriveHolds(t, rest, k);
    }
  }

  /** Whatever the query was about and the receiver lacks is sent again. */
  lemma AskedIsResent(s: State, k: nat)
    requires 1 <= k <= Asked(s) && !Holds(s.rcv, k)
    ensures Data(k, s.frames[k - 1]) in Again(s)
  {
    var missing := Missing(s.rcv.pool, s.rcv.recvNO + 1, Asked(s));
    MissingSpec(s.rcv.pool, s.rcv.recvNO + 1, Asked(s));
    ResentSpec(s.snd.pool, missing);
    assert Data(k, s.snd.pool[k]) in Resent(s.snd.pool, missing);
  }

  lemma HandledKeeps(s: Free) returns (t: Calm)
    ensures t == Handled(s) && t.rcv == s.rcv && t.frames == s.frames
    ensures forall m :: m in Again(s) ==> m.Data? && m in t.net
  {
    AgainIsSent(s);
    var acts := HandledIsRun(s);
    var u := ExecKeeps(s, acts);
    t := u;
  }

  lemma FreeRoundKeeps(s: Free) returns (t: Calm)
    ensures t == Arrive(Handled(s), Again(s)) && t.mtu == s.mtu && t.frames == s.frames && t.snd == Handled(s).snd
    ensures s.rcv.recvNO <= t.rcv.recvNO && Leads(s, t)
  {
    var acts := FreeRoundIsRun(s);
    var u := ExecKeeps(s, acts);
    t := u;
  }

  lemma RoundHolds(s: Free, k: nat)
    requires 1 <= k <= Asked(s)
    ensures Holds(Arrive(Handled(s), Again(s)).rcv, k)
  {
    var h := HandledKeeps(s);
    if !Holds(s.rcv, k) {
      AskedIsResent(s, k);
    }
    ArriveHolds(h, Again(s), k);
  }

  lemma AllHeldReached(r: Receiver, n: nat)
    requires r.recvNO + 1 !in r.pool && forall k :: 1 <= k <= n ==> Holds(r, k)
    ensures r.recvNO >= n
  {
    assert !Holds(r, r.recvNO + 1);
  }

  /** After a round everything it asked about is delivered. */
  lemma RoundDelivers(s: Free, r: Receiver)
    requires r == Arrive(Handled(s), Again(s)).rcv && r.recvNO + 1 !in r.pool
    ensures r.recvNO >= Asked(s)
  {
    forall k | 1 <= k <= Asked(s) ensures Holds(r, k) {
      RoundHolds(s, k);
    }
    AllHeldReached(r, Asked(s));
  }

  /** The effect of a round on the sender. */
  lemma HandledSender(s: Calm)
    ensures
      var q, snd := Asked(s), Handled(Woken(s)).snd;
      && snd.sentNO == s.snd.sentNO
      && snd.ackNO == (if s.snd.ackNO < q <= s.rcv.recvNO then q else s.snd.ackNO)
      && (forall k :: k in snd.pool ==> k in s.snd.pool && (q <= s.rcv.recvNO ==> k > q))
  {
    IdleHoldsNoNext(s);
    HandledCounts(s);
  }

  lemma HandledCounts(s: System)
    requires ValidMtu(s.mtu) && s.rcv.recvNO + 1 !in s.rcv.pool
    ensures
      var q, snd := Asked(s), Handled(Woken(s)).snd;
      && snd.sentNO == s.snd.sentNO
      && snd.ackNO == (if s.snd.ackNO < q <= s.rcv.recvNO then q else s.snd.ackNO)
      && (forall k :: k in snd.pool ==> k in s.snd.pool && (q <= s.rcv.recvNO ==> k > q))
  {
    NckAt(s, Asked(s));
  }

  lemma RoundSpec(s: Calm) returns (t: Calm)
    requires s.snd.pool != map[] && Wakes(s) > 0
    ensures t == Round(s) && Leads(s, t) && t.mtu == s.mtu && t.frames == s.frames && t.snd == Handled(Woken(s)).snd
    ensures Asked(s) <= t.rcv.recvNO && s.rcv.recvNO <= t.rcv.recvNO
    ensures t.snd.parked && Wakes(t) == Wakes(s) - 1
  {
    var u := WokenKeeps(s);
    t := FreeRoundSpec(u);
    LeadsFurther(s, u, t);
    HandledParks(u);
  }

  /** After the wake-up it may need, a round begins with exactly the query that the check loop sends. */
  lemma RoundBeginsWithTick(s: Calm) returns (acts: seq<Action>, q: nat)
    requires s.snd.pool != map[] && Wakes(s) > 0
    ensures acts != [] && Exec(Woken(s), acts) == Round(s)
    ensures Step(Woken(s), acts[0]) == Woken(s).(net := s.net + {Query(q)}) && Tick(Window(s.mtu), s.snd) == [Query(q)]
    ensures q == s.snd.sentNO <= s.snd.ackNO + Window(s.mtu) || q == s.snd.ackNO + Window(s.mtu) <= s.snd.sentNO
  {
    var u := WokenKeeps(s);
    acts := FreeRoundIsRun(u);
    q := TickAsks(s);
    TickStep(u);
  }

  lemma TickAsks(s: System) returns (q: nat)
    requires ValidMtu(s.mtu) && s.snd.pool != map[]
    ensures q == Asked(s) && Tick(Window(s.mtu), s.snd) == [Query(q)]
    ensures q == s.snd.sentNO <= s.snd.ackNO + Window(s.mtu) || q == s.snd.ackNO + Window(s.mtu) <= s.snd.sentNO
  {
    q := Asked(s);
  }

  lemma FreeRoundSpec(s: Free) returns (t: Calm)
    ensures t == Arrive(Handled(s), Again(s)) && Leads(s, t) && t.mtu == s.mtu && t.frames == s.frames
    ensures t.snd == Handled(s).snd && Asked(s) <= t.rcv.recvNO && s.rcv.recvNO <= t.rcv.recvNO
  {
    t := FreeRoundKeeps(s);
    RoundReaches(s, t);
  }

  lemma RoundReaches(s: Free, t: Calm)
    requires t.rcv == Arrive(Handled(s), Again(s)).rcv
    ensures Asked(s) <= t.rcv.recvNO
  {
    IdleHoldsNoNext(t);
    RoundDelivers(s, t.rcv);
  }

  lemma IdleHoldsNoNext(s: Rested)
    ensures s.rcv.recvNO + 1 !in s.rcv.pool
  {
  }

  lemma HandledParks(s: System)
    requires ValidMtu(s.mtu)
    ensures Handled(s).snd.parked && Handled(s).snd.waiting == s.snd.waiting && Handled(s).snd.open == s.snd.open
  {
  }

  /** How much is left to do: not yet acknowledged, not yet delivered, still in the pool. */
  datatype Left = Left(unacked: nat, undelivered: nat, pooled: nat)

  function Measure(s: System): Left
    requires s.snd.ackNO <= s.snd.sentNO && s.rcv.recvNO <= s.snd.sentNO
  {
    Left(s.snd.sentNO - s.snd.ackNO, s.snd.sentNO - s.rcv.recvNO, |s.snd.pool|)
  }

  predicate Less(a: Left, b: Left) {
    || a.unacked < b.unacked
    || (a.unacked == b.unacked && a.undelivered < b.undelivered)
    || (a.unacked == b.unacked && a.undelivered == b.undelivered && a.pooled < b.pooled)
  }

  /** Every completed round strictly decreases what is left, lexicographically. */
  lemma RoundDecreases(s: Calm) returns (t: Calm)
    requires s.snd.pool != map[] && Wakes(s) > 0
    ensures t == Round(s) && Less(Measure(t), Measure(s))
  {
    t := RoundSpec(s);
    HandledSender(s);
    AskedInReach(s);
    if t.snd.ackNO == s.snd.ackNO && t.rcv.recvNO == s.rcv.recvNO {
      assert t.snd.pool.Keys == {};
      assert s.snd.pool.Keys != {};
    }
  }

  /** No other event undoes progress: whatever else the network and the threads do while nothing is written, what is
      left never grows. */
  lemma NothingUndoes(s: State, a: Action) returns (t: State)
    requires !a.WriteFrame?
    ensures t == Step(s, a) && !Less(Measure(s), Measure(t))
  {
    t := StepKeeps(s, a);
    PoolOnlyShrinks(s, a);
  }

  lemma PoolOnlyShrinks(s: System, a: Action)
    requires ValidMtu(s.mtu) && !a.WriteFrame?
    ensures |Step(s, a).snd.pool| <= |s.snd.pool| && Step(s, a).snd.sentNO == s.snd.sentNO
  {
    var t := Step(s, a);
    assert t.snd.pool.Keys <= s.snd.pool.Keys;
    SubsetSize(t.snd.pool.Keys, s.snd.pool.Keys);
  }

  // ---------- finitely many rounds finish ----------

  /** What the sender and the receiver count, whether the pool is empty, and how often the NCK loop can still go. */
  datatype View = View(sent: nat, ack: nat, recv: nat, empty: bool, wakes: nat)

  function ViewOf(s: System): View {
    View(s.snd.sentNO, s.snd.ackNO, s.rcv.recvNO, s.snd.pool == map[], Wakes(s))
  }

  /** The effect of a completed round on the counters. */
  predicate RoundView(w: nat, a: View, b: View) {
    var q := Min(a.sent, a.ack + w);
    && b.sent == a.sent && b.ack <= b.sent
    && (a.empty || a.wakes == 0 ==> b == a)
    && (!a.empty && a.wakes > 0 ==>
          && b.wakes == a.wakes - 1 && q <= b.recv
          && b.ack == (if a.ack < q <= a.recv then q else a.ack)
          && (a.ack == a.sent ==> b.empty))
  }

  lemma LastRound(s: Calm)
    requires s.snd.ackNO == s.snd.sentNO
    ensures Handled(Woken(s)).snd.pool == map[]
  {
    AskedInReach(s);
    HandledSender(s);
    assert Handled(Woken(s)).snd.pool.Keys == {};
  }

  lemma CountsOf(w: nat, a: View, q: nat, b: View)
    requires q == Min(a.sent, a.ack + w) && !a.empty && a.wakes > 0 && a.ack <= a.sent
    requires b.sent == a.sent && b.ack == (if a.ack < q <= a.recv then q else a.ack) && q <= b.recv
    requires (a.ack == a.sent ==> b.empty) && b.wakes == a.wakes - 1
    ensures RoundView(w, a, b)
  {
  }

  lemma RoundCounts(s: Calm) returns (t: Calm)
    ensures t == Round(s) && t.mtu == s.mtu && t.frames == s.frames
    ensures RoundView(Window(s.mtu), ViewOf(s), ViewOf(t))
  {
    if s.snd.pool == map[] || Wakes(s) == 0 {
      t := s;
    } else {
      t := RoundSpec(s);
      HandledSender(s);
      if s.snd.ackNO == s.snd.sentNO {
        LastRound(s);
      }
      CountsOf(Window(s.mtu), ViewOf(s), Asked(s), ViewOf(t));
    }
  }

  /** How many windows it takes to cover d frames. */
  function Windows(d: nat, w: nat): nat
    requires w >= 1
    decreases d
  {
    if d == 0 then 0 else 1 + Windows(if d <= w then 0 else d - w, w)
  }

  /** It is the least number of windows that covers them. */
  lemma {:induction false} WindowsIsLeast(d: nat, w: nat)
    requires w >= 1
    ensures d <= Windows(d, w) * w < d + w
    decreases d
  {
    if d > 0 {
      var e := if d <= w then 0 else d - w;
      WindowsIsLeast(e, w);
      assert (1 + Windows(e, w)) * w == w + Windows(e, w) * w;
    }
  }

  lemma {:induction false} WindowsMonotone(d: nat, e: nat, w: nat)
    requires w >= 1 && d <= e
    ensures Windows(d, w) <= Windows(e, w)
    decreases e
  {
    if d > 0 {
      WindowsMonotone(if d <= w then 0 else d - w, if e <= w then 0 else e - w, w);
    }
  }

  function Unacked(w: nat, v: View): nat
    requires w >= 1 && v.ack <= v.sent
  {
    Windows(v.sent - v.ack, w)
  }

  /** Two rounds acknowledge a whole window, unless the pool empties. */
  lemma TwoRounds(w: nat, a: View, b: View, c: View)
    requires w >= 1 && a.ack <= a.sent && a.wakes >= 2 && RoundView(w, a, b) && RoundView(w, b, c)
    ensures c.empty || c.wakes == a.wakes - 2
    ensures c.empty || Unacked(w, c) <= if Unacked(w, a) == 0 then 0 else Unacked(w, a) - 1
  {
    if !c.empty && a.ack < a.sent {
      assert !b.empty && !a.empty && c.ack >= Min(a.sent, a.ack + w);
      WindowsMonotone(c.sent - c.ack, if a.sent - a.ack <= w then 0 else a.sent - a.ack - w, w);
    }
  }

  ghost predicate Views(w: nat, vs: seq<View>) {
    && vs != []
    && vs[0].ack <= vs[0].sent
    && forall i :: 0 < i < |vs| ==> RoundView(w, vs[i - 1], vs[i])
  }

  lemma {:induction false} WindowsAcked(w: nat, vs: seq<View>, k: nat)
    requires w >= 1 && Views(w, vs) && k <= Unacked(w, vs[0]) && 2 * k < |vs| && 2 * k <= vs[0].wakes
    ensures vs[2 * k].empty || vs[2 * k].wakes == vs[0].wakes - 2 * k
    ensures vs[2 * k].sent == vs[0].sent && vs[2 * k].ack <= vs[2 * k].sent
    ensures vs[2 * k].empty || Unacked(w, vs[2 * k]) + k <= Unacked(w, vs[0])
  {
    if k > 0 {
      WindowsAcked(w, vs, k - 1);
      assert RoundView(w, vs[2 * k - 2], vs[2 * k - 1]) && RoundView(w, vs[2 * k - 1], vs[2 * k]);
      if !vs[2 * k - 2].empty {
        TwoRounds(w, vs[2 * k - 2], vs[2 * k - 1], vs[2 * k]);
      }
    }
  }

  lemma CountersFinish(w: nat, vs: seq<View>)
    requires w >= 1 && Views(w, vs) && |vs| == 2 * Unacked(w, vs[0]) + 2 && vs[0].wakes >= 2 * Unacked(w, vs[0]) + 1
    ensures vs[|vs| - 1].empty
  {
    var n := |vs| - 1;
    WindowsAcked(w, vs, Unacked(w, vs[0]));
    assert RoundView(w, vs[n - 1], vs[n]);
  }

  lemma EmptyMeansDelivered(s: Calm)
    requires s.snd.pool == map[]
    ensures s.rcv.recvNO == |s.frames| && s.pushed == s.frames
  {
    assert !Holds(s.rcv, s.rcv.recvNO + 1);
    assert s.frames[..|s.frames|] == s.frames;
  }

  /** Calm states of one connection to which nothing more is written. */
  ghost predicate Same(s: System, mtu: nat, frames: seq<bytes>) {
    Inv(s) && Quiet(s.rcv) && Inbox(s.snd) == [] && s.mtu == mtu && s.frames == frames
  }

  lemma SameAfterRound(s: System, mtu: nat, frames: seq<bytes>)
    requires ValidMtu(mtu) && Same(s, mtu, frames)
    ensures Same(Round(s), mtu, frames) && RoundView(Window(mtu), ViewOf(s), ViewOf(Round(s)))
  {
    var t := RoundCounts(s);
  }

  lemma CountsAlong(s: System, mtu: nat, frames: seq<bytes>, n: nat) returns (vs: seq<View>)
    requires ValidMtu(mtu) && Same(s, mtu, frames)
    ensures Same(Iterate(Round, s, n), mtu, frames)
    ensures |vs| == n + 1 && vs[0] == ViewOf(s) && vs[n] == ViewOf(Iterate(Round, s, n))
    ensures forall i :: 0 < i <= n ==> RoundView(Window(mtu), vs[i - 1], vs[i])
  {
    var good := x => Same(x, mtu, frames);
    var w := Window(mtu);
    var related := (a, b) => RoundView(w, a, b);
    forall x | good(x) ensures good(Round(x)) && related(ViewOf(x), ViewOf(Round(x))) {
      SameAfterRound(x, mtu, frames);
    }
    assert good(s);
    vs := Along(Round, good, ViewOf, related, s, n);
    assert good(Iterate(Round, s, n));
    forall i | 0 < i <= n ensures RoundView(Window(mtu), vs[i - 1], vs[i]) {
      assert related(vs[i - 1], vs[i]);
    }
  }

  /** The counters along n rounds. */
  lemma RoundsCount(s: Calm, n: nat) returns (t: Calm, vs: seq<View>)
    ensures t == Iterate(Round, s, n) && t.frames == s.frames
    ensures |vs| == n + 1 && vs[0] == ViewOf(s) && vs[n] == ViewOf(t)
    ensures forall i :: 0 < i <= n ==> RoundView(Window(s.mtu), vs[i - 1], vs[i])
  {
    vs := CountsAlong(s, s.mtu, s.frames, n);
    t := Iterate(Round, s, n);
  }

  /** Two rounds for each window of unacknowledged frames, and one more. */
  function RoundsNeeded(s: System): nat
    requires ValidMtu(s.mtu) && s.snd.ackNO <= s.snd.sentNO
  {
    2 * Unacked(Window(s.mtu), ViewOf(s)) + 1
  }

  /** Two completed rounds per unacknowledged window, and one more, deliver every frame and empty the pool, provided
      the NCK loop is woken as often. */
  lemma RoundsFinish(s: Calm) returns (t: Calm)
    requires Wakes(s) >= RoundsNeeded(s)
    ensures t == Iterate(Round, s, RoundsNeeded(s))
    ensures t.snd.pool == map[] && t.frames == s.frames && t.pushed == t.frames && t.rcv.recvNO == |t.frames|
  {
    var vs;
    t, vs := RoundsCount(s, RoundsNeeded(s));
    CountersFinish(Window(s.mtu), vs);
    EmptyMeansDelivered(t);
  }

  // ---------- from any state ----------

  lemma LeadsBy(s: State, acts: seq<Action>) returns (t: State)
    requires Alone(acts)
    ensures t == Exec(s, acts) && LeadsAlone(s, t)
  {
    t := ExecKeeps(s, acts);
    AloneBy(s, acts);
  }

  lemma LeadsOne(s: State, a: Action) returns (t: State)
    requires !ByWriter(a)
    ensures t == Step(s, a) && LeadsAlone(s, t)
  {
    ExecOne(s, a);
    t := LeadsBy(s, [a]);
  }

  /** What the packet loop does next. */
  function NextOf(l: Loop): Action
    requires !l.Idle?
  {
    match l
    case Looking => Lookup
    case Found(_) => Delete
    case Pushing(_) => Push
    case Bumping => Bump
  }

  function Rank(l: Loop): nat {
    match l
    case Idle => 0
    case Looking => 4
    case Found(_) => 3
    case Pushing(_) => 2
    case Bumping => 1
  }

  lemma LoopAdvances(s: System)
    requires ValidMtu(s.mtu) && !s.rcv.loop.Idle?
    ensures
      var t := Step(s, NextOf(s.rcv.loop));
      && t.snd == s.snd && t.frames == s.frames && t.rcv.scan == s.rcv.scan && t.rcv.queries == s.rcv.queries
      && (t.rcv.recvNO > s.rcv.recvNO || (t.rcv.recvNO == s.rcv.recvNO && Rank(t.rcv.loop) < Rank(s.rcv.loop)))
  {
  }

  /** The packet loop can always finish what it is doing. */
  lemma {:induction false} LoopFinishes(s: State) returns (t: State)
    ensures LeadsAlone(s, t) && t.rcv.loop.Idle?
    ensures t.snd == s.snd && t.frames == s.frames && t.rcv.scan == s.rcv.scan && t.rcv.queries == s.rcv.queries
    decreases s.snd.sentNO - s.rcv.recvNO, Rank(s.rcv.loop)
  {
    if s.rcv.loop.Idle? {
      t := LeadsBy(s, []);
    } else {
      LoopAdvances(s);
      var u := LeadsOne(s, NextOf(s.rcv.loop));
      t := LoopFinishes(u);
      AloneFurther(s, u, t);
    }
  }

  lemma ScanFinishes(s: State) returns (t: State)
    requires s.rcv.scan.Scanning?
    ensures LeadsAlone(s, t) && t.snd == s.snd && t.frames == s.frames && t.rcv == s.rcv.(scan := NoScan)
  {
    var acts := ScanIsRun(s);
    t := LeadsBy(s, acts);
  }

  lemma ScanStarts(s: System)
    requires ValidMtu(s.mtu) && s.rcv.scan.NoScan? && s.rcv.queries != []
    ensures
      var t := Step(s, ScanStart);
      && t.snd == s.snd && t.frames == s.frames && t.rcv.loop == s.rcv.loop && t.rcv.scan.Scanning?
      && t.rcv.queries == s.rcv.queries[1..]
  {
  }

  lemma QueryFinishes(s: State) returns (t: State)
    requires s.rcv.loop.Idle? && s.rcv.scan.NoScan? && s.rcv.queries != []
    ensures LeadsAlone(s, t) && t.snd == s.snd && t.frames == s.frames
    ensures t.rcv.loop.Idle? && t.rcv.scan.NoScan? && |t.rcv.queries| < |s.rcv.queries|
  {
    ScanStarts(s);
    var u := LeadsOne(s, ScanStart);
    t := ScanFinishes(u);
    AloneFurther(s, u, t);
  }

  /** So can the query goroutine, with everything in its queue. */
  lemma {:induction false} QueriesFinish(s: State) returns (t: State)
    requires s.rcv.loop.Idle? && s.rcv.scan.NoScan?
    ensures LeadsAlone(s, t) && Quiet(t.rcv) && t.snd == s.snd && t.frames == s.frames
    decreases |s.rcv.queries|
  {
    if s.rcv.queries == [] {
      t := LeadsBy(s, []);
    } else {
      var u := QueryFinishes(s);
      t := QueriesFinish(u);
      AloneFurther(s, u, t);
    }
  }

  /** Every reachable state can come to rest without a sender step. */
  lemma Settles(s: State) returns (t: Rested)
    ensures LeadsAlone(s, t) && t.snd == s.snd && t.frames == s.frames
  {
    var u := LoopFinishes(s);
    var v := u;
    if u.rcv.scan.Scanning? {
      v := ScanFinishes(u);
      AloneFurther(s, u, v);
    }
    var x := QueriesFinish(v);
    AloneFurther(s, v, x);
    t := x;
  }

  lemma RoundLeads(s: System, mtu: nat, frames: seq<bytes>)
    requires ValidMtu(mtu) && Same(s, mtu, frames)
    ensures Same(Round(s), mtu, frames) && Leads(s, Round(s))
  {
    SameAfterRound(s, mtu, frames);
    if s.snd.pool == map[] || Wakes(s) == 0 {
      LeadsSelf(s);
    } else {
      var t := RoundSpec(s);
    }
  }

  lemma {:induction false} ListLeads(ss: seq<System>, i: nat)
    requires i < |ss| && ValidMtu(ss[0].mtu)
    requires forall j :: 0 < j < |ss| ==> Leads(ss[j - 1], ss[j])
    ensures Leads(ss[0], ss[i])
  {
    if i == 0 {
      assert Exec(ss[0], []) == ss[0];
    } else {
      ListLeads(ss, i - 1);
      LeadsFurther(ss[0], ss[i - 1], ss[i]);
    }
  }

  lemma RoundsLead(s: System, mtu: nat, frames: seq<bytes>, n: nat) returns (ss: seq<System>)
    requires ValidMtu(mtu) && Same(s, mtu, frames)
    ensures |ss| == n + 1 && ss[0] == s && ss[n] == Iterate(Round, s, n)
    ensures forall j :: 0 < j <= n ==> Leads(ss[j - 1], ss[j])
  {
    forall x | Same(x, mtu, frames) ensures Same(Round(x), mtu, frames) && Leads(x, Round(x)) {
      RoundLeads(x, mtu, frames);
    }
    ss := Along(Round, x => Same(x, mtu, frames), x => x, (a, b) => Leads(a, b), s, n);
  }

  /** Any number of completed rounds is a run. */
  lemma RoundsAreRun(s: System, mtu: nat, frames: seq<bytes>, n: nat)
    requires ValidMtu(mtu) && Same(s, mtu, frames)
    ensures Leads(s, Iterate(Round, s, n))
  {
    var ss := RoundsLead(s, mtu, frames, n);
    ListLeads(ss, n);
  }

  /** From any state, after any loss: when the NCK loop is woken often enough everything written arrives, in order, by
      frames sent again from now on, and the send pool empties, with nothing written meanwhile. */
  lemma WakesDeliver(s: State) returns (t: System)
    requires Wakes(s) >= |Inbox(s.snd)| + RoundsNeeded(s)
    ensures Leads(s, t) && t.frames == s.frames && t.pushed == s.frames && t.snd.pool == map[]
  {
    var v := Settles(s);
    SameNeed(s, v);
    var u := QueueHandled(v);
    LeadsFurther(s, v, u);
    StillNeeded(v, u);
    t := CalmDelivers(u);
    LeadsFurther(s, u, t);
  }

  lemma StillNeeded(s: State, t: State)
    requires t.mtu == s.mtu && t.snd.sentNO == s.snd.sentNO && t.snd.ackNO == s.snd.ackNO
    ensures RoundsNeeded(t) == RoundsNeeded(s)
  {
  }

  lemma CalmDelivers(s: Calm) returns (t: Calm)
    requires Wakes(s) >= RoundsNeeded(s)
    ensures Leads(s, t) && t.frames == s.frames && t.pushed == s.frames && t.snd.pool == map[]
  {
    t := RoundsFinish(s);
    RoundsAreRun(s, s.mtu, s.frames, RoundsNeeded(s));
  }

  lemma SameNeed(s: State, t: State)
    requires t.snd == s.snd && LeadsAlone(s, t)
    ensures RoundsNeeded(t) == RoundsNeeded(s) && Wakes(t) == Wakes(s) && t.mtu == s.mtu && Leads(s, t)
  {
  }

  // ---------- NCKs that wait in the channel ----------

  /** The packet loop puts the NCK in its hand into the channel, if that is where the next one is. */
  lemma HeadInChannel(s: State) returns (t: State)
    requires Inbox(s.snd) != []
    ensures LeadsAlone(s, t) && t == s.(snd := t.snd) && t.snd.ncks != []
    ensures Inbox(t.snd) == Inbox(s.snd) && t.snd == s.snd.(ncks := t.snd.ncks, hand := t.snd.hand)
  {
    if s.snd.ncks != [] {
      AloneBy(s, []);
      t := s;
    } else {
      var u := LeadsOne(s, QueueNck);
      assert [] + s.snd.hand == s.snd.hand && s.snd.hand + [] == s.snd.hand;
      t := u;
    }
  }

  /** The NCK loop, if it is free, takes the next NCK, whatever else waits. */
  lemma HeadHandled(s: State) returns (t: State)
    requires Inbox(s.snd) != [] && !s.snd.parked
    ensures LeadsAlone(s, t) && HandledHead(s, t) && |t.snd.ncks| < NCK_QUEUE
  {
    var u := HeadInChannel(s);
    HeadOk(u);
    QueueBound(u);
    t := ChannelHandled(u);
    AloneFurther(s, u, t);
    HeadEffect(s, u, t);
  }

  lemma QueueBound(s: State)
    ensures |s.snd.ncks| <= NCK_QUEUE
  {
  }

  /** From s to t the next NCK has been handled. */
  predicate HandledHead(s: System, t: System)
    requires Inbox(s.snd) != []
  {
    var m := Inbox(s.snd)[0];
    && m.Nck? && t.mtu == s.mtu && t.rcv == s.rcv && t.frames == s.frames
    && t.snd.pool == Trim(s.snd.pool, m.no, m.missing) && Inbox(t.snd) == Inbox(s.snd)[1..]
    && t.snd == s.snd.(pool := t.snd.pool, ncks := t.snd.ncks, hand := t.snd.hand, parked := true)
    && s.net <= t.net && (forall d :: d in Resent(s.snd.pool, m.missing) ==> d in t.net)
  }

  lemma HeadEffect(s: System, u: System, t: System)
    requires Inbox(s.snd) != [] && u.snd.ncks != [] && u.snd.ncks[0].Nck? && Inbox(u.snd) == Inbox(s.snd)
    requires u.mtu == s.mtu && u.rcv == s.rcv && u.frames == s.frames && s.net == u.net
    requires u.snd == s.snd.(ncks := u.snd.ncks, hand := u.snd.hand)
    requires
      var m := u.snd.ncks[0];
      t == u.(snd := Trimmed(Taken(u.snd), m.no, m.missing), net := Send(u.net, Resent(u.snd.pool, m.missing)))
    ensures HandledHead(s, t)
  {
    HeadFirst(u.snd);
  }

  lemma ChannelHandled(s: State) returns (t: State)
    requires s.snd.ncks != [] && s.snd.ncks[0].Nck? && !s.snd.parked
    ensures
      var m := s.snd.ncks[0];
      && LeadsAlone(s, t)
      && t == s.(snd := Trimmed(Taken(s.snd), m.no, m.missing), net := Send(s.net, Resent(s.snd.pool, m.missing)))
  {
    HandleStep(s);
    var v := LeadsOne(s, HandleNck);
    t := v;
  }

  lemma HeadFirst(snd: Sender)
    requires snd.ncks != []
    ensures Inbox(snd)[0] == snd.ncks[0] && Inbox(Taken(snd)) == Inbox(snd)[1..]
  {
  }

  /** Every NCK that waits takes one wake-up. */
  lemma {:induction false} QueueHandled(s: Rested) returns (t: Calm)
    requires Wakes(s) >= |Inbox(s.snd)|
    ensures Leads(s, t) && t.mtu == s.mtu && t.rcv == s.rcv && t.frames == s.frames
    ensures t.snd.sentNO == s.snd.sentNO && t.snd.ackNO == s.snd.ackNO && t.snd.open == s.snd.open
    ensures Wakes(t) == Wakes(s) - |Inbox(s.snd)|
    decreases |Inbox(s.snd)|
  {
    if Inbox(s.snd) == [] {
      LeadsSelf(s);
      t := s;
    } else {
      var u := RestedWoken(s);
      var v := HeadHandled(u);
      LeadsFurther(s, u, v);
      t := QueueHandled(v);
      LeadsFurther(s, v, t);
    }
  }

  lemma RestedWoken(s: Rested) returns (t: Rested)
    requires Wakes(s) > 0
    ensures t == Woken(s) && Leads(s, t) && !t.snd.parked && Wakes(t) == Wakes(s)
  {
    if s.snd.parked {
      WakeStep(s);
      var u := StepKeeps(s, Wake);
      StepLeads(s, Wake);
      t := u;
    } else {
      LeadsSelf(s);
      t := s;
    }
  }

  // ---------- a Write that waits ----------

  /** One round, and the waiting Write that has been woken finds the pool still full and waits again. */
  lemma RoundAndWait(s: Free) returns (t: Free)
    requires s.snd.open && s.snd.waiting > 0 && s.snd.pool != map[] && |Round(s).snd.pool| >= Window(s.mtu)
    ensures Leads(s, t) && t.mtu == s.mtu && t.frames == s.frames
    ensures t.snd.open && t.snd.waiting == s.snd.waiting && |t.snd.pool| >= Window(t.mtu)
    ensures Less(Measure(t), Measure(s))
  {
    var u := RoundDecreases(s);
    var r := RoundSpec(s);
    RoundSender(s);
    t := WaitAgain(r);
    LeadsFurther(s, r, t);
  }

  lemma RoundSender(s: Free)
    requires s.snd.pool != map[]
    ensures Round(s).snd.open == s.snd.open && Round(s).snd.waiting == s.snd.waiting
  {
    var r := RoundSpec(s);
    HandledParks(s);
  }

  /** The woken Write waits again. */
  lemma WaitAgain(s: Calm) returns (t: Free)
    requires s.snd.parked && s.snd.open && s.snd.waiting > 0 && |s.snd.pool| >= Window(s.mtu)
    ensures Leads(s, t) && t.mtu == s.mtu && t.rcv == s.rcv && t.frames == s.frames && t.snd == s.snd.(parked := false)
  {
    var v := WakesUp(s);
    t := BeginsWait(v);
    LeadsFurther(s, v, t);
  }

  lemma BeginsWait(s: Free) returns (t: Free)
    requires s.snd.open && |s.snd.pool| >= Window(s.mtu)
    ensures Leads(s, t) && t == s.(snd := s.snd.(waiting := s.snd.waiting + 1))
  {
    BeginWaitStep(s);
    var u := StepKeeps(s, BeginWait);
    StepLeads(s, BeginWait);
    t := u;
  }

  lemma BeginWaitStep(s: System)
    requires ValidMtu(s.mtu) && s.snd.open && |s.snd.pool| >= Window(s.mtu)
    ensures Step(s, BeginWait) == s.(snd := s.snd.(waiting := s.snd.waiting + 1))
  {
  }

  lemma WakeStep(s: System)
    requires ValidMtu(s.mtu) && s.snd.parked && s.snd.waiting > 0
    ensures Step(s, Wake) == s.(snd := s.snd.(parked := false, waiting := s.snd.waiting - 1))
  {
  }

  /** The woken Write has room. */
  lemma WakesUp(s: Calm) returns (t: Free)
    requires s.snd.parked && s.snd.waiting > 0
    ensures Leads(s, t) && t.mtu == s.mtu && t.rcv == s.rcv && t.frames == s.frames
    ensures t.snd == s.snd.(parked := false, waiting := s.snd.waiting - 1)
  {
    WakeStep(s);
    var u := StepKeeps(s, Wake);
    StepLeads(s, Wake);
    t := u;
  }

  /** A Write that waits for the window gets through: rounds go on, with nothing written, until there is room. */
  lemma {:induction false} WaitEnds(s: Free) returns (t: Free)
    requires s.snd.open && s.snd.waiting > 0 && |s.snd.pool| >= Window(s.mtu)
    ensures Leads(s, t) && t.mtu == s.mtu && t.frames == s.frames && t.snd.open
    ensures |t.snd.pool| < Window(s.mtu) && t.snd.waiting == s.snd.waiting - 1
    decreases s.snd.sentNO - s.snd.ackNO, s.snd.sentNO - s.rcv.recvNO, |s.snd.pool|
  {
    if |Round(s).snd.pool| >= Window(s.mtu) {
      var u := RoundAndWait(s);
      t := WaitEnds(u);
      LeadsFurther(s, u, t);
    } else {
      var u := RoundSpec(s);
      RoundSender(s);
      t := WakesUp(u);
      LeadsFurther(s, u, t);
    }
  }
}
