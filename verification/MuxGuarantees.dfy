/** What the multiplexer promises in every run. */
module MuxGuarantees {
  import opened MuxProtocol
  import opened MuxSafety
  import opened MuxRuns

  /** For each stream and direction: bytes written = bytes read, then `buf`, then `inbound`, then what is on the wire. */
  lemma Conservation(acts: seq<(bool, Action)>, me: bool, sid: Sid)
    requires Careful(acts)
    ensures
      var s := Run(acts);
      WrittenBy(At(s, !me), sid) == ReceivedBy(At(s, me), sid) + InFlight(Sent(s, !me), sid)
  {
    var s := RunKeeps(acts);
    MineIn(s, me);
    assert Conserved(Sent(s, !me), At(s, !me), At(s, me));
  }

  /** What an application has read of a stream is a prefix of what the other wrote to it. */
  lemma ReadsArePrefix(acts: seq<(bool, Action)>, me: bool, sid: Sid)
    requires Careful(acts)
    requires sid in At(Run(acts), me).conns
    ensures At(Run(acts), me).conns[sid].read <= WrittenBy(At(Run(acts), !me), sid)
  {
    Conservation(acts, me, sid);
  }

  /** Once the FIN of the other side has arrived, all it has ever written has arrived. */
  lemma FinMeansAll(acts: seq<(bool, Action)>, me: bool, sid: Sid)
    requires Careful(acts)
    requires sid in At(Run(acts), me).conns && At(Run(acts), me).conns[sid].finWait
    ensures WrittenBy(At(Run(acts), !me), sid) == ReceivedBy(At(Run(acts), me), sid)
  {
    var s := RunKeeps(acts);
    NoneAfterFin(s, me, sid);
    NothingInFlight(Sent(s, !me), sid);
    Conservation(acts, me, sid);
  }

  lemma NoneAfterFin(s: Good, me: bool, sid: Sid)
    requires sid in At(s, me).conns && At(s, me).conns[sid].finWait
    ensures !On(Sent(s, !me), sid)
  {
    MineIn(s, me);
    assert Ordered(Sent(s, !me), At(s, !me), At(s, me));
  }

  lemma Parity(a: Sid, b: Sid)
    requires a.left != b.left
    ensures NumberOf(a) != NumberOf(b)
  {
    assert NumberOf(a) % 2 == (if a.left then 0 else 1);
    assert NumberOf(b) % 2 == (if b.left then 0 else 1);
  }

  /** No number is a dialed and an accepted stream at once, also after the numbers have wrapped. */
  lemma DisjointKeys(acts: seq<(bool, Action)>, me: bool, k: nat)
    requires Careful(acts)
    ensures k !in At(Run(acts), me).dials || k !in At(Run(acts), me).accepts
  {
    var s := RunKeeps(acts);
    MineIn(s, me);
    var e := At(s, me);
    assert Mapped(e, me);
    if k in e.dials && k in e.accepts {
      Parity(e.dials[k], e.accepts[k]);
    }
  }

  /** No frame of a stream follows its FIN on the wire. */
  lemma NothingFollowsFin(acts: seq<(bool, Action)>, me: bool, i: nat, j: nat)
    requires Careful(acts)
    requires i < j < |Sent(Run(acts), me)|
    ensures Sent(Run(acts), me)[i].fin ==> Sent(Run(acts), me)[j].sid != Sent(Run(acts), me)[i].sid
  {
    var s := RunKeeps(acts);
    Mine(s, me);
    assert Ordered(Sent(s, me), At(s, me), At(s, !me));
  }

  /** The streams a session accepts are exactly the other side's streams it has connections for, each once. */
  lemma AcceptedExactlyOnce(acts: seq<(bool, Action)>, me: bool)
    requires Careful(acts)
    ensures
      var e, x := At(Run(acts), me), At(Run(acts), !me);
      && (forall i, j :: 0 <= i < j < |e.accepted| ==> e.accepted[i] != e.accepted[j])
      && (forall i :: 0 <= i < |e.accepted| ==> e.accepted[i].left != me && 1 <= e.accepted[i].n <= x.opens)
      && (forall sid :: sid in e.conns && sid.left != me ==> sid in e.accepted)
      && !e.panicked
  {
    var s := RunKeeps(acts);
    MineIn(s, me);
    assert AcceptedOnce(At(s, me), me);
    assert Numbered(At(s, me), me, At(s, !me).opens);
  }

  /**
   The next frame goes to its own stream: DATA is queued there, or makes this side accept a stream the other side
   has opened; a FIN closes its own stream for the first time, or finds none.
   */
  lemma RightStream(acts: seq<(bool, Action)>, me: bool)
    requires Careful(acts)
    requires Sent(Run(acts), !me) != []
    ensures
      var e, f := At(Run(acts), me), Sent(Run(acts), !me)[0];
      && Deliver(e, f) == Arrived(Run(acts), me)
      && (f.sid !in e.conns ==> f.sid.left != me)
      && (f.sid in e.conns ==> !e.conns[f.sid].finWait)
  {
    var s := RunKeeps(acts);
    DeliverIsArrived(s, me);
    FoundRight(s, me);
    MineIn(s, me);
    assert Ordered(Sent(s, !me), At(s, !me), At(s, me));
    assert On(Sent(s, !me), Sent(s, !me)[0].sid);
  }

  /** The next frame meets what the handler asks for: in particular no channel is closed twice. */
  lemma NextFrameIsReady(acts: seq<(bool, Action)>, me: bool)
    requires Careful(acts)
    requires Sent(Run(acts), !me) != []
    ensures
      var e, f := At(Run(acts), me), Sent(Run(acts), !me)[0];
      && (Found(e, f.seqno) == [] ==> f.sid !in e.conns)
      && (forall sid :: sid in e.conns ==> (e.conns[sid].finSent ==> e.conns[sid].fin))
      && (forall sid :: sid in e.conns && [sid] == Found(e, f.seqno) ==> !e.conns[sid].finWait)
  {
    var s := RunKeeps(acts);
    FoundRight(s, me);
    RightStream(acts, me);
    forall sid | sid in At(s, me).conns ensures At(s, me).conns[sid].finSent ==> At(s, me).conns[sid].fin {
      ConnOk(s, me, sid);
    }
  }

  /** While a side has opened fewer than 2^31 streams the generator gives a number no living stream has. */
  lemma FreshUntilWrap(acts: seq<(bool, Action)>, me: bool)
    requires Careful(acts)
    requires At(Run(acts), me).opens < 0x8000_0000
    ensures NumberIsFree(Run(acts), me)
  {
    var s := RunKeeps(acts);
    FreshAt(s, me);
  }

  lemma FreshAt(s: Good, me: bool)
    requires At(s, me).opens < 0x8000_0000
    ensures NumberIsFree(s, me)
  {
    forall sid | Alive(s, sid) ensures NumberOf(sid) != NumberOf(Sid(me, At(s, me).opens + 1)) {
      DiffersFromNext(s, me, sid);
    }
  }

  lemma DiffersFromNext(s: Good, me: bool, sid: Sid)
    requires Alive(s, sid) && At(s, me).opens < 0x8000_0000
    ensures NumberOf(sid) != NumberOf(Sid(me, At(s, me).opens + 1))
  {
    var next := Sid(me, At(s, me).opens + 1);
    if sid.left == me {
      AliveWasOpened(s, me, sid);
      Distinct(sid, next);
    } else {
      Parity(sid, next);
    }
  }

  lemma AliveWasOpened(s: Good, me: bool, sid: Sid)
    requires Alive(s, sid) && sid.left == me
    ensures 1 <= sid.n <= At(s, me).opens
  {
    if On(s.lr, sid) {
      Mine(s, true);
      assert Ordered(s.lr, s.l, s.r);
      assert sid in s.l.conns;
    } else if On(s.rl, sid) {
      Mine(s, true);
      assert Ordered(s.rl, s.r, s.l);
      assert sid in s.r.conns;
    }
  }

  lemma Distinct(a: Sid, b: Sid)
    requires a.left == b.left && 1 <= a.n < b.n <= 0x8000_0000
    ensures NumberOf(a) != NumberOf(b)
  {
    assert NumberOf(b) == NumberOf(a) + 2 * (b.n - a.n) || NumberOf(b) == NumberOf(a) + 2 * (b.n - a.n) - 0x1_0000_0000;
  }

  lemma OpensCount(s: State, me: bool, a: Action, side: bool)
    ensures At(Step(s, me, a), side).opens == At(s, side).opens + if me == side && a.Open? then 1 else 0
  {
  }

  /** As long as no side has opened more than 2^31 streams every run is one in which numbers are free: all of the
      above holds of it without any condition. */
  lemma {:induction false} FewOpensAreCareful(acts: seq<(bool, Action)>)
    requires Run(acts).l.opens <= 0x8000_0000 && Run(acts).r.opens <= 0x8000_0000
    ensures Careful(acts)
  {
    if acts != [] {
      var front, last := acts[..|acts| - 1], acts[|acts| - 1];
      OpensCount(Run(front), last.0, last.1, true);
      OpensCount(Run(front), last.0, last.1, false);
      FewOpensAreCareful(front);
      if last.1.Open? {
        FreshUntilWrap(front, last.0);
      }
    }
  }
}
