/**
 What happens when a stream number is given again. OpenStream takes the next number of the generator, whether or not
 a stream still has it. The condition under which no frame ever goes to a wrong stream is exactly NumberIsFree.
 */
module MuxReuse {
  import opened MuxProtocol
  import opened MuxSafety
  import opened MuxRuns
  import opened MuxGuarantees

  /** The next frame for side `me` does not find its own stream: it finds another, or none although it has one. */
  predicate Misrouted(s: State, me: bool) {
    Sent(s, !me) != [] &&
    var e, f := At(s, me), Sent(s, !me)[0];
    Found(e, f.seqno) != (if Kept(e, f.sid) then [f.sid] else [])
  }

  ghost function RunFrom(s: State, acts: seq<(bool, Action)>): State
    decreases |acts|
  {
    if acts == [] then s else RunFrom(Step(s, acts[0].0, acts[0].1), acts[1..])
  }

  ghost predicate CarefulFrom(s: State, acts: seq<(bool, Action)>)
    decreases |acts|
  {
    acts == [] ||
    ((acts[0].1.Open? ==> NumberIsFree(s, acts[0].0)) && CarefulFrom(Step(s, acts[0].0, acts[0].1), acts[1..]))
  }

  /** Some way to go on, every further stream being opened with a free number, misroutes a frame. */
  ghost predicate CanMisroute(s: State) {
    exists acts, side :: CarefulFrom(s, acts) && Misrouted(RunFrom(s, acts), side)
  }

  lemma Now(s: State, side: bool)
    requires Misrouted(s, side)
    ensures CanMisroute(s)
  {
    assert CarefulFrom(s, []) && RunFrom(s, []) == s;
  }

  lemma Sooner(s: State, me: bool, a: Action)
    requires !a.Open? && CanMisroute(Step(s, me, a))
    ensures CanMisroute(s)
  {
    var rest, side :| CarefulFrom(Step(s, me, a), rest) && Misrouted(RunFrom(Step(s, me, a), rest), side);
    var acts := [(me, a)] + rest;
    assert acts[1..] == rest;
    assert CarefulFrom(s, acts) && RunFrom(s, acts) == RunFrom(Step(s, me, a), rest);
  }

  /** While numbers are free no frame is misrouted. */
  lemma {:induction false} GoodNeverMisroutes(s: Good, acts: seq<(bool, Action)>, side: bool)
    requires CarefulFrom(s, acts)
    ensures !Misrouted(RunFrom(s, acts), side)
    decreases |acts|
  {
    if acts == [] {
      if Sent(s, !side) != [] { FoundRight(s, side); }
    } else {
      var t := StepKeeps(s, acts[0].0, acts[0].1);
      GoodNeverMisroutes(t, acts[1..], side);
    }
  }

  // ---------- single steps ----------

  lemma ReceiveStep(s: State, me: bool)
    requires Sent(s, !me) != []
    ensures
      var t := Step(s, me, Receive);
      && At(t, me) == Deliver(At(s, me), Sent(s, !me)[0]) && At(t, !me) == At(s, !me)
      && Sent(t, !me) == Sent(s, !me)[1..] && Sent(t, me) == Sent(s, me)
  {
  }

  /** Delivery takes nothing out of the maps and forgets no stream. */
  lemma DeliverOnlyAdds(e: End, f: Frame)
    ensures Deliver(e, f).dials == e.dials
    ensures
      var accepts := Deliver(e, f).accepts;
      accepts == e.accepts || (f.seqno !in e.accepts && accepts == e.accepts[f.seqno := f.sid])
    ensures forall sid :: Kept(e, sid) && (sid == f.sid ==> Found(e, f.seqno) != []) ==> Kept(Deliver(e, f), sid)
    ensures forall sid :: sid in e.conns ==> sid in Deliver(e, f).conns
  {
  }

  lemma WriteStep(s: State, me: bool, sid: Sid)
    requires sid in At(s, me).conns && !At(s, me).conns[sid].fin
    ensures
      var t, e, e' := Step(s, me, Write(sid, [])), At(s, me), At(Step(s, me, Write(sid, [])), me);
      && e'.dials == e.dials && e'.accepts == e.accepts && e'.opens == e.opens
      && e'.conns == e.conns && At(t, !me) == At(s, !me)
      && Sent(t, me) == Sent(s, me) + [Frame(false, e.conns[sid].seqno, [], sid)] && Sent(t, !me) == Sent(s, !me)
  {
    var c := At(s, me).conns[sid];
    assert c.written + [] == c.written;
    assert c.(written := c.written) == c;
  }

  // ---------- frames that come to a wrong stream ----------

  /** A frame of y is on its way to a side that has given y's number to n. */
  lemma {:induction false} TakenOnTheWay(s: State, me: bool, y: Sid, n: Sid)
    requires NumberOf(y) in At(s, me).dials && At(s, me).dials[NumberOf(y)] == n && n != y
    requires On(Sent(s, !me), y)
    requires forall f :: f in Sent(s, !me) ==> f.seqno == NumberOf(f.sid)
    ensures CanMisroute(s)
    decreases |Sent(s, !me)|
  {
    var w := Sent(s, !me);
    if w[0].sid == y {
      Now(s, me);
    } else {
      ReceiveStep(s, me);
      DeliverOnlyAdds(At(s, me), w[0]);
      OnTail(w, y);
      TakenOnTheWay(Step(s, me, Receive), me, y, n);
      Sooner(s, me, Receive);
    }
  }

  /** The peer still has y under the number of n: n's first frame goes to y. */
  lemma TakenAtPeer(s: State, me: bool, y: Sid, n: Sid)
    requires Sent(s, me) == [] && n in At(s, me).conns && At(s, me).conns[n] == NewConn(NumberOf(y)) && n != y
    requires
      var x := At(s, !me);
      NumberOf(y) !in x.dials && NumberOf(y) in x.accepts && x.accepts[NumberOf(y)] == y && n !in x.conns
    ensures CanMisroute(s)
  {
    WriteStep(s, me, n);
    Now(Step(s, me, Write(n, [])), !me);
    Sooner(s, me, Write(n, []));
  }

  /** The peer accepts n. */
  lemma PeerAccepts(s: State, me: bool, n: Sid) returns (t: State)
    requires Sent(s, me) == [] && n in At(s, me).conns && !At(s, me).conns[n].fin
    requires
      var k := At(s, me).conns[n].seqno;
      k !in At(s, !me).dials && k !in At(s, !me).accepts
    ensures CanMisroute(t) ==> CanMisroute(s)
    ensures At(t, me).dials == At(s, me).dials && At(t, me).accepts == At(s, me).accepts
    ensures At(t, me).conns == At(s, me).conns && Sent(t, me) == [] && Sent(t, !me) == Sent(s, !me)
    ensures
      var k, x := At(s, me).conns[n].seqno, At(s, !me);
      && At(t, !me).conns == x.conns[n := NewConn(k).(inbound := [[]])]
      && At(t, !me).dials == x.dials && At(t, !me).accepts == x.accepts[k := n]
  {
    WriteStep(s, me, n);
    var u := Step(s, me, Write(n, []));
    ReceiveStep(u, !me);
    t := Step(u, !me, Receive);
    if CanMisroute(t) {
      Sooner(u, !me, Receive);
      Sooner(s, me, Write(n, []));
    }
  }

  /** y is not yet finished here and unknown there: n is accepted under y's number, and y's FIN then closes n. */
  lemma FinClosesOther(s: State, me: bool, y: Sid, n: Sid)
    requires Sent(s, me) == [] && n != y && n in At(s, me).conns && At(s, me).conns[n] == NewConn(NumberOf(y))
    requires y in At(s, me).conns && At(s, me).conns[y].seqno == NumberOf(y)
    requires At(s, me).conns[y].fin && !At(s, me).conns[y].finSent
    requires var x := At(s, !me); NumberOf(y) !in x.dials && NumberOf(y) !in x.accepts && y !in x.conns
    ensures CanMisroute(s)
  {
    var t := PeerAccepts(s, me, n);
    var u := Step(t, me, SendFin(y));
    FinStep(t, me, y);
    Now(u, !me);
    Sooner(t, me, SendFin(y));
  }

  lemma FinStep(s: State, me: bool, y: Sid)
    requires y in At(s, me).conns && At(s, me).conns[y].fin && !At(s, me).conns[y].finSent
    ensures
      var t := Step(s, me, SendFin(y));
      At(t, !me) == At(s, !me) && Sent(t, me) == Sent(s, me) + [Frame(true, At(s, me).conns[y].seqno, [], y)]
  {
  }

  lemma CloseStep(s: State, me: bool, y: Sid)
    requires y in At(s, me).conns
    ensures
      var t, e := Step(s, me, StartClose(y)), At(s, me);
      && At(t, me) == WithConn(e, y, e.conns[y].(fin := true))
      && At(t, !me) == At(s, !me) && Sent(t, me) == Sent(s, me) && Sent(t, !me) == Sent(s, !me)
  {
  }

  lemma UnfinishedHere(s: State, me: bool, y: Sid, n: Sid)
    requires Sent(s, me) == [] && n != y && n in At(s, me).conns && At(s, me).conns[n] == NewConn(NumberOf(y))
    requires y in At(s, me).conns && At(s, me).conns[y].seqno == NumberOf(y) && !At(s, me).conns[y].finSent
    requires var x := At(s, !me); NumberOf(y) !in x.dials && NumberOf(y) !in x.accepts && y !in x.conns
    ensures CanMisroute(s)
  {
    CloseStep(s, me, y);
    FinClosesOther(Step(s, me, StartClose(y)), me, y, n);
    Sooner(s, me, StartClose(y));
  }

  /** A frame of n is on its way to a side that still has n but no longer finds its number. */
  lemma {:induction false} LostOnTheWay(s: State, me: bool, n: Sid)
    requires Kept(At(s, me), n) && NumberOf(n) !in At(s, me).dials && NumberOf(n) !in At(s, me).accepts
    requires
      var w := Sent(s, !me);
      && w != [] && w[|w| - 1].sid == n && w[|w| - 1].seqno == NumberOf(n)
      && forall f :: f in w[..|w| - 1] ==> f.seqno != NumberOf(n)
    ensures CanMisroute(s)
    decreases |Sent(s, !me)|
  {
    var w := Sent(s, !me);
    if |w| == 1 {
      Now(s, me);
    } else {
      ReceiveStep(s, me);
      DeliverOnlyAdds(At(s, me), w[0]);
      assert w[0] in w[..|w| - 1] && w[1..][..|w| - 2] == w[..|w| - 1][1..];
      LostOnTheWay(Step(s, me, Receive), me, n);
      Sooner(s, me, Receive);
    }
  }

  /** Forgetting y deletes the entry of n: what the peer then writes on n does not find it. */
  lemma ForgetsOther(s: State, me: bool, y: Sid, n: Sid)
    requires Sent(s, me) == [] && n != y && NumberOf(n) == NumberOf(y)
    requires n in At(s, me).conns && At(s, me).conns[n] == NewConn(NumberOf(y))
    requires y in At(s, me).conns && At(s, me).conns[y].seqno == NumberOf(y)
    requires At(s, me).conns[y].finSent && At(s, me).conns[y].finWait && !At(s, me).conns[y].forgotten
    requires var x := At(s, !me); NumberOf(y) !in x.dials && NumberOf(y) !in x.accepts
    requires forall f :: f in Sent(s, !me) ==> f.seqno != NumberOf(y)
    ensures CanMisroute(s)
  {
    ForgetStep(s, me, y);
    var t := Step(s, me, Forget(y));
    var u := PeerAccepts(t, me, n);
    WriteStep(u, !me, n);
    var v := Step(u, !me, Write(n, []));
    LostOnTheWay(v, me, n);
    Sooner(u, !me, Write(n, []));
    Sooner(s, me, Forget(y));
  }

  lemma ForgetStep(s: State, me: bool, y: Sid)
    requires Enabled(s, me, Forget(y))
    ensures
      var t := Step(s, me, Forget(y));
      && At(t, me) == Forgotten(At(s, me), y) && At(t, !me) == At(s, !me)
      && Sent(t, me) == Sent(s, me) && Sent(t, !me) == Sent(s, !me)
  {
  }

  lemma TimeOutStep(s: State, me: bool, y: Sid)
    requires Enabled(s, me, TimeOut(y))
    ensures
      var t, e := Step(s, me, TimeOut(y)), At(s, me);
      && At(t, me) == WithConn(e, y, e.conns[y].(finWait := true)) && At(t, !me) == At(s, !me)
      && Sent(t, me) == Sent(s, me) && Sent(t, !me) == Sent(s, !me)
  {
  }

  // ---------- when the number is not free ----------

  /** The stream that has the number the generator gives next. */
  predicate Taken(s: State, me: bool, y: Sid) {
    Alive(s, y) && NumberOf(y) == NumberOf(Sid(me, At(s, me).opens + 1))
  }

  lemma TakenIsMine(s: Good, me: bool, y: Sid)
    requires Taken(s, me, y)
    ensures y.left == me && y in At(s, me).conns && y.n <= At(s, me).opens
    ensures At(s, me).conns[y].seqno == NumberOf(y)
  {
    var n := Sid(me, At(s, me).opens + 1);
    if y.left != me {
      Parity(y, n);
    } else {
      AliveWasOpened(s, me, y);
      MineIn(s, me);
      assert y == Sid(me, y.n);
    }
  }

  /** Where the peer does not keep the taken stream it has nothing under its number. */
  lemma PeerHasNone(s: Good, me: bool, y: Sid)
    requires Taken(s, me, y)
    ensures NumberOf(y) !in At(s, !me).dials
    ensures
      var x := At(s, !me);
      if Kept(x, y) then NumberOf(y) in x.accepts && x.accepts[NumberOf(y)] == y else NumberOf(y) !in x.accepts
  {
    TakenIsMine(s, me, y);
    MineIn(s, !me);
    var k, x := NumberOf(y), At(s, !me);
    if k in x.dials {
      Parity(x.dials[k], y);
    }
    if k in x.accepts {
      KeptIsAlive(s, !me, x.accepts[k]);
      KeptAlone(s, !me, y);
    }
  }

  /** The frames on their way to a side carry the numbers of their streams, and only y has its number. */
  lemma FramesAreNumbered(s: Good, me: bool)
    ensures forall f :: f in Sent(s, !me) ==> f.seqno == NumberOf(f.sid)
  {
    MineIn(s, me);
    forall f | f in Sent(s, !me) ensures f.seqno == NumberOf(f.sid) {
      var i :| 0 <= i < |Sent(s, !me)| && Sent(s, !me)[i] == f;
      assert FrameOk(Sent(s, !me)[i], At(s, !me));
    }
  }

  lemma OthersDiffer(s: Good, me: bool, y: Sid)
    requires Taken(s, me, y) && !On(Sent(s, !me), y)
    ensures forall f :: f in Sent(s, !me) ==> f.seqno != NumberOf(y)
  {
    FramesAreNumbered(s, me);
    forall f | f in Sent(s, !me) ensures f.seqno != NumberOf(y) {
      var i :| 0 <= i < |Sent(s, !me)| && Sent(s, !me)[i] == f;
      assert On(Sent(s, !me), f.sid);
      SameNumberSame(s, f.sid, y);
    }
  }

  lemma SameNumberSame(s: Good, a: Sid, b: Sid)
    requires Alive(s, a) && Alive(s, b)
    ensures NumberOf(a) == NumberOf(b) ==> a == b
  {
  }

  /** A stream that the peer has forgotten, and of which nothing is on its way, is closed here on both sides. */
  lemma ForgottenThere(s: Good, me: bool, y: Sid)
    requires y in At(s, me).conns && y in At(s, !me).conns && At(s, !me).conns[y].forgotten && !On(Sent(s, !me), y)
    ensures At(s, me).conns[y].finSent && At(s, me).conns[y].finWait
  {
    MineIn(s, me);
    MineIn(s, !me);
    MyLinks(s, me);
    assert Staged(At(s, !me).conns[y]);
    FinIsOn(Sent(s, !me), y);
  }

  lemma FinIsOn(w: seq<Frame>, sid: Sid)
    ensures FinOn(w, sid) ==> On(w, sid)
  {
  }

  /** With nothing on its way to the peer. */
  lemma TakenMisroutes(s: Good, me: bool, y: Sid)
    requires Taken(s, me, y) && Sent(s, me) == []
    ensures CanMisroute(Step(s, me, Open))
  {
    if On(Sent(s, !me), y) {
      TakenComesHere(s, me, y);
    } else if Kept(At(s, !me), y) {
      TakenThere(s, me, y);
    } else if y !in At(s, !me).conns && (y in At(s, me).conns ==> !At(s, me).conns[y].finSent) {
      TakenHere(s, me, y);
    } else {
      FinishedHere(s, me, y);
    }
  }

  lemma TakenComesHere(s: Good, me: bool, y: Sid)
    requires Taken(s, me, y) && Sent(s, me) == [] && On(Sent(s, !me), y)
    ensures CanMisroute(Step(s, me, Open))
  {
    TakenIsMine(s, me, y);
    FramesAreNumbered(s, me);
    NewIsUnknown(s, me);
    OpenStep(s, me);
    TakenOnTheWay(Step(s, me, Open), me, y, Sid(me, At(s, me).opens + 1));
  }

  lemma TakenThere(s: Good, me: bool, y: Sid)
    requires Taken(s, me, y) && Sent(s, me) == [] && Kept(At(s, !me), y)
    ensures CanMisroute(Step(s, me, Open))
  {
    TakenIsMine(s, me, y);
    PeerHasNone(s, me, y);
    NewIsUnknown(s, me);
    OpenStep(s, me);
    TakenAtPeer(Step(s, me, Open), me, y, Sid(me, At(s, me).opens + 1));
  }

  lemma TakenHere(s: Good, me: bool, y: Sid)
    requires Taken(s, me, y) && Sent(s, me) == [] && !Kept(At(s, !me), y) && y !in At(s, !me).conns
    requires y in At(s, me).conns ==> !At(s, me).conns[y].finSent
    ensures CanMisroute(Step(s, me, Open))
  {
    TakenIsMine(s, me, y);
    PeerHasNone(s, me, y);
    NewIsUnknown(s, me);
    OpenStep(s, me);
    UnfinishedHere(Step(s, me, Open), me, y, Sid(me, At(s, me).opens + 1));
  }

  lemma OpenStep(s: State, me: bool)
    ensures
      var t := Step(s, me, Open);
      && At(t, me) == Opened(At(s, me), me) && At(t, !me) == At(s, !me)
      && Sent(t, me) == Sent(s, me) && Sent(t, !me) == Sent(s, !me)
  {
  }

  lemma NewIsUnknown(s: Good, me: bool)
    ensures
      var n := Sid(me, At(s, me).opens + 1);
      n !in At(s, me).conns && n !in At(s, !me).conns
  {
    MineIn(s, me);
  }

  /** y is finished here, by the peer or, since the peer never learned of it, by the end of the wait. */
  lemma FinishedHere(s: Good, me: bool, y: Sid)
    requires Taken(s, me, y) && Sent(s, me) == [] && !On(Sent(s, !me), y) && !Kept(At(s, !me), y)
    requires y in At(s, !me).conns || (y in At(s, me).conns && At(s, me).conns[y].finSent)
    ensures CanMisroute(Step(s, me, Open))
  {
    TakenIsMine(s, me, y);
    PeerHasNone(s, me, y);
    OthersDiffer(s, me, y);
    NotOnlyOnTheWay(s, me, y);
    if y in At(s, !me).conns {
      ForgottenThere(s, me, y);
    }
    OpensAndEnds(s, me, y);
  }

  lemma OpensAndEnds(s: State, me: bool, y: Sid)
    requires Taken(s, me, y) && Sent(s, me) == [] && y.left == me && y.n <= At(s, me).opens
    requires Kept(At(s, me), y) && At(s, me).conns[y].seqno == NumberOf(y) && At(s, me).conns[y].finSent
    requires At(s, me).conns[y].finWait || y !in At(s, !me).conns
    requires var x := At(s, !me); NumberOf(y) !in x.dials && NumberOf(y) !in x.accepts
    requires forall f :: f in Sent(s, !me) ==> f.seqno != NumberOf(y)
    ensures CanMisroute(Step(s, me, Open))
  {
    OpenStep(s, me);
    WaitEnds(Step(s, me, Open), me, y, Sid(me, At(s, me).opens + 1));
  }

  lemma WaitEnds(t: State, me: bool, y: Sid, n: Sid)
    requires Sent(t, me) == [] && n != y && NumberOf(n) == NumberOf(y)
    requires n in At(t, me).conns && At(t, me).conns[n] == NewConn(NumberOf(y))
    requires y in At(t, me).conns && At(t, me).conns[y].seqno == NumberOf(y)
    requires At(t, me).conns[y].finSent && !At(t, me).conns[y].forgotten
    requires At(t, me).conns[y].finWait || y !in At(t, !me).conns
    requires var x := At(t, !me); NumberOf(y) !in x.dials && NumberOf(y) !in x.accepts
    requires forall f :: f in Sent(t, !me) ==> f.seqno != NumberOf(y)
    ensures CanMisroute(t)
  {
    if At(t, me).conns[y].finWait {
      ForgetsOther(t, me, y, n);
    } else {
      TimeOutStep(t, me, y);
      ForgetsOther(Step(t, me, TimeOut(y)), me, y, n);
      Sooner(t, me, TimeOut(y));
    }
  }

  // ---------- whatever is on its way to the peer ----------

  /** The peer receives the next frame before or after this side opens a stream: it makes no difference. */
  lemma OpenCommutes(s: State, me: bool)
    requires Sent(s, me) != []
    ensures Step(Step(s, me, Open), !me, Receive) == Step(Step(s, !me, Receive), me, Open)
  {
  }

  /** A taken number stays taken when the peer receives. */
  lemma StaysTaken(s: Good, me: bool, y: Sid)
    requires Taken(s, me, y) && Sent(s, me) != []
    ensures Taken(Step(s, !me, Receive), me, y)
  {
    ReceiveStep(s, !me);
    NotOnlyOnTheWay(s, me, y);
    if Kept(At(s, !me), y) {
      PeerKeeps(s, me, y);
    }
    TakenBefore(s, Step(s, !me, Receive), me, y);
  }

  lemma NotOnlyOnTheWay(s: Good, me: bool, y: Sid)
    requires Taken(s, me, y)
    ensures Kept(At(s, me), y) || Kept(At(s, !me), y) || On(Sent(s, !me), y)
  {
    TakenIsMine(s, me, y);
    if On(Sent(s, me), y) {
      OnlyOnTheWay(s, me, y);
    }
  }

  lemma TakenBefore(s: State, t: State, me: bool, y: Sid)
    requires Taken(s, me, y) && At(t, me).opens == At(s, me).opens
    requires Kept(At(t, me), y) || Kept(At(t, !me), y) || On(Sent(t, !me), y)
    ensures Taken(t, me, y)
  {
  }

  lemma PeerKeeps(s: Good, me: bool, y: Sid)
    requires Kept(At(s, !me), y) && Sent(s, me) != []
    ensures Kept(Deliver(At(s, !me), Sent(s, me)[0]), y)
  {
    FoundRight(s, !me);
    DeliverOnlyAdds(At(s, !me), Sent(s, me)[0]);
  }

  /** No stream is alive only by a frame on its way to the peer. */
  lemma OnlyOnTheWay(s: Good, me: bool, y: Sid)
    requires On(Sent(s, me), y) && y in At(s, me).conns
    ensures Kept(At(s, me), y) || Kept(At(s, !me), y)
  {
    MineIn(s, me);
    MineIn(s, !me);
    MyLinks(s, me);
    assert Staged(At(s, me).conns[y]);
    if y in At(s, !me).conns {
      assert Staged(At(s, !me).conns[y]);
    }
  }

  lemma {:induction false} NotFreeMisroutes(s: Good, me: bool, y: Sid)
    requires Taken(s, me, y)
    ensures CanMisroute(Step(s, me, Open))
    decreases |Sent(s, me)|
  {
    if Sent(s, me) == [] {
      TakenMisroutes(s, me, y);
    } else {
      StaysTaken(s, me, y);
      ReceiveStep(s, !me);
      var t := StepKeeps(s, !me, Receive);
      NotFreeMisroutes(t, me, y);
      OpenCommutes(s, me);
      Sooner(Step(s, me, Open), !me, Receive);
    }
  }

  /**
   The exact condition for giving a number: it is free if and only if, however the two sides go on after the stream
   is opened, no frame is misrouted.
   */
  lemma FreeIffNeverMisrouted(s: Good, me: bool)
    ensures NumberIsFree(s, me) <==> !CanMisroute(Step(s, me, Open))
  {
    if NumberIsFree(s, me) {
      var t := StepKeeps(s, me, Open);
      GoodCannot(t);
    } else {
      var y := TakenBy(s, me);
      NotFreeMisroutes(s, me, y);
    }
  }

  lemma GoodCannot(s: Good)
    ensures !CanMisroute(s)
  {
    forall acts, side | CarefulFrom(s, acts) ensures !Misrouted(RunFrom(s, acts), side) {
      GoodNeverMisroutes(s, acts, side);
    }
  }

  lemma TakenBy(s: State, me: bool) returns (y: Sid)
    requires !NumberIsFree(s, me)
    ensures Taken(s, me, y)
  {
    y :| Alive(s, y) && NumberOf(y) == NumberOf(Sid(me, At(s, me).opens + 1));
  }

  // ---------- a run that comes to it ----------

  function Opens(n: nat): (acts: seq<(bool, Action)>)
    ensures |acts| == n
  {
    if n == 0 then [] else Opens(n - 1) + [(true, Open)]
  }

  /** n streams opened by the left side and nothing else. */
  lemma {:induction false} ManyOpens(n: nat)
    requires n <= 0x8000_0000
    ensures
      var s := Run(Opens(n));
      && Careful(Opens(n)) && s.l.opens == n && s.r.opens == 0
      && (n >= 1 ==> Kept(s.l, Sid(true, 1)))
  {
    if n > 0 {
      ManyOpens(n - 1);
      assert Opens(n)[..n - 1] == Opens(n - 1) && Opens(n)[n - 1] == (true, Open);
      FreshUntilWrap(Opens(n - 1), true);
      OneMoreOpen(Run(Opens(n - 1)));
    }
  }

  lemma OneMoreOpen(s: State)
    ensures
      var t := Step(s, true, Open);
      && t.l.opens == s.l.opens + 1 && t.r == s.r
      && ((s.l.opens == 0 || Kept(s.l, Sid(true, 1))) ==> Kept(t.l, Sid(true, 1)))
  {
  }

  lemma {:induction false} RunOn(before: seq<(bool, Action)>, after: seq<(bool, Action)>)
    ensures Run(before + after) == RunFrom(Run(before), after)
    decreases |after|
  {
    if after == [] {
      assert before + after == before;
    } else {
      var more := before + [after[0]];
      assert more[..|before|] == before;
      RunOn(more, after[1..]);
      assert more + after[1..] == before + after;
    }
  }

  /** A run of the code, from the start, that misroutes a frame: the left side opens 2^31 streams and one more while
      the first is still there. */
  lemma WrapMisroutes() returns (acts: seq<(bool, Action)>, side: bool)
    ensures Misrouted(Run(acts), side)
  {
    WrapCanMisroute();
    var before := Opens(0x8000_0000) + [(true, Open)];
    var rest, end :| CarefulFrom(Run(before), rest) && Misrouted(RunFrom(Run(before), rest), end);
    RunOn(before, rest);
    acts, side := before + rest, end;
  }

  lemma WrapCanMisroute()
    ensures CanMisroute(Run(Opens(0x8000_0000) + [(true, Open)]))
  {
    ManyOpens(0x8000_0000);
    var s := RunKeeps(Opens(0x8000_0000));
    FirstIsTaken(s);
    NotFreeMisroutes(s, true, Sid(true, 1));
    LastOpen(Opens(0x8000_0000));
  }

  lemma FirstIsTaken(s: State)
    requires s.l.opens == 0x8000_0000 && Kept(s.l, Sid(true, 1))
    ensures Taken(s, true, Sid(true, 1))
  {
    KeptIsAlive(s, true, Sid(true, 1));
    assert NumberOf(Sid(true, 0x8000_0001)) == 2 == NumberOf(Sid(true, 1));
  }

  lemma LastOpen(acts: seq<(bool, Action)>)
    ensures Run(acts + [(true, Open)]) == Step(Run(acts), true, Open)
  {
    assert (acts + [(true, Open)])[..|acts|] == acts;
  }
}
