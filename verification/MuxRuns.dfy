/** Every action keeps the invariant, in whatever order the two sessions act. */
module MuxRuns {
  import opened Bytes
  import opened MuxProtocol
  import opened MuxSafety

  type Good = s: State | Inv(s) ghost witness (InitOk(); Init())

  lemma InitOk()
    ensures Inv(Init())
  {
    var e := Init().l;
    assert Half([], e, e, true) && Half([], e, e, false);
  }

  /** The two halves of the invariant, seen from one side. */
  lemma Mine(s: Good, me: bool)
    ensures Half(Sent(s, !me), At(s, !me), At(s, me), me)
    ensures Half(Sent(s, me), At(s, me), At(s, !me), !me)
  {
  }

  /** What side `me` keeps about the closing of streams. */
  ghost predicate LinkedFrom(s: State, me: bool) {
    Linked(Sent(s, !me), Sent(s, me), At(s, !me), At(s, me))
  }

  lemma MyLinks(s: Good, me: bool)
    ensures LinkedFrom(s, me) && LinkedFrom(s, !me)
  {
  }

  lemma MineIn(s: Good, me: bool)
    ensures Half(Sent(s, !me), At(s, !me), At(s, me), me)
    ensures Numbered(At(s, !me), !me, At(s, me).opens)
  {
  }

  lemma ConnOk(s: Good, me: bool, sid: Sid)
    requires sid in At(s, me).conns
    ensures Staged(At(s, me).conns[sid]) && At(s, me).conns[sid].seqno == NumberOf(sid)
  {
    Mine(s, me);
  }

  lemma Join(t: State, me: bool) returns (g: Good)
    requires Half(Sent(t, !me), At(t, !me), At(t, me), me)
    requires Half(Sent(t, me), At(t, me), At(t, !me), !me)
    requires LinkedFrom(t, me) && LinkedFrom(t, !me)
    requires Unique(t)
    ensures g == t
  {
    g := t;
  }

  lemma UniqueStays(s: State, t: State)
    requires Unique(s) && forall sid :: Alive(t, sid) ==> Alive(s, sid)
    ensures Unique(t)
  {
  }

  /** Only one of two streams with the same number is kept. */
  lemma KeptAlone(s: Good, me: bool, sid: Sid)
    requires Alive(s, sid)
    ensures forall y :: Kept(At(s, me), y) && NumberOf(y) == NumberOf(sid) ==> y == sid
  {
    forall y | Kept(At(s, me), y) && NumberOf(y) == NumberOf(sid) ensures y == sid {
      assert Alive(s, y);
    }
  }

  /** A connection changes without coming to life. */
  lemma UniquePut(s: State, me: bool, sid: Sid, d: Conn)
    requires Unique(s) && (d.forgotten || Alive(s, sid))
    ensures Unique(WithEnd(s, me, WithConn(At(s, me), sid, d)))
  {
    UniqueStays(s, WithEnd(s, me, WithConn(At(s, me), sid, d)));
  }

  lemma UniqueSend(s: State, me: bool, f: Frame)
    requires Unique(s) && Alive(s, f.sid)
    ensures Unique(WithSent(s, me, Sent(s, me) + [f]))
  {
    var t := WithSent(s, me, Sent(s, me) + [f]);
    forall sid | Alive(t, sid) ensures Alive(s, sid) {
      OnAppend(Sent(s, me), f, sid);
    }
    UniqueStays(s, t);
  }

  lemma UniqueTail(s: State, me: bool)
    requires Unique(s) && Sent(s, me) != []
    ensures Unique(WithSent(s, me, Sent(s, me)[1..]))
  {
    var t := WithSent(s, me, Sent(s, me)[1..]);
    forall sid | Alive(t, sid) ensures Alive(s, sid) {
      OnTail(Sent(s, me), sid);
    }
    UniqueStays(s, t);
  }

  lemma UniqueMaps(s: State, me: bool, e: End)
    requires Unique(s) && e.conns == At(s, me).conns
    ensures Unique(WithEnd(s, me, e))
  {
    UniqueStays(s, WithEnd(s, me, e));
  }

  lemma KeptIsAlive(s: State, me: bool, sid: Sid)
    requires Kept(At(s, me), sid)
    ensures Alive(s, sid)
  {
  }

  lemma KeptDiffer(s: State, me: bool)
    requires NumberIsFree(s, me)
    ensures NextIsNew(At(s, me), me)
  {
    forall sid | Kept(At(s, me), sid) ensures NumberOf(sid) != NumberOf(Sid(me, At(s, me).opens + 1)) {
      KeptIsAlive(s, me, sid);
    }
  }

  lemma OpenHere(s: Good, me: bool)
    requires NumberIsFree(s, me)
    ensures Half(Sent(s, !me), At(s, !me), Opened(At(s, me), me), me)
  {
    MineIn(s, me);
    KeptDiffer(s, me);
    HalfOpen(Sent(s, !me), At(s, !me), At(s, me), me);
  }

  lemma OpenThere(s: Good, me: bool)
    ensures Half(Sent(s, me), Opened(At(s, me), me), At(s, !me), !me)
  {
    Mine(s, me);
    HalfPeerOpen(Sent(s, me), At(s, me), At(s, !me), !me);
  }

  lemma OpenLinks(s: Good, me: bool)
    ensures
      var t := WithEnd(s, me, Opened(At(s, me), me));
      LinkedFrom(t, me) && LinkedFrom(t, !me)
  {
    MyLinks(s, me);
    MineIn(s, me);
    var e, x := At(s, me), At(s, !me);
    LinkedHere(Sent(s, !me), Sent(s, me), x, e, Opened(e, me));
    LinkedThere(Sent(s, me), Sent(s, !me), e, x, Opened(e, me));
  }

  lemma OpenKeeps(s: Good, me: bool) returns (t: Good)
    requires NumberIsFree(s, me)
    ensures t == WithEnd(s, me, Opened(At(s, me), me))
  {
    OpenHere(s, me);
    OpenThere(s, me);
    OpenLinks(s, me);
    UniqueOpen(s, me);
    t := Join(WithEnd(s, me, Opened(At(s, me), me)), me);
  }

  lemma UniqueOpen(s: State, me: bool)
    requires Unique(s) && NumberIsFree(s, me)
    ensures Unique(WithEnd(s, me, Opened(At(s, me), me)))
  {
    var t, sid := WithEnd(s, me, Opened(At(s, me), me)), Sid(me, At(s, me).opens + 1);
    assert forall y :: Alive(t, y) ==> y == sid || Alive(s, y);
  }

  lemma WriteKeeps(s: Good, me: bool, sid: Sid, p: bytes) returns (t: Good)
    requires Enabled(s, me, Write(sid, p))
    ensures t == Apply(s, me, Write(sid, p))
  {
    ConnOk(s, me, sid);
    var e, x := At(s, me), At(s, !me);
    var c := e.conns[sid];
    var d, f := c.(written := c.written + p), Frame(false, c.seqno, p, sid);
    t := SendKeeps(s, me, sid, d, f);
  }

  lemma SendFinKeeps(s: Good, me: bool, sid: Sid) returns (t: Good)
    requires Enabled(s, me, SendFin(sid))
    ensures t == Apply(s, me, SendFin(sid))
  {
    ConnOk(s, me, sid);
    var c := At(s, me).conns[sid];
    var d, f := c.(finSent := true), Frame(true, c.seqno, [], sid);
    assert c.written + f.data == c.written;
    t := SendKeeps(s, me, sid, d, f);
  }

  /** One lock holds the update of the connection and the frame it sends together. */
  lemma SendKeeps(s: Good, me: bool, sid: Sid, d: Conn, f: Frame) returns (t: Good)
    requires Kept(At(s, me), sid) && f.sid == sid && f.seqno == NumberOf(sid)
    requires !At(s, me).conns[sid].finSent && Staged(d)
    requires var c := At(s, me).conns[sid];
      && d == c.(written := c.written + f.data, finSent := f.fin)
      && (f.fin ==> f.data == [])
    ensures t == WithSent(WithEnd(s, me, WithConn(At(s, me), sid, d)), me, Sent(s, me) + [f])
  {
    Mine(s, me);
    var e, x := At(s, me), At(s, !me);
    HalfPut(Sent(s, !me), x, e, me, sid, d);
    HalfSend(Sent(s, me), e, x, !me, f, d);
    KeptIsAlive(s, me, sid);
    var u := WithEnd(s, me, WithConn(e, sid, d));
    MyLinks(s, me);
    LinkedSendHere(Sent(s, !me), Sent(s, me), x, e, f, d);
    LinkedSendThere(Sent(s, me), Sent(s, !me), e, x, f, d);
    UniquePut(s, me, sid, d);
    assert Alive(u, sid);
    UniqueSend(u, me, f);
    t := Join(WithSent(u, me, Sent(s, me) + [f]), me);
  }

  lemma StartCloseKeeps(s: Good, me: bool, sid: Sid) returns (t: Good)
    requires Enabled(s, me, StartClose(sid))
    ensures t == Apply(s, me, StartClose(sid))
  {
    ConnOk(s, me, sid);
    t := PutKeeps(s, me, sid, At(s, me).conns[sid].(fin := true));
  }

  lemma ReadKeeps(s: Good, me: bool, sid: Sid, size: nat) returns (t: Good)
    requires Enabled(s, me, Read(sid, size))
    ensures t == Apply(s, me, Read(sid, size))
  {
    ConnOk(s, me, sid);
    ReadKeepsReceived(At(s, me).conns[sid], size);
    t := PutKeeps(s, me, sid, ReadConn(At(s, me).conns[sid], size));
  }

  /** A connection changes at one side, but does not close further. */
  lemma PutLinks(s: Good, me: bool, sid: Sid, e': End)
    requires sid in At(s, me).conns && sid in e'.conns && e'.conns == At(s, me).conns[sid := e'.conns[sid]]
    requires ClosesNoMore(At(s, me).conns[sid], e'.conns[sid])
    ensures LinkedFrom(WithEnd(s, me, e'), me) && LinkedFrom(WithEnd(s, me, e'), !me)
  {
    MyLinks(s, me);
    LinkedHere(Sent(s, !me), Sent(s, me), At(s, !me), At(s, me), e');
    LinkedThere(Sent(s, me), Sent(s, !me), At(s, me), At(s, !me), e');
  }

  /** A step within one connection. */
  lemma PutKeeps(s: Good, me: bool, sid: Sid, d: Conn) returns (t: Good)
    requires sid in At(s, me).conns && Staged(d)
    requires var c := At(s, me).conns[sid];
      && d.seqno == c.seqno && d.finSent == c.finSent && d.finWait == c.finWait && d.forgotten == c.forgotten
      && d.written == c.written && d.read + d.buf + Concat(d.inbound) == ReceivedBy(At(s, me), sid)
    ensures t == WithEnd(s, me, WithConn(At(s, me), sid, d))
  {
    Mine(s, me);
    var e, x := At(s, me), At(s, !me);
    HalfPut(Sent(s, !me), x, e, me, sid, d);
    HalfPeer(Sent(s, me), e, x, !me, sid, d);
    PutLinks(s, me, sid, WithConn(e, sid, d));
    UniquePut(s, me, sid, d);
    t := Join(WithEnd(s, me, WithConn(e, sid, d)), me);
  }

  lemma ForgetKeeps(s: Good, me: bool, sid: Sid) returns (t: Good)
    requires Enabled(s, me, Forget(sid))
    ensures t == Apply(s, me, Forget(sid))
  {
    Mine(s, me);
    var e, x := At(s, me), At(s, !me);
    var d := e.conns[sid].(forgotten := true);
    KeptIsAlive(s, me, sid);
    KeptAlone(s, me, sid);
    HalfForget(Sent(s, !me), x, e, me, sid);
    HalfPeer(Sent(s, me), e, x, !me, sid, d);
    HalfPeerMaps(Sent(s, me), WithConn(e, sid, d), x, !me, Forgotten(e, sid));
    PutLinks(s, me, sid, Forgotten(e, sid));
    UniquePut(s, me, sid, d);
    UniqueMaps(WithEnd(s, me, WithConn(e, sid, d)), me, Forgotten(e, sid));
    t := Join(WithEnd(s, me, Forgotten(e, sid)), me);
  }

  lemma TimeOutKeeps(s: Good, me: bool, sid: Sid) returns (t: Good)
    requires Enabled(s, me, TimeOut(sid))
    ensures t == Apply(s, me, TimeOut(sid))
  {
    Mine(s, me);
    MyLinks(s, me);
    ConnOk(s, me, sid);
    var e, x, d := At(s, me), At(s, !me), At(s, me).conns[sid].(finWait := true);
    HalfTimeOut(Sent(s, !me), x, e, me, sid);
    LinkedTimeOut(Sent(s, !me), Sent(s, me), x, e, sid);
    HalfPeer(Sent(s, me), e, x, !me, sid, d);
    LinkedFin(Sent(s, me), Sent(s, !me), e, x, sid, d);
    UniquePut(s, me, sid, d);
    t := Join(WithEnd(s, me, WithConn(e, sid, d)), me);
  }

  /** The lookup by number finds the stream of the frame, or no stream when that stream has no connection here. */
  lemma FoundRight(s: Good, me: bool)
    requires Sent(s, !me) != []
    ensures
      var f, e := Sent(s, !me)[0], At(s, me);
      && Found(e, f.seqno) == (if Kept(e, f.sid) then [f.sid] else [])
      && (!Kept(e, f.sid) ==> f.sid !in e.conns && f.sid.left != me)
      && Alive(s, f.sid) && f.seqno == NumberOf(f.sid)
  {
    Mine(s, me);
    var w := Sent(s, !me);
    assert FrameOk(w[0], At(s, !me));
    assert On(w, w[0].sid);
    KeptAlone(s, me, w[0].sid);
    LookupIsIdentity(w, At(s, !me), At(s, me), me);
  }

  function Arrived(s: State, me: bool): End
    requires Sent(s, !me) != []
  {
    var e, f := At(s, me), Sent(s, !me)[0];
    if f.sid in e.conns then
      if f.fin then Finished(e, f.sid)
      else
        var c := e.conns[f.sid];
        WithConn(e, f.sid, c.(inbound := c.inbound + [f.data]))
    else if f.fin then e
    else Accepted(e, f)
  }

  lemma DeliverIsArrived(s: Good, me: bool)
    requires Sent(s, !me) != []
    ensures Deliver(At(s, me), Sent(s, !me)[0]) == Arrived(s, me)
  {
    FoundRight(s, me);
  }

  lemma ArrivedHere(s: Good, me: bool)
    requires Sent(s, !me) != []
    ensures Half(Sent(s, !me)[1..], At(s, !me), Arrived(s, me), me)
  {
    FoundRight(s, me);
    Mine(s, me);
    var w, x, e := Sent(s, !me), At(s, !me), At(s, me);
    if w[0].sid in e.conns {
      if w[0].fin { HalfFin(w, x, e, me); } else { HalfData(w, x, e, me); }
    } else if w[0].fin {
      HalfLoneFin(w, x, e, me);
    } else {
      KeptAlone(s, me, w[0].sid);
      HalfAccept(w, x, e, me);
    }
  }

  lemma ArrivedChanges(s: State, me: bool)
    requires Sent(s, !me) != []
    ensures
      var e, sid, e' := At(s, me), Sent(s, !me)[0].sid, Arrived(s, me);
      && e'.opens == e.opens
      && if sid in e'.conns then
           && e'.conns == e.conns[sid := e'.conns[sid]]
           && e'.conns[sid].written == WrittenBy(e, sid)
           && (sid in e.conns ==>
                 && e'.conns[sid].finSent == e.conns[sid].finSent
                 && e'.conns[sid].forgotten == e.conns[sid].forgotten)
         else e' == e
  {
  }

  /** What is different about the stream of the arriving frame leaves the other side's half alone. */
  lemma ArrivedThere(s: Good, me: bool)
    requires Sent(s, !me) != []
    ensures Half(Sent(s, me), Arrived(s, me), At(s, !me), !me)
  {
    Mine(s, me);
    var e, x, f := At(s, me), At(s, !me), Sent(s, !me)[0];
    var e' := Arrived(s, me);
    ArrivedChanges(s, me);
    if f.sid in e'.conns {
      HalfPeer(Sent(s, me), e, x, !me, f.sid, e'.conns[f.sid]);
      HalfPeerMaps(Sent(s, me), WithConn(e, f.sid, e'.conns[f.sid]), x, !me, e');
    }
  }

  lemma ArrivedUnique(s: Good, me: bool)
    requires Sent(s, !me) != []
    ensures Unique(WithSent(WithEnd(s, me, Arrived(s, me)), !me, Sent(s, !me)[1..]))
  {
    FoundRight(s, me);
    ArrivedChanges(s, me);
    var e, f, e' := At(s, me), Sent(s, !me)[0], Arrived(s, me);
    if f.sid in e'.conns {
      UniquePut(s, me, f.sid, e'.conns[f.sid]);
      UniqueMaps(WithEnd(s, me, WithConn(e, f.sid, e'.conns[f.sid])), me, e');
    }
    UniqueTail(WithEnd(s, me, e'), !me);
  }

  lemma ArrivedLinks(s: Good, me: bool)
    requires Sent(s, !me) != []
    ensures
      var t := WithSent(WithEnd(s, me, Arrived(s, me)), !me, Sent(s, !me)[1..]);
      LinkedFrom(t, me) && LinkedFrom(t, !me)
  {
    MineIn(s, me);
    MyLinks(s, me);
    ArrivedCloses(s, me);
    var e, x, e' := At(s, me), At(s, !me), Arrived(s, me);
    LinkedReceiveHere(Sent(s, !me), Sent(s, me), x, e, e');
    LinkedReceiveThere(Sent(s, me), Sent(s, !me), e, x, e');
  }

  lemma ArrivedCloses(s: State, me: bool)
    requires Sent(s, !me) != []
    ensures
      var e, e', f := At(s, me), Arrived(s, me), Sent(s, !me)[0];
      && (forall sid :: sid in e.conns ==> sid in e'.conns)
      && (forall sid :: sid in e'.conns ==>
            if sid == f.sid then
              && (e'.conns[sid].finWait <==> (f.fin || (sid in e.conns && e.conns[sid].finWait)))
              && e'.conns[sid].finSent == (sid in e.conns && e.conns[sid].finSent)
            else sid in e.conns && e'.conns[sid] == e.conns[sid])
  {
  }

  lemma ReceiveKeeps(s: Good, me: bool) returns (t: Good)
    requires Enabled(s, me, Receive)
    ensures t == Apply(s, me, Receive)
  {
    DeliverIsArrived(s, me);
    ArrivedHere(s, me);
    ArrivedThere(s, me);
    ArrivedUnique(s, me);
    ArrivedLinks(s, me);
    t := Join(WithSent(WithEnd(s, me, Arrived(s, me)), !me, Sent(s, !me)[1..]), me);
  }

  lemma OpenIsOpened(s: State, me: bool)
    ensures Apply(s, me, Open) == WithEnd(s, me, Opened(At(s, me), me))
  {
  }

  lemma StepKeeps(s: Good, me: bool, a: Action) returns (t: Good)
    requires a.Open? ==> NumberIsFree(s, me)
    ensures t == Step(s, me, a)
  {
    t := s;
    if Enabled(s, me, a) {
      match a
      case Open =>
        OpenIsOpened(s, me);
        t := OpenKeeps(s, me);
      case Write(sid, p) => t := WriteKeeps(s, me, sid, p);
      case StartClose(sid) => t := StartCloseKeeps(s, me, sid);
      case SendFin(sid) => t := SendFinKeeps(s, me, sid);
      case Forget(sid) => t := ForgetKeeps(s, me, sid);
      case TimeOut(sid) => t := TimeOutKeeps(s, me, sid);
      case Receive => t := ReceiveKeeps(s, me);
      case Read(sid, n) => t := ReadKeeps(s, me, sid, n);
    }
  }

  lemma {:induction false} RunKeeps(acts: seq<(bool, Action)>) returns (t: Good)
    requires Careful(acts)
    ensures t == Run(acts)
  {
    if acts == [] {
      InitOk();
      t := Init();
    } else {
      var u := RunKeeps(acts[..|acts| - 1]);
      t := StepKeeps(u, acts[|acts| - 1].0, acts[|acts| - 1].1);
    }
  }
}
