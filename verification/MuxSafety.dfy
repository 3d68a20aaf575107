/** What the two sessions keep in every run. */
module MuxSafety {
  import opened Bytes
  import opened MuxProtocol

  // ---------- the invariant ----------

  /** The connections of a side are numbered by their identity, and every stream it opened has one. */
  ghost predicate Numbered(e: End, me: bool, peerOpens: nat) {
    && (forall sid :: sid in e.conns ==>
          e.conns[sid].seqno == NumberOf(sid) && 1 <= sid.n <= if sid.left == me then e.opens else peerOpens)
    && (forall n {:trigger Sid(me, n)} :: 1 <= n <= e.opens ==> Sid(me, n) in e.conns)
    && (forall sid :: sid in e.conns ==> Staged(e.conns[sid]))
  }

  /** The stages of closing come in order. */
  predicate Staged(c: Conn) {
    && (c.finSent ==> c.fin)
    && (c.finWait ==> c.fin)
    && (c.forgotten ==> c.finSent && c.finWait)
  }

  /** `dials` holds the streams this side opened, `accepts` those of the other, both exactly until forgotten. */
  ghost predicate Mapped(e: End, me: bool) {
    && (forall k :: k in e.dials ==> NumberOf(e.dials[k]) == k && e.dials[k].left == me && Kept(e, e.dials[k]))
    && (forall k :: k in e.accepts ==> NumberOf(e.accepts[k]) == k && e.accepts[k].left != me && Kept(e, e.accepts[k]))
    && (forall sid :: Kept(e, sid) ==>
          var m := if sid.left == me then e.dials else e.accepts;
          NumberOf(sid) in m && m[NumberOf(sid)] == sid)
  }

  predicate Kept(e: End, sid: Sid) {
    sid in e.conns && !e.conns[sid].forgotten
  }

  /** Frames on their way from x to e: a FIN is the last frame of its stream, and after it has arrived none is left. */
  ghost predicate Ordered(w: seq<Frame>, x: End, e: End) {
    && (forall i :: 0 <= i < |w| ==> FrameOk(w[i], x))
    && (forall i, j :: 0 <= i < j < |w| ==> !(w[i].fin && w[j].sid == w[i].sid))
    && (forall sid :: sid in e.conns && e.conns[sid].finWait ==>
          (sid in x.conns ==> x.conns[sid].finSent) && !On(w, sid))
  }

  /** The FIN a side has sent is on its way, or nothing is any more and the other side has seen it. */
  ghost predicate FinSeen(w: seq<Frame>, x: End, e: End) {
    forall sid :: sid in x.conns && x.conns[sid].finSent ==>
      FinOn(w, sid) || (!On(w, sid) && (sid in e.conns ==> e.conns[sid].finWait))
  }

  predicate FinOn(w: seq<Frame>, sid: Sid) {
    exists i :: 0 <= i < |w| && w[i].sid == sid && w[i].fin
  }

  /** A stream whose wait has ended without the peer knowing it is closed and silent; v are the frames from e to x. */
  ghost predicate Unlearned(v: seq<Frame>, x: End, e: End) {
    forall sid :: sid in e.conns && e.conns[sid].finWait && sid !in x.conns ==> e.conns[sid].finSent && !On(v, sid)
  }

  predicate FrameOk(f: Frame, x: End) {
    && f.seqno == NumberOf(f.sid) && f.sid in x.conns
    && (f.fin ==> x.conns[f.sid].finSent && f.data == [])
  }

  /** How the closing of a stream on one side is known on the other; w are the frames from x to e, v those from e to x. */
  ghost predicate Linked(w: seq<Frame>, v: seq<Frame>, x: End, e: End) {
    FinSeen(w, x, e) && Unlearned(v, x, e)
  }

  function WrittenBy(x: End, sid: Sid): bytes {
    if sid in x.conns then x.conns[sid].written else []
  }

  /** All that has reached a connection: what was read, what is half read, what waits. */
  function ReceivedBy(e: End, sid: Sid): bytes {
    if sid in e.conns then e.conns[sid].read + e.conns[sid].buf + Concat(e.conns[sid].inbound) else []
  }

  /** The bytes of a stream on the wire. */
  function InFlight(w: seq<Frame>, sid: Sid): bytes {
    if w == [] then []
    else (if w[0].sid == sid then w[0].data else []) + InFlight(w[1..], sid)
  }

  ghost predicate Conserved(w: seq<Frame>, x: End, e: End) {
    forall sid {:trigger WrittenBy(x, sid)} {:trigger ReceivedBy(e, sid)} {:trigger InFlight(w, sid)} ::
      WrittenBy(x, sid) == ReceivedBy(e, sid) + InFlight(w, sid)
  }

  /** The connections for streams of the other side are the accepted ones, each accepted once. */
  ghost predicate AcceptedOnce(e: End, me: bool) {
    && (forall i, j :: 0 <= i < j < |e.accepted| ==> e.accepted[i] != e.accepted[j])
    && (forall i :: 0 <= i < |e.accepted| ==> e.accepted[i] in e.conns && e.accepted[i].left != me)
    && (forall sid :: sid in e.conns && sid.left != me ==> sid in e.accepted)
  }

  /** Two streams that are alive have different numbers. */
  ghost predicate Unique(s: State) {
    forall a, b :: Alive(s, a) && Alive(s, b) && NumberOf(a) == NumberOf(b) ==> a == b
  }

  /** What side `me` keeps, about itself and about the frames w on their way to it from x. */
  ghost predicate Half(w: seq<Frame>, x: End, e: End, me: bool) {
    && Numbered(e, me, x.opens)
    && Mapped(e, me)
    && Ordered(w, x, e)
    && Conserved(w, x, e)
    && AcceptedOnce(e, me)
    && !e.panicked
  }

  ghost predicate Inv(s: State) {
    && Half(s.rl, s.r, s.l, true) && Half(s.lr, s.l, s.r, false)
    && Linked(s.rl, s.lr, s.r, s.l) && Linked(s.lr, s.rl, s.l, s.r)
    && Unique(s)
  }

  // ---------- the wire ----------

  lemma {:induction false} InFlightAppend(w: seq<Frame>, f: Frame, sid: Sid)
    ensures InFlight(w + [f], sid) == InFlight(w, sid) + if f.sid == sid then f.data else []
  {
    if w == [] {
      assert w + [f] == [f];
    } else {
      InFlightAppend(w[1..], f, sid);
      assert (w + [f])[1..] == w[1..] + [f];
    }
  }

  lemma {:induction false} NothingInFlight(w: seq<Frame>, sid: Sid)
    requires !On(w, sid)
    ensures InFlight(w, sid) == []
  {
    if w != [] {
      assert w[0].sid != sid;
      assert forall i :: 0 <= i < |w[1..]| ==> w[1..][i] == w[i + 1];
      NothingInFlight(w[1..], sid);
    }
  }

  // ---------- looking up ----------

  /** The map lookup by number finds the stream of the frame, or, when the stream has no connection here, nothing. */
  lemma LookupIsIdentity(w: seq<Frame>, x: End, e: End, me: bool)
    requires Half(w, x, e, me) && Numbered(x, !me, e.opens) && w != []
    requires forall sid :: Kept(e, sid) && NumberOf(sid) == NumberOf(w[0].sid) ==> sid == w[0].sid
    ensures Found(e, w[0].seqno) == if Kept(e, w[0].sid) then [w[0].sid] else []
    ensures !Kept(e, w[0].sid) ==> w[0].sid !in e.conns && w[0].sid.left != me
  {
    var f := w[0];
    assert On(w, f.sid);
    assert FrameOk(f, x);
    if f.sid.left == me {
      assert f.sid == Sid(me, f.sid.n);
    }
  }

  // ---------- conservation, action by action ----------

  lemma ConservedSame(w: seq<Frame>, x: End, e: End, x': End, e': End)
    requires Conserved(w, x, e)
    requires forall sid :: WrittenBy(x', sid) == WrittenBy(x, sid) && ReceivedBy(e', sid) == ReceivedBy(e, sid)
    ensures Conserved(w, x', e')
  {
    forall sid ensures WrittenBy(x', sid) == ReceivedBy(e', sid) + InFlight(w, sid) {
      assert WrittenBy(x, sid) == ReceivedBy(e, sid) + InFlight(w, sid);
    }
  }

  /** A frame goes onto the wire with the bytes just written. */
  lemma ConservedSend(w: seq<Frame>, x: End, e: End, f: Frame, x': End)
    requires Conserved(w, x, e)
    requires forall sid :: WrittenBy(x', sid) == WrittenBy(x, sid) + if sid == f.sid then f.data else []
    ensures Conserved(w + [f], x', e)
  {
    forall sid ensures WrittenBy(x', sid) == ReceivedBy(e, sid) + InFlight(w + [f], sid) {
      InFlightAppend(w, f, sid);
      var data := if sid == f.sid then f.data else [];
      assert WrittenBy(x, sid) == ReceivedBy(e, sid) + InFlight(w, sid);
      Associative(ReceivedBy(e, sid), InFlight(w, sid), data);
    }
  }

  /** The first frame arrives: its bytes move from the wire to the connection. */
  lemma ConservedReceive(w: seq<Frame>, x: End, e: End, e': End)
    requires w != [] && Conserved(w, x, e)
    requires forall sid :: ReceivedBy(e', sid) == ReceivedBy(e, sid) + if sid == w[0].sid then w[0].data else []
    ensures Conserved(w[1..], x, e')
  {
    forall sid ensures WrittenBy(x, sid) == ReceivedBy(e', sid) + InFlight(w[1..], sid) {
      var data := if sid == w[0].sid then w[0].data else [];
      assert WrittenBy(x, sid) == ReceivedBy(e, sid) + InFlight(w, sid);
      Associative(ReceivedBy(e, sid), data, InFlight(w[1..], sid));
    }
  }

  lemma ReadBytes(read: bytes, buf: bytes, queued: bytes, data: bytes, rest: bytes, n: nat)
    requires buf + queued == data + rest && n <= |data|
    ensures (read + data[..n]) + data[n..] + rest == read + buf + queued
  {
    assert data == data[..n] + data[n..];
    assert read + buf + queued == read + (data + rest);
  }

  /** A Read moves bytes within the connection. */
  lemma ReadKeepsReceived(c: Conn, size: nat)
    requires c.buf != [] || c.inbound != []
    ensures
      var d := ReadConn(c, size);
      d.read + d.buf + Concat(d.inbound) == c.read + c.buf + Concat(c.inbound)
  {
    var data := if c.buf != [] then c.buf else c.inbound[0];
    var rest := if c.buf != [] then c.inbound else c.inbound[1..];
    if c.buf == [] {
      assert c.buf + Concat(c.inbound) == Concat(c.inbound) == data + Concat(rest);
    }
    ReadBytes(c.read, c.buf, Concat(c.inbound), data, Concat(rest), Min(size, |data|));
  }

  lemma DeliveredData(c: Conn, data: bytes)
    ensures c.read + c.buf + Concat(c.inbound + [data]) == c.read + c.buf + Concat(c.inbound) + data
  {
    ConcatSnoc(c.inbound, data);
    Associative(c.read + c.buf, Concat(c.inbound), data);
  }

  // ---------- a connection changes at its own side ----------

  lemma NumberedPut(e: End, me: bool, peerOpens: nat, sid: Sid, d: Conn)
    requires Numbered(e, me, peerOpens) && sid in e.conns && d.seqno == e.conns[sid].seqno && Staged(d)
    ensures Numbered(WithConn(e, sid, d), me, peerOpens)
  {
  }

  lemma MappedPut(e: End, me: bool, sid: Sid, d: Conn)
    requires Mapped(e, me) && sid in e.conns && d.forgotten == e.conns[sid].forgotten
    ensures Mapped(WithConn(e, sid, d), me)
  {
    assert forall y :: Kept(WithConn(e, sid, d), y) == Kept(e, y);
  }

  lemma OrderedPut(w: seq<Frame>, x: End, e: End, sid: Sid, d: Conn)
    requires Ordered(w, x, e) && sid in e.conns && (d.finWait ==> e.conns[sid].finWait)
    ensures Ordered(w, x, WithConn(e, sid, d))
  {
  }

  lemma ConservedPut(w: seq<Frame>, x: End, e: End, sid: Sid, d: Conn)
    requires Conserved(w, x, e) && sid in e.conns
    requires d.read + d.buf + Concat(d.inbound) == ReceivedBy(e, sid)
    ensures Conserved(w, x, WithConn(e, sid, d))
  {
    ConservedSame(w, x, e, x, WithConn(e, sid, d));
  }

  lemma AcceptedOncePut(e: End, me: bool, sid: Sid, d: Conn)
    requires AcceptedOnce(e, me) && (sid in e.conns || sid.left == me)
    ensures AcceptedOnce(WithConn(e, sid, d), me)
  {
  }

  /** What the side of a connection keeps when the connection changes, apart from its maps and its bytes. */
  lemma HalfPut(w: seq<Frame>, x: End, e: End, me: bool, sid: Sid, d: Conn)
    requires Half(w, x, e, me) && sid in e.conns && Staged(d)
    requires var c := e.conns[sid];
      && d.seqno == c.seqno && d.forgotten == c.forgotten && (d.finWait ==> c.finWait)
      && d.read + d.buf + Concat(d.inbound) == ReceivedBy(e, sid)
    ensures Half(w, x, WithConn(e, sid, d), me)
  {
    NumberedPut(e, me, x.opens, sid, d);
    MappedPut(e, me, sid, d);
    OrderedPut(w, x, e, sid, d);
    ConservedPut(w, x, e, sid, d);
    AcceptedOncePut(e, me, sid, d);
  }

  // ---------- a connection changes at the other side ----------

  /** A FIN is not taken back, and a stream that is new there has not been finished here. */
  predicate PeerMayChange(x: End, e: End, sid: Sid, d: Conn) {
    if sid in x.conns then x.conns[sid].finSent ==> d.finSent else sid in e.conns ==> !e.conns[sid].finWait
  }

  lemma OrderedPeer(w: seq<Frame>, x: End, e: End, sid: Sid, d: Conn)
    requires Ordered(w, x, e) && PeerMayChange(x, e, sid, d)
    ensures Ordered(w, WithConn(x, sid, d), e)
  {
    var x' := WithConn(x, sid, d);
    forall i | 0 <= i < |w| ensures FrameOk(w[i], x') {
      assert FrameOk(w[i], x);
    }
  }

  lemma HalfPeer(w: seq<Frame>, x: End, e: End, me: bool, sid: Sid, d: Conn)
    requires Half(w, x, e, me) && PeerMayChange(x, e, sid, d)
    requires d.written == WrittenBy(x, sid)
    ensures Half(w, WithConn(x, sid, d), e, me)
  {
    OrderedPeer(w, x, e, sid, d);
    ConservedSame(w, x, e, WithConn(x, sid, d), e);
  }

  lemma OrderedSend(w: seq<Frame>, x: End, e: End, f: Frame)
    requires Ordered(w, x, e) && FrameOk(f, x)
    requires forall i :: 0 <= i < |w| && w[i].sid == f.sid ==> !w[i].fin
    requires f.sid in e.conns ==> !e.conns[f.sid].finWait
    ensures Ordered(w + [f], x, e)
  {
    var v := w + [f];
    forall sid | sid in e.conns && e.conns[sid].finWait ensures !On(v, sid) {
      assert !On(w, sid);
    }
  }

  /** A stream whose FIN has not been sent has no FIN on its way, nor has one arrived. */
  lemma NotYetFinished(w: seq<Frame>, x: End, e: End, sid: Sid)
    requires Ordered(w, x, e) && sid in x.conns && !x.conns[sid].finSent
    ensures forall i :: 0 <= i < |w| && w[i].sid == sid ==> !w[i].fin
    ensures sid in e.conns ==> !e.conns[sid].finWait
  {
    forall i | 0 <= i < |w| && w[i].sid == sid ensures !w[i].fin {
      assert FrameOk(w[i], x);
    }
  }

  /** The other side sends a frame: DATA with the bytes it has written, or its FIN. */
  lemma HalfSend(w: seq<Frame>, x: End, e: End, me: bool, f: Frame, d: Conn)
    requires Half(w, x, e, me) && f.sid in x.conns && !x.conns[f.sid].finSent
    requires f.seqno == NumberOf(f.sid)
    requires if f.fin then d.finSent && f.data == [] else d.finSent == x.conns[f.sid].finSent
    requires d.written == x.conns[f.sid].written + f.data
    ensures Half(w + [f], WithConn(x, f.sid, d), e, me)
  {
    var x' := WithConn(x, f.sid, d);
    NotYetFinished(w, x, e, f.sid);
    OrderedPeer(w, x, e, f.sid, d);
    OrderedSend(w, x', e, f);
    ConservedSend(w, x, e, f, x');
  }

  lemma OrderedMaps(w: seq<Frame>, x: End, e: End, x': End)
    requires Ordered(w, x, e) && x'.conns == x.conns
    ensures Ordered(w, x', e)
  {
    assert forall i :: 0 <= i < |w| ==> FrameOk(w[i], x) ==> FrameOk(w[i], x');
  }

  /** Of the other side only its connections and the number of its streams matter. */
  lemma HalfPeerMaps(w: seq<Frame>, x: End, e: End, me: bool, x': End)
    requires Half(w, x, e, me) && x'.conns == x.conns && x'.opens == x.opens
    ensures Half(w, x', e, me)
  {
    OrderedMaps(w, x, e, x');
    ConservedSame(w, x, e, x', e);
  }

  // ---------- how closing is known ----------

  lemma OnAppend(w: seq<Frame>, f: Frame, sid: Sid)
    ensures On(w + [f], sid) <==> On(w, sid) || f.sid == sid
    ensures FinOn(w + [f], sid) <==> FinOn(w, sid) || (f.sid == sid && f.fin)
  {
    if On(w, sid) {
      var i :| 0 <= i < |w| && w[i].sid == sid;
      assert (w + [f])[i].sid == sid;
    }
    if FinOn(w, sid) {
      var i :| 0 <= i < |w| && w[i].sid == sid && w[i].fin;
      assert (w + [f])[i].sid == sid && (w + [f])[i].fin;
    }
    assert (w + [f])[|w|] == f;
  }

  lemma OnTail(w: seq<Frame>, sid: Sid)
    requires w != []
    ensures On(w, sid) <==> On(w[1..], sid) || w[0].sid == sid
    ensures FinOn(w, sid) <==> FinOn(w[1..], sid) || (w[0].sid == sid && w[0].fin)
  {
    var v := w[1..];
    if On(v, sid) {
      var i :| 0 <= i < |v| && v[i].sid == sid;
      assert w[i + 1].sid == sid;
    }
    if FinOn(v, sid) {
      var i :| 0 <= i < |v| && v[i].sid == sid && v[i].fin;
      assert w[i + 1].sid == sid && w[i + 1].fin;
    }
    if On(w, sid) && w[0].sid != sid {
      var i :| 0 <= i < |w| && w[i].sid == sid;
      assert v[i - 1].sid == sid;
    }
    if FinOn(w, sid) && !(w[0].sid == sid && w[0].fin) {
      var i :| 0 <= i < |w| && w[i].sid == sid && w[i].fin;
      assert v[i - 1].sid == sid && v[i - 1].fin;
    }
  }

  /** What a connection may do without any frame moving. */
  predicate ClosesNoMore(c: Conn, d: Conn) {
    d.finSent == c.finSent && d.finWait == c.finWait
  }

  lemma LinkedHere(w: seq<Frame>, v: seq<Frame>, x: End, e: End, e': End)
    requires Linked(w, v, x, e)
    requires forall sid :: sid in e'.conns ==>
               if sid in e.conns then ClosesNoMore(e.conns[sid], e'.conns[sid])
               else !e'.conns[sid].finWait && sid !in x.conns
    requires forall sid :: sid in e.conns ==> sid in e'.conns
    ensures Linked(w, v, x, e')
  {
  }

  lemma LinkedThere(w: seq<Frame>, v: seq<Frame>, x: End, e: End, x': End)
    requires Linked(w, v, x, e)
    requires forall sid :: sid in x'.conns ==>
               if sid in x.conns then ClosesNoMore(x.conns[sid], x'.conns[sid]) else !x'.conns[sid].finSent
    requires forall sid :: sid in x.conns ==> sid in x'.conns
    ensures Linked(w, v, x', e)
  {
  }

  /** e sends a frame, its FIN perhaps. */
  lemma LinkedSendHere(w: seq<Frame>, v: seq<Frame>, x: End, e: End, f: Frame, d: Conn)
    requires Linked(w, v, x, e) && f.sid in e.conns && !e.conns[f.sid].finSent
    requires d.finWait == e.conns[f.sid].finWait
    ensures Linked(w, v + [f], x, WithConn(e, f.sid, d))
  {
    forall sid ensures On(v + [f], sid) <==> On(v, sid) || f.sid == sid {
      OnAppend(v, f, sid);
    }
  }

  lemma LinkedSendThere(w: seq<Frame>, v: seq<Frame>, x: End, e: End, f: Frame, d: Conn)
    requires Linked(w, v, x, e) && f.sid in x.conns && !x.conns[f.sid].finSent && d.finSent == f.fin
    ensures Linked(w + [f], v, WithConn(x, f.sid, d), e)
  {
    var x' := WithConn(x, f.sid, d);
    forall sid | sid in x'.conns && x'.conns[sid].finSent
      ensures FinOn(w + [f], sid) || (!On(w + [f], sid) && (sid in e.conns ==> e.conns[sid].finWait))
    {
      OnAppend(w, f, sid);
    }
  }

  /** A frame for e arrives. */
  lemma LinkedReceiveHere(w: seq<Frame>, v: seq<Frame>, x: End, e: End, e': End)
    requires w != [] && Linked(w, v, x, e) && Ordered(w, x, e)
    requires forall sid :: sid in e'.conns ==>
               if sid == w[0].sid then e'.conns[sid].finWait <==> (w[0].fin || (sid in e.conns && e.conns[sid].finWait))
               else sid in e.conns && e'.conns[sid] == e.conns[sid]
    requires forall sid :: sid in e.conns ==> sid in e'.conns
    ensures Linked(w[1..], v, x, e')
  {
    forall sid | sid in x.conns && x.conns[sid].finSent
      ensures FinOn(w[1..], sid) || (!On(w[1..], sid) && (sid in e'.conns ==> e'.conns[sid].finWait))
    {
      FinSeenTail(w, x, e, e', sid);
    }
    assert FrameOk(w[0], x);
  }

  lemma FinSeenTail(w: seq<Frame>, x: End, e: End, e': End, sid: Sid)
    requires w != [] && FinSeen(w, x, e) && Ordered(w, x, e) && sid in x.conns && x.conns[sid].finSent
    requires sid in e'.conns ==>
               if sid == w[0].sid then e'.conns[sid].finWait <==> (w[0].fin || (sid in e.conns && e.conns[sid].finWait))
               else sid in e.conns && e'.conns[sid] == e.conns[sid]
    ensures FinOn(w[1..], sid) || (!On(w[1..], sid) && (sid in e'.conns ==> e'.conns[sid].finWait))
  {
    OnTail(w, sid);
    if w[0].sid == sid && w[0].fin {
      forall i | 0 <= i < |w[1..]| ensures w[1..][i].sid != sid {
        assert w[1..][i] == w[i + 1];
      }
    }
  }

  /** A frame for x arrives there. */
  lemma LinkedReceiveThere(w: seq<Frame>, v: seq<Frame>, x: End, e: End, x': End)
    requires v != [] && Linked(w, v, x, e)
    requires forall sid :: sid in x'.conns ==>
               if sid in x.conns then x'.conns[sid].finSent == x.conns[sid].finSent else !x'.conns[sid].finSent
    requires forall sid :: sid in x.conns ==> sid in x'.conns
    ensures Linked(w, v[1..], x', e)
  {
    forall sid ensures On(v[1..], sid) ==> On(v, sid) {
      OnTail(v, sid);
    }
  }

  /** x's wait ends. */
  lemma LinkedFin(w: seq<Frame>, v: seq<Frame>, x: End, e: End, sid: Sid, d: Conn)
    requires Linked(w, v, x, e) && sid in x.conns && d.finSent == x.conns[sid].finSent
    ensures Linked(w, v, WithConn(x, sid, d), e)
  {
  }

  /** The wait for a stream that x does not know of ends. */
  lemma HalfTimeOut(w: seq<Frame>, x: End, e: End, me: bool, sid: Sid)
    requires Half(w, x, e, me) && sid in e.conns && e.conns[sid].finSent && sid !in x.conns
    ensures Half(w, x, WithConn(e, sid, e.conns[sid].(finWait := true)), me)
  {
    var d := e.conns[sid].(finWait := true);
    NumberedPut(e, me, x.opens, sid, d);
    MappedPut(e, me, sid, d);
    OrderedTimeOut(w, x, e, sid);
    ConservedPut(w, x, e, sid, d);
    AcceptedOncePut(e, me, sid, d);
  }

  lemma OrderedTimeOut(w: seq<Frame>, x: End, e: End, sid: Sid)
    requires Ordered(w, x, e) && sid in e.conns && sid !in x.conns
    ensures Ordered(w, x, WithConn(e, sid, e.conns[sid].(finWait := true)))
  {
    forall i | 0 <= i < |w| ensures w[i].sid != sid {
      assert FrameOk(w[i], x);
    }
  }

  lemma LinkedTimeOut(w: seq<Frame>, v: seq<Frame>, x: End, e: End, sid: Sid)
    requires Linked(w, v, x, e) && sid in e.conns && e.conns[sid].finSent && sid !in x.conns && !On(v, sid)
    ensures Linked(w, v, x, WithConn(e, sid, e.conns[sid].(finWait := true)))
  {
  }

  // ---------- a stream is opened ----------

  ghost predicate NextIsNew(e: End, me: bool) {
    forall sid :: Kept(e, sid) ==> NumberOf(sid) != NumberOf(Sid(me, e.opens + 1))
  }

  lemma MappedOpen(e: End, me: bool)
    requires Mapped(e, me) && Sid(me, e.opens + 1) !in e.conns
    requires NextIsNew(e, me)
    ensures Mapped(Opened(e, me), me)
  {
    var e', fresh_ := Opened(e, me), Sid(me, e.opens + 1);
    assert forall y :: Kept(e', y) <==> y == fresh_ || Kept(e, y);
  }

  lemma NumberedOpen(e: End, me: bool, peerOpens: nat)
    requires Numbered(e, me, peerOpens)
    ensures Numbered(Opened(e, me), me, peerOpens)
  {
    var e' := Opened(e, me);
    forall n {:trigger Sid(me, n)} | 1 <= n <= e'.opens ensures Sid(me, n) in e'.conns {
    }
  }

  lemma OrderedOpen(w: seq<Frame>, x: End, e: End, me: bool)
    requires Ordered(w, x, e)
    ensures Ordered(w, x, Opened(e, me))
  {
  }

  lemma ConservedOpen(w: seq<Frame>, x: End, e: End, me: bool)
    requires Conserved(w, x, e) && Sid(me, e.opens + 1) !in e.conns
    ensures Conserved(w, x, Opened(e, me))
  {
    ConservedSame(w, x, e, x, Opened(e, me));
  }

  lemma HalfOpen(w: seq<Frame>, x: End, e: End, me: bool)
    requires Half(w, x, e, me) && Numbered(x, !me, e.opens)
    requires NextIsNew(e, me)
    ensures Half(w, x, Opened(e, me), me)
  {
    var sid := Sid(me, e.opens + 1);
    assert sid !in e.conns;
    NumberedOpen(e, me, x.opens);
    MappedOpen(e, me);
    OrderedOpen(w, x, e, me);
    ConservedOpen(w, x, e, me);
    AcceptedOncePut(e, me, sid, NewConn(NumberOf(sid)));
  }

  lemma HalfPeerOpen(w: seq<Frame>, x: End, e: End, me: bool)
    requires Half(w, x, e, me) && Numbered(x, !me, e.opens)
    ensures Half(w, Opened(x, !me), e, me)
  {
    var sid := Sid(!me, x.opens + 1);
    assert sid !in x.conns && sid !in e.conns;
    OrderedPeer(w, x, e, sid, NewConn(NumberOf(sid)));
    OrderedMaps(w, WithConn(x, sid, NewConn(NumberOf(sid))), e, Opened(x, !me));
    ConservedSame(w, x, e, Opened(x, !me), e);
  }

  // ---------- a stream is forgotten ----------

  lemma NumberedForget(e: End, me: bool, peerOpens: nat, sid: Sid)
    requires Numbered(e, me, peerOpens) && sid in e.conns && e.conns[sid].finSent && e.conns[sid].finWait
    ensures Numbered(Forgotten(e, sid), me, peerOpens)
  {
  }

  lemma OrderedForget(w: seq<Frame>, x: End, e: End, sid: Sid)
    requires Ordered(w, x, e) && sid in e.conns
    ensures Ordered(w, x, Forgotten(e, sid))
  {
  }

  lemma HalfForget(w: seq<Frame>, x: End, e: End, me: bool, sid: Sid)
    requires Half(w, x, e, me) && Kept(e, sid) && e.conns[sid].finSent && e.conns[sid].finWait
    requires forall y :: Kept(e, y) && NumberOf(y) == NumberOf(sid) ==> y == sid
    ensures Half(w, x, Forgotten(e, sid), me)
  {
    var e' := Forgotten(e, sid);
    NumberedForget(e, me, x.opens, sid);
    MappedForget(e, me, sid);
    AcceptedOncePut(e, me, sid, e'.conns[sid]);
    OrderedForget(w, x, e, sid);
    ConservedSame(w, x, e, x, e');
  }

  lemma MappedForget(e: End, me: bool, sid: Sid)
    requires Mapped(e, me) && Kept(e, sid) && e.conns[sid].seqno == NumberOf(sid)
    requires forall y :: Kept(e, y) && NumberOf(y) == NumberOf(sid) ==> y == sid
    ensures Mapped(Forgotten(e, sid), me)
  {
    var e' := Forgotten(e, sid);
    assert forall y :: Kept(e', y) <==> y != sid && Kept(e, y);
  }

  // ---------- a frame arrives ----------

  lemma OrderedTail(w: seq<Frame>, x: End, e: End)
    requires Ordered(w, x, e) && w != []
    ensures Ordered(w[1..], x, e)
    ensures w[0].fin ==> !On(w[1..], w[0].sid)
  {
    var v := w[1..];
    forall sid | On(v, sid) ensures On(w, sid) {
      var i :| 0 <= i < |v| && v[i].sid == sid;
      assert w[i + 1].sid == sid;
    }
    if w[0].fin {
      forall i | 0 <= i < |v| ensures v[i].sid != w[0].sid {
        assert v[i] == w[i + 1];
      }
    }
  }

  /** DATA for a connection that exists. */
  lemma HalfData(w: seq<Frame>, x: End, e: End, me: bool)
    requires w != [] && Half(w, x, e, me) && w[0].sid in e.conns
    ensures
      var c := e.conns[w[0].sid];
      Half(w[1..], x, WithConn(e, w[0].sid, c.(inbound := c.inbound + [w[0].data])), me)
  {
    var sid := w[0].sid;
    var d := e.conns[sid].(inbound := e.conns[sid].inbound + [w[0].data]);
    NumberedPut(e, me, x.opens, sid, d);
    MappedPut(e, me, sid, d);
    OrderedTail(w, x, e);
    OrderedPut(w[1..], x, e, sid, d);
    DeliveredData(e.conns[sid], w[0].data);
    ConservedReceive(w, x, e, WithConn(e, sid, d));
  }

  function Finished(e: End, sid: Sid): End
    requires sid in e.conns
  {
    var c := e.conns[sid];
    WithConn(e, sid, c.(finWait := true, fin := true)).(panicked := e.panicked || c.finWait)
  }

  lemma OrderedFin(w: seq<Frame>, x: End, e: End)
    requires w != [] && Ordered(w, x, e) && w[0].fin && w[0].sid in e.conns
    ensures Ordered(w[1..], x, Finished(e, w[0].sid))
  {
    assert FrameOk(w[0], x);
    OrderedTail(w, x, e);
  }

  /** FIN for a connection that exists: it is the last frame and the first FIN of its stream. */
  lemma HalfFin(w: seq<Frame>, x: End, e: End, me: bool)
    requires w != [] && Half(w, x, e, me) && w[0].sid in e.conns && w[0].fin
    ensures Half(w[1..], x, Finished(e, w[0].sid), me)
  {
    var sid := w[0].sid;
    var d := e.conns[sid].(finWait := true, fin := true);
    assert FrameOk(w[0], x) && On(w, sid);
    NumberedPut(e, me, x.opens, sid, d);
    MappedPut(e, me, sid, d);
    AcceptedOncePut(e, me, sid, d);
    OrderedFin(w, x, e);
    ConservedReceive(w, x, e, Finished(e, sid));
  }

  /** FIN for a stream that has no connection here. */
  lemma HalfLoneFin(w: seq<Frame>, x: End, e: End, me: bool)
    requires w != [] && Half(w, x, e, me) && w[0].fin
    ensures Half(w[1..], x, e, me)
  {
    assert FrameOk(w[0], x);
    OrderedTail(w, x, e);
    ConservedReceive(w, x, e, e);
  }

  function Accepted(e: End, f: Frame): End {
    var c := NewConn(f.seqno).(inbound := [f.data]);
    WithConn(e, f.sid, c).(accepts := e.accepts[f.seqno := f.sid], accepted := e.accepted + [f.sid])
  }

  /** DATA for a stream that has no connection here: it is accepted. */
  lemma HalfAccept(w: seq<Frame>, x: End, e: End, me: bool)
    requires w != [] && Half(w, x, e, me) && Numbered(x, !me, e.opens)
    requires w[0].sid !in e.conns && w[0].sid.left != me
    requires forall sid :: Kept(e, sid) ==> NumberOf(sid) != NumberOf(w[0].sid)
    ensures Half(w[1..], x, Accepted(e, w[0]), me)
  {
    assert FrameOk(w[0], x);
    NumberedAccept(e, me, x.opens, w[0]);
    MappedAccept(e, me, w[0]);
    OrderedAccept(w, x, e);
    ConservedAccept(w, x, e);
    AcceptedOnceAccept(e, me, w[0]);
  }

  lemma OrderedAccept(w: seq<Frame>, x: End, e: End)
    requires w != [] && Ordered(w, x, e)
    ensures Ordered(w[1..], x, Accepted(e, w[0]))
  {
    OrderedTail(w, x, e);
  }

  lemma ConservedAccept(w: seq<Frame>, x: End, e: End)
    requires w != [] && Conserved(w, x, e) && w[0].sid !in e.conns
    ensures Conserved(w[1..], x, Accepted(e, w[0]))
  {
    assert Concat([w[0].data]) == w[0].data;
    ConservedReceive(w, x, e, Accepted(e, w[0]));
  }

  lemma AcceptedOnceAccept(e: End, me: bool, f: Frame)
    requires AcceptedOnce(e, me) && f.sid !in e.conns && f.sid.left != me
    ensures AcceptedOnce(Accepted(e, f), me)
  {
    assert Accepted(e, f).accepted[|e.accepted|] == f.sid;
  }

  lemma NumberedAccept(e: End, me: bool, peerOpens: nat, f: Frame)
    requires Numbered(e, me, peerOpens) && f.sid.left != me && 1 <= f.sid.n <= peerOpens && f.seqno == NumberOf(f.sid)
    ensures Numbered(Accepted(e, f), me, peerOpens)
  {
  }

  lemma MappedAccept(e: End, me: bool, f: Frame)
    requires Mapped(e, me) && f.sid !in e.conns && f.sid.left != me && f.seqno == NumberOf(f.sid)
    requires forall sid :: Kept(e, sid) ==> NumberOf(sid) != NumberOf(f.sid)
    ensures Mapped(Accepted(e, f), me)
  {
    assert forall y :: Kept(Accepted(e, f), y) <==> y == f.sid || Kept(e, y);
  }
}
