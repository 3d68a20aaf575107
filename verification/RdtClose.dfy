/**
 What the receiving application still reads after the peer's FIN.

 Close sets inboundBuf to nil and closes `inbound`, but frames queued in `inbound` can still be taken out of it by
 Read. When a frame had been read in part, its rest is dropped and Read may go on with the frame after it: the
 bytes returned are then no prefix of what was written. This module proves exactly when that cannot happen.
 */
module RdtClose {
  import opened Bytes
  import opened RdtProtocol
  import opened RdtSafety

  /** `t` is reached from the moment `s` of the close: what was returned before and what was dropped stay. */
  ghost predicate After(s: System, t: System) {
    t.mtu == s.mtu && t.rcv.closed && t.early == s.early && t.lost == s.rcv.buf
  }

  lemma AfterStep(s: System, t: System, a: Action)
    requires ValidMtu(t.mtu) && After(s, t)
    ensures After(s, Step(t, a))
  {
  }

  lemma {:induction false} AfterRun(s: System, t: System, acts: seq<Action>)
    requires ValidMtu(t.mtu) && After(s, t)
    ensures After(s, Exec(t, acts))
  {
    if acts != [] {
      AfterRun(s, t, acts[..|acts| - 1]);
      AfterStep(s, Exec(t, acts[..|acts| - 1]), acts[|acts| - 1]);
    }
  }

  function Closed(s: System): System
    requires ValidMtu(s.mtu)
  {
    Step(s, PassiveClose)
  }

  /** Once the receiver has acknowledged the FIN nothing more is delivered. */
  lemma SamePushed(s: State, t: State)
    requires Grows(s, t) && s.rcv.acked && t.rcv.acked
    ensures t.pushed == s.pushed && t.frames == s.frames
    ensures s.pushed == s.frames
  {
    assert s.frames[..|s.frames|] == s.frames;
    assert t.frames[..|s.frames|] == s.frames;
  }

  /** What is returned after the close is a prefix of what was queued. */
  lemma LateReads(s: State, acts: seq<Action>)
    requires Enabled(s, PassiveClose)
    ensures
      var t := Exec(Closed(s), acts);
      && t.early == s.early
      && t.late <= Concat(s.rcv.inbound)
      && t.frames == s.frames && Concat(s.frames) == s.early + (s.rcv.buf + Concat(s.rcv.inbound))
  {
    var c := StepKeeps(s, PassiveClose);
    var t := ExecKeeps(c, acts);
    AfterRun(s, c, acts);
    SamePushed(s, c);
    SamePushed(c, t);
    LateBytes(Concat(s.pushed), s.early, s.rcv.buf, Concat(s.rcv.inbound), t.late, t.rcv.buf, Concat(t.rcv.inbound));
  }

  lemma LateBytes(all: bytes, early: bytes, buf: bytes, queued: bytes, late: bytes, buf': bytes, rest: bytes)
    requires all == early + [] + [] + buf + queued
    requires all == early + buf + late + buf' + rest
    ensures late <= queued
    ensures all == early + (buf + queued)
  {
    assert all == (early + buf) + (late + (buf' + rest));
    assert all == (early + buf) + queued;
    assert queued == all[|early + buf|..] == late + (buf' + rest);
  }

  /** Reading with a large enough buffer empties `inbound`. */
  lemma {:induction false} ReadAll(t: System) returns (acts: seq<Action>)
    requires ValidMtu(t.mtu) && t.rcv.closed && t.rcv.buf == []
    ensures Exec(t, acts).late == t.late + Concat(t.rcv.inbound)
    decreases |t.rcv.inbound|
  {
    if t.rcv.inbound == [] {
      acts := [];
      assert t.late + [] == t.late;
    } else {
      var f := t.rcv.inbound[0];
      var u := Step(t, Read(|f|));
      assert f[..|f|] == f;
      var rest := ReadAll(u);
      acts := [Read(|f|)] + rest;
      ExecOne(t, Read(|f|));
      ExecAppend(t, [Read(|f|)], rest);
      Associative(t.late, f, Concat(u.rcv.inbound));
    }
  }

  /** No way to go on after the close returns bytes out of order. */
  ghost predicate StaysPrefix(s: System)
    requires ValidMtu(s.mtu)
  {
    forall acts :: InOrder(Exec(Closed(s), acts))
  }

  /** All that Read returned, before and after the close, is a prefix of what was written. */
  ghost predicate InOrder(t: System) {
    t.early + t.late <= Concat(t.frames)
  }

  /** The exact condition, readable off the receiver before it closes: dropping what is left of the frame being read
      is harmless for every later Read if and only if the queued bytes are a prefix of the dropped bytes followed by
      the queued bytes. */
  lemma CloseGap(s: State)
    requires Enabled(s, PassiveClose)
    ensures StaysPrefix(s) <==> Concat(s.rcv.inbound) <= s.rcv.buf + Concat(s.rcv.inbound)
  {
    var buf, queued := s.rcv.buf, Concat(s.rcv.inbound);
    if queued <= buf + queued {
      forall acts ensures InOrder(Exec(Closed(s), acts)) {
        LateReads(s, acts);
        PrefixOfPrefix(s.early, Exec(Closed(s), acts).late, queued, buf + queued);
      }
    } else {
      var acts := ReadAll(Closed(s));
      LateReads(s, acts);
      AfterRun(s, Closed(s), []);
      assert Closed(s).late == [] by { LateIsEmpty(s); }
      assert [] + queued == queued;
      if InOrder(Exec(Closed(s), acts)) {
        CancelPrefix(s.early, queued, buf + queued);
      }
    }
  }

  lemma LateIsEmpty(s: State)
    requires Enabled(s, PassiveClose)
    ensures Closed(s).late == []
  {
  }

  lemma PrefixOfPrefix(early: bytes, late: bytes, queued: bytes, rest: bytes)
    requires late <= queued <= rest
    ensures early + late <= early + rest
  {
    assert early + rest == (early + late) + rest[|late|..];
  }

  lemma CancelPrefix(early: bytes, queued: bytes, rest: bytes)
    requires early + queued <= early + rest
    ensures queued <= rest
  {
    assert queued == (early + queued)[|early|..];
    assert rest == (early + rest)[|early|..];
    assert rest[..|queued|] == (early + rest)[..|early + queued|][|early|..];
  }

  /** In the program's own terms: safe when no frame is half read or none is queued; unsafe when both are there and
      the next frame begins with another byte than the dropped rest. */
  lemma CloseGuard(s: State)
    requires Enabled(s, PassiveClose)
    ensures s.rcv.buf == [] || s.rcv.inbound == [] ==> StaysPrefix(s)
    ensures s.rcv.buf != [] && s.rcv.inbound != [] && !(s.rcv.buf[..1] <= Concat(s.rcv.inbound)) ==> !StaysPrefix(s)
  {
    CloseGap(s);
    var queued := Concat(s.rcv.inbound);
    assert [] + queued == queued;
    if s.rcv.buf != [] && s.rcv.inbound != [] {
      assert s.rcv.inbound[0] in s.rcv.inbound;
      SharedFirst(s.rcv.buf, queued);
    }
  }

  lemma SharedFirst(buf: bytes, queued: bytes)
    requires buf != [] && queued != []
    ensures queued <= buf + queued ==> buf[..1] <= queued
  {
    if queued <= buf + queued {
      assert queued[0] == (buf + queued)[0] == buf[0];
    }
  }
}
