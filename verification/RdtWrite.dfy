/** RDT Write: cutting bytes into frames, and waiting for the window, as functions and as runs. */
module RdtWrite {
  import opened Bytes
  import opened RdtProtocol
  import opened RdtSafety
  import opened RdtAtomic

  /** The frames Write makes of b: all full but the last. */
  function Chunks(b: bytes, size: nat): (r: seq<bytes>)
    requires size >= 1
    decreases |b|
  {
    if b == [] then []
    else if |b| <= size then [b]
    else [b[..size]] + Chunks(b[size..], size)
  }

  /** Cutting loses nothing, and every frame is a legal one. */
  lemma {:induction false} ChunksSpec(b: bytes, size: nat)
    requires size >= 1
    ensures Concat(Chunks(b, size)) == b
    ensures forall i :: 0 <= i < |Chunks(b, size)| ==> 1 <= |Chunks(b, size)[i]| <= size
    ensures (|Chunks(b, size)| - 1) * size < |b| || b == []
    decreases |b|
  {
    if |b| > size {
      ChunksSpec(b[size..], size);
      assert b == b[..size] + b[size..];
      Distribute(|Chunks(b[size..], size)| - 1, 1, size);
    } else if b != [] {
      assert Concat([b]) == b + [];
    }
  }

  lemma NextSlice(b: bytes, size: nat, j: nat)
    requires size <= |b| && j <= |b| - size
    ensures b[size..][j..Min(j + size, |b| - size)] == b[j + size..Min(j + size + size, |b|)]
  {
  }

  /** Frame i is the slice that starts at i * size. */
  lemma {:induction false} ChunkAt(b: bytes, size: nat, i: nat)
    requires size >= 1
    ensures i < |Chunks(b, size)| <==> i * size < |b|
    ensures i < |Chunks(b, size)| ==> Chunks(b, size)[i] == b[i * size..Min(i * size + size, |b|)]
    decreases |b|
  {
    if i == 0 {
    } else if |b| > size {
      ChunkAt(b[size..], size, i - 1);
      Distribute(i - 1, 1, size);
      assert i * size == (i - 1) * size + size;
      if (i - 1) * size < |b| - size { NextSlice(b, size, (i - 1) * size); }
    } else {
      Distribute(i - 1, 1, size);
      assert i * size == (i - 1) * size + size;
    }
  }

  /** What the other goroutines of the sending side do while a Write waits: the packet loop receives an NCK, or the NCK
      loop takes the next one out of the channel. */
  datatype Event = Arrives(no: nat, missing: seq<nat>) | Handles

  /** The packet loop is not blocked in recv; an NCK is there and the NCK loop is free. */
  predicate Happens(snd: Sender, e: Event) {
    if e.Arrives? then snd.hand == [] else !snd.parked && snd.ncks != [] && snd.ncks[0].Nck?
  }

  /** The sender after such an event; one that cannot happen changes nothing. */
  function After(snd: Sender, e: Event): Sender {
    if !Happens(snd, e) then snd
    else if e.Arrives? then Received(snd, Nck(e.no, e.missing))
    else Queued(Trimmed(Taken(snd), snd.ncks[0].no, snd.ncks[0].missing))
  }

  /** The frames it puts on the wire again. */
  function SentBy(snd: Sender, e: Event): seq<Msg> {
    if e.Handles? && Happens(snd, e) then Resent(snd.pool, snd.ncks[0].missing) else []
  }

  /**
   What such an event does. An NCK that arrives is acknowledged at once and waits behind the others, unless the packet
   loop is blocked. Handling takes the first: the frames it names that are in the pool go out again, the others up to its
   number leave the pool, the NCK loop is parked, and a blocked packet loop goes on.
   */
  lemma EventEffect(snd: Sender, e: Event)
    requires (snd.hand != [] ==> |snd.ncks| == 256) && |snd.ncks| <= 256 && |snd.hand| <= 1
    ensures
      var t := After(snd, e);
      && t == snd.(ackNO := t.ackNO, pool := t.pool, ncks := t.ncks, hand := t.hand, parked := t.parked)
      && (e.Arrives? ==>
            && t.pool == snd.pool && t.parked == snd.parked && SentBy(snd, e) == []
            && (snd.hand != [] ==> t == snd)
            && (snd.hand == [] ==>
                  && t.ncks + t.hand == snd.ncks + [Nck(e.no, e.missing)] && (t.hand == [] <==> |snd.ncks| < 256)
                  && t.ackNO == if e.missing == [] && e.no > snd.ackNO then e.no else snd.ackNO))
      && (e.Handles? && (snd.parked || snd.ncks == []) ==> t == snd && SentBy(snd, e) == [])
      && (e.Handles? && !snd.parked && snd.ncks != [] && snd.ncks[0].Nck? ==>
            var m := snd.ncks[0];
            && t.parked && t.ackNO == snd.ackNO && t.ncks == snd.ncks[1..] + snd.hand && t.hand == []
            && (forall k :: k in t.pool <==> k in snd.pool && (k > m.no || k in m.missing))
            && (forall k :: k in t.pool ==> t.pool[k] == snd.pool[k])
            && (forall d :: d in SentBy(snd, e) <==>
                  d.Data? && d.no in m.missing && d.no in snd.pool && d.payload == snd.pool[d.no]))
  {
    if e.Arrives? {
      assert [Nck(e.no, e.missing)] + [] == [Nck(e.no, e.missing)];
    } else if !snd.parked && snd.ncks != [] && snd.ncks[0].Nck? {
      ResentSpec(snd.pool, snd.ncks[0].missing);
      assert snd.ncks[1..] + [] == snd.ncks[1..];
    }
  }

  /** The sender after these events, when a waiting Write takes the event of the parked NCK loop before each. */
  function Waited(snd: Sender, events: seq<Event>): Sender
    decreases |events|
  {
    if events == [] then snd else Waited(After(if snd.parked then Freed(snd) else snd, events[0]), events[1..])
  }

  /** The outcome of a Write: the sender, what went on the wire, the events left over, how many frames were accepted,
      and whether all were. */
  datatype Outcome = Outcome(snd: Sender, sent: seq<Msg>, rest: seq<Event>, accepted: nat, ok: bool)

  /** What one frame does to the sender. */
  function Put(snd: Sender, p: bytes): Sender {
    snd.(sentNO := snd.sentNO + 1, pool := snd.pool[snd.sentNO + 1 := p])
  }

  /** Write of these frames. Whenever the pool is full it waits: it takes the event of the NCK loop if that is parked,
      and otherwise the next of `events` happens. When they run out the connection has been closed. */
  function WriteFrames(w: nat, snd: Sender, frames: seq<bytes>, events: seq<Event>): (r: Outcome)
    ensures r.accepted <= |frames| && (r.ok <==> r.accepted == |frames|)
    decreases |frames| + |events|, if snd.parked then 1 else 0
  {
    if frames == [] then Outcome(snd, [], events, 0, true)
    else if |snd.pool| < w then
      var r := WriteFrames(w, Put(snd, frames[0]), frames[1..], events);
      r.(sent := [Data(snd.sentNO + 1, frames[0])] + r.sent, accepted := r.accepted + 1)
    else if snd.parked then WriteFrames(w, Freed(snd), frames, events)
    else if events == [] then Outcome(snd, [], [], 0, false)
    else
      var r := WriteFrames(w, After(snd, events[0]), frames, events[1..]);
      r.(sent := SentBy(snd, events[0]) + r.sent)
  }

  /** A Write waits exactly while the pool is full: as long as it is, the events happen one after the other, and when it
      no longer is the Write goes on. */
  lemma {:induction false} WaitsWhileFull(w: nat, snd: Sender, frames: seq<bytes>, events: seq<Event>, k: nat)
    requires frames != [] && k <= |events| && forall j :: 0 <= j < k ==> |Waited(snd, events[..j]).pool| >= w
    ensures
      var r, q := WriteFrames(w, snd, frames, events), WriteFrames(w, Waited(snd, events[..k]), frames, events[k..]);
      r.snd == q.snd && r.rest == q.rest && r.accepted == q.accepted && r.ok == q.ok
    decreases k
  {
    if k == 0 {
      assert events[..0] == [] && events[0..] == events;
    } else {
      var t := After(if snd.parked then Freed(snd) else snd, events[0]);
      assert events[..0] == [] && Waited(snd, events[..0]).pool == snd.pool;
      StillFull(w, snd, events, k);
      WaitedFirst(snd, events, k);
      WaitsWhileFull(w, t, frames, events[1..], k - 1);
      assert events[1..][k - 1..] == events[k..];
      OneEventHappens(w, snd, frames, events);
    }
  }

  lemma {:induction false} OneEventHappens(w: nat, snd: Sender, frames: seq<bytes>, events: seq<Event>)
    requires frames != [] && events != [] && |snd.pool| >= w
    ensures
      var t := After(if snd.parked then Freed(snd) else snd, events[0]);
      var r, q := WriteFrames(w, snd, frames, events), WriteFrames(w, t, frames, events[1..]);
      r.snd == q.snd && r.rest == q.rest && r.accepted == q.accepted && r.ok == q.ok
  {
    if snd.parked {
      assert WriteFrames(w, snd, frames, events) == WriteFrames(w, Freed(snd), frames, events);
    }
  }

  lemma {:induction false} StillFull(w: nat, snd: Sender, events: seq<Event>, k: nat)
    requires 1 <= k <= |events| && forall j :: 0 <= j < k ==> |Waited(snd, events[..j]).pool| >= w
    ensures
      var t := After(if snd.parked then Freed(snd) else snd, events[0]);
      forall j :: 0 <= j < k - 1 ==> |Waited(t, events[1..][..j]).pool| >= w
  {
    var t := After(if snd.parked then Freed(snd) else snd, events[0]);
    forall j | 0 <= j < k - 1 ensures |Waited(t, events[1..][..j]).pool| >= w {
      WaitedFirst(snd, events, j + 1);
    }
  }

  lemma {:induction false} WaitedFirst(snd: Sender, events: seq<Event>, j: nat)
    requires 1 <= j <= |events|
    ensures
      Waited(snd, events[..j]) ==
      Waited(After(if snd.parked then Freed(snd) else snd, events[0]), events[1..][..j - 1])
  {
    assert events[..j][1..] == events[1..][..j - 1];
  }

  /** If the pool stays full the Write has accepted nothing when the events run out, and fails. */
  lemma {:induction false} FullToTheEnd(w: nat, snd: Sender, frames: seq<bytes>, events: seq<Event>)
    requires frames != [] && forall j :: 0 <= j <= |events| ==> |Waited(snd, events[..j]).pool| >= w
    ensures var r := WriteFrames(w, snd, frames, events); !r.ok && r.accepted == 0 && r.rest == []
  {
    WaitsWhileFull(w, snd, frames, events, |events|);
    assert events[..|events|] == events;
    var t := Waited(snd, events);
    assert |t.pool| >= w;
    FailsAtOnce(w, t, frames);
  }

  lemma {:induction false} FailsAtOnce(w: nat, snd: Sender, frames: seq<bytes>)
    requires frames != [] && |snd.pool| >= w
    ensures var r := WriteFrames(w, snd, frames, []); !r.ok && r.accepted == 0 && r.rest == []
  {
    if snd.parked {
      assert WriteFrames(w, snd, frames, []) == WriteFrames(w, Freed(snd), frames, []);
    }
  }

  lemma PutLeads(s: System, p: bytes) returns (t: System)
    requires ValidMtu(s.mtu) && Enabled(s, WriteFrame(p))
    ensures Leads(s, t) && t.mtu == s.mtu && t.rcv == s.rcv && s.net <= t.net
    ensures t.snd == Put(s.snd, p) && t.frames == s.frames + [p]
    ensures t.net == Send(s.net, [Data(s.snd.sentNO + 1, p)])
  {
    t := Step(s, WriteFrame(p));
    StepLeads(s, WriteFrame(p));
  }

  lemma WaitLeads(s: System) returns (t: System)
    requires ValidMtu(s.mtu) && s.snd.open && |s.snd.pool| >= Window(s.mtu)
    ensures Leads(s, t) && t == s.(snd := s.snd.(waiting := s.snd.waiting + 1))
  {
    t := Step(s, BeginWait);
    StepLeads(s, BeginWait);
  }

  lemma WakeLeads(s: System) returns (t: System)
    requires ValidMtu(s.mtu) && s.snd.parked && s.snd.waiting > 0
    ensures Leads(s, t) && t == s.(snd := Freed(s.snd).(waiting := s.snd.waiting - 1))
  {
    t := Step(s, Wake);
    StepLeads(s, Wake);
  }

  /** Write waits, and takes the event of the NCK loop that is parked. */
  lemma FreeLeads(s: System) returns (t: System)
    requires ValidMtu(s.mtu) && s.snd.open && |s.snd.pool| >= Window(s.mtu) && s.snd.parked
    ensures Leads(s, t) && t == s.(snd := Freed(s.snd))
  {
    var u := WaitLeads(s);
    t := WakeLeads(u);
    LeadsFurther(s, u, t);
  }

  /** The NCKs that arrive are on the network. */
  ghost predicate OnNet(net: set<Msg>, events: seq<Event>) {
    forall e :: e in events && e.Arrives? ==> Nck(e.no, e.missing) in net
  }

  /** What the other goroutines do is a run. */
  lemma EventLeads(s: System, e: Event) returns (t: System)
    requires ValidMtu(s.mtu) && OnNet(s.net, [e])
    ensures Leads(s, t) && t.mtu == s.mtu && t.rcv == s.rcv && t.frames == s.frames && s.net <= t.net
    ensures t.snd == After(s.snd, e) && t.net == Send(s.net, SentBy(s.snd, e))
  {
    if !Happens(s.snd, e) {
      LeadsSelf(s);
      t := s;
    } else if e.Arrives? {
      t := ArrivalLeads(s, e);
    } else {
      t := HandlingLeads(s);
    }
  }

  lemma ArrivalLeads(s: System, e: Event) returns (t: System)
    requires ValidMtu(s.mtu) && e.Arrives? && s.snd.hand == [] && OnNet(s.net, [e])
    ensures Leads(s, t) && t == s.(snd := After(s.snd, e))
  {
    assert e in [e];
    ReceiveIsRun(s, Nck(e.no, e.missing));
    t := Exec(s, [AckNck(Nck(e.no, e.missing)), QueueNck]);
  }

  lemma HandlingLeads(s: System) returns (t: System)
    requires ValidMtu(s.mtu) && Happens(s.snd, Handles)
    ensures Leads(s, t) && t == s.(snd := After(s.snd, Handles), net := Send(s.net, SentBy(s.snd, Handles)))
  {
    var u := Step(s, HandleNck);
    StepLeads(s, HandleNck);
    HandleStep(s);
    t := Step(u, QueueNck);
    StepLeads(u, QueueNck);
    QueueNckStep(u);
    LeadsFurther(s, u, t);
  }

  lemma Spliced(done: seq<bytes>, frames: seq<bytes>, n: nat)
    requires n < |frames|
    ensures done + frames[..n + 1] == (done + [frames[0]]) + frames[1..][..n]
  {
  }

  ghost predicate Legal(mtu: nat, frames: seq<bytes>) {
    forall i :: 0 <= i < |frames| ==> 1 <= |frames[i]| <= mtu - 7
  }

  lemma LegalRest(mtu: nat, frames: seq<bytes>)
    requires Legal(mtu, frames) && frames != []
    ensures 1 <= |frames[0]| <= mtu - 7 && Legal(mtu, frames[1..])
  {
  }

  lemma SendTwice(net: set<Msg>, a: seq<Msg>, b: seq<Msg>)
    ensures Send(Send(net, a), b) == Send(net, a + b)
  {
  }

  lemma SendNothing(net: set<Msg>)
    ensures Send(net, []) == net
  {
  }

  /** What a Write that started in s has done when it has led to t. */
  ghost predicate Done(s: System, t: System, frames: seq<bytes>, r: Outcome)
    requires r.accepted <= |frames|
  {
    && Leads(s, t) && t.mtu == s.mtu && t.rcv == s.rcv
    && t.net == Send(s.net, r.sent) && t.snd == r.snd && t.frames == s.frames + frames[..r.accepted]
  }

  /** A Write is a run of the system. Exactly the first `accepted` frames, in order, join the stream, exactly what the
      outcome says goes onto the network, and the receiver is not touched. */
  lemma WriteIsRun(s: System, w: nat, frames: seq<bytes>, events: seq<Event>, r: Outcome) returns (t: System)
    requires ValidMtu(s.mtu) && OnNet(s.net, events)
    requires w == Window(s.mtu) && s.snd.open && s.snd.sentNO + |frames| + 2 * w < 0x1_0000_0000
    requires Legal(s.mtu, frames) && r == WriteFrames(w, s.snd, frames, events)
    ensures Leads(s, t) && t.mtu == s.mtu && t.rcv == s.rcv && t.net == Send(s.net, r.sent)
    ensures t.snd == r.snd && t.frames == s.frames + frames[..r.accepted]
  {
    t := WriteRuns(s, w, frames, events, r);
  }

  lemma {:induction false} WriteRuns(s: System, w: nat, frames: seq<bytes>, events: seq<Event>, r: Outcome)
    returns (t: System)
    requires ValidMtu(s.mtu) && OnNet(s.net, events)
    requires w == Window(s.mtu) && s.snd.open && s.snd.sentNO + |frames| + 2 * w < 0x1_0000_0000
    requires Legal(s.mtu, frames) && r == WriteFrames(w, s.snd, frames, events)
    ensures Done(s, t, frames, r)
    decreases |frames| + |events|, if s.snd.parked then 1 else 0, 1
  {
    if frames == [] {
      t := NothingDone(s, frames, r);
    } else if |s.snd.pool| < w {
      t := RoomRuns(s, w, frames, events, r);
    } else if s.snd.parked {
      t := FreedRuns(s, w, frames, events, r);
    } else if events == [] {
      t := NothingDone(s, frames, r);
    } else {
      t := EventRuns(s, w, frames, events, r);
    }
  }

  lemma {:induction false} RoomRuns(s: System, w: nat, frames: seq<bytes>, events: seq<Event>, r: Outcome)
    returns (t: System)
    requires ValidMtu(s.mtu) && OnNet(s.net, events)
    requires w == Window(s.mtu) && s.snd.open && s.snd.sentNO + |frames| + 2 * w < 0x1_0000_0000
    requires Legal(s.mtu, frames) && r == WriteFrames(w, s.snd, frames, events)
    requires frames != [] && |s.snd.pool| < w
    ensures Done(s, t, frames, r)
    decreases |frames| + |events|, if s.snd.parked then 1 else 0, 0, 1
  {
    var q := PutUnfolds(w, s.snd, frames, events);
    t := PutRuns(s, w, frames, events, q);
  }

  lemma {:induction false} PutRuns(s: System, w: nat, frames: seq<bytes>, events: seq<Event>, q: Outcome)
    returns (t: System)
    requires ValidMtu(s.mtu) && OnNet(s.net, events)
    requires w == Window(s.mtu) && s.snd.open && s.snd.sentNO + |frames| + 2 * w < 0x1_0000_0000
    requires Legal(s.mtu, frames) && frames != [] && |s.snd.pool| < w
    requires q == WriteFrames(w, Put(s.snd, frames[0]), frames[1..], events) && q.accepted < |frames|
    ensures Done(s, t, frames, q.(sent := [Data(s.snd.sentNO + 1, frames[0])] + q.sent, accepted := q.accepted + 1))
    decreases |frames| + |events|, if s.snd.parked then 1 else 0, 0, 0
  {
    var u := FirstPut(s, frames, events);
    t := WriteRuns(u, w, frames[1..], events, q);
    PutThenRest(s, u, t, frames, q);
  }

  lemma {:induction false} PutUnfolds(w: nat, snd: Sender, frames: seq<bytes>, events: seq<Event>) returns (q: Outcome)
    requires frames != [] && |snd.pool| < w
    ensures q == WriteFrames(w, Put(snd, frames[0]), frames[1..], events) && q.accepted <= |frames| - 1
    ensures
      WriteFrames(w, snd, frames, events) ==
      q.(sent := [Data(snd.sentNO + 1, frames[0])] + q.sent, accepted := q.accepted + 1)
  {
    q := WriteFrames(w, Put(snd, frames[0]), frames[1..], events);
  }

  lemma {:induction false} EventUnfolds(w: nat, snd: Sender, frames: seq<bytes>, events: seq<Event>) returns (q: Outcome)
    requires frames != [] && |snd.pool| >= w && !snd.parked && events != []
    ensures q == WriteFrames(w, After(snd, events[0]), frames, events[1..]) && q.accepted <= |frames|
    ensures WriteFrames(w, snd, frames, events) == q.(sent := SentBy(snd, events[0]) + q.sent)
  {
    q := WriteFrames(w, After(snd, events[0]), frames, events[1..]);
  }

  lemma {:induction false} FreedRuns(s: System, w: nat, frames: seq<bytes>, events: seq<Event>, r: Outcome)
    returns (t: System)
    requires ValidMtu(s.mtu) && OnNet(s.net, events)
    requires w == Window(s.mtu) && s.snd.open && s.snd.sentNO + |frames| + 2 * w < 0x1_0000_0000
    requires Legal(s.mtu, frames) && r == WriteFrames(w, s.snd, frames, events)
    requires frames != [] && |s.snd.pool| >= w && s.snd.parked
    ensures Done(s, t, frames, r)
    decreases |frames| + |events|, 1, 0
  {
    var u := FreeLeads(s);
    t := WriteRuns(u, w, frames, events, r);
    FreedThenRest(s, u, t, frames, r);
  }

  lemma {:induction false} EventRuns(s: System, w: nat, frames: seq<bytes>, events: seq<Event>, r: Outcome)
    returns (t: System)
    requires ValidMtu(s.mtu) && OnNet(s.net, events)
    requires w == Window(s.mtu) && s.snd.open && s.snd.sentNO + |frames| + 2 * w < 0x1_0000_0000
    requires Legal(s.mtu, frames) && r == WriteFrames(w, s.snd, frames, events)
    requires frames != [] && |s.snd.pool| >= w && !s.snd.parked && events != []
    ensures Done(s, t, frames, r)
    decreases |frames| + |events|, 0, 0
  {
    var u := FirstEvent(s, events);
    var q := EventUnfolds(w, s.snd, frames, events);
    t := WriteRuns(u, w, frames, events[1..], q);
    EventThenRest(s, u, t, frames, SentBy(s.snd, events[0]), q);
  }

  lemma FirstPut(s: System, frames: seq<bytes>, events: seq<Event>) returns (u: System)
    requires ValidMtu(s.mtu) && frames != [] && Legal(s.mtu, frames) && OnNet(s.net, events)
    requires s.snd.open && |s.snd.pool| < Window(s.mtu) && s.snd.sentNO + 1 + 2 * Window(s.mtu) < 0x1_0000_0000
    ensures Leads(s, u) && u.mtu == s.mtu && u.rcv == s.rcv && u.frames == s.frames + [frames[0]] && OnNet(u.net, events)
    ensures u.snd == Put(s.snd, frames[0]) && u.net == Send(s.net, [Data(s.snd.sentNO + 1, frames[0])])
    ensures Legal(s.mtu, frames[1..])
  {
    LegalRest(s.mtu, frames);
    u := PutLeads(s, frames[0]);
  }

  lemma FirstEvent(s: System, events: seq<Event>) returns (u: System)
    requires ValidMtu(s.mtu) && events != [] && OnNet(s.net, events)
    ensures Leads(s, u) && u.mtu == s.mtu && u.rcv == s.rcv && u.frames == s.frames && OnNet(u.net, events[1..])
    ensures u.snd == After(s.snd, events[0]) && u.net == Send(s.net, SentBy(s.snd, events[0]))
    ensures u.snd.open == s.snd.open && u.snd.sentNO == s.snd.sentNO
  {
    assert events[0] in events;
    u := EventLeads(s, events[0]);
    AfterKeepsOpen(s.snd, events[0]);
  }

  lemma NothingDone(s: System, frames: seq<bytes>, r: Outcome) returns (t: System)
    requires ValidMtu(s.mtu) && r.snd == s.snd && r.sent == [] && r.accepted == 0
    ensures t == s && Done(s, t, frames, r)
  {
    LeadsSelf(s);
    SendNothing(s.net);
    t := s;
  }

  lemma FreedThenRest(s: System, u: System, t: System, frames: seq<bytes>, r: Outcome)
    requires r.accepted <= |frames| && Leads(s, u) && u == s.(snd := u.snd) && Done(u, t, frames, r)
    ensures Done(s, t, frames, r)
  {
    LeadsFurther(s, u, t);
  }

  lemma PutThenRest(s: System, u: System, t: System, frames: seq<bytes>, q: Outcome)
    requires frames != [] && q.accepted < |frames| && Leads(s, u) && u.mtu == s.mtu && u.rcv == s.rcv
    requires u.net == Send(s.net, [Data(s.snd.sentNO + 1, frames[0])]) && u.frames == s.frames + [frames[0]]
    requires Done(u, t, frames[1..], q)
    ensures Done(s, t, frames, q.(sent := [Data(s.snd.sentNO + 1, frames[0])] + q.sent, accepted := q.accepted + 1))
  {
    SendTwice(s.net, [Data(s.snd.sentNO + 1, frames[0])], q.sent);
    LeadsFurther(s, u, t);
    Spliced(s.frames, frames, q.accepted);
  }

  lemma EventThenRest(s: System, u: System, t: System, frames: seq<bytes>, again: seq<Msg>, q: Outcome)
    requires q.accepted <= |frames| && Leads(s, u) && u.mtu == s.mtu && u.rcv == s.rcv && u.frames == s.frames
    requires u.net == Send(s.net, again) && Done(u, t, frames, q)
    ensures Done(s, t, frames, q.(sent := again + q.sent))
  {
    SendTwice(s.net, again, q.sent);
    LeadsFurther(s, u, t);
  }

  lemma AfterKeepsOpen(snd: Sender, e: Event)
    ensures After(snd, e).open == snd.open && After(snd, e).sentNO == snd.sentNO
    ensures After(snd, e).pool.Keys <= snd.pool.Keys
  {
  }

  /** A Write that succeeds appends exactly its bytes to the stream; one that fails has still appended some first
      part of them, cut at a frame boundary. */
  lemma WriteAppends(s: System, b: bytes, events: seq<Event>) returns (t: System)
    requires ValidMtu(s.mtu) && OnNet(s.net, events)
    requires s.snd.open && s.snd.sentNO + |Chunks(b, FrameSize(s.mtu))| + 2 * Window(s.mtu) < 0x1_0000_0000
    ensures
      var frames := Chunks(b, FrameSize(s.mtu));
      var r := WriteFrames(Window(s.mtu), s.snd, frames, events);
      && Leads(s, t) && t.snd == r.snd && t.rcv == s.rcv && t.net == Send(s.net, r.sent)
      && Concat(t.frames) == Concat(s.frames) + Concat(frames[..r.accepted])
      && Concat(frames[..r.accepted]) <= b
      && (r.ok ==> Concat(t.frames) == Concat(s.frames) + b)
  {
    var frames := Chunks(b, FrameSize(s.mtu));
    ChunksSpec(b, FrameSize(s.mtu));
    var r := WriteFrames(Window(s.mtu), s.snd, frames, events);
    t := WriteIsRun(s, Window(s.mtu), frames, events, r);
    var n := r.accepted;
    ConcatAppend(s.frames, frames[..n]);
    ConcatPrefix(frames, n);
    assert frames[..|frames|] == frames;
  }

  /** Numbers are given out upwards, so a new frame makes the pool larger by one. */
  lemma PutGrows(snd: Sender, p: bytes)
    requires forall k :: k in snd.pool ==> k <= snd.sentNO
    ensures |Put(snd, p).pool| == |snd.pool| + 1 && forall k :: k in Put(snd, p).pool ==> k <= Put(snd, p).sentNO
  {
  }

  /** These frames have been given the numbers that follow, in order: each is kept in the pool and sent once, and nothing
      else has changed. */
  ghost predicate AllPut(snd: Sender, frames: seq<bytes>, t: Sender, sent: seq<Msg>) {
    && t == snd.(sentNO := snd.sentNO + |frames|, pool := t.pool)
    && (forall k :: k in t.pool <==> k in snd.pool || snd.sentNO < k <= snd.sentNO + |frames|)
    && (forall k :: k in snd.pool && k <= snd.sentNO ==> k in t.pool && t.pool[k] == snd.pool[k])
    && |sent| == |frames|
    && (forall i :: 0 <= i < |frames| ==> snd.sentNO + 1 + i in t.pool && t.pool[snd.sentNO + 1 + i] == frames[i])
    && (forall i :: 0 <= i < |frames| ==> sent[i] == Data(snd.sentNO + 1 + i, frames[i]))
  }

  lemma AllPutStep(snd: Sender, frames: seq<bytes>, t: Sender, sent: seq<Msg>)
    requires frames != [] && AllPut(Put(snd, frames[0]), frames[1..], t, sent)
    ensures AllPut(snd, frames, t, [Data(snd.sentNO + 1, frames[0])] + sent)
  {
    var all := [Data(snd.sentNO + 1, frames[0])] + sent;
    forall i | 0 <= i < |frames|
      ensures snd.sentNO + 1 + i in t.pool && t.pool[snd.sentNO + 1 + i] == frames[i]
      ensures all[i] == Data(snd.sentNO + 1 + i, frames[i])
    {
      if i > 0 {
        assert frames[i] == frames[1..][i - 1] && all[i] == sent[i - 1];
      }
    }
  }

  /** A Write for which there is room does not wait. */
  lemma {:induction false} WriteWithRoom(w: nat, snd: Sender, frames: seq<bytes>, events: seq<Event>)
    requires (forall k :: k in snd.pool ==> k <= snd.sentNO) && |snd.pool| + |frames| <= w
    ensures
      var r := WriteFrames(w, snd, frames, events);
      r.ok && r.rest == events && AllPut(snd, frames, r.snd, r.sent)
    decreases |frames|
  {
    if frames != [] {
      PutGrows(snd, frames[0]);
      WriteWithRoom(w, Put(snd, frames[0]), frames[1..], events);
      var q := WriteFrames(w, Put(snd, frames[0]), frames[1..], events);
      AllPutStep(snd, frames, q.snd, q.sent);
    }
  }

  /**
   A Write that fails has accepted at least the frames there was room for when it was called; when nothing happens while
   it waits it fails exactly if there is not room for all, and has then accepted exactly those.
   */
  lemma {:induction false} FailedWrite(w: nat, snd: Sender, frames: seq<bytes>, events: seq<Event>)
    requires forall k :: k in snd.pool ==> k <= snd.sentNO
    ensures
      var r := WriteFrames(w, snd, frames, events);
      && (!r.ok ==> w - |snd.pool| <= r.accepted < |frames|)
      && (events == [] ==> (r.ok <==> frames == [] || |frames| <= w - |snd.pool|))
      && (events == [] && !r.ok ==> r.accepted == if |snd.pool| < w then w - |snd.pool| else 0)
    decreases |frames| + |events|, if snd.parked then 1 else 0
  {
    if frames == [] {
    } else if |snd.pool| < w {
      PutGrows(snd, frames[0]);
      FailedWrite(w, Put(snd, frames[0]), frames[1..], events);
    } else if snd.parked {
      FailedWrite(w, Freed(snd), frames, events);
    } else if events != [] {
      AfterKeepsOpen(snd, events[0]);
      FailedWrite(w, After(snd, events[0]), frames, events[1..]);
    }
  }

  /** Write returns 0 for 1 2 3 4 5 on a connection with room for one frame, and 1 2 3 4 has joined the stream. */
  lemma FailedWriteKeepsFrames() returns (t: System)
    ensures
      var b: bytes := [1, 2, 3, 4, 5];
      !WriteFrames(Window(11), Init(11).snd, Chunks(b, FrameSize(11)), []).ok
    ensures Leads(Init(11), t) && Concat(t.frames) == [1, 2, 3, 4]
  {
    var b: bytes := [1, 2, 3, 4, 5];
    var frames := Chunks(b, 4);
    assert b[4..] == [5];
    assert b[..4] == [1, 2, 3, 4] && Chunks([5], 4) == [[5]];
    assert frames == [[1, 2, 3, 4]] + [[5]] == [[1, 2, 3, 4], [5]];
    FailedWrite(1, Init(11).snd, frames, []);
    t := WriteAppends(Init(11), b, []);
    assert frames[..1] == [[1, 2, 3, 4]];
    ConcatSnoc([], [1, 2, 3, 4]);
    assert [] + [[1, 2, 3, 4]] == [[1, 2, 3, 4]];
  }
}
