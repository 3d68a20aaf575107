/**
 An RDT connection as the program has it: fields updated in place, and the loops over them. Every method is proved
 against the functions whose runs the other RDT modules reason about. Packets are handed to the network as messages;
 module RdtWire proves what happens to their bytes.
 */
module RdtConn {
  import opened Wrappers
  import opened Bytes
  import opened RdtProtocol
  import opened RdtGuarantees
  import opened RdtAtomic
  import opened RdtWire
  import opened RdtWrite

  const ESTABLISHED := 0
  const CLOSED := 5

  lemma GapsStep(pool: map<nat, bytes>, i: nat, no: nat, found: seq<nat>)
    requires i <= no
    ensures found + Missing(pool, i, no) == (if i in pool then found else found + [i]) + Missing(pool, i + 1, no)
  {
  }

  /** The value of sendNCK's loop counter after n turns. */
  function Counter(start: nat, n: nat): nat {
    (start + n) % 0x1_0000_0000
  }

  /** The loop over i <= no leaves it if and only if `no` is not the last number of 32 bits. */
  lemma LoopEnds(start: nat, no: nat)
    requires start < 0x1_0000_0000 && no < 0x1_0000_0000
    ensures (exists n :: 0 <= n && Counter(start, n) > no) <==> no < 0xFFFF_FFFF
  {
    assert Counter(start, 0xFFFF_FFFF - start) == 0xFFFF_FFFF;
  }

  /** A uint16 counter. */
  lemma CountStep(n: nat)
    ensures (n % 0x1_0000 + 1) % 0x1_0000 == (n + 1) % 0x1_0000
  {
  }

  lemma ResentStep(pool: map<nat, bytes>, missing: seq<nat>, i: nat)
    requires i < |missing|
    ensures Resent(pool, missing[i..]) ==
              (if missing[i] in pool then [Data(missing[i], pool[missing[i]])] else []) + Resent(pool, missing[i + 1..])
  {
    assert missing[i..][1..] == missing[i + 1..];
  }

  datatype FinResult = Acknowledged | TimedOut | ClosedPipe

  /** What the caller of Read gets: some bytes, or io.EOF. */
  datatype ReadResult = Bytes(data: bytes) | EndOfFile

  class Conn {
    const mtu: nat
    const window: nat
    const frameSize: nat

    var recvNO: nat
    var sentNO: nat
    var ackNO: nat
    var recvPool: map<nat, bytes>
    var sendPool: map<nat, bytes>
    var inbound: seq<bytes>
    var inboundBuf: Option<bytes>
    var state: nat
    var acked: bool
    var parked: bool   // the NCK loop is in its send on sendEvent

    // the channels between the packet loop and the other goroutines
    var ncks: seq<Msg>
    var hand: seq<Msg>   // the NCK that the packet loop, blocked in recv, still has to send
    var queries: seq<nat>
    var finacks: seq<nat>

    // everything handed to the network
    var wire: seq<Msg>

    ghost predicate Valid()
      reads this
    {
      && ValidMtu(mtu) && window == Window(mtu) && frameSize == FrameSize(mtu)
      && (forall m :: m in ncks ==> m.Nck?) && (forall m :: m in hand ==> m.Nck?) && (hand != [] ==> |ncks| == NCK_QUEUE)
      && |ncks| <= NCK_QUEUE && |hand| <= 1 && inboundBuf != Some([])
    }

    /** The sending side as the protocol sees it, while no Write waits. */
    ghost function Snd(): Sender
      reads this
    {
      Sender(state == ESTABLISHED, sentNO, ackNO, sendPool, ncks, hand, parked, 0)
    }

    /** The receiving side as the protocol sees it, between packets. */
    ghost function Rcv(): Receiver
      reads this
    {
      Receiver(recvNO, recvPool, inbound, Buffered(inboundBuf), Idle, queries, NoScan, acked, false)
    }

    static function Buffered(b: Option<bytes>): bytes {
      if b.Some? then b.value else []
    }

    constructor (mtu: nat)
      requires ValidMtu(mtu)
      ensures Valid() && this.mtu == mtu
      ensures Snd() == Init(mtu).snd && Rcv() == Init(mtu).rcv && wire == []
    {
      this.mtu := mtu;
      window, frameSize := (mtu - 7) / 4, mtu - 7;
      recvNO, sentNO, ackNO := 0, 0, 0;
      recvPool, sendPool := map[], map[];
      inbound, inboundBuf := [], None;
      state, acked, parked := ESTABLISHED, false, false;
      ncks, hand, queries, finacks := [], [], [], [];
      wire := [];
    }

    // ---------- the receiving side ----------

    /** The loop of sendNCK. Its counter is a uint32: see LoopEnds. */
    method CollectGaps(no: nat) returns (missing: nat, noData: seq<nat>)
      requires no < 0xFFFF_FFFF
      ensures noData == Missing(recvPool, recvNO + 1, no) && missing == |noData| % 0x1_0000
    {
      missing, noData := 0, [];
      var i := recvNO + 1;
      while i <= no
        invariant recvNO + 1 <= i && (i <= no + 1 || i == recvNO + 1)
        invariant noData + Missing(recvPool, i, no) == Missing(recvPool, recvNO + 1, no)
        invariant missing == |noData| % 0x1_0000
        decreases no + 1 - i
      {
        GapsStep(recvPool, i, no, noData);
        missing, noData := CollectGap(i, missing, noData);
        i := i + 1;
      }
    }

    /** One turn of the loop: a number without an entry is counted, in 16 bits, and listed. */
    method CollectGap(i: nat, count: nat, found: seq<nat>) returns (missing: nat, noData: seq<nat>)
      requires count == |found| % 0x1_0000
      ensures noData == (if i in recvPool then found else found + [i]) && missing == |noData| % 0x1_0000
    {
      missing, noData := count, found;
      if i !in recvPool {
        CountStep(|noData|);
        missing := (missing + 1) % 0x1_0000;
        noData := noData + [i];
      }
    }

    /** sendNCK. For the last number of 32 bits its loop would not end (LoopEnds). */
    method SendNCK(no: nat)
      requires no < 0xFFFF_FFFF
      modifies `wire
      ensures wire == old(wire) + SendNck(window, Rcv(), no)
    {
      var missing, noData := CollectGaps(no);
      if missing > window {
        assert wire + [] == wire;
        return;
      }
      wire := wire + [Nck(no, noData[..missing])];
    }

    /** The drain loop of recvData. */
    method Drain()
      modifies `recvPool, `inbound, `recvNO
      ensures Rcv() == Drained(old(Rcv()))
    {
      while recvNO + 1 in recvPool
        invariant Drained(Rcv()) == Drained(old(Rcv()))
        decreases Waiting(Rcv())
      {
        ghost var before := Rcv();
        var k := recvPool[recvNO + 1];
        recvPool := recvPool - {recvNO};
        inbound := inbound + [k];
        recvNO := recvNO + 1;
        assert Rcv() == Turn(before);
      }
    }

    /** recvData, after its first report. */
    method Take(no: nat, data: bytes)
      requires recvNO + window < 0xFFFF_FFFF
      modifies `wire, `recvPool, `inbound, `recvNO
      ensures Rcv() == Accept(window, old(Rcv()), no, data)
      ensures wire == old(wire) + SecondReply(window, old(Rcv()), no)
    {
      assert wire + [] == wire;
      if no <= recvNO {
        return;
      }
      if no == recvNO + 1 {
        inbound := inbound + [data];
        recvNO := recvNO + 1;
        Drain();
        return;
      }
      if no - recvNO > window * 2 {
        SendNCK(recvNO + window);
        return;
      }
      recvPool := recvPool[no := data];
    }

    /** recvData */
    method RecvData(no: nat, data: bytes)
      requires Valid() && recvNO + window < 0xFFFF_FFFF
      modifies `wire, `recvPool, `inbound, `recvNO
      ensures Valid()
      ensures state == CLOSED ==> Rcv() == old(Rcv()) && wire == old(wire)
      ensures state != CLOSED ==> Rcv() == Accept(window, old(Rcv()), no, data)
      ensures state != CLOSED ==> wire == old(wire) + DataReplies(window, old(Rcv()), no)
    {
      if state == CLOSED {
        return;
      }
      IsMultipleIsMod(no, window);
      assert wire + [] == wire;
      if no % window == 0 {
        SendNCK(Min(recvNO + window, no));
      }
      assert wire == old(wire) + FirstReply(window, Rcv(), no);
      Take(no, data);
    }

    /** Read: at most `size` bytes, from the frame that is half read or else from the next one. When there is none
        the channel is taken to be closed. */
    method Read(size: nat) returns (r: ReadResult)
      requires Valid()
      modifies `inbound, `inboundBuf
      ensures Valid()
      ensures old(inboundBuf.None? && inbound == []) <==> r.EndOfFile?
      ensures r.EndOfFile? ==> Rcv() == old(Rcv())
      ensures r.Bytes? ==> (Rcv(), r.data) == TakeRead(old(Rcv()), size)
      ensures r.Bytes? ==> |r.data| <= size && Rcv() == old(Rcv()).(buf := Rcv().buf, inbound := Rcv().inbound)
      // nothing is lost, repeated or taken out of turn
      ensures r.Bytes? ==>
                r.data + Rcv().buf + Concat(Rcv().inbound) == old(Rcv().buf) + old(Concat(Rcv().inbound))
      // a second frame is never begun, and a frame that fits is finished
      ensures r.Bytes? && |r.data| < size ==> inboundBuf.None?
      ensures r.Bytes? ==> inbound == if old(inboundBuf).Some? then old(inbound) else old(inbound)[1..]
    {
      if inboundBuf.None? {
        if inbound == [] {
          return EndOfFile;
        }
        inboundBuf := Some(inbound[0]);
        inbound := inbound[1..];
      }
      var pkt := inboundBuf.value;
      var n := Min(size, |pkt|);
      assert pkt == pkt[..n] + pkt[n..] && pkt[..|pkt|] == pkt && pkt[|pkt|..] == [];
      if n == |pkt| {
        inboundBuf := None;
        return Bytes(pkt);
      }
      inboundBuf := Some(pkt[n..]);
      return Bytes(pkt[..n]);
    }

    /** runNCKQueryLoop: one query taken from the channel and answered. */
    method AnswerQuery()
      requires queries != [] && queries[0] < 0xFFFF_FFFF
      modifies `queries, `wire
      ensures queries == old(queries)[1..]
      ensures wire == old(wire) + SendNck(window, old(Rcv()), old(queries)[0])
    {
      var q := queries[0];
      queries := queries[1..];
      SendNCK(q);
    }

    // ---------- packets ----------

    /** recv: what a packet does, by its command. */
    method Recv(pkt: bytes)
      requires Valid() && |pkt| >= 7 && hand == []
      requires recvNO + window < 0xFFFF_FFFF && (pkt[0] == 21 ==> FromBE32(pkt[1..5]) < 0xFFFF_FFFF)
      modifies `recvNO, `recvPool, `inbound, `ackNO, `queries, `ncks, `hand, `finacks, `acked, `wire
      ensures Valid()
      ensures match Decode(pkt)
              case None => Rcv() == old(Rcv()) && Snd() == old(Snd()) && wire == old(wire)
              case Some(Data(no, p)) =>
                && Snd() == old(Snd())
                && (state == CLOSED ==> Rcv() == old(Rcv()) && wire == old(wire))
                && (state != CLOSED ==> Rcv() == Accept(window, old(Rcv()), no, p))
                && (state != CLOSED ==> wire == old(wire) + DataReplies(window, old(Rcv()), no))
              case Some(Query(no)) =>
                Rcv() == old(Rcv()).(queries := old(queries) + [no]) && Snd() == old(Snd()) && wire == old(wire)
              case Some(Nck(no, missing)) =>
                && Rcv() == old(Rcv()) && wire == old(wire)
                && Snd() == Received(old(Snd()), Nck(no, missing))
                // the channel is full: the packet loop blocks
                && (hand != [] <==> |old(ncks)| == 256)
              case Some(Fin(no)) =>
                && Snd() == old(Snd())
                && (recvNO < no ==> Rcv() == old(Rcv()) && wire == old(wire) + SendNck(window, Rcv(), no))
                && (recvNO >= no ==> Rcv() == old(Rcv()).(acked := true) && wire == old(wire) + [FinAck(no)])
              case Some(FinAck(no)) =>
                Rcv() == old(Rcv()) && Snd() == old(Snd()) && wire == old(wire) && finacks == old(finacks) + [no]
    {
      var no, l := FromBE32(pkt[1..5]), FromBE16(pkt[5..7]);
      match pkt[0] {
        case 0 =>
          if 7 + l <= |pkt| {
            RecvData(no, pkt[7..7 + l]);
          }
        case 1 =>
          queries := queries + [no];
        case 2 =>
          if 7 + l / 4 * 4 <= |pkt| {
            var missing := ReadNumbers(pkt, l / 4);
            RecvNck(no, missing);
          }
        case 21 =>
          RecvFin(no);
        case 22 =>
          finacks := finacks + [no];
        case _ =>
      }
    }

    method RecvNck(no: nat, missing: seq<nat>)
      requires Valid() && hand == []
      modifies `ackNO, `ncks, `hand
      ensures Valid() && Snd() == Received(old(Snd()), Nck(no, missing))
      ensures ackNO == if missing == [] && no > old(ackNO) then no else old(ackNO)
      ensures ncks + hand == old(ncks) + [Nck(no, missing)]
      ensures hand != [] <==> |old(ncks)| == 256
    {
      if missing == [] && no > ackNO {
        ackNO := no;
      }
      if |ncks| == NCK_QUEUE {
        hand := [Nck(no, missing)];
      } else {
        ncks := ncks + [Nck(no, missing)];
      }
      assert [Nck(no, missing)] + [] == [Nck(no, missing)];
    }

    method RecvFin(no: nat)
      requires no < 0xFFFF_FFFF
      modifies `acked, `wire
      ensures recvNO < no ==> Rcv() == old(Rcv()) && wire == old(wire) + SendNck(window, Rcv(), no)
      ensures recvNO >= no ==> Rcv() == old(Rcv()).(acked := true) && wire == old(wire) + [FinAck(no)]
    {
      if recvNO < no {
        SendNCK(no);
      } else {
        wire := wire + [FinAck(no)];
        acked := true;
      }
    }

    /** The loop of recv over the numbers of an NCK. */
    method ReadNumbers(pkt: bytes, count: nat) returns (missing: seq<nat>)
      requires 7 + 4 * count <= |pkt|
      ensures missing == ParseNumbers(pkt[7..], count)
    {
      missing := [];
      for i := 0 to count
        invariant missing == ParseNumbers(pkt[7..], i)
      {
        var s := 7 + i * 4;
        assert pkt[7..][4 * i..4 * i + 4] == pkt[s..s + 4];
        missing := missing + [FromBE32(pkt[s..s + 4])];
      }
    }

    /** sendFIN after its FINs are out: `acks` is what arrives on the finack channel until it is closed, where 0 also
        stands for the end of the retries. */
    method AwaitFinAck(acks: seq<nat>) returns (r: FinResult)
      ensures r.Acknowledged? <==> exists i :: 0 <= i < |acks| && acks[i] == sentNO != 0 && 0 !in acks[..i]
      ensures r.TimedOut? <==> exists i :: 0 <= i < |acks| && acks[i] == 0 && (sentNO == 0 || sentNO !in acks[..i])
    {
      var i := 0;
      while i < |acks|
        invariant 0 <= i <= |acks| && forall j :: 0 <= j < i ==> acks[j] != 0 && acks[j] != sentNO
      {
        if acks[i] == 0 {
          return TimedOut;
        }
        if acks[i] == sentNO {
          return Acknowledged;
        }
        i := i + 1;
      }
      return ClosedPipe;
    }

    // ---------- the sending side ----------

    /** resend: the frames of the list that are in the pool go out again, and every other frame up to `no` leaves it. */
    method Resend(no: nat, missing: seq<nat>)
      requires !parked
      modifies `wire, `sendPool, `parked
      ensures Snd() == Trimmed(old(Snd()), no, missing)
      ensures wire == old(wire) + Resent(old(sendPool), missing)
      ensures parked && forall k :: k in sendPool <==> k in old(sendPool) && (k > no || k in missing)
      ensures forall k :: k in sendPool ==> sendPool[k] == old(sendPool)[k]
    {
      var i := 0;
      while i < |missing|
        invariant 0 <= i <= |missing| && sendPool == old(sendPool)
        invariant wire + Resent(sendPool, missing[i..]) == old(wire) + Resent(sendPool, missing)
      {
        var n := missing[i];
        ResentStep(sendPool, missing, i);
        if n in sendPool {
          wire := wire + [Data(n, sendPool[n])];
        }
        i := i + 1;
      }
      assert missing[i..] == [] && wire + [] == wire;
      var todo := sendPool.Keys;
      while todo != {}
        invariant todo <= old(sendPool).Keys
        invariant wire == old(wire) + Resent(old(sendPool), missing)
        invariant sendPool == map k | k in old(sendPool) && (k in todo || k in missing || k > no) :: old(sendPool)[k]
      {
        var k :| k in todo;
        todo := todo - {k};
        if k !in missing && k <= no {
          sendPool := sendPool - {k};
        }
      }
      parked := true;
    }

    /** runNCKLoop: one NCK taken from the channel, which lets a blocked packet loop go on, and acted upon. */
    method HandleNck()
      requires Valid() && ncks != [] && !parked
      modifies `ncks, `hand, `wire, `sendPool, `parked
      ensures Valid() && hand == [] && ncks == old(ncks)[1..] + old(hand)
      ensures Snd() == Queued(Trimmed(Taken(old(Snd())), old(ncks)[0].no, old(ncks)[0].missing))
      ensures wire == old(wire) + Resent(old(sendPool), old(ncks)[0].missing)
    {
      var m := ncks[0];
      ncks, hand := ncks[1..] + hand, [];
      Resend(m.no, m.missing);
    }

    /** runCheckLoop: while frames are unacknowledged, ask. */
    method CheckTick()
      modifies `wire
      ensures wire == old(wire) + Tick(window, Snd())
      ensures wire == old(wire) <==> sendPool == map[]
      // about everything sent, but no more than a window beyond ackNO
      ensures sendPool != map[] ==>
                exists q: nat :: wire == old(wire) + [Query(q)]
                                 && ((q == sentNO <= ackNO + window) || (q == ackNO + window <= sentNO))
    {
      if sendPool != map[] {
        wire := wire + [Query(Min(sentNO, ackNO + window))];
      }
    }

    /** The packet loop receives an NCK, unless it is blocked, or the NCK loop takes the next one, if it is free. */
    method Happen(e: Event)
      requires Valid()
      modifies `ackNO, `ncks, `hand, `wire, `sendPool, `parked
      ensures Valid() && Snd() == After(old(Snd()), e) && wire == old(wire) + SentBy(old(Snd()), e)
    {
      assert wire + [] == wire;
      match e {
        case Arrives(no, missing) =>
          if hand == [] {
            RecvNck(no, missing);
          }
        case Handles =>
          if !parked && ncks != [] {
            HandleNck();
          }
      }
    }

    /** The wait of Write for the window. When the NCK loop is parked Write takes its event, which lets it go on. When
        the events run out the connection has been closed. `left` is what Write still has to send. */
    method AwaitWindow(events: seq<Event>, ghost left: seq<bytes>, ghost whole: Outcome, ghost before: seq<Msg>)
      returns (rest: seq<Event>, ok: bool)
      requires Valid() && left != []
      requires Continues(whole, before, wire, WriteFrames(window, Snd(), left, events))
      modifies `ackNO, `ncks, `hand, `wire, `sendPool, `parked
      ensures Valid() && (ok <==> |sendPool| < window)
      ensures !ok ==> rest == [] && !parked
      ensures Continues(whole, before, wire, WriteFrames(window, Snd(), left, rest))
    {
      rest := events;
      while |sendPool| >= window
        invariant Valid() && Continues(whole, before, wire, WriteFrames(window, Snd(), left, rest))
        decreases |rest|, if parked then 1 else 0
      {
        if parked {
          parked := false;
          continue;
        }
        if rest == [] {
          return rest, false;
        }
        var e := rest[0];
        WriteWaits(window, Snd(), left, rest, wire);
        ghost var q := WriteFrames(window, After(Snd(), e), left, rest[1..]);
        ContinuesFurther(whole, before, wire, WriteFrames(window, Snd(), left, rest), wire + SentBy(Snd(), e), q);
        rest := rest[1..];
        Happen(e);
      }
      return rest, true;
    }

    /** One turn of the loop of Write. */
    method WriteOne(data: bytes, events: seq<Event>, ghost left: seq<bytes>, ghost whole: Outcome, ghost before: seq<Msg>)
      returns (rest: seq<Event>, ok: bool)
      requires Valid() && left != [] && left[0] == data
      requires Continues(whole, before, wire, WriteFrames(window, Snd(), left, events))
      modifies `ackNO, `ncks, `hand, `wire, `sendPool, `sentNO, `parked
      ensures Valid()
      ensures !ok ==> rest == [] && |sendPool| >= window && !parked
      ensures Continues(whole, before, wire, WriteFrames(window, Snd(), if ok then left[1..] else left, rest))
    {
      rest, ok := AwaitWindow(events, left, whole, before);
      if ok {
        WritePuts(window, Snd(), left, rest, wire);
        ghost var put := WriteFrames(window, Put(Snd(), data), left[1..], rest);
        ContinuesFurther(whole, before, wire, WriteFrames(window, Snd(), left, rest), wire + [Data(sentNO + 1, data)], put);
        PutFrame(data);
      }
    }

    /** A frame is kept until it is acknowledged, counted and sent. */
    method PutFrame(data: bytes)
      requires Valid()
      modifies `wire, `sendPool, `sentNO
      ensures Valid() && Snd() == Put(old(Snd()), data) && wire == old(wire) + [Data(old(sentNO) + 1, data)]
      ensures sentNO == old(sentNO) + 1 && sendPool == old(sendPool)[sentNO := data]
    {
      var no := sentNO + 1;
      sendPool := sendPool[no := data];
      sentNO := sentNO + 1;
      wire := wire + [Data(no, data)];
    }

    /** The turn for frame i of b. */
    method WriteSlice(b: bytes, i: nat, events: seq<Event>, ghost chunks: seq<bytes>, ghost whole: Outcome,
                      ghost before: seq<Msg>) returns (rest: seq<Event>, ok: bool)
      requires Valid() && chunks == Chunks(b, frameSize) && i < |chunks|
      requires Continues(whole, before, wire, WriteFrames(window, Snd(), chunks[i..], events))
      modifies `ackNO, `ncks, `hand, `wire, `sendPool, `sentNO, `parked
      ensures Valid()
      ensures !ok ==> rest == [] && |sendPool| >= window && !parked
      ensures Continues(whole, before, wire, WriteFrames(window, Snd(), chunks[if ok then i + 1 else i..], rest))
    {
      var start := i * frameSize;
      var length := if |b| - start < frameSize then |b| - start else frameSize;
      ChunkSlice(b, frameSize, i, chunks);
      rest, ok := WriteOne(b[start..start + length], events, chunks[i..], whole, before);
    }

    /** The loop of Write. */
    method WriteAll(b: bytes, events: seq<Event>) returns (ok: bool)
      requires Valid()
      modifies `ackNO, `ncks, `hand, `wire, `sendPool, `sentNO, `parked
      ensures Valid()
      ensures
        var r := WriteFrames(window, old(Snd()), Chunks(b, frameSize), events);
        Snd() == r.snd && wire == old(wire) + r.sent && ok == r.ok
    {
      ghost var chunks := Chunks(b, frameSize);
      ghost var whole := WriteFrames(window, Snd(), chunks, events);
      var rest := events;
      var i := 0;
      ChunkCount(b, frameSize);
      var count := (|b| + frameSize - 1) / frameSize;
      assert chunks[0..] == chunks;
      while i < count
        invariant 0 <= i <= |chunks| && Valid()
        invariant Continues(whole, old(wire), wire, WriteFrames(window, Snd(), chunks[i..], rest))
      {
        rest, ok := WriteSlice(b, i, rest, chunks, whole, old(wire));
        if !ok {
          WriteFails(window, Snd(), chunks[i..]);
          ContinuesToEnd(whole, old(wire), wire, WriteFrames(window, Snd(), chunks[i..], rest));
          return;
        }
        i := i + 1;
      }
      assert chunks[i..] == [];
      ContinuesToEnd(whole, old(wire), wire, WriteFrames(window, Snd(), [], rest));
      ok := true;
    }

    /** Write; `events` is what the other goroutines do while it waits. */
    method Write(b: bytes, events: seq<Event>) returns (n: nat, ok: bool)
      requires Valid()
      modifies `ackNO, `ncks, `hand, `wire, `sendPool, `sentNO, `parked
      ensures Valid()
      ensures state != ESTABLISHED ==> !ok && n == 0 && Snd() == old(Snd()) && wire == old(wire)
      ensures state == ESTABLISHED ==>
                var r := WriteFrames(window, old(Snd()), Chunks(b, frameSize), events);
                && Snd() == r.snd && wire == old(wire) + r.sent
                && ok == r.ok && n == if ok then |b| else 0
    {
      if state > ESTABLISHED {
        return 0, false;
      }
      ok := WriteAll(b, events);
      n := if ok then |b| else 0;
    }
  }

  /** The part of a Write that is left leads to the same outcome as the whole. */
  ghost predicate Continues(whole: Outcome, before: seq<Msg>, now: seq<Msg>, left: Outcome) {
    && whole.snd == left.snd && whole.rest == left.rest && whole.ok == left.ok
    && before + whole.sent == now + left.sent
  }

  lemma ContinuesFurther(a: Outcome, x: seq<Msg>, y: seq<Msg>, b: Outcome, z: seq<Msg>, c: Outcome)
    requires Continues(a, x, y, b) && Continues(b, y, z, c)
    ensures Continues(a, x, z, c)
  {
  }

  lemma ContinuesToEnd(whole: Outcome, before: seq<Msg>, now: seq<Msg>, left: Outcome)
    requires Continues(whole, before, now, left) && left.sent == []
    ensures now == before + whole.sent && whole.snd == left.snd && whole.ok == left.ok
  {
    assert now + [] == now;
  }

  /** The connection has been closed. */
  lemma WriteFails(w: nat, snd: Sender, left: seq<bytes>)
    requires left != [] && |snd.pool| >= w && !snd.parked
    ensures WriteFrames(w, snd, left, []) == Outcome(snd, [], [], 0, false)
  {
  }

  /** A step that puts `ms` on the wire. */
  lemma ContinuesBy(all: Outcome, wire: seq<Msg>, ms: seq<Msg>, r: Outcome)
    requires all.snd == r.snd && all.rest == r.rest && all.ok == r.ok && all.sent == ms + r.sent
    ensures Continues(all, wire, wire + ms, r)
  {
    assert wire + (ms + r.sent) == (wire + ms) + r.sent;
  }

  lemma WriteWaits(w: nat, snd: Sender, left: seq<bytes>, events: seq<Event>, wire: seq<Msg>)
    requires left != [] && events != [] && |snd.pool| >= w && !snd.parked
    ensures
      Continues(WriteFrames(w, snd, left, events), wire, wire + SentBy(snd, events[0]),
                WriteFrames(w, After(snd, events[0]), left, events[1..]))
  {
    var r := WriteFrames(w, After(snd, events[0]), left, events[1..]);
    ContinuesBy(WriteFrames(w, snd, left, events), wire, SentBy(snd, events[0]), r);
  }

  lemma WritePuts(w: nat, snd: Sender, left: seq<bytes>, events: seq<Event>, wire: seq<Msg>)
    requires left != [] && |snd.pool| < w
    ensures Continues(WriteFrames(w, snd, left, events), wire, wire + [Data(snd.sentNO + 1, left[0])],
                      WriteFrames(w, Put(snd, left[0]), left[1..], events))
  {
    var r := WriteFrames(w, Put(snd, left[0]), left[1..], events);
    ContinuesBy(WriteFrames(w, snd, left, events), wire, [Data(snd.sentNO + 1, left[0])], r);
  }

  lemma ChunkSlice(b: bytes, size: nat, i: nat, chunks: seq<bytes>)
    requires size >= 1 && chunks == Chunks(b, size) && i < |chunks|
    ensures 0 <= i * size < |b| && chunks[i..][1..] == chunks[i + 1..]
    ensures chunks[i..][0] == b[i * size..i * size + if |b| - i * size < size then |b| - i * size else size]
  {
    Distribute(i, 0, size);
    ChunkAt(b, size, i);
    var start := i * size;
    assert Min(start + size, |b|) == start + if |b| - start < size then |b| - start else size;
  }

  lemma ChunkCount(b: bytes, size: nat)
    requires size >= 1
    ensures |Chunks(b, size)| == (|b| + size - 1) / size
  {
    var n := |Chunks(b, size)|;
    ChunkAt(b, size, n);
    if n > 0 {
      ChunkAt(b, size, n - 1);
      Distribute(n - 1, 1, size);
    }
    DivUnique(|b| + size - 1, size, n);
  }
}
