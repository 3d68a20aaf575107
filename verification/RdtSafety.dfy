/** The invariant of the RDT system and what it says about every run. */
module RdtSafety {
  import opened Bytes
  import opened RdtProtocol

  ghost predicate SenderOk(s: System) {
    && |s.frames| == s.snd.sentNO
    && s.snd.ackNO <= s.snd.sentNO
    && (!s.snd.open ==> s.snd.waiting == 0)
    && (forall k :: k in s.snd.pool ==> 1 <= k <= s.snd.sentNO && s.snd.pool[k] == s.frames[k - 1])
    && (forall f {:trigger f in s.frames} :: f in s.frames ==> 1 <= |f| <= s.mtu - 7)
  }

  /** Window bounds; frame numbers have not come near 2^32. */
  ghost predicate FlowOk(s: System)
    requires ValidMtu(s.mtu)
  {
    var w := Window(s.mtu);
    && |s.snd.pool| <= w
    && s.rcv.recvNO <= s.snd.sentNO <= s.rcv.recvNO + 2 * w
    && s.snd.sentNO + 2 * w < 0x1_0000_0000
    && (s.snd.open ==> forall k :: s.rcv.recvNO + w < k <= s.snd.sentNO ==> k in s.snd.pool)
  }

  /** A sent frame that the receiver lacks is still in the send pool; what was acknowledged is held. */
  ghost predicate PoolCovers(s: System) {
    && (forall k :: 1 <= k <= s.snd.sentNO && !Holds(s.rcv, k) ==> k in s.snd.pool)
    && (forall k :: 1 <= k <= s.snd.ackNO ==> Holds(s.rcv, k))
  }

  ghost predicate ReceiverOk(s: System)
    requires ValidMtu(s.mtu)
  {
    var r := s.rcv;
    && (forall k :: k in r.pool ==> 1 <= k <= |s.frames| && r.pool[k] == s.frames[k - 1])
    && (match r.loop
        case Idle => r.recvNO + 1 !in r.pool
        case Looking => true
        case Found(p) => r.recvNO + 1 in r.pool && r.recvNO < |s.frames| && p == s.frames[r.recvNO]
        case Pushing(p) => r.recvNO < |s.frames| && p == s.frames[r.recvNO]
        case Bumping => r.recvNO < |s.frames|)
    && (r.acked ==> !s.snd.open && r.recvNO == s.snd.sentNO && r.loop.Idle?)
    && (r.closed ==> r.acked)
    && (r.recvNO + 1 in r.pool ==> r.recvNO + 2 * Window(s.mtu) !in r.pool)
  }

  /** How many frames are in `inbound` or beyond. */
  function Delivered(r: Receiver): nat {
    r.recvNO + if r.loop.Bumping? then 1 else 0
  }

  /** No byte is invented, reordered or duplicated between `inbound` and the application. */
  ghost predicate Conserved(s: System) {
    && Delivered(s.rcv) <= |s.frames|
    && s.pushed == s.frames[..Delivered(s.rcv)]
    && Concat(s.pushed) == s.early + s.lost + s.late + s.rcv.buf + Concat(s.rcv.inbound)
    && (!s.rcv.closed ==> s.lost == [] && s.late == [])
    && (forall f {:trigger f in s.rcv.inbound} :: f in s.rcv.inbound ==> f != [])
  }

  /** A report that everything up to `no` except `missing` has arrived is true of receiver r. */
  ghost predicate Truthful(r: Receiver, no: nat, missing: seq<nat>) {
    forall k :: 1 <= k <= no && k !in missing ==> Holds(r, k)
  }

  ghost predicate NckOk(s: System, no: nat, missing: seq<nat>)
    requires ValidMtu(s.mtu)
  {
    && no <= s.snd.sentNO
    && |missing| <= Window(s.mtu)
    && Truthful(s.rcv, no, missing)
    && (forall k :: k in missing ==> 1 <= k <= no)
    && (s.snd.open ==> no <= s.rcv.recvNO + Window(s.mtu))
  }

  ghost predicate MsgOk(s: System, m: Msg)
    requires ValidMtu(s.mtu)
  {
    match m
    case Data(no, p) => 1 <= no <= |s.frames| && p == s.frames[no - 1]
    case Query(q) => q <= s.snd.sentNO && q <= s.snd.ackNO + Window(s.mtu)
    case Nck(no, missing) => NckOk(s, no, missing)
    case Fin(no) => !s.snd.open && no == s.snd.sentNO
    case FinAck(no) => !s.snd.open && no == s.snd.sentNO && s.rcv.recvNO == no
  }

  ghost predicate NetOk(s: System)
    requires ValidMtu(s.mtu)
  {
    forall m :: m in s.net ==> MsgOk(s, m)
  }

  /** What the sender has received and not yet handled is as good as on the network, but cannot be lost. */
  ghost predicate QueueOk(s: System)
    requires ValidMtu(s.mtu)
  {
    && (forall m :: m in s.snd.ncks ==> m.Nck? && MsgOk(s, m))
    && (forall m :: m in s.snd.hand ==> m.Nck? && MsgOk(s, m))
    && |s.snd.hand| <= 1 && |s.snd.ncks| <= NCK_QUEUE
  }

  /** The query goroutine: a queued query is within the window, a half-finished report is true so far. */
  ghost predicate ScanOk(s: System)
    requires ValidMtu(s.mtu)
  {
    var w, r := Window(s.mtu), s.rcv;
    && (forall q :: q in r.queries ==> q <= s.snd.sentNO && q <= r.recvNO + w && q <= s.snd.ackNO + w)
    && (r.scan.Scanning? ==>
          var c := r.scan;
          && c.base <= r.recvNO && c.base < c.next && c.upTo <= s.snd.sentNO && c.upTo <= c.base + w && c.upTo <= s.snd.ackNO + w
          && (c.next <= c.upTo + 1 || c.next == c.base + 1)
          && |c.missing| <= c.next - 1 - c.base
          && (forall k :: k in c.missing ==> c.base < k <= c.upTo)
          && (forall k :: 1 <= k < c.next && k !in c.missing ==> Holds(r, k)))
  }

  ghost predicate Inv(s: System) {
    && ValidMtu(s.mtu) && SenderOk(s) && FlowOk(s) && PoolCovers(s) && ReceiverOk(s) && Conserved(s) && NetOk(s)
    && QueueOk(s) && ScanOk(s)
  }

  type State = s: System | Inv(s) ghost witness Init(1428)

  // ---------- reports ----------

  lemma MissingSpec(pool: map<nat, bytes>, i: nat, upTo: nat)
    ensures forall k :: k in Missing(pool, i, upTo) <==> i <= k <= upTo && k !in pool
    decreases upTo + 1 - i
  {
    if i <= upTo {
      MissingSpec(pool, i + 1, upTo);
    }
  }

  predicate Ascends(ns: seq<nat>) {
    forall j, k :: 0 <= j < k < |ns| ==> ns[j] < ns[k]
  }

  lemma AscendsFrom(i: nat, rest: seq<nat>)
    requires Ascends(rest) && forall k :: k in rest ==> i < k
    ensures Ascends([i] + rest)
  {
    forall j, k | 0 <= j < k < |[i] + rest| ensures ([i] + rest)[j] < ([i] + rest)[k] {
      assert ([i] + rest)[k] == rest[k - 1] && rest[k - 1] in rest;
    }
  }

  /** The gaps are listed in ascending order, each once. */
  lemma {:induction false} MissingAscends(pool: map<nat, bytes>, i: nat, upTo: nat)
    ensures Ascends(Missing(pool, i, upTo))
    decreases upTo + 1 - i
  {
    if i <= upTo {
      MissingAscends(pool, i + 1, upTo);
      MissingSpec(pool, i + 1, upTo);
      AscendsFrom(i, Missing(pool, i + 1, upTo));
      assert i in pool ==> Missing(pool, i, upTo) == Missing(pool, i + 1, upTo);
    }
  }

  /**
   The report of sendNCK: the numbers above recvNO, up to the one asked about, that have no entry, ascending, each once.
   They are counted in 16 bits; none is sent when the count exceeds the window, else as many as it says.
   */
  lemma ReportSpec(w: nat, r: Receiver, no: nat) returns (gaps: seq<nat>)
    ensures Ascends(gaps) && forall k :: k in gaps <==> r.recvNO < k <= no && k !in r.pool
    ensures SendNck(w, r, no) == if |gaps| % 65536 > w then [] else [Nck(no, gaps[..|gaps| % 65536])]
  {
    gaps := Missing(r.pool, r.recvNO + 1, no);
    MissingAscends(r.pool, r.recvNO + 1, no);
    MissingSpec(r.pool, r.recvNO + 1, no);
  }

  /** A report made by the packet loop is true, no longer than the window, and while the sender is open within reach. */
  lemma SendNckSound(s: System, no: nat, m: Msg)
    requires ValidMtu(s.mtu)
    requires no <= s.snd.sentNO <= s.rcv.recvNO + 2 * Window(s.mtu)
    requires s.snd.open ==> no <= s.rcv.recvNO + Window(s.mtu)
    requires m in SendNck(Window(s.mtu), s.rcv, no)
    ensures MsgOk(s, m)
  {
    var missing := Missing(s.rcv.pool, s.rcv.recvNO + 1, no);
    MissingSpec(s.rcv.pool, s.rcv.recvNO + 1, no);
    ReplyOf(Window(s.mtu), no, missing, m);
  }

  /** The 16-bit count of a list this short is its length. */
  lemma ReplyOf(w: nat, no: nat, missing: seq<nat>, m: Msg)
    requires w < 0x1_0000 && |missing| < 0x1_0000 && m in NckReply(w, no, missing)
    ensures m == Nck(no, missing) && |missing| <= w
  {
    assert missing[..|missing|] == missing;
  }

  // ---------- one step, one conjunct at a time ----------

  /** Everything a step never takes back. */
  ghost predicate Grows(s: System, t: System) {
    && s.mtu == t.mtu
    && s.frames <= t.frames
    && s.net <= t.net
    && s.snd.sentNO <= t.snd.sentNO
    && s.snd.ackNO <= t.snd.ackNO
    && s.rcv.recvNO <= t.rcv.recvNO
    && (t.snd.open ==> s.snd.open)
    && (!s.snd.open ==> t.snd.sentNO == s.snd.sentNO)
    && (forall k :: Holds(s.rcv, k) ==> Holds(t.rcv, k))
  }

  /** What resend sends again, number by number in the order of the list. */
  lemma {:induction false} ResentInOrder(pool: map<nat, bytes>, missing: seq<nat>, n: nat)
    ensures Resent(pool, missing + [n]) == Resent(pool, missing) + if n in pool then [Data(n, pool[n])] else []
    ensures Resent(pool, []) == []
    decreases |missing|
  {
    if missing == [] {
      assert missing + [n] == [n] && [n][1..] == [];
    } else {
      assert (missing + [n])[1..] == missing[1..] + [n];
      ResentInOrder(pool, missing[1..], n);
      var first := if missing[0] in pool then [Data(missing[0], pool[missing[0]])] else [];
      Associative(first, Resent(pool, missing[1..]), if n in pool then [Data(n, pool[n])] else []);
    }
  }

  lemma StepGrows(s: System, a: Action)
    requires ValidMtu(s.mtu)
    ensures Grows(s, Step(s, a))
  {
  }

  lemma StepSender(s: System, a: Action)
    requires ValidMtu(s.mtu) && SenderOk(s)
    requires a.AckNck? && Enabled(s, a) ==> a.nck.no <= s.snd.sentNO
    ensures SenderOk(Step(s, a))
  {
    if a.WriteFrame? && Enabled(s, a) {
      SenderWrites(s, a.payload);
    } else {
      SenderAside(s, a);
    }
  }

  lemma SenderWrites(s: System, p: bytes)
    requires ValidMtu(s.mtu) && SenderOk(s) && Enabled(s, WriteFrame(p))
    ensures SenderOk(Apply(s, WriteFrame(p)))
  {
  }

  /** Other steps write no frame. */
  lemma SenderAside(s: System, a: Action)
    requires ValidMtu(s.mtu) && SenderOk(s) && !(a.WriteFrame? && Enabled(s, a))
    requires a.AckNck? && Enabled(s, a) ==> a.nck.no <= s.snd.sentNO
    ensures SenderOk(Step(s, a))
  {
    var t := Step(s, a);
    assert t.frames == s.frames && t.snd.sentNO == s.snd.sentNO;
    assert forall k :: k in t.snd.pool ==> k in s.snd.pool && t.snd.pool[k] == s.snd.pool[k];
  }

  /** A pool that contains all of lo+1..hi has at least that many entries. */
  lemma PoolSize(pool: map<nat, bytes>, lo: nat, hi: nat)
    requires lo <= hi
    requires forall k :: lo < k <= hi ==> k in pool
    ensures hi - lo <= |pool|
    decreases hi - lo
  {
    if lo < hi {
      PoolSize(pool - {hi}, lo, hi - 1);
      assert pool.Keys - {hi} == (pool - {hi}).Keys;
    }
  }

  lemma SubsetSize(a: set<nat>, b: set<nat>)
    requires a <= b
    ensures |a| <= |b|
  {
    assert b == a + (b - a);
  }

  lemma WriteFlow(s: System, p: bytes)
    requires ValidMtu(s.mtu) && SenderOk(s) && FlowOk(s) && Enabled(s, WriteFrame(p))
    ensures FlowOk(Apply(s, WriteFrame(p)))
  {
    var w := Window(s.mtu);
    if s.snd.sentNO > s.rcv.recvNO + w {
      PoolSize(s.snd.pool, s.rcv.recvNO + w, s.snd.sentNO);
    }
  }

  lemma TrimFlow(s: System, m: Msg)
    requires ValidMtu(s.mtu) && FlowOk(s) && Enabled(s, HandleNck) && m == s.snd.ncks[0]
    requires s.snd.open ==> m.no <= s.rcv.recvNO + Window(s.mtu)
    ensures FlowOk(Apply(s, HandleNck))
  {
    var pool := Trim(s.snd.pool, m.no, m.missing);
    assert pool.Keys <= s.snd.pool.Keys;
    SubsetSize(pool.Keys, s.snd.pool.Keys);
  }

  lemma OtherFlow(s: System, a: Action)
    requires ValidMtu(s.mtu) && FlowOk(s) && !a.WriteFrame? && !a.HandleNck?
    requires a.Bump? && Enabled(s, a) ==> s.rcv.recvNO < s.snd.sentNO
    ensures FlowOk(Step(s, a))
  {
    var t := Step(s, a);
    assert t.snd.pool == s.snd.pool && t.snd.sentNO == s.snd.sentNO && (t.snd.open ==> s.snd.open);
    assert t.rcv.recvNO == s.rcv.recvNO + if a.Bump? && Enabled(s, a) then 1 else 0;
  }

  lemma StepFlow(s: State, a: Action)
    ensures FlowOk(Step(s, a))
  {
    if !Enabled(s, a) {
    } else if a.WriteFrame? {
      WriteFlow(s, a.payload);
    } else if a.HandleNck? {
      HeadOk(s);
      TrimFlow(s, s.snd.ncks[0]);
    } else {
      OtherFlow(s, a);
    }
  }

  lemma StepCovers(s: System, a: Action)
    requires ValidMtu(s.mtu) && PoolCovers(s)
    requires a.AckNck? && Enabled(s, a) ==> Truthful(s.rcv, a.nck.no, a.nck.missing)
    requires a.HandleNck? && Enabled(s, a) ==> Truthful(s.rcv, s.snd.ncks[0].no, s.snd.ncks[0].missing)
    ensures PoolCovers(Step(s, a))
  {
    StepGrows(s, a);
  }

  lemma ReceiverData(s: System, m: Msg)
    requires ValidMtu(s.mtu) && SenderOk(s) && FlowOk(s) && ReceiverOk(s)
    requires Enabled(s, RecvData(m)) && MsgOk(s, m)
    ensures ReceiverOk(ApplyData(s, m.no, m.payload))
    // the far-frame branch is dead
    ensures m.no <= s.rcv.recvNO + 2 * Window(s.mtu)
  {
  }

  lemma ReceiverWrite(s: System, p: bytes)
    requires ValidMtu(s.mtu) && ReceiverOk(s) && Enabled(s, WriteFrame(p))
    ensures ReceiverOk(Apply(s, WriteFrame(p)))
  {
  }

  lemma ReceiverDrain(s: System, a: Action)
    requires ValidMtu(s.mtu) && SenderOk(s) && FlowOk(s) && ReceiverOk(s)
    requires Enabled(s, a) && (a.Lookup? || a.Delete? || a.Push? || a.Bump?)
    ensures ReceiverOk(Apply(s, a))
  {
    if a.Bump? {
      ReceiverBump(s);
    } else if a.Delete? {
      ReceiverDelete(s);
    } else {
      ReceiverTurn(s, a);
    }
  }

  lemma ReceiverTurn(s: System, a: Action)
    requires ValidMtu(s.mtu) && |s.frames| == s.snd.sentNO && ReceiverOk(s)
    requires Enabled(s, a) && (a.Lookup? || a.Push?)
    ensures ReceiverOk(Apply(s, a))
  {
  }

  lemma ReceiverDelete(s: System)
    requires ValidMtu(s.mtu) && |s.frames| == s.snd.sentNO && ReceiverOk(s) && Enabled(s, Delete)
    ensures ReceiverOk(Apply(s, Delete))
  {
    var r, t := s.rcv, Apply(s, Delete);
    assert t == s.(rcv := r.(pool := r.pool - {r.recvNO}, loop := Pushing(r.loop.payload)));
    SmallerPool(s, t, r.loop.payload);
  }

  /** An older entry is gone, and the frame that comes next is about to be pushed. */
  lemma SmallerPool(s: System, t: System, p: bytes)
    requires ValidMtu(s.mtu) && |s.frames| == s.snd.sentNO && ReceiverOk(s) && s.rcv.loop == Found(p)
    requires t == s.(rcv := s.rcv.(pool := t.rcv.pool, loop := Pushing(p)))
    requires forall k :: k in t.rcv.pool ==> k in s.rcv.pool && t.rcv.pool[k] == s.rcv.pool[k]
    ensures ReceiverOk(t)
  {
  }

  lemma ReceiverBump(s: System)
    requires ValidMtu(s.mtu) && |s.frames| == s.snd.sentNO && FlowOk(s) && ReceiverOk(s) && Enabled(s, Bump)
    ensures ReceiverOk(Apply(s, Bump))
  {
  }

  lemma ReceiverFin(s: System, m: Msg)
    requires ValidMtu(s.mtu) && FlowOk(s) && ReceiverOk(s)
    requires Enabled(s, RecvFin(m)) && MsgOk(s, m)
    ensures ReceiverOk(Apply(s, RecvFin(m)))
  {
  }

  /** Actions that leave the packet loop, the pool and the frames alone. */
  lemma ReceiverOther(s: System, a: Action)
    requires ValidMtu(s.mtu) && ReceiverOk(s)
    requires BySender(a) || a.RecvQuery? || a.PassiveClose? || a.ScanStart? || a.ScanNext? || a.ScanEnd? || a.Read?
    ensures ReceiverOk(Step(s, a))
  {
    if BySender(a) {
      ReceiverSame(s, Step(s, a));
    } else {
      ReceiverAside(s, a);
    }
  }

  predicate BySender(a: Action) {
    a.Ask? || a.AckNck? || a.QueueNck? || a.HandleNck? || a.BeginWait? || a.Wake? || a.StartClose? || a.SendFin?
  }

  lemma ReceiverSame(s: System, t: System)
    requires ValidMtu(s.mtu) && ReceiverOk(s) && t.mtu == s.mtu && t.rcv == s.rcv && t.frames == s.frames
    requires t.snd.sentNO == s.snd.sentNO && (!s.snd.open ==> !t.snd.open)
    ensures ReceiverOk(t)
  {
  }

  lemma ReceiverAside(s: System, a: Action)
    requires ValidMtu(s.mtu) && ReceiverOk(s)
    requires a.RecvQuery? || a.PassiveClose? || a.ScanStart? || a.ScanNext? || a.ScanEnd? || a.Read?
    ensures ReceiverOk(Step(s, a))
  {
  }

  lemma StepReceiver(s: State, a: Action)
    ensures ReceiverOk(Step(s, a))
  {
    if !Enabled(s, a) {
    } else if a.RecvData? {
      assert MsgOk(s, a.data);
      ReceiverData(s, a.data);
    } else if a.RecvFin? {
      assert MsgOk(s, a.fin);
      ReceiverFin(s, a.fin);
    } else if a.WriteFrame? {
      ReceiverWrite(s, a.payload);
    } else if a.Lookup? || a.Delete? || a.Push? || a.Bump? {
      ReceiverDrain(s, a);
    } else {
      ReceiverOther(s, a);
    }
  }

  lemma WriteConserved(s: System, p: bytes)
    requires ValidMtu(s.mtu) && Conserved(s) && Enabled(s, WriteFrame(p))
    ensures Conserved(Apply(s, WriteFrame(p)))
  {
    assert (s.frames + [p])[..Delivered(s.rcv)] == s.frames[..Delivered(s.rcv)];
  }

  lemma CloseConserved(s: System)
    requires ValidMtu(s.mtu) && Conserved(s) && Enabled(s, PassiveClose)
    ensures Conserved(Apply(s, PassiveClose))
  {
    assert Concat(s.pushed) == s.early + s.rcv.buf + [] + [] + Concat(s.rcv.inbound);
  }

  /** Actions that leave everything between `frames` and the application alone. */
  lemma QuietStep(s: System, a: Action)
    requires ValidMtu(s.mtu) && Conserved(s)
    requires !a.Push? && !a.Read? && !a.WriteFrame? && !a.PassiveClose?
    ensures Conserved(Step(s, a))
  {
    QuietFields(s, a);
    QuietDelivered(s, a);
  }

  lemma QuietFields(s: System, a: Action)
    requires ValidMtu(s.mtu) && !a.Push? && !a.Read? && !a.WriteFrame? && !a.PassiveClose?
    ensures
      var t := Step(s, a);
      && t.frames == s.frames && t.pushed == s.pushed && t.early == s.early && t.lost == s.lost && t.late == s.late
      && t.rcv.buf == s.rcv.buf && t.rcv.inbound == s.rcv.inbound && t.rcv.closed == s.rcv.closed
  {
  }

  lemma QuietDelivered(s: System, a: Action)
    requires ValidMtu(s.mtu) && !a.Push?
    ensures Delivered(Step(s, a).rcv) == Delivered(s.rcv)
  {
  }

  lemma StepConserved(s: State, a: Action)
    ensures Conserved(Step(s, a))
  {
    if !Enabled(s, a) {
    } else if a.Push? {
      PushConserved(s);
    } else if a.Read? {
      ReadConserved(s, a.size);
    } else if a.WriteFrame? {
      WriteConserved(s, a.payload);
    } else if a.PassiveClose? {
      CloseConserved(s);
    } else {
      QuietStep(s, a);
    }
  }

  lemma PushBytes(pushed: seq<bytes>, inbound: seq<bytes>, before: bytes, p: bytes)
    requires Concat(pushed) == before + Concat(inbound)
    ensures Concat(pushed + [p]) == before + Concat(inbound + [p])
  {
    ConcatSnoc(pushed, p);
    ConcatSnoc(inbound, p);
    Associative(before, Concat(inbound), p);
  }

  lemma PushOrder(frames: seq<bytes>, n: nat)
    requires n < |frames|
    ensures frames[..n + 1] == frames[..n] + [frames[n]] && frames[n] in frames
  {
  }

  lemma PushConserved(s: System)
    requires ValidMtu(s.mtu) && SenderOk(s) && ReceiverOk(s) && Conserved(s) && Enabled(s, Push)
    ensures Conserved(Apply(s, Push))
  {
    PushBytes(s.pushed, s.rcv.inbound, s.early + s.lost + s.late + s.rcv.buf, s.rcv.loop.payload);
    PushOrder(s.frames, s.rcv.recvNO);
  }

  lemma ReadBytes(all: bytes, early: bytes, late: bytes, buf: bytes, queued: bytes, data: bytes, n: nat, rest: bytes)
    requires all == early + late + buf + queued && n <= |data|
    requires buf + queued == data + rest
    ensures all == early + (late + data[..n]) + data[n..] + rest
    ensures late == [] ==> all == (early + data[..n]) + late + data[n..] + rest
  {
    assert data == data[..n] + data[n..];
    assert all == early + late + (buf + queued);
  }

  lemma ReadConserved(s: System, size: nat)
    requires Conserved(s) && (s.rcv.buf != [] || s.rcv.inbound != [])
    ensures Conserved(ApplyRead(s, size))
  {
    var r := s.rcv;
    var data := if r.buf != [] then r.buf else r.inbound[0];
    var rest := if r.buf != [] then r.inbound else r.inbound[1..];
    ReadBytes(Concat(s.pushed), s.early + s.lost, s.late, r.buf, Concat(r.inbound), data, Min(size, |data|), Concat(rest));
    if !r.closed {
      assert s.early + s.lost == s.early;
      assert (s.early + data[..Min(size, |data|)]) + [] == s.early + data[..Min(size, |data|)];
    }
    assert forall f :: f in rest ==> f in r.inbound;
  }

  lemma MsgStays(s: System, t: System, m: Msg)
    requires ValidMtu(s.mtu) && MsgOk(s, m) && Grows(s, t)
    requires t.rcv.recvNO <= t.snd.sentNO
    ensures MsgOk(t, m)
  {
  }

  // ---------- what each action says on the network ----------

  lemma AskOk(s: System, sent: nat, ack: nat)
    requires ValidMtu(s.mtu) && PoolCovers(s) && SenderOk(s)
    requires Enabled(s, Ask(sent, ack))
    ensures MsgOk(s, Query(Min(sent, ack + Window(s.mtu))))
  {
  }

  lemma DataReplyOk(s: System, no: nat, p: bytes, m: Msg)
    requires ValidMtu(s.mtu) && FlowOk(s) && no <= s.snd.sentNO
    requires m in ApplyData(s, no, p).net && m !in s.net
    ensures MsgOk(s, m)
  {
    var w, r := Window(s.mtu), s.rcv;
    assert no <= r.recvNO + 2 * w;
    SendNckSound(s, Min(r.recvNO + w, no), m);
  }

  lemma FinReplyOk(s: System, no: nat, m: Msg)
    requires ValidMtu(s.mtu) && FlowOk(s) && MsgOk(s, Fin(no))
    requires m in if s.rcv.recvNO < no then SendNck(Window(s.mtu), s.rcv, no) else [FinAck(no)]
    ensures MsgOk(s, m)
  {
    if s.rcv.recvNO < no {
      SendNckSound(s, no, m);
    }
  }

  /** An answer to a query is true, and is never dropped for overflow. */
  lemma ScanReplyOk(s: System)
    requires ValidMtu(s.mtu) && ScanOk(s) && Enabled(s, ScanEnd)
    ensures NckReply(Window(s.mtu), s.rcv.scan.upTo, s.rcv.scan.missing) == [Nck(s.rcv.scan.upTo, s.rcv.scan.missing)]
    ensures MsgOk(s, Nck(s.rcv.scan.upTo, s.rcv.scan.missing))
  {
    var c := s.rcv.scan;
    assert c.missing[..|c.missing|] == c.missing;
  }

  lemma {:induction false} ResentSpec(pool: map<nat, bytes>, missing: seq<nat>)
    ensures forall m :: m in Resent(pool, missing) <==> m.Data? && m.no in missing && m.no in pool && m.payload == pool[m.no]
  {
    if missing != [] {
      ResentSpec(pool, missing[1..]);
      assert missing == [missing[0]] + missing[1..];
    }
  }

  /** Every frame resend sends is a written one, with its number and its bytes. */
  lemma ResentOk(s: System, missing: seq<nat>, m: Msg)
    requires ValidMtu(s.mtu) && SenderOk(s) && m in Resent(s.snd.pool, missing)
    ensures MsgOk(s, m)
  {
    ResentSpec(s.snd.pool, missing);
  }

  /** What s allows on its network, its successor allows too. */
  lemma OldNetOk(s: System, a: Action)
    requires ValidMtu(s.mtu) && NetOk(s)
    requires Step(s, a).rcv.recvNO <= Step(s, a).snd.sentNO
    ensures forall m :: m in s.net ==> MsgOk(Step(s, a), m)
  {
    var t := Step(s, a);
    StepGrows(s, a);
    forall m | m in s.net ensures MsgOk(t, m) {
      MsgStays(s, t, m);
    }
  }

  lemma NewNetOk(s: State, a: Action, m: Msg)
    requires Enabled(s, a) && m in Step(s, a).net && m !in s.net && !a.WriteFrame?
    ensures MsgOk(s, m)
  {
    match a {
      case Ask(x, y) => AskOk(s, x, y);
      case RecvData(d) => DataNetOk(s, d, m);
      case RecvFin(f) => FinNetOk(s, f, m);
      case ScanEnd => ScanReplyOk(s);
      case HandleNck => ResentOk(s, s.snd.ncks[0].missing, m);
      case _ =>
    }
  }

  lemma DataNetOk(s: State, d: Msg, m: Msg)
    requires Enabled(s, RecvData(d)) && m in Step(s, RecvData(d)).net && m !in s.net
    ensures MsgOk(s, m)
  {
    assert MsgOk(s, d);
    DataReplyOk(s, d.no, d.payload, m);
  }

  lemma FinNetOk(s: State, f: Msg, m: Msg)
    requires Enabled(s, RecvFin(f)) && m in Step(s, RecvFin(f)).net && m !in s.net
    ensures MsgOk(s, m)
  {
    assert MsgOk(s, f);
    FinReplyOk(s, f.no, m);
  }

  lemma StepMsg(s: State, a: Action, m: Msg)
    requires Step(s, a).rcv.recvNO <= Step(s, a).snd.sentNO
    requires m in Step(s, a).net && m !in s.net
    ensures MsgOk(Step(s, a), m)
  {
    if a.WriteFrame? {
      assert m == Data(s.snd.sentNO + 1, a.payload);
    } else {
      StepGrows(s, a);
      NewNetOk(s, a, m);
      MsgStays(s, Step(s, a), m);
    }
  }

  lemma StepNet(s: State, a: Action)
    requires Step(s, a).rcv.recvNO <= Step(s, a).snd.sentNO
    ensures NetOk(Step(s, a))
  {
    var t := Step(s, a);
    StepGrows(s, a);
    OldNetOk(s, a);
    forall m | m in t.net && m !in s.net ensures MsgOk(t, m) {
      StepMsg(s, a, m);
    }
  }

  lemma HeadOk(s: State)
    requires s.snd.ncks != []
    ensures s.snd.ncks[0].Nck? && NckOk(s, s.snd.ncks[0].no, s.snd.ncks[0].missing)
  {
    assert s.snd.ncks[0] in s.snd.ncks;
    assert MsgOk(s, s.snd.ncks[0]);
  }

  /** What is in the queue stays true. */
  lemma QueueStays(s: State, t: System)
    requires Grows(s, t) && t.rcv.recvNO <= t.snd.sentNO
    ensures forall m :: m in s.snd.ncks ==> m.Nck? && MsgOk(t, m)
    ensures forall m :: m in s.snd.hand ==> m.Nck? && MsgOk(t, m)
  {
    forall m | m in s.snd.ncks ensures m.Nck? && MsgOk(t, m) { MsgStays(s, t, m); }
    forall m | m in s.snd.hand ensures m.Nck? && MsgOk(t, m) { MsgStays(s, t, m); }
  }

  /** Which NCKs a step leaves in the queue. */
  lemma QueueStep(s: System, a: Action)
    requires ValidMtu(s.mtu) && |s.snd.hand| <= 1 && |s.snd.ncks| <= NCK_QUEUE
    ensures
      var t := Step(s, a);
      && |t.snd.hand| <= 1 && |t.snd.ncks| <= NCK_QUEUE
      && (forall m :: m in t.snd.ncks ==> m in s.snd.ncks || m in s.snd.hand)
      && (forall m :: m in t.snd.hand ==> m in s.snd.hand || (a.AckNck? && m == a.nck && Enabled(s, a)))
  {
    if a.HandleNck? && Enabled(s, a) {
      assert forall m :: m in s.snd.ncks[1..] ==> m in s.snd.ncks;
    }
  }

  lemma StepQueue(s: State, a: Action)
    requires Step(s, a).rcv.recvNO <= Step(s, a).snd.sentNO
    ensures QueueOk(Step(s, a))
  {
    var t := Step(s, a);
    StepGrows(s, a);
    QueueStays(s, t);
    QueueStep(s, a);
    if a.AckNck? && Enabled(s, a) {
      assert MsgOk(s, a.nck);
      MsgStays(s, t, a.nck);
    }
  }

  lemma QueryScan(s: System, m: Msg)
    requires ValidMtu(s.mtu) && ScanOk(s) && PoolCovers(s) && ReceiverOk(s)
    requires Enabled(s, RecvQuery(m)) && MsgOk(s, m)
    ensures ScanOk(Apply(s, RecvQuery(m)))
  {
    assert !Holds(s.rcv, s.rcv.recvNO + 1);
  }

  lemma StartScan(s: System)
    requires ValidMtu(s.mtu) && ScanOk(s) && Enabled(s, ScanStart)
    ensures ScanOk(Apply(s, ScanStart))
  {
    assert s.rcv.queries[0] in s.rcv.queries;
    assert forall q :: q in s.rcv.queries[1..] ==> q in s.rcv.queries;
  }

  lemma NextScan(s: System)
    requires ValidMtu(s.mtu) && ScanOk(s) && Enabled(s, ScanNext)
    ensures ScanOk(Apply(s, ScanNext))
  {
  }

  lemma OtherScan(s: System, t: System)
    requires ValidMtu(s.mtu) && ScanOk(s) && Grows(s, t)
    requires t.rcv.queries == s.rcv.queries && (t.rcv.scan == s.rcv.scan || t.rcv.scan == NoScan)
    ensures ScanOk(t)
  {
  }

  lemma StepScan(s: State, a: Action)
    ensures ScanOk(Step(s, a))
  {
    if a.RecvQuery? && Enabled(s, a) {
      assert MsgOk(s, a.query);
      QueryScan(s, a.query);
    } else {
      ScanStep(s, a);
    }
  }

  lemma ScanStep(s: System, a: Action)
    requires ValidMtu(s.mtu) && ScanOk(s) && !(a.RecvQuery? && Enabled(s, a))
    ensures ScanOk(Step(s, a))
  {
    if !Enabled(s, a) {
    } else if a.ScanStart? {
      StartScan(s);
    } else if a.ScanNext? {
      NextScan(s);
    } else {
      StepGrows(s, a);
      ScanAside(s, a);
      OtherScan(s, Step(s, a));
    }
  }

  lemma ScanAside(s: System, a: Action)
    requires ValidMtu(s.mtu) && !a.RecvQuery? && !a.ScanStart? && !a.ScanNext?
    ensures
      var t := Step(s, a);
      t.rcv.queries == s.rcv.queries && (t.rcv.scan == s.rcv.scan || t.rcv.scan == NoScan)
  {
  }

  // ---------- every step, every run ----------

  lemma StepKeeps(s: State, a: Action) returns (t: State)
    ensures t == Step(s, a) && Grows(s, t)
  {
    if Enabled(s, a) && a.AckNck? {
      assert MsgOk(s, a.nck);
    }
    if Enabled(s, a) && a.HandleNck? {
      HeadOk(s);
    }
    StepGrows(s, a);
    StepSender(s, a);
    StepFlow(s, a);
    StepCovers(s, a);
    StepReceiver(s, a);
    StepConserved(s, a);
    StepNet(s, a);
    StepQueue(s, a);
    StepScan(s, a);
    t := Step(s, a);
  }

  /** Any part of the network may be lost at any moment. */
  lemma LossKeeps(s: State, left: set<Msg>) returns (t: State)
    requires left <= s.net
    ensures t == s.(net := left)
  {
    var u := s.(net := left);
    forall m | m in left ensures MsgOk(u, m) {
      assert MsgOk(s, m);
    }
    assert SenderOk(u) && FlowOk(u) && PoolCovers(u);
    LossAside(s, u);
    t := u;
  }

  lemma LossAside(s: State, u: System)
    requires u == s.(net := u.net)
    ensures ReceiverOk(u) && Conserved(u) && ScanOk(u) && QueueOk(u)
  {
    ReceiverSame(s, u);
    forall m | m in s.snd.ncks ensures MsgOk(u, m) { assert MsgOk(s, m); }
    forall m | m in s.snd.hand ensures MsgOk(u, m) { assert MsgOk(s, m); }
  }

  lemma GrowsFurther(s: System, t: System, u: System)
    requires Grows(s, t) && Grows(t, u)
    ensures Grows(s, u)
  {
  }

  lemma {:induction false} ExecKeeps(s: State, acts: seq<Action>) returns (t: State)
    ensures t == Exec(s, acts) && Grows(s, t)
  {
    if acts == [] {
      t := s;
    } else {
      var u := ExecKeeps(s, acts[..|acts| - 1]);
      t := StepKeeps(u, acts[|acts| - 1]);
      GrowsFurther(s, u, t);
    }
  }
}
