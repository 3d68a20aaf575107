/** RDT frames as bytes: buildFrame and send on one side, recvPacket and recv on the other. */
module RdtWire {
  import opened Wrappers
  import opened Bytes
  import opened RdtProtocol
  import opened RdtSafety
  import opened RdtGuarantees

  /** | CMD 1 | NO 4 | LENGTH 2 | DATA | */
  function BuildFrame(cmd: byte, no: nat, length: nat, data: bytes): (r: bytes)
    ensures |r| == 7 + |data|
  {
    [cmd] + BE32(no) + BE16(length) + data
  }

  /** The numbers of an NCK, appended one after the other. */
  function Numbers(ns: seq<nat>): (r: bytes)
    ensures |r| == 4 * |ns|
  {
    if ns == [] then [] else Numbers(ns[..|ns| - 1]) + BE32(ns[|ns| - 1])
  }

  function Encode(m: Msg): bytes {
    match m
    case Data(no, p) => BuildFrame(0, no, |p|, p)
    case Query(no) => BuildFrame(1, no, 0, [])
    case Nck(no, missing) => BuildFrame(2, no, 4 * |missing|, Numbers(missing))
    case Fin(no) => BuildFrame(21, no, 0, [])
    case FinAck(no) => BuildFrame(22, no, 0, [])
  }

  /** send: a server sets the top bit of the command. */
  function Mark(server: bool, pkt: bytes): (r: bytes)
    requires |pkt| >= 1
    ensures |r| == |pkt|
  {
    if server && pkt[0] < 128 then [pkt[0] + 128] + pkt[1..] else pkt
  }

  /** recvPacket: was the top bit set, and the packet without it. */
  function Unmark(pkt: bytes): (bool, bytes)
    requires |pkt| >= 1
  {
    if pkt[0] >= 128 then (true, [pkt[0] - 128] + pkt[1..]) else (false, pkt)
  }

  /** The first `count` numbers of a list of numbers. */
  function ParseNumbers(b: bytes, count: nat): (r: seq<nat>)
    requires |b| >= 4 * count
    ensures |r| == count
  {
    if count == 0 then [] else ParseNumbers(b, count - 1) + [FromBE32(b[4 * count - 4..4 * count])]
  }

  /** recv. None stands for a packet that makes recv panic, or that it ignores. */
  function Decode(pkt: bytes): Option<Msg>
    requires |pkt| >= 7
  {
    var cmd, no, l := pkt[0], FromBE32(pkt[1..5]), FromBE16(pkt[5..7]);
    if cmd == 0 then if 7 + l <= |pkt| then Some(Data(no, pkt[7..7 + l])) else None
    else if cmd == 1 then Some(Query(no))
    else if cmd == 2 then
      if 7 + l / 4 * 4 <= |pkt| then Some(Nck(no, ParseNumbers(pkt[7..], l / 4))) else None
    else if cmd == 21 then Some(Fin(no))
    else if cmd == 22 then Some(FinAck(no))
    else None
  }

  /** A message that the fields of a frame can carry within an MTU. */
  ghost predicate Fits(mtu: nat, m: Msg) {
    && m.no < 0x1_0000_0000
    && (m.Data? ==> 7 + |m.payload| <= mtu)
    && (m.Nck? ==> 7 + 4 * |m.missing| <= mtu && forall i :: 0 <= i < |m.missing| ==> m.missing[i] < 0x1_0000_0000)
  }

  lemma HeaderRoundTrip(cmd: byte, no: nat, length: nat, data: bytes)
    requires no < 0x1_0000_0000 && length < 0x1_0000
    ensures
      var pkt := BuildFrame(cmd, no, length, data);
      pkt[0] == cmd && FromBE32(pkt[1..5]) == no && FromBE16(pkt[5..7]) == length && pkt[7..] == data
  {
    var pkt := BuildFrame(cmd, no, length, data);
    assert pkt[1..5] == BE32(no);
    assert pkt[5..7] == BE16(length);
    BE32RoundTrip(no);
    BE16RoundTrip(length);
  }

  lemma {:induction false} NumbersRoundTrip(ns: seq<nat>, tail: bytes)
    requires forall i :: 0 <= i < |ns| ==> ns[i] < 0x1_0000_0000
    ensures ParseNumbers(Numbers(ns) + tail, |ns|) == ns
  {
    if ns != [] {
      var n := |ns| - 1;
      var last := BE32(ns[n]);
      NumbersRoundTrip(ns[..n], last + tail);
      assert Numbers(ns) + tail == Numbers(ns[..n]) + (last + tail);
      assert (Numbers(ns) + tail)[4 * n..4 * n + 4] == last;
      BE32RoundTrip(ns[n]);
      assert ns == ns[..n] + [ns[n]];
    }
  }

  lemma MarkRoundTrip(server: bool, pkt: bytes)
    requires |pkt| >= 1 && pkt[0] < 128
    ensures Unmark(Mark(server, pkt)) == (server, pkt)
  {
    assert pkt == [pkt[0]] + pkt[1..];
    if server {
      assert Mark(server, pkt)[1..] == pkt[1..];
    }
  }

  lemma DataRoundTrip(no: nat, p: bytes)
    requires no < 0x1_0000_0000 && |p| < 0x1_0000
    ensures Decode(Encode(Data(no, p))) == Some(Data(no, p))
  {
    HeaderRoundTrip(0, no, |p|, p);
    var pkt := BuildFrame(0, no, |p|, p);
    assert pkt[7..7 + |p|] == pkt[7..];
  }

  lemma DecodeNck(pkt: bytes, no: nat, l: nat, body: bytes)
    requires |pkt| >= 7 && pkt[0] == 2 && FromBE32(pkt[1..5]) == no && FromBE16(pkt[5..7]) == l && pkt[7..] == body
    requires l % 4 == 0 && l <= |body|
    ensures Decode(pkt) == Some(Nck(no, ParseNumbers(body, l / 4)))
  {
  }

  lemma NckRoundTrip(no: nat, missing: seq<nat>)
    requires Fits(1500, Nck(no, missing))
    ensures Decode(Encode(Nck(no, missing))) == Some(Nck(no, missing))
  {
    var body := Numbers(missing);
    HeaderRoundTrip(2, no, 4 * |missing|, body);
    DecodeNck(BuildFrame(2, no, 4 * |missing|, body), no, 4 * |missing|, body);
    NumbersAlone(missing);
    Quarter(|missing|);
  }

  lemma NumbersAlone(ns: seq<nat>)
    requires forall i :: 0 <= i < |ns| ==> ns[i] < 0x1_0000_0000
    ensures ParseNumbers(Numbers(ns), |ns|) == ns
  {
    NumbersRoundTrip(ns, []);
    assert Numbers(ns) + [] == Numbers(ns);
  }

  lemma Quarter(n: nat)
    ensures 4 * n % 4 == 0 && 4 * n / 4 == n
  {
  }

  lemma ControlRoundTrip(cmd: byte, no: nat)
    requires no < 0x1_0000_0000 && (cmd == 1 || cmd == 21 || cmd == 22)
    ensures Decode(BuildFrame(cmd, no, 0, [])) == Some(if cmd == 1 then Query(no) else if cmd == 21 then Fin(no) else FinAck(no))
  {
    HeaderRoundTrip(cmd, no, 0, []);
  }

  /** What is encoded, marked, sent, unmarked and decoded is the same message, and it fits the MTU. */
  lemma WireRoundTrip(mtu: nat, server: bool, m: Msg)
    requires 7 <= mtu <= 1500 && Fits(mtu, m)
    ensures 7 <= |Encode(m)| == |Mark(server, Encode(m))| <= mtu
    ensures Unmark(Mark(server, Encode(m))) == (server, Encode(m))
    ensures Decode(Encode(m)) == Some(m)
  {
    MarkRoundTrip(server, Encode(m));
    match m {
      case Data(no, p) => DataRoundTrip(no, p);
      case Nck(no, missing) => NckRoundTrip(no, missing);
      case Query(no) => ControlRoundTrip(1, no);
      case Fin(no) => ControlRoundTrip(21, no);
      case FinAck(no) => ControlRoundTrip(22, no);
    }
  }

  lemma MsgFits(s: System, m: Msg)
    requires ValidMtu(s.mtu) && SenderOk(s) && FlowOk(s) && MsgOk(s, m)
    ensures Fits(s.mtu, m)
  {
    if m.Data? {
      assert m.payload in s.frames;
    }
    if m.Nck? {
      forall i | 0 <= i < |m.missing| ensures m.missing[i] < 0x1_0000_0000 {
        assert m.missing[i] in m.missing;
      }
    }
  }

  /** Working with messages instead of bytes loses nothing: every message ever sent in any run fits the MTU and
      arrives as itself, marked with the side it came from. */
  lemma WireIsTransparent(mtu: nat, acts: seq<Action>, m: Msg, server: bool)
    requires ValidMtu(mtu) && m in Exec(Init(mtu), acts).net
    ensures 7 <= |Encode(m)| == |Mark(server, Encode(m))| <= mtu
    ensures Unmark(Mark(server, Encode(m))) == (server, Encode(m))
    ensures Decode(Encode(m)) == Some(m)
  {
    var s := Reachable(mtu, acts);
    MsgFits(s, m);
    WireRoundTrip(mtu, server, m);
  }

  // ---------- byte by byte ----------

  /** The command of a message. */
  function Command(m: Msg): byte {
    match m
    case Data(_, _) => 0
    case Query(_) => 1
    case Nck(_, _) => 2
    case Fin(_) => 21
    case FinAck(_) => 22
  }

  lemma FrameLayout(cmd: byte, no: nat, length: nat, data: bytes)
    requires no < 0x1_0000_0000 && length < 0x1_0000
    ensures
      var b := BuildFrame(cmd, no, length, data);
      && b[0] == cmd && ((b[1] as int * 256 + b[2] as int) * 256 + b[3] as int) * 256 + b[4] as int == no
      && b[5] as int * 256 + b[6] as int == length && b[7..] == data
  {
    var b := BuildFrame(cmd, no, length, data);
    BigEndian32(no);
    BigEndian16(length);
    assert b[1..5] == BE32(no) && b[5..7] == BE16(length);
    assert b[1..5][0] == b[1] && b[1..5][1] == b[2] && b[1..5][2] == b[3] && b[1..5][3] == b[4];
  }

  lemma {:induction false} NumbersLayout(ns: seq<nat>, i: nat)
    requires i < |ns| && forall j :: 0 <= j < |ns| ==> ns[j] < 0x1_0000_0000
    ensures
      var b := Numbers(ns)[4 * i..4 * i + 4];
      ((b[0] as int * 256 + b[1] as int) * 256 + b[2] as int) * 256 + b[3] as int == ns[i]
  {
    var n := |ns| - 1;
    if i < n {
      NumbersLayout(ns[..n], i);
      assert Numbers(ns)[4 * i..4 * i + 4] == Numbers(ns[..n])[4 * i..4 * i + 4];
    } else {
      assert Numbers(ns)[4 * i..4 * i + 4] == BE32(ns[n]);
      BigEndian32(ns[n]);
    }
  }

  /**
   A packet: the command 0 to 2, 21 or 22, its top bit set by a server, the number in four bytes and the length of what
   follows in two, the most significant first; then the bytes of the frame, or the missing numbers (ReportLayout).
   */
  lemma {:induction false} WireLayout(mtu: nat, server: bool, m: Msg)
    requires 7 <= mtu <= 1500 && Fits(mtu, m)
    ensures
      var b := Mark(server, Encode(m));
      && b[0] as int == (match m case Data(_, _) => 0 case Query(_) => 1 case Nck(_, _) => 2 case Fin(_) => 21 case FinAck(_) => 22)
                        + (if server then 128 else 0)
      && ((b[1] as int * 256 + b[2] as int) * 256 + b[3] as int) * 256 + b[4] as int == m.no
      && b[5] as int * 256 + b[6] as int == |b| - 7
      && (m.Data? ==> b[7..] == m.payload)
      && (m.Nck? ==> |b| == 7 + 4 * |m.missing|)
      && (!m.Data? && !m.Nck? ==> |b| == 7)
  {
    var data := if m.Data? then m.payload else if m.Nck? then Numbers(m.missing) else [];
    FrameLayout(Command(m), m.no, |data|, data);
    MarkedLayout(server, Encode(m));
  }

  /** Number i of a report, in four bytes from 7 + 4 i on. */
  lemma {:induction false} ReportLayout(server: bool, no: nat, missing: seq<nat>, i: nat)
    requires Fits(1500, Nck(no, missing)) && i < |missing|
    ensures
      var n := Mark(server, Encode(Nck(no, missing)))[7..][4 * i..4 * i + 4];
      ((n[0] as int * 256 + n[1] as int) * 256 + n[2] as int) * 256 + n[3] as int == missing[i]
  {
    FrameLayout(2, no, 4 * |missing|, Numbers(missing));
    MarkedLayout(server, Encode(Nck(no, missing)));
    NumbersLayout(missing, i);
  }

  lemma MarkedLayout(server: bool, pkt: bytes)
    requires |pkt| >= 7 && pkt[0] < 128
    ensures
      var b := Mark(server, pkt);
      && b[0] as int == pkt[0] as int + (if server then 128 else 0) && b[7..] == pkt[7..]
      && b[1] == pkt[1] && b[2] == pkt[2] && b[3] == pkt[3] && b[4] == pkt[4] && b[5] == pkt[5] && b[6] == pkt[6]
  {
  }

  /** The window is the largest number of gaps whose report fits the MTU, and a frame the largest payload that does. */
  lemma WindowIsLargest(mtu: nat, no: nat, missing: seq<nat>, payload: bytes)
    requires ValidMtu(mtu)
    ensures |Encode(Nck(no, missing))| <= mtu <==> |missing| <= Window(mtu)
    ensures |Encode(Data(no, payload))| <= mtu <==> |payload| <= FrameSize(mtu)
  {
  }

  // ---------- packets that are not as they were sent ----------

  /** What follows a message in its packet is not looked at. */
  lemma TailIgnored(m: Msg, tail: bytes)
    requires Fits(1500, m)
    ensures Decode(Encode(m) + tail) == Some(m)
  {
    match m {
      case Data(no, p) => DataTail(no, p, tail);
      case Nck(no, missing) => NckTail(no, missing, tail);
      case Query(no) => ControlTail(1, no, tail);
      case Fin(no) => ControlTail(21, no, tail);
      case FinAck(no) => ControlTail(22, no, tail);
    }
  }

  lemma DataTail(no: nat, p: bytes, tail: bytes)
    requires Fits(1500, Data(no, p))
    ensures Decode(Encode(Data(no, p)) + tail) == Some(Data(no, p))
  {
    var pkt := BuildFrame(0, no, |p|, p);
    HeaderRoundTrip(0, no, |p|, p);
    HeaderKept(pkt, tail);
    assert (pkt + tail)[7..7 + |p|] == pkt[7..];
  }

  lemma NckTail(no: nat, missing: seq<nat>, tail: bytes)
    requires Fits(1500, Nck(no, missing))
    ensures Decode(Encode(Nck(no, missing)) + tail) == Some(Nck(no, missing))
  {
    var pkt := BuildFrame(2, no, 4 * |missing|, Numbers(missing));
    HeaderRoundTrip(2, no, 4 * |missing|, Numbers(missing));
    HeaderKept(pkt, tail);
    DecodeNck(pkt + tail, no, 4 * |missing|, Numbers(missing) + tail);
    NumbersRoundTrip(missing, tail);
    Quarter(|missing|);
  }

  lemma ControlTail(cmd: byte, no: nat, tail: bytes)
    requires no < 0x1_0000_0000 && (cmd == 1 || cmd == 21 || cmd == 22)
    ensures
      Decode(BuildFrame(cmd, no, 0, []) + tail) ==
      Some(if cmd == 1 then Query(no) else if cmd == 21 then Fin(no) else FinAck(no))
  {
    HeaderRoundTrip(cmd, no, 0, []);
    HeaderKept(BuildFrame(cmd, no, 0, []), tail);
  }

  lemma HeaderKept(pkt: bytes, tail: bytes)
    requires |pkt| >= 7
    ensures (pkt + tail)[0] == pkt[0] && (pkt + tail)[1..5] == pkt[1..5] && (pkt + tail)[5..7] == pkt[5..7]
    ensures (pkt + tail)[7..] == pkt[7..] + tail
  {
  }

  /** A frame or a report that is cut short is dropped, and so is a packet with any other command. */
  lemma DroppedPackets(pkt: bytes)
    requires |pkt| >= 7
    ensures pkt[0] !in [0, 1, 2, 21, 22] ==> Decode(pkt) == None
    ensures pkt[0] == 0 ==> (Decode(pkt) == None <==> pkt[5] as int * 256 + pkt[6] as int > |pkt| - 7)
    ensures pkt[0] == 2 ==>
              var l := pkt[5] as int * 256 + pkt[6] as int;
              Decode(pkt) == None <==> l - l % 4 > |pkt| - 7
  {
    ReadBigEndian(pkt[5..7]);
    assert pkt[5..7][0] == pkt[5] && pkt[5..7][1] == pkt[6];
  }
}
