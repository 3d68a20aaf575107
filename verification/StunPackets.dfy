/**
 STUN packets byte by byte, and every verdict of the parsers, in the numbers of RFC 5389 and with exclusive or taken bit
 by bit: nothing here rests on what printers and parsers share.
 */
module StunPackets {
  import opened Wrappers
  import opened Bytes
  import opened StunAttrs
  import opened Stun
  import opened StunTheorems

  // ---------- exclusive or ----------

  /** Bit i of n. */
  predicate Bit(n: nat, i: nat) {
    if i == 0 then n % 2 == 1 else Bit(n / 2, i - 1)
  }

  lemma {:induction false} XorBits(a: nat, b: nat, i: nat)
    ensures Bit(XorNat(a, b), i) <==> Bit(a, i) != Bit(b, i)
    decreases i
  {
    LowBit(XorNat(a / 2, b / 2), a, b);
    if i > 0 {
      XorBits(a / 2, b / 2, i - 1);
      XorHalf(a, b);
    }
  }

  lemma XorHalf(a: nat, b: nat)
    ensures XorNat(a, b) / 2 == XorNat(a / 2, b / 2)
  {
  }

  // ---------- what is sent ----------

  /** What octet i of an address is masked with: the magic cookie, then the transaction. */
  function Mask(tx: TxId, i: nat): byte
    requires i < 16
  {
    if i == 0 then 0x21 else if i == 1 then 0x12 else if i == 2 then 0xA4 else if i == 3 then 0x42 else tx[i - 4]
  }

  lemma HeaderLayout(kind: bytes, length: nat, tx: TxId, rest: bytes)
    requires |kind| == 2 && length < 0x1_0000
    ensures
      var b := Header(kind, length, tx) + rest;
      && b[..2] == kind && b[2] as int * 256 + b[3] as int == length
      && b[4..8] == [0x21, 0x12, 0xA4, 0x42] && b[8..20] == tx && b[20..] == rest
  {
    var h := Header(kind, length, tx);
    BigEndian16(length);
    assert h[2..4] == BE16(length) && h[4..8] == MAGIC_COOKIE && h[8..20] == tx && h[..2] == kind;
    Within(h, rest, 0, 2);
    Within(h, rest, 4, 8);
    Within(h, rest, 8, 20);
  }

  lemma AttrLayout(typ: nat, value: bytes, pad: bytes)
    requires typ < 0x1_0000 && |value| < 0x1_0000
    ensures
      var e := Encode(Attr(typ, value, pad));
      && e[0] as int * 256 + e[1] as int == typ && e[2] as int * 256 + e[3] as int == |value|
      && e[4..] == value + pad
  {
    BigEndian16(typ);
    BigEndian16(|value|);
    Associative(Head(typ, |value|), value, pad);
    HeadOf(Head(typ, |value|), value + pad);
  }

  /**
   A response: success, the length, the magic cookie, the transaction, and one XOR-MAPPED-ADDRESS with family, port and
   address, port and address masked.
   */
  lemma ResponseLayout(tx: TxId, a: AddrPort)
    requires ValidIp(a.ip) && !a.ip.Invalid? && a.port < 0x1_0000
    ensures
      var b, ip := ResponseBytes(tx, a), if a.ip.V4? then a.ip.ip4 else a.ip.ip6;
      && |b| == 28 + |ip| && b[..8] == [1, 1, 0, 8 + |ip|, 0x21, 0x12, 0xA4, 0x42] && b[8..20] == tx
      && b[20..26] == [0, 0x20, 0, 4 + |ip|, 0, if a.ip.V4? then 1 else 2]
      && b[26] as int * 256 + b[27] as int == XorNat(a.port, 0x2112)
      && forall i :: 0 <= i < |ip| ==> b[28 + i] as int == XorNat(ip[i], Mask(tx, i))
  {
    var e := Encode(XorAddress(tx, a));
    EncodeOne(XorAddress(tx, a));
    HeaderLayout(SUCCESS, |e|, tx, e);
    XorAddressLayout(tx, a);
    ResponseParts(ResponseBytes(tx, a), e);
  }

  lemma ResponseParts(b: bytes, e: bytes)
    requires |b| >= 28 && b[20..] == e && b[2] as int * 256 + b[3] as int == |e| < 256
    ensures b[..8] == b[..2] + [0, |e|] + b[4..8] && b[20..26] == e[..6] && b[26] == e[6] && b[27] == e[7]
    ensures forall i :: 8 <= i < |e| ==> b[20 + i] == e[i]
  {
    assert b[..8] == b[..2] + [b[2], b[3]] + b[4..8];
    forall i | 6 <= i < |e| ensures b[20 + i] == e[i] {
      assert b[20 + i] == b[20..][i];
    }
  }

  lemma XorAddressLayout(tx: TxId, a: AddrPort)
    requires ValidIp(a.ip) && !a.ip.Invalid? && a.port < 0x1_0000
    ensures
      var e, ip := Encode(XorAddress(tx, a)), if a.ip.V4? then a.ip.ip4 else a.ip.ip6;
      && |e| == 8 + |ip| && e[..6] == [0, 0x20, 0, 4 + |ip|, 0, if a.ip.V4? then 1 else 2]
      && e[6] as int * 256 + e[7] as int == XorNat(a.port, 0x2112)
      && forall i :: 0 <= i < |ip| ==> e[8 + i] as int == XorNat(ip[i], Mask(tx, i))
  {
    var attr, ip := XorAddress(tx, a), IpBytes(a.ip);
    var port, masked := Xor16(a.port, 0x2112), Masked(ip, Key(tx));
    BigEndian16(port);
    AttrLayout(0x20, attr.value, []);
    var e := Encode(attr);
    FieldsOf(e, attr.value, if a.ip.V4? then 1 else 2, BE16(port), masked);
    forall i | 0 <= i < |ip| ensures e[8 + i] as int == XorNat(ip[i], Mask(tx, i)) {
      MaskedAt(tx, ip, i);
    }
  }

  lemma FieldsOf(e: bytes, value: bytes, family: byte, port: bytes, ip: bytes)
    requires |e| >= 4 && e[4..] == value == [0, family] + port + ip && |port| == 2
    ensures |e| == 8 + |ip| && e[4] == 0 && e[5] == family && e[6] == port[0] && e[7] == port[1]
    ensures forall i :: 0 <= i < |ip| ==> e[8 + i] == ip[i]
  {
    assert e[4] == value[0] && e[5] == value[1] && e[6] == value[2] && e[7] == value[3];
    forall i | 0 <= i < |ip| ensures e[8 + i] == ip[i] {
      assert e[8 + i] == value[4 + i];
    }
  }

  lemma MaskedAt(tx: TxId, ip: bytes, i: nat)
    requires i < |ip| <= 16
    ensures Masked(ip, Key(tx))[i] as int == XorNat(ip[i], Mask(tx, i))
  {
    assert Key(tx)[i] == Mask(tx, i);
  }

  /** A request: the header, SOFTWARE "tailnode", and the checksum of these 32 bytes, masked, as FINGERPRINT. */
  lemma RequestLayout(tx: TxId, crc: Checksum)
    ensures
      var b := Request(tx, crc);
      && |b| == 40 && b[..8] == [0, 1, 0, 20, 0x21, 0x12, 0xA4, 0x42] && b[8..20] == tx
      && b[20..24] == [0x80, 0x22, 0, 8] && b[24..32] == [0x74, 0x61, 0x69, 0x6C, 0x6E, 0x6F, 0x64, 0x65]
      && b[32..36] == [0x80, 0x28, 0, 4] && FromBE32(b[36..]) == XorNat(crc(b[..32]), 0x5354554E)
  {
    var fp := FingerPrint(crc, RequestBody(tx));
    RequestAttrs(tx, crc);
    BE32RoundTrip(fp);
    HeaderLayout(REQUEST, 20, tx, Encode(Attr(SOFTWARE, TAILNODE, [])));
    AttrLayout(0x8022, TAILNODE, []);
    AttrLayout(0x8028, BE32(fp), []);
    SplitAt(RequestBody(tx), Encode(Attr(FINGERPRINT, BE32(fp), [])));
    RequestParts(Request(tx, crc), RequestBody(tx), Encode(Attr(SOFTWARE, TAILNODE, [])), Encode(Attr(FINGERPRINT, BE32(fp), [])));
  }

  lemma RequestParts(b: bytes, body: bytes, sw: bytes, fp: bytes)
    requires |body| == 32 && |sw| == 12 && |fp| == 8 && b == body + fp && body[20..] == sw
    ensures b[..32] == body && b[20..24] == sw[..4] && b[24..32] == sw[4..] && b[32..36] == fp[..4] && b[36..] == fp[4..]
    ensures b[..2] == body[..2] && b[2..4] == body[2..4] && b[4..8] == body[4..8] && b[8..20] == body[8..20]
    ensures b[..8] == b[..2] + b[2..4] + b[4..8]
  {
  }

  // ---------- addresses that are received ----------

  /** How many octets an address of this family has; no other family can be read. */
  predicate Fits(value: bytes, n: nat) {
    |value| >= 4 + n && ((value[1] == 1 && n == 4) || (value[1] == 2 && n == 16))
  }

  /** Octets `ip` as an address: IPv4, or IPv6 unless it is mapped from IPv4. */
  predicate IsAddressOf(a: Ip, ip: bytes) {
    if |ip| == 16 && ip[..12] != [0, 0, 0, 0, 0, 0, 0, 0, 0, 0, 0xFF, 0xFF] then a == V6(ip, "")
    else if |ip| == 16 then a == V4(ip[12..])
    else a == V4(ip)
  }

  /** These are the octets of the address field, unmasked. */
  predicate Unmasks(tx: TxId, value: bytes, ip: bytes) {
    |value| >= 4 + |ip| && |ip| <= 16 && forall i :: 0 <= i < |ip| ==> ip[i] as int == XorNat(value[4 + i], Mask(tx, i))
  }

  /** The value of a XOR-MAPPED-ADDRESS can be read if and only if its family is known and all octets are there; port and
      octets are then unmasked. */
  lemma XorMappedRead(tx: TxId, value: bytes, n: nat, ip: bytes)
    requires Fits(value, n) && |ip| == n && Unmasks(tx, value, ip)
    ensures
      var r := XorMapped(tx, value);
      r.Some? && IsAddressOf(r.value.ip, ip) && r.value.port == XorNat(value[2] as int * 256 + value[3] as int, 0x2112)
  {
    var field := value[4..][..n];
    ReadBigEndian(value[2..4]);
    assert Masked(field, Key(tx)) == ip by {
      forall i | 0 <= i < n ensures Masked(field, Key(tx))[i] == ip[i] {
        assert field[i] == value[4 + i] && Key(tx)[i] == Mask(tx, i);
      }
    }
  }

  lemma XorMappedRefused(tx: TxId, value: bytes)
    ensures XorMapped(tx, value).None? <==> !Fits(value, 4) && !Fits(value, 16)
  {
  }

  /** In a MAPPED-ADDRESS nothing is masked. */
  lemma MappedRead(value: bytes, n: nat)
    requires Fits(value, n)
    ensures
      var r := Mapped(value);
      r.Some? && IsAddressOf(r.value.ip, value[4..4 + n]) && r.value.port == value[2] as int * 256 + value[3] as int
  {
    ReadBigEndian(value[2..4]);
    assert value[4..][..n] == value[4..4 + n];
  }

  lemma MappedRefused(value: bytes)
    ensures Mapped(value).None? <==> !Fits(value, 4) && !Fits(value, 16)
  {
  }

  // ---------- verdicts on a response ----------

  /** A packet with the cookie in its place, whose first two bits are 0. */
  predicate IsStun(b: bytes) {
    |b| >= 20 && b[0] < 64 && b[4] == 0x21 && b[5] == 0x12 && b[6] == 0xA4 && b[7] == 0x42
  }

  lemma IsIsStun(b: bytes)
    ensures Is(b) <==> IsStun(b)
  {
    if |b| >= 20 {
      assert b[4..8] == [b[4], b[5], b[6], b[7]];
    }
  }

  /** When a packet is no response at all; and the transaction of one that is accepted is its own. */
  lemma NoResponse(b: bytes)
    ensures ResponseOf(b) == Err(NotStun) <==> !IsStun(b)
    ensures IsStun(b) ==> (ResponseOf(b) == Err(NotSuccess) <==> b[0] != 1 || b[1] != 1)
    ensures IsStun(b) && b[0] == 1 && b[1] == 1 && b[2] as int * 256 + b[3] as int > |b| - 20 ==> ResponseOf(b) == Err(Malformed)
    ensures ResponseOf(b).Ok? ==> ResponseOf(b).value.0 == b[8..20]
  {
    IsIsStun(b);
    if |b| >= 20 {
      assert b[..2] == [b[0], b[1]];
      ReadBigEndian(b[2..4]);
    }
  }

  /** One of the three attributes that carry an address. */
  predicate CarriesAddress(a: Attr) {
    a.typ == 0x0001 || a.typ == 0x0020 || a.typ == 0x8020
  }

  /** An address attribute that cannot be read makes the response malformed, wherever it stands. */
  lemma {:induction false} UnreadableRefused(tx: TxId, x: seq<Attr>, a: Attr, y: seq<Attr>, junk: bytes)
    requires AllLegal(x + [a] + y) && |EncodeAll(x + [a] + y)| < 0x1_0000
    requires CarriesAddress(a) && !Fits(a.value, 4) && !Fits(a.value, 16)
    ensures ResponseOf(Message(SUCCESS, tx, x + [a] + y) + junk) == Err(Malformed)
  {
    ParseOfMessage(tx, x + [a] + y, junk);
    XorMappedRefused(tx, a.value);
    MappedRefused(a.value);
    assert !Readable(tx, (x + [a] + y)[|x|]);
  }

  predicate CanBeRead(a: Attr) {
    CarriesAddress(a) ==> Fits(a.value, 4) || Fits(a.value, 16)
  }

  lemma {:induction false} AllCanBeRead(tx: TxId, attrs: seq<Attr>)
    requires forall i :: 0 <= i < |attrs| ==> CanBeRead(attrs[i])
    ensures AllReadable(tx, attrs)
  {
    forall i | 0 <= i < |attrs| ensures Readable(tx, attrs[i]) {
      XorMappedRefused(tx, attrs[i].value);
      MappedRefused(attrs[i].value);
    }
  }

  /** A list short enough for one message, in which every address attribute can be read. */
  ghost predicate Readables(attrs: seq<Attr>) {
    AllLegal(attrs) && |EncodeAll(attrs)| < 0x1_0000 && forall i :: 0 <= i < |attrs| ==> CanBeRead(attrs[i])
  }

  /** No XOR-MAPPED-ADDRESS of either number. */
  predicate NoneMasked(attrs: seq<Attr>) {
    forall i :: 0 <= i < |attrs| ==> attrs[i].typ != 0x0020 && attrs[i].typ != 0x8020
  }

  /** The last XOR-MAPPED-ADDRESS, of either number, is the answer. */
  lemma {:induction false} LastXorAnswers(
      tx: TxId, x: seq<Attr>, a: Attr, y: seq<Attr>, junk: bytes, n: nat, ip: bytes, port: nat)
    requires Readables(x + [a] + y) && (a.typ == 0x0020 || a.typ == 0x8020) && NoneMasked(y)
    requires Fits(a.value, n) && |ip| == n && Unmasks(tx, a.value, ip)
    requires port == XorNat(a.value[2] as int * 256 + a.value[3] as int, 0x2112)
    ensures
      var r := ResponseOf(Message(SUCCESS, tx, x + [a] + y) + junk);
      r.Ok? && r.value.0 == tx && IsAddressOf(r.value.1.ip, ip) && r.value.1.port == port
  {
    LastXorIsRead(tx, x, a, y, junk);
    XorMappedRead(tx, a.value, n, ip);
  }

  lemma {:induction false} LastXorIsRead(tx: TxId, x: seq<Attr>, a: Attr, y: seq<Attr>, junk: bytes)
    requires Readables(x + [a] + y) && (a.typ == 0x0020 || a.typ == 0x8020) && NoneMasked(y)
    ensures XorMapped(tx, a.value).Some?
    ensures ResponseOf(Message(SUCCESS, tx, x + [a] + y) + junk) == Ok((tx, XorMapped(tx, a.value).value))
  {
    AllCanBeRead(tx, x + [a] + y);
    NoXorAmong(y);
    XorWins(tx, x, a, y, junk);
  }

  lemma NoXorAmong(y: seq<Attr>)
    requires NoneMasked(y)
    ensures forall i :: 0 <= i < |y| ==> !IsXor(y[i])
  {
  }

  /** Without one the last MAPPED-ADDRESS is. */
  lemma {:induction false} LastMappedAnswers(tx: TxId, x: seq<Attr>, a: Attr, y: seq<Attr>, junk: bytes, n: nat)
    requires Readables(x + [a] + y) && NoneMasked(x + [a] + y)
    requires a.typ == 0x0001 && Fits(a.value, n) && forall i :: 0 <= i < |y| ==> y[i].typ != 0x0001
    ensures
      var r := ResponseOf(Message(SUCCESS, tx, x + [a] + y) + junk);
      && r.Ok? && r.value.0 == tx && IsAddressOf(r.value.1.ip, a.value[4..4 + n])
      && r.value.1.port == a.value[2] as int * 256 + a.value[3] as int
  {
    AllCanBeRead(tx, x + [a] + y);
    MappedIsFallback(tx, x + [a] + y, junk);
    LastMappedIs(tx, x, a, y);
    MappedRead(a.value, n);
  }

  lemma {:induction false} LastMappedIs(tx: TxId, x: seq<Attr>, a: Attr, y: seq<Attr>)
    requires AllReadable(tx, x + [a] + y) && a.typ == 0x0001 && forall i :: 0 <= i < |y| ==> y[i].typ != 0x0001
    ensures LastMapped(x + [a] + y) == Mapped(a.value)
  {
    ReadableAppend(tx, x + [a], y);
    ReadableAppend(tx, x, [a]);
    assert Readable(tx, [a][0]);
    LastMappedAppend(tx, x + [a], y);
    LastMappedAppend(tx, x, [a]);
    LastMappedOne(a);
    NoMapped(y);
  }

  lemma LastMappedOne(a: Attr)
    requires a.typ == 0x0001
    ensures LastMapped([a]) == Mapped(a.value)
  {
  }

  lemma {:induction false} NoMapped(y: seq<Attr>)
    requires forall i :: 0 <= i < |y| ==> y[i].typ != 0x0001
    ensures LastMapped(y) == None
  {
    if y != [] {
      NoMapped(y[..|y| - 1]);
    }
  }

  /** Without either there is no answer. */
  lemma {:induction false} NoAddressRefused(tx: TxId, attrs: seq<Attr>, junk: bytes)
    requires AllLegal(attrs) && |EncodeAll(attrs)| < 0x1_0000 && forall i :: 0 <= i < |attrs| ==> !CarriesAddress(attrs[i])
    ensures ResponseOf(Message(SUCCESS, tx, attrs) + junk) == Err(Malformed)
  {
    AllCanBeRead(tx, attrs);
    MappedIsFallback(tx, attrs, junk);
    NoMapped(attrs);
  }

  // ---------- verdicts on a request ----------

  predicate NamesTailnode(a: Attr) {
    a.typ == 0x8022 && a.value == [0x74, 0x61, 0x69, 0x6C, 0x6E, 0x6F, 0x64, 0x65]
  }

  /** A FINGERPRINT of four bytes; others are not looked at. */
  predicate HoldsChecksum(a: Attr) {
    a.typ == 0x8028 && |a.value| == 4
  }

  /** The last checksum of the list is this one, 0 standing for none. */
  ghost predicate LastChecksum(attrs: seq<Attr>, sum: nat) {
    if exists i :: 0 <= i < |attrs| && HoldsChecksum(attrs[i]) then
      exists i :: 0 <= i < |attrs| && HoldsChecksum(attrs[i]) && sum == FromBE32(attrs[i].value)
                  && forall j :: i < j < |attrs| ==> !HoldsChecksum(attrs[j])
    else sum == 0
  }

  lemma {:induction false} LastChecksumIs(attrs: seq<Attr>)
    ensures LastChecksum(attrs, LastFingerprint(attrs))
  {
    if attrs != [] {
      var n := |attrs| - 1;
      if HoldsChecksum(attrs[n]) {
        assert LastFingerprint(attrs) == FromBE32(attrs[n].value);
      } else {
        LastChecksumIs(attrs[..n]);
        EarlierChecksum(attrs, LastFingerprint(attrs[..n]));
      }
    }
  }

  lemma EarlierChecksum(attrs: seq<Attr>, sum: nat)
    requires attrs != [] && !HoldsChecksum(attrs[|attrs| - 1]) && LastChecksum(attrs[..|attrs| - 1], sum)
    ensures LastChecksum(attrs, sum)
  {
    var front := attrs[..|attrs| - 1];
    if i :| 0 <= i < |attrs| && HoldsChecksum(attrs[i]) {
      assert front[i] == attrs[i];
      var j :| 0 <= j < |front| && HoldsChecksum(front[j]) && sum == FromBE32(front[j].value)
               && forall k :: j < k < |front| ==> !HoldsChecksum(front[k]);
      assert attrs[j] == front[j];
      forall k | j < k < |attrs| ensures !HoldsChecksum(attrs[k]) {
        if k < |front| { assert front[k] == attrs[k]; }
      }
    } else {
      forall i | 0 <= i < |front| ensures !HoldsChecksum(front[i]) {
        assert front[i] == attrs[i];
      }
    }
  }

  /** When a packet is no binding request at all; and the transaction of one that is accepted is its own. */
  lemma NoRequest(b: bytes, crc: Checksum)
    ensures RequestOf(b, crc) == Err(NotStun) <==> !IsStun(b)
    ensures IsStun(b) ==> (RequestOf(b, crc) == Err(NotBindingRequest) <==> b[0] != 0 || b[1] != 1)
    ensures IsStun(b) && b[0] == 0 && b[1] == 1 ==> (RequestOf(b, crc) == Err(Malformed) <==> !Walk(b[20..]).1)
    ensures RequestOf(b, crc).Ok? ==> RequestOf(b, crc).value == b[8..20]
  {
    IsIsStun(b);
    if |b| >= 20 {
      assert b[..2] == [b[0], b[1]];
    }
  }

  /**
   The verdict on any request with well-formed attributes, whatever its length field says: SOFTWARE must be there, a
   FINGERPRINT must come last, and the last checksum, 0 if there is none, must be the checksum of all but the last eight
   bytes, masked.
   */
  lemma {:induction false} RequestVerdict(b: bytes, attrs: seq<Attr>, crc: Checksum, sum: nat, want: nat)
    requires IsStun(b) && b[0] == 0 && b[1] == 1 && AllLegal(attrs) && b[20..] == EncodeAll(attrs)
    requires LastChecksum(attrs, sum) && want == XorNat(crc(b[..|b| - 8]), 0x5354554E)
    ensures
      RequestOf(b, crc) ==
      if forall i :: 0 <= i < |attrs| ==> !NamesTailnode(attrs[i]) then Err(WrongSoftware)
      else if attrs[|attrs| - 1].typ != 0x8028 then Err(NoFingerprint)
      else if sum != want then Err(WrongFingerprint)
      else Ok(b[8..20])
  {
    RequestRead(b, attrs);
    SumIsLast(attrs, sum);
    VerdictOfSum(b, attrs, crc, sum);
  }

  lemma {:induction false} VerdictOfSum(b: bytes, attrs: seq<Attr>, crc: Checksum, sum: nat)
    requires Is(b) && b[..2] == REQUEST && Walk(b[HEADER_LEN..]) == (attrs, true) && LastFingerprint(attrs) == sum
    ensures
      RequestOf(b, crc) ==
      if forall i :: 0 <= i < |attrs| ==> !NamesTailnode(attrs[i]) then Err(WrongSoftware)
      else if attrs[|attrs| - 1].typ != 0x8028 then Err(NoFingerprint)
      else if sum != XorNat(crc(b[..|b| - 8]), 0x5354554E) then Err(WrongFingerprint)
      else Ok(b[8..20])
  {
    VerdictOfAttrs(b, attrs, crc);
    TailnodeIs(attrs);
  }

  lemma {:induction false} SumIsLast(attrs: seq<Attr>, sum: nat)
    requires LastChecksum(attrs, sum)
    ensures LastFingerprint(attrs) == sum
  {
    LastChecksumIs(attrs);
    OneLastChecksum(attrs, sum, LastFingerprint(attrs));
  }

  lemma {:induction false} RequestRead(b: bytes, attrs: seq<Attr>)
    requires IsStun(b) && b[0] == 0 && b[1] == 1 && AllLegal(attrs) && b[20..] == EncodeAll(attrs)
    ensures Is(b) && b[..2] == REQUEST && Walk(b[HEADER_LEN..]) == (attrs, true)
  {
    assert b[..2] == [b[0], b[1]];
    IsIsStun(b);
    WalkVisitsAll(attrs);
  }

  lemma {:induction false} VerdictOfAttrs(b: bytes, attrs: seq<Attr>, crc: Checksum)
    requires Is(b) && b[..2] == REQUEST && Walk(b[HEADER_LEN..]) == (attrs, true)
    ensures
      RequestOf(b, crc) ==
      if !HasSoftware(attrs) then Err(WrongSoftware)
      else if attrs[|attrs| - 1].typ != 0x8028 then Err(NoFingerprint)
      else if LastFingerprint(attrs) != XorNat(crc(b[..|b| - 8]), 0x5354554E) then Err(WrongFingerprint)
      else Ok(b[8..20])
  {
  }

  /** An otherwise good request that ends in a FINGERPRINT of four bytes is accepted if and only if these are the checksum
      of what comes before it, masked. */
  lemma {:induction false} OnlyTheChecksumPasses(before: bytes, x: seq<Attr>, value: bytes, crc: Checksum, want: nat)
    requires IsStun(before) && before[0] == 0 && before[1] == 1 && before[20..] == EncodeAll(x) && AllLegal(x)
    requires (exists i :: 0 <= i < |x| && NamesTailnode(x[i])) && |value| == 4 && want == XorNat(crc(before), 0x5354554E)
    ensures
      RequestOf(before + ([0x80, 0x28, 0, 4] + value), crc) ==
      if FromBE32(value) == want then Ok(before[8..20]) else Err(WrongFingerprint)
  {
    var last := Attr(0x8028, value, []);
    ChecksumIsLast(x, last);
    ChecksumBytes(value);
    AllButTheLast(before, x, last);
    var b := before + ([0x80, 0x28, 0, 4] + value);
    RequestVerdict(b, x + [last], crc, FromBE32(value), want);
  }

  lemma ChecksumBytes(value: bytes)
    requires |value| == 4
    ensures Encode(Attr(0x8028, value, [])) == [0x80, 0x28, 0, 4] + value
  {
  }

  lemma {:induction false} ChecksumIsLast(x: seq<Attr>, last: Attr)
    requires HoldsChecksum(last) && exists i :: 0 <= i < |x| && NamesTailnode(x[i])
    ensures LastChecksum(x + [last], FromBE32(last.value))
    ensures exists i :: 0 <= i < |x + [last]| && NamesTailnode((x + [last])[i])
  {
    assert (x + [last])[|x|] == last;
    var i :| 0 <= i < |x| && NamesTailnode(x[i]);
    assert NamesTailnode((x + [last])[i]);
  }

  lemma {:induction false} AllButTheLast(before: bytes, x: seq<Attr>, last: Attr)
    requires |before| >= 20 && before[20..] == EncodeAll(x) && |Encode(last)| == 8
    ensures
      var b := before + Encode(last);
      |b| >= 8 && b[..|b| - 8] == before && b[20..] == EncodeAll(x + [last]) && b[..20] == before[..20] && b[8..20] == before[8..20]
  {
    LastIsAtEnd(x, last);
    SplitAt(before, Encode(last));
  }

  lemma OneLastChecksum(attrs: seq<Attr>, a: nat, b: nat)
    requires LastChecksum(attrs, a) && LastChecksum(attrs, b)
    ensures a == b
  {
  }

  lemma TailnodeIs(attrs: seq<Attr>)
    ensures !HasSoftware(attrs) <==> forall i :: 0 <= i < |attrs| ==> !NamesTailnode(attrs[i])
  {
    assert forall i :: 0 <= i < |attrs| ==> (IsTailnode(attrs[i]) <==> NamesTailnode(attrs[i]));
  }
}
