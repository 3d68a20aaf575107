/** What the parsers make of the packets that the printers produce, and of others. */
module StunTheorems {
  import opened Wrappers
  import opened Bytes
  import opened StunAttrs
  import opened Stun

  // ---------- headers ----------

  lemma HeaderFields(kind: bytes, length: nat, tx: TxId, rest: bytes)
    requires |kind| == 2 && kind[0] < 64 && length < 0x1_0000
    ensures
      var b := Header(kind, length, tx) + rest;
      Is(b) && b[..2] == kind && FromBE16(b[2..4]) == length && b[8..20] == tx && b[HEADER_LEN..] == rest
  {
    var h := Header(kind, length, tx);
    var b := h + rest;
    BE16RoundTrip(length);
    assert h[2..4] == BE16(length) && h[4..8] == MAGIC_COOKIE && h[8..20] == tx && h[..2] == kind;
    Within(h, rest, 0, 2);
    Within(h, rest, 2, 4);
    Within(h, rest, 4, 8);
    Within(h, rest, 8, 20);
  }

  lemma Within(x: bytes, y: bytes, i: nat, j: nat)
    requires i <= j <= |x|
    ensures (x + y)[i..j] == x[i..j] && (x + y)[|x|..] == y
  {
  }

  /** Parsing a well-formed response, whatever follows it, is answering from its attributes. */
  lemma ParseOfMessage(tx: TxId, attrs: seq<Attr>, junk: bytes)
    requires AllLegal(attrs) && |EncodeAll(attrs)| < 0x1_0000
    ensures
      ResponseOf(Message(SUCCESS, tx, attrs) + junk) ==
      match Answer(tx, attrs) case Err(e) => Err(e) case Ok(a) => Ok((tx, a))
  {
    var body := EncodeAll(attrs);
    Associative(Header(SUCCESS, |body|, tx), body, junk);
    SplitAt(body, junk);
    WalkVisitsAll(attrs);
    ParseOfBytes(tx, body, junk);
  }

  lemma ParseOfBytes(tx: TxId, body: bytes, rest: bytes)
    requires |body| < 0x1_0000 && Walk(body).1
    ensures
      ResponseOf(Header(SUCCESS, |body|, tx) + (body + rest)) ==
      match Answer(tx, Walk(body).0) case Err(e) => Err(e) case Ok(a) => Ok((tx, a))
  {
    HeaderFields(SUCCESS, |body|, tx, body + rest);
    SplitAt(body, rest);
    ParseOfFields(Header(SUCCESS, |body|, tx) + (body + rest), tx, body);
  }

  lemma ParseOfFields(b: bytes, tx: TxId, body: bytes)
    requires Is(b) && b[..2] == SUCCESS && b[8..20] == tx && FromBE16(b[2..4]) == |body| <= |b| - HEADER_LEN
    requires b[HEADER_LEN..][..|body|] == body && Walk(body).1
    ensures ResponseOf(b) == match Answer(tx, Walk(body).0) case Err(e) => Err(e) case Ok(a) => Ok((tx, a))
  {
  }

  lemma EncodeOne(a: Attr)
    ensures EncodeAll([a]) == Encode(a)
  {
  }

  // ---------- the response ----------

  lemma AddressRoundTrip(tx: TxId, a: AddrPort)
    requires ValidIp(a.ip) && !a.ip.Invalid? && a.port < 0x1_0000
    ensures
      var attr := XorAddress(tx, a);
      && Legal(attr) && |Encode(attr)| <= 24
      && XorMapped(tx, attr.value) == Some(AddrPort(Unmap(WithoutZone(a.ip)), a.port))
  {
    var head, ip := AddressHead(a), IpBytes(a.ip);
    assert XorAddress(tx, a).value == head + Masked(ip, Key(tx));
    Unmasked(tx, head, Masked(ip, Key(tx)));
    MaskedTwice(ip, Key(tx));
    XorNatTwice(a.port, 0x2112);
    var attr := XorAddress(tx, a);
    assert |attr.value| == 4 + |ip|;
    assert Padded(8) == 8 && Padded(20) == 20;
  }

  function AddressHead(a: AddrPort): (r: bytes)
    requires a.port < 0x1_0000
    ensures |r| == 4 && r[1] == (if a.ip.V4? then 1 else 2) && FromBE16(r[2..4]) == Xor16(a.port, 0x2112)
  {
    var family: byte := if a.ip.V4? then 1 else 2;
    PortAfter(family, Xor16(a.port, 0x2112));
    [0, family] + BE16(Xor16(a.port, 0x2112))
  }

  lemma PortAfter(family: byte, n: nat)
    requires n < 0x1_0000
    ensures var r := [0, family] + BE16(n); r[1] == family && FromBE16(r[2..4]) == n
  {
    var r: bytes := [0, family] + BE16(n);
    assert r[2..4] == BE16(n);
    BE16RoundTrip(n);
  }

  lemma Unmasked(tx: TxId, head: bytes, field: bytes)
    requires |head| == 4 && |field| > 0 && |field| == FamilyAddrLen(head[1])
    ensures
      XorMapped(tx, head + field) ==
      Some(AddrPort(Unmap(FromSlice(Masked(field, Key(tx)))), Xor16(FromBE16(head[2..4]), 0x2112)))
  {
    HeadOf(head, field);
    assert field[..|field|] == field;
  }

  /** A response gives back the transaction, the port and the address, whatever follows it: an IPv4 address as it is, an
      IPv6 address without its zone, or as IPv4 if that is what it is mapped from. */
  lemma ResponseRoundTrip(tx: TxId, a: AddrPort, junk: bytes)
    requires ValidIp(a.ip) && a.port < 0x1_0000
    ensures
      ResponseOf(ResponseBytes(tx, a) + junk) ==
      match a.ip
      case Invalid => ResponseOf(junk)
      case V4(q) => Ok((tx, AddrPort(V4(q), a.port)))
      case V6(b, _) =>
        if b[..12] == [0, 0, 0, 0, 0, 0, 0, 0, 0, 0, 0xFF, 0xFF] then Ok((tx, AddrPort(V4(b[12..]), a.port)))
        else Ok((tx, AddrPort(V6(b, ""), a.port)))
  {
    if a.ip.Invalid? {
      assert [] + junk == junk;
    } else {
      var attr := XorAddress(tx, a);
      AddressRoundTrip(tx, a);
      EncodeOne(attr);
      ParseOfMessage(tx, [attr], junk);
    }
  }

  /** A response cut short is refused. */
  lemma ResponseCut(tx: TxId, a: AddrPort, k: nat)
    requires ValidIp(a.ip) && !a.ip.Invalid? && a.port < 0x1_0000 && k < |ResponseBytes(tx, a)|
    ensures ResponseOf(ResponseBytes(tx, a)[..k]) == Err(if k < HEADER_LEN then NotStun else Malformed)
  {
    var attr := XorAddress(tx, a);
    AddressRoundTrip(tx, a);
    EncodeOne(attr);
    var body := Encode(attr);
    if k >= HEADER_LEN {
      PrefixOfJoin(Header(SUCCESS, |body|, tx), body, k);
      CutBody(tx, |body|, body[..k - HEADER_LEN]);
    }
  }

  lemma PrefixOfJoin(x: bytes, y: bytes, k: nat)
    requires |x| <= k <= |x| + |y|
    ensures (x + y)[..k] == x + y[..k - |x|]
  {
  }

  lemma CutBody(tx: TxId, length: nat, body: bytes)
    requires |body| < length < 0x1_0000
    ensures ResponseOf(Header(SUCCESS, length, tx) + body) == Err(Malformed)
  {
    HeaderFields(SUCCESS, length, tx, body);
  }

  // ---------- which attribute counts ----------

  lemma {:induction false} LastXorAppend(tx: TxId, x: seq<Attr>, y: seq<Attr>)
    requires AllReadable(tx, y)
    ensures LastXor(tx, x + y) == if LastXor(tx, y).Some? then LastXor(tx, y) else LastXor(tx, x)
  {
    if y == [] {
      assert x + y == x;
    } else {
      assert (x + y)[..|x + y| - 1] == x + y[..|y| - 1];
      assert Readable(tx, y[|y| - 1]);
      LastXorAppend(tx, x, y[..|y| - 1]);
    }
  }

  lemma {:induction false} LastMappedAppend(tx: TxId, x: seq<Attr>, y: seq<Attr>)
    requires AllReadable(tx, y)
    ensures LastMapped(x + y) == if LastMapped(y).Some? then LastMapped(y) else LastMapped(x)
  {
    if y == [] {
      assert x + y == x;
    } else {
      assert (x + y)[..|x + y| - 1] == x + y[..|y| - 1];
      assert Readable(tx, y[|y| - 1]);
      LastMappedAppend(tx, x, y[..|y| - 1]);
    }
  }

  lemma ReadableAppend(tx: TxId, x: seq<Attr>, y: seq<Attr>)
    ensures AllReadable(tx, x + y) <==> AllReadable(tx, x) && AllReadable(tx, y)
  {
    if AllReadable(tx, x + y) {
      forall i | 0 <= i < |x| ensures Readable(tx, x[i]) { assert (x + y)[i] == x[i]; }
      forall i | 0 <= i < |y| ensures Readable(tx, y[i]) { assert (x + y)[|x| + i] == y[i]; }
    }
  }

  predicate IsAddress(a: Attr) {
    IsXor(a) || a.typ == MAPPED_ADDRESS
  }

  /** An attribute of another type changes nothing, wherever it stands. */
  lemma AnswerIgnores(tx: TxId, x: seq<Attr>, u: Attr, y: seq<Attr>)
    requires !IsAddress(u)
    ensures Answer(tx, x + [u] + y) == Answer(tx, x + y)
  {
    ReadableAppend(tx, x, y);
    ReadableAppend(tx, x + [u], y);
    ReadableAppend(tx, x, [u]);
    if AllReadable(tx, x + y) {
      LastXorAppend(tx, x, y);
      LastXorAppend(tx, x + [u], y);
      LastXorAppend(tx, x, [u]);
      LastMappedAppend(tx, x, y);
      LastMappedAppend(tx, x + [u], y);
      LastMappedAppend(tx, x, [u]);
    }
  }

  lemma {:induction false} EncodeAllAppend(x: seq<Attr>, y: seq<Attr>)
    ensures EncodeAll(x + y) == EncodeAll(x) + EncodeAll(y)
  {
    if x == [] {
      assert x + y == y;
    } else {
      assert (x + y)[1..] == x[1..] + y;
      EncodeAllAppend(x[1..], y);
      Associative(Encode(x[0]), EncodeAll(x[1..]), EncodeAll(y));
    }
  }

  /** Unknown attributes never change what a response says. */
  lemma UnknownIgnored(tx: TxId, x: seq<Attr>, u: Attr, y: seq<Attr>, junk: bytes)
    requires AllLegal(x + [u] + y) && !IsAddress(u) && |EncodeAll(x + [u] + y)| < 0x1_0000
    ensures ResponseOf(Message(SUCCESS, tx, x + [u] + y) + junk) == ResponseOf(Message(SUCCESS, tx, x + y) + junk)
  {
    Without(x, u, y);
    ParseOfMessage(tx, x + [u] + y, junk);
    ParseOfMessage(tx, x + y, junk);
    AnswerIgnores(tx, x, u, y);
  }

  lemma Without(x: seq<Attr>, u: Attr, y: seq<Attr>)
    requires AllLegal(x + [u] + y)
    ensures AllLegal(x + y) && |EncodeAll(x + y)| <= |EncodeAll(x + [u] + y)|
  {
    var all := x + [u] + y;
    forall i | 0 <= i < |x + y| ensures Legal((x + y)[i]) {
      assert (x + y)[i] == if i < |x| then all[i] else all[i + 1];
    }
    EncodeAllAppend(x + [u], y);
    EncodeAllAppend(x, [u]);
    EncodeAllAppend(x, y);
  }

  /** The last XOR-MAPPED-ADDRESS is the answer, whatever MAPPED-ADDRESS stands before or after it. */
  lemma XorWins(tx: TxId, x: seq<Attr>, a: Attr, y: seq<Attr>, junk: bytes)
    requires AllLegal(x + [a] + y) && |EncodeAll(x + [a] + y)| < 0x1_0000 && AllReadable(tx, x + [a] + y)
    requires IsXor(a) && forall i :: 0 <= i < |y| ==> !IsXor(y[i])
    ensures XorMapped(tx, a.value).Some?
    ensures ResponseOf(Message(SUCCESS, tx, x + [a] + y) + junk) == Ok((tx, XorMapped(tx, a.value).value))
  {
    ParseOfMessage(tx, x + [a] + y, junk);
    ReadableAppend(tx, x + [a], y);
    ReadableAppend(tx, x, [a]);
    assert Readable(tx, [a][0]);
    LastXorAppend(tx, x + [a], y);
    LastXorAppend(tx, x, [a]);
    NoXor(tx, y);
  }

  lemma {:induction false} NoXor(tx: TxId, y: seq<Attr>)
    requires forall i :: 0 <= i < |y| ==> !IsXor(y[i])
    ensures LastXor(tx, y) == None
  {
    if y != [] {
      NoXor(tx, y[..|y| - 1]);
    }
  }

  /** Without any XOR-MAPPED-ADDRESS the last MAPPED-ADDRESS is the answer, and without either there is none. */
  lemma MappedIsFallback(tx: TxId, attrs: seq<Attr>, junk: bytes)
    requires AllLegal(attrs) && |EncodeAll(attrs)| < 0x1_0000 && AllReadable(tx, attrs)
    requires forall i :: 0 <= i < |attrs| ==> !IsXor(attrs[i])
    ensures
      ResponseOf(Message(SUCCESS, tx, attrs) + junk) ==
      match LastMapped(attrs) case Some(a) => Ok((tx, a)) case None => Err(Malformed)
  {
    ParseOfMessage(tx, attrs, junk);
    NoXor(tx, attrs);
  }

  // ---------- the request ----------

  lemma RequestAttrs(tx: TxId, crc: Checksum)
    ensures
      var fp := Attr(FINGERPRINT, BE32(FingerPrint(crc, RequestBody(tx))), []);
      var attrs := [Attr(SOFTWARE, TAILNODE, []), fp];
      && AllLegal(attrs)
      && Request(tx, crc) == Header(REQUEST, 20, tx) + EncodeAll(attrs)
      && |Request(tx, crc)| == 40 && Request(tx, crc)[..32] == RequestBody(tx)
  {
    var sw, fp := Attr(SOFTWARE, TAILNODE, []), Attr(FINGERPRINT, BE32(FingerPrint(crc, RequestBody(tx))), []);
    EncodeOne(fp);
    assert [sw, fp][1..] == [fp];
    Associative(Header(REQUEST, 20, tx), Encode(sw), Encode(fp));
    SplitAt(RequestBody(tx), Encode(fp));
  }

  /** A request gives back its transaction, for any checksum function. */
  lemma RequestRoundTrip(tx: TxId, crc: Checksum)
    ensures RequestOf(Request(tx, crc), crc) == Ok(tx)
  {
    var sw, fp := Attr(SOFTWARE, TAILNODE, []), Attr(FINGERPRINT, BE32(FingerPrint(crc, RequestBody(tx))), []);
    var attrs := [sw, fp];
    RequestAttrs(tx, crc);
    HeaderFields(REQUEST, 20, tx, EncodeAll(attrs));
    WalkVisitsAll(attrs);
    assert IsTailnode(attrs[0]);
    BE32RoundTrip(FingerPrint(crc, RequestBody(tx)));
  }

  lemma {:induction false} LastIsAtEnd(x: seq<Attr>, a: Attr)
    ensures EncodeAll(x + [a]) == EncodeAll(x) + Encode(a)
  {
    EncodeAllAppend(x, [a]);
    EncodeOne(a);
  }

  /**
   A request that is accepted is a header, attributes with the right SOFTWARE among them, and a FINGERPRINT at the
   end; the checksum is taken over exactly the bytes before that attribute if and only if its value is 1 to 4 bytes
   long, and when it is 4 bytes long it is that checksum.
   */
  lemma {:induction false} AcceptedRequest(b: bytes, crc: Checksum)
    requires RequestOf(b, crc).Ok?
    ensures
      var attrs := Walk(b[HEADER_LEN..]).0;
      && attrs != [] && HasSoftware(attrs) && AllLegal(attrs)
      && var last := attrs[|attrs| - 1];
      var before := b[..HEADER_LEN] + EncodeAll(attrs[..|attrs| - 1]);
      && b == before + Encode(last) && last.typ == FINGERPRINT
      && (b[..|b| - LEN_FINGERPRINT] == before <==> 1 <= |last.value| <= 4)
      && (|last.value| == 4 ==> FromBE32(last.value) == XorNat(crc(before), 0x5354554E))
  {
    AcceptedShape(b, crc);
  }

  lemma {:induction false} AcceptedShape(b: bytes, crc: Checksum)
    requires RequestOf(b, crc).Ok?
    ensures
      var attrs := Walk(b[HEADER_LEN..]).0;
      && attrs != [] && HasSoftware(attrs) && AllLegal(attrs)
      && var last := attrs[|attrs| - 1];
      var before := b[..HEADER_LEN] + EncodeAll(attrs[..|attrs| - 1]);
      && b == before + Encode(last) && last.typ == FINGERPRINT
      && (b[..|b| - LEN_FINGERPRINT] == before <==> 1 <= |last.value| <= 4)
      && (|last.value| == 4 ==> FromBE32(last.value) == FingerPrint(crc, before))
  {
    AcceptedParts(b, crc);
    ShapeOf(b, Walk(b[HEADER_LEN..]).0);
  }

  /** The bytes are what the walk has visited, the last attribute apart. */
  lemma {:induction false} ShapeOf(b: bytes, attrs: seq<Attr>)
    requires |b| >= HEADER_LEN && Walk(b[HEADER_LEN..]) == (attrs, true) && attrs != []
    ensures
      var last := attrs[|attrs| - 1];
      var before := b[..HEADER_LEN] + EncodeAll(attrs[..|attrs| - 1]);
      && AllLegal(attrs) && b == before + Encode(last) && |b| >= LEN_FINGERPRINT
      && (b[..|b| - LEN_FINGERPRINT] == before <==> 1 <= |last.value| <= 4)
  {
    WalkIsEncoded(b[HEADER_LEN..]);
    var x, last := attrs[..|attrs| - 1], attrs[|attrs| - 1];
    assert attrs == x + [last];
    LastIsAtEnd(x, last);
    Rejoined(b, EncodeAll(x), Encode(last));
    CoversBefore(b[..HEADER_LEN] + EncodeAll(x), last);
  }

  /** What the checks of the parser say of an accepted request. */
  lemma AcceptedParts(b: bytes, crc: Checksum)
    requires RequestOf(b, crc).Ok?
    ensures |b| >= HEADER_LEN
    ensures
      var (attrs, whole) := Walk(b[HEADER_LEN..]);
      && whole && HasSoftware(attrs) && attrs != [] && attrs[|attrs| - 1].typ == FINGERPRINT
      && LastFingerprint(attrs) == FingerPrint(crc, b[..|b| - LEN_FINGERPRINT])
  {
  }

  lemma Rejoined(b: bytes, x: bytes, y: bytes)
    requires |b| >= HEADER_LEN && b[HEADER_LEN..] == x + y
    ensures b == (b[..HEADER_LEN] + x) + y
  {
    assert b == b[..HEADER_LEN] + b[HEADER_LEN..];
  }

  lemma CoversBefore(before: bytes, last: Attr)
    requires Legal(last) && |before| >= HEADER_LEN
    ensures var b := before + Encode(last);
      |b| >= LEN_FINGERPRINT && (b[..|b| - LEN_FINGERPRINT] == before <==> 1 <= |last.value| <= 4)
  {
    SplitAt(before, Encode(last));
    assert Padded(|last.value|) == 4 <==> 1 <= |last.value| <= 4;
  }

  /** A header and three attributes: SOFTWARE, a FINGERPRINT of all before its value, and an empty FINGERPRINT. */
  function Covered(tx: TxId): bytes {
    Header(REQUEST, 24, tx) + Encode(Attr(SOFTWARE, TAILNODE, [])) + Head(FINGERPRINT, 4)
  }

  function TwoFingerprints(tx: TxId, crc: Checksum): (r: seq<Attr>)
    ensures AllLegal(r) && |r| == 3 && r[2] == Attr(FINGERPRINT, [], [])
  {
    [Attr(SOFTWARE, TAILNODE, []), Attr(FINGERPRINT, BE32(FingerPrint(crc, Covered(tx))), []), Attr(FINGERPRINT, [], [])]
  }

  lemma CoveredBytes(tx: TxId, crc: Checksum)
    ensures
      var b := Header(REQUEST, 24, tx) + EncodeAll(TwoFingerprints(tx, crc));
      |b| == 44 && b[..36] == Covered(tx)
  {
    var attrs := TwoFingerprints(tx, crc);
    var x, y, z := attrs[0], attrs[1], attrs[2];
    assert attrs[1..] == [y, z] && attrs[1..][1..] == [z];
    EncodeOne(z);
    assert EncodeAll(attrs) == Encode(x) + (Encode(y) + Encode(z));
    Regrouped(Header(REQUEST, 24, tx), Encode(x), Head(FINGERPRINT, 4), y.value, Encode(z));
    SplitAt(Covered(tx), y.value + Encode(z));
  }

  lemma Regrouped(h: bytes, x: bytes, f: bytes, v: bytes, z: bytes)
    ensures h + (x + ((f + v + []) + z)) == (h + x + f) + (v + z)
  {
  }

  /** The other lengths happen: an empty FINGERPRINT at the end is accepted for the checksum in an earlier one. */
  lemma EmptyFingerprintAccepted(tx: TxId, crc: Checksum)
    ensures
      var b := Header(REQUEST, 24, tx) + EncodeAll(TwoFingerprints(tx, crc));
      RequestOf(b, crc) == Ok(tx) && Walk(b[HEADER_LEN..]) == (TwoFingerprints(tx, crc), true)
  {
    var attrs := TwoFingerprints(tx, crc);
    CoveredBytes(tx, crc);
    HeaderFields(REQUEST, 24, tx, EncodeAll(attrs));
    WalkVisitsAll(attrs);
    assert IsTailnode(attrs[0]);
    BE32RoundTrip(FingerPrint(crc, Covered(tx)));
    assert LastFingerprint(attrs) == LastFingerprint(attrs[..2]);
  }
}
