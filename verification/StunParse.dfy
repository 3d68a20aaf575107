/** The printers and parsers step by step: buffers appended to, attributes walked, captured variables updated. */
module StunParse {
  import opened Wrappers
  import opened Bytes
  import opened StunAttrs
  import opened Stun

  // ---------- Response ----------

  /** Response */
  method Response(tx: TxId, a: AddrPort) returns (b: bytes)
    requires ValidIp(a.ip) && a.port < 0x1_0000
    ensures b == ResponseBytes(tx, a)
  {
    if a.ip.Invalid? {
      return [];
    }
    var fam := if a.ip.V4? then 1 else 2;
    var ip := IpBytes(a.ip);
    b := [1, 1] + BE16(8 + |ip|) + MAGIC_COOKIE + tx;
    var value := [0, fam] + BE16(Xor16(a.port, 0x2112));
    ghost var head := value;
    for i := 0 to |ip|
      invariant value == head + Masked(ip[..i], Key(tx))
    {
      var o := ip[i];
      value := value + [if i < 4 then Xor(o, MAGIC_COOKIE[i]) else Xor(o, tx[i - 4])];
      MaskedNext(tx, ip, i);
      Associative(head, Masked(ip[..i], Key(tx)), [Xor(o, Key(tx)[i])]);
    }
    assert ip[..|ip|] == ip;
    b := b + (BE16(XOR_MAPPED_ADDRESS) + BE16(4 + |ip|) + value);
    OneAttribute(XorAddress(tx, a));
  }

  lemma MaskedNext(tx: TxId, x: bytes, i: nat)
    requires i < |x| <= 16
    ensures Masked(x[..i + 1], Key(tx)) == Masked(x[..i], Key(tx)) + [Xor(x[i], Key(tx)[i])]
  {
  }

  lemma OneAttribute(a: Attr)
    requires a.pad == []
    ensures EncodeAll([a]) == BE16(a.typ) + BE16(|a.value|) + a.value
  {
  }

  // ---------- ParseResponse ----------

  /** xorMappedAddress */
  method XorMappedAddress(tx: TxId, b: bytes) returns (addr: bytes, port: nat, err: bool)
    ensures err <==> XorMapped(tx, b).None?
    ensures !err ==> XorMapped(tx, b) == Some(AddrPort(Unmap(FromSlice(addr)), port))
  {
    addr, port, err := [], 0, true;
    if |b| < 4 {
      return;
    }
    port := Xor16(FromBE16(b[2..4]), 0x2112);
    var addrField := b[4..];
    var addrLen := FamilyAddrLen(b[1]);
    if addrLen == 0 || |addrField| < addrLen {
      return;
    }
    var xorAddr := addrField[..addrLen];
    for i := 0 to |xorAddr|
      invariant addr == Masked(xorAddr[..i], Key(tx))
    {
      addr := addr + [if i < 4 then Xor(xorAddr[i], MAGIC_COOKIE[i]) else Xor(xorAddr[i], tx[i - 4])];
      MaskedNext(tx, xorAddr, i);
    }
    assert xorAddr[..|xorAddr|] == xorAddr;
    err := false;
  }

  /** The variables that ParseResponse's visitor captures. */
  datatype Seen = Seen(addr: Option<AddrPort>, fallback: Option<AddrPort>)

  function See(tx: TxId, s: Seen, a: Attr): Result<Seen> {
    if IsXor(a) then
      (match XorMapped(tx, a.value)
       case None => Err(Malformed)
       case Some(x) => Ok(s.(addr := Some(x))))
    else if a.typ == MAPPED_ADDRESS then
      (match Mapped(a.value)
       case None => Err(Malformed)
       case Some(x) => Ok(s.(fallback := Some(x))))
    else Ok(s)
  }

  lemma {:induction false} VisitAppend<S>(x: seq<Attr>, a: Attr, s: S, fn: (S, Attr) -> Result<S>)
    ensures Visit(x + [a], s, fn) == match Visit(x, s, fn) case Err(e) => Err(e) case Ok(t) => fn(t, a)
  {
    if x == [] {
      assert x + [a] == [a];
      if fn(s, a).Ok? {
        assert [a][1..] == [];
      }
    } else {
      assert (x + [a])[1..] == x[1..] + [a];
      if fn(s, x[0]).Ok? {
        VisitAppend(x[1..], a, fn(s, x[0]).value, fn);
      }
    }
  }

  /** What the captured variables hold after the walk: the last of each kind, counted from the end. */
  lemma {:induction false} SeenIsLast(tx: TxId, attrs: seq<Attr>, fn: (Seen, Attr) -> Result<Seen>)
    requires forall s, a :: fn(s, a) == See(tx, s, a)
    ensures
      Visit(attrs, Seen(None, None), fn) ==
      if AllReadable(tx, attrs) then Ok(Seen(LastXor(tx, attrs), LastMapped(attrs))) else Err(Malformed)
  {
    if attrs != [] {
      var x, a := attrs[..|attrs| - 1], attrs[|attrs| - 1];
      assert attrs == x + [a];
      SeenIsLast(tx, x, fn);
      VisitAppend(x, a, Seen(None, None), fn);
      assert AllReadable(tx, attrs) <==> AllReadable(tx, x) && Readable(tx, a);
    }
  }

  /** ParseResponse */
  method ParseResponse(packet: bytes) returns (r: Result<(bytes, AddrPort)>)
    ensures r == ResponseOf(packet)
  {
    if !Is(packet) {
      return Err(NotStun);
    }
    var tx: TxId := packet[8..20];
    if packet[..2] != SUCCESS {
      return Err(NotSuccess);
    }
    var attrsLen, b := FromBE16(packet[2..4]), packet[HEADER_LEN..];
    if attrsLen > |b| {
      return Err(Malformed);
    }
    b := b[..attrsLen];
    var fn := (s: Seen, a: Attr) => See(tx, s, a);
    SeenIsLast(tx, Walk(b).0, fn);
    var seen := ForeachAttr(b, Seen(None, None), fn);
    if seen.Err? {
      return Err(seen.error);
    }
    if seen.value.addr.Some? {
      return Ok((tx, seen.value.addr.value));
    }
    if seen.value.fallback.Some? {
      return Ok((tx, seen.value.fallback.value));
    }
    return Err(Malformed);
  }

  // ---------- ParseBindingRequest ----------

  /** The variables that ParseBindingRequest's visitor captures. */
  datatype Checked = Checked(softwareOk: bool, lastAttr: nat, gotFp: nat)

  function Check(s: Checked, a: Attr): Result<Checked> {
    Ok(Checked(
      s.softwareOk || IsTailnode(a),
      a.typ,
      if a.typ == FINGERPRINT && |a.value| == 4 then FromBE32(a.value) else s.gotFp))
  }

  lemma {:induction false} CheckedIsLast(attrs: seq<Attr>, fn: (Checked, Attr) -> Result<Checked>)
    requires forall s, a :: fn(s, a) == Check(s, a)
    ensures
      Visit(attrs, Checked(false, 0, 0), fn) ==
      Ok(Checked(HasSoftware(attrs), if attrs == [] then 0 else attrs[|attrs| - 1].typ, LastFingerprint(attrs)))
  {
    if attrs != [] {
      var x, a := attrs[..|attrs| - 1], attrs[|attrs| - 1];
      assert attrs == x + [a];
      CheckedIsLast(x, fn);
      VisitAppend(x, a, Checked(false, 0, 0), fn);
      SoftwareAppend(x, a);
    }
  }

  lemma SoftwareAppend(x: seq<Attr>, a: Attr)
    ensures HasSoftware(x + [a]) <==> HasSoftware(x) || IsTailnode(a)
  {
    if HasSoftware(x) {
      var i :| 0 <= i < |x| && IsTailnode(x[i]);
      assert IsTailnode((x + [a])[i]);
    }
    if IsTailnode(a) {
      assert IsTailnode((x + [a])[|x|]);
    }
  }

  /** ParseBindingRequest */
  method ParseBindingRequest(b: bytes, crc: Checksum) returns (r: Result<bytes>)
    ensures r == RequestOf(b, crc)
  {
    if !Is(b) {
      return Err(NotStun);
    }
    if b[..2] != REQUEST {
      return Err(NotBindingRequest);
    }
    var tx := b[8..20];
    var fn := (s: Checked, a: Attr) => Check(s, a);
    CheckedIsLast(Walk(b[HEADER_LEN..]).0, fn);
    var c := ForeachAttr(b[HEADER_LEN..], Checked(false, 0, 0), fn);
    if c.Err? {
      return Err(c.error);
    }
    if !c.value.softwareOk {
      return Err(WrongSoftware);
    }
    if c.value.lastAttr != FINGERPRINT {
      return Err(NoFingerprint);
    }
    if c.value.gotFp != FingerPrint(crc, b[..|b| - LEN_FINGERPRINT]) {
      return Err(WrongFingerprint);
    }
    return Ok(tx);
  }
}
