/** STUN binding requests and responses as they lie in a packet (RFC 5389). */
module Stun {
  import opened Wrappers
  import opened Bytes
  import opened StunAttrs

  const SOFTWARE := 0x8022
  const FINGERPRINT := 0x8028
  const MAPPED_ADDRESS := 0x0001
  const XOR_MAPPED_ADDRESS := 0x0020
  const XOR_MAPPED_ADDRESS_ALT := 0x8020

  const MAGIC_COOKIE: bytes := [0x21, 0x12, 0xA4, 0x42]
  const TAILNODE: bytes := [0x74, 0x61, 0x69, 0x6C, 0x6E, 0x6F, 0x64, 0x65]
  const HEADER_LEN := 20
  const LEN_FINGERPRINT := 8

  type TxId = t: bytes | |t| == 12 witness [0, 0, 0, 0, 0, 0, 0, 0, 0, 0, 0, 0]

  type u32 = x: int | 0 <= x < 0x1_0000_0000

  /** CRC-32 is not modelled: the checksum is any function. */
  type Checksum = bytes -> u32

  // ---------- exclusive or ----------

  /** Bit by bit. */
  function XorNat(a: nat, b: nat): (r: nat)
    decreases a + b
  {
    if a == 0 && b == 0 then 0 else 2 * XorNat(a / 2, b / 2) + (a + b) % 2
  }

  function Pow2(n: nat): (r: nat)
    ensures r > 0
  {
    if n == 0 then 1 else 2 * Pow2(n - 1)
  }

  lemma {:induction false} XorBelow(a: nat, b: nat, n: nat)
    requires a < Pow2(n) && b < Pow2(n)
    ensures XorNat(a, b) < Pow2(n)
    decreases n
  {
    if n > 0 {
      XorBelow(a / 2, b / 2, n - 1);
    }
  }

  lemma {:induction false} XorNatTwice(a: nat, b: nat)
    ensures XorNat(XorNat(a, b), b) == a
    decreases a + b
  {
    if a != 0 || b != 0 {
      XorNatTwice(a / 2, b / 2);
      LowBit(XorNat(a / 2, b / 2), a, b);
    }
  }

  lemma LowBit(h: nat, a: nat, b: nat)
    ensures
      var r := 2 * h + (a + b) % 2;
      r / 2 == h && (r + b) % 2 == a % 2
  {
  }

  function Xor(a: byte, b: byte): (r: byte) {
    assert Pow2(8) == 256;
    XorBelow(a, b, 8);
    XorNat(a, b)
  }

  function Xor16(a: nat, b: nat): (r: nat)
    requires a < 0x1_0000 && b < 0x1_0000
    ensures r < 0x1_0000
  {
    assert Pow2(8) == 256;
    assert Pow2(16) == 65536;
    XorBelow(a, b, 16);
    XorNat(a, b)
  }

  function Xor32(a: u32, b: u32): (r: u32) {
    assert Pow2(8) == 256;
    assert Pow2(16) == 65536;
    assert Pow2(24) == 0x100_0000;
    assert Pow2(32) == 0x1_0000_0000;
    XorBelow(a, b, 32);
    XorNat(a, b)
  }

  function FingerPrint(crc: Checksum, b: bytes): u32 {
    Xor32(crc(b), 0x5354554E)
  }

  /** The cookie, then the transaction id: what an address is masked with. */
  function Key(tx: TxId): (r: bytes)
    ensures |r| == 16
  {
    MAGIC_COOKIE + tx
  }

  function Masked(x: bytes, key: bytes): (r: bytes)
    requires |x| <= |key|
    ensures |r| == |x| && forall i :: 0 <= i < |x| ==> r[i] == Xor(x[i], key[i])
  {
    seq(|x|, i requires 0 <= i < |x| => Xor(x[i], key[i]))
  }

  lemma MaskedTwice(x: bytes, key: bytes)
    requires |x| <= |key|
    ensures Masked(Masked(x, key), key) == x
  {
    forall i | 0 <= i < |x| ensures Masked(Masked(x, key), key)[i] == x[i] {
      XorNatTwice(x[i], key[i]);
    }
  }

  // ---------- addresses ----------

  datatype Ip = Invalid | V4(ip4: bytes) | V6(ip6: bytes, zone: string)

  predicate ValidIp(ip: Ip) {
    (ip.V4? ==> |ip.ip4| == 4) && (ip.V6? ==> |ip.ip6| == 16)
  }

  datatype AddrPort = AddrPort(ip: Ip, port: nat)

  /** AddrFromSlice on 4 or 16 bytes. */
  function FromSlice(b: bytes): Ip {
    if |b| == 4 then V4(b) else if |b| == 16 then V6(b, "") else Invalid
  }

  /** An IPv4 address written as IPv6 becomes IPv4. */
  function Unmap(ip: Ip): Ip {
    if ip.V6? && |ip.ip6| == 16 && ip.ip6[..12] == [0, 0, 0, 0, 0, 0, 0, 0, 0, 0, 0xFF, 0xFF] then V4(ip.ip6[12..]) else ip
  }

  function WithoutZone(ip: Ip): Ip {
    if ip.V6? then V6(ip.ip6, "") else ip
  }

  function IpBytes(ip: Ip): bytes {
    match ip
    case Invalid => []
    case V4(b) => b
    case V6(b, _) => b
  }

  function FamilyAddrLen(fam: byte): nat {
    if fam == 1 then 4 else if fam == 2 then 16 else 0
  }

  /** The value of a XOR-MAPPED-ADDRESS (section 15.2), or of a MAPPED-ADDRESS (section 15.1) with nothing masked. */
  function XorMapped(tx: TxId, value: bytes): Option<AddrPort> {
    if |value| < 4 then None
    else
      var n, field := FamilyAddrLen(value[1]), value[4..];
      if n == 0 || |field| < n then None
      else Some(AddrPort(Unmap(FromSlice(Masked(field[..n], Key(tx)))), Xor16(FromBE16(value[2..4]), 0x2112)))
  }

  function Mapped(value: bytes): Option<AddrPort> {
    if |value| < 4 then None
    else
      var n, field := FamilyAddrLen(value[1]), value[4..];
      if n == 0 || |field| < n then None
      else Some(AddrPort(Unmap(FromSlice(field[..n])), FromBE16(value[2..4])))
  }

  // ---------- messages ----------

  function Header(kind: bytes, length: nat, tx: TxId): (r: bytes)
    requires |kind| == 2
    ensures |r| == 20
  {
    kind + BE16(length) + MAGIC_COOKIE + tx
  }

  function Message(kind: bytes, tx: TxId, attrs: seq<Attr>): bytes
    requires |kind| == 2
  {
    Header(kind, |EncodeAll(attrs)|, tx) + EncodeAll(attrs)
  }

  predicate Is(b: bytes) {
    |b| >= HEADER_LEN && b[0] < 64 && b[4..8] == MAGIC_COOKIE
  }

  const REQUEST: bytes := [0, 1]
  const SUCCESS: bytes := [1, 1]

  /** Request: SOFTWARE, then the fingerprint of all that comes before it. */
  function RequestBody(tx: TxId): bytes {
    Header(REQUEST, 4 + |TAILNODE| + LEN_FINGERPRINT, tx) + Encode(Attr(SOFTWARE, TAILNODE, []))
  }

  function Request(tx: TxId, crc: Checksum): bytes {
    RequestBody(tx) + Encode(Attr(FINGERPRINT, BE32(FingerPrint(crc, RequestBody(tx))), []))
  }

  function XorAddress(tx: TxId, a: AddrPort): Attr
    requires ValidIp(a.ip) && a.port < 0x1_0000
  {
    Attr(XOR_MAPPED_ADDRESS,
         [0, if a.ip.V4? then 1 else 2] + BE16(Xor16(a.port, 0x2112)) + Masked(IpBytes(a.ip), Key(tx)), [])
  }

  function ResponseBytes(tx: TxId, a: AddrPort): bytes
    requires ValidIp(a.ip) && a.port < 0x1_0000
  {
    if a.ip.Invalid? then [] else Message(SUCCESS, tx, [XorAddress(tx, a)])
  }

  // ---------- what a parser answers ----------

  predicate IsXor(a: Attr) {
    a.typ == XOR_MAPPED_ADDRESS || a.typ == XOR_MAPPED_ADDRESS_ALT
  }

  /** Every address attribute of the list can be read. */
  predicate AllReadable(tx: TxId, attrs: seq<Attr>) {
    forall i :: 0 <= i < |attrs| ==> Readable(tx, attrs[i])
  }

  predicate Readable(tx: TxId, a: Attr) {
    && (IsXor(a) ==> XorMapped(tx, a.value).Some?)
    && (a.typ == MAPPED_ADDRESS ==> Mapped(a.value).Some?)
  }

  /** The last XOR-MAPPED-ADDRESS, or else the last MAPPED-ADDRESS. */
  function LastXor(tx: TxId, attrs: seq<Attr>): Option<AddrPort> {
    if attrs == [] then None
    else
      var a := attrs[|attrs| - 1];
      if IsXor(a) then XorMapped(tx, a.value) else LastXor(tx, attrs[..|attrs| - 1])
  }

  function LastMapped(attrs: seq<Attr>): Option<AddrPort> {
    if attrs == [] then None
    else
      var a := attrs[|attrs| - 1];
      if a.typ == MAPPED_ADDRESS then Mapped(a.value) else LastMapped(attrs[..|attrs| - 1])
  }

  function Answer(tx: TxId, attrs: seq<Attr>): Result<AddrPort> {
    if !AllReadable(tx, attrs) then Err(Malformed)
    else if LastXor(tx, attrs).Some? then Ok(LastXor(tx, attrs).value)
    else if LastMapped(attrs).Some? then Ok(LastMapped(attrs).value)
    else Err(Malformed)
  }

  function ResponseOf(b: bytes): (r: Result<(bytes, AddrPort)>) {
    if !Is(b) then Err(NotStun)
    else if b[..2] != SUCCESS then Err(NotSuccess)
    else if FromBE16(b[2..4]) > |b| - HEADER_LEN then Err(Malformed)
    else
      var (attrs, whole) := Walk(b[HEADER_LEN..][..FromBE16(b[2..4])]);
      if !whole then Err(Malformed)
      else
        match Answer(b[8..20], attrs)
        case Err(e) => Err(e)
        case Ok(a) => Ok((b[8..20], a))
  }

  predicate HasSoftware(attrs: seq<Attr>) {
    exists i :: 0 <= i < |attrs| && IsTailnode(attrs[i])
  }

  predicate IsTailnode(a: Attr) {
    a.typ == SOFTWARE && a.value == TAILNODE
  }

  /** The last FINGERPRINT of four bytes, 0 if there is none. */
  function LastFingerprint(attrs: seq<Attr>): nat {
    if attrs == [] then 0
    else
      var a := attrs[|attrs| - 1];
      if a.typ == FINGERPRINT && |a.value| == 4 then FromBE32(a.value) else LastFingerprint(attrs[..|attrs| - 1])
  }

  function RequestOf(b: bytes, crc: Checksum): (r: Result<bytes>) {
    if !Is(b) then Err(NotStun)
    else if b[..2] != REQUEST then Err(NotBindingRequest)
    else
      var (attrs, whole) := Walk(b[HEADER_LEN..]);
      if !whole then Err(Malformed)
      else if !HasSoftware(attrs) then Err(WrongSoftware)
      else if attrs == [] || attrs[|attrs| - 1].typ != FINGERPRINT then Err(NoFingerprint)
      else if LastFingerprint(attrs) != FingerPrint(crc, b[..|b| - LEN_FINGERPRINT]) then Err(WrongFingerprint)
      else Ok(b[8..20])
  }
}
