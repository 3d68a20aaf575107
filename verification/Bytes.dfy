/** Bytes, big-endian integers and flattening, shared by every wire format in the project. */
module Bytes {

  type byte = x: int | 0 <= x < 256

  type bytes = seq<byte>

  function Min(a: int, b: int): int {
    if a <= b then a else b
  }

  /** Big-endian encoding of the low 16 bits of n. */
  function BE16(n: nat): (r: bytes)
    ensures |r| == 2
  {
    [n / 0x100 % 0x100, n % 0x100]
  }

  function FromBE16(b: bytes): (n: nat)
    requires |b| >= 2
    ensures n < 0x1_0000
  {
    b[0] as int * 0x100 + b[1] as int
  }

  /** Big-endian encoding of the low 32 bits of n. */
  function BE32(n: nat): (r: bytes)
    ensures |r| == 4
  {
    BE16(n / 0x1_0000) + BE16(n % 0x1_0000)
  }

  function FromBE32(b: bytes): (n: nat)
    requires |b| >= 4
    ensures n < 0x1_0000_0000
  {
    FromBE16(b[..2]) * 0x1_0000 + FromBE16(b[2..])
  }

  lemma BE16RoundTrip(n: nat)
    ensures FromBE16(BE16(n)) == n % 0x1_0000
  {
  }

  lemma BE32RoundTrip(n: nat)
    requires n < 0x1_0000_0000
    ensures FromBE32(BE32(n)) == n
  {
    BE16RoundTrip(n / 0x1_0000);
    BE16RoundTrip(n % 0x1_0000);
    var hi, lo := BE16(n / 0x1_0000), BE16(n % 0x1_0000);
    assert (hi + lo)[..2] == hi;
    assert (hi + lo)[2..] == lo;
  }

  lemma BE16OfBytes(b: bytes)
    requires |b| == 2
    ensures BE16(FromBE16(b)) == b
  {
  }

  lemma BE32OfBytes(b: bytes)
    requires |b| == 4
    ensures BE32(FromBE32(b)) == b
  {
    BE16OfBytes(b[..2]);
    BE16OfBytes(b[2..]);
    Halves(FromBE16(b[..2]), FromBE16(b[2..]));
    assert b == b[..2] + b[2..];
  }

  lemma Halves(hi: nat, lo: nat)
    requires lo < 0x1_0000
    ensures BE32(hi * 0x1_0000 + lo) == BE16(hi) + BE16(lo)
  {
  }

  /** The most significant byte comes first. */
  lemma BigEndian16(n: nat)
    requires n < 0x1_0000
    ensures n == BE16(n)[0] as int * 256 + BE16(n)[1] as int
  {
  }

  lemma BigEndian32(n: nat)
    requires n < 0x1_0000_0000
    ensures
      var b := BE32(n);
      n == ((b[0] as int * 256 + b[1] as int) * 256 + b[2] as int) * 256 + b[3] as int
  {
    BigEndian16(n / 0x1_0000);
    BigEndian16(n % 0x1_0000);
  }

  /** And it is read first. */
  lemma ReadBigEndian(b: bytes)
    ensures |b| >= 2 ==> FromBE16(b) == b[0] as int * 256 + b[1] as int
    ensures |b| >= 4 ==> FromBE32(b) == ((b[0] as int * 256 + b[1] as int) * 256 + b[2] as int) * 256 + b[3] as int
  {
  }

  lemma Associative<T>(a: seq<T>, b: seq<T>, c: seq<T>)
    ensures (a + b) + c == a + (b + c)
  {
  }

  lemma LastSplit<T>(a: seq<T>, b: seq<T>)
    requires b != []
    ensures b == b[..|b| - 1] + [b[|b| - 1]] && a + b == (a + b[..|b| - 1]) + [b[|b| - 1]]
  {
  }

  /** The concatenation of a list of byte strings, in order. */
  function Concat(bs: seq<bytes>): bytes {
    if bs == [] then [] else bs[0] + Concat(bs[1..])
  }

  lemma {:induction false} ConcatAppend(a: seq<bytes>, b: seq<bytes>)
    ensures Concat(a + b) == Concat(a) + Concat(b)
  {
    if a == [] {
      assert a + b == b;
    } else {
      ConcatAppend(a[1..], b);
      assert (a + b)[1..] == a[1..] + b;
      Associative(a[0], Concat(a[1..]), Concat(b));
    }
  }

  lemma ConcatSnoc(a: seq<bytes>, x: bytes)
    ensures Concat(a + [x]) == Concat(a) + x
  {
    ConcatAppend(a, [x]);
    assert Concat([x]) == x;
  }

  /** Flattening a prefix of a list gives a prefix of the flattened list. */
  lemma ConcatPrefix(a: seq<bytes>, n: nat)
    requires n <= |a|
    ensures Concat(a[..n]) <= Concat(a)
  {
    ConcatAppend(a[..n], a[n..]);
    assert a[..n] + a[n..] == a;
  }
}
