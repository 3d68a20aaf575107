/** The attribute list of a STUN message and the walk over it (section 15 of RFC 5389). */
module StunAttrs {
  import opened Bytes

  datatype Error =
    | NotStun | NotSuccess | Malformed | NotBindingRequest | WrongSoftware | NoFingerprint | WrongFingerprint

  datatype Result<+T> = Ok(value: T) | Err(error: Error)

  /** An attribute as it lies in the message: its value and the bytes that pad it to a multiple of four. */
  datatype Attr = Attr(typ: nat, value: bytes, pad: bytes)

  function Padded(n: nat): (r: nat)
    ensures n <= r < n + 4 && r % 4 == 0
  {
    (n + 3) / 4 * 4
  }

  predicate Legal(a: Attr) {
    a.typ < 0x1_0000 && |a.value| < 0x1_0000 && |a.value| + |a.pad| == Padded(|a.value|)
  }

  predicate AllLegal(attrs: seq<Attr>) {
    forall i :: 0 <= i < |attrs| ==> Legal(attrs[i])
  }

  lemma SplitAt(x: bytes, y: bytes)
    ensures (x + y)[..|x|] == x && (x + y)[|x|..] == y
  {
  }

  function Head(typ: nat, n: nat): (r: bytes)
    ensures |r| == 4 && FromBE16(r[..2]) == typ % 0x1_0000 && FromBE16(r[2..4]) == n % 0x1_0000
  {
    SplitAt(BE16(typ), BE16(n));
    BE16RoundTrip(typ);
    BE16RoundTrip(n);
    assert (BE16(typ) + BE16(n))[2..] == (BE16(typ) + BE16(n))[2..4];
    BE16(typ) + BE16(n)
  }

  function Encode(a: Attr): bytes {
    Head(a.typ, |a.value|) + a.value + a.pad
  }

  function EncodeAll(attrs: seq<Attr>): bytes {
    if attrs == [] then [] else Encode(attrs[0]) + EncodeAll(attrs[1..])
  }

  /** One turn of the walk: the attribute at the front and what follows it. */
  function First(b: bytes): (r: Result<(Attr, bytes)>)
    ensures r.Ok? ==> |r.value.1| < |b|
  {
    if |b| < 4 then Err(Malformed)
    else
      var n, tail := FromBE16(b[2..4]), b[4..];
      if Padded(n) > |tail| then Err(Malformed)
      else Ok((Attr(FromBE16(b[..2]), tail[..n], tail[n..Padded(n)]), tail[Padded(n)..]))
  }

  /** The attributes that the walk comes to, and whether it comes to the end of the bytes. */
  function Walk(b: bytes): (r: (seq<Attr>, bool))
    decreases |b|
  {
    if b == [] then ([], true)
    else
      match First(b)
      case Err(_) => ([], false)
      case Ok((a, rest)) => var (attrs, whole) := Walk(rest); ([a] + attrs, whole)
  }

  // ---------- the walk and the list ----------

  lemma HeadOf(head: bytes, tail: bytes)
    requires |head| == 4
    ensures (head + tail)[..2] == head[..2] && (head + tail)[2..4] == head[2..4] && (head + tail)[4..] == tail
  {
  }

  lemma TailOf(value: bytes, pad: bytes, rest: bytes)
    ensures
      var tail := value + (pad + rest);
      && tail[..|value|] == value && tail[|value|..|value| + |pad|] == pad && tail[|value| + |pad|..] == rest
  {
  }

  lemma Regroup(head: bytes, value: bytes, pad: bytes, rest: bytes)
    ensures head + value + pad + rest == head + (value + (pad + rest))
  {
  }

  lemma FirstOf(a: Attr, rest: bytes)
    requires Legal(a)
    ensures First(Encode(a) + rest) == Ok((a, rest))
  {
    Regroup(Head(a.typ, |a.value|), a.value, a.pad, rest);
    HeadOf(Head(a.typ, |a.value|), a.value + (a.pad + rest));
    TailOf(a.value, a.pad, rest);
  }

  lemma WalkStep(a: Attr, rest: bytes)
    requires Legal(a)
    ensures Walk(Encode(a) + rest) == ([a] + Walk(rest).0, Walk(rest).1)
  {
    FirstOf(a, rest);
  }

  /** The walk visits exactly the attributes of a well-formed list, in order, to the end. */
  lemma {:induction false} WalkVisitsAll(attrs: seq<Attr>)
    requires AllLegal(attrs)
    ensures Walk(EncodeAll(attrs)) == (attrs, true)
  {
    if attrs != [] {
      WalkStep(attrs[0], EncodeAll(attrs[1..]));
      WalkVisitsAll(attrs[1..]);
      assert [attrs[0]] + attrs[1..] == attrs;
    }
  }

  lemma ReadHead(b: bytes)
    requires |b| >= 4
    ensures Head(FromBE16(b[..2]), FromBE16(b[2..4])) == b[..4]
  {
    BE16OfBytes(b[..2]);
    BE16OfBytes(b[2..4]);
    assert b[..4] == b[..2] + b[2..4];
  }

  lemma Rejoin(b: bytes, tail: bytes, i: nat, j: nat)
    requires |b| >= 4 && tail == b[4..] && i <= j <= |tail|
    ensures b[..4] + tail[..i] + tail[i..j] + tail[j..] == b
  {
  }

  lemma FirstIsEncoded(b: bytes)
    requires First(b).Ok?
    ensures
      var (a, rest) := First(b).value;
      Legal(a) && Encode(a) + rest == b
  {
    var n := FromBE16(b[2..4]);
    ReadHead(b);
    Rejoin(b, b[4..], n, Padded(n));
  }

  /** Conversely, bytes that are walked to the end are the encoding of the attributes visited. */
  lemma {:induction false} WalkIsEncoded(b: bytes)
    ensures AllLegal(Walk(b).0)
    ensures Walk(b).1 ==> EncodeAll(Walk(b).0) == b
    ensures EncodeAll(Walk(b).0) <= b
    decreases |b|
  {
    if b != [] && First(b).Ok? {
      var (a, rest) := First(b).value;
      FirstIsEncoded(b);
      WalkIsEncoded(rest);
      var attrs := Walk(b).0;
      assert attrs[1..] == Walk(rest).0;
    }
  }

  lemma CutFirst(a: Attr, k: nat)
    requires Legal(a) && 0 < k < |Encode(a)|
    ensures First(Encode(a)[..k]) == Err(Malformed)
  {
    if k >= 4 {
      assert Encode(a)[..k][2..4] == Head(a.typ, |a.value|)[2..4];
    }
  }

  /** A list cut within an attribute is walked up to the cut and found malformed. */
  lemma {:induction false} WalkOfCut(attrs: seq<Attr>, a: Attr, k: nat)
    requires AllLegal(attrs) && Legal(a) && 0 < k < |Encode(a)|
    ensures Walk(EncodeAll(attrs) + Encode(a)[..k]) == (attrs, false)
  {
    var cut := Encode(a)[..k];
    if attrs == [] {
      CutFirst(a, k);
      assert EncodeAll(attrs) + cut == cut;
    } else {
      WalkOfCut(attrs[1..], a, k);
      WalkStep(attrs[0], EncodeAll(attrs[1..]) + cut);
      Associative(Encode(attrs[0]), EncodeAll(attrs[1..]), cut);
      assert [attrs[0]] + attrs[1..] == attrs;
    }
  }

  // ---------- as the program walks ----------

  /** What a visitor makes of a list of attributes; it stops the walk at its first error. */
  function Visit<S>(attrs: seq<Attr>, s: S, fn: (S, Attr) -> Result<S>): Result<S> {
    if attrs == [] then Ok(s)
    else
      match fn(s, attrs[0])
      case Err(e) => Err(e)
      case Ok(t) => Visit(attrs[1..], t, fn)
  }

  function Outcome<S>(b: bytes, s: S, fn: (S, Attr) -> Result<S>): Result<S> {
    var (attrs, whole) := Walk(b);
    match Visit(attrs, s, fn)
    case Err(e) => Err(e)
    case Ok(t) => if whole then Ok(t) else Err(Malformed)
  }

  /** foreachAttr; the variables that the visitor captures are passed along as its state. */
  method ForeachAttr<S>(all: bytes, init: S, fn: (S, Attr) -> Result<S>) returns (r: Result<S>)
    ensures r == Outcome(all, init, fn)
  {
    var b, s := all, init;
    while |b| > 0
      invariant Outcome(b, s, fn) == Outcome(all, init, fn)
      decreases |b|
    {
      if |b| < 4 {
        return Err(Malformed);
      }
      var attrType, attrLen := FromBE16(b[..2]), FromBE16(b[2..4]);
      var attrLenWithPad := (attrLen + 3) / 4 * 4;
      ghost var before := b;
      b := b[4..];
      if attrLenWithPad > |b| {
        return Err(Malformed);
      }
      OneTurn(before, s, fn);
      var a := Attr(attrType, b[..attrLen], b[attrLen..attrLenWithPad]);
      assert First(before) == Ok((a, b[attrLenWithPad..]));
      var t := fn(s, a);
      if t.Err? {
        return Err(t.error);
      }
      s := t.value;
      b := b[attrLenWithPad..];
    }
    r := Ok(s);
  }

  lemma OneTurn<S>(b: bytes, s: S, fn: (S, Attr) -> Result<S>)
    requires b != [] && First(b).Ok?
    ensures
      var (a, rest) := First(b).value;
      Outcome(b, s, fn) == match fn(s, a) case Err(e) => Err(e) case Ok(t) => Outcome(rest, t, fn)
  {
    var (a, rest) := First(b).value;
    assert ([a] + Walk(rest).0)[1..] == Walk(rest).0;
  }
}
