/** connmux frames as bytes: Write and Close on one side, nextFrame on the other. */
module MuxWire {
  import opened Bytes

  const CMD_DATA := 0
  const CMD_FIN := 1

  datatype Frame = Frame(cmd: byte, seqno: nat, data: bytes)

  /** | VER 1 | CMD 1 | LEN 2 | SEQ 4 | DATA |; the length is cast to 16 bits. */
  function Encode(f: Frame): (r: bytes)
    ensures |r| == 8 + |f.data|
  {
    [0, f.cmd] + BE16(|f.data|) + BE32(f.seqno) + f.data
  }

  datatype Next = Got(frame: Frame, rest: bytes) | BadVersion | BadCommand | Incomplete

  /** nextFrame on the bytes the connection still has. */
  function NextFrame(b: bytes): (r: Next)
    ensures r.Got? ==> |r.rest| < |b|
  {
    if |b| < 8 then Incomplete
    else if b[0] != 0 then BadVersion
    else
      var length := FromBE16(b[2..4]);
      if |b| < 8 + length then Incomplete
      else if b[1] != CMD_DATA && b[1] != CMD_FIN then BadCommand
      else Got(Frame(b[1], FromBE32(b[4..8]), b[8..8 + length]), b[8 + length..])
  }

  /** run: nextFrame until it fails. */
  function Frames(b: bytes): (r: seq<Frame>)
    decreases |b|
  {
    var n := NextFrame(b);
    if n.Got? then [n.frame] + Frames(n.rest) else []
  }

  function EncodeAll(fs: seq<Frame>): bytes {
    if fs == [] then [] else Encode(fs[0]) + EncodeAll(fs[1..])
  }

  /** A frame that OpenStream, Write and Close can produce. */
  predicate Legal(f: Frame) {
    f.cmd <= 1 && f.seqno < 0x1_0000_0000 && |f.data| < 0x1_0000
  }

  lemma HeaderRoundTrip(f: Frame, rest: bytes)
    requires f.seqno < 0x1_0000_0000
    ensures
      var b := Encode(f) + rest;
      && b[0] == 0 && b[1] == f.cmd && FromBE16(b[2..4]) == |f.data| % 0x1_0000 && FromBE32(b[4..8]) == f.seqno
      && b[8..] == f.data + rest
  {
    var b := Encode(f) + rest;
    assert b[2..4] == BE16(|f.data|);
    assert b[4..8] == BE32(f.seqno);
    BE16RoundTrip(|f.data|);
    BE32RoundTrip(f.seqno);
  }

  /** The next frame is the one that was written, whatever follows it, exactly when the payload fits the 16-bit
      length; a longer one is cut and the bytes after the cut are taken for a header. */
  lemma FrameRoundTrip(f: Frame, rest: bytes)
    requires f.cmd <= 1 && f.seqno < 0x1_0000_0000
    ensures NextFrame(Encode(f) + rest) == Got(f, rest) <==> |f.data| < 0x1_0000
    ensures |f.data| >= 0x1_0000 ==>
              var n := |f.data| % 0x1_0000;
              NextFrame(Encode(f) + rest) == Got(Frame(f.cmd, f.seqno, f.data[..n]), f.data[n..] + rest)
  {
    HeaderRoundTrip(f, rest);
    var b, n := Encode(f) + rest, |f.data| % 0x1_0000;
    assert b[8..8 + n] == b[8..][..n] == f.data[..n];
    assert b[8 + n..] == b[8..][n..] == f.data[n..] + rest;
    if |f.data| < 0x1_0000 {
      assert f.data[..n] == f.data && f.data[n..] + rest == rest;
    }
  }

  /** What follows the last frame that can be read. */
  function Tail(b: bytes): (r: bytes)
    ensures !NextFrame(r).Got?
    decreases |b|
  {
    var n := NextFrame(b);
    if n.Got? then Tail(n.rest) else b
  }

  /** What one nextFrame leaves unread, frame or not. */
  function AfterRead(b: bytes): bytes {
    match NextFrame(b)
    case Got(_, rest) => rest
    case BadVersion => b[8..]
    case BadCommand => b[8 + FromBE16(b[2..4])..]
    case Incomplete => []
  }

  /** A frame on the pipe: version 0, the command, two bytes of length and four of number, the most significant first,
      and the payload. */
  lemma FrameLayout(f: Frame)
    requires Legal(f)
    ensures
      var b := Encode(f);
      && b[0] == 0 && b[1] == f.cmd && b[2] as int * 256 + b[3] as int == |f.data|
      && ((b[4] as int * 256 + b[5] as int) * 256 + b[6] as int) * 256 + b[7] as int == f.seqno && b[8..] == f.data
  {
    var b := Encode(f);
    BigEndian16(|f.data|);
    BigEndian32(f.seqno);
    assert b[2..4] == BE16(|f.data|) && b[4..8] == BE32(f.seqno);
    assert b[2] == b[2..4][0] && b[3] == b[2..4][1];
    assert b[4] == b[4..8][0] && b[5] == b[4..8][1] && b[6] == b[4..8][2] && b[7] == b[4..8][3];
  }

  /** When nextFrame fails: the header or the payload is not all there, the version is not 0, or, found out last, the
      command is neither DATA nor FIN. */
  lemma FrameErrors(b: bytes)
    ensures NextFrame(b).BadVersion? <==> |b| >= 8 && b[0] != 0
    ensures NextFrame(b).Incomplete? <==> |b| < 8 || (b[0] == 0 && |b| - 8 < b[2] as int * 256 + b[3] as int)
    ensures NextFrame(b).BadCommand? <==>
              |b| >= 8 && b[0] == 0 && |b| - 8 >= b[2] as int * 256 + b[3] as int && b[1] != 0 && b[1] != 1
  {
    if |b| >= 8 {
      ReadBigEndian(b[2..4]);
      assert b[2..4][0] == b[2] && b[2..4][1] == b[3];
    }
  }

  /** A frame cut short yields nothing. */
  lemma CutFrame(f: Frame, k: nat)
    requires Legal(f) && k < |Encode(f)|
    ensures NextFrame(Encode(f)[..k]) == Incomplete
  {
    HeaderRoundTrip(f, []);
    assert Encode(f) + [] == Encode(f);
    if k >= 8 {
      assert Encode(f)[..k][2..4] == Encode(f)[2..4];
    }
  }

  lemma FramesStep(f: Frame, rest: bytes)
    requires Legal(f)
    ensures Frames(Encode(f) + rest) == [f] + Frames(rest) && Tail(Encode(f) + rest) == Tail(rest)
  {
    FrameRoundTrip(f, rest);
  }

  /** The concatenation of any legal frames decodes to exactly these frames, and nothing is left. */
  lemma {:induction false} FramesRoundTrip(fs: seq<Frame>)
    requires forall i :: 0 <= i < |fs| ==> Legal(fs[i])
    ensures Frames(EncodeAll(fs)) == fs && Tail(EncodeAll(fs)) == []
  {
    if fs == [] {
    } else {
      FramesRoundTrip(fs[1..]);
      FramesStep(fs[0], EncodeAll(fs[1..]));
      assert fs == [fs[0]] + fs[1..];
    }
  }

  lemma Unframed(b: bytes)
    requires |b| >= 8
    ensures b == [b[0], b[1]] + b[2..4] + b[4..8] + b[8..]
  {
    assert b[..4] + b[4..] == b && b[4..8] + b[8..] == b[4..];
  }

  /** Whatever bytes come, a frame read from them is encoded by the bytes taken. */
  lemma GotIsEncoded(b: bytes)
    requires NextFrame(b).Got?
    ensures Legal(NextFrame(b).frame) && b == Encode(NextFrame(b).frame) + NextFrame(b).rest
  {
    var f, rest := NextFrame(b).frame, NextFrame(b).rest;
    assert b[8..] == f.data + rest;
    Unframed(b);
    BE16OfBytes(b[2..4]);
    BE32OfBytes(b[4..8]);
    Regrouped([b[0], b[1]] + b[2..4] + b[4..8], f.data, rest);
  }

  lemma Regrouped(header: bytes, data: bytes, rest: bytes)
    ensures (header + data) + rest == header + (data + rest)
  {
  }

  /** Whatever bytes come, the frames and what follows the last of them account for every byte. */
  lemma {:induction false} DecodedIsEncoded(b: bytes)
    ensures b == EncodeAll(Frames(b)) + Tail(b) && forall f :: f in Frames(b) ==> Legal(f)
    decreases |b|
  {
    var n := NextFrame(b);
    if n.Got? {
      GotIsEncoded(b);
      DecodedIsEncoded(n.rest);
      Associative(Encode(n.frame), EncodeAll(Frames(n.rest)), Tail(n.rest));
    }
  }

  /** Any first part of the bytes decodes to a first part of the frames. */
  lemma {:induction false} FramesOfPrefix(fs: seq<Frame>, k: nat)
    requires (forall i :: 0 <= i < |fs| ==> Legal(fs[i])) && k <= |EncodeAll(fs)|
    ensures Frames(EncodeAll(fs)[..k]) <= fs
  {
    if fs != [] {
      var first, rest := Encode(fs[0]), EncodeAll(fs[1..]);
      PrefixOfTwo(first, rest, k);
      if k < |first| {
        CutFrame(fs[0], k);
      } else {
        FramesStep(fs[0], rest[..k - |first|]);
        FramesOfPrefix(fs[1..], k - |first|);
        OneMoreFrame(fs, Frames(rest[..k - |first|]));
      }
    }
  }

  lemma PrefixOfTwo(a: bytes, b: bytes, k: nat)
    requires k <= |a| + |b|
    ensures (a + b)[..k] == if k < |a| then a[..k] else a + b[..k - |a|]
  {
  }

  lemma OneMoreFrame(fs: seq<Frame>, some: seq<Frame>)
    requires fs != [] && some <= fs[1..]
    ensures [fs[0]] + some <= fs
  {
  }

  // ---------- as the program reads ----------

  /** The connection as a reader: the bytes that will arrive, then the end. */
  class Pipe {
    var left: bytes

    constructor (b: bytes)
      ensures left == b
    {
      left := b;
    }

    /** io.ReadFull */
    method ReadFull(n: nat) returns (b: bytes, ok: bool)
      modifies this
      ensures ok <==> |old(left)| >= n
      ensures ok ==> b == old(left)[..n] && left == old(left)[n..]
      ensures !ok ==> left == []
    {
      if |left| < n {
        left := [];
        return [], false;
      }
      b, left, ok := left[..n], left[n..], true;
    }

    /** nextFrame, up to what it does with the frame. */
    method ReadFrame() returns (r: Next)
      modifies this
      ensures r == NextFrame(old(left)) && left == AfterRead(old(left))
    {
      var header, ok := ReadFull(8);
      if !ok {
        return Incomplete;
      }
      if header[0] != 0 {
        return BadVersion;
      }
      var length, seqno, cmd := FromBE16(header[2..4]), FromBE32(header[4..8]), header[1];
      var data;
      data, ok := ReadFull(length);
      if !ok {
        return Incomplete;
      }
      if cmd != CMD_DATA && cmd != CMD_FIN {
        return BadCommand;
      }
      return Got(Frame(cmd, seqno, data), left);
    }

    /** run: frames in order until one fails; of what follows them no more than that one is read. */
    method Run() returns (fs: seq<Frame>)
      modifies this
      ensures fs == Frames(old(left)) && left == AfterRead(Tail(old(left)))
    {
      fs := [];
      while true
        invariant fs + Frames(left) == Frames(old(left)) && Tail(left) == Tail(old(left))
        decreases |left|
      {
        var n := ReadFrame();
        if !n.Got? {
          return;
        }
        fs := fs + [n.frame];
      }
    }
  }
}
