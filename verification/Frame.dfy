/** The frame codec of pkg/protocol/frame.go: 11 bytes of header (version, command, sequence number and
    body length, big-endian), then the body. */
module Frames {
  import opened Common

  const HEADER_LEN := 11
  const MAX_BODY_LEN := 64 * 1024
  const WRAP := 0x1_0000_0000 // a length is converted to uint32

  type uint16 = x: int | 0 <= x < 0x1_0000
  type uint32 = x: int | 0 <= x < 0x1_0000_0000

  datatype Frame = Frame(ver: byte, cmd: uint16, seqNo: uint32, body: seq<byte>)

  datatype Error = MalformedFrame | BodyTooLarge | Eof | UnexpectedEof | NonBinary | Failed

  datatype Result<+T> = Ok(value: T) | Err(error: Error)

  // ---------------------------------------------------------------- the layout

  function Be16(x: uint16): (b: seq<byte>)
    ensures |b| == 2
  {
    [x / 256, x % 256]
  }

  function Be32(x: uint32): (b: seq<byte>)
    ensures |b| == 4
  {
    [x / 256 / 256 / 256, x / 256 / 256 % 256, x / 256 % 256, x % 256]
  }

  function Uint16(b: seq<byte>): uint16
    requires |b| == 2
  {
    b[0] as int * 256 + b[1]
  }

  function Uint32(b: seq<byte>): uint32
    requires |b| == 4
  {
    ((b[0] as int * 256 + b[1]) * 256 + b[2]) * 256 + b[3]
  }

  lemma Be16RoundTrip(x: uint16)
    ensures Uint16(Be16(x)) == x
  {
  }

  lemma Be32RoundTrip(x: uint32)
    ensures Uint32(Be32(x)) == x
  {
  }

  lemma Uint16RoundTrip(b: seq<byte>)
    requires |b| == 2
    ensures Be16(Uint16(b)) == b
  {
  }

  lemma Uint32RoundTrip(b: seq<byte>)
    requires |b| == 4
    ensures Be32(Uint32(b)) == b
  {
    var x: int := Uint32(b);
    assert x / 256 == (b[0] as int * 256 + b[1]) * 256 + b[2];
    assert x / 256 / 256 == b[0] as int * 256 + b[1];
  }

  function Header(f: Frame): (h: seq<byte>)
    ensures |h| == HEADER_LEN
  {
    [f.ver] + Be16(f.cmd) + Be32(f.seqNo) + Be32(|f.body| % WRAP)
  }

  /** A frame on the wire. */
  function Wire(f: Frame): seq<byte> { Header(f) + f.body }

  function FrameFromHeader(h: seq<byte>, body: seq<byte>): Frame
    requires |h| >= HEADER_LEN
  {
    Frame(h[0], Uint16(h[1..3]), Uint32(h[3..7]), body)
  }

  lemma HeaderFields(f: Frame, more: seq<byte>)
    ensures var h := Header(f) + more;
            h[0] == f.ver && h[1..3] == Be16(f.cmd) && h[3..7] == Be32(f.seqNo) && h[7..11] == Be32(|f.body| % WRAP)
  {
    hide Be16;
    hide Be32;
  }

  /** A header and the frame it announces determine each other. */
  lemma HeaderRoundTrip(f: Frame, more: seq<byte>)
    requires |f.body| <= MAX_BODY_LEN
    ensures FrameFromHeader(Header(f) + more, f.body) == f
    ensures Uint32((Header(f) + more)[7..11]) == |f.body|
  {
    hide Header;
    hide Be16;
    hide Be32;
    hide Uint16;
    hide Uint32;
    HeaderFields(f, more);
    Be16RoundTrip(f.cmd);
    Be32RoundTrip(f.seqNo);
    Be32RoundTrip(|f.body| % WRAP);
  }

  lemma HeaderIsHeader(h: seq<byte>, body: seq<byte>)
    requires |h| >= HEADER_LEN && Uint32(h[7..11]) == |body|
    ensures Header(FrameFromHeader(h, body)) == h[..HEADER_LEN]
  {
    hide Be16;
    hide Be32;
    hide Uint16;
    hide Uint32;
    Uint16RoundTrip(h[1..3]);
    Uint32RoundTrip(h[3..7]);
    Uint32RoundTrip(h[7..11]);
    assert h[..HEADER_LEN] == [h[0]] + h[1..3] + h[3..7] + h[7..11];
  }

  /** The layout byte by byte: version, command in 1 and 2, sequence number in 3 to 6, body length in 7 to
      10, each with the high byte first, and the body from 11 on. */
  ghost predicate LaidOut(w: seq<byte>, f: Frame) {
    && |w| == 11 + |f.body| && w[0] == f.ver && w[1] as int * 256 + w[2] == f.cmd
    && w[3] as int * 0x100_0000 + w[4] as int * 0x1_0000 + w[5] as int * 0x100 + w[6] == f.seqNo
    && BodyLen(w) == |f.body| && w[11..] == f.body
  }

  /** The length a header announces. */
  ghost function BodyLen(w: seq<byte>): int
    requires |w| >= 11
  {
    w[7] as int * 0x100_0000 + w[8] as int * 0x1_0000 + w[9] as int * 0x100 + w[10]
  }

  lemma Uint32Bytes(b: seq<byte>)
    requires |b| == 4
    ensures Uint32(b) == b[0] as int * 0x100_0000 + b[1] as int * 0x1_0000 + b[2] as int * 0x100 + b[3]
  {
  }

  lemma Announced(w: seq<byte>)
    requires |w| >= 11
    ensures Uint32(w[7..11]) == BodyLen(w)
  {
    Uint32Bytes(w[7..11]);
    hide Uint32;
  }

  lemma WireLayout(f: Frame)
    requires |f.body| <= MAX_BODY_LEN
    ensures LaidOut(Wire(f), f)
  {
    hide Header;
    hide Be16;
    hide Be32;
    var w := Wire(f);
    HeaderFields(f, f.body);
    Be16RoundTrip(f.cmd);
    Be32RoundTrip(f.seqNo);
    Be32RoundTrip(|f.body| % WRAP);
    assert w[1..3][0] == w[1] && w[1..3][1] == w[2];
    assert w[3..7] == [w[3], w[4], w[5], w[6]];
    Uint32Bytes(w[3..7]);
    hide Uint32;
    Announced(w);
  }

  // ---------------------------------------------------------------- Encode and Decode

  method PutUint16(buf: array<byte>, at: nat, x: uint16)
    requires at + 2 <= buf.Length
    modifies buf
    ensures buf[..] == old(buf[..at]) + Be16(x) + old(buf[at + 2..])
  {
    buf[at], buf[at + 1] := x / 256, x % 256;
  }

  method PutUint32(buf: array<byte>, at: nat, x: uint32)
    requires at + 4 <= buf.Length
    modifies buf
    ensures buf[..] == old(buf[..at]) + Be32(x) + old(buf[at + 4..])
  {
    buf[at], buf[at + 1] := x / 256 / 256 / 256, x / 256 / 256 % 256;
    buf[at + 2], buf[at + 3] := x / 256 % 256, x % 256;
  }

  method PutHeader(buf: array<byte>, f: Frame)
    requires buf.Length >= HEADER_LEN
    modifies buf
    ensures buf[..] == Header(f) + old(buf[HEADER_LEN..])
  {
    ghost var tail := buf[HEADER_LEN..];
    hide Be16;
    hide Be32;
    buf[0] := f.ver;
    assert buf[..1] == [f.ver];
    PutUint16(buf, 1, f.cmd);
    assert buf[..3] == [f.ver] + Be16(f.cmd);
    PutUint32(buf, 3, f.seqNo);
    assert buf[..7] == [f.ver] + Be16(f.cmd) + Be32(f.seqNo) && buf[HEADER_LEN..] == tail;
    PutUint32(buf, 7, |f.body| % WRAP);
  }

  /** copy(buf[at:], src) for a src that fits. */
  method Copy(buf: array<byte>, at: nat, src: seq<byte>)
    requires at + |src| <= buf.Length
    modifies buf
    ensures buf[..] == old(buf[..at]) + src + old(buf[at + |src|..])
  {
    for i := 0 to |src|
      invariant buf[..at] == old(buf[..at])
      invariant buf[at..at + i] == src[..i]
      invariant buf[at + i..] == old(buf[at + i..])
    {
      ghost var before, after := buf[..at + i], buf[at + i + 1..];
      buf[at + i] := src[i];
      assert buf[..at + i] == before && buf[at + i + 1..] == after;
      assert src[..i + 1] == src[..i] + [src[i]];
      assert buf[at..at + i + 1] == buf[at..at + i] + [src[i]];
      assert old(buf[at + i + 1..]) == old(buf[at + i..])[1..];
    }
    assert buf[..] == buf[..at] + buf[at..at + |src|] + buf[at + |src|..];
  }

  method Encode(f: Frame) returns (r: Result<seq<byte>>)
    ensures r == if |f.body| > MAX_BODY_LEN then Err(BodyTooLarge) else Ok(Wire(f))
    ensures if |f.body| > 65536 then r == Err(BodyTooLarge) else r.Ok? && LaidOut(r.value, f)
  {
    if |f.body| > MAX_BODY_LEN {
      return Err(BodyTooLarge);
    }
    var buf := new byte[HEADER_LEN + |f.body|](_ => 0);
    WireLayout(f);
    hide LaidOut;
    hide Header;
    PutHeader(buf, f);
    assert buf[..HEADER_LEN] == Header(f);
    Copy(buf, HEADER_LEN, f.body);
    assert buf[..] == Header(f) + f.body;
    r := Ok(buf[..]);
  }

  /** What Decode returns; the length of the rest is compared after truncation to 32 bits. */
  function Parse(data: seq<byte>): Result<Frame> {
    if |data| < HEADER_LEN then Err(MalformedFrame)
    else
      var bodyLen := Uint32(data[7..11]);
      if bodyLen > MAX_BODY_LEN then Err(BodyTooLarge)
      else if (|data| - HEADER_LEN) % WRAP != bodyLen then Err(MalformedFrame)
      else Ok(FrameFromHeader(data, data[HEADER_LEN..HEADER_LEN + bodyLen]))
  }

  method Decode(data: array<byte>) returns (r: Result<Frame>)
    ensures r == Parse(data[..])
    ensures r == Err(BodyTooLarge) <==> data.Length >= 11 && BodyLen(data[..]) > 65536
    ensures r.Err? && r.error != BodyTooLarge ==> r.error == MalformedFrame
  {
    if data.Length < HEADER_LEN {
      return Err(MalformedFrame);
    }
    Announced(data[..]);
    hide BodyLen;
    hide Uint32;
    hide FrameFromHeader;
    assert data[..][7..11] == data[7..11];
    var bodyLen := Uint32(data[7..11]);
    if bodyLen > MAX_BODY_LEN {
      return Err(BodyTooLarge);
    }
    if (data.Length - HEADER_LEN) % WRAP != bodyLen {
      return Err(MalformedFrame);
    }
    var body := new byte[bodyLen](_ => 0);
    Copy(body, 0, data[HEADER_LEN..HEADER_LEN + bodyLen]);
    assert body[..] == data[..][HEADER_LEN..HEADER_LEN + bodyLen];
    r := Ok(FrameFromHeader(data[..], body[..]));
  }

  /** Truncation forgets exactly the multiples of 2^32. */
  lemma Truncated(n: nat, k: nat)
    requires k < WRAP && k <= n
    ensures n % WRAP == k <==> (n - k) % WRAP == 0
  {
    var q := n / WRAP;
    assert n == q * WRAP + n % WRAP;
    if n % WRAP == k {
      assert n - k == q * WRAP;
    }
    if (n - k) % WRAP == 0 {
      var c := (n - k) / WRAP;
      assert n == c * WRAP + k;
    }
  }

  lemma EncodingAccepted(data: seq<byte>, f: Frame)
    requires |f.body| <= MAX_BODY_LEN && Wire(f) <= data && (|data| - |Wire(f)|) % WRAP == 0
    ensures Parse(data) == Ok(f)
  {
    hide Header;
    hide FrameFromHeader;
    hide Uint32;
    var more := data[HEADER_LEN..];
    assert data == Header(f) + more;
    HeaderRoundTrip(f, more);
    assert data[HEADER_LEN..HEADER_LEN + |f.body|] == f.body;
    Truncated(|data| - HEADER_LEN, |f.body|);
  }

  /** Decode accepts exactly the encodings, followed by nothing or by a multiple of 2^32 bytes. */
  lemma DecodeExactly(data: seq<byte>, f: Frame)
    ensures Parse(data) == Ok(f) <==>
            |f.body| <= MAX_BODY_LEN && Wire(f) <= data && (|data| - |Wire(f)|) % WRAP == 0
  {
    hide Header;
    hide FrameFromHeader;
    hide Uint32;
    if |f.body| <= MAX_BODY_LEN && Wire(f) <= data && (|data| - |Wire(f)|) % WRAP == 0 {
      EncodingAccepted(data, f);
    }
    if Parse(data) == Ok(f) {
      var bodyLen := Uint32(data[7..11]);
      var body := data[HEADER_LEN..HEADER_LEN + bodyLen];
      BodyOf(data, body);
      HeaderIsHeader(data, body);
      assert Wire(f) == data[..HEADER_LEN] + body;
      assert Wire(f) == data[..HEADER_LEN + bodyLen];
      Truncated(|data| - HEADER_LEN, bodyLen);
    }
  }

  lemma BodyOf(h: seq<byte>, body: seq<byte>)
    requires |h| >= HEADER_LEN
    ensures FrameFromHeader(h, body).body == body
  {
  }

  /** Round trip, and for inputs below 2^32 bytes nothing but an encoding is accepted. */
  lemma DecodeEncodings(data: seq<byte>, f: Frame)
    requires |data| < WRAP
    ensures Parse(data) == Ok(f) <==> |f.body| <= MAX_BODY_LEN && data == Wire(f)
  {
    hide Parse;
    DecodeExactly(data, f);
    if Wire(f) <= data && (|data| - |Wire(f)|) % WRAP == 0 {
      assert data[..|Wire(f)|] == data;
    }
  }

  /** Where the bound comes from: a frame and 2^32 further bytes decode to the frame alone. */
  lemma LongInputAccepted(f: Frame, junk: seq<byte>)
    requires |f.body| <= MAX_BODY_LEN && |junk| == WRAP
    ensures Parse(Wire(f) + junk) == Ok(f) && Wire(f) + junk != Wire(f)
  {
    hide Parse;
    DecodeExactly(Wire(f) + junk, f);
  }

  // ---------------------------------------------------------------- frames in a stream

  /** The next frame of a byte stream that ends with this error, and the bytes behind it. A stream that
      ends with EOF inside a frame is an unexpected EOF. */
  function Next(bytes: seq<byte>, end: Error): Result<(Frame, seq<byte>)> {
    if |bytes| < HEADER_LEN then Err(if bytes != [] && end == Eof then UnexpectedEof else end)
    else
      var bodyLen := Uint32(bytes[7..11]);
      if bodyLen > MAX_BODY_LEN then Err(BodyTooLarge)
      else if |bytes| < HEADER_LEN + bodyLen then Err(if end == Eof then UnexpectedEof else end)
      else
        var body, rest := bytes[HEADER_LEN..HEADER_LEN + bodyLen], bytes[HEADER_LEN + bodyLen..];
        Ok((FrameFromHeader(bytes[..HEADER_LEN], body), rest))
  }

  /** Reading frames until the first error. */
  function All(bytes: seq<byte>, end: Error): (seq<Frame>, Error)
    decreases |bytes|
  {
    match Next(bytes, end)
    case Err(e) => ([], e)
    case Ok((f, rest)) => var (fs, e) := All(rest, end); ([f] + fs, e)
  }

  function WireAll(fs: seq<Frame>): seq<byte> {
    if fs == [] then [] else Wire(fs[0]) + WireAll(fs[1..])
  }

  ghost predicate Fits(fs: seq<Frame>) { forall f :: f in fs ==> |f.body| <= MAX_BODY_LEN }

  lemma NextOfWire(f: Frame, rest: seq<byte>, end: Error)
    requires |f.body| <= MAX_BODY_LEN
    ensures Next(Wire(f) + rest, end) == Ok((f, rest))
  {
    hide Header;
    hide FrameFromHeader;
    hide Uint32;
    var bytes := Wire(f) + rest;
    assert bytes == Header(f) + (f.body + rest);
    HeaderRoundTrip(f, f.body + rest);
    HeaderRoundTrip(f, []);
    assert bytes[..HEADER_LEN] == Header(f) + [];
    assert bytes[HEADER_LEN..HEADER_LEN + |f.body|] == f.body;
    assert bytes[HEADER_LEN + |f.body|..] == rest;
  }

  lemma NextIsWire(bytes: seq<byte>, end: Error)
    requires Next(bytes, end).Ok?
    ensures var (f, rest) := Next(bytes, end).value; bytes == Wire(f) + rest && |f.body| <= MAX_BODY_LEN
  {
    hide Header;
    hide FrameFromHeader;
    hide Uint32;
    var bodyLen := Uint32(bytes[7..11]);
    var h, body := bytes[..HEADER_LEN], bytes[HEADER_LEN..HEADER_LEN + bodyLen];
    assert h[7..11] == bytes[7..11] && h[..HEADER_LEN] == h;
    HeaderIsHeader(h, body);
    BodyOf(h, body);
  }

  lemma {:induction false} AllOfWire(fs: seq<Frame>, tail: seq<byte>, end: Error)
    requires Fits(fs)
    ensures All(WireAll(fs) + tail, end) == (fs + All(tail, end).0, All(tail, end).1)
  {
    hide Next;
    hide Wire;
    if fs == [] {
      assert WireAll(fs) + tail == tail && fs + All(tail, end).0 == All(tail, end).0;
    } else {
      assert fs[0] in fs && forall f :: f in fs[1..] ==> f in fs;
      AllOfWire(fs[1..], tail, end);
      assert WireAll(fs) + tail == Wire(fs[0]) + (WireAll(fs[1..]) + tail);
      AllStep(fs[0], WireAll(fs[1..]) + tail, end);
      assert [fs[0]] + (fs[1..] + All(tail, end).0) == fs + All(tail, end).0;
    }
  }

  lemma AllStep(f: Frame, rest: seq<byte>, end: Error)
    requires |f.body| <= MAX_BODY_LEN
    ensures All(Wire(f) + rest, end) == ([f] + All(rest, end).0, All(rest, end).1)
  {
    hide Next;
    hide Wire;
    NextOfWire(f, rest, end);
  }

  /** Reading back any list of frames gives that list, then the end of the stream. */
  lemma StreamRoundTrip(fs: seq<Frame>, end: Error)
    requires Fits(fs)
    ensures All(WireAll(fs), end) == (fs, end)
  {
    hide Next;
    AllOfWire(fs, [], end);
    assert WireAll(fs) + [] == WireAll(fs);
    assert Next([], end) == Err(end) by { NothingLeft(end); }
    assert fs + [] == fs;
  }

  lemma NothingLeft(end: Error)
    ensures Next([], end) == Err(end)
  {
  }

  /** A clean EOF is reported only at a frame boundary. */
  lemma {:induction false} CleanEofAtBoundary(bytes: seq<byte>)
    requires All(bytes, Eof).1 == Eof
    ensures bytes == WireAll(All(bytes, Eof).0) && Fits(All(bytes, Eof).0)
    decreases |bytes|
  {
    hide Wire;
    match Next(bytes, Eof)
    case Err(e) =>
    case Ok((f, rest)) =>
      NextIsWire(bytes, Eof);
      hide Next;
      CleanEofAtBoundary(rest);
      var fs := All(rest, Eof).0;
      assert ([f] + fs)[0] == f && ([f] + fs)[1..] == fs;
  }

  /** A stream cut inside a frame gives the frames before the cut and the error that cut it, where an EOF is
      unexpected. */
  lemma CutStream(fs: seq<Frame>, f: Frame, n: nat, end: Error)
    requires Fits(fs) && |f.body| <= MAX_BODY_LEN && 0 < n < |Wire(f)|
    ensures All(WireAll(fs) + Wire(f)[..n], end) == (fs, if end == Eof then UnexpectedEof else end)
  {
    var cut := Wire(f)[..n];
    assert Next(cut, end) == Err(if end == Eof then UnexpectedEof else end) by {
      if n >= HEADER_LEN {
        assert cut == Header(f) + f.body[..n - HEADER_LEN];
        HeaderRoundTrip(f, f.body[..n - HEADER_LEN]);
      }
    }
    hide Next;
    hide Wire;
    AllOfWire(fs, cut, end);
    assert fs + [] == fs;
  }

  /** A header that announces more than 64 KB ends the reading there, whatever follows it. */
  lemma TooLargeStream(fs: seq<Frame>, tail: seq<byte>, end: Error)
    requires Fits(fs) && |tail| >= 11 && BodyLen(tail) > 65536
    ensures All(WireAll(fs) + tail, end) == (fs, BodyTooLarge)
  {
    Announced(tail);
    hide BodyLen;
    hide Uint32;
    assert Next(tail, end) == Err(BodyTooLarge);
    hide Next;
    hide Wire;
    AllOfWire(fs, tail, end);
    assert fs + [] == fs;
  }
}
