/** Reading frames from a WebSocket connection: wsMessageReader of internal/comet/server.go joins binary
    messages into one byte stream, StreamReader of pkg/protocol/frame.go cuts it into frames again. */
module FrameStream {
  import opened Common
  import opened Frames

  /** A message as NextReader hands it out; one that is not whole breaks off with an error. */
  datatype WsMsg = WsMsg(binary: bool, data: seq<byte>, whole: bool)

  /** The bytes a connection delivers and the error that ends them: that of the first message that is
      not binary or not whole, or that of the connection. */
  function Content(msgs: seq<WsMsg>, end: Error): (seq<byte>, Error) {
    if msgs == [] then ([], end)
    else if !msgs[0].binary then ([], NonBinary)
    else if !msgs[0].whole then (msgs[0].data, Failed)
    else var rest := Content(msgs[1..], end); (msgs[0].data + rest.0, rest.1)
  }

  function StreamOf(cur: Option<WsMsg>, rest: seq<WsMsg>, end: Error): (seq<byte>, Error) {
    match cur
    case None => Content(rest, end)
    case Some(m) => if !m.whole then (m.data, Failed) else (m.data + Content(rest, end).0, Content(rest, end).1)
  }

  lemma NextMessage(rest: seq<WsMsg>, end: Error)
    requires rest != [] && rest[0].binary
    ensures StreamOf(Some(rest[0]), rest[1..], end) == Content(rest, end)
  {
  }

  lemma ReadSome(m: WsMsg, rest: seq<WsMsg>, end: Error, n: nat)
    requires n <= |m.data|
    ensures var before, after := StreamOf(Some(m), rest, end), StreamOf(Some(m.(data := m.data[n..])), rest, end);
            && n <= |before.0| && before.0[..n] == m.data[..n] && after.0 == before.0[n..] && after.1 == before.1
  {
    hide Content;
    assert m.data == m.data[..n] + m.data[n..];
  }

  /** How much of what is asked for and there is to read arrives at once. */
  datatype Conn = Conn(end: Error, short: nat -> nat)

  class WsReader {
    const conn: Conn
    var rest: seq<WsMsg>
    var cur: Option<WsMsg>
    var tick: nat

    constructor (conn: Conn, msgs: seq<WsMsg>)
      ensures this.conn == conn && rest == msgs && cur == None && Stream() == Content(msgs, conn.end)
    {
      this.conn, rest, cur, tick := conn, msgs, None, 0;
    }

    ghost function Stream(): (seq<byte>, Error)
      reads this
    {
      StreamOf(cur, rest, conn.end)
    }

    /** Read into p[off..]: at least one byte, and the next ones of the stream, or the error at its end. */
    method Read(p: array<byte>, off: nat) returns (r: Result<nat>)
      requires off < p.Length
      modifies this, p
      ensures r.Ok? ==>
                && 1 <= r.value <= p.Length - off && r.value <= |old(Stream()).0|
                && p[..] == old(p[..off]) + old(Stream()).0[..r.value] + old(p[off + r.value..])
                && Stream() == (old(Stream()).0[r.value..], old(Stream()).1)
      ensures r.Err? ==> old(Stream()) == ([], r.error) && p[..] == old(p[..])
    {
      hide Content;
      while true
        invariant Stream() == old(Stream()) && p[..] == old(p[..])
        decreases |rest|, cur.Some?
      {
        if cur.Some? {
          var m := cur.value;
          if m.data != [] {
            var most := if p.Length - off < |m.data| then p.Length - off else |m.data|;
            var n := 1 + conn.short(tick) % most;
            Copy(p, off, m.data[..n]);
            ReadSome(m, rest, conn.end, n);
            assert p[..] == old(p[..])[..off] + m.data[..n] + old(p[..])[off + n..];
            cur, tick := Some(m.(data := m.data[n..])), tick + 1;
            return Ok(n);
          }
          if !m.whole {
            return Err(Failed);
          }
          assert m.data + Content(rest, conn.end).0 == Content(rest, conn.end).0;
          cur := None;
        }
        if rest == [] {
          AtEnd(conn.end);
          return Err(conn.end);
        }
        var m := rest[0];
        if !m.binary {
          NotBinary(rest, conn.end);
          rest := rest[1..];
          return Err(NonBinary);
        }
        NextMessage(rest, conn.end);
        cur, rest := Some(m), rest[1..];
      }
    }
  }

  lemma AtEnd(end: Error)
    ensures Content([], end) == ([], end)
  {
  }

  lemma NotBinary(msgs: seq<WsMsg>, end: Error)
    requires msgs != [] && !msgs[0].binary
    ensures Content(msgs, end) == ([], NonBinary)
  {
  }

  /** io.ReadFull: all of p, or the error of the stream, where an EOF after some bytes is unexpected. */
  method ReadFull(ws: WsReader, p: array<byte>) returns (err: Option<Error>)
    requires p.Length > 0
    modifies ws, p
    ensures var (bytes, end) := old(ws.Stream());
            if |bytes| >= p.Length then
              err == None && p[..] == bytes[..p.Length] && ws.Stream() == (bytes[p.Length..], end)
            else err == Some(if bytes != [] && end == Eof then UnexpectedEof else end)
  {
    hide *;
    ghost var bytes, end := ws.Stream().0, ws.Stream().1;
    var n := 0;
    while n < p.Length
      invariant n <= p.Length && n <= |bytes|
      invariant p[..n] == bytes[..n] && ws.Stream() == (bytes[n..], end)
    {
      ghost var before := p[..];
      var r := ws.Read(p, n);
      if r.Err? {
        assert bytes[n..] == [];
        return Some(if n > 0 && r.error == Eof then UnexpectedEof else r.error);
      }
      assert p[..n + r.value] == bytes[..n] + bytes[n..][..r.value];
      assert bytes[..n] + bytes[n..][..r.value] == bytes[..n + r.value];
      assert bytes[n..][r.value..] == bytes[n + r.value..];
      n := n + r.value;
    }
    assert p[..n] == p[..];
    err := None;
  }

  class StreamReader {
    const ws: WsReader
    const header: array<byte>

    constructor (ws: WsReader)
      ensures this.ws == ws && header.Length == HEADER_LEN && fresh(header)
    {
      this.ws := ws;
      header := new byte[HEADER_LEN](_ => 0);
    }

    method ReadFrame() returns (r: Result<Frame>)
      requires header.Length == HEADER_LEN
      modifies ws, header
      ensures var (bytes, end) := old(ws.Stream());
              match Next(bytes, end)
              case Err(e) => r == Err(e)
              case Ok((f, rest)) => r == Ok(f) && ws.Stream() == (rest, end)
    {
      hide Uint32;
      hide FrameFromHeader;
      ghost var bytes, end := ws.Stream().0, ws.Stream().1;
      var err := ReadFull(ws, header);
      if err.Some? {
        return Err(err.value);
      }
      assert header[..] == bytes[..HEADER_LEN] && header[7..11] == bytes[7..11];
      var bodyLen := Uint32(header[7..11]);
      if bodyLen > MAX_BODY_LEN {
        return Err(BodyTooLarge);
      }
      var body := new byte[bodyLen](_ => 0);
      if bodyLen > 0 {
        err := ReadFull(ws, body);
        if err.Some? {
          return Err(if err.value == Eof then UnexpectedEof else err.value);
        }
      }
      assert body[..] == bytes[HEADER_LEN..][..bodyLen] && bytes[HEADER_LEN..][..bodyLen] == bytes[HEADER_LEN..HEADER_LEN + bodyLen];
      assert bytes[HEADER_LEN..][bodyLen..] == bytes[HEADER_LEN + bodyLen..];
      r := Ok(FrameFromHeader(header[..], body[..]));
    }

    /** The read loop of a connection, up to the error that closes it. */
    method ReadLoop() returns (frames: seq<Frame>, err: Error)
      requires header.Length == HEADER_LEN
      modifies ws, header
      ensures (frames, err) == All(old(ws.Stream()).0, old(ws.Stream()).1)
    {
      hide Next;
      ghost var all, end := All(ws.Stream().0, ws.Stream().1), ws.Stream().1;
      frames := [];
      assert [] + all.0 == all.0;
      while true
        invariant ws.Stream().1 == end
        invariant var left := All(ws.Stream().0, end); all == (frames + left.0, left.1)
        decreases |ws.Stream().0|
      {
        ghost var bytes := ws.Stream().0;
        var r := ReadFrame();
        NextShorter(bytes, end);
        if r.Err? {
          assert frames + [] == frames;
          return frames, r.error;
        }
        assert frames + ([r.value] + All(ws.Stream().0, end).0) == frames + [r.value] + All(ws.Stream().0, end).0;
        frames := frames + [r.value];
      }
    }
  }

  lemma NextShorter(bytes: seq<byte>, end: Error)
    ensures Next(bytes, end).Ok? ==> |Next(bytes, end).value.1| < |bytes|
  {
  }

  // ---------------------------------------------------------------- any chunking

  function Joined(msgs: seq<WsMsg>): seq<byte> {
    if msgs == [] then [] else msgs[0].data + Joined(msgs[1..])
  }

  lemma {:induction false} WholeContent(msgs: seq<WsMsg>, end: Error)
    requires forall m :: m in msgs ==> m.binary && m.whole
    ensures Content(msgs, end) == (Joined(msgs), end)
  {
    if msgs != [] {
      WholeContent(msgs[1..], end);
    }
  }

  /** A message that is not binary ends the bytes before it, one that breaks off ends them with its data. */
  lemma {:induction false} CutContent(msgs: seq<WsMsg>, bad: WsMsg, rest: seq<WsMsg>, end: Error)
    requires (forall m :: m in msgs ==> m.binary && m.whole) && !(bad.binary && bad.whole)
    ensures Content(msgs + [bad] + rest, end) ==
            if bad.binary then (Joined(msgs) + bad.data, Failed) else (Joined(msgs), NonBinary)
  {
    if msgs == [] {
      assert ([] + [bad] + rest)[0] == bad;
      assert Joined([]) + bad.data == bad.data;
    } else {
      CutContent(msgs[1..], bad, rest, end);
      assert (msgs + [bad] + rest)[1..] == msgs[1..] + [bad] + rest;
      assert msgs[0].data + (Joined(msgs[1..]) + bad.data) == Joined(msgs) + bad.data;
    }
  }

  /** However the encodings of some frames are split into binary messages, empty ones included, and
      however short the reads are, the read loop returns exactly those frames and then the end. */
  method ReceiveAll(conn: Conn, msgs: seq<WsMsg>, ghost fs: seq<Frame>) returns (frames: seq<Frame>, err: Error)
    requires forall m :: m in msgs ==> m.binary && m.whole
    requires Fits(fs) && Joined(msgs) == WireAll(fs)
    ensures frames == fs && err == conn.end
  {
    hide *;
    var ws := new WsReader(conn, msgs);
    var sr := new StreamReader(ws);
    WholeContent(msgs, conn.end);
    StreamRoundTrip(fs, conn.end);
    frames, err := sr.ReadLoop();
  }

  /** If a message that is not binary follows, the loop returns the frames before it and ends there. */
  method ReceiveUntilText(conn: Conn, msgs: seq<WsMsg>, bad: WsMsg, rest: seq<WsMsg>, ghost fs: seq<Frame>)
    returns (frames: seq<Frame>, err: Error)
    requires (forall m :: m in msgs ==> m.binary && m.whole) && !bad.binary
    requires Fits(fs) && Joined(msgs) == WireAll(fs)
    ensures frames == fs && err == NonBinary
  {
    hide *;
    var ws := new WsReader(conn, msgs + [bad] + rest);
    var sr := new StreamReader(ws);
    CutContent(msgs, bad, rest, conn.end);
    StreamRoundTrip(fs, NonBinary);
    frames, err := sr.ReadLoop();
  }
}
