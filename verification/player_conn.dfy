/**
 * The per-connection receive logic of the server's `PlayerInfo`
 * (sp/server/src/PlayerInfo.hpp): one received chunk of bytes is cut into
 * frames by the connection's `MainParser`; complete frames are queued for
 * the main thread, `PING` only refreshes the liveness flag, and a parse
 * error marks the connection disconnected.
 */
module PlayerConn {
  import opened Wrappers
  import opened FrameGrammar
  import opened ServerSerde
  import ClientParser
  import FrameWriter

  /** `Net::MsgStruct`. */
  datatype MsgStruct = MsgStruct(code: string, payload: Option<string>)

  /** The receive-side fields of `PlayerInfo`; `queue` is what went into the message buffer. */
  datatype Conn = Conn(
    parser: MainParser,
    queue: seq<MsgStruct>,
    pingReceived: bool,
    disconnected: bool,
    invalidMsgCount: int,
    roomSendIndex: int)

  /** A freshly accepted connection (the parser's type field is whatever memory held). */
  function NewConn(t: MsgType): (c: Conn)
    ensures c.queue == [] && c.pingReceived && !c.disconnected && c.parser.phase == Magic1
  {
    Conn(Fresh(t), [], true, false, 0, 0)
  }

  /** `reset`. */
  function Reset(c: Conn): (r: Conn)
    ensures r.invalidMsgCount == 0 && r.roomSendIndex == 0
    ensures r.parser == ServerSerde.ResetParser(c.parser)
    ensures r.queue == c.queue && r.pingReceived == c.pingReceived && r.disconnected == c.disconnected
  {
    c.(invalidMsgCount := 0, roomSendIndex := 0, parser := ServerSerde.ResetParser(c.parser))
  }

  /** `is_connected`. */
  predicate IsConnected(c: Conn) {
    !c.disconnected
  }

  /** `disconnect`. */
  function Disconnect(c: Conn): (r: Conn)
    ensures !IsConnected(r)
    ensures r.queue == c.queue && r.parser == c.parser
  {
    c.(disconnected := true)
  }

  /** What a completed frame does to the connection: `PING` is swallowed, anything else queued. */
  function Deliver(c: Conn, res: ParseResults): (r: Conn)
    requires res.parserDone
    ensures r.invalidMsgCount == 0
    ensures res.code == "PING" ==> r.pingReceived && r.queue == c.queue
    ensures res.code != "PING" ==>
      r.pingReceived == c.pingReceived && r.queue == c.queue + [MsgStruct(res.code, res.payload)]
  {
    var c1 := c.(invalidMsgCount := 0);
    if res.code == "PING" then c1.(pingReceived := true)
    else c1.(queue := c1.queue + [MsgStruct(res.code, res.payload)])
  }

  /**
   * The inner loop of `accept_messages` over the unconsumed suffix `rest`
   * of a chunk: each `parse_bytes` call sees only the bytes not yet
   * consumed; a completed frame is delivered and the parser reset; an
   * error disconnects and abandons the rest.
   */
  function ParseChunk(c: Conn, rest: string): (r: Conn)
    ensures |r.queue| >= |c.queue| && r.queue[..|c.queue|] == c.queue
    ensures c.disconnected ==> r.disconnected
    decreases |rest|
  {
    if |rest| == 0 then c
    else
      var pr := ServerSerde.ParseBytes(c.parser, rest);
      var res := pr.results;
      var c1 := c.(parser := pr.parser);
      if res.error then c1.(disconnected := true)
      else if res.parserDone then
        var c2 := Deliver(c1, res);
        ParseChunk(c2.(parser := ServerSerde.ResetParser(c2.parser)), rest[res.bytesParsed..])
      else c1
  }

  /**
   * One `recv`: a zero-byte read means the peer closed and marks the
   * connection disconnected; otherwise the chunk is parsed. A connection
   * already disconnected has left its receive loop and takes nothing more.
   */
  function Receive(c: Conn, chunk: string): (r: Conn)
    ensures c.disconnected ==> r == c
    ensures |chunk| == 0 ==> r.disconnected && r.queue == c.queue
  {
    if c.disconnected then c
    else if |chunk| == 0 then c.(disconnected := true)
    else ParseChunk(c, chunk)
  }

  /**
   * Splitting the byte stream differently between `recv` calls changes
   * nothing: parsing `a + b` in one chunk is parsing `a`, then `b`.
   */
  lemma {:induction false} ParseChunkAppend(c: Conn, a: string, b: string)
    requires !c.disconnected
    ensures ParseChunk(c, a + b) ==
      var ca := ParseChunk(c, a);
      if ca.disconnected then ca else ParseChunk(ca, b)
    decreases |a|
  {
    if |b| == 0 {
      assert a + b == a;
    } else if |a| == 0 {
      assert a + b == b;
    } else {
      var pr := ServerSerde.ParseBytes(c.parser, a + b);
      var pa := ServerSerde.ParseBytes(c.parser, a);
      ScanAppend(c.parser, a, b);
      var res := pa.results;
      if res.error {
      } else if res.parserDone {
        var c1 := c.(parser := pa.parser);
        var c2 := Deliver(c1, res);
        var c3 := c2.(parser := ServerSerde.ResetParser(c2.parser));
        assert (a + b)[res.bytesParsed..] == a[res.bytesParsed..] + b;
        ParseChunkAppend(c3, a[res.bytesParsed..], b);
      } else {
        assert pa.results.bytesParsed == |a|;
        var c1 := c.(parser := pa.parser);
        ContinueAfterPartial(c, c1, a, b);
      }
    }
  }

  /** Scanning `a + b` is scanning `a`, then `b` if `a` decided nothing. */
  lemma {:induction false} ScanAppend(p: MainParser, a: string, b: string)
    ensures var sa := ScanBytes(p, a);
      ScanBytes(p, a + b) ==
        if sa.verdict != Ok then sa
        else
          var sb := ScanBytes(sa.parser, b);
          Scan(sb.parser, |a| + sb.consumed, sb.verdict)
    decreases |a|
  {
    if |a| == 0 {
      assert a + b == b;
    } else {
      assert (a + b)[0] == a[0] && (a + b)[1..] == a[1..] + b;
      var f := ServerSerde.ParseByte(p, a[0]);
      if f.verdict == Ok {
        ScanAppend(f.parser, a[1..], b);
      }
    }
  }

  /** A partial frame at the end of `a` is continued by the first call on `b`. */
  lemma ContinueAfterPartial(c: Conn, c1: Conn, a: string, b: string)
    requires |a| > 0 && |b| > 0
    requires ScanBytes(c.parser, a).verdict == Ok
    requires c1 == c.(parser := ScanBytes(c.parser, a).parser)
    ensures ParseChunk(c, a + b) == ParseChunk(c1, b)
    ensures ParseChunk(c, a) == c1
  {
    PartialChunkWaits(c, c1, a);
    ScanAppend(c.parser, a, b);
    var sb := ScanBytes(c1.parser, b);
    assert (a + b)[|a| + sb.consumed..] == b[sb.consumed..];
    SameScanSameChunk(c, a + b, c1, b);
  }

  /**
   * Two calls whose scans end in the same parser state with the same
   * verdict, and leave the same bytes unparsed, queue the same.
   */
  lemma SameScanSameChunk(c: Conn, x: string, c1: Conn, y: string)
    requires |x| > 0 && |y| > 0 && c1 == c.(parser := c1.parser)
    requires var sx, sy := ScanBytes(c.parser, x), ScanBytes(c1.parser, y);
      && sx.parser == sy.parser && sx.verdict == sy.verdict
      && x[sx.consumed..] == y[sy.consumed..]
    ensures ParseChunk(c, x) == ParseChunk(c1, y)
  {
    var px, py := ServerSerde.ParseBytes(c.parser, x), ServerSerde.ParseBytes(c1.parser, y);
    assert px.parser == py.parser;
    assert px.results.error == py.results.error && px.results.parserDone == py.results.parserDone;
    assert px.results.code == py.results.code && px.results.payload == py.results.payload;
  }

  /** A chunk that ends inside a frame only moves the parser on. */
  lemma PartialChunkWaits(c: Conn, c1: Conn, a: string)
    requires |a| > 0
    requires ScanBytes(c.parser, a).verdict == Ok
    requires c1 == c.(parser := ScanBytes(c.parser, a).parser)
    ensures ParseChunk(c, a) == c1
  {
  }

  /** The same at the level of `recv` calls. */
  lemma ReceiveSplit(c: Conn, a: string, b: string)
    requires |a| > 0 && |b| > 0
    ensures Receive(c, a + b) == Receive(Receive(c, a), b)
  {
    if !c.disconnected {
      ParseChunkAppend(c, a, b);
    }
  }

  /** How the server stores a message the client framed: no payload for an `'N'` frame. */
  function Received(msg: FrameWriter.NetMsg): (m: MsgStruct)
    ensures m.code == msg.code
    ensures m.payload.Some? <==> |msg.payload| > 0
    ensures m.payload.Some? ==> m.payload.value == msg.payload
  {
    MsgStruct(msg.code, if |msg.payload| > 0 then Some(msg.payload) else None)
  }

  /** A parser that `reset_parser` would not change, except perhaps for its type. */
  predicate AtFrameStart(p: MainParser) {
    p == ServerSerde.ResetParser(p)
  }

  /**
   * A frame produced by the client's serialiser, at the start of the unparsed
   * bytes, is delivered verbatim and parsing resumes right after it.
   */
  lemma FrameDelivered(c: Conn, msg: FrameWriter.NetMsg, rest: string)
    requires AtFrameStart(c.parser) && FrameWriter.Framable(msg)
    ensures ParseChunk(c, FrameWriter.ToString(msg) + rest) ==
      var c1 := c.(invalidMsgCount := 0, parser := c.parser.(msgType := FrameWriter.FrameType(msg)));
      if msg.code == "PING" then ParseChunk(c1.(pingReceived := true), rest)
      else ParseChunk(c1.(queue := c.queue + [Received(msg)]), rest)
  {
    var bytes := FrameWriter.ToString(msg) + rest;
    ResetMatchesClient(c.parser, bytes);
    FrameWriter.FrameRoundTrip(msg, rest);
    assert bytes[|FrameWriter.ToString(msg)|..] == rest;
  }

  /** Serialise a sequence of messages back to back. */
  function Stream(msgs: seq<FrameWriter.NetMsg>): (s: string)
    ensures |msgs| == 0 ==> s == []
    decreases |msgs|
  {
    if |msgs| == 0 then [] else FrameWriter.ToString(msgs[0]) + Stream(msgs[1..])
  }

  /** What the queue gains from a stream: every message except `PING`, in order. */
  function Queued(msgs: seq<FrameWriter.NetMsg>): (q: seq<MsgStruct>)
    ensures |q| <= |msgs|
    decreases |msgs|
  {
    if |msgs| == 0 then []
    else (if msgs[0].code == "PING" then [] else [Received(msgs[0])]) + Queued(msgs[1..])
  }

  /**
   * End to end: a chunk holding any number of client-serialised frames
   * queues exactly the non-`PING` messages, in arrival order, and leaves the
   * connection up and the parser ready for the next frame.
   */
  lemma {:induction false} StreamQueued(c: Conn, msgs: seq<FrameWriter.NetMsg>)
    requires AtFrameStart(c.parser) && !c.disconnected
    requires forall i | 0 <= i < |msgs| :: FrameWriter.Framable(msgs[i])
    ensures var r := ParseChunk(c, Stream(msgs));
      && r.queue == c.queue + Queued(msgs)
      && !r.disconnected
      && AtFrameStart(r.parser)
    decreases |msgs|
  {
    if |msgs| > 0 {
      var m := msgs[0];
      var tail := msgs[1..];
      assert Stream(msgs) == FrameWriter.ToString(m) + Stream(tail);
      assert FrameWriter.Framable(m);
      FrameDelivered(c, m, Stream(tail));
      var c1 := c.(invalidMsgCount := 0, parser := c.parser.(msgType := FrameWriter.FrameType(m)));
      var c2 := if m.code == "PING" then c1.(pingReceived := true) else c1.(queue := c.queue + [Received(m)]);
      assert ParseChunk(c, Stream(msgs)) == ParseChunk(c2, Stream(tail));
      assert forall i | 0 <= i < |tail| :: FrameWriter.Framable(tail[i]) by {
        forall i | 0 <= i < |tail| ensures FrameWriter.Framable(tail[i]) {
          assert tail[i] == msgs[i + 1];
        }
      }
      StreamQueued(c2, tail);
      var x: seq<MsgStruct> := if m.code == "PING" then [] else [Received(m)];
      assert Queued(msgs) == x + Queued(tail);
      assert c2.queue == c.queue + x;
      var r := ParseChunk(c2, Stream(tail));
      assert r.queue == (c.queue + x) + Queued(tail);
      AppendAssoc(c.queue, x, Queued(tail));
    }
  }

  lemma AppendAssoc(a: seq<MsgStruct>, b: seq<MsgStruct>, d: seq<MsgStruct>)
    ensures (a + b) + d == a + (b + d)
  {
  }
}
