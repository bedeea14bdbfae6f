/**
 * The client's frame serialiser (`NetMsg.ToString` and
 * `NetMsg.ToStringWithBuilder` in sp/client/ups_net/network.go) and its
 * agreement with the client's frame parser.
 */
module FrameWriter {
  import opened Wrappers
  import opened DecimalText
  import opened FrameGrammar
  import opened ClientParser

  datatype NetMsg = NetMsg(code: string, payload: string)

  /** A frame whose length field fits the four digits of the grammar. */
  predicate Framable(msg: NetMsg) {
    |msg.code| == MSG_CODE_SIZE && |msg.payload| <= 9999
  }

  /** The frame type the serialiser picks: `'P'` exactly when there is a payload. */
  function FrameType(msg: NetMsg): MsgType {
    if |msg.payload| > 0 then PayloadMsg else NoPayloadMsg
  }

  /** `%04d` of the payload length (no sign can occur: lengths are natural). */
  function LengthField(n: nat): (s: string)
    ensures AllDigits(s) && DigitsValue(s) == n
    ensures n <= 9999 ==> |s| == PAYLOAD_LEN_SIZE
    ensures n > 9999 ==> |s| > PAYLOAD_LEN_SIZE
  {
    assert Pow10(4) == 10000;
    if n <= 9999 then
      NumDigitsAtMost(n, 4);
      GoPadded(n, 4)
    else
      WideNumDigits(n, 4);
      GoPadded(n, 4)
  }

  /** `NetMsg.ToString`. */
  function ToString(msg: NetMsg): (s: string)
    ensures |s| >= 5 + |msg.code|
    ensures s[..3] == MAGIC && s[|s| - 1] == '\n'
    ensures s[3] == TypeChar(FrameType(msg))
    ensures s[4..4 + |msg.code|] == msg.code
    ensures |msg.payload| == 0 ==> |s| == 5 + |msg.code|
    ensures |msg.payload| > 0 ==>
      && |s| == 5 + |msg.code| + |LengthField(|msg.payload|)| + |msg.payload|
      && s[|s| - 1 - |msg.payload|..|s| - 1] == msg.payload
  {
    var t := FrameType(msg);
    var body := if |msg.payload| > 0 then LengthField(|msg.payload|) + msg.payload else [];
    MAGIC + [TypeChar(t)] + msg.code + body + "\n"
  }

  /**
   * `NetMsg.ToStringWithBuilder`: appends the frame to whatever the builder
   * already holds, returns the whole builder content and empties the builder.
   */
  function ToStringWithBuilder(msg: NetMsg, builder: string): (r: (string, string))
    ensures r.1 == [] && |r.0| == |builder| + |ToString(msg)|
    ensures r.0[..|builder|] == builder
    ensures r.0[|builder|..] == ToString(msg)
  {
    (builder + ToString(msg), [])
  }

  /** With the builder left empty by the previous call, both serialisers agree. */
  lemma BuilderMatchesToString(msg: NetMsg, m2: NetMsg)
    ensures ToStringWithBuilder(msg, []).0 == ToString(msg)
    ensures ToStringWithBuilder(m2, ToStringWithBuilder(msg, []).1).0 == ToString(m2)
  {
  }

  /** Frame length: 9 without a payload, `13 + len` with one. */
  lemma FrameLength(msg: NetMsg)
    requires Framable(msg)
    ensures |ToString(msg)| == if |msg.payload| == 0 then 9 else 13 + |msg.payload|
  {
  }

  /** An empty payload is always framed as `'N'`: the unterminable `'P'` + `"0000"` never appears. */
  lemma NeverEmitsEmptyPayloadFrame(msg: NetMsg)
    ensures ToString(msg)[3] == 'P' <==> |msg.payload| > 0
    ensures ToString(msg)[3] == 'P' ==> ToString(msg)[4 + |msg.code|..8 + |msg.code|] != "0000"
  {
    if |msg.payload| > 0 {
      var s := ToString(msg);
      var n := |msg.payload|;
      var l := LengthField(n);
      assert s == MAGIC + ['P'] + msg.code + (l + msg.payload) + "\n";
      assert s[4 + |msg.code|..8 + |msg.code|] == l[..4];
      if |l| == 4 {
        ZerosValue(4);
        assert Zeros(4) == "0000";
        assert DigitsValue(l) != DigitsValue(Zeros(4));
      } else {
        assert l == NatDigits(n);
        assert l[0] != '0';
      }
    }
  }

  /** A digit string with `k` leading zeros is worth what its suffix is worth. */
  lemma PrefixZerosValue(l: string, k: nat)
    requires AllDigits(l) && k <= |l| && l[..k] == Zeros(k)
    ensures DigitsValue(l) == DigitsValue(l[k..])
  {
    assert l == Zeros(k) + l[k..];
    LeadingZerosValue(k, l[k..]);
  }

  /** A number of at least `10^k` has more than `k` digits. */
  lemma {:induction false} WideNumDigits(n: nat, k: nat)
    requires n >= Pow10(k)
    ensures NumDigits(n) > k
  {
    if k > 0 {
      WideNumDigits(n / 10, k - 1);
    }
  }

  /**
   * Round trip: a reset parser fed a serialised frame, followed by anything,
   * stops exactly at the end of the frame with the message's code, type and
   * payload.
   */
  lemma FrameRoundTrip(msg: NetMsg, rest: string)
    requires Framable(msg)
    ensures var r := Feed(Init(), ToString(msg) + rest);
      && r.verdict == Done
      && r.consumed == |ToString(msg)|
      && r.parser.code == msg.code
      && r.parser.msgType == FrameType(msg)
      && (r.parser.msgType == PayloadMsg ==> r.parser.payload == msg.payload)
  {
    if |msg.payload| == 0 {
      BareFrameRoundTrip(msg, rest);
    } else {
      PayloadFrameRoundTrip(msg, rest);
    }
  }

  /** A run that ended on the frame `msg`'s last byte, holding its code, type and payload. */
  predicate ReadsBack(r: Run, msg: NetMsg) {
    && r.verdict == Done
    && r.consumed == |ToString(msg)|
    && r.parser.code == msg.code
    && r.parser.msgType == FrameType(msg)
    && (r.parser.msgType == PayloadMsg ==> r.parser.payload == msg.payload)
  }

  /** The round trip of a frame without payload: header, code, newline. */
  lemma BareFrameRoundTrip(msg: NetMsg, rest: string)
    requires Framable(msg) && |msg.payload| == 0
    ensures ReadsBack(Feed(Init(), ToString(msg) + rest), msg)
  {
    var t := FrameType(msg);
    var h := MAGIC + [TypeChar(t)];
    var e := "\n" + rest;
    FeedHeader(t);
    var p1 := Init().(phase := Code, msgType := t);
    FeedCodeBytes(p1, msg.code);
    var p2 := p1.(code := msg.code, codeIndex := 4, phase := Endline);
    assert ToString(msg) + rest == h + (msg.code + e);
    FeedAppend(Init(), h, msg.code + e);
    FeedAppend(p1, msg.code, e);
    FeedTerminator(p2, rest);
  }

  /** The round trip of a frame with a payload: header, code, length, payload, newline. */
  lemma PayloadFrameRoundTrip(msg: NetMsg, rest: string)
    requires Framable(msg) && |msg.payload| > 0
    ensures ReadsBack(Feed(Init(), ToString(msg) + rest), msg)
  {
    var t := FrameType(msg);
    var h := MAGIC + [TypeChar(t)];
    var e := "\n" + rest;
    var l := LengthField(|msg.payload|);
    FeedHeader(t);
    var p1 := Init().(phase := Code, msgType := t);
    FeedCodeBytes(p1, msg.code);
    var p2 := p1.(code := msg.code, codeIndex := 4, phase := Size);
    assert ToString(msg) + rest == h + (msg.code + (l + (msg.payload + e)));
    FeedAppend(Init(), h, msg.code + (l + (msg.payload + e)));
    FeedAppend(p1, msg.code, l + (msg.payload + e));
    FeedLengthDigits(p2, l);
    var p3 := p2.(sizeIndex := 4, payloadLen := |msg.payload|, phase := Payload);
    FeedAppend(p2, l, msg.payload + e);
    FeedPayloadBytes(p3, msg.payload);
    var p4 := p3.(payload := msg.payload, phase := Endline);
    FeedAppend(p3, msg.payload, e);
    FeedTerminator(p4, rest);
  }

  /** The same round trip seen through `ParseBytes`, from any reset parser. */
  lemma ParseBytesRoundTrip(p: Parser, msg: NetMsg, rest: string)
    requires Framable(msg)
    ensures ParseBytes(ResetParser(p), ToString(msg) + rest).results ==
      ParseResults(false, true, msg.code, |ToString(msg)|, Some(FrameType(msg)), msg.payload)
  {
    ResetForgetsHistory(p, p, []);
    FrameRoundTrip(msg, rest);
  }

  /** However the frame is cut into reads, the parser recovers the message. */
  lemma ChunkedFrameRoundTrip(p: Parser, msg: NetMsg, chunks: seq<string>)
    requires Framable(msg) && Concat(chunks) == ToString(msg)
    ensures var r := FeedChunks(ResetParser(p), chunks);
      && r.verdict == Done && r.consumed == |ToString(msg)|
      && r.parser.code == msg.code
      && (r.parser.msgType == PayloadMsg ==> r.parser.payload == msg.payload)
  {
    ResetForgetsHistory(p, p, []);
    ChunkSplitInvariance(Init(), chunks);
    FrameRoundTrip(msg, []);
    assert ToString(msg) + [] == ToString(msg);
  }

  /**
   * `ToString` as written: a payload longer than 9999 bytes gets a five-digit
   * length, and no parse of the result ever hands that payload back.
   */
  lemma OversizedPayloadNotRecovered(p: Parser, msg: NetMsg, rest: string)
    requires |msg.payload| > 9999
    ensures var r := ParseBytes(ResetParser(p), ToString(msg) + rest).results;
      !(r.parserDone && r.payload == msg.payload)
    ensures |LengthField(|msg.payload|)| > PAYLOAD_LEN_SIZE
  {
    assert Valid(ResetParser(p));
  }

  /**
   * The serialiser with the evidently intended guard: a payload that does
   * not fit the four-digit length field is refused instead of framed.
   */
  function ToFrame(msg: NetMsg): (r: Option<string>)
    ensures r.Some? <==> |msg.payload| <= 9999
    ensures r.Some? ==> r.value == ToString(msg)
  {
    if |msg.payload| > 9999 then None else Some(ToString(msg))
  }

  /** Every frame `ToFrame` produces for a four-byte code parses back to the message. */
  lemma ToFrameRoundTrip(msg: NetMsg, rest: string)
    requires |msg.code| == MSG_CODE_SIZE && ToFrame(msg).Some?
    ensures var r := ParseBytes(Init(), ToFrame(msg).value + rest).results;
      r.parserDone && r.code == msg.code && r.payload == msg.payload
      && r.bytesParsed == |ToFrame(msg).value|
  {
    FrameRoundTrip(msg, rest);
  }
}
