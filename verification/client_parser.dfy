/**
 * The client's incremental frame parser (`Parser` in
 * sp/client/ups_net/serde.go). The parser is a value; every operation
 * returns the successor value instead of mutating it.
 */
module ClientParser {
  import opened Wrappers
  import opened DecimalText
  import opened FrameGrammar

  datatype Parser = Parser(
    phase: Phase,
    msgType: MsgType,
    code: string,
    payload: string,
    sizeIndex: nat,
    codeIndex: nat,
    payloadLen: nat)

  /** A parser together with the verdict on the byte it just consumed. */
  datatype Fed = Fed(parser: Parser, verdict: Verdict)

  /** The outcome of feeding a run of bytes: last state, bytes consumed, last verdict. */
  datatype Run = Run(parser: Parser, consumed: nat, verdict: Verdict)

  /** What `ParseBytes` reports (`ParseResults`). */
  datatype ParseResults = ParseResults(
    error: bool,
    parserDone: bool,
    code: string,
    bytesParsed: nat,
    msgType: Option<MsgType>,
    payload: string)

  datatype Parsed = Parsed(parser: Parser, results: ParseResults)

  /** The states a parser can be in after `Init` and any number of bytes. */
  predicate Valid(p: Parser) {
    && p.codeIndex == |p.code| <= MSG_CODE_SIZE
    && p.sizeIndex <= PAYLOAD_LEN_SIZE
    && p.payloadLen < Pow10(p.sizeIndex)
    && (p.phase in {Magic1, Magic2, Magic3, TypeByte, Code} ==>
          p.codeIndex < MSG_CODE_SIZE && p.sizeIndex == 0 && p.payload == [])
    && (p.phase in {Magic1, Magic2, Magic3, TypeByte} ==> p.codeIndex == 0)
    && (p.phase == Size ==>
          p.msgType == PayloadMsg && p.codeIndex == MSG_CODE_SIZE && p.sizeIndex < PAYLOAD_LEN_SIZE && p.payload == [])
    && (p.phase == Payload ==>
          p.msgType == PayloadMsg && p.codeIndex == MSG_CODE_SIZE && p.sizeIndex == PAYLOAD_LEN_SIZE
          && (|p.payload| < p.payloadLen || p.payloadLen == 0))
    && (p.phase == Endline ==>
          p.codeIndex == MSG_CODE_SIZE
          && (p.msgType == NoPayloadMsg ==> p.payload == [] && p.sizeIndex == 0)
          && (p.msgType == PayloadMsg ==> p.sizeIndex == PAYLOAD_LEN_SIZE && 1 <= |p.payload| == p.payloadLen))
  }

  /** `Init` (and the zero value the acceptor starts from). */
  function Init(): (p: Parser)
    ensures Valid(p) && p.phase == Magic1
  {
    Parser(Magic1, NoPayloadMsg, [], [], 0, 0, 0)
  }

  /** `ResetParser`: forgets everything about the previous frame. */
  function ResetParser(p: Parser): (r: Parser)
    ensures Valid(r)
    ensures r.phase == Magic1 && r.code == [] && r.payload == []
    ensures r.sizeIndex == 0 && r.codeIndex == 0 && r.payloadLen == 0
  {
    p.(phase := Magic1, msgType := NoPayloadMsg, code := [], payload := [],
       sizeIndex := 0, codeIndex := 0, payloadLen := 0)
  }

  /** `ParseByte`: one step of the frame automaton. */
  function ParseByte(p: Parser, c: char): (r: Fed)
    ensures r.verdict == Invalid <==>
      || (p.phase == Magic1 && c != 'P')
      || (p.phase == Magic2 && c != 'K')
      || (p.phase == Magic3 && c != 'R')
      || (p.phase == TypeByte && c != 'N' && c != 'P')
      || (p.phase == Size && !IsDigit(c))
      || (p.phase == Endline && c != '\n')
    ensures r.verdict == Done <==> p.phase == Endline && c == '\n'
    ensures r.verdict != Ok ==> r.parser == p
    ensures Valid(p) ==> Valid(r.parser)
  {
    match p.phase
    case Magic1 =>
      if c != 'P' then Fed(p, Invalid) else Fed(p.(phase := Magic2), Ok)
    case Magic2 =>
      if c != 'K' then Fed(p, Invalid) else Fed(p.(phase := Magic3), Ok)
    case Magic3 =>
      if c != 'R' then Fed(p, Invalid) else Fed(p.(phase := TypeByte), Ok)
    case TypeByte =>
      if c == 'N' || c == 'P' then
        var t := if c == 'N' then NoPayloadMsg else PayloadMsg;
        Fed(p.(msgType := t, phase := Code), Ok)
      else Fed(p, Invalid)
    case Code =>
      var codeIndex := p.codeIndex + 1;
      var phase :=
        if codeIndex >= MSG_CODE_SIZE then (if p.msgType == NoPayloadMsg then Endline else Size)
        else Code;
      Fed(p.(code := p.code + [c], codeIndex := codeIndex, phase := phase), Ok)
    case Size =>
      if !IsDigit(c) then Fed(p, Invalid)
      else
        var phase := if p.sizeIndex >= 3 then Payload else Size;
        Fed(p.(phase := phase, payloadLen := p.payloadLen * 10 + DigitValue(c), sizeIndex := p.sizeIndex + 1), Ok)
    case Payload =>
      var payload := p.payload + [c];
      var phase := if |payload| == p.payloadLen then Endline else Payload;
      Fed(p.(payload := payload, phase := phase), Ok)
    case Endline =>
      if c == '\n' then Fed(p, Done) else Fed(p, Invalid)
  }

  /**
   * The loop of `ParseBytes`: feed bytes until one is `Done` or `Invalid`
   * or the input runs out.
   */
  function Feed(p: Parser, bytes: string): (r: Run)
    ensures r.consumed <= |bytes|
    ensures |bytes| > 0 ==> r.consumed >= 1
    ensures r.verdict == Ok ==> r.consumed == |bytes|
    ensures Valid(p) ==> Valid(r.parser)
    decreases |bytes|
  {
    if |bytes| == 0 then Run(p, 0, Ok)
    else
      var f := ParseByte(p, bytes[0]);
      if f.verdict != Ok then Run(f.parser, 1, f.verdict)
      else
        var rest := Feed(f.parser, bytes[1..]);
        Run(rest.parser, rest.consumed + 1, rest.verdict)
  }

  /** `ParseBytes`: feed a chunk; the parser keeps its state between calls. */
  function ParseBytes(p: Parser, bytes: string): (r: Parsed)
    ensures r.results.bytesParsed <= |bytes|
    ensures |bytes| > 0 ==> r.results.bytesParsed >= 1
    ensures !(r.results.error && r.results.parserDone)
    ensures !r.results.error && !r.results.parserDone ==> r.results.bytesParsed == |bytes|
    ensures r.results.parserDone ==>
      && r.results.code == r.parser.code
      && r.results.msgType == Some(r.parser.msgType)
      && r.results.payload == (if r.parser.msgType == PayloadMsg then r.parser.payload else [])
    ensures !r.results.parserDone ==> r.results.code == [] && r.results.payload == [] && r.results.msgType == None
    ensures Valid(p) && r.results.parserDone ==> |r.results.code| == MSG_CODE_SIZE && |r.results.payload| <= 9999
  {
    var run := Feed(p, bytes);
    var done := run.verdict == Done;
    var q := run.parser;
    var results := ParseResults(
      error := run.verdict == Invalid,
      parserDone := done,
      code := if done then q.code else [],
      bytesParsed := run.consumed,
      msgType := if done then Some(q.msgType) else None,
      payload := if done && q.msgType == PayloadMsg then q.payload else []);
    if done && Valid(p) then
      DoneOnlyFromEndline(p, bytes);
      ValidDoneBounds(q);
      Parsed(q, results)
    else Parsed(q, results)
  }

  lemma ValidDoneBounds(q: Parser)
    requires Valid(q) && q.phase == Endline
    ensures |q.code| == MSG_CODE_SIZE
    ensures q.msgType == PayloadMsg ==> |q.payload| <= 9999
  {
    if q.msgType == PayloadMsg {
      assert Pow10(4) == 10000;
    }
  }

  /** Only a parser waiting for the terminator can finish a frame. */
  lemma {:induction false} DoneOnlyFromEndline(p: Parser, bytes: string)
    requires Feed(p, bytes).verdict == Done
    ensures Feed(p, bytes).parser.phase == Endline
    decreases |bytes|
  {
    if |bytes| > 0 && ParseByte(p, bytes[0]).verdict == Ok {
      DoneOnlyFromEndline(ParseByte(p, bytes[0]).parser, bytes[1..]);
    }
  }

  /**
   * Feeding stops right after the byte that decided: every earlier byte was
   * `Ok` and that byte's verdict is the reported one.
   */
  lemma {:induction false} FeedStopsAtVerdict(p: Parser, bytes: string)
    requires Feed(p, bytes).verdict != Ok
    ensures var n := Feed(p, bytes).consumed;
      && n >= 1
      && Feed(p, bytes[..n - 1]).verdict == Ok
      && ParseByte(Feed(p, bytes[..n - 1]).parser, bytes[n - 1]) == Fed(Feed(p, bytes).parser, Feed(p, bytes).verdict)
    decreases |bytes|
  {
    var f := ParseByte(p, bytes[0]);
    if f.verdict == Ok {
      var rest := bytes[1..];
      FeedStopsAtVerdict(f.parser, rest);
      var n := Feed(p, bytes).consumed;
      assert bytes[..n - 1][1..] == rest[..n - 2];
      assert bytes[n - 1] == rest[n - 2];
    } else {
      assert bytes[..0] == [];
    }
  }

  /**
   * Feeding `a + b` is feeding `a`, then (if `a` decided nothing) feeding
   * `b` to the resulting parser: the basis of split-invariance.
   */
  lemma {:induction false} FeedAppend(p: Parser, a: string, b: string)
    ensures var ra := Feed(p, a);
      Feed(p, a + b) ==
        if ra.verdict != Ok then ra
        else
          var rb := Feed(ra.parser, b);
          Run(rb.parser, |a| + rb.consumed, rb.verdict)
    decreases |a|
  {
    if |a| == 0 {
      assert a + b == b;
    } else {
      assert (a + b)[0] == a[0] && (a + b)[1..] == a[1..] + b;
      var f := ParseByte(p, a[0]);
      if f.verdict == Ok {
        FeedAppend(f.parser, a[1..], b);
      }
    }
  }

  /** Feeding a sequence of chunks one call at a time, stopping at the first decided chunk. */
  function FeedChunks(p: Parser, chunks: seq<string>): (r: Run)
    decreases |chunks|
  {
    if |chunks| == 0 then Run(p, 0, Ok)
    else
      var first := Feed(p, chunks[0]);
      if first.verdict != Ok then first
      else
        var rest := FeedChunks(first.parser, chunks[1..]);
        Run(rest.parser, |chunks[0]| + rest.consumed, rest.verdict)
  }

  function Concat(chunks: seq<string>): string {
    if |chunks| == 0 then [] else chunks[0] + Concat(chunks[1..])
  }

  /** Splitting the input into chunks, however it is cut, changes nothing. */
  lemma {:induction false} ChunkSplitInvariance(p: Parser, chunks: seq<string>)
    ensures FeedChunks(p, chunks) == Feed(p, Concat(chunks))
    decreases |chunks|
  {
    if |chunks| > 0 {
      FeedAppend(p, chunks[0], Concat(chunks[1..]));
      var first := Feed(p, chunks[0]);
      if first.verdict == Ok {
        ChunkSplitInvariance(first.parser, chunks[1..]);
      }
    }
  }

  /** After a reset the parser's history is irrelevant. */
  lemma ResetForgetsHistory(p: Parser, q: Parser, bytes: string)
    ensures Feed(ResetParser(p), bytes) == Feed(ResetParser(q), bytes)
    ensures ResetParser(p) == Init()
  {
  }

  /**
   * The zero-length trap: once a `'P'` frame has announced length `0000`,
   * the payload phase appends before comparing, so no input ever finishes
   * (or rejects) the frame.
   */
  lemma {:induction false} ZeroLengthPayloadNeverEnds(p: Parser, bytes: string)
    requires p.phase == Payload && p.payloadLen == 0
    ensures Feed(p, bytes).verdict == Ok
    ensures Feed(p, bytes).parser.phase == Payload
    ensures Feed(p, bytes).parser.payload == p.payload + bytes
    decreases |bytes|
  {
    if |bytes| > 0 {
      var f := ParseByte(p, bytes[0]);
      ZeroLengthPayloadNeverEnds(f.parser, bytes[1..]);
      assert p.payload + bytes == f.parser.payload + bytes[1..];
    }
  }

  /** After the magic and a type byte, the parser waits for the code. */
  lemma FeedHeader(t: MsgType)
    ensures Feed(Init(), MAGIC + [TypeChar(t)]) == Run(Init().(phase := Code, msgType := t), 4, Ok)
  {
    var h := MAGIC + [TypeChar(t)];
    assert h == ['P', 'K', 'R', TypeChar(t)];
    var p1 := Init().(phase := Magic2);
    var p2 := p1.(phase := Magic3);
    var p3 := p2.(phase := TypeByte);
    assert ParseByte(p3, TypeChar(t)) == Fed(Init().(phase := Code, msgType := t), Ok);
    assert Feed(p3, h[3..]) == Run(Init().(phase := Code, msgType := t), 1, Ok);
    assert Feed(p2, h[2..]) == Run(Init().(phase := Code, msgType := t), 2, Ok);
    assert Feed(p1, h[1..]) == Run(Init().(phase := Code, msgType := t), 3, Ok);
  }

  /**
   * Code bytes are taken verbatim; the fourth ends the code and selects the
   * terminator (`'N'`) or the length (`'P'`).
   */
  lemma {:induction false} FeedCodeBytes(p: Parser, s: string)
    requires p.phase == Code && p.code == [] && p.codeIndex == 0
    requires |s| <= MSG_CODE_SIZE
    ensures Feed(p, s) == Run(p.(code := s, codeIndex := |s|,
      phase := if |s| < MSG_CODE_SIZE then Code else if p.msgType == NoPayloadMsg then Endline else Size), |s|, Ok)
    decreases |s|
  {
    if |s| > 0 {
      var n := |s|;
      FeedCodeBytes(p, s[..n - 1]);
      FeedAppend(p, s[..n - 1], [s[n - 1]]);
      assert s[..n - 1] + [s[n - 1]] == s;
    }
  }

  /** Length digits accumulate into `payloadLen`; the fourth one opens the payload. */
  lemma {:induction false} FeedLengthDigits(p: Parser, d: string)
    requires p.phase == Size && p.sizeIndex == 0 && p.payloadLen == 0
    requires |d| <= PAYLOAD_LEN_SIZE && AllDigits(d)
    ensures Feed(p, d) == Run(p.(sizeIndex := |d|, payloadLen := DigitsValue(d),
      phase := if |d| < PAYLOAD_LEN_SIZE then Size else Payload), |d|, Ok)
    decreases |d|
  {
    if |d| > 0 {
      var n := |d|;
      FeedLengthDigits(p, d[..n - 1]);
      FeedAppend(p, d[..n - 1], [d[n - 1]]);
      assert d[..n - 1] + [d[n - 1]] == d;
    }
  }

  /** Payload bytes are collected verbatim until the announced length is reached. */
  lemma {:induction false} FeedPayloadBytes(p: Parser, s: string)
    requires p.phase == Payload && p.payload == [] && 1 <= |s| <= p.payloadLen
    ensures Feed(p, s) == Run(p.(payload := s,
      phase := if |s| < p.payloadLen then Payload else Endline), |s|, Ok)
    decreases |s|
  {
    var n := |s|;
    if n > 1 {
      FeedPayloadBytes(p, s[..n - 1]);
    } else {
      assert s[..n - 1] == [];
    }
    FeedAppend(p, s[..n - 1], [s[n - 1]]);
    assert s[..n - 1] + [s[n - 1]] == s;
  }

  /** The terminator finishes the frame whatever follows it. */
  lemma FeedTerminator(p: Parser, rest: string)
    requires p.phase == Endline
    ensures Feed(p, "\n" + rest) == Run(p, 1, Done)
  {
    assert ("\n" + rest)[0] == '\n';
  }
}
