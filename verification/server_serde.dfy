/**
 * The server's wire helpers and frame parser (sp/server/src/MessageSerde.hpp):
 * `read_size`, `read_var_str` and `MainParser`. The parser follows the same
 * grammar as the client's; `StepAgrees` and `ScanAgrees` prove the two
 * automata equal, byte for byte.
 */
module ServerSerde {
  import opened Wrappers
  import opened DecimalText
  import opened FrameGrammar
  import ClientParser

  const SIZESTR_LEN: nat := 4

  /**
   * The result of a read that indexes with unchecked offsets: the value,
   * `null`, or an access outside the buffer (undefined behaviour in C++).
   */
  datatype Read<T> = Null | Value(value: T) | OutOfBounds

  /**
   * `read_size`: four digits starting at `begin`. `size() - begin` is an
   * unsigned subtraction, so a `begin` past the end wraps around, passes the
   * length check and reads outside the string.
   */
  function ReadSize(payload: string, begin: nat): (r: Read<nat>)
    ensures r == OutOfBounds <==> begin > |payload|
    ensures r.Value? <==> begin + SIZESTR_LEN <= |payload| && AllDigits(payload[begin..begin + SIZESTR_LEN])
    ensures r.Value? ==> r.value == DigitsValue(payload[begin..begin + SIZESTR_LEN]) && r.value <= 9999
  {
    if begin > |payload| then OutOfBounds
    else if |payload| - begin < SIZESTR_LEN then Null
    else
      var field := payload[begin..begin + SIZESTR_LEN];
      if !AllDigits(field) then Null
      else
        DigitsValueBound(field);
        assert Pow10(4) == 10000;
        Value(DigitsValue(field))
  }

  /**
   * `read_var_str` as written: the length check compares the declared size
   * with `size() - 4`, ignoring `begin`, so with `begin > 0` the copy can run
   * past the end of the string.
   */
  function ReadVarStr(payload: string, begin: nat): (r: Read<string>)
    ensures begin == 0 ==>
      (r.Value? <==> ReadSize(payload, 0).Value? && ReadSize(payload, 0).value <= |payload| - SIZESTR_LEN)
    ensures begin == 0 && r.Value? ==>
      r.value == payload[SIZESTR_LEN..SIZESTR_LEN + ReadSize(payload, 0).value]
    ensures begin == 0 ==> r != OutOfBounds
  {
    match ReadSize(payload, begin)
    case OutOfBounds => OutOfBounds
    case Null => Null
    case Value(size) =>
      if |payload| - SIZESTR_LEN < size then Null
      else if begin + SIZESTR_LEN + size > |payload| then OutOfBounds
      else Value(payload[begin + SIZESTR_LEN..begin + SIZESTR_LEN + size])
  }

  /** The input that shows the ignored offset: a 5-byte string announced at offset 2 of a 10-byte payload. */
  lemma ReadVarStrOverrun()
    ensures ReadVarStr("xx0005hell", 2) == OutOfBounds
  {
    var p := "xx0005hell";
    assert p[2..6] == "0005";
    assert DigitsValue("0005") == 5 by {
      assert "0005"[..3] == "000" && "000"[..2] == "00" && "00"[..1] == "0" && "0"[..0] == [];
    }
  }

  /** `read_var_str` with the bound taken from `begin`, as the comment on it intends. */
  function ReadVarStrChecked(payload: string, begin: nat): (r: Read<string>)
    ensures r == OutOfBounds <==> begin > |payload|
    ensures r.Value? <==>
      ReadSize(payload, begin).Value? && begin + SIZESTR_LEN + ReadSize(payload, begin).value <= |payload|
    ensures r.Value? ==>
      r.value == payload[begin + SIZESTR_LEN..begin + SIZESTR_LEN + ReadSize(payload, begin).value]
  {
    match ReadSize(payload, begin)
    case OutOfBounds => OutOfBounds
    case Null => Null
    case Value(size) =>
      if |payload| - begin - SIZESTR_LEN < size then Null
      else Value(payload[begin + SIZESTR_LEN..begin + SIZESTR_LEN + size])
  }

  /** Where the written check is safe (offset 0, the only call in the server) the two agree. */
  lemma ReadVarStrAgreesAtZero(payload: string)
    ensures ReadVarStr(payload, 0) == ReadVarStrChecked(payload, 0)
  {
  }

  /** `MainParser`. The message type starts uninitialised: any value. */
  datatype MainParser = MainParser(
    phase: Phase,
    msgType: MsgType,
    code: string,
    payload: string,
    sizeIndex: nat,
    codeIndex: nat,
    payloadLen: nat)

  datatype Fed = Fed(parser: MainParser, verdict: Verdict)
  datatype Scan = Scan(parser: MainParser, consumed: nat, verdict: Verdict)

  /** `ParseResults` of the server; `payload` is an `optional`. */
  datatype ParseResults = ParseResults(
    error: bool,
    parserDone: bool,
    code: string,
    bytesParsed: nat,
    msgType: Option<MsgType>,
    payload: Option<string>)

  datatype Parsed = Parsed(parser: MainParser, results: ParseResults)

  /** A fresh parser, whose type field holds whatever was in memory. */
  function Fresh(t: MsgType): (p: MainParser)
    ensures p.phase == Magic1 && p.code == [] && p.payload == []
  {
    MainParser(Magic1, t, [], [], 0, 0, 0)
  }

  /** `reset_parser`: clears everything except the message type. */
  function ResetParser(p: MainParser): (r: MainParser)
    ensures r.phase == Magic1 && r.code == [] && r.payload == []
    ensures r.sizeIndex == 0 && r.codeIndex == 0 && r.payloadLen == 0
    ensures r.msgType == p.msgType
  {
    p.(phase := Magic1, code := [], payload := [], sizeIndex := 0, codeIndex := 0, payloadLen := 0)
  }

  /** `parse_byte`. */
  function ParseByte(p: MainParser, c: char): (r: Fed)
    ensures r.verdict == Done <==> p.phase == Endline && c == '\n'
    ensures r.verdict != Ok ==> r.parser == p
  {
    match p.phase
    case Magic1 => if c != 'P' then Fed(p, Invalid) else Fed(p.(phase := Magic2), Ok)
    case Magic2 => if c != 'K' then Fed(p, Invalid) else Fed(p.(phase := Magic3), Ok)
    case Magic3 => if c != 'R' then Fed(p, Invalid) else Fed(p.(phase := TypeByte), Ok)
    case TypeByte =>
      if c != 'N' && c != 'P' then Fed(p, Invalid)
      else Fed(p.(msgType := if c == 'P' then PayloadMsg else NoPayloadMsg, phase := Code), Ok)
    case Code =>
      var q := p.(code := p.code + [c], codeIndex := p.codeIndex + 1);
      if q.codeIndex >= MSG_CODE_SIZE then
        Fed(q.(phase := if q.msgType == NoPayloadMsg then Endline else Size), Ok)
      else Fed(q, Ok)
    case Size =>
      if c < '0' || c > '9' then Fed(p, Invalid)
      else
        var q := p.(payloadLen := p.payloadLen * 10 + DigitValue(c), sizeIndex := p.sizeIndex + 1);
        if q.sizeIndex >= PAYLOAD_LEN_SIZE then Fed(q.(phase := Payload), Ok) else Fed(q, Ok)
    case Payload =>
      var q := p.(payload := p.payload + [c]);
      if |q.payload| == q.payloadLen then Fed(q.(phase := Endline), Ok) else Fed(q, Ok)
    case Endline => if c == '\n' then Fed(p, Done) else Fed(p, Invalid)
  }

  /** The loop of `parse_bytes`: stop after the first `Done`/`Invalid` or at the end. */
  function ScanBytes(p: MainParser, bytes: string): (r: Scan)
    ensures r.consumed <= |bytes|
    ensures |bytes| > 0 ==> r.consumed >= 1
    ensures r.verdict == Ok ==> r.consumed == |bytes|
    decreases |bytes|
  {
    if |bytes| == 0 then Scan(p, 0, Ok)
    else
      var f := ParseByte(p, bytes[0]);
      if f.verdict != Ok then Scan(f.parser, 1, f.verdict)
      else
        var s := ScanBytes(f.parser, bytes[1..]);
        Scan(s.parser, s.consumed + 1, s.verdict)
  }

  /**
   * `parse_bytes`; the `std::vector<char>` and `std::string_view` overloads
   * have the same body and are both this function.
   */
  function ParseBytes(p: MainParser, bytes: string): (r: Parsed)
    ensures r.results.bytesParsed <= |bytes|
    ensures |bytes| > 0 ==> r.results.bytesParsed >= 1
    ensures !(r.results.error && r.results.parserDone)
    ensures !r.results.error && !r.results.parserDone ==> r.results.bytesParsed == |bytes|
    ensures r.results.payload.Some? <==> r.results.parserDone && r.parser.msgType == PayloadMsg
    ensures r.results.payload.Some? ==> r.results.payload.value == r.parser.payload
    ensures r.results.parserDone ==> r.results.code == r.parser.code && r.results.msgType == Some(r.parser.msgType)
    ensures !r.results.parserDone ==> r.results.code == [] && r.results.msgType == None
  {
    var s := ScanBytes(p, bytes);
    var done := s.verdict == Done;
    var q := s.parser;
    Parsed(q, ParseResults(
      error := s.verdict == Invalid,
      parserDone := done,
      code := if done then q.code else [],
      bytesParsed := s.consumed,
      msgType := if done then Some(q.msgType) else None,
      payload := if done && q.msgType == PayloadMsg then Some(q.payload) else None))
  }

  /** The client's view of a server parser: the same fields. */
  function AsClient(p: MainParser): (c: ClientParser.Parser)
    ensures c.phase == p.phase && c.msgType == p.msgType && c.code == p.code && c.payload == p.payload
    ensures c.sizeIndex == p.sizeIndex && c.codeIndex == p.codeIndex && c.payloadLen == p.payloadLen
  {
    ClientParser.Parser(p.phase, p.msgType, p.code, p.payload, p.sizeIndex, p.codeIndex, p.payloadLen)
  }

  /** One byte: the server's `parse_byte` and the client's `ParseByte` are the same automaton. */
  lemma StepAgrees(p: MainParser, c: char)
    ensures var s := ParseByte(p, c);
      var k := ClientParser.ParseByte(AsClient(p), c);
      AsClient(s.parser) == k.parser && s.verdict == k.verdict
  {
  }

  /** A whole scan agrees with the client's `Feed`. */
  lemma {:induction false} ScanAgrees(p: MainParser, bytes: string)
    ensures var s := ScanBytes(p, bytes);
      var k := ClientParser.Feed(AsClient(p), bytes);
      AsClient(s.parser) == k.parser && s.consumed == k.consumed && s.verdict == k.verdict
    decreases |bytes|
  {
    if |bytes| > 0 {
      StepAgrees(p, bytes[0]);
      var f := ParseByte(p, bytes[0]);
      if f.verdict == Ok {
        ScanAgrees(f.parser, bytes[1..]);
      }
    }
  }

  /**
   * `reset_parser` leaves the type alone, but it is overwritten by the type
   * byte before anything reads it: from a reset, the stale type never shows.
   */
  lemma {:induction false} StaleTypeInvisible(p: MainParser, q: MainParser, bytes: string)
    requires p.phase in {Magic1, Magic2, Magic3, TypeByte}
    requires q == p.(msgType := q.msgType)
    ensures var a := ScanBytes(p, bytes);
      var b := ScanBytes(q, bytes);
      && a.consumed == b.consumed && a.verdict == b.verdict
      && (a.parser.phase !in {Magic1, Magic2, Magic3, TypeByte} ==> a.parser == b.parser)
      && a.parser == b.parser.(msgType := a.parser.msgType)
    decreases |bytes|
  {
    if |bytes| > 0 {
      var f := ParseByte(p, bytes[0]);
      var g := ParseByte(q, bytes[0]);
      if f.verdict == Ok {
        if f.parser.phase in {Magic1, Magic2, Magic3, TypeByte} {
          StaleTypeInvisible(f.parser, g.parser, bytes[1..]);
        } else {
          assert f.parser == g.parser;
        }
      }
    }
  }

  /** Hence `parse_bytes` after `reset_parser` reports what a fresh client parser would. */
  lemma ResetMatchesClient(p: MainParser, bytes: string)
    ensures var s := ParseBytes(ResetParser(p), bytes).results;
      var k := ClientParser.ParseBytes(ClientParser.Init(), bytes).results;
      && s.error == k.error && s.parserDone == k.parserDone && s.code == k.code
      && s.bytesParsed == k.bytesParsed && s.msgType == k.msgType
      && s.payload.GetOr([]) == k.payload
  {
    var r := ResetParser(p);
    var r0 := r.(msgType := NoPayloadMsg);
    StaleTypeInvisible(r, r0, bytes);
    assert AsClient(r0) == ClientParser.Init();
    ScanAgrees(r0, bytes);
  }
}
