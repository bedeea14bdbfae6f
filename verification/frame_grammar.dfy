/**
 * Vocabulary shared by the client's and the server's frame parsers, which
 * both recognise
 *   "PKR" <'N' | 'P'> <code: 4 bytes> [<length: 4 digits> <payload>] "\n"
 * one byte at a time.
 */
module FrameGrammar {

  /** The part of a frame the next byte belongs to (`MainPart` in both sources). */
  datatype Phase = Magic1 | Magic2 | Magic3 | TypeByte | Code | Size | Payload | Endline

  /** Frame type byte: `'P'` announces a length and a payload, `'N'` announces none. */
  datatype MsgType = PayloadMsg | NoPayloadMsg

  /** The verdict on one byte (`ParserState` in both sources). */
  datatype Verdict = Ok | Done | Invalid

  const MAGIC: string := "PKR"
  const MSG_CODE_SIZE: nat := 4
  const PAYLOAD_LEN_SIZE: nat := 4

  function TypeChar(t: MsgType): char {
    match t
    case PayloadMsg => 'P'
    case NoPayloadMsg => 'N'
  }
}
