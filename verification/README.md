# kiv-ups poker: a Dafny model of the protocol, the client state machine and the server rooms

The system is a networked Texas hold'em game. A Go client (`sp/client`) and a
C++ server (`sp/server`) talk through a text protocol. Each message is a frame
`"PKR" <'N'|'P'> <code: 4 bytes> [<length: 4 digits> <payload>] "\n"`. Payload
fields use a small set of decimal encodings:

- small ints: two digits;
- big ints: four digits;
- strings: a big-int length, then the bytes;
- var ints: a two-digit digit count, then the number.

The server keeps a lobby of connected players. It hands each player to one of
four rooms, and each room runs a state machine: lobby, dealing, betting,
community cards, showdown. The client follows the protocol with its own state
machine, from the main menu to the game table.

This project models that core with immutable datatypes and pure functions,
one module per file:

| file | module | models |
|---|---|---|
| wrappers.dfy | `Wrappers` | `Option` |
| decimal_text.dfy | `DecimalText` | Go's `%d`, `%0Nd` and `strconv.ParseInt`, and C++'s `std::stoi`, on integers |
| frame_grammar.dfy | `FrameGrammar` | the frame vocabulary both parsers share |
| client_serde.dfy | `ClientSerde` | the field codecs of `sp/client/ups_net/serde.go` |
| client_parser.dfy | `ClientParser` | the byte-at-a-time frame parser of `serde.go` |
| frame_writer.dfy | `FrameWriter` | `NetMsg.ToString` / `ToStringWithBuilder` of `sp/client/ups_net/network.go` |
| client_helpers.dfy | `ClientHelpers` | `sp/client/src/Helpers.go` and `TranslateCardID` |
| client_data.dfy | `ClientData` | the client's table and room records (`sp/client/src/Data.go`) |
| client_room_codec.dfy | `ClientRoomCodec` | `deserializeRoom` and `deserializeRoomState` of `StateMachine.go` |
| client_session.dfy | `ClientSession` | the client's states, `validateGameAction`, `handlePlayerJoined`/`handlePlayerAction`, and the `gameThread` loop of `Gamethread.go` |
| server_wire.dfy | `ServerWire` | the server's field writers, as its call sites use them |
| server_serde.dfy | `ServerSerde` | `sp/server/src/MessageSerde.hpp` |
| player_conn.dfy | `PlayerConn` | the receive path of `PlayerInfo.hpp` |
| ring_buffer.dfy | `RingBuffer` | `CircularBufferQueue.hpp` |
| deck.dfy | `Deck` | the room's deck (`RoomThread.cpp`, `RoomThread.hpp`) |
| poker_scoring.dfy | `PokerScoring` | `PokerScoring.hpp` |
| seat_room.dfy | `SeatRoom` | the seat-based room of `RoomThread.cpp` |
| legacy_room.dfy | `LegacyRoom` | the room logic written inside `RoomThread.hpp`, the one `MainThread.hpp` compiles against |
| lobby.dfy | `Lobby` | `MainThread.hpp`: the lobby tick, room listing and hand-over to rooms |

The model treats the program as follows:

- Characters stand for bytes.
- Go's 64-bit `int` is `Int64`.
- A Go map that was never made is a table with `hasMap == false`. Reading it
  gives the zero value, and writing to it panics.
- Sends on channels, `Disconnect`, `startConnection` and redraws become
  effects appended to an output list.
- The shuffle order, the events the client thread receives and the bytes a
  `recv` returns are parameters.

Source paths below are relative to the repository root.

## Model

| member | source | states |
|---|---|---|
| DecimalText.NumDigitsBounds | sp/client/src/Helpers.go:24-35 | the integer digit count is the unique `k` with `10^(k-1) <= n < 10^k`, the value `floor(log10(n)) + 1` is meant to have |
| DecimalText.Int64DecimalLength | sp/client/ups_net/serde.go:317-336 | `%d` of any 64-bit value is at most 20 characters, so its length always fits the two-digit count |
| DecimalText.ParseInt64Accepts | sp/client/ups_net/serde.go:278-299 | `strconv.ParseInt(s, 10, 64)` accepts exactly an optional sign, at least one digit and nothing else, with a value in the 64-bit range |
| DecimalText.ParseItoaRoundTrip | sp/client/ups_net/serde.go:317-336 | `strconv.ParseInt` reads back `%d` of every 64-bit value |
| DecimalText.ScanAllDigits | sp/client/src/StateMachine.go:208 | the digit loop under `strconv.Atoi` reads a digit string to its value when it fits in 64 unsigned bits, and stops with a range error exactly when it does not |
| DecimalText.GoAtoi | sp/client/src/StateMachine.go:208-209 | `v, _ := strconv.Atoi(s)`: the parsed value whenever `ParseInt` accepts `s`; for a signed digit string out of range, `MinInt64` after a minus and `MaxInt64` otherwise; 0 with no digits |
| DecimalText.AtoiFirstStop | sp/client/src/StateMachine.go:385-386 | with a non-digit after `j` digits, `Atoi` gives 0 when those digits fit in 64 unsigned bits and the signed 64-bit bound when they already overflow |
| DecimalText.CStoi | sp/server/src/RoomThread.cpp:430 | whatever `std::stoi` returns lies in the 32-bit range (its digit grammar is pinned down by `StoiUnsigned`, `StoiSigned` and `StoiOfItoa`) |
| DecimalText.StoiOfItoa | sp/server/src/RoomThread.cpp:430 | `std::stoi` reads back the decimal rendering of every 32-bit value, whatever follows it |
| ClientSerde.ReadSmallInt | sp/client/ups_net/serde.go:220-238 | succeeds exactly when the first two bytes are digits, with their value |
| ClientSerde.ReadBigInt | sp/client/ups_net/serde.go:240-258 | succeeds exactly when the first four bytes are digits, with their value |
| ClientSerde.ReadString | sp/client/ups_net/serde.go:260-276 | a four-digit length followed by at least that many bytes yields exactly those bytes |
| ClientSerde.ReadVarInt | sp/client/ups_net/serde.go:278-299 | succeeds exactly when a two-digit count `k` is followed by at least `k` bytes and `ParseInt` accepts those `k` bytes, and then yields the value `ParseInt` gives them (so `k >= 1`) |
| ClientSerde.WriteSmallInt | sp/client/ups_net/serde.go:301-307 | refuses values outside 0..99, otherwise yields two digits worth the value |
| ClientSerde.WriteBigInt | sp/client/ups_net/serde.go:309-315 | refuses values outside 0..9999, otherwise yields four digits worth the value |
| ClientSerde.WriteVarInt | sp/client/ups_net/serde.go:317-336 | the digit count as a small int, then `%d` of the value |
| ClientSerde.WriteString | sp/client/ups_net/serde.go:338-345 | refuses strings longer than 9999 bytes, otherwise length then bytes |
| ClientSerde.WriteVarIntTotal | sp/client/ups_net/serde.go:317-336 | `WriteVarInt` never fails on a 64-bit value |
| ClientSerde.SmallIntRoundTrip | sp/client/ups_net/serde.go:220-238 | `ReadSmallInt` inverts `WriteSmallInt`, whatever follows |
| ClientSerde.BigIntRoundTrip | sp/client/ups_net/serde.go:240-258 | `ReadBigInt` inverts `WriteBigInt`, whatever follows |
| ClientSerde.StringRoundTrip | sp/client/ups_net/serde.go:260-276 | `ReadString` inverts `WriteString`, whatever follows |
| ClientSerde.VarIntPrefixIsLength | sp/client/ups_net/serde.go:317-336 | the var-int prefix is the length of the digits that follow it |
| ClientSerde.VarIntRoundTrip | sp/client/ups_net/serde.go:278-299 | `ReadVarInt` inverts `WriteVarInt` for every 64-bit value, whatever follows |
| ClientParser.Init | sp/client/ups_net/serde.go:75-83 | a fresh parser is well-formed and waits for the first magic byte |
| ClientParser.ResetParser | sp/client/ups_net/serde.go:85-93 | a reset parser waits for the magic with code, length and payload cleared |
| ClientParser.ParseByte | sp/client/ups_net/serde.go:95-175 | one step of the frame automaton: a wrong magic or type byte, a non-digit length or a bad terminator is `Invalid`; only the terminator yields `Done` |
| ClientParser.Feed | sp/client/ups_net/serde.go:181-218 | feeding never consumes more than it is given, takes at least one byte of non-empty input and all of it while no verdict is reached, and keeps the parser well-formed |
| ClientParser.ParseBytes | sp/client/ups_net/serde.go:181-218 | a chunk's verdict, with the code and payload of a completed frame, and the parser kept between calls |
| ClientParser.ValidDoneBounds | sp/client/ups_net/serde.go:133-171 | a parser waiting for the terminator holds a four-byte code and, in a `'P'` frame, at most 9999 payload bytes |
| ClientParser.DoneOnlyFromEndline | sp/client/ups_net/serde.go:165-171 | only a parser waiting for the terminator can finish a frame |
| ClientParser.FeedStopsAtVerdict | sp/client/ups_net/serde.go:181-218 | every byte before the deciding one was `Ok`, and the deciding byte's verdict is the one reported |
| ClientParser.FeedAppend | sp/client/ups_net/serde.go:181-218 | feeding `a + b` is feeding `a`, then `b` from where `a` left the parser |
| ClientParser.ChunkSplitInvariance | sp/client/ups_net/serde.go:181-218 | however the input is cut into chunks, the outcome is the same |
| ClientParser.ResetForgetsHistory | sp/client/ups_net/serde.go:85-93 | after a reset, the earlier history of the parser does not matter |
| ClientParser.ZeroLengthPayloadNeverEnds | sp/client/ups_net/serde.go:145-164 | a `'P'` frame announcing length `0000` never completes, whatever bytes follow |
| ClientParser.FeedHeader | sp/client/ups_net/serde.go:97-131 | the magic and a type byte lead to the code phase |
| ClientParser.FeedCodeBytes | sp/client/ups_net/serde.go:133-144 | the four code bytes are taken verbatim, then the terminator or the length is expected according to the type |
| ClientParser.FeedLengthDigits | sp/client/ups_net/serde.go:145-157 | four length digits accumulate into the payload length |
| ClientParser.FeedPayloadBytes | sp/client/ups_net/serde.go:158-164 | payload bytes are collected verbatim up to the announced length |
| ClientParser.FeedTerminator | sp/client/ups_net/serde.go:165-171 | the newline finishes the frame whatever follows it |
| FrameWriter.ToString | sp/client/ups_net/network.go:113-134 | the frame is the header, type, code, an optional four-digit length with the payload, and a newline; an empty payload is framed as `'N'` |
| FrameWriter.ToStringWithBuilder | sp/client/ups_net/network.go:137-160 | appends the frame to whatever the builder held, returns all of it and leaves the builder empty |
| FrameWriter.BuilderMatchesToString | sp/client/ups_net/network.go:137-160 | from an empty builder, both serialisers produce the same frame |
| FrameWriter.FrameLength | sp/client/ups_net/network.go:113-134 | a frame is 9 bytes without payload and 13 plus the payload length with one |
| FrameWriter.NeverEmitsEmptyPayloadFrame | sp/client/ups_net/network.go:113-134 | the unterminable `'P'` frame with length `0000` is never produced |
| FrameWriter.FrameRoundTrip | sp/client/ups_net/network.go:113-134 | a reset parser fed a serialised frame of a four-byte code and a payload of at most 9999 bytes stops exactly at its end, with that code and payload |
| FrameWriter.ParseBytesRoundTrip | sp/client/ups_net/serde.go:181-218 | the same round trip through `ParseBytes` |
| FrameWriter.ChunkedFrameRoundTrip | sp/client/ups_net/serde.go:181-218 | the round trip holds however the frame is split between reads |
| FrameWriter.OversizedPayloadNotRecovered | sp/client/ups_net/network.go:119-126 | a payload longer than 9999 bytes gets a five-digit length, and no parse of the frame ever returns that message |
| FrameWriter.ToFrame | sp/client/ups_net/network.go:113-134 | the corrected serialiser refuses payloads that do not fit four digits and otherwise agrees with `ToString` |
| FrameWriter.ToFrameRoundTrip | sp/client/ups_net/network.go:113-134 | every frame the corrected serialiser produces for a four-byte code parses back to its message |
| ClientHelpers.ActionIntToString | sp/client/src/Helpers.go:5-22 | numbers 0..5 name the six actions, and any other number is `UNKNOWN` |
| ClientHelpers.ActionNamesInvert | sp/client/src/Helpers.go:5-22 | action numbers and names are inverse, and `UNKNOWN` names no action |
| ClientHelpers.CountDigits | sp/client/src/Helpers.go:24-35 | the length of `%d` of the value, sign included |
| ClientHelpers.CountDigitsIsVarIntPrefix | sp/client/src/StateMachine.go:596-605 | `2 + countDigits(v)` is exactly the length of `WriteVarInt(v)`, so the offset step of `deserializeRoomState` moves past it |
| ClientHelpers.TranslateCardID | sp/client/src/StateMachine.go:13-29 | `"??"` outside 0..51; otherwise the rank `id % 13` and the suit `id / 13` |
| ClientHelpers.CardNamesDistinct | sp/client/src/StateMachine.go:13-29 | the 52 cards have 52 different names, none of them `"??"` |
| ClientData.Lookup | sp/client/src/StateMachine.go:344 | a map read yields the entry, or the zero `PlayerData` when there is none |
| ClientRoomCodec.DeserializeRoom | sp/client/src/StateMachine.go:769-815 | a big-int id, a string name and two small ints; `INVALID_ROOM` as soon as a field fails |
| ClientRoomCodec.RoomRoundTrip | sp/client/src/StateMachine.go:769-815 | `deserializeRoom` reads back every room entry the writers produce, whatever follows it |
| ClientRoomCodec.NextVarInt | sp/client/src/StateMachine.go:596-605 | the `readVarInt` closure returns the value and moves `2 + countDigits(value)` bytes on |
| ClientRoomCodec.OffsetTrustsTheValue | sp/client/src/StateMachine.go:596-605 | the offset follows the value, not the count read: `"03007"` is read as 7 but moves only three bytes |
| ClientRoomCodec.KeepFirst | sp/client/src/StateMachine.go:716-728 | a nickname already in the table keeps its entry, and a new one is added |
| ClientRoomCodec.DeserializeRoomState | sp/client/src/StateMachine.go:587-732 | pot, current bet, the cards, the player's own fields on a reconnect, then the seats; `None` on the first failed read |
| ClientRoomCodec.PlayersNext | sp/client/src/StateMachine.go:682-728 | every list of seats the writers produce is read back into the map that keeps each nickname's first entry |
| ClientRoomCodec.PlayersMapKeeps | sp/client/src/StateMachine.go:716-720 | on a reconnect, the player's own entry read first survives every seat that repeats its nickname |
| ClientRoomCodec.RoomStateRoundTrip | sp/client/src/StateMachine.go:587-732 | `deserializeRoomState` reads back every room state the writers produce: pot, bet, named cards, own fields and seats |
| ClientSession.Get | sp/client/src/StateMachine.go:344 | a map read yields the stored entry, or the zero value when the map is nil or lacks the key |
| ClientSession.Put | sp/client/src/StateMachine.go:346 | a map write panics on a nil map; otherwise it sets one key and keeps every other entry |
| ClientSession.InGameEnter | sp/client/src/StateMachine.go:282-304 | a nil player map becomes an empty table for the configured nickname; the own entry is rewritten with the configured chips, and every other entry is kept |
| ClientSession.Enter | sp/client/src/StateMachine.go:132-137 | entering `SendingInfo` sends `PINF` with the starting chips as a var int, `RequestingRooms` empties the room list, and only `InGame` touches the table |
| ClientSession.ValidateGameAction | sp/client/src/StateMachine.go:454-516 | accepted exactly when the action is `RDY1` or `GMLV`, or it is the player's own turn and the action is legal for the current bet and the player's chips |
| ClientSession.AcceptedActionIsCovered | sp/client/src/StateMachine.go:473-500 | an accepted `BETT` sends a positive amount within the chips, and an accepted `CALL` has a non-zero bet within the chips |
| ClientSession.InGameInput | sp/client/src/StateMachine.go:306-329 | a validated action is sent unchanged (`RDY1` marks the own entry ready first, and panics on a nil map), a refused one sends nothing, and going back sends `GMLV`; only the player map can change |
| ClientSession.LobbyInput | sp/client/src/StateMachine.go:205-220 | joining sends `JOIN` with `%04d` of what `Atoi` makes of the room id, its error dropped (0 on a syntax error, the 64-bit bound past it), and waits for the room |
| ClientSession.HandleInput | sp/client/src/StateMachine.go:47-55 | connecting starts a connection, cancelling disconnects, accepting a reconnect sends `RCON`, and only the game can panic |
| ClientSession.ConnectingNetwork | sp/client/src/StateMachine.go:81-96 | `PNOK` goes on to the player info, `FAIL` disconnects to the menu, and `RCON` offers a reconnect |
| ClientSession.SendingInfoNetwork | sp/client/src/StateMachine.go:143-158 | `PIOK` goes on to the room list, and `FAIL` disconnects |
| ClientSession.RequestingRoomsNetwork | sp/client/src/StateMachine.go:176-191 | a `ROOM` that decodes is stored under its id and answered once with `RMOK`; one that does not decode changes nothing and is answered once with `RMFL`; `DONE` moves to the lobby; anything else is ignored |
| ClientSession.JoiningRoomNetwork | sp/client/src/StateMachine.go:244-276 | an `RMST` that decodes becomes the table, is acknowledged with `STOK` and enters the game; otherwise the client returns to the lobby |
| ClientSession.PlayerJoined | sp/client/src/StateMachine.go:518-535 | adds the named player with the chips that follow; only that entry changes, and a nil map panics |
| ClientSession.PlayerAction | sp/client/src/StateMachine.go:537-578 | a payload with fewer than two `':'` is ignored; otherwise only the named player's entry changes, plus the current bet on `BETT` |
| ClientSession.PlayerActionOfKnownPlayer | sp/client/src/StateMachine.go:553-577 | for a known player, the entry gets the named action and amount, a bet or call raises the round bet, and a fold sets the fold flag |
| ClientSession.DealtCards | sp/client/src/StateMachine.go:360-381 | the two small ints of a `CDTP`, the second only when four bytes are there |
| ClientSession.TurnTo | sp/client/src/StateMachine.go:390-400 | every entry's turn flag is set for the named player only |
| ClientSession.GameDone | sp/client/src/StateMachine.go:427-446 | no cards, no pot, no bets, and every entry's per-round fields cleared |
| ClientSession.GameStart | sp/client/src/StateMachine.go:348-359 | pre-flop with empty hands and board and zero pot and bets |
| ClientSession.Replies | sp/client/src/StateMachine.go:331-450 | `CDTP` is answered `CDOK`, `SDWN` `SDOK`, `GMDN` `DNOK`, and nothing else is answered |
| ClientSession.TableUpdate | sp/client/src/StateMachine.go:331-450 | what each in-game message does to the table (a `CRVR` card is what `Atoi` makes of the payload, error dropped); `None` exactly where the handler panics |
| ClientSession.InGameNetwork | sp/client/src/StateMachine.go:331-450 | the table update, then the replies and a redraw; every message keeps the client in the game (`GMDN` only resets the table), and the handler panics exactly where the table update does |
| ClientSession.TurnHandOff | sp/client/src/StateMachine.go:390-400 | after `PTRN`, every entry stays and exactly the named one holds the turn |
| ClientSession.HandleNetwork | sp/client/src/StateMachine.go:222-232 | each state's network handler; in the lobby, only `RMUP` is answered, with `UPOK` |
| ClientSession.Start | sp/client/src/Gamethread.go:13-15 | the loop starts in `MainMenu` with its `Enter` run once |
| ClientSession.Apply | sp/client/src/Gamethread.go:36-44 | no next state keeps the state, and a next state runs `Exit`, then the new `Enter`, then a redraw |
| ClientSession.Step | sp/client/src/Gamethread.go:17-48 | `EvtQuit` sets `ShouldClose` and reaches no state, then the thread sends `NetShutdown` and signals done; an idle turn changes nothing; input and network events go to the current state's handler |
| ClientSession.NothingAfterQuit | sp/client/src/Gamethread.go:17-26 | once `ShouldClose` is set, no further event reaches a state |
| ClientSession.LoopExtendsOut | sp/client/src/Gamethread.go:17-49 | effects are only ever appended |
| ClientSession.EnterWf | sp/client/src/StateMachine.go:282-304 | every `Enter` establishes the screen and table invariant of the state it enters |
| ClientSession.InGameKeepsOwn | sp/client/src/StateMachine.go:331-450 | in-game network handling keeps the player map and the own entry |
| ClientSession.InGameInputKeepsOwn | sp/client/src/StateMachine.go:306-329 | in-game input keeps the player map and the own entry |
| ClientSession.StayKeepsScreen | sp/client/src/Gamethread.go:36-44 | a handler that does not move leaves the screen alone |
| ClientSession.StepKeepsWf | sp/client/src/Gamethread.go:17-45 | every turn of the loop keeps the client well-formed: the screen matches the state, and in the game the map exists and holds the own entry |
| ClientSession.LoopKeepsWf | sp/client/src/Gamethread.go:10-50 | the invariant holds from the start and through any run of events |
| ClientSession.OnlyShortPayloadsPanic | sp/client/src/StateMachine.go:518-578 | in the game, only a `PJIN` or `PACT` payload too short to read can crash the client |
| ClientSession.ShortJoinPanics | sp/client/src/StateMachine.go:518-524 | a `PJIN` whose nickname cannot be read from fewer than four bytes crashes the client |
| ServerWire.WriteSmInt | sp/server/src/RoomThread.cpp:88-89 | two digits worth the value |
| ServerWire.WriteBgInt | sp/server/src/RoomThread.cpp:88 | four digits worth the value |
| ServerWire.WriteNetStr | sp/server/src/RoomThread.cpp:88 | the length as four digits, then the bytes |
| ServerWire.ReadBgInt | sp/server/src/MainThread.hpp:104 | four leading digits and their value, otherwise nothing |
| ServerWire.BgIntRoundTrip | sp/server/src/MainThread.hpp:104 | the server reads back its own four-digit ints, whatever follows |
| ServerWire.ReadBgIntAgrees | sp/server/src/MainThread.hpp:104 | the server's `read_bg_int` accepts exactly what the client's `ReadBigInt` accepts, with the same value |
| ServerWire.CardText | sp/server/src/RoomThread.cpp:272-273 | `{:02}` of a card in a `u8`: two digits for every card, three for the empty-deck marker |
| ServerSerde.ReadSize | sp/server/src/MessageSerde.hpp:25-45 | four digits at `begin` give their value (at most 9999); fewer than four bytes or a non-digit give null; a `begin` past the end, where the unsigned subtraction wraps, is kept apart as out of bounds |
| ServerSerde.ReadVarStr | sp/server/src/MessageSerde.hpp:47-62 | at offset 0: the string of the declared size right after the size field, exactly when the size field is four digits and the size fits in `size() - 4`; never out of bounds |
| ServerSerde.ReadVarStrOverrun | sp/server/src/MessageSerde.hpp:54 | with `begin == 2`, a 10-byte payload announcing 5 bytes passes the check and reads past the end |
| ServerSerde.ReadVarStrChecked | sp/server/src/MessageSerde.hpp:47-62 | the corrected read takes the bound from `begin` and never reads past the end |
| ServerSerde.ReadVarStrAgreesAtZero | sp/server/src/MessageSerde.hpp:71-79 | at offset 0, the only offset `emit_msg` uses, both reads agree |
| ServerSerde.ResetParser | sp/server/src/MessageSerde.hpp:124-131 | clears everything except the message type |
| ServerSerde.ParseByte | sp/server/src/MessageSerde.hpp:133-217 | the server's frame automaton step |
| ServerSerde.ParseBytes | sp/server/src/MessageSerde.hpp:226-305 | both overloads: the chunk's verdict, the code and payload of a completed frame, and the number of bytes consumed |
| ServerSerde.StepAgrees | sp/server/src/MessageSerde.hpp:133-217 | the server's and the client's byte steps are the same automaton |
| ServerSerde.ScanAgrees | sp/server/src/MessageSerde.hpp:226-264 | a whole scan agrees with the client's `Feed` |
| ServerSerde.StaleTypeInvisible | sp/server/src/MessageSerde.hpp:124-131 | the type field that reset leaves behind is overwritten before anything reads it |
| ServerSerde.ResetMatchesClient | sp/server/src/MessageSerde.hpp:226-264 | after `reset_parser`, `parse_bytes` reports what a fresh client parser would |
| PlayerConn.Reset | sp/server/src/PlayerInfo.hpp:57-61 | clears the invalid count and the room index, and resets the parser |
| PlayerConn.Disconnect | sp/server/src/PlayerInfo.hpp:161-162 | marks the connection gone and changes nothing else |
| PlayerConn.Deliver | sp/server/src/PlayerInfo.hpp:126-135 | a completed `PING` only sets the liveness flag; any other frame is queued with its code and payload |
| PlayerConn.ParseChunk | sp/server/src/PlayerInfo.hpp:98-139 | each `parse_bytes` call sees only the unconsumed bytes; completed frames are delivered in order, and a parse error disconnects and abandons the rest |
| PlayerConn.Receive | sp/server/src/PlayerInfo.hpp:79-141 | a zero-byte read disconnects, and otherwise the chunk is parsed |
| PlayerConn.ParseChunkAppend | sp/server/src/PlayerInfo.hpp:98-139 | parsing `a + b` in one chunk is parsing `a`, then `b` |
| PlayerConn.ReceiveSplit | sp/server/src/PlayerInfo.hpp:79-141 | how the byte stream is split between `recv` calls does not matter |
| PlayerConn.PartialChunkWaits | sp/server/src/PlayerInfo.hpp:98-139 | a chunk ending inside a frame only moves the parser on |
| PlayerConn.FrameDelivered | sp/server/src/PlayerInfo.hpp:98-139 | a frame from the client's serialiser is delivered verbatim, and parsing resumes right after it |
| PlayerConn.StreamQueued | sp/server/src/PlayerInfo.hpp:98-139 | a chunk of client-serialised frames queues exactly the non-`PING` messages, in arrival order |
| RingBuffer.Advanced | sp/server/src/CircularBufferQueue.hpp:35-39 | the next slot, wrapping to 0 |
| RingBuffer.New | sp/server/src/CircularBufferQueue.hpp:30-40 | a fresh buffer holds nothing |
| RingBuffer.Read | sp/server/src/CircularBufferQueue.hpp:54-62 | the oldest item, removed; `nullopt` and no change when empty |
| RingBuffer.ReadShifts | sp/server/src/CircularBufferQueue.hpp:54-62 | a successful read removes the head of the contents |
| RingBuffer.Insert | sp/server/src/CircularBufferQueue.hpp:82-90 | refuses, changing nothing, exactly when `Size - 1` items are queued |
| RingBuffer.InsertAppends | sp/server/src/CircularBufferQueue.hpp:82-90 | an accepted insert appends to the contents |
| RingBuffer.WaitAndRead | sp/server/src/CircularBufferQueue.hpp:64-72 | returns the slot at `read_pos`, then advances |
| RingBuffer.WaitAndReadFixed | sp/server/src/CircularBufferQueue.hpp:64-72 | the corrected read advances, then returns the oldest item, as `read` does |
| RingBuffer.PeekReturnsLastRead | sp/server/src/CircularBufferQueue.hpp:50 | after a successful `read`, `peek` shows the item that read returned |
| RingBuffer.PeekIsNotNext | sp/server/src/CircularBufferQueue.hpp:50 | on a fresh buffer holding one item, `peek` shows the unused slot 0 |
| RingBuffer.PeekFixed | sp/server/src/CircularBufferQueue.hpp:50 | the corrected peek shows what `read` would return, without moving |
| RingBuffer.WaitAndInsert | sp/server/src/CircularBufferQueue.hpp:92-99 | once there is space, the same as `insert` |
| RingBuffer.NewIsEmpty | sp/server/src/CircularBufferQueue.hpp:30-40 | reading a fresh buffer yields `nullopt` |
| RingBuffer.ScenarioCapacity | sp/server/exp/main.cpp:67-68 | two inserts into a three-slot buffer succeed, and a third is refused |
| RingBuffer.ScenarioStaleRead | sp/server/exp/main.cpp:87-102 | after reading 1 and 2 and inserting 3, `wait_and_read` hands back 2 again |
| RingBuffer.InsertAllFits | sp/server/src/CircularBufferQueue.hpp:82-90 | items that fit are all accepted and queued behind the contents |
| RingBuffer.DrainAll | sp/server/src/CircularBufferQueue.hpp:54-62 | repeated reads return the contents in order and leave the buffer empty |
| RingBuffer.FifoOrder | sp/server/src/CircularBufferQueue.hpp:54-90 | what is inserted into an empty buffer is read back in the same order |
| Deck.Reset | sp/server/src/RoomThread.cpp:18-22 | 52 cards in the shuffled order |
| Deck.ShuffleHoldsEachCardOnce | sp/server/src/RoomThread.cpp:18-22 | a shuffled deck holds each of the 52 cards exactly once |
| Deck.Draw | sp/server/src/RoomThread.cpp:10-16 | the last card, removed; `NO_CARD` and no change when empty |
| Deck.DrawNTakesTop | sp/server/src/RoomThread.cpp:10-16 | `n` draws take the top `n` cards from the back and leave the rest: nothing lost, duplicated or invented |
| Deck.DrawNEmpty | sp/server/src/RoomThread.cpp:10-16 | drawing from an empty deck only yields `NO_CARD` |
| Deck.DrawnAreFresh | sp/server/src/RoomThread.cpp:10-16 | cards drawn from a deck without repeats are distinct and no longer in the deck |
| Deck.DealHandsFromTop | sp/server/src/RoomThread.cpp:266-275 | hand `j` holds the cards at deal position `j`, and the bottom of the deck is left |
| Deck.DealtCardsDistinct | sp/server/src/RoomThread.cpp:266-275 | different deal positions hold different cards, none of them left in the deck |
| PokerScoring.RankOf | sp/server/src/PokerScoring.hpp:20 | a card's rank is below 13 |
| PokerScoring.SuitOf | sp/server/src/PokerScoring.hpp:21 | a card's suit is below 4 |
| PokerScoring.ScoreOrder | sp/server/src/PokerScoring.hpp:10-17 | the score order is a strict total order with fieldwise equality, and `>` is its converse |
| PokerScoring.MakeCounts | sp/server/src/PokerScoring.hpp:28-39 | per rank and per suit, how many cards have it, and how many ranks are held exactly `k` times |
| PokerScoring.FindStraightHigh | sp/server/src/PokerScoring.hpp:44-73 | the highest `h` with ranks `h-4..h` all held; otherwise the wheel's five; otherwise none |
| PokerScoring.FillTakesHighest | sp/server/src/PokerScoring.hpp:147-163 | a held rank the kicker loop skipped lies below everything it took |
| PokerScoring.TryStraightFlush | sp/server/src/PokerScoring.hpp:75-94 | a straight among the cards of the first suit held five times |
| PokerScoring.TryFourOfAKind | sp/server/src/PokerScoring.hpp:96-103 | the highest quad that has a kicker, with the highest kicker; none when no quad has one |
| PokerScoring.TryFullHouse | sp/server/src/PokerScoring.hpp:105-118 | scores exactly when some rank is held three times and another twice, with the highest trips and the highest other pair |
| PokerScoring.TryFlush | sp/server/src/PokerScoring.hpp:120-139 | scores exactly when a suit is held five times, with its five highest ranks, highest first |
| PokerScoring.TryStraight | sp/server/src/PokerScoring.hpp:141-145 | scores exactly when a straight is held |
| PokerScoring.TryThreeOfAKind | sp/server/src/PokerScoring.hpp:147-163 | scores exactly when some rank is held exactly three times, with the highest such rank and two kickers |
| PokerScoring.TryTwoPair | sp/server/src/PokerScoring.hpp:165-188 | the two highest pairs and the highest other held rank |
| PokerScoring.TwoPairExactly | sp/server/src/PokerScoring.hpp:165-188 | scores exactly when two ranks are held exactly twice and two pairs with a kicker beside them exist |
| PokerScoring.TryOnePair | sp/server/src/PokerScoring.hpp:190-206 | scores exactly when a rank is held twice, with the highest pair and three kickers |
| PokerScoring.Evaluate | sp/server/src/PokerScoring.hpp:209-239 | the category lies in 0..8 and there are always five tie-breakers; which category wins is `EvaluateAtLeastMatch`, `EvaluateIsCategoryScore` and `HighCardIsLastResort` |
| PokerScoring.EvaluateAtLeastMatch | sp/server/src/PokerScoring.hpp:209-239 | the score is never below a category whose scorer accepts the cards, for each of the eight categories above high card |
| PokerScoring.EvaluateIsCategoryScore | sp/server/src/PokerScoring.hpp:209-239 | a score above high card is exactly what its own category's scorer gives the cards |
| PokerScoring.HighCardIffNothing | sp/server/src/PokerScoring.hpp:228-238 | high card exactly when no rank is held twice, no suit five times and no straight is present, with the five highest ranks |
| PokerScoring.HighCardIsLastResort | sp/server/src/PokerScoring.hpp:209-239 | high card is what the evaluation falls through to, and only then |
| PokerScoring.NoCategoryIff | sp/server/src/PokerScoring.hpp:209-239 | nothing above high card matches exactly when no pair, no flush and no straight is held |
| PokerScoring.QuadsDetected | sp/server/src/PokerScoring.hpp:96-103 | a rank held four times among seven cards always scores at least four of a kind |
| SeatRoom.ResetRound | sp/server/src/RoomThread.cpp:25 | no chips in the pot this round |
| SeatRoom.ResetGame | sp/server/src/RoomThread.cpp:27-32 | the seat is cleared for the next hand and keeps its player, connection and chips |
| SeatRoom.CountActivePlayers | sp/server/src/RoomThread.cpp:38-44 | how many seats are taken and connected, at most four |
| SeatRoom.Broadcast | sp/server/src/RoomThread.cpp:46-52 | every active seat is sent the message, and nothing else changes |
| SeatRoom.SendTo | sp/server/src/RoomThread.cpp:54-61 | only seat `i`, when it exists and is active, is sent the message |
| SeatRoom.BroadcastThenRest | sp/server/src/RoomThread.cpp:46-52 | broadcasting one message and then the others is broadcasting them all |
| SeatRoom.ToPayloadString | sp/server/src/RoomThread.cpp:82-90 | the listing reads back through the client's `deserializeRoom` as the id, the name, the number of seats taken and the four-seat capacity, whenever id and name fit their four-digit fields |
| SeatRoom.SeatPlayer | sp/server/src/RoomThread.cpp:129-158 | a seat left behind under the nickname is reclaimed first, then the first free seat is taken with 1000 chips; otherwise the player goes back |
| SeatRoom.SeatPlayerChoice | sp/server/src/RoomThread.cpp:129-158 | the seat chosen is the earliest reclaimable seat, else the earliest free one, and no other seat changes |
| SeatRoom.ProcessIncoming | sp/server/src/RoomThread.cpp:124-163 | every queued player, in order, is seated or sent back |
| SeatRoom.IncomingAccounted | sp/server/src/RoomThread.cpp:124-163 | nobody queued is lost: each player ends up seated with their connection or back in the lobby |
| SeatRoom.OccupancyBounded | sp/server/src/RoomThread.cpp:124-163 | at most four seats are taken, and a player sent back found every seat taken |
| SeatRoom.LobbyEnter | sp/server/src/RoomThread.cpp:207-224 | `GMLB` to the active players, dropped seats given up, every seat reset, an empty pot and a fresh deck |
| SeatRoom.LobbyTick | sp/server/src/RoomThread.cpp:230-251 | every seat is replaced by its cleared form (a dropped player's seat is given up) and nothing but the seats changes |
| SeatRoom.LobbyTickStarts | sp/server/src/RoomThread.cpp:230-251 | dealing starts exactly when at least two players are active and all of them are ready |
| SeatRoom.LobbyMessage | sp/server/src/RoomThread.cpp:253-259 | `RDY1` marks the seat ready and tells everyone `RDOK` with the seat; other messages do nothing |
| SeatRoom.DealingEnter | sp/server/src/RoomThread.cpp:261-276 | the game is announced, play starts pre-flop, and every active, ready seat gets two cards |
| SeatRoom.DealingEnterSends | sp/server/src/RoomThread.cpp:261-276 | active players get `GMST`; a dealt seat then gets its two `CDTP` and changes only in its hand |
| SeatRoom.DealingFromTop | sp/server/src/RoomThread.cpp:266-275 | the seat with `r` dealt seats before it gets the `r`-th pair from the back of the deck |
| SeatRoom.DealingDealsDistinct | sp/server/src/RoomThread.cpp:266-275 | no card is dealt twice, and none dealt stays in the deck |
| SeatRoom.CommunityEnter | sp/server/src/RoomThread.cpp:287-308 | the phase advances, that phase's cards are drawn onto the board and each one is shown to everyone |
| SeatRoom.CommunityDraws | sp/server/src/RoomThread.cpp:287-308 | the new cards are that phase's count from the back of the deck, in draw order |
| SeatRoom.CommunityEnterShows | sp/server/src/RoomThread.cpp:302-307 | every active player is shown each new card in order, and nothing else about the seats changes |
| SeatRoom.BoardFillsToFive | sp/server/src/RoomThread.cpp:287-308 | flop, turn and river fill the board to five cards, and no further card is drawn |
| SeatRoom.BoardIsTopFive | sp/server/src/RoomThread.cpp:287-308 | a hand's board is the five cards from the back of the deck, in draw order |
| SeatRoom.Rotation | sp/server/src/RoomThread.cpp:330-338 | the seats round the table from `start`, in order, that have their flag set, except `skip` |
| SeatRoom.RotationComplete | sp/server/src/RoomThread.cpp:330-338 | every flagged seat other than `skip` is in the queue |
| SeatRoom.RequeueOthers | sp/server/src/RoomThread.cpp:366-380 | after a bet, every other seat still in the hand is queued once, round the table from the bettor |
| SeatRoom.NextTurn | sp/server/src/RoomThread.cpp:347-364 | the first queued seat still in the hand acts next; -1 when nobody does |
| SeatRoom.StartNextTurn | sp/server/src/RoomThread.cpp:347-364 | the next actor is announced to everyone as `TURN` |
| SeatRoom.BettingEnter | sp/server/src/RoomThread.cpp:319-345 | a fresh round: nothing bet, round bets cleared, and the active, unfolded, ready seats queued from the one after the dealer |
| SeatRoom.BettingOpensWithStarter | sp/server/src/RoomThread.cpp:319-345 | the first actor is active, unfolded and ready, and nobody acts exactly when no seat is all three |
| SeatRoom.BettingTick | sp/server/src/RoomThread.cpp:386-394 | with nobody left to act: the showdown after the river, otherwise more cards |
| SeatRoom.Fold | sp/server/src/RoomThread.cpp:406-411 | the seat is out of the hand and everyone is told |
| SeatRoom.Check | sp/server/src/RoomThread.cpp:412-420 | allowed only with nothing to match |
| SeatRoom.Call | sp/server/src/RoomThread.cpp:452-470 | with nothing bet, a check; otherwise the seat matches the bet, or goes all in when it cannot |
| SeatRoom.Bet | sp/server/src/RoomThread.cpp:421-450 | once per round: the amount goes in, becomes the bet to match, and the others still in the hand are queued again |
| SeatRoom.ActConserves | sp/server/src/RoomThread.cpp:406-470 | every action moves chips only between the acting seat and the pot |
| SeatRoom.ActKeepsStakes | sp/server/src/RoomThread.cpp:421-450 | when `BETT` refuses non-positive amounts, every action keeps the betting invariant and never takes from the pot |
| SeatRoom.OutOfTurnRefused | sp/server/src/RoomThread.cpp:396-405 | a message from a seat whose turn it is not only earns that seat `ERR_` |
| SeatRoom.BettingMessageConserves | sp/server/src/RoomThread.cpp:396-475 | chips move only between the sender and the pot |
| SeatRoom.BettingMessageAsWritten | sp/server/src/RoomThread.cpp:396-475 | the handler as written: chips still move only between the sender and the pot |
| SeatRoom.NegativeBetDrainsPot | sp/server/src/RoomThread.cpp:430-433 | a `BETT` of `-50` on the actor's turn passes `chips < amount` and moves 50 chips from the pot to the actor |
| SeatRoom.NegativeBetAmount | sp/server/src/RoomThread.cpp:430 | `std::stoi` reads the negative amount back from the payload |
| SeatRoom.BettingMessage | sp/server/src/RoomThread.cpp:396-475 | the corrected handler refuses non-positive bets, so the betting invariant holds and the pot never shrinks |
| SeatRoom.ShowdownEnter | sp/server/src/RoomThread.cpp:477-480 | `GMDN` to every active player and nothing else: the pot is not paid out |
| SeatRoom.Enter | sp/server/src/RoomThread.cpp:207-480 | each state's `on_enter` leads to the matching stage |
| SeatRoom.Tick | sp/server/src/RoomThread.cpp:100-122 | a tick keeps the stage or moves along lobby, dealing, betting, cards or showdown, lobby; the showdown only follows the river |
| SeatRoom.OnMessage | sp/server/src/RoomThread.cpp:253-259 | the corrected states' `on_message`: the lobby takes `RDY1`, and betting takes the actions with positive bets only |
| SeatRoom.OnMessageAsWritten | sp/server/src/RoomThread.cpp:396-475 | the states' `on_message` as written: well-formed, with chips moving only between the sender and the pot |
| SeatRoom.Leave | sp/server/src/RoomThread.cpp:181-191 | `GMLV`: the seat's connection goes back to the lobby, and the seat is freed with an empty nickname and no connection; nothing else changes |
| SeatRoom.NetworkMessage | sp/server/src/RoomThread.cpp:179-197 | one message read from an active seat: `GMLV` is handled by the room, and anything else by the state |
| SeatRoom.SeatBatchAsWritten | sp/server/src/RoomThread.cpp:179-197 | the read loop as written: it continues after `GMLV`, so the connection is handed back once per `GMLV` in the batch |
| SeatRoom.LeaveTwiceReturnsTwice | sp/server/src/RoomThread.cpp:181-191 | two `GMLV` in one batch hand the same connection to the lobby twice |
| SeatRoom.ReadyAfterLeave | sp/server/src/RoomThread.cpp:179-197 | an `RDY1` after `GMLV` in the same batch marks the freed seat ready |
| SeatRoom.SeatBatch | sp/server/src/RoomThread.cpp:179-197 | the corrected loop stops at the first `GMLV`, returning the connection at most once and leaving the seat free |
| SeatRoom.NothingAfterLeave | sp/server/src/RoomThread.cpp:179-197 | with the fix, whatever follows a `GMLV` in the batch is dropped |
| SeatRoom.Disconnect | sp/server/src/RoomThread.cpp:168-175 | a dropped connection is let go and the seat is no longer ready but stays taken |
| SeatRoom.Admit | sp/server/src/RoomThread.cpp:124-163 | the room's seats after the queued players, and the players sent back |
| SeatRoom.EnterSolvent | sp/server/src/RoomThread.cpp:207-480 | every `on_enter` keeps the pot and stacks non-negative, and entering betting starts the betting invariant |
| SeatRoom.TickSolvent | sp/server/src/RoomThread.cpp:100-122 | a tick keeps the money invariant |
| SeatRoom.EventsSolvent | sp/server/src/RoomThread.cpp:100-205 | with the corrected `BETT`, whatever players send and whoever joins or drops, the money invariant holds and the pot does not shrink during betting |
| SeatRoom.ShowdownDiscardsPot | sp/server/src/RoomThread.cpp:477-489 | the tick after the showdown returns to the lobby with an empty pot, and every connected player keeps exactly the chips they had |
| LegacyRoom.NewRoom | sp/server/src/RoomThread.hpp:458-464 | an empty room waiting to start, with four seats |
| LegacyRoom.ToPayloadString | sp/server/src/RoomThread.hpp:475-479 | the listing reads back through the client's `deserializeRoom` as the room's id, name, occupancy and capacity, whenever each fits its field (a four-digit id, a name of at most 9999 characters, two-digit counts) |
| LegacyRoom.AcceptPlayer | sp/server/src/RoomThread.hpp:488-491 | one more player, one more counted |
| LegacyRoom.SyncContexts | sp/server/src/RoomThread.hpp:421-426 | one fresh context per player |
| LegacyRoom.HandleLobbyReady | sp/server/src/RoomThread.hpp:182-188 | the player is marked ready and everyone is told `RDOK` |
| LegacyRoom.CheckStartConditions | sp/server/src/RoomThread.hpp:308-338 | the room is dealing afterwards exactly when it has two or more players, one context each, all ready (or was dealing already); on starting, the pot is cleared, the phase is pre-flop, the board empty, the deck fresh and `GMST` is broadcast; otherwise state and messages are untouched |
| LegacyRoom.ReadyAll | sp/server/src/RoomThread.hpp:308-338 | everyone readying in a lobby of two or more makes the next check start the game |
| LegacyRoom.AdvancePhase | sp/server/src/RoomThread.hpp:293-306 | after the river comes the showdown, and otherwise the next street |
| LegacyRoom.StartNextTurnOrPhase | sp/server/src/RoomThread.hpp:251-272 | disconnected queued players are folded and skipped; the first connected one gets the turn, or the phase advances |
| LegacyRoom.StartNextTurnFacts | sp/server/src/RoomThread.hpp:251-272 | what is left is a suffix of the queue whose skipped prefix was disconnected and is now folded |
| LegacyRoom.RequeueActivePlayers | sp/server/src/RoomThread.hpp:274-291 | every non-folded player other than the aggressor is queued once, in seat order |
| LegacyRoom.RequeueFromComplete | sp/server/src/RoomThread.hpp:274-291 | no eligible seat is missed |
| LegacyRoom.RequeueFromDistinct | sp/server/src/RoomThread.hpp:274-291 | the queue stays free of repeats |
| LegacyRoom.SendError | sp/server/src/RoomThread.hpp:446-450 | `ERR_` to that player only |
| LegacyRoom.ApplyFold | sp/server/src/RoomThread.hpp:194-197 | always accepted; the player folds |
| LegacyRoom.ApplyCheck | sp/server/src/RoomThread.hpp:198-205 | accepted only with nothing to call |
| LegacyRoom.ApplyCall | sp/server/src/RoomThread.hpp:206-219 | always accepted: the player matches the high bet and the pot takes the difference |
| LegacyRoom.ApplyBet | sp/server/src/RoomThread.hpp:220-243 | accepted once per round with a positive amount, which becomes the high bet |
| LegacyRoom.ActionConservesStake | sp/server/src/RoomThread.hpp:190-243 | the pot changes by exactly what the actor's round bet gains |
| LegacyRoom.HandleBettingAction | sp/server/src/RoomThread.hpp:190-249 | pot and high bet are those the action left; a refused action leaves the room as the action left it (with its error reply); an accepted actor is no longer queued |
| LegacyRoom.DispatchMessage | sp/server/src/RoomThread.hpp:159-180 | waiting: only `RDY1` counts; betting: only the player at the front of the queue is heard |
| LegacyRoom.ProcessAllPlayersMessages | sp/server/src/RoomThread.hpp:140-157 | after dispatching, the room has exactly one context per connected player |
| LegacyRoom.PrepareNewBettingRound | sp/server/src/RoomThread.hpp:372-386 | nothing is bet yet, the pot, board, deck, hands and readiness are kept, only connected players are queued; an empty queue moves on to the next phase |
| LegacyRoom.PrepareQueuesActivePlayers | sp/server/src/RoomThread.hpp:372-386 | each active player is queued exactly once, and nobody else |
| LegacyRoom.RevealNextCards | sp/server/src/RoomThread.hpp:359-370 | three cards on the flop and one otherwise, drawn onto the board and announced |
| LegacyRoom.RevealTakesTop | sp/server/src/RoomThread.hpp:359-370 | the new cards are the top of the deck, in draw order |
| LegacyRoom.BoardFillsToFive | sp/server/src/RoomThread.hpp:359-370 | from an empty board and a deck of at least five, the flop, turn and river reveals (with the betting between them keeping board and deck) leave a five-card board, the five from the back of the deck in draw order, and the deck without them |
| LegacyRoom.FlopReveal | sp/server/src/RoomThread.hpp:359-370 | the flop onto an empty board is the three cards from the back of the deck, in draw order, and they leave the deck |
| LegacyRoom.OneMoreReveal | sp/server/src/RoomThread.hpp:359-370 | the turn and the river each put the card from the back of the deck onto the board |
| LegacyRoom.DealMessages | sp/server/src/RoomThread.hpp:340-357 | each player is sent their two cards as `CDTP`, in order |
| LegacyRoom.PerformDeal | sp/server/src/RoomThread.hpp:340-357 | contexts reset, two cards each from the back of the deck, then the first betting round |
| LegacyRoom.PerformDealFromTop | sp/server/src/RoomThread.hpp:340-357 | player `j` gets the `j`-th pair from the back of the deck |
| LegacyRoom.DealtHandsDisjoint | sp/server/src/RoomThread.hpp:340-357 | no card is dealt twice, and none dealt stays in the deck |
| Lobby.ServerRooms | sp/server/src/MainThread.hpp:155-167 | rooms 1 to 4, named `Room 1` to `Room 4`, all open to join |
| Lobby.SendRoomInfo | sp/server/src/MainThread.hpp:139-152 | the next room's listing as `ROOM`, advancing the index, and `DONE` past the last room |
| Lobby.ProcessBatch | sp/server/src/MainThread.hpp:59-137 | queued messages are handled until the queue or the budget runs out or a joinable room is named |
| Lobby.ProcessPlayerMessages | sp/server/src/MainThread.hpp:59-137 | at most `MSG_BATCH_SIZE` messages per tick |
| Lobby.JoinChoosesFirstJoinable | sp/server/src/MainThread.hpp:102-124 | `JOIN` picks room `i` exactly when it is the first room with that id and it can be joined; a full room answers `FAIL` |
| Lobby.MalformedJoinCrashes | sp/server/src/MainThread.hpp:104-110 | a `JOIN` without four leading digits queues `FAIL` and then throws |
| Lobby.ConnectedHandshake | sp/server/src/MainThread.hpp:78-85 | while connected, only `CONN` does anything, answering `00OK` |
| Lobby.RoomListing | sp/server/src/MainThread.hpp:86-101 | `RMRQ`, then one `00OK` per room, yields one `ROOM` per room in order, then one `DONE` |
| Lobby.EraseCounts | sp/server/src/MainThread.hpp:45 | erasing keeps every other element |
| Lobby.MoveAsWritten | sp/server/src/MainThread.hpp:41-46 | the saved pairs are applied in saving order; each erases at its saved index, failing past the end |
| Lobby.ShiftedMove | sp/server/src/MainThread.hpp:41-46 | with three players of whom the first two join, the first and the third are handed over |
| Lobby.MoveRunsOffTheEnd | sp/server/src/MainThread.hpp:41-46 | with two players who both join, the second saved index is past the end |
| Lobby.MoveAgreesOnOne | sp/server/src/MainThread.hpp:41-46 | with at most one saved pair, the code as written and the fix agree |
| Lobby.MoveFixed | sp/server/src/MainThread.hpp:41-46 | with the fix, each saved pair removes exactly one lobby player and hands over exactly one |
| Lobby.MoveFixedHandsRequesters | sp/server/src/MainThread.hpp:41-46 | with the fix, the `k`-th player handed over is the one whose pair was saved `k`-th, and everyone else stays |
| Lobby.DropDisconnected | sp/server/src/MainThread.hpp:48-51 | only connected players stay, and every connected player stays |
| Lobby.ProcessAllCrashes | sp/server/src/MainThread.hpp:33-39 | the tick survives exactly when no player's batch throws |
| Lobby.LobbyTick | sp/server/src/MainThread.hpp:27-57 | the corrected tick: every player handed over named a room that could take them, the remaining lobby is connected, and no one is added |
| Lobby.LobbyTickAsWritten | sp/server/src/MainThread.hpp:27-57 | the tick as written, which fails whenever the corrected tick does, and also when an erase runs past the end |
| Lobby.AdmitAsWritten | sp/server/src/MainThread.hpp:44 | `accept_player` on each chosen room, without checking it again |
| Lobby.LastSeatTwice | sp/server/src/MainThread.hpp:116 | two players asking for a room's last seat in one tick are both admitted, one over capacity |
| Lobby.AdmitChecked | sp/server/src/MainThread.hpp:41-46 | the corrected hand-over keeps every room within capacity if it was, rooms only gain players, and at most the handed players are turned back |
| Lobby.AdmitCheckedAgrees | sp/server/src/MainThread.hpp:41-46 | where the rooms have space for everyone sent to them, both hand-overs agree |
| Lobby.ServerTick | sp/server/src/MainThread.hpp:27-57 | the corrected pass keeps every room within capacity, and fails exactly when the corrected tick fails |
| Lobby.ServerTickAsWritten | sp/server/src/MainThread.hpp:27-57 | the pass as written: each room gains exactly the players sent to it, whatever its capacity |

`SeatRoom.OnMessage`, `SeatRoom.EventsSolvent`, `SeatRoom.TickSolvent`,
`Lobby.LobbyTick` and `Lobby.ServerTick` describe the program with the fixes
from "## Findings" applied:

- `OnMessage` refuses a `BETT` that is not positive. `RoomThread.cpp` has no
  such check.
- `LobbyTick` applies the moves from last to first. `MainThread.hpp` applies
  them in the order they were saved.
- `ServerTick` checks a room again before admitting. `MainThread.hpp` does
  not.

The code as written is `OnMessageAsWritten`, `SeatBatchAsWritten`,
`LobbyTickAsWritten` and `ServerTickAsWritten`. Their contracts state what
still holds there: chips only move between the sender and the pot, and the
tick fails in every case the corrected tick fails. The findings' lemmas show
what breaks.

## Left out

- ClientHelpers.CountDigits: Go computes `floor(log10(|n|)) + 1` in floating point through `math.Log10`; the model counts digits on integers, so the rounding that can put the float result one off next to large powers of ten is not modelled.
- DecimalText.NumDigits: the same integer digit count stands for `math.Log10` in `WriteVarInt`, with the same float rounding not modelled.
- ClientSerde.VarIntRoundTrip: the round trip is proved for the exact integer digit count only; where Go's float count at serde.go:322-324 comes out one off (a value such as 9999999999999999 rounds up to 1e16 on conversion to `float64`, so its count would be 17 for 16 digits), `WriteVarInt` would announce a count that disagrees with the `%d` after it and `ReadVarInt` would read the wrong number of bytes.
- ClientHelpers.CountDigitsIsVarIntPrefix: holds for the exact integer digit count only; a float count one off at Helpers.go:28-30, from the same rounding, would move `deserializeRoomState`'s offset to the wrong byte.
- PlayerConn.Receive: a negative return from `recv` (`bytes_read < 0`, an error other than a closed peer) is not modelled; only a zero-byte read and a chunk of bytes are.
- RingBuffer.WaitAndRead: blocking is not modelled. Where the source would wait, `WaitAndRead` (empty buffer) and `WaitAndInsert` (full buffer) return `None`. Condition variables, mutexes and the threads on either side are left out.
- PlayerConn: each connection's message queue is an unbounded sequence, not the ring buffer with its capacity, and `wait_and_insert` on a full queue, which blocks the sender, is not modelled.
- ServerWire: `write_sm_int`, `write_bg_int`, `write_net_str` and `read_bg_int` are defined outside the server files this model covers. Their definitions here follow their call sites and the `{:02}` / `{:04}` formats the server uses next to them.
- LegacyRoom: `process_timeout_logic` (`RoomThread.hpp`:388-400) folds a player whose turn has run past `TURN_TIMEOUT_SECONDS`. The turn deadline set at `RoomThread.hpp`:269 and all clock reads are not modelled, because the model has no clock.
- SeatRoom.ShowdownEnter: the showdown pays the pot to nobody. `ShowdownDiscardsPot` states this, but no payout is modelled, because the source names no rule for it: `determine_winner_and_reset` in `RoomThread.hpp` is marked as a placeholder for the win logic.
- SeatRoom.BettingMessageAsWritten: seat chips are modelled as a signed integer. `PlayerSeat` is declared outside RoomThread.cpp, and the only chips field in view, `PlayerInfo::chips` (PlayerInfo.hpp:40), is `u64`; were `PlayerSeat::chips` unsigned too, `seat.chips < amount` at RoomThread.cpp:435 would convert a negative amount to a huge unsigned one and refuse it, and `NegativeBetDrainsPot` would not describe the program.
- SeatRoom.NetworkMessage: it describes one message from an active seat; the rest of the batch after a `GMLV`, where the seat is no longer active, is `SeatBatchAsWritten` and `SeatBatch`.
- SeatRoom: `PlayerSeat` and `RoomContext` are declared outside `RoomThread.cpp`; their fields and defaults (an empty seat: not taken, no connection, no chips) are read off their uses.
- SeatRoom: `on_leave` of every state only logs and is not modelled.
- Lobby: `flush_messages` before a move and `send_messages` after a batch only write to sockets and are modelled as no change.
- ClientSession.PlayerAction: as in the source, the handler does not touch the pot; it changes only the named entry and, on `BETT`, the current bet.
- ClientSession.PlayerAction: `RoundBet +=` on Go's 64-bit `int` would wrap on overflow; the model adds without wrapping.
- ClientSession.PlayerAction: its only caller is the `PACT` case of the in-game network handler (`StateMachine.go`:414-416), which already holds `StateMutex` from 332-333; Go's mutex is not re-entrant, so every `PACT` whose payload gets past the `':'` check and the field reads blocks for good at 550. The model has no locks and describes what the handler's body would do to the table; the deadlock is not modelled.
- ClientSession.JoiningRoomNetwork: `deserializeRoomState` returns a partial table with its error, which the caller discards; the model returns `None` at the first failed read.
- ClientSession: the game thread reads `NetEvent` values from its channel but passes them as `NetMsg`; the model takes the messages as `NetMsg`.
- ClientSession: popups, logging, the UI dirty flag beyond one `Redraw` effect per transition, window drawing and the 10 ms sleep of the idle branch are left out.
- ClientSession: `startConnection` runs a goroutine that dials the server; the model records a `StartConnection` effect.
- ClientRoomCodec.DeserializeRoomState: the card count and player count loops use Go's `for range n`; the model reads exactly `n` items and does not model a negative count.
- Sockets, `accept`, `poll`, threads and `sleep_for` in `MainThread.hpp`, `SockPool.hpp` and `SockWrapper.hpp` are I/O, and are left out.
- The random shuffle is a parameter (`Deck.IsShuffle(order)`): any permutation of the 52 cards.
- The UI windows under `sp/client/window` and the older client under `sp/client/*.go` are not part of this model.

## Findings

| source | as written | input that shows it | evidently intended | confidence | as-written member | corrected member |
|---|---|---|---|---|---|---|
| sp/client/ups_net/network.go:119-126 | a payload's length is written with `%04d`, so a payload of 10000 or more bytes gets a five-digit length | a message with a 10000-byte payload | refuse payloads that do not fit the four-digit length field | not executed | FrameWriter.ToString, FrameWriter.OversizedPayloadNotRecovered | FrameWriter.ToFrame, FrameWriter.ToFrameRoundTrip |
| sp/server/src/MessageSerde.hpp:54 | `read_var_str` checks the declared size against `size() - 4`, ignoring `begin` | a 10-byte payload, `begin == 2`, size field `0005` | check against `size() - begin - 4` | not executed | ServerSerde.ReadVarStr, ServerSerde.ReadVarStrOverrun | ServerSerde.ReadVarStrChecked, ServerSerde.ReadVarStrAgreesAtZero |
| sp/server/src/CircularBufferQueue.hpp:64-72 | `wait_and_read` returns the slot at `read_pos` and only then advances, so it returns the last item read instead of the next one | insert 1 and 2 into a three-slot buffer, `read` both, insert 3, `wait_and_read` | advance first, then return, as `read` does | not executed | RingBuffer.WaitAndRead, RingBuffer.ScenarioStaleRead | RingBuffer.WaitAndReadFixed, RingBuffer.FifoOrder |
| sp/server/src/CircularBufferQueue.hpp:50 | `peek` returns the slot at `read_pos`, the last one read | a fresh buffer holding one item | return the item `read` would return | not executed | RingBuffer.PeekReturnsLastRead, RingBuffer.PeekIsNotNext | RingBuffer.PeekFixed |
| sp/server/src/MainThread.hpp:41-46 | players are erased by the indices saved before the loop, in ascending order, so each erase shifts the later indices | three lobby players, the first two both sending a valid `JOIN` | erase from the highest saved index down | not executed | Lobby.MoveAsWritten, Lobby.ShiftedMove, Lobby.MoveRunsOffTheEnd, Lobby.LobbyTickAsWritten | Lobby.MoveFixed, Lobby.MoveFixedHandsRequesters, Lobby.LobbyTick |
| sp/server/src/MainThread.hpp:116 | `can_player_join` is checked while messages are read, before any player of the tick is admitted, and `accept_player` does not check again | a room with one free seat and two lobby players joining it in the same tick | admit only while the room has space | not executed | Lobby.AdmitAsWritten, Lobby.LastSeatTwice, Lobby.ServerTickAsWritten | Lobby.AdmitChecked, Lobby.AdmitCheckedAgrees, Lobby.ServerTick |
| sp/server/src/RoomThread.cpp:430-433 | `BETT` checks only `chips < amount`, so a negative amount passes | `BETT` with payload `-50` from the seat whose turn it is | refuse amounts that are not positive, as the client does | not executed; holds only if `PlayerSeat::chips` is a signed integer, whose declaration is outside RoomThread.cpp (were it unsigned like `PlayerInfo::chips`, `-50` would convert to a huge value and be refused) | SeatRoom.BettingMessageAsWritten, SeatRoom.OnMessageAsWritten, SeatRoom.NegativeBetDrainsPot | SeatRoom.BettingMessage, SeatRoom.OnMessage, SeatRoom.EventsSolvent |
| sp/server/src/RoomThread.cpp:181-191 | after a `GMLV` hands the connection back, the loop keeps reading the same connection and dispatching to the freed seat | a batch `GMLV`, `GMLV` (or `GMLV`, `RDY1` in the lobby) from one seat | stop reading the connection once it has left | not executed | SeatRoom.SeatBatchAsWritten, SeatRoom.LeaveTwiceReturnsTwice, SeatRoom.ReadyAfterLeave | SeatRoom.SeatBatch, SeatRoom.NothingAfterLeave |
