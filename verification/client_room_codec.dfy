/**
 * The client's decoders for room payloads (sp/client/src/StateMachine.go):
 * `deserializeRoom` for the room list and `deserializeRoomState` for the
 * state of the room just joined. Each is paired with the encoding its
 * reads describe, written with the client's own writers, and the round
 * trips are proved. `deserializeRoomState` moves its offset past a var int
 * by `2 + countDigits(value)` rather than by the digit count it read; the
 * two agree on what `WriteVarInt` writes, which is what the round trip
 * needs.
 */
module ClientRoomCodec {
  import opened Wrappers
  import opened DecimalText
  import opened ClientSerde
  import opened ClientData
  import ClientHelpers

  // ---------------------------------------------------------------------------
  // deserializeRoom

  /** What `deserializeRoom` returns for a payload it cannot read. */
  const INVALID_ROOM: RoomInfo := RoomInfo(-1, "Invalid Room Data", 0, 0)

  /**
   * `deserializeRoom`: a big int id, a string name and two small ints
   * (players in the room, capacity); `INVALID_ROOM` when a field fails.
   */
  function DeserializeRoom(payload: string): (r: RoomInfo)
    ensures r.id == -1 <==> r == INVALID_ROOM
    ensures r != INVALID_ROOM ==> 0 <= r.id <= 9999 && 0 <= r.currentPlayers <= 99 && 0 <= r.maxPlayers <= 99
  {
    var id := ReadBigInt(payload);
    if id.None? then INVALID_ROOM
    else
      var name := ReadString(payload[4..]);
      if name.None? then INVALID_ROOM
      else
        var nameLen := ReadBigInt(payload[4..]).value;
        var offset := 4 + 4 + nameLen;
        var cur := ReadSmallInt(payload[offset..]);
        if cur.None? then INVALID_ROOM
        else
          var max := ReadSmallInt(payload[offset + 2..]);
          if max.None? then INVALID_ROOM
          else RoomInfo(id.value, name.value, cur.value, max.value)
  }

  /** The room-list entry `deserializeRoom` reads: id, name, players, capacity, each with the client's writers. */
  function EncodeRoom(id: int, name: string, cur: int, max: int): (r: Option<string>)
    ensures r.Some? <==> 0 <= id <= 9999 && |name| <= 9999 && 0 <= cur <= 99 && 0 <= max <= 99
  {
    var a :- WriteBigInt(id);
    var b :- WriteString(name);
    var c :- WriteSmallInt(cur);
    var d :- WriteSmallInt(max);
    Some(a + b + c + d)
  }

  /** `deserializeRoom` reads back every entry the writers can produce, whatever follows it. */
  lemma RoomRoundTrip(id: int, name: string, cur: int, max: int, rest: string)
    requires EncodeRoom(id, name, cur, max).Some?
    ensures DeserializeRoom(EncodeRoom(id, name, cur, max).value + rest) == RoomInfo(id, name, cur, max)
  {
    var r2 := WriteSmallInt(cur).value + (WriteSmallInt(max).value + rest);
    var p := WriteBigInt(id).value + (WriteString(name).value + r2);
    RoomLayout(id, name, cur, max, rest);
    RoomHead(id, name, r2);
    RoomTail(cur, max, rest);
    RoomFieldsRead(p, id, name, cur, max, r2);
  }

  /** An encoded entry, field by field. */
  lemma RoomLayout(id: int, name: string, cur: int, max: int, rest: string)
    requires EncodeRoom(id, name, cur, max).Some?
    ensures EncodeRoom(id, name, cur, max).value + rest ==
      WriteBigInt(id).value + (WriteString(name).value + (WriteSmallInt(cur).value + (WriteSmallInt(max).value + rest)))
  {
  }

  /** The id and the name at the head of an entry, and where what follows them starts. */
  lemma RoomHead(id: int, name: string, r2: string)
    requires 0 <= id <= 9999 && |name| <= 9999
    ensures var p := WriteBigInt(id).value + (WriteString(name).value + r2);
      ReadBigInt(p) == Some(id) && |p| >= 8 + |name| && p[8 + |name|..] == r2 &&
      ReadString(p[4..]) == Some(name) && ReadBigInt(p[4..]) == Some(|name|)
  {
    var r1 := WriteString(name).value + r2;
    var p := WriteBigInt(id).value + r1;
    BigIntRoundTrip(id, r1);
    assert p[4..] == r1;
    StringRoundTrip(name, r2);
    assert r1 == WriteBigInt(|name|).value + (name + r2);
    BigIntRoundTrip(|name|, name + r2);
    assert r1[4 + |name|..] == r2;
  }

  /** The two small ints at the end of an entry. */
  lemma RoomTail(cur: int, max: int, rest: string)
    requires 0 <= cur <= 99 && 0 <= max <= 99
    ensures var r2 := WriteSmallInt(cur).value + (WriteSmallInt(max).value + rest);
      |r2| >= 4 && ReadSmallInt(r2) == Some(cur) && ReadSmallInt(r2[2..]) == Some(max)
  {
    var r3 := WriteSmallInt(max).value + rest;
    SmallIntRoundTrip(cur, r3);
    SmallIntRoundTrip(max, rest);
    assert (WriteSmallInt(cur).value + r3)[2..] == r3;
  }

  /** `deserializeRoom` in terms of the four fields it finds. */
  lemma RoomFieldsRead(p: string, id: int, name: string, cur: int, max: int, r2: string)
    requires ReadBigInt(p) == Some(id) && |p| >= 8 + |name| && p[8 + |name|..] == r2
    requires ReadString(p[4..]) == Some(name) && ReadBigInt(p[4..]) == Some(|name|)
    requires |r2| >= 4 && ReadSmallInt(r2) == Some(cur) && ReadSmallInt(r2[2..]) == Some(max)
    ensures DeserializeRoom(p) == RoomInfo(id, name, cur, max)
  {
    assert p[8 + |name| + 2..] == r2[2..];
  }

  // ---------------------------------------------------------------------------
  // deserializeRoomState: the readers, one field at a time

  /** Whatever `strconv.ParseInt` accepts is at least as long as `%d` of its value. */
  lemma ParsedAtLeastCanonical(s: string)
    requires ParseInt64(s).Some?
    ensures DecimalLength(ParseInt64(s).value) <= |s|
  {
    var body := if s[0] == '-' || s[0] == '+' then s[1..] else s;
    var m: nat := DigitsValue(body);
    DigitsValueBound(body);
    if m != 0 {
      NumDigitsAtMost(m, |body|);
    }
  }

  /**
   * The `readVarInt` closure, on what is left of the payload: the value,
   * and what is left once the offset has moved `2 + countDigits(value)`
   * bytes on. The move never passes the end.
   */
  function NextVarInt(rem: string): (r: Option<(int, string)>)
    ensures r.Some? <==> ReadVarInt(rem).Some?
    ensures r.Some? ==> r.value.0 == ReadVarInt(rem).value
    ensures r.Some? ==> 2 + ClientHelpers.CountDigits(r.value.0) <= |rem| && r.value.1 == rem[2 + ClientHelpers.CountDigits(r.value.0)..]
  {
    var v := ReadVarInt(rem);
    if v.None? then None
    else
      VarIntFits(rem);
      Some((v.value as int, rem[2 + ClientHelpers.CountDigits(v.value)..]))
  }

  /** The offset `readVarInt` moves to, `2 + countDigits(value)`, is within what it read. */
  lemma VarIntFits(rem: string)
    requires ReadVarInt(rem).Some?
    ensures 2 + ClientHelpers.CountDigits(ReadVarInt(rem).value) <= 2 + ReadSmallInt(rem).value <= |rem|
  {
    var k := ReadSmallInt(rem).value;
    ParsedAtLeastCanonical(rem[2..2 + k]);
  }

  /** A small int, and what is left two bytes on. */
  function NextSmall(rem: string): (r: Option<(nat, string)>)
    ensures r.Some? <==> ReadSmallInt(rem).Some?
    ensures r.Some? ==> r.value.0 == ReadSmallInt(rem).value && r.value.1 == rem[2..]
  {
    var v := ReadSmallInt(rem);
    if v.None? then None else Some((v.value, rem[2..]))
  }

  /** `n` community cards, one small int each. */
  function NextCards(rem: string, n: nat): (r: Option<(seq<Card>, string)>)
    ensures r.Some? ==> |r.value.0| == n && |r.value.1| + 2 * n == |rem|
    decreases n
  {
    if n == 0 then Some(([], rem))
    else
      var c :- NextSmall(rem);
      var more :- NextCards(c.1, n - 1);
      Some(([CardOf(c.0)] + more.0, more.1))
  }

  /** What a seat's fields become in the table: a flag is set only by the value 1, and the action is named. */
  function SeatData(chips: int, folded: nat, ready: nat, action: nat, amount: int): PlayerData {
    PlayerData(chips, 0, [], false, folded == 1, ready == 1, ClientHelpers.ActionIntToString(action), amount)
  }

  /** The fields every seat carries: chips (var int), folded, ready and action (small ints), action amount (var int). */
  function NextSeatFields(rem: string): (r: Option<(PlayerData, string)>)
    ensures r.Some? ==> |r.value.1| < |rem|
  {
    var chips :- NextVarInt(rem);
    var folded :- NextSmall(chips.1);
    var ready :- NextSmall(folded.1);
    var action :- NextSmall(ready.1);
    var amount :- NextVarInt(action.1);
    Some((SeatData(chips.0, folded.0, ready.0, action.0, amount.0), amount.1))
  }

  /** Every entry of `a` is in `b`, unchanged. */
  predicate Keeps(a: map<string, PlayerData>, b: map<string, PlayerData>) {
    forall k | k in a :: k in b && b[k] == a[k]
  }

  /** A nickname already in the table keeps its entry; a new one is added. */
  function KeepFirst(players: map<string, PlayerData>, nickname: string, data: PlayerData): (r: map<string, PlayerData>)
    ensures nickname in r && forall k | k in r :: k in players || k == nickname
    ensures Keeps(players, r)
    ensures nickname !in players ==> r[nickname] == data
  {
    if nickname in players then players else players[nickname := data]
  }

  /** `n` seats, each a nickname then its fields; a nickname already in the table keeps its first entry. */
  function NextPlayers(rem: string, n: nat, players: map<string, PlayerData>): (r: Option<(map<string, PlayerData>, string)>)
    decreases n
  {
    if n == 0 then Some((players, rem))
    else
      var nickname :- ReadString(rem);
      var fields :- NextSeatFields(rem[4 + |nickname|..]);
      NextPlayers(fields.1, n - 1, KeepFirst(players, nickname, fields.0))
  }

  /** Keeping entries is transitive. */
  lemma KeepsTransitive(a: map<string, PlayerData>, b: map<string, PlayerData>, c: map<string, PlayerData>)
    requires Keeps(a, b) && Keeps(b, c)
    ensures Keeps(a, c)
  {
  }

  /**
   * `deserializeRoomState`: pot and current bet (var ints), the community
   * cards, on a reconnect the player's own fields, then the other seats.
   * A field that fails makes the whole payload fail; the caller then
   * ignores the partly filled table, so none is returned.
   */
  function DeserializeRoomState(payload: string, isReconnect: bool, myNickname: string): (r: Option<Table>)
    ensures r.Some? ==> r.value.hasMap && r.value.myNickname == myNickname && r.value.roundBet == 0 && r.value.phase == ""
  {
    var pot :- NextVarInt(payload);
    var bet :- NextVarInt(pot.1);
    var count :- NextSmall(bet.1);
    var cards :- NextCards(count.1, count.0);
    var mine :- if isReconnect then
        var f :- NextSeatFields(cards.1);
        Some((map[myNickname := f.0], f.1))
      else Some((map[], cards.1));
    var playerCount :- NextSmall(mine.1);
    var players :- NextPlayers(playerCount.1, playerCount.0, mine.0);
    Some(Table(players.0, true, cards.0, pot.0, 0, bet.0, "", myNickname))
  }

  // ---------------------------------------------------------------------------
  // The room-state encoding and its round trip

  /** The cards with the given ids, in order. */
  function CardsOf(ids: seq<int>): (cs: seq<Card>)
    ensures |cs| == |ids| && forall k | 0 <= k < |ids| :: cs[k] == CardOf(ids[k])
  {
    if |ids| == 0 then [] else [CardOf(ids[0])] + CardsOf(ids[1..])
  }

  /** A seat's fields as numbers on the wire. */
  datatype SeatFields = SeatFields(chips: Int64, folded: int, ready: int, action: int, amount: Int64)

  /** The small-int fields are not negative, as a read small int never is. */
  predicate NonNegative(f: SeatFields) {
    0 <= f.folded && 0 <= f.ready && 0 <= f.action
  }

  function FieldsData(f: SeatFields): PlayerData
    requires NonNegative(f)
  {
    SeatData(f.chips, f.folded, f.ready, f.action, f.amount)
  }

  /** `WriteVarInt`, which no 64-bit value makes fail. */
  function VarIntText(n: Int64): (s: string)
    ensures WriteVarInt(n) == Some(s)
  {
    WriteVarIntTotal(n);
    WriteVarInt(n).value
  }

  function EncodeSeatFields(f: SeatFields): (r: Option<string>)
    ensures r.Some? <==> NonNegative(f) && f.folded <= 99 && f.ready <= 99 && f.action <= 99
  {
    var folded :- WriteSmallInt(f.folded);
    var ready :- WriteSmallInt(f.ready);
    var action :- WriteSmallInt(f.action);
    Some(VarIntText(f.chips) + folded + ready + action + VarIntText(f.amount))
  }

  function EncodeCards(cards: seq<int>): (r: Option<string>)
    ensures r.Some? <==> forall k | 0 <= k < |cards| :: 0 <= cards[k] <= 99
    ensures r.Some? ==> |r.value| == 2 * |cards|
  {
    if |cards| == 0 then Some("")
    else
      var c :- WriteSmallInt(cards[0]);
      var more :- EncodeCards(cards[1..]);
      assert forall k | 1 <= k < |cards| :: cards[1..][k - 1] == cards[k];
      Some(c + more)
  }

  /** A seat the writers can put on the wire: a nickname of at most 9999 bytes and fields within range. */
  predicate SeatEncodable(seat: (string, SeatFields)) {
    |seat.0| <= 9999 && EncodeSeatFields(seat.1).Some?
  }

  function EncodePlayers(players: seq<(string, SeatFields)>): (r: Option<string>)
    ensures r.Some? <==> forall k | 0 <= k < |players| :: SeatEncodable(players[k])
  {
    if |players| == 0 then Some("")
    else if !SeatEncodable(players[0]) then None
    else
      var more := EncodePlayers(players[1..]);
      assert forall k | 1 <= k < |players| :: players[1..][k - 1] == players[k];
      if more.None? then None
      else Some(WriteString(players[0].0).value + EncodeSeatFields(players[0].1).value + more.value)
  }

  /** The room state `deserializeRoomState` reads; `me` is present exactly for a reconnect. */
  function EncodeRoomState(pot: Int64, bet: Int64, cards: seq<int>, me: Option<SeatFields>, players: seq<(string, SeatFields)>): (r: Option<string>)
    ensures r.Some? ==> (me.Some? ==> NonNegative(me.value)) && forall k | 0 <= k < |players| :: NonNegative(players[k].1)
  {
    var c :- WriteSmallInt(|cards|);
    var d :- EncodeCards(cards);
    var e :- if me.Some? then EncodeSeatFields(me.value) else Some("");
    var f :- WriteSmallInt(|players|);
    var g :- EncodePlayers(players);
    Some(VarIntText(pot) + VarIntText(bet) + c + d + e + f + g)
  }

  /** The player map a list of seats makes when a nickname already present keeps its first entry. */
  function PlayersMap(players: seq<(string, SeatFields)>, m: map<string, PlayerData>): map<string, PlayerData>
    requires forall k | 0 <= k < |players| :: NonNegative(players[k].1)
  {
    if |players| == 0 then m
    else
      assert forall k | 1 <= k < |players| :: players[1..][k - 1] == players[k];
      PlayersMap(players[1..], KeepFirst(m, players[0].0, FieldsData(players[0].1)))
  }

  /** The `readVarInt` closure reads back what `WriteVarInt` wrote and moves exactly past it. */
  lemma VarIntNext(n: Int64, rest: string)
    ensures NextVarInt(VarIntText(n) + rest) == Some((n as int, rest))
  {
    var w := VarIntText(n);
    assert ReadVarInt(w + rest) == Some(n) by { VarIntRoundTrip(n, rest); }
    assert 2 + ClientHelpers.CountDigits(n) == |w| by { ClientHelpers.CountDigitsIsVarIntPrefix(n); }
    assert (w + rest)[|w|..] == rest;
  }

  lemma SmallNext(n: int, rest: string)
    requires 0 <= n <= 99
    ensures NextSmall(WriteSmallInt(n).value + rest) == Some((n, rest))
  {
    SmallIntRoundTrip(n, rest);
    assert (WriteSmallInt(n).value + rest)[2..] == rest;
  }

  /** A seat's fields read back from their encoding, whatever follows them. */
  lemma SeatFieldsNext(f: SeatFields, rest: string)
    requires EncodeSeatFields(f).Some?
    ensures NextSeatFields(EncodeSeatFields(f).value + rest) == Some((FieldsData(f), rest))
  {
    var r4 := VarIntText(f.amount) + rest;
    var r3 := WriteSmallInt(f.action).value + r4;
    var r2 := WriteSmallInt(f.ready).value + r3;
    var r1 := WriteSmallInt(f.folded).value + r2;
    SeatFieldsLayout(f, rest);
    VarIntNext(f.chips, r1);
    SmallNext(f.folded, r2);
    SmallNext(f.ready, r3);
    SmallNext(f.action, r4);
    VarIntNext(f.amount, rest);
    SeatFieldsCompose(EncodeSeatFields(f).value + rest, f, r1, r2, r3, r4, rest);
  }

  /** An encoded seat, field by field. */
  lemma SeatFieldsLayout(f: SeatFields, rest: string)
    requires EncodeSeatFields(f).Some?
    ensures EncodeSeatFields(f).value + rest ==
      VarIntText(f.chips) + (WriteSmallInt(f.folded).value + (WriteSmallInt(f.ready).value +
        (WriteSmallInt(f.action).value + (VarIntText(f.amount) + rest))))
  {
  }

  /** `NextSeatFields` in terms of what each of its five reads returns. */
  lemma SeatFieldsCompose(rem: string, f: SeatFields, r1: string, r2: string, r3: string, r4: string, rest: string)
    requires NonNegative(f)
    requires NextVarInt(rem) == Some((f.chips as int, r1))
    requires NextSmall(r1) == Some((f.folded, r2)) && NextSmall(r2) == Some((f.ready, r3)) && NextSmall(r3) == Some((f.action, r4))
    requires NextVarInt(r4) == Some((f.amount as int, rest))
    ensures NextSeatFields(rem) == Some((FieldsData(f), rest))
  {
  }

  lemma {:induction false} CardsNext(cards: seq<int>, rest: string)
    requires EncodeCards(cards).Some?
    ensures NextCards(EncodeCards(cards).value + rest, |cards|) == Some((CardsOf(cards), rest))
    decreases |cards|
  {
    var p := EncodeCards(cards).value + rest;
    if |cards| == 0 {
      assert p == rest;
    } else {
      var c := WriteSmallInt(cards[0]).value;
      var more := EncodeCards(cards[1..]).value;
      assert p == c + (more + rest);
      SmallNext(cards[0], more + rest);
      CardsNext(cards[1..], rest);
      assert NextCards(p, |cards|) == Some(([CardOf(cards[0])] + CardsOf(cards[1..]), rest));
    }
  }

  /** One seat of `NextPlayers`, in terms of what its reads return. */
  lemma PlayersStep(rem: string, n: nat, m: map<string, PlayerData>, nick: string, data: PlayerData, after: string)
    requires n >= 1 && ReadString(rem) == Some(nick)
    requires NextSeatFields(rem[4 + |nick|..]) == Some((data, after))
    ensures NextPlayers(rem, n, m) == NextPlayers(after, n - 1, KeepFirst(m, nick, data))
  {
  }

  /** The first seat of an encoded list: its nickname, then its fields, then the other seats. */
  lemma PlayerHeadNext(players: seq<(string, SeatFields)>, rest: string)
    requires |players| > 0 && EncodePlayers(players).Some?
    ensures ReadString(EncodePlayers(players).value + rest) == Some(players[0].0)
    ensures 4 + |players[0].0| <= |EncodePlayers(players).value + rest|
    ensures NextSeatFields((EncodePlayers(players).value + rest)[4 + |players[0].0|..]) ==
      Some((FieldsData(players[0].1), EncodePlayers(players[1..]).value + rest))
  {
    var tail := EncodePlayers(players[1..]).value + rest;
    var after := EncodeSeatFields(players[0].1).value + tail;
    PlayersParts(players);
    PlayersLayout(players, rest);
    NameNext(players[0].0, after);
    SeatFieldsNext(players[0].1, tail);
  }

  /** Reading an encoded list of seats is reading its first seat, then the others. */
  lemma PlayersHeadStep(players: seq<(string, SeatFields)>, m: map<string, PlayerData>, rest: string)
    returns (tail: seq<(string, SeatFields)>, next: map<string, PlayerData>)
    requires |players| > 0 && EncodePlayers(players).Some?
    ensures tail == players[1..] && EncodePlayers(tail).Some? && |tail| < |players|
    ensures forall k | 0 <= k < |players| :: NonNegative(players[k].1)
    ensures forall k | 0 <= k < |tail| :: NonNegative(tail[k].1)
    ensures PlayersMap(players, m) == PlayersMap(tail, next)
    ensures NextPlayers(EncodePlayers(players).value + rest, |players|, m) ==
      NextPlayers(EncodePlayers(tail).value + rest, |tail|, next)
  {
    tail := players[1..];
    next := KeepFirst(m, players[0].0, FieldsData(players[0].1));
    PlayersParts(players);
    PlayerHeadNext(players, rest);
    PlayersStep(EncodePlayers(players).value + rest, |players|, m, players[0].0, FieldsData(players[0].1), EncodePlayers(tail).value + rest);
    PlayersMapStep(players, m);
  }

  /** An encoded list of seats: the first nickname, its fields, the other seats. */
  lemma PlayersLayout(players: seq<(string, SeatFields)>, rest: string)
    requires |players| > 0 && EncodePlayers(players).Some?
    requires EncodePlayers(players[1..]).Some? && EncodeSeatFields(players[0].1).Some? && |players[0].0| <= 9999
    ensures EncodePlayers(players).value + rest ==
      WriteString(players[0].0).value + (EncodeSeatFields(players[0].1).value + (EncodePlayers(players[1..]).value + rest))
  {
  }

  /** What an encodable list of seats says about its first seat and the others. */
  lemma PlayersParts(players: seq<(string, SeatFields)>)
    requires |players| > 0 && EncodePlayers(players).Some?
    ensures EncodePlayers(players[1..]).Some? && EncodeSeatFields(players[0].1).Some? && |players[0].0| <= 9999
  {
  }

  /** A nickname is read back, and the seat's fields start right after it. */
  lemma NameNext(nick: string, after: string)
    requires |nick| <= 9999
    ensures ReadString(WriteString(nick).value + after) == Some(nick)
    ensures 4 + |nick| <= |WriteString(nick).value + after| && (WriteString(nick).value + after)[4 + |nick|..] == after
  {
    StringRoundTrip(nick, after);
  }

  /** Every list of seats the writers can produce is read back into the map that keeps each nickname's first entry. */
  lemma {:induction false} PlayersNext(players: seq<(string, SeatFields)>, m: map<string, PlayerData>, rest: string)
    requires EncodePlayers(players).Some?
    ensures NextPlayers(EncodePlayers(players).value + rest, |players|, m) == Some((PlayersMap(players, m), rest))
    decreases |players|, 1
  {
    if |players| == 0 {
      assert EncodePlayers(players).value + rest == rest;
    } else {
      PlayersNextCons(players, m, rest);
    }
  }

  /** The step of `PlayersNext`: the first seat, then the others by induction. */
  lemma {:induction false} PlayersNextCons(players: seq<(string, SeatFields)>, m: map<string, PlayerData>, rest: string)
    requires |players| > 0 && EncodePlayers(players).Some?
    ensures NextPlayers(EncodePlayers(players).value + rest, |players|, m) == Some((PlayersMap(players, m), rest))
    decreases |players|, 0
  {
    var tail, next := PlayersHeadStep(players, m, rest);
    PlayersNext(tail, next, rest);
  }

  /**
   * Seats never drop or overwrite an entry already in the table: on a
   * reconnect the player's own entry, read first, survives every seat
   * that repeats the nickname.
   */
  lemma {:induction false} PlayersMapKeeps(players: seq<(string, SeatFields)>, m: map<string, PlayerData>)
    requires forall k | 0 <= k < |players| :: NonNegative(players[k].1)
    ensures Keeps(m, PlayersMap(players, m))
    decreases |players|
  {
    if |players| > 0 {
      var next := KeepFirst(m, players[0].0, FieldsData(players[0].1));
      PlayersMapStep(players, m);
      PlayersMapKeeps(players[1..], next);
      KeepsTransitive(m, next, PlayersMap(players, m));
    }
  }

  /** The map of a list of seats is the map of the others, started from the first seat's entry. */
  lemma PlayersMapStep(players: seq<(string, SeatFields)>, m: map<string, PlayerData>)
    requires |players| > 0 && forall k | 0 <= k < |players| :: NonNegative(players[k].1)
    ensures forall k | 0 <= k < |players| - 1 :: NonNegative(players[1..][k].1)
    ensures PlayersMap(players, m) == PlayersMap(players[1..], KeepFirst(m, players[0].0, FieldsData(players[0].1)))
  {
    assert forall k | 1 <= k < |players| :: players[1..][k - 1] == players[k];
  }

  /**
   * `deserializeRoomState` reads back every room state the writers can
   * produce: the pot, the current bet, the cards with their names, and a
   * player map holding the reconnecting player's own entry first and,
   * for every other nickname, its first entry.
   */
  lemma RoomStateRoundTrip(pot: Int64, bet: Int64, cards: seq<int>, me: Option<SeatFields>, players: seq<(string, SeatFields)>, myNickname: string, rest: string)
    requires EncodeRoomState(pot, bet, cards, me, players).Some?
    ensures DeserializeRoomState(EncodeRoomState(pot, bet, cards, me, players).value + rest, me.Some?, myNickname) ==
      Some(Table(PlayersMap(players, OwnEntry(me, myNickname)), true, CardsOf(cards), pot, 0, bet, "", myNickname))
  {
    RoomStateParts(pot, bet, cards, me, players);
    var r6 := EncodePlayers(players).value + rest;
    var r5 := WriteSmallInt(|players|).value + r6;
    var r4 := SeatText(me) + r5;
    var r3 := EncodeCards(cards).value + r4;
    var r2 := WriteSmallInt(|cards|).value + r3;
    var r1 := VarIntText(bet) + r2;
    var p := EncodeRoomState(pot, bet, cards, me, players).value + rest;
    RoomStateLayout(pot, bet, cards, me, players, rest);
    assert p == VarIntText(pot) + r1;
    RoomStateHead(pot, bet, cards, r4);
    OwnSeatNext(me, r5);
    SmallNext(|players|, r6);
    PlayersNext(players, OwnEntry(me, myNickname), rest);
    RoomStateCompose(p, me.Some?, myNickname, pot, bet, |cards|, CardsOf(cards),
      OwnData(me), OwnEntry(me, myNickname), |players|, PlayersMap(players, OwnEntry(me, myNickname)), r1, r2, r3, r4, r5, r6, rest);
  }

  /** The reconnecting player's own entry as the table gets it, or the zero entry when there is none. */
  function OwnData(me: Option<SeatFields>): PlayerData
    requires me.Some? ==> NonNegative(me.value)
  {
    if me.Some? then FieldsData(me.value) else ZERO_PLAYER
  }

  /** The player map before the other seats are read: the own entry on a reconnect, empty otherwise. */
  function OwnEntry(me: Option<SeatFields>, myNickname: string): map<string, PlayerData>
    requires me.Some? ==> NonNegative(me.value)
  {
    if me.Some? then map[myNickname := OwnData(me)] else map[]
  }

  /** The reconnecting player's own fields as sent, or nothing. */
  function SeatText(me: Option<SeatFields>): (s: string)
    requires me.Some? ==> EncodeSeatFields(me.value).Some?
    ensures me.None? ==> s == ""
    ensures me.Some? ==> Some(s) == EncodeSeatFields(me.value)
  {
    if me.Some? then EncodeSeatFields(me.value).value else ""
  }

  /** An encoded room state, field by field. */
  lemma RoomStateLayout(pot: Int64, bet: Int64, cards: seq<int>, me: Option<SeatFields>, players: seq<(string, SeatFields)>, rest: string)
    requires EncodeRoomState(pot, bet, cards, me, players).Some?
    requires |cards| <= 99 && |players| <= 99 && EncodeCards(cards).Some? && EncodePlayers(players).Some?
    requires me.Some? ==> EncodeSeatFields(me.value).Some?
    ensures EncodeRoomState(pot, bet, cards, me, players).value + rest ==
      VarIntText(pot) + (VarIntText(bet) + (WriteSmallInt(|cards|).value + (EncodeCards(cards).value +
        (SeatText(me) + (WriteSmallInt(|players|).value + (EncodePlayers(players).value + rest))))))
  {
    var a, b := VarIntText(pot), VarIntText(bet);
    var c, d := WriteSmallInt(|cards|).value, EncodeCards(cards).value;
    var e, f, g := SeatText(me), WriteSmallInt(|players|).value, EncodePlayers(players).value;
    assert EncodeRoomState(pot, bet, cards, me, players) == Some(a + b + c + d + e + f + g);
    Associate7(a, b, c, d, e, f, g, rest);
  }

  /** Seven strings and a tail, regrouped from the left to the right. */
  lemma Associate7(a: string, b: string, c: string, d: string, e: string, f: string, g: string, rest: string)
    ensures a + b + c + d + e + f + g + rest == a + (b + (c + (d + (e + (f + (g + rest))))))
  {
  }

  /** What an encodable room state says about its parts. */
  lemma RoomStateParts(pot: Int64, bet: Int64, cards: seq<int>, me: Option<SeatFields>, players: seq<(string, SeatFields)>)
    requires EncodeRoomState(pot, bet, cards, me, players).Some?
    ensures |cards| <= 99 && |players| <= 99 && EncodeCards(cards).Some? && EncodePlayers(players).Some?
    ensures me.Some? ==> EncodeSeatFields(me.value).Some?
  {
  }

  /** The reconnecting player's own fields, when sent, read back. */
  lemma OwnSeatNext(me: Option<SeatFields>, r5: string)
    requires me.Some? ==> EncodeSeatFields(me.value).Some?
    ensures me.Some? ==> NextSeatFields(SeatText(me) + r5) == Some((OwnData(me), r5))
  {
    if me.Some? {
      SeatFieldsNext(me.value, r5);
    }
  }

  /** Pot, current bet and the community cards read back, up to where the seats start. */
  lemma RoomStateHead(pot: Int64, bet: Int64, cards: seq<int>, r4: string)
    requires EncodeCards(cards).Some? && |cards| <= 99
    ensures var r3 := EncodeCards(cards).value + r4;
      var r2 := WriteSmallInt(|cards|).value + r3;
      var r1 := VarIntText(bet) + r2;
      NextVarInt(VarIntText(pot) + r1) == Some((pot as int, r1)) &&
      NextVarInt(r1) == Some((bet as int, r2)) &&
      NextSmall(r2) == Some((|cards|, r3)) &&
      NextCards(r3, |cards|) == Some((CardsOf(cards), r4))
  {
    var r3 := EncodeCards(cards).value + r4;
    var r2 := WriteSmallInt(|cards|).value + r3;
    VarIntNext(pot, VarIntText(bet) + r2);
    VarIntNext(bet, r2);
    SmallNext(|cards|, r3);
    CardsNext(cards, r4);
  }

  /** `deserializeRoomState` in terms of what each of its reads returns. */
  lemma RoomStateCompose(p: string, isReconnect: bool, myNickname: string, pot: int, bet: int, count: nat, cs: seq<Card>,
                         myData: PlayerData, mine: map<string, PlayerData>, np: nat, pm: map<string, PlayerData>,
                         r1: string, r2: string, r3: string, r4: string, r5: string, r6: string, rest: string)
    requires NextVarInt(p) == Some((pot, r1)) && NextVarInt(r1) == Some((bet, r2))
    requires NextSmall(r2) == Some((count, r3)) && NextCards(r3, count) == Some((cs, r4))
    requires isReconnect ==> NextSeatFields(r4) == Some((myData, r5)) && mine == map[myNickname := myData]
    requires !isReconnect ==> r5 == r4 && mine == map[]
    requires NextSmall(r5) == Some((np, r6)) && NextPlayers(r6, np, mine) == Some((pm, rest))
    ensures DeserializeRoomState(p, isReconnect, myNickname) == Some(Table(pm, true, cs, pot, 0, bet, "", myNickname))
  {
  }

  /**
   * The offset step trusts the value, not the digit count it read: a var
   * int sent with leading zeros, `"03007"`, is read as 7 and the offset
   * moves three bytes on, though five were the field, so the last two
   * digits are read again as the next field.
   */
  lemma OffsetTrustsTheValue()
    ensures NextVarInt("03007") == Some((7, "07"))
  {
    var s := "03007";
    assert ReadSmallInt(s) == Some(3);
    assert s[2..5] == "007";
    assert "007"[..2] == "00" && "00"[..1] == "0";
    assert DigitsValue("007") == 7;
    assert ParseInt64("007") == Some(7);
    assert s[3..] == "07";
  }
}
