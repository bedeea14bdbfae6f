/**
 * The server's lobby (`Server` in sp/server/src/MainThread.hpp): each
 * connected player walks the handshake `Connected -> AwaitingRooms ->
 * SendingRooms -> AwaitingJoin`, is sent the room list one `ROOM` per
 * acknowledgement, and asks to `JOIN` a room by id. Once per tick the
 * players that asked for a joinable room are handed to their room and
 * the disconnected ones are dropped.
 *
 * Rooms are seen through `RoomView`: the three things the lobby asks a
 * room (its id, `can_player_join`, `to_payload_string`). Receiving is the
 * connection's queue; sending is an append to the player's outbox.
 */
module Lobby {
  import opened Wrappers
  import opened PlayerConn
  import ServerWire
  import DecimalText
  import LegacyRoom
  import Deck

  /** `MSG_BATCH_SIZE`: messages handled per player per tick. */
  const MSG_BATCH_SIZE: nat := 10

  /** `PlayerState`. */
  datatype PlayerState = Connected | AwaitingReconnect | AwaitingRooms | SendingRooms | AwaitingJoin | InRoom

  /** What the lobby sees of a room. */
  datatype RoomView = RoomView(id: int, joinable: bool, payload: string)

  /** A player waiting in the lobby: its connection, handshake state and everything written to it. */
  datatype LobbyPlayer = LobbyPlayer(conn: Conn, state: PlayerState, outbox: seq<MsgStruct>)

  /** What handling messages leads to: keep going, hand the player to room `room`, or an uncaught exception. */
  datatype Handled = Stay(p: LobbyPlayer) | Join(p: LobbyPlayer, room: nat) | Crash(p: LobbyPlayer)

  function Bare(code: string): MsgStruct {
    MsgStruct(code, None)
  }

  /** The lobby's view of a room of the in-class room logic. */
  function LegacyView(r: LegacyRoom.Room): (v: RoomView)
    requires 0 <= r.currentPlayers && 0 <= r.maxPlayers
    ensures v.id == r.id && (v.joinable <==> LegacyRoom.CanPlayerJoin(r))
    ensures v.payload == LegacyRoom.ToPayloadString(r)
  {
    RoomView(r.id, LegacyRoom.CanPlayerJoin(r), LegacyRoom.ToPayloadString(r))
  }

  /** The four rooms the `Server` constructor opens: ids 1 to 4, named `Room 1` to `Room 4`, all open to join. */
  function ServerRooms(orders: seq<seq<int>>): (rooms: seq<LegacyRoom.Room>)
    requires |orders| == 4 && forall k | 0 <= k < 4 :: Deck.IsShuffle(orders[k])
    ensures |rooms| == 4 && forall k | 0 <= k < 4 :: ServerRoomAt(rooms[k], k)
  {
    seq(4, k requires 0 <= k < 4 => ServerRoom(k, orders[k]))
  }

  /** The `k`-th room the server creates: id `k + 1`, named after its id, consistent, empty and open. */
  predicate ServerRoomAt(r: LegacyRoom.Room, k: nat)
    requires k < 4
  {
    && r.id == k + 1 && r.name == "Room " + [DecimalText.DigitChar(k + 1)]
    && LegacyRoom.Good(r) && LegacyRoom.CanPlayerJoin(r)
  }

  function ServerRoom(k: nat, order: seq<int>): (r: LegacyRoom.Room)
    requires k < 4 && Deck.IsShuffle(order)
    ensures ServerRoomAt(r, k)
  {
    LegacyRoom.NewRoom(k + 1, "Room " + [DecimalText.DigitChar(k + 1)], order)
  }

  /**
   * `send_room_info`: the next room's payload as `ROOM`, advancing the
   * index; once the index is past the last room, `DONE` and the player
   * waits for a `JOIN`. (The `int` index is compared as `size_t`, so a
   * negative one would count as past the end.)
   */
  function SendRoomInfo(p: LobbyPlayer, rooms: seq<RoomView>): (p': LobbyPlayer)
    ensures p'.conn.queue == p.conn.queue && p'.conn.disconnected == p.conn.disconnected
    ensures 0 <= p.conn.roomSendIndex < |rooms| ==>
      && p'.outbox == p.outbox + [MsgStruct("ROOM", Some(rooms[p.conn.roomSendIndex].payload))]
      && p'.conn.roomSendIndex == p.conn.roomSendIndex + 1 && p'.state == p.state
    ensures !(0 <= p.conn.roomSendIndex < |rooms|) ==>
      && p'.outbox == p.outbox + [Bare("DONE")]
      && p'.conn.roomSendIndex == p.conn.roomSendIndex && p'.state == AwaitingJoin
  {
    var i := p.conn.roomSendIndex;
    if 0 <= i < |rooms| then
      p.(outbox := p.outbox + [MsgStruct("ROOM", Some(rooms[i].payload))], conn := p.conn.(roomSendIndex := i + 1))
    else
      p.(outbox := p.outbox + [Bare("DONE")], state := AwaitingJoin)
  }

  /** The first room, from `k` on, whose id is `id`. */
  function FindRoom(rooms: seq<RoomView>, id: int, k: nat): (r: Option<nat>)
    requires k <= |rooms|
    ensures r.Some? ==>
      && k <= r.value < |rooms| && rooms[r.value].id == id
      && forall j | k <= j < r.value :: rooms[j].id != id
    ensures r.None? ==> forall j | k <= j < |rooms| :: rooms[j].id != id
    decreases |rooms| - k
  {
    if k == |rooms| then None
    else if rooms[k].id == id then Some(k)
    else FindRoom(rooms, id, k + 1)
  }

  /**
   * The `JOIN` branch of `process_player_messages`. A missing payload,
   * or a `FAIL` for a malformed id followed by the unguarded
   * `maybe_id.value()`, throws. A known room that cannot be joined gets
   * `FAIL`; an unknown id is ignored.
   */
  function HandleJoin(p: LobbyPlayer, rooms: seq<RoomView>, payload: Option<string>): (h: Handled)
  {
    if payload.None? then Crash(p)
    else
      match ServerWire.ReadBgInt(payload.value)
      case None => Crash(p.(outbox := p.outbox + [Bare("FAIL")]))
      case Some(id) =>
        match FindRoom(rooms, id, 0)
        case None => Stay(p)
        case Some(i) =>
          if rooms[i].joinable then Join(p, i) else Stay(p.(outbox := p.outbox + [Bare("FAIL")]))
  }

  /** One message through the `switch (player.state)` of `process_player_messages`. */
  function HandleMessage(p: LobbyPlayer, rooms: seq<RoomView>, msg: MsgStruct): (h: Handled)
  {
    match p.state
    case Connected =>
      if msg.code == "CONN" then Stay(p.(outbox := p.outbox + [Bare("00OK")], state := AwaitingRooms)) else Stay(p)
    case AwaitingRooms =>
      if msg.code == "RMRQ" then Stay(SendRoomInfo(p.(state := SendingRooms, conn := p.conn.(roomSendIndex := 0)), rooms))
      else Stay(p)
    case SendingRooms =>
      if msg.code == "00OK" then Stay(SendRoomInfo(p, rooms)) else Stay(p)
    case AwaitingJoin =>
      if msg.code == "JOIN" then HandleJoin(p, rooms, msg.payload) else Stay(p)
    case AwaitingReconnect => Stay(p)
    case InRoom => Stay(p)
  }

  /** Reading one message from the connection's queue. */
  function Pop(p: LobbyPlayer): (r: (LobbyPlayer, MsgStruct))
    requires |p.conn.queue| > 0
    ensures r.0 == p.(conn := p.conn.(queue := p.conn.queue[1..])) && r.1 == p.conn.queue[0]
  {
    (p.(conn := p.conn.(queue := p.conn.queue[1..])), p.conn.queue[0])
  }

  /**
   * `process_player_messages` with `budget` reads left: handle queued
   * messages until the queue is empty, the budget is spent, a joinable
   * room was named, or an exception is thrown.
   */
  function ProcessBatch(p: LobbyPlayer, rooms: seq<RoomView>, budget: nat): (h: Handled)
    ensures |h.p.conn.queue| <= |p.conn.queue| && h.p.conn.queue == p.conn.queue[|p.conn.queue| - |h.p.conn.queue|..]
    ensures |p.conn.queue| - |h.p.conn.queue| <= budget
    ensures h.Stay? ==> |h.p.conn.queue| == 0 || |p.conn.queue| - |h.p.conn.queue| == budget
    ensures h.Join? ==> h.room < |rooms| && rooms[h.room].joinable
    ensures h.p.conn.disconnected == p.conn.disconnected
    decreases budget
  {
    if budget == 0 || |p.conn.queue| == 0 then Stay(p)
    else
      var (p1, msg) := Pop(p);
      var h := HandleMessage(p1, rooms, msg);
      JoinFacts(p1, rooms, msg);
      if h.Stay? then
        var r := ProcessBatch(h.p, rooms, budget - 1);
        assert p.conn.queue[1..][|p1.conn.queue| - |r.p.conn.queue|..] == p.conn.queue[|p.conn.queue| - |r.p.conn.queue|..];
        r
      else h
  }

  /** `process_player_messages`: at most `MSG_BATCH_SIZE` messages. */
  function ProcessPlayerMessages(p: LobbyPlayer, rooms: seq<RoomView>): (h: Handled)
    ensures |p.conn.queue| - |h.p.conn.queue| <= MSG_BATCH_SIZE
    ensures h.Join? ==> h.room < |rooms| && rooms[h.room].joinable
  {
    ProcessBatch(p, rooms, MSG_BATCH_SIZE)
  }

  /** Handling one message leaves the queue and the connection flag alone, and joins only a joinable room. */
  lemma JoinFacts(p: LobbyPlayer, rooms: seq<RoomView>, msg: MsgStruct)
    ensures var h := HandleMessage(p, rooms, msg);
      && h.p.conn.queue == p.conn.queue && h.p.conn.disconnected == p.conn.disconnected
      && (h.Join? ==> h.room < |rooms| && rooms[h.room].joinable)
  {
    if p.state == AwaitingJoin && msg.code == "JOIN" && msg.payload.Some? {
      var id := ServerWire.ReadBgInt(msg.payload.value);
      if id.Some? {
        var f := FindRoom(rooms, id.value, 0);
      }
    }
  }

  /**
   * `JOIN` with a well-formed id hands the player to room `i` exactly
   * when `i` is the first room with that id and it can be joined; a
   * matching room that cannot be joined gets `FAIL`.
   */
  lemma JoinChoosesFirstJoinable(p: LobbyPlayer, rooms: seq<RoomView>, s: string, i: nat)
    requires p.state == AwaitingJoin && ServerWire.ReadBgInt(s).Some?
    ensures var h := HandleMessage(p, rooms, MsgStruct("JOIN", Some(s)));
      var id := ServerWire.ReadBgInt(s).value;
      && (h == Join(p, i) <==>
            i < |rooms| && rooms[i].id == id && rooms[i].joinable && forall j | 0 <= j < i :: rooms[j].id != id)
      && (h.Stay? && h.p.outbox == p.outbox + [Bare("FAIL")] <==>
            exists k | 0 <= k < |rooms| :: rooms[k].id == id && !rooms[k].joinable && forall j | 0 <= j < k :: rooms[j].id != id)
      && !h.Crash?
  {
    var id := ServerWire.ReadBgInt(s).value;
    var f := FindRoom(rooms, id, 0);
    if f.Some? {
      var k := f.value;
      forall k' | 0 <= k' < |rooms| && rooms[k'].id == id && forall j | 0 <= j < k' :: rooms[j].id != id
        ensures k' == k
      {
      }
    }
  }

  /** A `JOIN` whose payload does not start with four digits queues `FAIL` and then throws; so does one with no payload. */
  lemma MalformedJoinCrashes(p: LobbyPlayer, rooms: seq<RoomView>, payload: Option<string>)
    requires p.state == AwaitingJoin
    requires payload.None? || !(|payload.value| >= 4 && DecimalText.AllDigits(payload.value[..4]))
    ensures HandleMessage(p, rooms, MsgStruct("JOIN", payload)).Crash?
    ensures payload.Some? ==> HandleMessage(p, rooms, MsgStruct("JOIN", payload)).p.outbox == p.outbox + [Bare("FAIL")]
  {
  }

  /** In `Connected`, only `CONN` does anything: it answers `00OK` and moves on. */
  lemma ConnectedHandshake(p: LobbyPlayer, rooms: seq<RoomView>, msg: MsgStruct)
    requires p.state == Connected
    ensures var h := HandleMessage(p, rooms, msg);
      && h.Stay?
      && (msg.code == "CONN" ==> h.p == p.(outbox := p.outbox + [Bare("00OK")], state := AwaitingRooms))
      && (msg.code != "CONN" ==> h.p == p)
  {
  }

  /** The acknowledgements a client sends while the list comes in. */
  function Acks(n: nat): (s: seq<MsgStruct>)
    ensures |s| == n && forall k | 0 <= k < n :: s[k] == Bare("00OK")
  {
    if n == 0 then [] else Acks(n - 1) + [Bare("00OK")]
  }

  /** The `ROOM` messages for rooms `k..` in order. */
  function Listing(rooms: seq<RoomView>, k: nat): (s: seq<MsgStruct>)
    requires k <= |rooms|
    ensures |s| == |rooms| - k && forall j | 0 <= j < |s| :: s[j] == MsgStruct("ROOM", Some(rooms[k + j].payload))
    decreases |rooms| - k
  {
    if k == |rooms| then [] else [MsgStruct("ROOM", Some(rooms[k].payload))] + Listing(rooms, k + 1)
  }

  /**
   * While sending rooms at index `k`, one acknowledgement per remaining
   * room sends them all and then `DONE`, ending in `AwaitingJoin`.
   */
  lemma {:induction false} AcksSendRest(p: LobbyPlayer, rooms: seq<RoomView>, k: nat, budget: nat)
    requires p.state == SendingRooms && p.conn.roomSendIndex == k <= |rooms|
    requires p.conn.queue == Acks(|rooms| - k + 1) && budget >= |rooms| - k + 1
    ensures Listed(ProcessBatch(p, rooms, budget), p.outbox, Listing(rooms, k))
    decreases |rooms| - k
  {
    if k < |rooms| {
      var room := MsgStruct("ROOM", Some(rooms[k].payload));
      var q := AckStep(p, rooms, budget);
      assert q.conn.queue == Acks(|rooms| - (k + 1) + 1) by {
        assert Acks(|rooms| - k + 1)[1..] == Acks(|rooms| - (k + 1) + 1);
      }
      AcksSendRest(q, rooms, k + 1, budget - 1);
      ListedAfterRoom(ProcessBatch(q, rooms, budget - 1), p.outbox, room, Listing(rooms, k + 1));
    } else {
      LastAckSendsDone(p, rooms, budget);
    }
  }

  /** The batch ended after `DONE`: the player waits for `JOIN`, the queue is drained, and `listing` then `DONE` were sent. */
  predicate Listed(h: Handled, outbox: seq<MsgStruct>, listing: seq<MsgStruct>) {
    h.Stay? && h.p.state == AwaitingJoin && h.p.conn.queue == [] && h.p.outbox == outbox + listing + [Bare("DONE")]
  }

  lemma ListedAfterRoom(h: Handled, outbox: seq<MsgStruct>, room: MsgStruct, rest: seq<MsgStruct>)
    requires Listed(h, outbox + [room], rest)
    ensures Listed(h, outbox, [room] + rest)
  {
    AppendAssoc(outbox, [room], rest);
  }

  /** The acknowledgement after the last room sends `DONE` and ends the listing. */
  lemma LastAckSendsDone(p: LobbyPlayer, rooms: seq<RoomView>, budget: nat)
    requires p.state == SendingRooms && p.conn.roomSendIndex == |rooms|
    requires p.conn.queue == [Bare("00OK")] && budget >= 1
    ensures Listed(ProcessBatch(p, rooms, budget), p.outbox, Listing(rooms, |rooms|))
  {
    var q := AckStep(p, rooms, budget);
    assert q.conn.queue == [];
  }

  /** One `00OK` while sending rooms: the next room (or `DONE`) goes out, and the batch goes on with one read fewer. */
  lemma AckStep(p: LobbyPlayer, rooms: seq<RoomView>, budget: nat) returns (q: LobbyPlayer)
    requires p.state == SendingRooms && |p.conn.queue| > 0 && p.conn.queue[0] == Bare("00OK") && budget > 0
    ensures q == SendRoomInfo(p.(conn := p.conn.(queue := p.conn.queue[1..])), rooms)
    ensures ProcessBatch(p, rooms, budget) == ProcessBatch(q, rooms, budget - 1)
  {
    var (p1, msg) := Pop(p);
    q := SendRoomInfo(p1, rooms);
    assert HandleMessage(p1, rooms, msg) == Stay(q);
  }

  /**
   * The room listing: `RMRQ` followed by one `00OK` per room yields one
   * `ROOM` per room, in order, then a single `DONE`, and leaves the
   * player in `AwaitingJoin`, within one batch when it is large enough.
   */
  lemma RoomListing(p: LobbyPlayer, rooms: seq<RoomView>)
    requires p.state == AwaitingRooms && p.conn.queue == [Bare("RMRQ")] + Acks(|rooms|)
    requires |rooms| + 1 <= MSG_BATCH_SIZE
    ensures Listed(ProcessPlayerMessages(p, rooms), p.outbox, Listing(rooms, 0))
  {
    var q1 := RequestStep(p, rooms);
    if |rooms| > 0 {
      FirstRoomThenRest(q1, p.outbox, rooms);
    } else {
      assert q1.conn.queue == [];
    }
  }

  /** After `RMRQ` sent the first room, the acknowledgements send the rest and `DONE`. */
  lemma FirstRoomThenRest(q1: LobbyPlayer, outbox: seq<MsgStruct>, rooms: seq<RoomView>)
    requires |rooms| > 0 && |rooms| + 1 <= MSG_BATCH_SIZE
    requires q1.state == SendingRooms && q1.conn.roomSendIndex == 1 && q1.conn.queue == Acks(|rooms|)
    requires q1.outbox == outbox + [MsgStruct("ROOM", Some(rooms[0].payload))]
    ensures Listed(ProcessBatch(q1, rooms, MSG_BATCH_SIZE - 1), outbox, Listing(rooms, 0))
  {
    var room0 := MsgStruct("ROOM", Some(rooms[0].payload));
    assert Acks(|rooms|) == Acks(|rooms| - 1 + 1);
    AcksSendRest(q1, rooms, 1, MSG_BATCH_SIZE - 1);
    ListedAfterRoom(ProcessBatch(q1, rooms, MSG_BATCH_SIZE - 1), outbox, room0, Listing(rooms, 1));
  }

  /** `RMRQ` sends the first room (or `DONE` when there is none), and the batch goes on with one read fewer. */
  lemma RequestStep(p: LobbyPlayer, rooms: seq<RoomView>) returns (q: LobbyPlayer)
    requires p.state == AwaitingRooms && |p.conn.queue| > 0 && p.conn.queue[0] == Bare("RMRQ")
    ensures q == SendRoomInfo(p.(state := SendingRooms, conn := p.conn.(queue := p.conn.queue[1..], roomSendIndex := 0)), rooms)
    ensures ProcessPlayerMessages(p, rooms) == ProcessBatch(q, rooms, MSG_BATCH_SIZE - 1)
  {
    var (p1, msg) := Pop(p);
    q := SendRoomInfo(p1.(state := SendingRooms, conn := p1.conn.(roomSendIndex := 0)), rooms);
    assert HandleMessage(p1, rooms, msg) == Stay(q);
  }

  /** A saved `(p_idx, room_idx)` pair of `process_logic`. */
  datatype Move = Move(player: nat, room: nat)

  /** The pairs as `process_logic` saves them: player indices strictly increasing and in range. */
  predicate SavedInOrder(moves: seq<Move>, n: nat) {
    && (forall k | 0 <= k < |moves| :: moves[k].player < n)
    && (forall k, l | 0 <= k < l < |moves| :: moves[k].player < moves[l].player)
  }

  /** The list without position `i` (`vector::erase`). */
  function Erase<T>(s: seq<T>, i: nat): (r: seq<T>)
    requires i < |s|
    ensures |r| == |s| - 1
    ensures forall j | 0 <= j < i :: r[j] == s[j]
    ensures forall j | i <= j < |r| :: r[j] == s[j + 1]
  {
    s[..i] + s[i + 1..]
  }

  /** Erasing keeps every other element: the erased one and the rest make up the list. */
  lemma EraseCounts<T>(s: seq<T>, i: nat)
    requires i < |s|
    ensures multiset(Erase(s, i)) + multiset{s[i]} == multiset(s)
  {
    assert s == s[..i] + [s[i]] + s[i + 1..];
  }

  /**
   * The move step of `process_logic` as written: the saved pairs are
   * taken in order and each hands over and erases the player at the saved
   * index of the list as it is now, after the earlier erasures. `None`
   * when a saved index has run past the end of the shrunken list.
   */
  function MoveAsWritten<T>(players: seq<T>, moves: seq<Move>): (r: Option<(seq<T>, seq<(T, nat)>)>)
    ensures r.Some? ==> |r.value.0| == |players| - |moves| && |r.value.1| == |moves|
    ensures r.Some? ==> forall k | 0 <= k < |moves| :: r.value.1[k].1 == moves[k].room
    decreases |moves|
  {
    if |moves| == 0 then Some((players, []))
    else if moves[0].player >= |players| then None
    else
      match MoveAsWritten(Erase(players, moves[0].player), moves[1..])
      case None => None
      case Some(rest) => Some((rest.0, [(players[moves[0].player], moves[0].room)] + rest.1))
  }

  /**
   * The move step with the pairs taken from the last to the first, so
   * each erasure only shifts players that were already handed over.
   */
  function MoveFixed<T>(players: seq<T>, moves: seq<Move>): (r: (seq<T>, seq<(T, nat)>))
    requires SavedInOrder(moves, |players|)
    ensures |r.0| == |players| - |moves| && |r.1| == |moves|
    decreases |moves|
  {
    if |moves| == 0 then (players, [])
    else
      var last := moves[|moves| - 1];
      var rest := MoveFixed(Erase(players, last.player), moves[..|moves| - 1]);
      (rest.0, rest.1 + [(players[last.player], last.room)])
  }

  /**
   * With the fix, the `k`-th player handed over is exactly the player
   * whose pair was saved `k`-th, and every player is either handed over
   * or still in the lobby, never both and never lost.
   */
  lemma {:induction false} MoveFixedHandsRequesters<T>(players: seq<T>, moves: seq<Move>)
    requires SavedInOrder(moves, |players|)
    ensures var r := MoveFixed(players, moves);
      && (forall k | 0 <= k < |moves| :: r.1[k] == (players[moves[k].player], moves[k].room))
      && multiset(r.0) + multiset(seq(|r.1|, k requires 0 <= k < |r.1| => r.1[k].0)) == multiset(players)
    decreases |moves|
  {
    if |moves| > 0 {
      var last := moves[|moves| - 1];
      var smaller := Erase(players, last.player);
      var init := moves[..|moves| - 1];
      MoveFixedHandsRequesters(smaller, init);
      EraseCounts(players, last.player);
      var rest := MoveFixed(smaller, init);
      var r := MoveFixed(players, moves);
      forall k | 0 <= k < |moves| ensures r.1[k] == (players[moves[k].player], moves[k].room) {
        if k < |moves| - 1 {
          assert init[k] == moves[k];
          assert smaller[moves[k].player] == players[moves[k].player];
        }
      }
      var hs := seq(|rest.1|, k requires 0 <= k < |rest.1| => rest.1[k].0);
      var h := seq(|r.1|, k requires 0 <= k < |r.1| => r.1[k].0);
      assert h == hs + [players[last.player]];
    }
  }

  /**
   * The shifted erase: with three players of whom the first two ask to
   * join, the code as written hands over the first and the third, and the
   * second stays in the lobby with its request lost.
   */
  lemma ShiftedMove<T>(a: T, b: T, c: T)
    ensures MoveAsWritten([a, b, c], [Move(0, 0), Move(1, 1)]) == Some(([b], [(a, 0), (c, 1)]))
  {
    var one, two := [Move(1, 1)], [Move(0, 0), Move(1, 1)];
    assert two[1..] == one && one[1..] == [];
    assert Erase([a, b, c], 0) == [b, c];
    assert Erase([b, c], 1) == [b];
    assert MoveAsWritten([b], []) == Some(([b], []));
    var inner := MoveAsWritten([b, c], one);
    assert inner.Some? && inner.value.0 == [b];
    assert inner.value.1 == [(c, 1)] + [] == [(c, 1)];
    var outer := MoveAsWritten([a, b, c], two);
    assert outer.Some? && outer.value.0 == [b];
    assert outer.value.1 == [(a, 0)] + [(c, 1)] == [(a, 0), (c, 1)];
  }

  /** The same two requests handed over in reverse move the first two players and keep the third. */
  lemma ReverseMoveKeepsRequests<T>(a: T, b: T, c: T)
    ensures MoveFixed([a, b, c], [Move(0, 0), Move(1, 1)]) == ([c], [(a, 0), (b, 1)])
  {
    var two := [Move(0, 0), Move(1, 1)];
    assert two[..1] == [Move(0, 0)] && [Move(0, 0)][..0] == [];
    assert Erase([a, b, c], 1) == [a, c];
    assert Erase([a, c], 0) == [c];
    assert MoveFixed([c], []) == ([c], []);
    var inner := MoveFixed([a, c], [Move(0, 0)]);
    assert inner.0 == [c];
    assert inner.1 == [] + [(a, 0)] == [(a, 0)];
    var handed: seq<(T, nat)> := [(a, 0), (b, 1)];
    assert handed == [(a, 0)] + [(b, 1)];
    var outer := MoveFixed([a, b, c], two);
    assert outer.0 == [c];
    assert outer.1 == [(a, 0)] + [(b, 1)];
  }

  /** With two players who both ask to join, the second saved index is past the end once the first is erased. */
  lemma MoveRunsOffTheEnd<T>(a: T, b: T)
    ensures MoveAsWritten([a, b], [Move(0, 0), Move(1, 0)]).None?
  {
    var two := [Move(0, 0), Move(1, 0)];
    assert two[1..] == [Move(1, 0)];
    assert Erase([a, b], 0) == [b];
  }

  /** With at most one saved pair there is no earlier erasure to shift it, and the step as written agrees with the fix. */
  lemma MoveAgreesOnOne<T>(players: seq<T>, moves: seq<Move>)
    requires SavedInOrder(moves, |players|) && |moves| <= 1
    ensures MoveAsWritten(players, moves) == Some(MoveFixed(players, moves))
  {
    if |moves| == 1 {
      var left := Erase(players, moves[0].player);
      assert moves[1..] == [] && moves[..0] == [];
      assert MoveAsWritten(left, moves[1..]) == Some((left, []));
      assert MoveFixed(left, moves[..0]) == (left, []);
    }
  }

  /** `remove_if` of the disconnected players: the connected ones, in order. */
  function DropDisconnected(players: seq<LobbyPlayer>): (r: seq<LobbyPlayer>)
    ensures |r| <= |players|
    ensures forall k | 0 <= k < |r| :: IsConnected(r[k].conn)
    ensures forall k | 0 <= k < |players| :: IsConnected(players[k].conn) ==> players[k] in r
    ensures forall x | x in r :: x in players
  {
    if |players| == 0 then []
    else
      var rest := DropDisconnected(players[1..]);
      assert forall k | 1 <= k < |players| :: players[k] == players[1..][k - 1];
      if IsConnected(players[0].conn) then [players[0]] + rest else rest
  }

  /** One tick's outcome: who stays in the lobby, and who goes to which room. */
  datatype Tick = Tick(lobby: seq<LobbyPlayer>, handed: seq<(LobbyPlayer, nat)>)

  /**
   * The message loop of `process_logic` from player `k` on: each player's
   * batch, the pairs of those that named a joinable room, or `None` once
   * one of them throws.
   */
  function ProcessAll(players: seq<LobbyPlayer>, rooms: seq<RoomView>, k: nat): (r: Option<(seq<LobbyPlayer>, seq<Move>)>)
    requires k <= |players|
    ensures r.Some? ==>
      && |r.value.0| == |players| - k
      && (forall j | 0 <= j < |r.value.1| :: k <= r.value.1[j].player < |players| && r.value.1[j].room < |rooms| && rooms[r.value.1[j].room].joinable)
      && (forall j, l | 0 <= j < l < |r.value.1| :: r.value.1[j].player < r.value.1[l].player)
    decreases |players| - k
  {
    if k == |players| then Some(([], []))
    else
      var h := ProcessPlayerMessages(players[k], rooms);
      if h.Crash? then None
      else
        match ProcessAll(players, rooms, k + 1)
        case None => None
        case Some(rest) =>
          Some(([h.p] + rest.0, (if h.Join? then [Move(k, h.room)] else []) + rest.1))
  }

  /** `Some` exactly when no player's batch throws. */
  lemma {:induction false} ProcessAllCrashes(players: seq<LobbyPlayer>, rooms: seq<RoomView>, k: nat)
    requires k <= |players|
    ensures ProcessAll(players, rooms, k).None? <==> exists j | k <= j < |players| :: ProcessPlayerMessages(players[j], rooms).Crash?
    decreases |players| - k
  {
    if k < |players| {
      var h := ProcessPlayerMessages(players[k], rooms);
      if h.Crash? {
        assert ProcessAll(players, rooms, k).None?;
      } else {
        ProcessAllCrashes(players, rooms, k + 1);
        assert ProcessAll(players, rooms, k).None? <==> ProcessAll(players, rooms, k + 1).None?;
        if j :| k <= j < |players| && ProcessPlayerMessages(players[j], rooms).Crash? {
          assert j != k;
        }
      }
    }
  }

  /**
   * One iteration of `process_logic` with the moves taken in reverse:
   * every player's batch, then the hand-over, then the disconnected are
   * dropped. `None` when a batch throws, which ends the server.
   */
  function LobbyTick(players: seq<LobbyPlayer>, rooms: seq<RoomView>): (r: Option<Tick>)
    ensures r.Some? ==>
      && (forall k | 0 <= k < |r.value.handed| :: r.value.handed[k].1 < |rooms| && rooms[r.value.handed[k].1].joinable)
      && (forall k | 0 <= k < |r.value.lobby| :: IsConnected(r.value.lobby[k].conn))
      && |r.value.lobby| + |r.value.handed| <= |players|
  {
    match ProcessAll(players, rooms, 0)
    case None => None
    case Some(done) =>
      var (after, moves) := done;
      var (left, handed) := MoveFixed(after, moves);
      MoveFixedHandsRequesters(after, moves);
      assert forall k | 0 <= k < |handed| :: handed[k].1 == moves[k].room;
      Some(Tick(DropDisconnected(left), handed))
  }

  /**
   * One iteration of `process_logic` as written: the moves are taken in
   * the order they were saved, so `None` also when an erasure runs past
   * the end of the shrunken list.
   */
  function LobbyTickAsWritten(players: seq<LobbyPlayer>, rooms: seq<RoomView>): (r: Option<Tick>)
    ensures r.Some? ==>
      && (forall k | 0 <= k < |r.value.handed| :: r.value.handed[k].1 < |rooms| && rooms[r.value.handed[k].1].joinable)
      && (forall k | 0 <= k < |r.value.lobby| :: IsConnected(r.value.lobby[k].conn))
      && |r.value.lobby| + |r.value.handed| <= |players|
    ensures LobbyTick(players, rooms).None? ==> r.None?
  {
    match ProcessAll(players, rooms, 0)
    case None => None
    case Some(done) =>
      var (after, moves) := done;
      match MoveAsWritten(after, moves)
      case None => None
      case Some(m) => Some(Tick(DropDisconnected(m.0), m.1))
  }

  /** Rooms of the in-class room logic, each in the shape `accept_player` needs. */
  predicate RoomsGood(rooms: seq<LegacyRoom.Room>) {
    forall i | 0 <= i < |rooms| :: LegacyRoom.Good(rooms[i]) && 0 <= rooms[i].currentPlayers && 0 <= rooms[i].maxPlayers
  }

  /** Every room within its capacity. */
  predicate WithinCapacity(rooms: seq<LegacyRoom.Room>) {
    forall i | 0 <= i < |rooms| :: rooms[i].currentPlayers <= rooms[i].maxPlayers
  }

  /** What the lobby sees of each room during one tick. */
  function Views(rooms: seq<LegacyRoom.Room>): (v: seq<RoomView>)
    requires RoomsGood(rooms)
    ensures |v| == |rooms| && forall i | 0 <= i < |rooms| :: v[i] == LegacyView(rooms[i])
  {
    seq(|rooms|, i requires 0 <= i < |rooms| && RoomsGood(rooms) => LegacyView(rooms[i]))
  }

  /** How many of the hand-overs go to room `i`. */
  function CountTo(handed: seq<(LobbyPlayer, nat)>, i: nat): (n: nat)
    ensures n <= |handed|
  {
    if |handed| == 0 then 0 else (if handed[0].1 == i then 1 else 0) + CountTo(handed[1..], i)
  }

  /**
   * The hand-over as written: `accept_player` on the room each player
   * chose, with no second look at the room, whose view was taken before
   * anyone of this tick was moved.
   */
  function AdmitAsWritten(rooms: seq<LegacyRoom.Room>, handed: seq<(LobbyPlayer, nat)>): (r: seq<LegacyRoom.Room>)
    requires RoomsGood(rooms) && forall k | 0 <= k < |handed| :: handed[k].1 < |rooms|
    ensures |r| == |rooms| && RoomsGood(r)
    ensures forall i | 0 <= i < |rooms| :: r[i].currentPlayers == rooms[i].currentPlayers + CountTo(handed, i)
    ensures forall i | 0 <= i < |rooms| :: r[i].maxPlayers == rooms[i].maxPlayers && r[i].state == rooms[i].state
    decreases |handed|
  {
    if |handed| == 0 then rooms
    else
      var j := handed[0].1;
      AdmitAsWritten(rooms[j := LegacyRoom.AcceptPlayer(rooms[j])], handed[1..])
  }

  /**
   * Two players asking for the last seat of a room in the same tick both
   * see it open, and both are admitted: the room ends one over capacity.
   */
  lemma LastSeatTwice(room: LegacyRoom.Room, p: LobbyPlayer, q: LobbyPlayer)
    requires RoomsGood([room]) && room.state == LegacyRoom.WaitingForStart && room.currentPlayers == room.maxPlayers - 1
    ensures Views([room])[0].joinable
    ensures AdmitAsWritten([room], [(p, 0), (q, 0)])[0].currentPlayers == room.maxPlayers + 1
  {
    var handed: seq<(LobbyPlayer, nat)> := [(p, 0), (q, 0)];
    assert handed[1..] == [(q, 0)] && |handed[1..][1..]| == 0;
    assert CountTo(handed, 0) == 2;
  }

  /**
   * The hand-over with the room checked again at the moment of the move:
   * a room that filled up in this tick answers `FAIL` and the player
   * stays in the lobby. Returns the rooms and the players turned away.
   */
  function AdmitChecked(rooms: seq<LegacyRoom.Room>, handed: seq<(LobbyPlayer, nat)>): (r: (seq<LegacyRoom.Room>, seq<LobbyPlayer>))
    requires RoomsGood(rooms) && forall k | 0 <= k < |handed| :: handed[k].1 < |rooms|
    ensures |r.0| == |rooms| && RoomsGood(r.0)
    ensures WithinCapacity(rooms) ==> WithinCapacity(r.0)
    ensures forall i | 0 <= i < |rooms| :: r.0[i].currentPlayers >= rooms[i].currentPlayers
    ensures |r.1| <= |handed|
    decreases |handed|
  {
    if |handed| == 0 then (rooms, [])
    else
      var (p, j) := handed[0];
      if LegacyRoom.CanPlayerJoin(rooms[j]) then
        AdmitChecked(rooms[j := LegacyRoom.AcceptPlayer(rooms[j])], handed[1..])
      else
        var rest := AdmitChecked(rooms, handed[1..]);
        (rest.0, [p.(outbox := p.outbox + [Bare("FAIL")])] + rest.1)
  }

  /**
   * Where the rooms have space for everyone sent to them, the checked
   * hand-over turns nobody away and agrees with the hand-over as written.
   */
  lemma {:induction false} AdmitCheckedAgrees(rooms: seq<LegacyRoom.Room>, handed: seq<(LobbyPlayer, nat)>)
    requires RoomsGood(rooms) && forall k | 0 <= k < |handed| :: handed[k].1 < |rooms|
    requires forall i | 0 <= i < |rooms| ::
      rooms[i].state == LegacyRoom.WaitingForStart && rooms[i].currentPlayers + CountTo(handed, i) <= rooms[i].maxPlayers
    ensures AdmitChecked(rooms, handed) == (AdmitAsWritten(rooms, handed), [])
    decreases |handed|
  {
    if |handed| > 0 {
      var j := handed[0].1;
      var rooms' := rooms[j := LegacyRoom.AcceptPlayer(rooms[j])];
      forall i | 0 <= i < |rooms|
        ensures rooms'[i].currentPlayers + CountTo(handed[1..], i) <= rooms'[i].maxPlayers
      {
        assert CountTo(handed, i) == (if i == j then 1 else 0) + CountTo(handed[1..], i);
      }
      AdmitCheckedAgrees(rooms', handed[1..]);
    }
  }

  /**
   * One pass of `process_logic` over the lobby and the in-class rooms:
   * the lobby tick decides on the views taken at its start, then the
   * checked hand-over admits players; those turned away stay in the lobby.
   * `None` when a batch throws.
   */
  function ServerTick(players: seq<LobbyPlayer>, rooms: seq<LegacyRoom.Room>): (r: Option<(seq<LobbyPlayer>, seq<LegacyRoom.Room>)>)
    requires RoomsGood(rooms)
    ensures r.Some? ==> |r.value.1| == |rooms| && RoomsGood(r.value.1)
    ensures r.Some? && WithinCapacity(rooms) ==> WithinCapacity(r.value.1)
    ensures r.Some? ==> |r.value.0| <= |players|
    ensures r.None? <==> LobbyTick(players, Views(rooms)).None?
  {
    match LobbyTick(players, Views(rooms))
    case None => None
    case Some(t) =>
      var (admitted, refused) := AdmitChecked(rooms, t.handed);
      Some((t.lobby + refused, admitted))
  }

  /**
   * `process_logic` as written: the tick as written, then `accept_player`
   * on every chosen room without a second look, so each room gains exactly
   * the players sent to it, full or not.
   */
  function ServerTickAsWritten(players: seq<LobbyPlayer>, rooms: seq<LegacyRoom.Room>): (r: Option<(seq<LobbyPlayer>, seq<LegacyRoom.Room>)>)
    requires RoomsGood(rooms)
    ensures r.Some? ==> |r.value.1| == |rooms| && RoomsGood(r.value.1) && |r.value.0| <= |players|
    ensures r.Some? ==> exists t: Tick | LobbyTickAsWritten(players, Views(rooms)) == Some(t) ::
      && r.value.0 == t.lobby
      && forall i | 0 <= i < |rooms| :: r.value.1[i].currentPlayers == rooms[i].currentPlayers + CountTo(t.handed, i)
    ensures r.None? <==> LobbyTickAsWritten(players, Views(rooms)).None?
  {
    match LobbyTickAsWritten(players, Views(rooms))
    case None => None
    case Some(t) => Some((t.lobby, AdmitAsWritten(rooms, t.handed)))
  }
}
