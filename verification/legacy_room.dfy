/**
 * The older, in-class room logic of the server (sp/server/src/RoomThread.hpp):
 * a room collects players while `WaitingForStart`, starts once at least two
 * are present and all are ready, deals, and then runs betting rounds over
 * an action queue of player indices, revealing community cards between
 * rounds. Messages the room sends are appended to `sent` (a broadcast goes
 * to every connected player); connections are reduced to a connected flag
 * per player; the shuffle's order is a parameter.
 */
module LegacyRoom {
  import opened Wrappers
  import opened DecimalText
  import Deck
  import opened PlayerConn
  import ServerWire
  import ClientData
  import ClientRoomCodec

  const ROOM_MAX_PLAYERS: int := 4

  datatype RoomState = WaitingForStart | Dealing | BettingRound | RevealCommunity | Showdown | Finished
  datatype RoundPhase = PreFlop | Flop | Turn | River

  /** `PlayerGameContext`, without its non-owning reference to the connection (index `i` belongs to player `i`). */
  datatype Ctx = Ctx(folded: bool, ready: bool, roundBet: int, hand: seq<int>)

  /** What a freshly synchronised context looks like. */
  const FRESH_CTX: Ctx := Ctx(false, false, 0, [])

  /** An outgoing message: to every connected player, or to one player. */
  datatype Sent = Broadcast(msg: MsgStruct) | Direct(to: int, msg: MsgStruct)

  datatype Room = Room(
    id: nat,
    name: string,
    currentPlayers: int,
    maxPlayers: int,
    connected: seq<bool>,
    ctxs: seq<Ctx>,
    deck: seq<int>,
    state: RoomState,
    phase: RoundPhase,
    community: seq<int>,
    pot: int,
    highBet: int,
    betPlaced: bool,
    queue: seq<int>,
    waiting: bool,
    sent: seq<Sent>)

  /**
   * Well-formed: there are no more contexts than players, and the action
   * queue holds context indices, each at most once.
   */
  predicate Wf(r: Room) {
    && |r.ctxs| <= |r.connected|
    && (forall k | 0 <= k < |r.queue| :: 0 <= r.queue[k] < |r.ctxs|)
    && Deck.Distinct(r.queue)
  }

  /** Before anyone bets in a round, there is nothing to call and no queued player has put chips in. */
  predicate RoundInv(r: Room)
    requires Wf(r)
  {
    !r.betPlaced ==> r.highBet == 0 && forall k | 0 <= k < |r.queue| :: r.ctxs[r.queue[k]].roundBet == 0
  }

  predicate Good(r: Room) {
    Wf(r) && RoundInv(r)
  }

  function Bare(code: string): MsgStruct {
    MsgStruct(code, None)
  }

  function With(code: string, payload: string): MsgStruct {
    MsgStruct(code, Some(payload))
  }

  /** The `Room` constructor: empty, waiting, four seats, a freshly shuffled deck. */
  function NewRoom(id: nat, name: string, order: seq<int>): (r: Room)
    requires Deck.IsShuffle(order)
    ensures Good(r) && r.state == WaitingForStart && r.currentPlayers == 0 && r.id == id && r.name == name
    ensures CanPlayerJoin(r)
    ensures r.maxPlayers == ROOM_MAX_PLAYERS && |r.deck| == Deck.DECK_SIZE && Deck.Distinct(r.deck)
  {
    Room(id, name, 0, ROOM_MAX_PLAYERS, [], [], Deck.Reset(order), WaitingForStart, PreFlop,
         [], 0, 0, false, [], false, [])
  }

  /** `to_payload_string`: id, name, occupancy and capacity in the room-listing format. */
  function ToPayloadString(r: Room): (s: string)
    requires 0 <= r.currentPlayers && 0 <= r.maxPlayers
    ensures |s| == |ServerWire.WriteBgInt(r.id)| + |ServerWire.WriteNetStr(r.name)|
      + |ServerWire.WriteSmInt(r.currentPlayers)| + |ServerWire.WriteSmInt(r.maxPlayers)|
    ensures r.id <= 9999 && |r.name| <= 9999 && r.currentPlayers <= 99 && r.maxPlayers <= 99 ==>
      ClientRoomCodec.DeserializeRoom(s) == ClientData.RoomInfo(r.id, r.name, r.currentPlayers, r.maxPlayers)
  {
    var s := ServerWire.WriteBgInt(r.id) + ServerWire.WriteNetStr(r.name)
      + ServerWire.WriteSmInt(r.currentPlayers) + ServerWire.WriteSmInt(r.maxPlayers);
    if r.id <= 9999 && |r.name| <= 9999 && r.currentPlayers <= 99 && r.maxPlayers <= 99 then
      assert ClientRoomCodec.EncodeRoom(r.id, r.name, r.currentPlayers, r.maxPlayers) == Some(s);
      ClientRoomCodec.RoomRoundTrip(r.id, r.name, r.currentPlayers, r.maxPlayers, "");
      assert s + "" == s;
      s
    else s
  }

  /** `can_player_join`. */
  predicate CanPlayerJoin(r: Room) {
    r.state == WaitingForStart && r.currentPlayers < r.maxPlayers
  }

  /** `accept_player`: one more (connected) player, one more counted. */
  function AcceptPlayer(r: Room): (r': Room)
    requires Good(r)
    ensures Good(r') && r'.currentPlayers == r.currentPlayers + 1
    ensures r'.connected == r.connected + [true] && r'.ctxs == r.ctxs && r'.state == r.state
    ensures r'.maxPlayers == r.maxPlayers && r'.id == r.id
  {
    r.(connected := r.connected + [true], currentPlayers := r.currentPlayers + 1)
  }

  /** `sync_contexts`: one fresh context per player. */
  function SyncContexts(r: Room): (r': Room)
    requires Good(r)
    ensures Good(r') && |r'.ctxs| == |r'.connected| == |r.connected|
    ensures forall k | 0 <= k < |r'.ctxs| :: r'.ctxs[k] == FRESH_CTX
  {
    r.(ctxs := seq(|r.connected|, _ => FRESH_CTX))
  }

  // ---------------------------------------------------------------------
  // Lobby readiness and the start of a game
  // ---------------------------------------------------------------------

  /** `handle_lobby_ready`. */
  function HandleLobbyReady(r: Room, i: int): (r': Room)
    requires Good(r) && 0 <= i
    ensures Good(r') && r'.state == r.state && |r'.ctxs| == |r.ctxs| && r'.connected == r.connected
    ensures i < |r.ctxs| ==> r'.ctxs[i].ready && r'.sent == r.sent + [Broadcast(With("RDOK", ServerWire.WriteSmInt(i)))]
    ensures forall k | 0 <= k < |r.ctxs| && k != i :: r'.ctxs[k] == r.ctxs[k]
    ensures i >= |r.ctxs| ==> r' == r
  {
    if i < |r.ctxs| then
      r.(ctxs := r.ctxs[i := r.ctxs[i].(ready := true)],
         sent := r.sent + [Broadcast(With("RDOK", ServerWire.WriteSmInt(i)))])
    else r
  }

  predicate AllReady(ctxs: seq<Ctx>) {
    forall k | 0 <= k < |ctxs| :: ctxs[k].ready
  }

  /**
   * `check_start_conditions`: with at least two players the contexts are
   * synchronised first (which clears readiness when the player list
   * changed); then, if every context is ready, the game starts with a
   * fresh deck, an empty pot and no community cards.
   */
  function CheckStartConditions(r: Room, order: seq<int>): (r': Room)
    requires Good(r) && Deck.IsShuffle(order)
    ensures Good(r')
    ensures r'.state == Dealing <==>
      (|r.connected| >= 2 && |r.ctxs| == |r.connected| && AllReady(r.ctxs)) || (r.state == Dealing)
    ensures r'.state == Dealing && r.state != Dealing ==>
      && r'.pot == 0 && r'.phase == PreFlop && r'.community == []
      && r'.deck == Deck.Reset(order) && r'.sent == r.sent + [Broadcast(Bare("GMST"))]
    ensures r'.state != Dealing ==> r'.state == r.state && r'.sent == r.sent
  {
    if |r.connected| < 2 then r
    else
      var r1 := if |r.connected| != |r.ctxs| then SyncContexts(r) else r;
      assert |r.connected| != |r.ctxs| ==> !AllReady(r1.ctxs) by {
        if |r.connected| != |r.ctxs| {
          assert !r1.ctxs[0].ready;
        }
      }
      if AllReady(r1.ctxs) then
        r1.(state := Dealing, deck := Deck.Reset(order), pot := 0, phase := PreFlop, community := [],
            sent := r1.sent + [Broadcast(Bare("GMST"))])
      else r1
  }

  /** Everyone readying up in a full lobby of at least two makes the next check start the game. */
  function ReadyAll(r: Room, n: nat): (r': Room)
    requires Good(r) && n <= |r.ctxs|
    ensures Good(r') && r'.state == r.state && |r'.ctxs| == |r.ctxs| && r'.connected == r.connected
    ensures forall k | 0 <= k < n :: r'.ctxs[k].ready
    ensures forall k | n <= k < |r.ctxs| :: r'.ctxs[k] == r.ctxs[k]
  {
    if n == 0 then r else HandleLobbyReady(ReadyAll(r, n - 1), n - 1)
  }

  lemma {:induction false} ReadyThenStart(r: Room, order: seq<int>)
    requires Good(r) && Deck.IsShuffle(order)
    requires |r.connected| >= 2 && |r.ctxs| == |r.connected|
    ensures CheckStartConditions(ReadyAll(r, |r.ctxs|), order).state == Dealing
  {
    var r1 := ReadyAll(r, |r.ctxs|);
    assert AllReady(r1.ctxs);
  }

  // ---------------------------------------------------------------------
  // Turns, phases and the betting round
  // ---------------------------------------------------------------------

  function PhaseIndex(p: RoundPhase): nat {
    match p
    case PreFlop => 0
    case Flop => 1
    case Turn => 2
    case River => 3
  }

  /**
   * `advance_phase`: after the river the hand goes to showdown; otherwise
   * the next street is dealt.
   */
  function AdvancePhase(r: Room): (r': Room)
    ensures r.phase == River ==> r'.state == Showdown && r'.phase == River
    ensures r.phase != River ==> r'.state == RevealCommunity && PhaseIndex(r'.phase) == PhaseIndex(r.phase) + 1
    ensures r' == r.(state := r'.state, phase := r'.phase)
  {
    match r.phase
    case River => r.(state := Showdown)
    case PreFlop => r.(phase := Flop, state := RevealCommunity)
    case Flop => r.(phase := Turn, state := RevealCommunity)
    case Turn => r.(phase := River, state := RevealCommunity)
  }

  /** Context fields other than `folded` are equal. */
  predicate SameStakes(a: seq<Ctx>, b: seq<Ctx>) {
    |a| == |b| && forall k | 0 <= k < |a| :: a[k].roundBet == b[k].roundBet && a[k].hand == b[k].hand && a[k].ready == b[k].ready
  }

  /**
   * `start_next_turn_or_phase`: queued players whose connection is gone
   * are folded and skipped; the first connected one is given the turn;
   * an exhausted queue advances the phase.
   */
  function StartNextTurnOrPhase(r: Room): (r': Room)
    requires Good(r)
    ensures Good(r') && SameStakes(r.ctxs, r'.ctxs)
    ensures r' == r.(ctxs := r'.ctxs, sent := r'.sent, queue := r'.queue, waiting := r'.waiting,
                     state := r'.state, phase := r'.phase)
    ensures forall k | 0 <= k < |r.ctxs| :: r.ctxs[k].folded ==> r'.ctxs[k].folded
    decreases |r.queue|
  {
    if |r.queue| == 0 then AdvancePhase(r)
    else
      var next := r.queue[0];
      if !r.connected[next] then StartNextTurnOrPhase(SkipAbsent(r))
      else r.(waiting := true, sent := r.sent + [Broadcast(With("TURN", ZeroPad(next, 2)))])
  }

  /**
   * What `start_next_turn_or_phase` leaves: a suffix of the queue whose
   * skipped prefix were all disconnected and are now folded; a non-empty
   * queue's front player is connected and awaited in the same phase; an
   * empty one has advanced the phase.
   */
  lemma StartNextTurnFacts(r: Room)
    requires Good(r)
    ensures var r' := StartNextTurnOrPhase(r);
      && |r'.queue| <= |r.queue| && r'.queue == r.queue[|r.queue| - |r'.queue|..]
      && (forall k | 0 <= k < |r.queue| - |r'.queue| :: !r.connected[r.queue[k]] && r'.ctxs[r.queue[k]].folded)
      && (|r'.queue| > 0 ==> r'.connected[r'.queue[0]] && r'.waiting && r'.state == r.state && r'.phase == r.phase)
      && (|r'.queue| == 0 ==> r'.state == AdvancePhase(r).state && r'.phase == AdvancePhase(r).phase)
  {
    TurnSuffix(r);
    TurnSkipped(r);
    TurnFront(r);
  }

  lemma {:induction false} TurnSuffix(r: Room)
    requires Good(r)
    ensures IsSuffix(StartNextTurnOrPhase(r).queue, r.queue)
    decreases |r.queue|
  {
    var r' := StartNextTurnOrPhase(r);
    if |r.queue| > 0 && !r.connected[r.queue[0]] {
      var r1 := SkipAbsent(r);
      assert r' == StartNextTurnOrPhase(r1);
      TurnSuffix(r1);
      SuffixOfTail(r'.queue, r.queue);
    } else {
      assert r'.queue == r.queue;
    }
  }

  /** `a` is what is left of `b` after dropping some of its front. */
  predicate IsSuffix(a: seq<int>, b: seq<int>) {
    |a| <= |b| && a == b[|b| - |a|..]
  }

  lemma SuffixOfTail(a: seq<int>, b: seq<int>)
    requires |b| > 0 && IsSuffix(a, b[1..])
    ensures IsSuffix(a, b)
  {
    assert b[1..][|b| - 1 - |a|..] == b[|b| - |a|..];
  }

  lemma {:induction false} TurnSkipped(r: Room)
    requires Good(r)
    ensures var r' := StartNextTurnOrPhase(r);
      && |r'.queue| <= |r.queue|
      && forall k | 0 <= k < |r.queue| - |r'.queue| :: !r.connected[r.queue[k]] && r'.ctxs[r.queue[k]].folded
    decreases |r.queue|
  {
    if |r.queue| > 0 && !r.connected[r.queue[0]] {
      var r1 := SkipAbsent(r);
      TurnSkipped(r1);
      var r2 := StartNextTurnOrPhase(r1);
      forall k | 0 <= k < |r.queue| - |r2.queue|
        ensures !r.connected[r.queue[k]] && r2.ctxs[r.queue[k]].folded
      {
        if k > 0 {
          assert r1.queue[k - 1] == r.queue[k];
        }
      }
    }
  }

  lemma {:induction false} TurnFront(r: Room)
    requires Good(r)
    ensures var r' := StartNextTurnOrPhase(r);
      && (|r'.queue| > 0 ==> r'.connected[r'.queue[0]] && r'.waiting && r'.state == r.state && r'.phase == r.phase)
      && (|r'.queue| == 0 ==> r'.state == AdvancePhase(r).state && r'.phase == AdvancePhase(r).phase)
    decreases |r.queue|
  {
    if |r.queue| > 0 && !r.connected[r.queue[0]] {
      var r1 := SkipAbsent(r);
      TurnFront(r1);
      assert AdvancePhase(r1).phase == AdvancePhase(r).phase && AdvancePhase(r1).state == AdvancePhase(r).state;
    }
  }

  /** One step of `start_next_turn_or_phase`: the disconnected player at the front is folded and dropped. */
  function SkipAbsent(r: Room): (r': Room)
    requires Good(r) && |r.queue| > 0 && !r.connected[r.queue[0]]
    ensures Good(r') && SameStakes(r.ctxs, r'.ctxs)
    ensures r' == r.(ctxs := r'.ctxs, sent := r'.sent, queue := r.queue[1..])
    ensures r'.ctxs[r.queue[0]].folded
    ensures forall k | 0 <= k < |r.ctxs| :: r.ctxs[k].folded ==> r'.ctxs[k].folded
  {
    var next := r.queue[0];
    var r1 := r.(ctxs := r.ctxs[next := r.ctxs[next].(folded := true)],
                 sent := r.sent + [Broadcast(With("FOLD", ZeroPad(next, 2)))],
                 queue := r.queue[1..]);
    assert forall k | 0 <= k < |r1.queue| :: r1.queue[k] == r.queue[k + 1];
    r1
  }

  /**
   * The loop of `requeue_active_players` from seat `i` on: each seat that
   * is not the aggressor, not folded and not already queued is appended.
   */
  function RequeueFrom(ctxs: seq<Ctx>, aggressor: int, queue: seq<int>, i: nat): (q: seq<int>)
    requires i <= |ctxs|
    ensures |q| >= |queue| && q[..|queue|] == queue
    ensures forall k | |queue| <= k < |q| :: Requeued(ctxs, aggressor, queue, i, q[k])
    decreases |ctxs| - i
  {
    if i == |ctxs| then queue
    else if i == aggressor || ctxs[i].folded || i in queue then RequeueFrom(ctxs, aggressor, queue, i + 1)
    else
      var q := RequeueFrom(ctxs, aggressor, queue + [i], i + 1);
      assert q[..|queue| + 1][..|queue|] == q[..|queue|];
      assert q[|queue|] == i;
      q
  }

  /** A seat the loop may append: from `i` on, not the aggressor, not folded, not already queued. */
  predicate Requeued(ctxs: seq<Ctx>, aggressor: int, queue: seq<int>, i: nat, x: int) {
    i <= x < |ctxs| && x != aggressor && !ctxs[x].folded && x !in queue
  }

  /** The loop appends in seat order. */
  lemma {:induction false} RequeueFromInOrder(ctxs: seq<Ctx>, aggressor: int, queue: seq<int>, i: nat)
    requires i <= |ctxs|
    ensures InOrderFrom(RequeueFrom(ctxs, aggressor, queue, i), |queue|)
    decreases |ctxs| - i
  {
    if i < |ctxs| {
      var q := RequeueFrom(ctxs, aggressor, queue, i);
      if i == aggressor || ctxs[i].folded || i in queue {
        assert q == RequeueFrom(ctxs, aggressor, queue, i + 1);
        RequeueFromInOrder(ctxs, aggressor, queue, i + 1);
      } else {
        RequeueFromInOrder(ctxs, aggressor, queue + [i], i + 1);
        assert q == RequeueFrom(ctxs, aggressor, queue + [i], i + 1);
        assert q[|queue|] == i;
        forall k, l | |queue| <= k < l < |q| ensures q[k] < q[l] {
          if k == |queue| {
            assert Requeued(ctxs, aggressor, queue + [i], i + 1, q[l]);
          }
        }
      }
    }
  }

  /** From position `n` on, strictly increasing. */
  predicate InOrderFrom(q: seq<int>, n: nat) {
    forall k, l | n <= k < l < |q| :: q[k] < q[l]
  }

  /** Every seat from `i` on that is not the aggressor and not folded ends up queued. */
  lemma {:induction false} RequeueFromComplete(ctxs: seq<Ctx>, aggressor: int, queue: seq<int>, i: nat, j: int)
    requires i <= j < |ctxs| && j != aggressor && !ctxs[j].folded
    ensures j in RequeueFrom(ctxs, aggressor, queue, i)
    decreases |ctxs| - i
  {
    var q := RequeueFrom(ctxs, aggressor, queue, i);
    if j in queue {
      var k :| 0 <= k < |queue| && queue[k] == j;
      assert q[k] == j;
    } else if i == j {
      var q' := RequeueFrom(ctxs, aggressor, queue + [i], i + 1);
      assert q == q' && q'[..|queue| + 1][|queue|] == q'[|queue|];
    } else if i == aggressor || ctxs[i].folded || i in queue {
      RequeueFromComplete(ctxs, aggressor, queue, i + 1, j);
    } else {
      RequeueFromComplete(ctxs, aggressor, queue + [i], i + 1, j);
    }
  }

  /** Appending only seats not yet queued, in seat order, keeps a queue free of repeats. */
  lemma RequeueFromDistinct(ctxs: seq<Ctx>, aggressor: int, queue: seq<int>, i: nat)
    requires i <= |ctxs| && Deck.Distinct(queue)
    ensures Deck.Distinct(RequeueFrom(ctxs, aggressor, queue, i))
  {
    var q := RequeueFrom(ctxs, aggressor, queue, i);
    RequeueFromInOrder(ctxs, aggressor, queue, i);
    forall k, l | 0 <= k < l < |q| ensures q[k] != q[l] {
      if l < |queue| {
        assert q[k] == queue[k] && q[l] == queue[l];
      } else if k < |queue| {
        assert q[k] == queue[k] && queue[k] in queue && Requeued(ctxs, aggressor, queue, i, q[l]);
      } else {
        assert q[k] < q[l];
      }
    }
  }

  /** `requeue_active_players`. */
  function RequeueActivePlayers(r: Room, aggressor: int): (r': Room)
    requires Good(r)
    ensures Wf(r') && r' == r.(queue := r'.queue)
    ensures |r'.queue| >= |r.queue| && r'.queue[..|r.queue|] == r.queue
    ensures forall j | 0 <= j < |r.ctxs| && j != aggressor && !r.ctxs[j].folded :: j in r'.queue
    ensures forall k | |r.queue| <= k < |r'.queue| :: r'.queue[k] != aggressor && !r.ctxs[r'.queue[k]].folded
  {
    var q := RequeueFrom(r.ctxs, aggressor, r.queue, 0);
    RequeueFromDistinct(r.ctxs, aggressor, r.queue, 0);
    forall j | 0 <= j < |r.ctxs| && j != aggressor && !r.ctxs[j].folded ensures j in q {
      RequeueFromComplete(r.ctxs, aggressor, r.queue, 0, j);
    }
    assert forall k | 0 <= k < |q| :: 0 <= q[k] < |r.ctxs| by {
      forall k | 0 <= k < |q| ensures 0 <= q[k] < |r.ctxs| {
        if k < |r.queue| {
          assert q[k] == r.queue[k];
        }
      }
    }
    r.(queue := q)
  }

  /** The stake fields after a betting message, before the turn moves on. */
  datatype Outcome = Outcome(room: Room, accepted: bool)

  /** `std::stoi(msg.payload.value_or("0"))`, with a thrown exception leaving the amount at 0. */
  function BetAmount(msg: MsgStruct): int {
    CStoi(msg.payload.GetOr("0")).GetOr(0)
  }

  /** `send_error`. */
  function SendError(r: Room, i: int, text: string): (r': Room)
    ensures r' == r.(sent := r'.sent)
    ensures 0 <= i < |r.connected| ==> r'.sent == r.sent + [Direct(i, With("ERR_", text))]
    ensures !(0 <= i < |r.connected|) ==> r'.sent == r.sent
  {
    if 0 <= i < |r.connected| then r.(sent := r.sent + [Direct(i, With("ERR_", text))]) else r
  }

  /**
   * The body of `handle_betting_action` up to the `action_accepted` check:
   * what each action does to the stakes and whether it was accepted.
   */
  function ApplyAction(r: Room, i: int, msg: MsgStruct): (o: Outcome)
    requires Good(r) && |r.queue| > 0 && r.queue[0] == i
    ensures Wf(o.room) && |o.room.queue| > 0 && o.room.queue[0] == i
    ensures |o.room.ctxs| == |r.ctxs| && o.room.connected == r.connected
    ensures forall k | 0 <= k < |r.ctxs| && k != i :: o.room.ctxs[k].roundBet == r.ctxs[k].roundBet
    ensures msg.code == "FOLD" ==> o.accepted && o.room.ctxs[i].folded
    ensures msg.code == "CHCK" ==> (o.accepted <==> r.highBet == r.ctxs[i].roundBet)
    ensures msg.code == "CALL" ==> o.accepted
    ensures msg.code == "CALL" && r.highBet > r.ctxs[i].roundBet ==>
      o.room.ctxs[i].roundBet == r.highBet && o.room.pot == r.pot + (r.highBet - r.ctxs[i].roundBet)
    ensures msg.code == "BETT" ==> (o.accepted <==> !r.betPlaced && BetAmount(msg) > 0)
    ensures msg.code == "BETT" && o.accepted ==>
      && o.room.highBet == BetAmount(msg) && o.room.ctxs[i].roundBet == BetAmount(msg)
      && o.room.pot == r.pot + BetAmount(msg) && o.room.betPlaced
    ensures !o.accepted ==> o.room.pot == r.pot && o.room.ctxs == r.ctxs && o.room.queue == r.queue
    ensures msg.code !in {"FOLD", "CHCK", "CALL", "BETT"} ==> o == Outcome(r, false)
  {
    if msg.code == "FOLD" then ApplyFold(r, i)
    else if msg.code == "CHCK" then ApplyCheck(r, i)
    else if msg.code == "CALL" then ApplyCall(r, i)
    else if msg.code == "BETT" then ApplyBet(r, i, BetAmount(msg))
    else Outcome(r, false)
  }

  /** What every action leaves alone: the turn stays with `i`, the seats and connections, everyone else's round bet. */
  predicate Keeps(r: Room, i: int, o: Outcome)
    requires Good(r) && |r.queue| > 0 && r.queue[0] == i
  {
    && Wf(o.room) && |o.room.queue| > 0 && o.room.queue[0] == i
    && |o.room.ctxs| == |r.ctxs| && o.room.connected == r.connected
    && (forall k | 0 <= k < |r.ctxs| && k != i :: o.room.ctxs[k].roundBet == r.ctxs[k].roundBet)
  }

  /** `FOLD`: always accepted; the player folds. */
  function ApplyFold(r: Room, i: int): (o: Outcome)
    requires Good(r) && |r.queue| > 0 && r.queue[0] == i
    ensures Keeps(r, i, o) && o.accepted && o.room.ctxs[i].folded
    ensures o.room.pot == r.pot && o.room.ctxs[i].roundBet == r.ctxs[i].roundBet
  {
    Outcome(r.(ctxs := r.ctxs[i := r.ctxs[i].(folded := true)], sent := r.sent + [Broadcast(With("FOLD", ZeroPad(i, 2)))]), true)
  }

  /** `CHCK`: accepted only with nothing to call. */
  function ApplyCheck(r: Room, i: int): (o: Outcome)
    requires Good(r) && |r.queue| > 0 && r.queue[0] == i
    ensures Keeps(r, i, o) && (o.accepted <==> r.highBet == r.ctxs[i].roundBet)
    ensures o.room.pot == r.pot && o.room.ctxs == r.ctxs && o.room.queue == r.queue
  {
    if r.highBet == r.ctxs[i].roundBet then Outcome(r.(sent := r.sent + [Broadcast(With("CHCK", ZeroPad(i, 2)))]), true)
    else Outcome(SendError(r, i, "Cannot check, must Call or Fold"), false)
  }

  /** `CALL`: always accepted; with something to call, the player matches the high bet and the pot takes the difference, otherwise it is a check. */
  function ApplyCall(r: Room, i: int): (o: Outcome)
    requires Good(r) && |r.queue| > 0 && r.queue[0] == i
    ensures Keeps(r, i, o) && o.accepted
    ensures r.highBet > r.ctxs[i].roundBet ==>
      o.room.ctxs[i].roundBet == r.highBet && o.room.pot == r.pot + (r.highBet - r.ctxs[i].roundBet)
    ensures r.highBet <= r.ctxs[i].roundBet ==> o.room.pot == r.pot && o.room.ctxs == r.ctxs
  {
    var ctx := r.ctxs[i];
    var tag := ZeroPad(i, 2);
    if r.highBet > ctx.roundBet then
      var toCall := r.highBet - ctx.roundBet;
      Outcome(r.(ctxs := r.ctxs[i := ctx.(roundBet := ctx.roundBet + toCall)], pot := r.pot + toCall,
                 sent := r.sent + [Broadcast(With("CALL", tag + GoPadded(r.highBet, 4)))]), true)
    else Outcome(r.(sent := r.sent + [Broadcast(With("CHCK", tag))]), true)
  }

  /** `BETT`: accepted once per round with a positive amount, which becomes the high bet; everyone else still in is queued again. */
  function ApplyBet(r: Room, i: int, amount: int): (o: Outcome)
    requires Good(r) && |r.queue| > 0 && r.queue[0] == i
    ensures Keeps(r, i, o) && (o.accepted <==> !r.betPlaced && amount > 0)
    ensures o.accepted ==>
      && o.room.highBet == amount && o.room.ctxs[i].roundBet == amount
      && o.room.pot == r.pot + amount && o.room.betPlaced
    ensures !o.accepted ==> o.room.pot == r.pot && o.room.ctxs == r.ctxs && o.room.queue == r.queue
  {
    if r.betPlaced then Outcome(SendError(r, i, "Cannot raise. Only Call or Fold allowed."), false)
    else if amount > 0 then
      var r1 := r.(highBet := amount, ctxs := r.ctxs[i := r.ctxs[i].(roundBet := amount)], pot := r.pot + amount,
                   betPlaced := true, sent := r.sent + [Broadcast(With("BETT", ZeroPad(i, 2) + GoPadded(amount, 4)))]);
      var r2 := RequeueActivePlayers(r1, i);
      assert r2.queue[..|r1.queue|] == r1.queue;
      Outcome(r2, true)
    else Outcome(r, false)
  }

  /**
   * An action changes the pot by exactly what it adds to the acting
   * player's round bet: chips are never created or lost.
   */
  lemma ActionConservesStake(r: Room, i: int, msg: MsgStruct)
    requires Good(r) && |r.queue| > 0 && r.queue[0] == i
    ensures ApplyAction(r, i, msg).room.pot - r.pot ==
      ApplyAction(r, i, msg).room.ctxs[i].roundBet - r.ctxs[i].roundBet
  {
  }

  /**
   * `handle_betting_action`: an accepted action removes the actor from
   * the front of the queue and moves to the next turn or phase; a refused
   * one leaves the turn with the same player.
   */
  function HandleBettingAction(r: Room, i: int, msg: MsgStruct): (r': Room)
    requires Good(r) && |r.queue| > 0 && r.queue[0] == i
    ensures Good(r')
    ensures r'.pot == ApplyAction(r, i, msg).room.pot && r'.highBet == ApplyAction(r, i, msg).room.highBet
    ensures !ApplyAction(r, i, msg).accepted ==> r' == ApplyAction(r, i, msg).room
    ensures ApplyAction(r, i, msg).accepted ==> i !in r'.queue
  {
    var o := ApplyAction(r, i, msg);
    if o.accepted then
      var r1 := o.room.(queue := o.room.queue[1..], waiting := false);
      assert RoundInv(r1) by {
        if !r1.betPlaced {
          assert msg.code != "BETT" || !o.accepted;
          forall k | 0 <= k < |r1.queue| ensures r1.ctxs[r1.queue[k]].roundBet == 0 {
            assert r1.queue[k] == r.queue[k + 1];
          }
        }
      }
      StartNextTurnFacts(r1);
      var r2 := StartNextTurnOrPhase(r1);
      assert i !in r1.queue by {
        forall k | 0 <= k < |r1.queue| ensures r1.queue[k] != i {
          assert r1.queue[k] == o.room.queue[k + 1];
        }
      }
      r2
    else o.room
  }

  /**
   * `dispatch_message`: in `WaitingForStart` only `RDY1` has an effect; in
   * `BettingRound` only the player at the front of the queue is heard;
   * in every other state messages are ignored.
   */
  function DispatchMessage(r: Room, i: int, msg: MsgStruct): (r': Room)
    requires Good(r) && 0 <= i
    ensures Good(r')
    ensures r.state == WaitingForStart ==> r' == if msg.code == "RDY1" then HandleLobbyReady(r, i) else r
    ensures r.state == BettingRound && (|r.queue| == 0 || r.queue[0] != i) ==> r' == r
    ensures r.state != WaitingForStart && r.state != BettingRound ==> r' == r
  {
    match r.state
    case WaitingForStart => if msg.code == "RDY1" then HandleLobbyReady(r, i) else r
    case BettingRound =>
      if |r.queue| > 0 && r.queue[0] == i then HandleBettingAction(r, i, msg) else r
    case _ => r
  }

  /**
   * `process_all_players_messages`, with each player's already-received
   * messages given: contexts are synchronised if the player list changed,
   * then every player's messages are dispatched in order.
   */
  function ProcessAllPlayersMessages(r: Room, inboxes: seq<seq<MsgStruct>>): (r': Room)
    requires Good(r) && |inboxes| == |r.connected|
    ensures Good(r') && |r'.ctxs| == |r'.connected| == |r.connected|
  {
    var r1 := if |r.connected| != |r.ctxs| then SyncContexts(r) else r;
    DispatchAll(r1, inboxes, 0)
  }

  function DispatchAll(r: Room, inboxes: seq<seq<MsgStruct>>, i: nat): (r': Room)
    requires Good(r) && i <= |inboxes|
    ensures Good(r') && r'.connected == r.connected && |r'.ctxs| == |r.ctxs|
    decreases |inboxes| - i, 0
  {
    if i == |inboxes| then r else DispatchAll(DispatchEach(r, i, inboxes[i]), inboxes, i + 1)
  }

  function DispatchEach(r: Room, i: nat, msgs: seq<MsgStruct>): (r': Room)
    requires Good(r)
    ensures Good(r') && r'.connected == r.connected && |r'.ctxs| == |r.ctxs|
    decreases |msgs|
  {
    if |msgs| == 0 then r else DispatchEach(DispatchMessage(r, i, msgs[0]), i, msgs[1..])
  }

  // ---------------------------------------------------------------------
  // Dealing and the community cards
  // ---------------------------------------------------------------------

  /** The queue a new betting round starts with: every non-folded, connected player from `i` on, in seat order. */
  function ActiveFrom(r: Room, i: nat): (q: seq<int>)
    requires |r.ctxs| <= |r.connected| && i <= |r.ctxs|
    ensures forall k | 0 <= k < |q| :: i <= q[k] < |r.ctxs| && !r.ctxs[q[k]].folded && r.connected[q[k]]
    ensures forall j | i <= j < |r.ctxs| && !r.ctxs[j].folded && r.connected[j] :: j in q
    ensures forall k, l | 0 <= k < l < |q| :: q[k] < q[l]
    decreases |r.ctxs| - i
  {
    if i == |r.ctxs| then []
    else if !r.ctxs[i].folded && r.connected[i] then [i] + ActiveFrom(r, i + 1)
    else ActiveFrom(r, i + 1)
  }

  /**
   * `prepare_new_betting_round`: the queue becomes the active players in
   * seat order, their round bets are cleared, nothing is bet yet; then the
   * first turn is given.
   */
  function PrepareNewBettingRound(r: Room): (r': Room)
    requires Wf(r)
    ensures Good(r') && !r'.betPlaced && r'.highBet == 0 && r'.pot == r.pot
    ensures r'.community == r.community && r'.deck == r.deck && |r'.ctxs| == |r.ctxs|
    ensures forall k | 0 <= k < |r.ctxs| :: r'.ctxs[k].hand == r.ctxs[k].hand && r'.ctxs[k].ready == r.ctxs[k].ready
    ensures forall k | 0 <= k < |r'.queue| :: r'.connected[r'.queue[k]]
    ensures |r'.queue| > 0 ==> r'.state == BettingRound && r'.waiting
    ensures |r'.queue| == 0 ==> r'.state == AdvancePhase(r).state && r'.phase == AdvancePhase(r).phase
  {
    var r1 := ResetRound(r);
    StartNextTurnFacts(r1);
    StartNextTurnOrPhase(r1)
  }

  /** The part of `prepare_new_betting_round` before the first turn is given. */
  function ResetRound(r: Room): (r': Room)
    requires Wf(r)
    ensures Good(r') && !r'.betPlaced && r'.highBet == 0 && r'.state == BettingRound
    ensures r' == r.(queue := r'.queue, ctxs := r'.ctxs, highBet := 0, betPlaced := false, state := BettingRound)
    ensures r'.queue == ActiveFrom(r, 0) && |r'.ctxs| == |r.ctxs|
    ensures forall k | 0 <= k < |r.ctxs| :: r'.ctxs[k] == r.ctxs[k].(roundBet := r'.ctxs[k].roundBet)
    ensures forall k | 0 <= k < |r'.queue| :: !r'.ctxs[r'.queue[k]].folded && r'.connected[r'.queue[k]]
  {
    var q := ActiveFrom(r, 0);
    var ctxs := seq(|r.ctxs|, k requires 0 <= k < |r.ctxs| =>
      if !r.ctxs[k].folded && r.connected[k] then r.ctxs[k].(roundBet := 0) else r.ctxs[k]);
    var r1 := r.(queue := q, ctxs := ctxs, highBet := 0, betPlaced := false, state := BettingRound);
    assert Deck.Distinct(q);
    assert forall k | 0 <= k < |q| :: ctxs[q[k]].roundBet == 0 && !ctxs[q[k]].folded;
    r1
  }

  /** Each active player is queued exactly once, and no one else is. */
  lemma PrepareQueuesActivePlayers(r: Room)
    requires Wf(r)
    ensures var q := ActiveFrom(r, 0);
      && Deck.Distinct(q)
      && forall j | 0 <= j < |r.ctxs| :: (j in q <==> !r.ctxs[j].folded && r.connected[j])
  {
  }

  /** How many community cards `reveal_next_cards` turns over in a phase. */
  function RevealCount(p: RoundPhase): nat {
    if p == Flop then 3 else 1
  }

  /** One broadcast per card, in draw order. */
  function CardBroadcasts(code: string, cards: seq<int>): (s: seq<Sent>)
    ensures |s| == |cards|
  {
    if |cards| == 0 then [] else [Broadcast(With(code, ServerWire.CardText(cards[0])))] + CardBroadcasts(code, cards[1..])
  }

  /**
   * `reveal_next_cards`: three cards on the flop and one otherwise are
   * drawn onto the board and announced; then a new betting round starts.
   */
  function RevealNextCards(r: Room): (r': Room)
    requires Wf(r)
    ensures Good(r')
    ensures |r'.community| == |r.community| + RevealCount(r.phase) && r'.community[..|r.community|] == r.community
    ensures var drawn := Deck.DrawN(r.deck, RevealCount(r.phase));
      r'.community[|r.community|..] == drawn.0 && r'.deck == drawn.1
  {
    var drawn := Deck.DrawN(r.deck, RevealCount(r.phase));
    var r1 := r.(deck := drawn.1, community := r.community + drawn.0, sent := r.sent + CardBroadcasts("CRVR", drawn.0));
    assert r1.community[..|r.community|] == r.community;
    assert r1.community[|r.community|..] == drawn.0;
    PrepareNewBettingRound(r1)
  }

  /** With enough cards, the new cards are the phase's count from the back of the deck, in draw order, and the rest is left. */
  lemma RevealTakesTop(r: Room)
    requires Wf(r) && |r.deck| >= RevealCount(r.phase)
    ensures var r' := RevealNextCards(r);
      && r'.community[|r.community|..] == Deck.Reversed(r.deck[|r.deck| - RevealCount(r.phase)..])
      && r'.deck == r.deck[..|r.deck| - RevealCount(r.phase)]
  {
    var r', count := RevealNextCards(r), RevealCount(r.phase);
    var drawn := Deck.DrawN(r.deck, count);
    Deck.DrawNTakesTop(r.deck, count);
    assert r'.community[|r.community|..] == drawn.0 && r'.deck == drawn.1;
  }

  /**
   * Across flop, turn and river the board fills to five cards: the five
   * from the back of the deck, in draw order. `r2` and `r3` are the rooms
   * the betting between two reveals leaves, which keeps the board and the
   * deck and has moved the phase on.
   */
  lemma BoardFillsToFive(r1: Room, r2: Room, r3: Room)
    requires Wf(r1) && r1.phase == Flop && r1.community == [] && |r1.deck| >= 5
    requires Wf(r2) && r2.phase == Turn
    requires r2.community == RevealNextCards(r1).community && r2.deck == RevealNextCards(r1).deck
    requires Wf(r3) && r3.phase == River
    requires r3.community == RevealNextCards(r2).community && r3.deck == RevealNextCards(r2).deck
    ensures var board := RevealNextCards(r3).community;
      && |board| == 5
      && board == Deck.Reversed(r1.deck[|r1.deck| - 5..])
      && RevealNextCards(r3).deck == r1.deck[..|r1.deck| - 5]
  {
    var s3 := RevealNextCards(r3);
    FlopReveal(r1);
    OneMoreReveal(r2);
    OneMoreReveal(r3);
    assert r2.community == Deck.Reversed(r1.deck[|r1.deck| - 3..]) && r2.deck == r1.deck[..|r1.deck| - 3];
    assert r3.community == r2.community + [r2.deck[|r2.deck| - 1]] && r3.deck == r2.deck[..|r2.deck| - 1];
    assert s3.community == r3.community + [r3.deck[|r3.deck| - 1]] && s3.deck == r3.deck[..|r3.deck| - 1];
    FiveFromTheBack(r1.deck, r2.community, r2.deck, r3.community, r3.deck, s3.community, s3.deck);
  }

  /** The board and deck after the flop, the turn and the river, as sequences. */
  lemma FiveFromTheBack(d: seq<int>, b1: seq<int>, e1: seq<int>, b2: seq<int>, e2: seq<int>, b3: seq<int>, e3: seq<int>)
    requires |d| >= 5 && b1 == Deck.Reversed(d[|d| - 3..]) && e1 == d[..|d| - 3]
    requires b2 == b1 + [e1[|e1| - 1]] && e2 == e1[..|e1| - 1]
    requires b3 == b2 + [e2[|e2| - 1]] && e3 == e2[..|e2| - 1]
    ensures |b3| == 5 && b3 == Deck.Reversed(d[|d| - 5..]) && e3 == d[..|d| - 5]
  {
    var n := |d|;
    assert e1[|e1| - 1] == d[n - 4] && e2 == d[..n - 4];
    assert e2[|e2| - 1] == d[n - 5] && e3 == d[..n - 5];
    Deck.TopFiveOrder(d);
  }

  /** The flop onto an empty board is the three cards from the back of the deck, in draw order. */
  lemma FlopReveal(r: Room)
    requires Wf(r) && r.phase == Flop && r.community == [] && |r.deck| >= 3
    ensures RevealNextCards(r).community == Deck.Reversed(r.deck[|r.deck| - 3..])
    ensures RevealNextCards(r).deck == r.deck[..|r.deck| - 3]
  {
    RevealTakesTop(r);
    assert RevealNextCards(r).community == RevealNextCards(r).community[0..];
  }

  /** The turn and the river each add the card from the back of the deck. */
  lemma OneMoreReveal(r: Room)
    requires Wf(r) && r.phase != Flop && |r.deck| >= 1
    ensures RevealNextCards(r).community == r.community + [r.deck[|r.deck| - 1]]
    ensures RevealNextCards(r).deck == r.deck[..|r.deck| - 1]
  {
    var b := RevealNextCards(r).community;
    RevealTakesTop(r);
    assert b == b[..|r.community|] + b[|r.community|..];
  }

  /** The `CDTP` messages of `perform_deal` from player `k` on: each player is sent its two cards, in order. */
  function DealMessages(hands: seq<seq<int>>, k: nat): (m: seq<Sent>)
    requires k <= |hands| && forall j | 0 <= j < |hands| :: |hands[j]| == 2
    ensures |m| == 2 * (|hands| - k)
    ensures forall j, a | k <= j < |hands| && 0 <= a < 2 :: m[2 * (j - k) + a] == Direct(j, With("CDTP", ServerWire.CardText(hands[j][a])))
    decreases |hands| - k
  {
    if k == |hands| then []
    else
      var rest := DealMessages(hands, k + 1);
      var m := [Direct(k, With("CDTP", ServerWire.CardText(hands[k][0]))), Direct(k, With("CDTP", ServerWire.CardText(hands[k][1])))] + rest;
      m
  }

  /**
   * `perform_deal`: every context is reset and dealt two cards from the
   * back of the deck, then the first betting round starts.
   */
  function PerformDeal(r: Room): (r': Room)
    requires Wf(r)
    ensures Good(r') && |r'.ctxs| == |r.ctxs| && r'.community == r.community
    ensures forall j | 0 <= j < |r.ctxs| :: !r'.ctxs[j].ready && |r'.ctxs[j].hand| == 2
    ensures var dealt := Deck.DealHands(r.deck, |r.ctxs|);
      r'.deck == dealt.1 && forall j | 0 <= j < |r.ctxs| :: r'.ctxs[j].hand == dealt.0[j]
  {
    PrepareNewBettingRound(DealAll(r))
  }

  /** With enough cards, player `j` gets the `j`-th pair from the back of the deck and the bottom of the deck is left. */
  lemma PerformDealFromTop(r: Room)
    requires Wf(r) && |r.deck| >= 2 * |r.ctxs|
    ensures var r' := PerformDeal(r);
      && r'.deck == r.deck[..|r.deck| - 2 * |r.ctxs|]
      && forall j | 0 <= j < |r.ctxs| :: r'.ctxs[j].hand == [Deck.DealtCard(r.deck, j, 0), Deck.DealtCard(r.deck, j, 1)]
  {
    Deck.DealHandsFromTop(r.deck, |r.ctxs|);
  }

  /** The dealing loop of `perform_deal`: each context reset, given two cards and sent them. */
  function DealAll(r: Room): (r': Room)
    requires Wf(r)
    ensures Wf(r') && |r'.ctxs| == |r.ctxs| && r'.community == r.community && r'.queue == r.queue
    ensures forall j | 0 <= j < |r.ctxs| :: r'.ctxs[j] == FRESH_CTX.(hand := r'.ctxs[j].hand) && |r'.ctxs[j].hand| == 2
    ensures |r'.sent| == |r.sent| + 2 * |r.ctxs| && r'.sent[..|r.sent|] == r.sent
    ensures var dealt := Deck.DealHands(r.deck, |r.ctxs|);
      r'.deck == dealt.1 && forall j | 0 <= j < |r.ctxs| :: r'.ctxs[j].hand == dealt.0[j]
  {
    var dealt := Deck.DealHands(r.deck, |r.ctxs|);
    var ctxs := seq(|r.ctxs|, j requires 0 <= j < |r.ctxs| => FRESH_CTX.(hand := dealt.0[j]));
    var msgs := DealMessages(dealt.0, 0);
    assert (r.sent + msgs)[..|r.sent|] == r.sent;
    r.(ctxs := ctxs, deck := dealt.1, sent := r.sent + msgs)
  }

  /**
   * Dealing from a deck without repeats that holds enough cards gives no
   * card twice and leaves none of the dealt cards in the deck.
   */
  lemma DealtHandsDisjoint(r: Room)
    requires Wf(r) && Deck.Distinct(r.deck) && |r.deck| >= 2 * |r.ctxs|
    ensures var r' := PerformDeal(r);
      && (forall j1, j2, a, b | 0 <= j1 < |r.ctxs| && 0 <= j2 < |r.ctxs| && 0 <= a < 2 && 0 <= b < 2 && (j1, a) != (j2, b) ::
            r'.ctxs[j1].hand[a] != r'.ctxs[j2].hand[b])
      && (forall j, a | 0 <= j < |r.ctxs| && 0 <= a < 2 :: r'.ctxs[j].hand[a] !in r'.deck)
  {
    var r' := PerformDeal(r);
    PerformDealFromTop(r);
    Deck.DealtCardsDistinct(r.deck, |r.ctxs|);
    forall j, a | 0 <= j < |r.ctxs| && 0 <= a < 2 ensures r'.ctxs[j].hand[a] == Deck.DealtCard(r.deck, j, a) {
      assert r'.ctxs[j].hand == [Deck.DealtCard(r.deck, j, 0), Deck.DealtCard(r.deck, j, 1)];
    }
  }
}
