/**
 * The newer, seat-based room of the server (sp/server/src/RoomThread.cpp):
 * four fixed seats that keep a player's nickname, chips and cards across a
 * dropped connection, and a state object (`LobbyState`, `DealingState`,
 * `CommunityCardState`, `BettingState`, `ShowdownState`) whose `on_enter`,
 * `on_tick` and `on_message` drive the game.
 *
 * A connection is reduced to the player's nickname, whether it is still
 * connected, and the messages written to it (`Link.outbox`); a message is
 * "sent" by appending it there. `PlayerSeat` and `RoomContext` are
 * declared outside RoomThread.cpp; their fields are read off their uses
 * there, and a default-constructed seat is taken to be empty, with no
 * chips, no bet and no cards.
 */
module SeatRoom {
  import opened Wrappers
  import opened DecimalText
  import opened PlayerConn
  import Deck
  import ServerWire
  import ClientData
  import ClientRoomCodec

  const ROOM_MAX_PLAYERS: nat := 4
  /** Chips a player brings to a newly taken seat. */
  const START_CHIPS: int := 1000
  /** The bet `BETT` places when its payload is missing or unreadable. */
  const DEFAULT_BET: int := 100

  /** A player's connection, as far as the room uses it. */
  datatype Link = Link(nickname: string, connected: bool, outbox: seq<MsgStruct>)

  /** `PlayerSeat`; `conn` is `None` for a null `connection`. */
  datatype Seat = Seat(
    occupied: bool,
    nickname: string,
    conn: Option<Link>,
    chips: int,
    bet: int,
    folded: bool,
    ready: bool,
    hand: seq<int>)

  /** `PlayerSeat{}`. */
  const EMPTY_SEAT: Seat := Seat(false, "", None, 0, 0, false, false, [])

  datatype Phase = PreFlop | Flop | Turn | River

  /** `RoomContext`. */
  datatype Ctx = Ctx(seats: seq<Seat>, pot: int, community: seq<int>, deck: seq<int>, phase: Phase, dealer: nat)

  /**
   * Four seats, and no seat holds a connection without being taken: a
   * connection only ever enters a seat together with its occupancy, and
   * leaves it when the seat is given up.
   */
  predicate Wf(c: Ctx) {
    |c.seats| == ROOM_MAX_PLAYERS && NoStrayLinks(c.seats)
  }

  predicate NoStrayLinks(seats: seq<Seat>) {
    forall i | 0 <= i < |seats| :: !seats[i].occupied ==> seats[i].conn.None?
  }

  function Bare(code: string): MsgStruct {
    MsgStruct(code, None)
  }

  function With(code: string, payload: string): MsgStruct {
    MsgStruct(code, Some(payload))
  }

  // ---------------------------------------------------------------------------
  // Seats

  /** `is_active`: taken, with a connection that has not dropped. */
  predicate IsActive(s: Seat) {
    s.occupied && s.conn.Some? && s.conn.value.connected
  }

  /** `reset_round`: no chips in the pot this round. */
  function ResetRound(s: Seat): (s': Seat)
    ensures s'.bet == 0 && s'.chips == s.chips && s'.hand == s.hand
    ensures IsActive(s') == IsActive(s) && s'.folded == s.folded && s'.ready == s.ready
  {
    s.(bet := 0)
  }

  /** `reset_game`: a clean slate for the next hand, keeping the player, the connection and the chips. */
  function ResetGame(s: Seat): (s': Seat)
    ensures !s'.folded && !s'.ready && s'.bet == 0 && s'.hand == []
    ensures s'.occupied == s.occupied && s'.nickname == s.nickname && s'.conn == s.conn && s'.chips == s.chips
    ensures IsActive(s') == IsActive(s)
  {
    s.(folded := false, ready := false, bet := 0, hand := [])
  }

  /** Everything about a seat except the messages its connection has been sent. */
  function Quiet(s: Seat): Seat {
    s.(conn := if s.conn.Some? then Some(s.conn.value.(outbox := [])) else None)
  }

  /** The messages a seat's connection has been sent; none without a connection. */
  function Received(s: Seat): seq<MsgStruct> {
    if s.conn.Some? then s.conn.value.outbox else []
  }

  // ---------------------------------------------------------------------------
  // Counting and searching over the seats

  /** How many of the flags are set. */
  function Count(flags: seq<bool>): (n: nat)
    ensures n <= |flags|
    ensures n == 0 <==> forall i | 0 <= i < |flags| :: !flags[i]
    ensures n == |flags| <==> forall i | 0 <= i < |flags| :: flags[i]
  {
    if |flags| == 0 then 0
    else
      var last := flags[|flags| - 1];
      var n := Count(flags[..|flags| - 1]) + (if last then 1 else 0);
      assert forall i | 0 <= i < |flags| - 1 :: flags[..|flags| - 1][i] == flags[i];
      n
  }

  /** Where every set flag of `a` is also set in `b`, `a` counts no more, and the same only when the flags agree. */
  lemma CountMonotone(a: seq<bool>, b: seq<bool>)
    requires |a| == |b| && forall i | 0 <= i < |a| :: a[i] ==> b[i]
    ensures Count(a) <= Count(b)
    ensures Count(a) == Count(b) <==> a == b
  {
    CountBelow(a, b);
    if a != b {
      var j :| 0 <= j < |a| && a[j] != b[j];
      CountStrict(a, b, j);
    }
  }

  /** Dropping the last flag: the count loses one exactly when that flag is set. */
  lemma CountLast(a: seq<bool>)
    requires |a| > 0
    ensures Count(a) == Count(a[..|a| - 1]) + (if a[|a| - 1] then 1 else 0)
  {
  }

  lemma {:induction false} CountBelow(a: seq<bool>, b: seq<bool>)
    requires |a| == |b| && forall i | 0 <= i < |a| :: a[i] ==> b[i]
    ensures Count(a) <= Count(b)
  {
    if |a| > 0 {
      var n := |a| - 1;
      assert forall i | 0 <= i < n :: a[..n][i] == a[i] && b[..n][i] == b[i];
      CountBelow(a[..n], b[..n]);
      CountLast(a);
      CountLast(b);
    }
  }

  /** A flag set in `b` but not in `a` makes `b` count more. */
  lemma {:induction false} CountStrict(a: seq<bool>, b: seq<bool>, j: nat)
    requires |a| == |b| && forall i | 0 <= i < |a| :: a[i] ==> b[i]
    requires j < |a| && !a[j] && b[j]
    ensures Count(a) < Count(b)
  {
    var n := |a| - 1;
    assert forall i | 0 <= i < n :: a[..n][i] == a[i] && b[..n][i] == b[i];
    CountLast(a);
    CountLast(b);
    if j == n {
      CountBelow(a[..n], b[..n]);
    } else {
      CountStrict(a[..n], b[..n], j);
    }
  }

  /** The first set flag at or after `k`, or -1. */
  function First(flags: seq<bool>, k: nat): (r: int)
    requires k <= |flags|
    ensures r == -1 <==> forall i | k <= i < |flags| :: !flags[i]
    ensures r != -1 ==> k <= r < |flags| && flags[r] && forall i | k <= i < r :: !flags[i]
    decreases |flags| - k
  {
    if k == |flags| then -1 else if flags[k] then k else First(flags, k + 1)
  }

  function Actives(seats: seq<Seat>): (f: seq<bool>)
    ensures |f| == |seats| && forall i | 0 <= i < |seats| :: f[i] == IsActive(seats[i])
  {
    seq(|seats|, i requires 0 <= i < |seats| => IsActive(seats[i]))
  }

  function Occupancy(seats: seq<Seat>): (f: seq<bool>)
    ensures |f| == |seats| && forall i | 0 <= i < |seats| :: f[i] == seats[i].occupied
  {
    seq(|seats|, i requires 0 <= i < |seats| => seats[i].occupied)
  }

  /** `RoomContext::count_active_players`. */
  function CountActivePlayers(c: Ctx): (n: nat)
    ensures n <= |c.seats|
    ensures n == 0 <==> forall i | 0 <= i < |c.seats| :: !IsActive(c.seats[i])
  {
    Count(Actives(c.seats))
  }

  /** How many seats are taken, as `to_payload_string` and `can_player_join` count them. */
  function Occupied(c: Ctx): (n: nat)
    ensures n <= |c.seats|
    ensures n == |c.seats| <==> forall i | 0 <= i < |c.seats| :: c.seats[i].occupied
  {
    Count(Occupancy(c.seats))
  }

  // ---------------------------------------------------------------------------
  // Sending

  /** Appends `m` to the seat's connection. */
  function Deliver(s: Seat, m: MsgStruct): (s': Seat)
    ensures Quiet(s') == Quiet(s) && IsActive(s') == IsActive(s)
    ensures Received(s') == Received(s) + (if s.conn.Some? then [m] else [])
  {
    if s.conn.Some? then s.(conn := Some(s.conn.value.(outbox := s.conn.value.outbox + [m]))) else s
  }

  /** `RoomContext::broadcast`: `m` to every active seat, nothing else changes. */
  function Broadcast(seats: seq<Seat>, m: MsgStruct): (r: seq<Seat>)
    ensures |r| == |seats| && (NoStrayLinks(seats) ==> NoStrayLinks(r))
    ensures forall i | 0 <= i < |seats| :: Quiet(r[i]) == Quiet(seats[i]) && IsActive(r[i]) == IsActive(seats[i])
    ensures forall i | 0 <= i < |seats| :: Received(r[i]) == Received(seats[i]) + (if IsActive(seats[i]) then [m] else [])
  {
    seq(|seats|, i requires 0 <= i < |seats| => if IsActive(seats[i]) then Deliver(seats[i], m) else seats[i])
  }

  /** `RoomContext::send_to`: `m` to seat `i` if that is a seat and it is active, nothing else changes. */
  function SendTo(seats: seq<Seat>, i: int, m: MsgStruct): (r: seq<Seat>)
    ensures |r| == |seats|
    ensures forall j | 0 <= j < |seats| :: Quiet(r[j]) == Quiet(seats[j]) && IsActive(r[j]) == IsActive(seats[j])
    ensures forall j | 0 <= j < |seats| ::
      Received(r[j]) == Received(seats[j]) + (if j == i && i < ROOM_MAX_PLAYERS && IsActive(seats[j]) then [m] else [])
  {
    if 0 <= i < ROOM_MAX_PLAYERS && i < |seats| && IsActive(seats[i]) then seats[i := Deliver(seats[i], m)] else seats
  }

  /** Appends all of `ms`, in order, to the seat's connection. */
  function DeliverAll(s: Seat, ms: seq<MsgStruct>): (s': Seat)
    ensures Quiet(s') == Quiet(s) && IsActive(s') == IsActive(s)
    ensures Received(s') == Received(s) + (if s.conn.Some? then ms else [])
  {
    if s.conn.Some? then s.(conn := Some(s.conn.value.(outbox := s.conn.value.outbox + ms))) else s
  }

  /** Several broadcasts in a row: every active seat is sent all of `ms`, in order. */
  function BroadcastAll(seats: seq<Seat>, ms: seq<MsgStruct>): (r: seq<Seat>)
    ensures |r| == |seats| && (NoStrayLinks(seats) ==> NoStrayLinks(r))
    ensures forall i | 0 <= i < |seats| :: Quiet(r[i]) == Quiet(seats[i]) && IsActive(r[i]) == IsActive(seats[i])
    ensures forall i | 0 <= i < |seats| :: Received(r[i]) == Received(seats[i]) + (if IsActive(seats[i]) then ms else [])
  {
    seq(|seats|, i requires 0 <= i < |seats| => if IsActive(seats[i]) then DeliverAll(seats[i], ms) else seats[i])
  }

  /** Broadcasting one message and then the others is broadcasting them all at once. */
  lemma BroadcastThenRest(seats: seq<Seat>, m: MsgStruct, ms: seq<MsgStruct>)
    ensures BroadcastAll(Broadcast(seats, m), ms) == BroadcastAll(seats, [m] + ms)
  {
    var b := Broadcast(seats, m);
    var r1, r2 := BroadcastAll(b, ms), BroadcastAll(seats, [m] + ms);
    forall i | 0 <= i < |seats| ensures r1[i] == r2[i] {
      if IsActive(seats[i]) {
        assert b[i] == Deliver(seats[i], m);
        DeliverThenAll(seats[i], m, ms);
      } else {
        assert b[i] == seats[i];
      }
    }
    assert r1 == r2;
  }

  lemma DeliverThenAll(s: Seat, m: MsgStruct, ms: seq<MsgStruct>)
    requires s.conn.Some?
    ensures DeliverAll(Deliver(s, m), ms) == DeliverAll(s, [m] + ms)
  {
    var o := s.conn.value.outbox;
    assert o + [m] + ms == o + ([m] + ms);
  }

  // ---------------------------------------------------------------------------
  // Joining

  /** `can_player_join`: fewer than four seats taken. */
  predicate CanPlayerJoin(c: Ctx) {
    Occupied(c) < ROOM_MAX_PLAYERS
  }

  /**
   * `to_payload_string`: id, name, seats taken and capacity in the
   * room-listing format, which the client's `deserializeRoom` reads back
   * whenever the id and the name fit their four-digit fields.
   */
  function ToPayloadString(id: nat, name: string, c: Ctx): (s: string)
    ensures id <= 9999 && |name| <= 9999 && |c.seats| <= 99 ==>
      ClientRoomCodec.DeserializeRoom(s) == ClientData.RoomInfo(id, name, Occupied(c), ROOM_MAX_PLAYERS)
  {
    var s := ServerWire.WriteBgInt(id) + ServerWire.WriteNetStr(name)
      + ServerWire.WriteSmInt(Occupied(c)) + ServerWire.WriteSmInt(ROOM_MAX_PLAYERS);
    if id <= 9999 && |name| <= 9999 && |c.seats| <= 99 then
      assert ClientRoomCodec.EncodeRoom(id, name, Occupied(c), ROOM_MAX_PLAYERS) == Some(s);
      ClientRoomCodec.RoomRoundTrip(id, name, Occupied(c), ROOM_MAX_PLAYERS, "");
      assert s + "" == s;
      s
    else s
  }

  /** A seat a returning player can take back: theirs, and without a connection. */
  predicate Reclaimable(s: Seat, nickname: string) {
    s.occupied && s.nickname == nickname && s.conn.None?
  }

  function Reclaims(seats: seq<Seat>, nickname: string): (f: seq<bool>)
    ensures |f| == |seats| && forall i | 0 <= i < |seats| :: f[i] == Reclaimable(seats[i], nickname)
  {
    seq(|seats|, i requires 0 <= i < |seats| => Reclaimable(seats[i], nickname))
  }

  function Frees(seats: seq<Seat>): (f: seq<bool>)
    ensures |f| == |seats| && forall i | 0 <= i < |seats| :: f[i] == !seats[i].occupied
  {
    seq(|seats|, i requires 0 <= i < |seats| => !seats[i].occupied)
  }

  /**
   * One player of `process_incoming_players`: the first seat left behind
   * under the player's nickname is taken back as it is; otherwise the
   * first empty seat is taken with `START_CHIPS`; otherwise the player is
   * not seated. Returns the seats and whether the player got one.
   */
  function SeatPlayer(seats: seq<Seat>, p: Link): (r: (seq<Seat>, bool))
    requires NoStrayLinks(seats)
    ensures |r.0| == |seats| && NoStrayLinks(r.0)
    ensures r.1 <==> exists i | 0 <= i < |seats| :: Reclaimable(seats[i], p.nickname) || !seats[i].occupied
    ensures forall i | 0 <= i < |seats| :: r.0[i] != seats[i] ==>
      && r.1 && r.0[i].occupied && r.0[i].nickname == p.nickname && r.0[i].conn == Some(p) && seats[i].conn.None?
      && (Reclaimable(seats[i], p.nickname) || !seats[i].occupied)
    ensures r.1 ==> exists i | 0 <= i < |seats| :: r.0[i].occupied && r.0[i].conn == Some(p) && seats[i].conn.None?
    ensures forall i | 0 <= i < |seats| :: seats[i].occupied ==>
      r.0[i].occupied && r.0[i].nickname == seats[i].nickname && r.0[i].chips == seats[i].chips
    ensures forall i | 0 <= i < |seats| :: r.0[i].chips == seats[i].chips || r.0[i].chips == START_CHIPS
    ensures forall i | 0 <= i < |seats| :: r.0[i].bet == seats[i].bet
  {
    var k := First(Reclaims(seats, p.nickname), 0);
    if k != -1 then
      (seats[k := seats[k].(conn := Some(p))], true)
    else
      var f := First(Frees(seats), 0);
      if f != -1 then
        (seats[f := seats[f].(occupied := true, nickname := p.nickname, conn := Some(p), chips := START_CHIPS)], true)
      else
        assert forall i | 0 <= i < |seats| :: seats[i].occupied;
        (seats, false)
  }

  /**
   * Which seat a player gets: a seat left behind under their nickname
   * comes first (the earliest one, nothing else changes, no seat is newly
   * taken); only without one is the earliest empty seat taken, with
   * `START_CHIPS`.
   */
  lemma SeatPlayerChoice(seats: seq<Seat>, p: Link, i: nat)
    requires NoStrayLinks(seats) && i < |seats| && SeatPlayer(seats, p).0[i] != seats[i]
    ensures forall j | 0 <= j < |seats| && j != i :: SeatPlayer(seats, p).0[j] == seats[j]
    ensures (exists j | 0 <= j < |seats| :: Reclaimable(seats[j], p.nickname)) ==>
      && Reclaimable(seats[i], p.nickname) && (forall j | 0 <= j < i :: !Reclaimable(seats[j], p.nickname))
      && SeatPlayer(seats, p).0[i] == seats[i].(conn := Some(p))
    ensures (forall j | 0 <= j < |seats| :: !Reclaimable(seats[j], p.nickname)) ==>
      && !seats[i].occupied && (forall j | 0 <= j < i :: seats[j].occupied)
      && SeatPlayer(seats, p).0[i].chips == START_CHIPS
  {
    var k := First(Reclaims(seats, p.nickname), 0);
    if k == -1 {
      var f := First(Frees(seats), 0);
      assert f == i;
    } else {
      assert k == i;
    }
  }

  /**
   * `process_incoming_players` over the queued players, in order: the
   * seats afterwards and the players sent back to the lobby.
   */
  function ProcessIncoming(seats: seq<Seat>, incoming: seq<Link>): (r: (seq<Seat>, seq<Link>))
    requires NoStrayLinks(seats)
    ensures |r.0| == |seats| && |r.1| <= |incoming| && NoStrayLinks(r.0)
    ensures forall x | x in r.1 :: x in incoming
    ensures forall i | 0 <= i < |seats| :: seats[i].occupied ==>
      r.0[i].occupied && r.0[i].nickname == seats[i].nickname && r.0[i].chips == seats[i].chips
    ensures forall i | 0 <= i < |seats| :: seats[i].conn.Some? ==> r.0[i] == seats[i]
    ensures forall i | 0 <= i < |seats| :: r.0[i].chips == seats[i].chips || r.0[i].chips == START_CHIPS
    ensures forall i | 0 <= i < |seats| :: r.0[i].bet == seats[i].bet
    decreases |incoming|
  {
    if |incoming| == 0 then (seats, [])
    else
      var (s1, seated) := SeatPlayer(seats, incoming[0]);
      var (s2, back) := ProcessIncoming(s1, incoming[1..]);
      assert forall x | x in back :: x in incoming by {
        forall x | x in back ensures x in incoming {
          assert x in incoming[1..];
        }
      }
      (s2, if seated then back else [incoming[0]] + back)
  }

  /**
   * Nobody queued is lost: every player ends up in a seat holding their
   * connection or back in the lobby, and a player is only sent back when
   * all four seats are taken.
   */
  lemma {:induction false} IncomingAccounted(seats: seq<Seat>, incoming: seq<Link>)
    requires NoStrayLinks(seats)
    ensures var (after, back) := ProcessIncoming(seats, incoming);
      && (forall k | 0 <= k < |incoming| ::
            incoming[k] in back || exists i | 0 <= i < |after| :: after[i].occupied && after[i].conn == Some(incoming[k]))
      && (|back| > 0 ==> forall i | 0 <= i < |after| :: after[i].occupied)
    decreases |incoming|
  {
    if |incoming| > 0 {
      var (s1, seated) := SeatPlayer(seats, incoming[0]);
      var (after, back) := ProcessIncoming(seats, incoming);
      var back1 := ProcessIncoming(s1, incoming[1..]).1;
      IncomingAccounted(s1, incoming[1..]);
      forall k | 0 <= k < |incoming|
        ensures incoming[k] in back || exists i | 0 <= i < |after| :: after[i].occupied && after[i].conn == Some(incoming[k])
      {
        if k == 0 {
          if seated {
            var i :| 0 <= i < |seats| && s1[i].occupied && s1[i].conn == Some(incoming[0]) && seats[i].conn.None?;
            assert after[i] == s1[i];
          }
        } else {
          assert incoming[k] == incoming[1..][k - 1];
        }
      }
      if |back| > 0 && |back1| == 0 {
        assert !seated;
        forall i | 0 <= i < |after| ensures after[i].occupied {
          assert seats[i].occupied;
        }
      }
    }
  }

  /** A room never has more than four seats taken; a player sent back found every one of them taken. */
  lemma OccupancyBounded(c: Ctx, incoming: seq<Link>)
    requires Wf(c)
    ensures var (after, back) := ProcessIncoming(c.seats, incoming);
      && Wf(c.(seats := after)) && Occupied(c.(seats := after)) <= ROOM_MAX_PLAYERS
      && (|back| > 0 ==> !CanPlayerJoin(c.(seats := after)))
  {
    IncomingAccounted(c.seats, incoming);
  }

  // ---------------------------------------------------------------------------
  // LobbyState

  /** A seat whose player dropped is given up; every other seat is left alone. */
  function ClearLeft(s: Seat): (s': Seat)
    ensures s.occupied && s.conn.None? ==> s' == EMPTY_SEAT
    ensures !(s.occupied && s.conn.None?) ==> s' == s
  {
    if s.occupied && s.conn.None? then EMPTY_SEAT else s
  }

  /**
   * `LobbyState::on_enter`: tells the active players the room is back in
   * its lobby, gives up seats whose player dropped, starts every other
   * seat afresh, empties the pot and the board and shuffles a new deck
   * (in the order the generator chose).
   */
  function LobbyEnter(c: Ctx, order: seq<int>): (c': Ctx)
    requires Wf(c) && Deck.IsShuffle(order)
    ensures Wf(c') && c'.pot == 0 && c'.community == [] && c'.phase == c.phase
    ensures |c'.deck| == Deck.DECK_SIZE && Deck.Distinct(c'.deck)
    ensures forall i | 0 <= i < |c.seats| :: StartsOver(c.seats[i], c'.seats[i])
  {
    var seats := NewGameSeats(c.seats);
    assert NoStrayLinks(seats);
    c.(seats := seats, pot := 0, community := [], deck := Deck.Reset(order))
  }

  /**
   * What a new lobby makes of a seat: nobody is ready, folded, betting or
   * holding cards, a taken seat whose player dropped is given up, and a
   * seat with a connection keeps its player and chips and is told `GMLB`
   * if its player is active.
   */
  predicate StartsOver(s: Seat, s': Seat) {
    && !s'.ready && !s'.folded && s'.bet == 0 && s'.hand == []
    && (s'.occupied ==> s'.conn.Some?)
    && (!s.occupied ==> !s'.occupied && s'.conn.None? == s.conn.None?)
    && (s.occupied && s.conn.None? ==> s' == EMPTY_SEAT)
    && (s' == EMPTY_SEAT || s'.chips == s.chips)
    && (s.conn.Some? ==>
      && s'.nickname == s.nickname && s'.chips == s.chips
      && IsActive(s') == IsActive(s)
      && Received(s') == Received(s) + (if IsActive(s) then [Bare("GMLB")] else []))
  }

  /** `GMLB` to every active seat, then every seat made ready for the next hand. */
  function NewGameSeats(seats: seq<Seat>): (r: seq<Seat>)
    ensures |r| == |seats|
    ensures forall i | 0 <= i < |seats| :: StartsOver(seats[i], r[i])
  {
    var sent := Broadcast(seats, Bare("GMLB"));
    seq(|sent|, i requires 0 <= i < |sent| => NewGameSeat(sent[i]))
  }

  /** One seat of a new lobby: a taken seat whose player dropped is given up, any other is reset for the next hand. */
  function NewGameSeat(s: Seat): (s': Seat)
    ensures !s'.ready && !s'.folded && s'.bet == 0 && s'.hand == []
    ensures !s.occupied ==> s'.occupied == s.occupied && s'.conn == s.conn
    ensures s'.occupied ==> s'.conn.Some?
    ensures s.occupied && s.conn.None? ==> s' == EMPTY_SEAT
    ensures s.conn.Some? ==> s'.occupied == s.occupied && s'.nickname == s.nickname && s'.chips == s.chips && s'.conn == s.conn
    ensures s' == EMPTY_SEAT || s'.chips == s.chips
  {
    if s.occupied && s.conn.None? then EMPTY_SEAT else ResetGame(s)
  }

  /** Seats whose player is active and ready. */
  function ActiveReady(seats: seq<Seat>): (f: seq<bool>)
    ensures |f| == |seats| && forall i | 0 <= i < |seats| :: f[i] == (IsActive(seats[i]) && seats[i].ready)
  {
    seq(|seats|, i requires 0 <= i < |seats| => IsActive(seats[i]) && seats[i].ready)
  }

  /**
   * `LobbyState::on_tick`: gives up seats whose player dropped, then
   * counts active and ready players. Returns the context and whether the
   * room moves on to dealing.
   */
  function LobbyTick(c: Ctx): (r: (Ctx, bool))
    requires Wf(c)
    ensures Wf(r.0) && r.0 == c.(seats := r.0.seats)
    ensures forall i | 0 <= i < |c.seats| :: r.0.seats[i] == ClearLeft(c.seats[i])
  {
    var seats := seq(|c.seats|, i requires 0 <= i < |c.seats| => ClearLeft(c.seats[i]));
    var readyCount := Count(ActiveReady(seats));
    var playerCount := Count(Actives(seats));
    (c.(seats := seats), playerCount >= 2 && readyCount == playerCount)
  }

  /** The room starts dealing exactly when at least two players are active and every active player is ready. */
  lemma LobbyTickStarts(c: Ctx)
    requires Wf(c)
    ensures LobbyTick(c).1 <==>
      CountActivePlayers(c) >= 2 && forall i | 0 <= i < |c.seats| :: IsActive(c.seats[i]) ==> c.seats[i].ready
  {
    var seats := LobbyTick(c).0.seats;
    assert Actives(seats) == Actives(c.seats);
    CountMonotone(ActiveReady(seats), Actives(seats));
    if Count(ActiveReady(seats)) == Count(Actives(seats)) {
      forall i | 0 <= i < |c.seats| && IsActive(c.seats[i]) ensures c.seats[i].ready {
        assert Actives(seats)[i];
      }
    } else {
      assert ActiveReady(seats) != Actives(seats);
      var i :| 0 <= i < |seats| && ActiveReady(seats)[i] != Actives(seats)[i];
      assert IsActive(c.seats[i]) && !c.seats[i].ready;
    }
  }

  /** `LobbyState::on_message`: `RDY1` marks the seat ready and tells everyone; nothing else has an effect. */
  function LobbyMessage(c: Ctx, i: nat, msg: MsgStruct): (c': Ctx)
    requires Wf(c) && i < ROOM_MAX_PLAYERS
    ensures Wf(c') && c' == c.(seats := c'.seats)
    ensures msg.code != "RDY1" ==> c' == c
    ensures msg.code == "RDY1" ==> Quiet(c'.seats[i]) == Quiet(c.seats[i]).(ready := true)
    ensures msg.code == "RDY1" ==> forall j | 0 <= j < |c.seats| ::
        && Received(c'.seats[j]) == Received(c.seats[j]) + (if IsActive(c.seats[j]) then [With("RDOK", ServerWire.WriteSmInt(i))] else [])
        && (j != i ==> Quiet(c'.seats[j]) == Quiet(c.seats[j]))
  {
    if msg.code == "RDY1" then
      c.(seats := Broadcast(c.seats[i := c.seats[i].(ready := true)], With("RDOK", ServerWire.WriteSmInt(i))))
    else c
  }

  // ---------------------------------------------------------------------------
  // DealingState

  /** How many of the flags in `[k, i)` are set: the position among the dealt seats. */
  function Rank(flags: seq<bool>, k: nat, i: nat): nat
    requires k <= i <= |flags|
    decreases i - k
  {
    if k == i then 0 else (if flags[k] then 1 else 0) + Rank(flags, k + 1, i)
  }

  /** A set flag counts towards every later position and towards the total. */
  lemma {:induction false} RankGrows(flags: seq<bool>, k: nat, i: nat, j: nat)
    requires k <= i < j <= |flags|
    ensures Rank(flags, k, i) + (if flags[i] then 1 else 0) <= Rank(flags, k, j)
    decreases i - k
  {
    if k < i {
      RankGrows(flags, k + 1, i, j);
    }
  }

  /** A seat `DealingState::on_enter` deals to: active and ready. */
  predicate Deals(s: Seat) {
    IsActive(s) && s.ready
  }

  function Dealt(seats: seq<Seat>): (f: seq<bool>)
    ensures |f| == |seats| && forall i | 0 <= i < |seats| :: f[i] == Deals(seats[i])
  {
    seq(|seats|, i requires 0 <= i < |seats| => Deals(seats[i]))
  }

  /** Seat `s` is given `hand` and sent each of its cards as `CDTP`. */
  function DealTo(s: Seat, hand: seq<int>): (s': Seat)
    requires IsActive(s) && |hand| == 2
    ensures s'.hand == hand && Quiet(s') == Quiet(s).(hand := hand) && Deals(s') == Deals(s)
    ensures Received(s') == Received(s) + [With("CDTP", ServerWire.CardText(hand[0])), With("CDTP", ServerWire.CardText(hand[1]))]
  {
    var s0 := s.(hand := hand);
    var s1 := Deliver(s0, With("CDTP", ServerWire.CardText(hand[0])));
    var s2 := Deliver(s1, With("CDTP", ServerWire.CardText(hand[1])));
    AppendAssoc(Received(s0), [With("CDTP", ServerWire.CardText(hand[0]))], [With("CDTP", ServerWire.CardText(hand[1]))]);
    s2
  }

  /** One seat's share of `DealingState::on_enter`: `GMST` if active, then, if it is dealt to, its hand. */
  function DealingSeat(s: Seat, hand: seq<int>): (s': Seat)
    requires Deals(s) ==> |hand| == 2
    ensures Deals(s') == Deals(s) && IsActive(s') == IsActive(s) && s'.occupied == s.occupied && s'.conn.None? == s.conn.None?
    ensures Deals(s) ==> s'.hand == hand
    ensures s'.chips == s.chips
  {
    var s1 := if IsActive(s) then Deliver(s, Bare("GMST")) else s;
    if Deals(s) then DealTo(s1, hand) else s1
  }

  /**
   * `DealingState::on_enter`: announces the game, starts at the pre-flop,
   * and deals every active, ready seat two cards, in seat order, two
   * draws per seat. The seat with `r` dealt seats before it therefore gets
   * the `r`-th pair from the back of the deck; each seat is sent its own
   * cards, so the order between seats does not show in any outbox.
   */
  function DealingEnter(c: Ctx): (c': Ctx)
    requires Wf(c)
    ensures Wf(c') && c'.phase == PreFlop && c'.pot == c.pot && c'.community == c.community && c'.dealer == c.dealer
    ensures forall i | 0 <= i < ROOM_MAX_PLAYERS :: Deals(c'.seats[i]) == Deals(c.seats[i]) && IsActive(c'.seats[i]) == IsActive(c.seats[i])
    ensures forall i | 0 <= i < ROOM_MAX_PLAYERS :: Deals(c.seats[i]) ==> |c'.seats[i].hand| == 2
  {
    var f := Dealt(c.seats);
    var dealt := Deck.DealHands(c.deck, Rank(f, 0, ROOM_MAX_PLAYERS));
    RanksBelowTotal(f);
    c.(seats := DealSeats(c.seats, f, dealt.0), deck := dealt.1, phase := PreFlop)
  }

  /** Every dealt seat's deal position is below the number of dealt seats. */
  lemma RanksBelowTotal(f: seq<bool>)
    ensures forall i | 0 <= i < |f| && f[i] :: Rank(f, 0, i) < Rank(f, 0, |f|)
  {
    forall i | 0 <= i < |f| && f[i] ensures Rank(f, 0, i) < Rank(f, 0, |f|) {
      RankGrows(f, 0, i, |f|);
    }
  }

  /** Each seat's share of the deal: a dealt seat gets the pair at its deal position. */
  function DealSeats(seats: seq<Seat>, f: seq<bool>, hands: seq<seq<int>>): (r: seq<Seat>)
    requires |f| == |seats| && forall i | 0 <= i < |f| :: f[i] == Deals(seats[i])
    requires forall i | 0 <= i < |f| && f[i] :: Rank(f, 0, i) < |hands| && |hands[Rank(f, 0, i)]| == 2
    ensures |r| == |seats|
    ensures forall i | 0 <= i < |seats| :: r[i] == DealingSeat(seats[i], if f[i] then hands[Rank(f, 0, i)] else [])
    ensures forall i | 0 <= i < |seats| ::
      Deals(r[i]) == Deals(seats[i]) && IsActive(r[i]) == IsActive(seats[i]) && (Deals(seats[i]) ==> |r[i].hand| == 2)
    ensures NoStrayLinks(seats) ==> NoStrayLinks(r)
  {
    seq(|seats|, i requires 0 <= i < |seats| => DealingSeat(seats[i], if f[i] then hands[Rank(f, 0, i)] else []))
  }

  /**
   * Every active player is told the game started; a dealt seat then gets
   * its two cards and changes in nothing but its hand; no other seat
   * changes at all.
   */
  lemma DealingEnterSends(c: Ctx, i: nat)
    requires Wf(c) && i < ROOM_MAX_PLAYERS
    ensures var s := DealingEnter(c).seats[i];
      !Deals(c.seats[i]) ==>
        Quiet(s) == Quiet(c.seats[i]) && Received(s) == Received(c.seats[i]) + (if IsActive(c.seats[i]) then [Bare("GMST")] else [])
    ensures var s := DealingEnter(c).seats[i];
      Deals(c.seats[i]) ==>
        && Quiet(s) == Quiet(c.seats[i]).(hand := s.hand)
        && Received(s) == Received(c.seats[i]) + [Bare("GMST")] + [With("CDTP", ServerWire.CardText(s.hand[0])), With("CDTP", ServerWire.CardText(s.hand[1]))]
  {
    var s := c.seats[i];
    if IsActive(s) {
      AppendAssoc(Received(s), [Bare("GMST")], []);
    }
  }

  /** How many seats `DealingState::on_enter` deals to. */
  function DealtCount(c: Ctx): (m: nat)
    requires Wf(c)
    ensures m <= ROOM_MAX_PLAYERS
  {
    RankGrows(Dealt(c.seats), 0, 0, ROOM_MAX_PLAYERS);
    Rank(Dealt(c.seats), 0, ROOM_MAX_PLAYERS)
  }

  /**
   * With enough cards, dealing takes the `r`-th pair from the back of the
   * deck for the seat with `r` dealt seats before it and leaves the
   * bottom of the deck; from a deck without repeats no card goes to two
   * seats, and none dealt stays in the deck.
   */
  lemma DealingFromTop(c: Ctx)
    requires Wf(c) && |c.deck| >= 2 * DealtCount(c)
    ensures DealingEnter(c).deck == c.deck[..|c.deck| - 2 * DealtCount(c)]
    ensures forall i | 0 <= i < ROOM_MAX_PLAYERS && Deals(c.seats[i]) ::
      && 2 * Rank(Dealt(c.seats), 0, i) + 1 < |c.deck|
      && DealingEnter(c).seats[i].hand == [Deck.DealtCard(c.deck, Rank(Dealt(c.seats), 0, i), 0), Deck.DealtCard(c.deck, Rank(Dealt(c.seats), 0, i), 1)]
  {
    var f := Dealt(c.seats);
    var m := DealtCount(c);
    Deck.DealHandsFromTop(c.deck, m);
    forall i | 0 <= i < ROOM_MAX_PLAYERS && Deals(c.seats[i]) ensures Rank(f, 0, i) < m {
      RankGrows(f, 0, i, ROOM_MAX_PLAYERS);
    }
  }

  /** From a deck without repeats, no card is dealt to two seats or twice to one, and none dealt stays in the deck. */
  lemma DealingDealsDistinct(c: Ctx, i: nat, j: nat, a: nat, b: nat)
    requires Wf(c) && |c.deck| >= 2 * DealtCount(c) && Deck.Distinct(c.deck)
    requires i < ROOM_MAX_PLAYERS && j < ROOM_MAX_PLAYERS && Deals(c.seats[i]) && Deals(c.seats[j]) && a < 2 && b < 2
    ensures (i, a) != (j, b) ==> DealingEnter(c).seats[i].hand[a] != DealingEnter(c).seats[j].hand[b]
    ensures DealingEnter(c).seats[i].hand[a] !in DealingEnter(c).deck
  {
    var ri := HandAt(c, i, a);
    var rj := HandAt(c, j, b);
    DealingLeaves(c);
    Deck.DealtCardsDistinct(c.deck, DealtCount(c));
    if i != j {
      RanksDiffer(Dealt(c.seats), i, j);
    }
  }

  /** Card `a` of a dealt seat's hand is card `a` of the pair at the seat's deal position. */
  lemma HandAt(c: Ctx, i: nat, a: nat) returns (r: nat)
    requires Wf(c) && |c.deck| >= 2 * DealtCount(c)
    requires i < ROOM_MAX_PLAYERS && Deals(c.seats[i]) && a < 2
    ensures r == Rank(Dealt(c.seats), 0, i) && r < DealtCount(c) && 2 * r + a < |c.deck|
    ensures var hand := DealingEnter(c).seats[i].hand;
      |hand| == 2 && hand[a] == Deck.DealtCard(c.deck, r, a)
  {
    r := SeatGetsItsPair(c, i);
    Deck.DealHandsFromTop(c.deck, DealtCount(c));
  }

  /** A dealt seat's hand is the pair at its deal position. */
  lemma SeatGetsItsPair(c: Ctx, i: nat) returns (r: nat)
    requires Wf(c) && i < ROOM_MAX_PLAYERS && Deals(c.seats[i])
    ensures r == Rank(Dealt(c.seats), 0, i) && r < DealtCount(c)
    ensures DealingEnter(c).seats[i].hand == Deck.DealHands(c.deck, DealtCount(c)).0[r]
  {
    var f := Dealt(c.seats);
    RankGrows(f, 0, i, ROOM_MAX_PLAYERS);
    r := Rank(f, 0, i);
  }

  /** With enough cards, dealing leaves the bottom of the deck. */
  lemma DealingLeaves(c: Ctx)
    requires Wf(c) && |c.deck| >= 2 * DealtCount(c)
    ensures DealingEnter(c).deck == c.deck[..|c.deck| - 2 * DealtCount(c)]
  {
    Deck.DealHandsFromTop(c.deck, DealtCount(c));
  }

  /** Two different dealt seats have different deal positions. */
  lemma RanksDiffer(f: seq<bool>, i: nat, j: nat)
    requires i < |f| && j < |f| && i != j && f[i] && f[j]
    ensures Rank(f, 0, i) != Rank(f, 0, j)
  {
    if i < j {
      RankGrows(f, 0, i, j);
    } else {
      RankGrows(f, 0, j, i);
    }
  }

  // ---------------------------------------------------------------------------
  // CommunityCardState

  /** How many cards `CommunityCardState::on_enter` reveals in each phase it starts from. */
  function RevealCount(p: Phase): nat {
    match p
    case PreFlop => 3
    case Flop => 1
    case Turn => 1
    case River => 0
  }

  /** The phase `CommunityCardState::on_enter` moves to; the river stays the river. */
  function NextPhase(p: Phase): Phase {
    match p
    case PreFlop => Flop
    case Flop => Turn
    case Turn => River
    case River => River
  }

  /** One `CRVR` per card, in draw order. */
  function CardMessages(cards: seq<int>): (ms: seq<MsgStruct>)
    ensures |ms| == |cards| && forall k | 0 <= k < |cards| :: ms[k] == With("CRVR", ServerWire.CardText(cards[k]))
  {
    seq(|cards|, k requires 0 <= k < |cards| => With("CRVR", ServerWire.CardText(cards[k])))
  }

  /**
   * `CommunityCardState::on_enter`: advances the phase, draws that
   * phase's cards onto the board and shows each to every active player.
   */
  function CommunityEnter(c: Ctx): (c': Ctx)
    requires Wf(c)
    ensures Wf(c') && c'.phase == NextPhase(c.phase) && c'.pot == c.pot && c'.dealer == c.dealer
    ensures |c'.community| == |c.community| + RevealCount(c.phase) && c'.community[..|c.community|] == c.community
    ensures var drawn := Deck.DrawN(c.deck, RevealCount(c.phase));
      c'.community[|c.community|..] == drawn.0 && c'.deck == drawn.1
  {
    var count := RevealCount(c.phase);
    var (drawn, left) := Deck.DrawN(c.deck, count);
    var board := c.community + drawn;
    assert board[..|c.community|] == c.community;
    c.(phase := NextPhase(c.phase), deck := left, community := board, seats := BroadcastAll(c.seats, CardMessages(drawn)))
  }

  /** With enough cards, the new cards are the phase's count from the back of the deck, in draw order, and the rest is left. */
  lemma CommunityDraws(c: Ctx)
    requires Wf(c) && |c.deck| >= RevealCount(c.phase)
    ensures CommunityEnter(c).community[|c.community|..] == Deck.Reversed(c.deck[|c.deck| - RevealCount(c.phase)..])
    ensures CommunityEnter(c).deck == c.deck[..|c.deck| - RevealCount(c.phase)]
  {
    var c', count := CommunityEnter(c), RevealCount(c.phase);
    var drawn := Deck.DrawN(c.deck, count);
    Deck.DrawNTakesTop(c.deck, count);
    assert c'.community[|c.community|..] == drawn.0 && c'.deck == drawn.1;
  }

  /** Every active player is shown each new card, in order; nothing else about the seats changes. */
  lemma CommunityEnterShows(c: Ctx, i: nat)
    requires Wf(c) && i < ROOM_MAX_PLAYERS
    ensures var c' := CommunityEnter(c);
      && Quiet(c'.seats[i]) == Quiet(c.seats[i])
      && Received(c'.seats[i]) == Received(c.seats[i]) + (if IsActive(c.seats[i]) then CardMessages(c'.community[|c.community|..]) else [])
  {
    var drawn := Deck.DrawN(c.deck, RevealCount(c.phase)).0;
    assert CommunityEnter(c).community[|c.community|..] == drawn;
  }

  /**
   * Over one hand, the board fills up to the five cards of Texas hold'em:
   * three on the flop, one on the turn, one on the river, and none after.
   */
  lemma BoardFillsToFive(c: Ctx)
    requires Wf(c) && c.phase == PreFlop && c.community == [] && |c.deck| >= 5
    ensures var c3 := CommunityEnter(CommunityEnter(CommunityEnter(c)));
      && c3.phase == River && |c3.community| == 5 && c3.deck == c.deck[..|c.deck| - 5]
      && CommunityEnter(c3).community == c3.community
  {
    var c1 := CommunityEnter(c);
    CommunityDraws(c);
    var c2 := CommunityEnter(c1);
    CommunityDraws(c1);
    var c3 := CommunityEnter(c2);
    CommunityDraws(c2);
    assert c2.deck == c.deck[..|c.deck| - 4];
    assert CommunityEnter(c3).community[..5] == c3.community;
  }

  /**
   * The revealed cards of a hand are the five cards from the back of the
   * deck, in draw order.
   */
  lemma BoardIsTopFive(c: Ctx)
    requires Wf(c) && c.phase == PreFlop && c.community == [] && |c.deck| >= 5
    ensures CommunityEnter(CommunityEnter(CommunityEnter(c))).community == Deck.Reversed(c.deck[|c.deck| - 5..])
  {
    var n := |c.deck|;
    var c2 := CommunityEnter(CommunityEnter(c));
    TurnIsTopFour(c);
    OneMoreCard(c2);
    assert CommunityEnter(c2).community == c2.community + [c.deck[n - 5]];
    Deck.TopFiveOrder(c.deck);
  }

  /** After the turn, the board is the flop and then the fourth card from the back of the deck. */
  lemma TurnIsTopFour(c: Ctx)
    requires Wf(c) && c.phase == PreFlop && c.community == [] && |c.deck| >= 5
    ensures var c2 := CommunityEnter(CommunityEnter(c));
      && c2.community == Deck.Reversed(c.deck[|c.deck| - 3..]) + [c.deck[|c.deck| - 4]]
      && c2.deck == c.deck[..|c.deck| - 4] && c2.phase == Turn
  {
    var n := |c.deck|;
    var c1 := CommunityEnter(c);
    FlopIsTopThree(c);
    assert c1.deck == c.deck[..n - 3] && c1.phase == Flop;
    OneMoreCard(c1);
  }

  /** The flop is the top three cards of the deck, in draw order. */
  lemma FlopIsTopThree(c: Ctx)
    requires Wf(c) && c.phase == PreFlop && c.community == [] && |c.deck| >= 3
    ensures CommunityEnter(c).community == Deck.Reversed(c.deck[|c.deck| - 3..])
    ensures CommunityEnter(c).deck == c.deck[..|c.deck| - 3] && CommunityEnter(c).phase == Flop
  {
    CommunityDraws(c);
    assert CommunityEnter(c).community == CommunityEnter(c).community[0..];
  }

  /** The turn and the river each add the top card of the deck to the board. */
  lemma OneMoreCard(c: Ctx)
    requires Wf(c) && (c.phase == Flop || c.phase == Turn) && |c.deck| >= 1
    ensures CommunityEnter(c).community == c.community + [c.deck[|c.deck| - 1]]
    ensures CommunityEnter(c).deck == c.deck[..|c.deck| - 1] && CommunityEnter(c).phase == NextPhase(c.phase)
  {
    var c' := CommunityEnter(c);
    CommunityDraws(c);
    assert c'.community == c'.community[..|c.community|] + c'.community[|c.community|..];
  }

  // ---------------------------------------------------------------------------
  // BettingState: the order of play

  /** `BettingState`'s own fields: the seats still to act, the seat to act (-1 for none), the bet to match, and whether anyone has bet. */
  datatype Betting = Betting(queue: seq<int>, actor: int, high: int, betMade: bool)

  /** A seat that still takes part in the hand. */
  predicate CanAct(s: Seat) {
    IsActive(s) && !s.folded
  }

  /** The seat `i` places round the table from `start`: `(start + i) % 4`. */
  function RoundFrom(start: nat, i: nat): (x: nat)
    requires start < ROOM_MAX_PLAYERS && i < ROOM_MAX_PLAYERS
    ensures x < ROOM_MAX_PLAYERS && x == (start + i) % ROOM_MAX_PLAYERS
  {
    if start + i < ROOM_MAX_PLAYERS then start + i else start + i - ROOM_MAX_PLAYERS
  }

  /** How many places round the table from `start` seat `x` is. */
  function Distance(start: nat, x: nat): (d: nat)
    requires start < ROOM_MAX_PLAYERS && x < ROOM_MAX_PLAYERS
    ensures d < ROOM_MAX_PLAYERS && RoundFrom(start, d) == x
  {
    if x >= start then x - start else x + ROOM_MAX_PLAYERS - start
  }

  /**
   * The queue-building loop shared by `BettingState::on_enter` and
   * `requeue_others`: from place `i` on, every seat round the table from
   * `start` whose flag is set, except `skip`.
   */
  function Rotation(flags: seq<bool>, start: nat, skip: int, i: nat): (q: seq<int>)
    requires |flags| == ROOM_MAX_PLAYERS && start < ROOM_MAX_PLAYERS && i <= ROOM_MAX_PLAYERS
    ensures forall k | 0 <= k < |q| :: 0 <= q[k] < ROOM_MAX_PLAYERS && flags[q[k]] && q[k] != skip && Distance(start, q[k]) >= i
    ensures forall j, l | 0 <= j < l < |q| :: Distance(start, q[j]) < Distance(start, q[l])
    decreases ROOM_MAX_PLAYERS - i
  {
    if i == ROOM_MAX_PLAYERS then []
    else
      var x := RoundFrom(start, i);
      assert Distance(start, x) == i;
      (if x != skip && flags[x] then [x] else []) + Rotation(flags, start, skip, i + 1)
  }

  /** Every seat round the table from place `i` whose flag is set, except `skip`, is in the queue. */
  lemma {:induction false} RotationComplete(flags: seq<bool>, start: nat, skip: int, i: nat, x: nat)
    requires |flags| == ROOM_MAX_PLAYERS && start < ROOM_MAX_PLAYERS && i <= ROOM_MAX_PLAYERS
    requires x < ROOM_MAX_PLAYERS && flags[x] && x != skip && Distance(start, x) >= i
    ensures x in Rotation(flags, start, skip, i)
    decreases ROOM_MAX_PLAYERS - i
  {
    if Distance(start, x) > i {
      RotationComplete(flags, start, skip, i + 1, x);
    }
  }

  /** The flags `BettingState::on_enter` queues by: active, not folded, ready. */
  function Starters(seats: seq<Seat>): (f: seq<bool>)
    ensures |f| == |seats| && forall i | 0 <= i < |seats| :: f[i] == (CanAct(seats[i]) && seats[i].ready)
  {
    seq(|seats|, i requires 0 <= i < |seats| => CanAct(seats[i]) && seats[i].ready)
  }

  /** The flags `requeue_others` queues by: active and not folded. */
  function Actors(seats: seq<Seat>): (f: seq<bool>)
    ensures |f| == |seats| && forall i | 0 <= i < |seats| :: f[i] == CanAct(seats[i])
  {
    seq(|seats|, i requires 0 <= i < |seats| => CanAct(seats[i]))
  }

  /**
   * `requeue_others`: after a bet, every other seat still in the hand, once
   * each, round the table from the one after the bettor.
   */
  function RequeueOthers(seats: seq<Seat>, aggressor: nat): (q: seq<int>)
    requires |seats| == ROOM_MAX_PLAYERS && aggressor < ROOM_MAX_PLAYERS
    ensures forall k | 0 <= k < |q| :: 0 <= q[k] < ROOM_MAX_PLAYERS
    ensures forall x | 0 <= x < ROOM_MAX_PLAYERS :: x in q <==> x != aggressor && CanAct(seats[x])
    ensures Deck.Distinct(q)
    ensures forall j, l | 0 <= j < l < |q| ::
      Distance(RoundFrom(aggressor, 1), q[j]) < Distance(RoundFrom(aggressor, 1), q[l])
  {
    var start := RoundFrom(aggressor, 1);
    var q := Rotation(Actors(seats), start, aggressor, 0);
    forall x | 0 <= x < ROOM_MAX_PLAYERS && x != aggressor && CanAct(seats[x]) ensures x in q {
      RotationComplete(Actors(seats), start, aggressor, 0, x);
    }
    q
  }

  /**
   * `start_next_turn`: the first queued seat still in the hand acts next
   * and the queue continues after it; -1 once nobody queued is left.
   */
  function NextTurn(seats: seq<Seat>, queue: seq<int>): (r: (int, seq<int>))
    requires |seats| == ROOM_MAX_PLAYERS && forall k | 0 <= k < |queue| :: 0 <= queue[k] < ROOM_MAX_PLAYERS
    ensures r.0 == -1 <==> forall k | 0 <= k < |queue| :: !CanAct(seats[queue[k]])
    ensures r.0 == -1 ==> r.1 == []
    ensures r.0 != -1 ==> 0 <= r.0 < ROOM_MAX_PLAYERS && CanAct(seats[r.0])
    ensures r.0 != -1 ==>
      && |r.1| < |queue| && queue[|queue| - |r.1| - 1] == r.0 && r.1 == queue[|queue| - |r.1|..]
      && forall j | 0 <= j < |queue| - |r.1| - 1 :: !CanAct(seats[queue[j]])
    decreases |queue|
  {
    if |queue| == 0 then (-1, [])
    else if CanAct(seats[queue[0]]) then (queue[0], queue[1..])
    else
      var r := NextTurn(seats, queue[1..]);
      assert forall k | 1 <= k < |queue| :: queue[1..][k - 1] == queue[k];
      r
  }

  /** Queue entries are seats. */
  predicate SeatQueue(queue: seq<int>) {
    forall k | 0 <= k < |queue| :: 0 <= queue[k] < ROOM_MAX_PLAYERS
  }

  /** `start_next_turn` with its announcement: the next seat to act is told to everyone as `TURN`. */
  function StartNextTurn(c: Ctx, b: Betting): (r: (Ctx, Betting))
    requires Wf(c) && SeatQueue(b.queue)
    ensures Wf(r.0) && r.0 == c.(seats := r.0.seats) && SeatQueue(r.1.queue)
    ensures r.1 == b.(actor := r.1.actor, queue := r.1.queue)
    ensures (r.1.actor, r.1.queue) == NextTurn(c.seats, b.queue)
    ensures forall i | 0 <= i < ROOM_MAX_PLAYERS :: Quiet(r.0.seats[i]) == Quiet(c.seats[i])
    ensures forall i | 0 <= i < ROOM_MAX_PLAYERS ::
      Received(r.0.seats[i]) == Received(c.seats[i]) + (if IsActive(c.seats[i]) && r.1.actor != -1 then [With("TURN", ServerWire.WriteSmInt(r.1.actor))] else [])
  {
    var (actor, rest) := NextTurn(c.seats, b.queue);
    var seats := if actor == -1 then c.seats else Broadcast(c.seats, With("TURN", ServerWire.WriteSmInt(actor)));
    (c.(seats := seats), b.(actor := actor, queue := rest))
  }

  /**
   * `BettingState::on_enter`: a fresh round with nothing bet, every seat's
   * round bet cleared, and every active, unfolded, ready seat queued round
   * the table from the one after the dealer; the first of them acts.
   */
  function BettingEnter(c: Ctx): (r: (Ctx, Betting))
    requires Wf(c)
    ensures Wf(r.0) && r.0 == c.(seats := r.0.seats) && SeatQueue(r.1.queue)
    ensures r.1.high == 0 && !r.1.betMade
    ensures forall i | 0 <= i < ROOM_MAX_PLAYERS ::
      r.0.seats[i].bet == 0 && Quiet(r.0.seats[i]) == Quiet(c.seats[i]).(bet := 0)
    ensures r.1 == Betting(r.1.queue, r.1.actor, 0, false)
    ensures var q := OpeningQueue(ClearedSeats(c.seats), c.dealer % ROOM_MAX_PLAYERS);
      (r.1.actor, r.1.queue) == NextTurn(ClearedSeats(c.seats), q)
  {
    var seats := ClearedSeats(c.seats);
    var queue := OpeningQueue(seats, c.dealer % ROOM_MAX_PLAYERS);
    // `start_next_turn` on an empty queue only sets the actor to -1, as the empty-queue branch does
    StartNextTurn(c.(seats := seats), Betting(queue, -1, 0, false))
  }

  /**
   * The first to act in a new round is an active, unfolded, ready seat, and
   * nobody acts exactly when there is no such seat.
   */
  lemma BettingOpensWithStarter(c: Ctx)
    requires Wf(c)
    ensures var a := BettingEnter(c).1.actor;
      && (a != -1 ==> 0 <= a < ROOM_MAX_PLAYERS && CanAct(c.seats[a]) && c.seats[a].ready)
      && (a == -1 <==> forall i | 0 <= i < ROOM_MAX_PLAYERS :: !(CanAct(c.seats[i]) && c.seats[i].ready))
  {
    var seats := ClearedSeats(c.seats);
    FirstActorIsStarter(c.seats, seats, OpeningQueue(seats, c.dealer % ROOM_MAX_PLAYERS));
  }

  /** Every seat's round bet cleared; nothing else about the seats changes. */
  function ClearedSeats(seats: seq<Seat>): (r: seq<Seat>)
    requires |seats| == ROOM_MAX_PLAYERS
    ensures |r| == ROOM_MAX_PLAYERS
    ensures forall i | 0 <= i < ROOM_MAX_PLAYERS :: r[i].bet == 0 && Quiet(r[i]) == Quiet(seats[i]).(bet := 0)
    ensures forall i | 0 <= i < ROOM_MAX_PLAYERS :: CanAct(r[i]) == CanAct(seats[i]) && r[i].ready == seats[i].ready
  {
    seq(ROOM_MAX_PLAYERS, i requires 0 <= i < ROOM_MAX_PLAYERS => ResetRound(seats[i]))
  }

  /** The opening queue: exactly the active, unfolded, ready seats, round the table from the one after the dealer. */
  function OpeningQueue(seats: seq<Seat>, dealer: nat): (q: seq<int>)
    requires |seats| == ROOM_MAX_PLAYERS && dealer < ROOM_MAX_PLAYERS
    ensures SeatQueue(q)
    ensures forall x | 0 <= x < ROOM_MAX_PLAYERS :: x in q <==> CanAct(seats[x]) && seats[x].ready
    ensures forall j, l | 0 <= j < l < |q| ::
      Distance(RoundFrom(dealer, 1), q[j]) < Distance(RoundFrom(dealer, 1), q[l])
  {
    var start := RoundFrom(dealer, 1);
    var q := Rotation(Starters(seats), start, -1, 0);
    forall x | 0 <= x < ROOM_MAX_PLAYERS && CanAct(seats[x]) && seats[x].ready ensures x in q {
      RotationComplete(Starters(seats), start, -1, 0, x);
    }
    q
  }

  /** The first seat of the opening queue still in the hand is ready, and there is none exactly when no seat is both. */
  lemma FirstActorIsStarter(orig: seq<Seat>, seats: seq<Seat>, queue: seq<int>)
    requires |orig| == ROOM_MAX_PLAYERS && |seats| == ROOM_MAX_PLAYERS && SeatQueue(queue)
    requires forall i | 0 <= i < ROOM_MAX_PLAYERS :: CanAct(seats[i]) == CanAct(orig[i]) && seats[i].ready == orig[i].ready
    requires forall x | 0 <= x < ROOM_MAX_PLAYERS :: x in queue <==> CanAct(seats[x]) && seats[x].ready
    ensures var a := NextTurn(seats, queue).0;
      && (a != -1 ==> 0 <= a < ROOM_MAX_PLAYERS && CanAct(orig[a]) && orig[a].ready)
      && (a == -1 <==> forall i | 0 <= i < ROOM_MAX_PLAYERS :: !(CanAct(orig[i]) && orig[i].ready))
  {
    var (a, rest) := NextTurn(seats, queue);
    assert a != -1 ==> a == queue[|queue| - |rest| - 1];
    assert |queue| > 0 ==> queue[0] in queue;
  }

  /** The room's current state object; a betting state carries its own fields. */
  datatype Stage = InLobby | Dealing | Revealing | InBetting(b: Betting) | Showdown

  /** The state a transition enters; a betting state's fields come from its `on_enter`. */
  datatype Next = ToLobby | ToDealing | ToCommunity | ToBetting | ToShowdown

  /** `BettingState::on_tick`: with nobody left to act, the showdown after the river, otherwise the next cards. */
  function BettingTick(c: Ctx, b: Betting): (next: Option<Next>)
    ensures next.Some? <==> b.actor == -1
    ensures next.Some? ==> (next.value == ToShowdown <==> c.phase == River)
    ensures next.Some? ==> next.value == ToShowdown || next.value == ToCommunity
  {
    if b.actor == -1 then Some(if c.phase == River then ToShowdown else ToCommunity) else None
  }

  // ---------------------------------------------------------------------------
  // BettingState: actions

  /** `ERR_` with `text` to seat `i`; nothing else changes. */
  function SendError(c: Ctx, i: nat, text: string): (c': Ctx)
    requires Wf(c)
    ensures Wf(c') && c' == c.(seats := c'.seats)
    ensures forall j | 0 <= j < ROOM_MAX_PLAYERS :: Quiet(c'.seats[j]) == Quiet(c.seats[j])
  {
    c.(seats := SendTo(c.seats, i, With("ERR_", text)))
  }

  /** The amount a `BETT` names: its payload read by `std::stoi`, or `DEFAULT_BET` without a payload or when `stoi` throws. */
  function BetAmount(msg: MsgStruct): int {
    if msg.payload.Some? then CStoi(msg.payload.value).GetOr(DEFAULT_BET) else DEFAULT_BET
  }

  /** The result of one action: the context, the betting state, and whether the turn is over. */
  datatype Acted = Acted(c: Ctx, b: Betting, done: bool)

  /** Seat `i`'s chips and round bet replaced; nothing else about the seat changes. */
  function Pay(c: Ctx, i: nat, chips: int, bet: int): (c': Ctx)
    requires Wf(c) && i < ROOM_MAX_PLAYERS
    ensures Wf(c') && c'.seats[i].chips == chips && c'.seats[i].bet == bet
    ensures c'.seats[i] == c.seats[i].(chips := chips, bet := bet)
    ensures forall j | 0 <= j < ROOM_MAX_PLAYERS && j != i :: c'.seats[j] == c.seats[j]
  {
    c.(seats := c.seats[i := c.seats[i].(chips := chips, bet := bet)])
  }

  /** `FOLD`: out of the hand, everyone told. */
  function Fold(c: Ctx, b: Betting, i: nat): (a: Acted)
    requires Wf(c) && i < ROOM_MAX_PLAYERS
    ensures Wf(a.c) && a.done && a.b == b && a.c == c.(seats := a.c.seats) && !CanAct(a.c.seats[i])
    ensures Quiet(a.c.seats[i]) == Quiet(c.seats[i]).(folded := true)
    ensures forall j | 0 <= j < ROOM_MAX_PLAYERS && j != i :: Quiet(a.c.seats[j]) == Quiet(c.seats[j])
  {
    var seats := Broadcast(c.seats[i := c.seats[i].(folded := true)], With("FOLD", ServerWire.WriteSmInt(i)));
    assert Quiet(seats[i]).folded;
    Acted(c.(seats := seats), b, true)
  }

  /** `CHCK`: allowed only with nothing to match. */
  function Check(c: Ctx, b: Betting, i: nat): (a: Acted)
    requires Wf(c) && i < ROOM_MAX_PLAYERS
    ensures Wf(a.c) && a.b == b && a.c == c.(seats := a.c.seats)
    ensures a.done <==> b.high <= c.seats[i].bet
    ensures forall j | 0 <= j < ROOM_MAX_PLAYERS :: Quiet(a.c.seats[j]) == Quiet(c.seats[j])
  {
    if b.high > c.seats[i].bet then Acted(SendError(c, i, "Cannot Check, must Call or Fold"), b, false)
    else Acted(c.(seats := Broadcast(c.seats, With("CHCK", ServerWire.WriteSmInt(i)))), b, true)
  }

  /** `CALL`: with nothing bet, a check; otherwise the seat matches the bet, or goes all in when it cannot. */
  function Call(c: Ctx, b: Betting, i: nat): (a: Acted)
    requires Wf(c) && i < ROOM_MAX_PLAYERS
    ensures Wf(a.c) && a.done && a.b == b && a.c == c.(seats := a.c.seats, pot := a.c.pot)
    ensures var s, s' := c.seats[i], a.c.seats[i];
      if !b.betMade && b.high == 0 then a.c.pot == c.pot && Quiet(s') == Quiet(s)
      else
        var toCall := if s.chips < b.high - s.bet then s.chips else b.high - s.bet;
        && s'.chips == s.chips - toCall && s'.bet == s.bet + toCall && a.c.pot == c.pot + toCall
        && Quiet(s') == Quiet(s).(chips := s'.chips, bet := s'.bet)
    ensures forall j | 0 <= j < ROOM_MAX_PLAYERS && j != i :: Quiet(a.c.seats[j]) == Quiet(c.seats[j])
  {
    if !b.betMade && b.high == 0 then
      Acted(c.(seats := Broadcast(c.seats, With("CHCK", ServerWire.WriteSmInt(i)))), b, true)
    else
      var s := c.seats[i];
      var toCall := if s.chips < b.high - s.bet then s.chips else b.high - s.bet;
      var paid := Pay(c, i, s.chips - toCall, s.bet + toCall);
      var c' := paid.(pot := c.pot + toCall);
      Acted(c'.(seats := Broadcast(c'.seats, With("CALL", ServerWire.WriteSmInt(i) + GoPadded(s.bet + toCall, 4)))), b, true)
  }

  /**
   * Whether `BETT` takes `amount` from a seat holding `chips`: as written
   * only `chips < amount` is refused; `positiveOnly` also refuses an
   * amount that is not positive.
   */
  predicate BetTaken(chips: int, amount: int, positiveOnly: bool) {
    chips >= amount && (positiveOnly ==> amount > 0)
  }

  /**
   * `BETT`: once per round; the seat puts `amount` in, that becomes the
   * bet to match, and every other seat still in the hand is queued again.
   */
  function Bet(c: Ctx, b: Betting, i: nat, msg: MsgStruct, positiveOnly: bool): (a: Acted)
    requires Wf(c) && i < ROOM_MAX_PLAYERS
    ensures Wf(a.c) && (SeatQueue(b.queue) ==> SeatQueue(a.b.queue)) && a.c == c.(seats := a.c.seats, pot := a.c.pot)
    ensures var amount := BetAmount(msg);
      if !b.betMade && BetTaken(c.seats[i].chips, amount, positiveOnly) then
        && a.done && a.b == Betting(RequeueOthers(a.c.seats, i), b.actor, amount, true)
        && a.c.seats[i].chips == c.seats[i].chips - amount && a.c.seats[i].bet == amount && a.c.pot == c.pot + amount
        && Quiet(a.c.seats[i]) == Quiet(c.seats[i]).(chips := a.c.seats[i].chips, bet := amount)
      else
        !a.done && a.b == b && a.c.pot == c.pot && Quiet(a.c.seats[i]) == Quiet(c.seats[i])
    ensures forall j | 0 <= j < ROOM_MAX_PLAYERS && j != i :: Quiet(a.c.seats[j]) == Quiet(c.seats[j])
  {
    var s := c.seats[i];
    var amount := BetAmount(msg);
    if b.betMade then Acted(SendError(c, i, "Cannot Raise (limit 1 bet/rnd)"), b, false)
    else if positiveOnly && amount <= 0 then Acted(SendError(c, i, "Invalid bet amount"), b, false)
    else if s.chips < amount then Acted(SendError(c, i, "Not enough chips"), b, false)
    else
      var paid := Pay(c, i, s.chips - amount, amount);
      var c' := paid.(pot := c.pot + amount);
      var seats := Broadcast(c'.seats, With("BETT", ServerWire.WriteSmInt(i) + GoPadded(amount, 4)));
      assert Quiet(seats[i]) == Quiet(c'.seats[i]);
      Acted(c'.(seats := seats), Betting(RequeueOthers(seats, i), b.actor, amount, true), true)
  }

  /** The action a message from the seat whose turn it is asks for; an unknown code is no action. */
  function Act(c: Ctx, b: Betting, i: nat, msg: MsgStruct, positiveOnly: bool): (a: Acted)
    requires Wf(c) && SeatQueue(b.queue) && i < ROOM_MAX_PLAYERS
    ensures Wf(a.c) && SeatQueue(a.b.queue) && a.c == c.(seats := a.c.seats, pot := a.c.pot)
    ensures msg.code !in {"FOLD", "CHCK", "BETT", "CALL"} ==> a == Acted(c, b, false)
  {
    if msg.code == "FOLD" then Fold(c, b, i)
    else if msg.code == "CHCK" then Check(c, b, i)
    else if msg.code == "BETT" then Bet(c, b, i, msg, positiveOnly)
    else if msg.code == "CALL" then Call(c, b, i)
    else Acted(c, b, false)
  }

  /** Every action moves chips only between the acting seat and the pot. */
  lemma ActConserves(c: Ctx, b: Betting, i: nat, msg: MsgStruct, positiveOnly: bool)
    requires Wf(c) && SeatQueue(b.queue) && i < ROOM_MAX_PLAYERS
    ensures var a := Act(c, b, i, msg, positiveOnly);
      && a.c.seats[i].chips + a.c.pot == c.seats[i].chips + c.pot
      && forall j | 0 <= j < ROOM_MAX_PLAYERS && j != i :: Quiet(a.c.seats[j]) == Quiet(c.seats[j])
  {
    var a := Act(c, b, i, msg, positiveOnly);
    if msg.code == "FOLD" {
      assert Quiet(a.c.seats[i]).chips == c.seats[i].chips;
    } else if msg.code == "CHCK" {
      assert Quiet(a.c.seats[i]) == Quiet(c.seats[i]);
    }
  }

  /**
   * The room's betting invariant: nobody holds a negative stack, nobody
   * has put in more than the bet to match, the pot is not negative, and
   * there is nothing to match before the round's bet.
   */
  predicate Stakes(c: Ctx, b: Betting)
    requires Wf(c)
  {
    && c.pot >= 0
    && (!b.betMade ==> b.high == 0)
    && forall j | 0 <= j < ROOM_MAX_PLAYERS :: c.seats[j].chips >= 0 && 0 <= c.seats[j].bet <= b.high
  }

  /** With `BETT` refusing amounts that are not positive, every action keeps the betting invariant and never takes from the pot. */
  lemma ActKeepsStakes(c: Ctx, b: Betting, i: nat, msg: MsgStruct)
    requires Wf(c) && SeatQueue(b.queue) && i < ROOM_MAX_PLAYERS && Stakes(c, b)
    ensures var a := Act(c, b, i, msg, true);
      Stakes(a.c, a.b) && a.c.pot >= c.pot
  {
    var a := Act(c, b, i, msg, true);
    ActConserves(c, b, i, msg, true);
    forall j | 0 <= j < ROOM_MAX_PLAYERS
      ensures a.c.seats[j].chips >= 0 && 0 <= a.c.seats[j].bet <= a.b.high
    {
      if j != i {
        assert Quiet(a.c.seats[j]).chips == c.seats[j].chips && Quiet(a.c.seats[j]).bet == c.seats[j].bet;
      } else if msg.code == "FOLD" || msg.code == "CHCK" {
        assert Quiet(a.c.seats[i]).chips == c.seats[i].chips && Quiet(a.c.seats[i]).bet == c.seats[i].bet;
      } else if msg.code == "CALL" {
        assert Quiet(a.c.seats[i]).bet == a.c.seats[i].bet;
      }
    }
  }

  /**
   * `BettingState::on_message`, with `BETT` guarded as `positiveOnly`
   * says: a seat whose turn it is not gets `ERR_`; otherwise the action is
   * taken and, once the turn is over, the next seat is called.
   */
  function BettingMessageWith(c: Ctx, b: Betting, i: nat, msg: MsgStruct, positiveOnly: bool): (r: (Ctx, Betting))
    requires Wf(c) && SeatQueue(b.queue) && i < ROOM_MAX_PLAYERS
    ensures Wf(r.0) && SeatQueue(r.1.queue) && r.0 == c.(seats := r.0.seats, pot := r.0.pot)
  {
    if i != b.actor then (SendError(c, i, "Not your turn"), b)
    else
      var a := Act(c, b, i, msg, positiveOnly);
      if a.done then StartNextTurn(a.c, a.b) else (a.c, a.b)
  }

  /** A message from a seat whose turn it is not changes nothing but the `ERR_` that seat is sent. */
  lemma OutOfTurnRefused(c: Ctx, b: Betting, i: nat, msg: MsgStruct, positiveOnly: bool)
    requires Wf(c) && SeatQueue(b.queue) && i < ROOM_MAX_PLAYERS && i != b.actor
    ensures var (c', b') := BettingMessageWith(c, b, i, msg, positiveOnly);
      && b' == b && c' == c.(seats := c'.seats)
      && forall j | 0 <= j < ROOM_MAX_PLAYERS ::
        && Quiet(c'.seats[j]) == Quiet(c.seats[j])
        && Received(c'.seats[j]) == Received(c.seats[j]) + (if j == i && IsActive(c.seats[j]) then [With("ERR_", "Not your turn")] else [])
  {
  }

  /** Chips move only between the seat that sent the message and the pot, whoever sent it. */
  lemma BettingMessageConserves(c: Ctx, b: Betting, i: nat, msg: MsgStruct, positiveOnly: bool)
    requires Wf(c) && SeatQueue(b.queue) && i < ROOM_MAX_PLAYERS
    ensures var c' := BettingMessageWith(c, b, i, msg, positiveOnly).0;
      && c'.seats[i].chips + c'.pot == c.seats[i].chips + c.pot
      && forall j | 0 <= j < ROOM_MAX_PLAYERS && j != i :: c'.seats[j].chips == c.seats[j].chips
  {
    var c' := BettingMessageWith(c, b, i, msg, positiveOnly).0;
    if i == b.actor {
      ActConserves(c, b, i, msg, positiveOnly);
      var a := Act(c, b, i, msg, positiveOnly);
      assert forall j | 0 <= j < ROOM_MAX_PLAYERS :: Quiet(c'.seats[j]).chips == a.c.seats[j].chips;
    } else {
      assert forall j | 0 <= j < ROOM_MAX_PLAYERS :: Quiet(c'.seats[j]).chips == c.seats[j].chips;
    }
  }

  /** `BettingState::on_message` with `BETT` refusing amounts that are not positive: the betting invariant holds throughout and the pot only grows. */
  function BettingMessage(c: Ctx, b: Betting, i: nat, msg: MsgStruct): (r: (Ctx, Betting))
    requires Wf(c) && SeatQueue(b.queue) && i < ROOM_MAX_PLAYERS
    ensures Wf(r.0) && SeatQueue(r.1.queue)
    ensures Stakes(c, b) ==> Stakes(r.0, r.1) && r.0.pot >= c.pot
  {
    var r := BettingMessageWith(c, b, i, msg, true);
    assert Stakes(c, b) ==> Stakes(r.0, r.1) && r.0.pot >= c.pot by {
      if Stakes(c, b) {
        if i == b.actor {
          ActKeepsStakes(c, b, i, msg);
          var a := Act(c, b, i, msg, true);
          assert forall j | 0 <= j < ROOM_MAX_PLAYERS :: Quiet(r.0.seats[j]) == Quiet(a.c.seats[j]);
          assert forall j | 0 <= j < ROOM_MAX_PLAYERS :: Quiet(r.0.seats[j]).chips == a.c.seats[j].chips && Quiet(r.0.seats[j]).bet == a.c.seats[j].bet;
        } else {
          assert forall j | 0 <= j < ROOM_MAX_PLAYERS :: Quiet(r.0.seats[j]).chips == c.seats[j].chips && Quiet(r.0.seats[j]).bet == c.seats[j].bet;
        }
      }
    }
    r
  }

  /** `BettingState::on_message` as written: chips still move only between the sender and the pot. */
  function BettingMessageAsWritten(c: Ctx, b: Betting, i: nat, msg: MsgStruct): (r: (Ctx, Betting))
    requires Wf(c) && SeatQueue(b.queue) && i < ROOM_MAX_PLAYERS
    ensures Wf(r.0) && SeatQueue(r.1.queue)
    ensures r.0.seats[i].chips + r.0.pot == c.seats[i].chips + c.pot
  {
    BettingMessageConserves(c, b, i, msg, false);
    BettingMessageWith(c, b, i, msg, false)
  }

  /**
   * As written, `BETT` with a negative amount passes the only amount check
   * (`chips < amount`): the seat whose turn it is takes `n` chips out of
   * the pot, whatever the pot holds, and the betting invariant breaks.
   */
  lemma NegativeBetDrainsPot(c: Ctx, b: Betting, i: nat, n: nat)
    requires Wf(c) && SeatQueue(b.queue) && i < ROOM_MAX_PLAYERS && i == b.actor && !b.betMade
    requires 0 < n <= -INT32_MIN && c.seats[i].chips >= 0
    ensures var c' := BettingMessageAsWritten(c, b, i, With("BETT", GoItoa(0 - n))).0;
      c'.pot == c.pot - n && c'.seats[i].chips == c.seats[i].chips + n
  {
    var msg := With("BETT", GoItoa(0 - n));
    NegativeBetAmount(n);
    var a := Act(c, b, i, msg, false);
    assert a.c.pot == c.pot - n;
    BettingMessageConserves(c, b, i, msg, false);
  }

  /** `std::stoi` reads back the negative amount a `BETT` payload spells out. */
  lemma NegativeBetAmount(n: nat)
    requires 0 < n <= -INT32_MIN
    ensures BetAmount(With("BETT", GoItoa(0 - n))) == 0 - n
  {
    StoiOfItoa(0 - n, "");
    assert GoItoa(0 - n) + "" == GoItoa(0 - n);
  }

  // ---------------------------------------------------------------------------
  // ShowdownState and the room's state machine

  /** `ShowdownState::on_enter`: every active player is told the game is over; nothing else happens, the pot is not paid out. */
  function ShowdownEnter(c: Ctx): (c': Ctx)
    requires Wf(c)
    ensures Wf(c') && c' == c.(seats := c'.seats)
    ensures forall i | 0 <= i < ROOM_MAX_PLAYERS ::
      && Quiet(c'.seats[i]) == Quiet(c.seats[i])
      && Received(c'.seats[i]) == Received(c.seats[i]) + (if IsActive(c.seats[i]) then [Bare("GMDN")] else [])
  {
    c.(seats := Broadcast(c.seats, Bare("GMDN")))
  }

  /** A room: its context and the state object it is in. */
  datatype Room = Room(c: Ctx, stage: Stage)

  predicate RoomWf(r: Room) {
    Wf(r.c) && (r.stage.InBetting? ==> SeatQueue(r.stage.b.queue))
  }

  /** The transitions the states ask for: lobby, dealing, betting, then more cards and betting until the showdown, and back to the lobby. */
  predicate Follows(a: Stage, b: Stage) {
    || (a.InLobby? && b.Dealing?)
    || (a.Dealing? && b.InBetting?)
    || (a.Revealing? && b.InBetting?)
    || (a.InBetting? && (b.Revealing? || b.Showdown?))
    || (a.Showdown? && b.InLobby?)
  }

  /** `LobbyState::on_enter` as a room. */
  function EnterLobby(c: Ctx, order: seq<int>): (r: Room)
    requires Wf(c) && Deck.IsShuffle(order)
    ensures RoomWf(r) && r.stage == InLobby
  {
    Room(LobbyEnter(c, order), InLobby)
  }

  /** `BettingState::on_enter` as a room. */
  function EnterBetting(c: Ctx): (r: Room)
    requires Wf(c)
    ensures RoomWf(r) && r.stage.InBetting?
  {
    var e := BettingEnter(c);
    Room(e.0, InBetting(e.1))
  }

  /** `on_enter` of the state `next` names; a new lobby shuffles the deck into `order` (every `on_leave` only logs). */
  function Enter(c: Ctx, next: Next, order: seq<int>): (r: Room)
    requires Wf(c) && Deck.IsShuffle(order)
    ensures RoomWf(r)
    ensures next.ToLobby? ==> r.stage.InLobby?
    ensures next.ToDealing? ==> r.stage.Dealing?
    ensures next.ToCommunity? ==> r.stage.Revealing?
    ensures next.ToBetting? ==> r.stage.InBetting?
    ensures next.ToShowdown? ==> r.stage.Showdown?
  {
    match next
    case ToLobby => EnterLobby(c, order)
    case ToDealing => Room(DealingEnter(c), Dealing)
    case ToCommunity => Room(CommunityEnter(c), Revealing)
    case ToBetting => EnterBetting(c)
    case ToShowdown => Room(ShowdownEnter(c), Showdown)
  }

  /**
   * One pass of `Room::room_logic` after the network: the state's
   * `on_tick`, then, when it asked for a transition, the next state's
   * `on_enter`. Dealing, new cards and the showdown last one tick; the
   * lobby waits for its players, betting for its last actor.
   */
  function Tick(r: Room, order: seq<int>): (r': Room)
    requires RoomWf(r) && Deck.IsShuffle(order)
    ensures RoomWf(r')
    ensures r'.stage == r.stage || Follows(r.stage, r'.stage)
    ensures r.stage.Dealing? || r.stage.Revealing? || r.stage.Showdown? ==> Follows(r.stage, r'.stage)
    ensures r.stage.InBetting? ==> (r'.stage == r.stage <==> r.stage.b.actor != -1)
    ensures r'.stage == Showdown && r.stage != Showdown ==> r.c.phase == River
  {
    match r.stage
    case InLobby =>
      var (c', start) := LobbyTick(r.c);
      if start then Enter(c', ToDealing, order) else Room(c', InLobby)
    case Dealing => Enter(r.c, ToBetting, order)
    case Revealing => Enter(r.c, ToBetting, order)
    case InBetting(b) =>
      var next := BettingTick(r.c, b);
      if next.Some? then Enter(r.c, next.value, order) else r
    case Showdown => Enter(r.c, ToLobby, order)
  }

  /** The states' `on_message`: the lobby takes `RDY1`, betting takes the actions (`BETT` refusing amounts that are not positive), the rest ignore everything. */
  function OnMessage(r: Room, i: nat, msg: MsgStruct): (r': Room)
    requires RoomWf(r) && i < ROOM_MAX_PLAYERS
    ensures RoomWf(r') && r'.stage.InBetting? == r.stage.InBetting? && (!r.stage.InBetting? ==> r'.stage == r.stage)
    ensures r.stage in {Dealing, Revealing, Showdown} ==> r' == r
    ensures r'.c.community == r.c.community && r'.c.deck == r.c.deck && r'.c.phase == r.c.phase
  {
    match r.stage
    case InLobby => Room(LobbyMessage(r.c, i, msg), InLobby)
    case InBetting(b) =>
      var (c', b') := BettingMessage(r.c, b, i, msg);
      Room(c', InBetting(b'))
    case _ => r
  }

  /** The states' `on_message` as written: betting takes a `BETT` of any amount its sender can cover, so a negative one too; chips move only between the sender and the pot. */
  function OnMessageAsWritten(r: Room, i: nat, msg: MsgStruct): (r': Room)
    requires RoomWf(r) && i < ROOM_MAX_PLAYERS
    ensures RoomWf(r') && r'.stage.InBetting? == r.stage.InBetting? && (!r.stage.InBetting? ==> r'.stage == r.stage)
    ensures r.stage in {Dealing, Revealing, Showdown} ==> r' == r
    ensures r.stage.InBetting? ==> r'.c.seats[i].chips + r'.c.pot == r.c.seats[i].chips + r.c.pot
  {
    match r.stage
    case InLobby => Room(LobbyMessage(r.c, i, msg), InLobby)
    case InBetting(b) =>
      var (c', b') := BettingMessageAsWritten(r.c, b, i, msg);
      Room(c', InBetting(b'))
    case _ => r
  }

  /** `GMLV` from seat `i`: the connection goes back to the lobby and the seat is given up; its chips, hand and flags stay. */
  function Leave(c: Ctx, i: nat): (r: (Ctx, Option<Link>))
    requires Wf(c) && i < ROOM_MAX_PLAYERS
    ensures Wf(r.0) && r.0 == c.(seats := r.0.seats) && r.1 == c.seats[i].conn
    ensures r.0.seats[i] == c.seats[i].(occupied := false, nickname := "", conn := None)
    ensures forall j | 0 <= j < ROOM_MAX_PLAYERS && j != i :: r.0.seats[j] == c.seats[j]
  {
    (c.(seats := c.seats[i := c.seats[i].(occupied := false, nickname := "", conn := None)]), c.seats[i].conn)
  }

  /**
   * One message read from an active seat in `process_network_io`: `GMLV`
   * is handled by the room itself, whatever its state; everything else
   * goes to the state. Returns the room and the connection, if any, sent
   * back to the lobby.
   */
  function NetworkMessage(r: Room, i: nat, msg: MsgStruct): (res: (Room, Option<Link>))
    requires RoomWf(r) && i < ROOM_MAX_PLAYERS && IsActive(r.c.seats[i])
    ensures RoomWf(res.0) && res.0.stage.InBetting? == r.stage.InBetting? && (!r.stage.InBetting? ==> res.0.stage == r.stage)
    ensures msg.code == "GMLV" ==> res.0.stage == r.stage
    ensures res.1.Some? <==> msg.code == "GMLV"
    ensures res.1.Some? ==> res.1 == r.c.seats[i].conn && !res.0.c.seats[i].occupied && res.0.c.seats[i].conn.None?
  {
    if msg.code == "GMLV" then
      var (c', link) := Leave(r.c, i);
      (r.(c := c'), link)
    else (OnMessage(r, i, msg), None)
  }

  /** How many of the messages are `GMLV`. */
  function Leaves(msgs: seq<MsgStruct>): nat {
    if |msgs| == 0 then 0 else (if msgs[0].code == "GMLV" then 1 else 0) + Leaves(msgs[1..])
  }

  /**
   * The `while` over everything already read from seat `i`'s connection
   * `p`, as written: a `GMLV` gives the seat up and hands `p` back, and
   * then `continue`s with the same connection, so later messages still
   * reach the state for the now empty seat and every further `GMLV` hands
   * `p` back once more. Returns the room and what went back to the lobby.
   */
  function SeatBatchAsWritten(r: Room, i: nat, p: Link, msgs: seq<MsgStruct>): (res: (Room, seq<Link>))
    requires RoomWf(r) && i < ROOM_MAX_PLAYERS
    ensures RoomWf(res.0)
    ensures |res.1| == Leaves(msgs) && forall k | 0 <= k < |res.1| :: res.1[k] == p
    decreases |msgs|
  {
    if |msgs| == 0 then (r, [])
    else if msgs[0].code == "GMLV" then
      var rest := SeatBatchAsWritten(r.(c := Leave(r.c, i).0), i, p, msgs[1..]);
      (rest.0, [p] + rest.1)
    else SeatBatchAsWritten(OnMessageAsWritten(r, i, msgs[0]), i, p, msgs[1..])
  }

  /** Two `GMLV` in one batch hand the same connection back twice, so the lobby would own it twice. */
  lemma LeaveTwiceReturnsTwice(r: Room, i: nat, p: Link)
    requires RoomWf(r) && i < ROOM_MAX_PLAYERS
    ensures SeatBatchAsWritten(r, i, p, [Bare("GMLV"), Bare("GMLV")]).1 == [p, p]
  {
    var two := [Bare("GMLV"), Bare("GMLV")];
    assert two[1..] == [Bare("GMLV")] && two[1..][1..] == [];
  }

  /** An `RDY1` after `GMLV` in the same batch, in the lobby, marks the seat that was just given up as ready. */
  lemma ReadyAfterLeave(r: Room, i: nat, p: Link)
    requires RoomWf(r) && i < ROOM_MAX_PLAYERS && r.stage == InLobby
    ensures var res := SeatBatchAsWritten(r, i, p, [Bare("GMLV"), Bare("RDY1")]).0;
      !res.c.seats[i].occupied && res.c.seats[i].ready && res.stage == InLobby
  {
    var two := [Bare("GMLV"), Bare("RDY1")];
    assert two[1..] == [Bare("RDY1")] && two[1..][1..] == [];
    var c1 := Leave(r.c, i).0;
    var c2 := LobbyMessage(c1, i, Bare("RDY1"));
    assert Quiet(c2.seats[i]) == Quiet(c1.seats[i]).(ready := true);
  }

  /**
   * The batch with the loop left at the first `GMLV`, as the seat it
   * reads for is then empty: `p` goes back to the lobby at most once and
   * nothing after the `GMLV` reaches the room.
   */
  function SeatBatch(r: Room, i: nat, p: Link, msgs: seq<MsgStruct>): (res: (Room, Option<Link>))
    requires RoomWf(r) && i < ROOM_MAX_PLAYERS
    ensures RoomWf(res.0)
    ensures res.1.Some? <==> Leaves(msgs) > 0
    ensures res.1.Some? ==> res.1 == Some(p) && !res.0.c.seats[i].occupied && res.0.c.seats[i].conn.None?
    decreases |msgs|
  {
    if |msgs| == 0 then (r, None)
    else if msgs[0].code == "GMLV" then (r.(c := Leave(r.c, i).0), Some(p))
    else SeatBatch(OnMessage(r, i, msgs[0]), i, p, msgs[1..])
  }

  /** With the fix, whatever follows a `GMLV` in the batch is dropped. */
  lemma {:induction false} NothingAfterLeave(r: Room, i: nat, p: Link, before: seq<MsgStruct>, after: seq<MsgStruct>)
    requires RoomWf(r) && i < ROOM_MAX_PLAYERS && Leaves(before) == 0
    ensures SeatBatch(r, i, p, before + [Bare("GMLV")] + after) == SeatBatch(r, i, p, before + [Bare("GMLV")])
    decreases |before|
  {
    if |before| == 0 {
      assert (before + [Bare("GMLV")] + after)[0] == Bare("GMLV");
      assert (before + [Bare("GMLV")])[0] == Bare("GMLV");
    } else {
      assert (before + [Bare("GMLV")] + after)[1..] == before[1..] + [Bare("GMLV")] + after;
      assert (before + [Bare("GMLV")])[1..] == before[1..] + [Bare("GMLV")];
      assert before[0].code != "GMLV";
      NothingAfterLeave(OnMessage(r, i, before[0]), i, p, before[1..], after);
    }
  }

  /** A dropped connection found by `process_network_io`: it is let go and the seat is no longer ready, but stays taken. */
  function Disconnect(c: Ctx, i: nat): (c': Ctx)
    requires Wf(c) && i < ROOM_MAX_PLAYERS
    ensures Wf(c') && c' == c.(seats := c'.seats)
    ensures forall j | 0 <= j < ROOM_MAX_PLAYERS && j != i :: c'.seats[j] == c.seats[j]
    ensures var s := c.seats[i];
      if s.occupied && s.conn.Some? && !s.conn.value.connected then c'.seats[i] == s.(conn := None, ready := false)
      else c'.seats[i] == s
  {
    var s := c.seats[i];
    if s.occupied && s.conn.Some? && !s.conn.value.connected then c.(seats := c.seats[i := s.(conn := None, ready := false)])
    else c
  }

  /** `process_incoming_players` on a room: the seats afterwards and the players sent back. */
  function Admit(r: Room, incoming: seq<Link>): (res: (Room, seq<Link>))
    requires RoomWf(r)
    ensures RoomWf(res.0) && res.0.stage == r.stage && res.0.c == r.c.(seats := res.0.c.seats)
    ensures |res.1| <= |incoming| && forall x | x in res.1 :: x in incoming
  {
    var (seats, back) := ProcessIncoming(r.c.seats, incoming);
    (r.(c := r.c.(seats := seats)), back)
  }

  /**
   * The money invariant of a room: the pot and every stack are not
   * negative, and while betting, nobody has put in more than the bet to
   * match.
   */
  predicate Solvent(r: Room)
    requires RoomWf(r)
  {
    Funded(r.c) && (r.stage.InBetting? ==> Stakes(r.c, r.stage.b))
  }

  /** Neither the pot nor any stack is negative. */
  predicate Funded(c: Ctx)
    requires Wf(c)
  {
    c.pot >= 0 && forall j | 0 <= j < ROOM_MAX_PLAYERS :: c.seats[j].chips >= 0
  }

  /** Every state's `on_enter` keeps the money invariant; entering betting establishes its part. */
  lemma EnterSolvent(c: Ctx, next: Next, order: seq<int>)
    requires Wf(c) && Deck.IsShuffle(order) && Funded(c)
    ensures Solvent(Enter(c, next, order))
  {
    match next
    case ToLobby => LobbyFunded(c, order);
    case ToDealing => DealingFunded(c);
    case ToCommunity => CommunityFunded(c);
    case ToBetting => BettingEnterSolvent(c);
    case ToShowdown => ShowdownFunded(c);
  }

  lemma LobbyFunded(c: Ctx, order: seq<int>)
    requires Wf(c) && Deck.IsShuffle(order) && Funded(c)
    ensures Funded(LobbyEnter(c, order))
  {
    var c' := LobbyEnter(c, order);
    forall j | 0 <= j < ROOM_MAX_PLAYERS ensures c'.seats[j].chips >= 0 {
      assert StartsOver(c.seats[j], c'.seats[j]);
    }
  }

  lemma DealingFunded(c: Ctx)
    requires Wf(c) && Funded(c)
    ensures Funded(DealingEnter(c))
  {
    var c' := DealingEnter(c);
    forall j | 0 <= j < ROOM_MAX_PLAYERS ensures c'.seats[j].chips >= 0 {
      DealingEnterSends(c, j);
      assert Quiet(c'.seats[j]).chips == c.seats[j].chips;
    }
  }

  lemma CommunityFunded(c: Ctx)
    requires Wf(c) && Funded(c)
    ensures Funded(CommunityEnter(c))
  {
    var c' := CommunityEnter(c);
    forall j | 0 <= j < ROOM_MAX_PLAYERS ensures c'.seats[j].chips >= 0 {
      CommunityEnterShows(c, j);
      assert Quiet(c'.seats[j]).chips == c.seats[j].chips;
    }
  }

  lemma BettingEnterSolvent(c: Ctx)
    requires Wf(c) && Funded(c)
    ensures var (c', b) := BettingEnter(c); Funded(c') && Stakes(c', b)
  {
    var (c', b) := BettingEnter(c);
    forall j | 0 <= j < ROOM_MAX_PLAYERS ensures c'.seats[j].chips >= 0 && c'.seats[j].bet == 0 {
      assert Quiet(c'.seats[j]).chips == c.seats[j].chips;
    }
  }

  lemma ShowdownFunded(c: Ctx)
    requires Wf(c) && Funded(c)
    ensures Funded(ShowdownEnter(c))
  {
    var c' := ShowdownEnter(c);
    forall j | 0 <= j < ROOM_MAX_PLAYERS ensures c'.seats[j].chips >= 0 {
      assert Quiet(c'.seats[j]).chips == c.seats[j].chips;
    }
  }

  /** A tick keeps the money invariant. */
  lemma TickSolvent(r: Room, order: seq<int>)
    requires RoomWf(r) && Deck.IsShuffle(order) && Solvent(r)
    ensures Solvent(Tick(r, order))
  {
    if r.stage.InLobby? {
      LobbyTickSolvent(r.c, order);
    } else if r.stage.InBetting? {
      BettingTickSolvent(r.c, r.stage.b, order);
    } else {
      var next := if r.stage.Showdown? then ToLobby else ToBetting;
      assert Tick(r, order) == Enter(r.c, next, order);
      EnterSolvent(r.c, next, order);
    }
  }

  lemma LobbyTickSolvent(c: Ctx, order: seq<int>)
    requires Wf(c) && Deck.IsShuffle(order) && Funded(c)
    ensures Solvent(Tick(Room(c, InLobby), order))
  {
    var (c', start) := LobbyTick(c);
    assert Funded(c');
    if start {
      EnterSolvent(c', ToDealing, order);
    }
  }

  lemma BettingTickSolvent(c: Ctx, b: Betting, order: seq<int>)
    requires Wf(c) && SeatQueue(b.queue) && Deck.IsShuffle(order) && Funded(c) && Stakes(c, b)
    ensures Solvent(Tick(Room(c, InBetting(b)), order))
  {
    var next := BettingTick(c, b);
    if next.Some? {
      EnterSolvent(c, next.value, order);
    }
  }

  /** Whatever a player sends, and whoever joins or drops, the money invariant holds afterwards and the pot does not shrink. */
  lemma EventsSolvent(r: Room, i: nat, msg: MsgStruct, incoming: seq<Link>)
    requires RoomWf(r) && i < ROOM_MAX_PLAYERS && Solvent(r)
    ensures IsActive(r.c.seats[i]) ==> Solvent(NetworkMessage(r, i, msg).0) && NetworkMessage(r, i, msg).0.c.pot >= r.c.pot
    ensures Solvent(r.(c := Disconnect(r.c, i)))
    ensures Solvent(Admit(r, incoming).0)
  {
    if IsActive(r.c.seats[i]) && msg.code != "GMLV" && r.stage.InLobby? {
      var c' := LobbyMessage(r.c, i, msg);
      forall j | 0 <= j < ROOM_MAX_PLAYERS ensures c'.seats[j].chips >= 0 {
        assert Quiet(c'.seats[j]).chips == r.c.seats[j].chips;
      }
    }
  }

  /**
   * The showdown pays nobody: the tick after it returns to the lobby with
   * an empty pot, and every player still connected keeps exactly the
   * chips they had, so whatever was in the pot is gone.
   */
  lemma ShowdownDiscardsPot(r: Room, order: seq<int>, i: nat)
    requires RoomWf(r) && Deck.IsShuffle(order) && r.stage == Showdown && i < ROOM_MAX_PLAYERS && r.c.seats[i].conn.Some?
    ensures Tick(r, order).stage == InLobby && Tick(r, order).c.pot == 0
    ensures Tick(r, order).c.seats[i].chips == r.c.seats[i].chips
  {
  }
}
