/**
 * The server's room registry (`RoomManager`): each room is a small state
 * machine, Active <-> Paused, with a bounded roster that is unique by player
 * id. Ending a room removes it from the registry, and so does removing its
 * last player.
 */
module Rooms {
  import opened Wrappers
  import opened OrderedMaps
  import opened Seqs

  type RoomId = string
  type PlayerId = string
  type SocketId = string

  /** The opaque game-state blob of a room; the last write wins. */
  type GameState = map<string, int>

  const DEFAULT_MAX_PLAYERS: nat := 4

  datatype PlayerRef = PlayerRef(playerId: PlayerId, socketId: SocketId)

  datatype RoomState = Active | Paused

  datatype Room = Room(
    roomId: RoomId,
    gameMode: string,
    maxPlayers: nat,
    players: seq<PlayerRef>,
    state: RoomState,
    gameState: GameState,
    createdAt: int)
  {
    /** The `isActive` flag the source exposes. */
    predicate IsActive() { state == Active }
  }

  /** The options object passed to `createRoom`. */
  datatype RoomOptions = RoomOptions(gameMode: string, maxPlayers: Option<nat>, players: seq<PlayerRef>)

  /** Room-scoped broadcasts the manager emits. */
  datatype Broadcast = RoomCreated(roomId: RoomId)

  datatype CreateError = RoomExists | RosterTooLarge | DuplicatePlayer

  datatype Manager = Manager(rooms: OMap<RoomId, Room>)

  /** The result of a boolean room operation: the new registry and the returned flag. */
  datatype Outcome = Outcome(manager: Manager, ok: bool)

  datatype Created = Created(manager: Manager, room: Room, event: Broadcast)

  function EmptyManager(): Manager {
    Manager([])
  }

  // ---------------------------------------------------------------------
  // Rosters
  // ---------------------------------------------------------------------

  function PlayerIds(roster: seq<PlayerRef>): (ids: seq<PlayerId>)
    ensures |ids| == |roster|
    ensures forall i :: 0 <= i < |roster| ==> ids[i] == roster[i].playerId
  {
    if |roster| == 0 then [] else [roster[0].playerId] + PlayerIds(roster[1..])
  }

  predicate HasPlayer(roster: seq<PlayerRef>, playerId: PlayerId) {
    playerId in PlayerIds(roster)
  }

  /** No two roster entries share a player id. */
  predicate DistinctPlayers(roster: seq<PlayerRef>) {
    |roster| == 0 || (!HasPlayer(roster[1..], roster[0].playerId) && DistinctPlayers(roster[1..]))
  }

  lemma {:induction false} AppendPlayer(roster: seq<PlayerRef>, p: PlayerRef)
    requires !HasPlayer(roster, p.playerId)
    ensures DistinctPlayers(roster) ==> DistinctPlayers(roster + [p])
    ensures forall q :: HasPlayer(roster + [p], q) <==> HasPlayer(roster, q) || q == p.playerId
  {
    assert PlayerIds(roster + [p]) == PlayerIds(roster) + [p.playerId];
    if |roster| > 0 {
      assert (roster + [p])[1..] == roster[1..] + [p];
      assert PlayerIds(roster[1..]) == PlayerIds(roster)[1..];
      AppendPlayer(roster[1..], p);
    }
  }

  /** The roster without the entries of `playerId`, others kept in order. */
  function WithoutPlayer(roster: seq<PlayerRef>, playerId: PlayerId): (r: seq<PlayerRef>)
    ensures !HasPlayer(r, playerId)
    ensures forall q :: q != playerId ==> (HasPlayer(r, q) <==> HasPlayer(roster, q))
    ensures DistinctPlayers(roster) ==> DistinctPlayers(r)
    ensures DistinctPlayers(roster) && HasPlayer(roster, playerId) ==> |r| == |roster| - 1
    ensures !HasPlayer(roster, playerId) ==> r == roster
    ensures |r| <= |roster|
  {
    if |roster| == 0 then roster
    else
      var rest := WithoutPlayer(roster[1..], playerId);
      assert PlayerIds(roster) == [roster[0].playerId] + PlayerIds(roster[1..]);
      if roster[0].playerId == playerId then rest
      else
        assert PlayerIds([roster[0]] + rest) == [roster[0].playerId] + PlayerIds(rest) by {
          assert ([roster[0]] + rest)[1..] == rest;
        }
        assert forall q :: HasPlayer([roster[0]] + rest, q) <==> q == roster[0].playerId || HasPlayer(rest, q);
        assert forall q :: HasPlayer(roster, q) <==> q == roster[0].playerId || HasPlayer(roster[1..], q);
        [roster[0]] + rest
  }

  // ---------------------------------------------------------------------
  // Registry invariant
  // ---------------------------------------------------------------------

  /** A stored room carries its own id, fits its capacity and has a duplicate-free roster. */
  predicate RoomValid(id: RoomId, room: Room) {
    && room.roomId == id
    && |room.players| <= room.maxPlayers
    && DistinctPlayers(room.players)
  }

  ghost predicate ManagerValid(m: Manager) {
    && Valid(m.rooms)
    && forall id :: Get(m.rooms, id).Some? ==> RoomValid(id, Get(m.rooms, id).value)
  }

  // ---------------------------------------------------------------------
  // Operations
  // ---------------------------------------------------------------------

  /** Storing a well-formed room under its own id keeps the registry well formed. */
  lemma StoreRoom(m: Manager, roomId: RoomId, room: Room)
    ensures ManagerValid(m) && RoomValid(roomId, room) ==> ManagerValid(Manager(Put(m.rooms, roomId, room)))
  {
    if ManagerValid(m) && RoomValid(roomId, room) {
      var rooms := Put(m.rooms, roomId, room);
      forall id | Get(rooms, id).Some?
        ensures RoomValid(id, Get(rooms, id).value)
      {
        if id != roomId {
          assert Get(rooms, id) == Get(m.rooms, id);
        }
      }
    }
  }

  function GetRoom(m: Manager, roomId: RoomId): (r: Option<Room>)
    ensures r.Some? <==> roomId in Keys(m.rooms)
    ensures ManagerValid(m) && r.Some? ==> r.value.roomId == roomId
  {
    Get(m.rooms, roomId)
  }

  /** The capacity a room gets: the given one, or 4 when omitted. */
  function Capacity(opts: RoomOptions): nat {
    opts.maxPlayers.GetOr(DEFAULT_MAX_PLAYERS)
  }

  /**
   * `createRoom`: a new Active room with the given roster, announced to the
   * room's channel. The initial roster is validated against the capacity.
   */
  function CreateRoom(m: Manager, roomId: RoomId, opts: RoomOptions, now: int): (r: Result<Created, CreateError>)
    ensures r.Ok? <==>
      && roomId !in Keys(m.rooms)
      && |opts.players| <= (if opts.maxPlayers.None? then 4 else opts.maxPlayers.value)
      && DistinctPlayers(opts.players)
    ensures r.Ok? ==>
      && r.value.room.roomId == roomId
      && r.value.room.gameMode == opts.gameMode
      && r.value.room.IsActive()
      && r.value.room.maxPlayers == (if opts.maxPlayers.None? then 4 else opts.maxPlayers.value)
      && r.value.room.players == opts.players
      && r.value.room.createdAt == now
      && GetRoom(r.value.manager, roomId) == Some(r.value.room)
      && (forall id :: id != roomId ==> GetRoom(r.value.manager, id) == GetRoom(m, id))
      && |r.value.manager.rooms| == |m.rooms| + 1
      && r.value.event == RoomCreated(roomId)
    ensures r.Err? ==> roomId in Keys(m.rooms) || |opts.players| > Capacity(opts) || !DistinctPlayers(opts.players)
    ensures r.Ok? && ManagerValid(m) ==> ManagerValid(r.value.manager)
  {
    if roomId in Keys(m.rooms) then Err(RoomExists)
    else if |opts.players| > Capacity(opts) then Err(RosterTooLarge)
    else if !DistinctPlayers(opts.players) then Err(DuplicatePlayer)
    else
      var room := Room(roomId, opts.gameMode, Capacity(opts), opts.players, Active, map[], now);
      Ok(Created(Manager(Put(m.rooms, roomId, room)), room, RoomCreated(roomId)))
  }

  /**
   * `addPlayer`: joins only an existing, Active, non-full room that does not
   * already hold the player; otherwise false and nothing changes.
   */
  function AddPlayer(m: Manager, roomId: RoomId, playerId: PlayerId, socketId: SocketId): (r: Outcome)
    ensures r.ok <==>
      && GetRoom(m, roomId).Some?
      && GetRoom(m, roomId).value.state == Active
      && |GetRoom(m, roomId).value.players| < GetRoom(m, roomId).value.maxPlayers
      && !HasPlayer(GetRoom(m, roomId).value.players, playerId)
    ensures !r.ok ==> r.manager == m
    ensures r.ok ==>
      var room := GetRoom(m, roomId).value;
      GetRoom(r.manager, roomId) == Some(room.(players := room.players + [PlayerRef(playerId, socketId)]))
    ensures forall id :: id != roomId ==> GetRoom(r.manager, id) == GetRoom(m, id)
    ensures ManagerValid(m) ==> ManagerValid(r.manager)
  {
    match GetRoom(m, roomId)
    case None => Outcome(m, false)
    case Some(room) =>
      if room.state != Active || |room.players| >= room.maxPlayers || HasPlayer(room.players, playerId) then
        Outcome(m, false)
      else
        var room' := room.(players := room.players + [PlayerRef(playerId, socketId)]);
        AppendPlayer(room.players, PlayerRef(playerId, socketId));
        StoreRoom(m, roomId, room');
        Outcome(Manager(Put(m.rooms, roomId, room')), true)
  }

  /**
   * `removePlayer`: false for an unknown room or player. On success the
   * player leaves, and a room whose roster becomes empty is destroyed.
   */
  function RemovePlayer(m: Manager, roomId: RoomId, playerId: PlayerId): (r: Outcome)
    ensures r.ok <==> GetRoom(m, roomId).Some? && HasPlayer(GetRoom(m, roomId).value.players, playerId)
    ensures !r.ok ==> r.manager == m
    ensures r.ok ==>
      var room := GetRoom(m, roomId).value;
      var rest := WithoutPlayer(room.players, playerId);
      && (|rest| == 0 ==> GetRoom(r.manager, roomId) == None)
      && (|rest| > 0 ==> GetRoom(r.manager, roomId) == Some(room.(players := rest)))
    ensures forall id :: id != roomId ==> GetRoom(r.manager, id) == GetRoom(m, id)
    ensures ManagerValid(m) ==> ManagerValid(r.manager)
  {
    match GetRoom(m, roomId)
    case None => Outcome(m, false)
    case Some(room) =>
      if !HasPlayer(room.players, playerId) then Outcome(m, false)
      else
        var rest := WithoutPlayer(room.players, playerId);
        if |rest| == 0 then Outcome(Manager(Remove(m.rooms, roomId)), true)
        else Outcome(Manager(Put(m.rooms, roomId, room.(players := rest))), true)
  }

  /** `pauseRoom`: succeeds only on an Active room. */
  function PauseRoom(m: Manager, roomId: RoomId): (r: Outcome)
    ensures r.ok <==> GetRoom(m, roomId).Some? && GetRoom(m, roomId).value.state == Active
    ensures !r.ok ==> r.manager == m
    ensures r.ok ==> GetRoom(r.manager, roomId) == Some(GetRoom(m, roomId).value.(state := Paused))
    ensures forall id :: id != roomId ==> GetRoom(r.manager, id) == GetRoom(m, id)
    ensures ManagerValid(m) ==> ManagerValid(r.manager)
  {
    match GetRoom(m, roomId)
    case Some(room) =>
      if room.state == Active then Outcome(Manager(Put(m.rooms, roomId, room.(state := Paused))), true)
      else Outcome(m, false)
    case None => Outcome(m, false)
  }

  /** `resumeRoom`: succeeds only on a Paused room. */
  function ResumeRoom(m: Manager, roomId: RoomId): (r: Outcome)
    ensures r.ok <==> GetRoom(m, roomId).Some? && GetRoom(m, roomId).value.state == Paused
    ensures !r.ok ==> r.manager == m
    ensures r.ok ==> GetRoom(r.manager, roomId) == Some(GetRoom(m, roomId).value.(state := Active))
    ensures forall id :: id != roomId ==> GetRoom(r.manager, id) == GetRoom(m, id)
    ensures ManagerValid(m) ==> ManagerValid(r.manager)
  {
    match GetRoom(m, roomId)
    case Some(room) =>
      if room.state == Paused then Outcome(Manager(Put(m.rooms, roomId, room.(state := Active))), true)
      else Outcome(m, false)
    case None => Outcome(m, false)
  }

  /** `endRoom`: ends an Active or Paused room, which leaves the registry. */
  function EndRoom(m: Manager, roomId: RoomId): (r: Outcome)
    ensures r.ok <==> GetRoom(m, roomId).Some?
    ensures GetRoom(r.manager, roomId) == None
    ensures forall id :: id != roomId ==> GetRoom(r.manager, id) == GetRoom(m, id)
    ensures ManagerValid(m) ==> ManagerValid(r.manager)
  {
    if GetRoom(m, roomId).Some? then Outcome(Manager(Remove(m.rooms, roomId)), true)
    else Outcome(m, false)
  }

  /** `updateGameState`: replaces the blob of an existing room; a no-op for an unknown id. */
  function UpdateGameState(m: Manager, roomId: RoomId, gameState: GameState): (r: Manager)
    ensures GetRoom(m, roomId).None? ==> r == m
    ensures GetRoom(m, roomId).Some? ==> GetRoom(r, roomId) == Some(GetRoom(m, roomId).value.(gameState := gameState))
    ensures forall id :: id != roomId ==> GetRoom(r, id) == GetRoom(m, id)
    ensures ManagerValid(m) ==> ManagerValid(r)
  {
    match GetRoom(m, roomId)
    case Some(room) => Manager(Put(m.rooms, roomId, room.(gameState := gameState)))
    case None => m
  }

  /** Whether a room is Active: the filter `getActiveRooms` applies. */
  predicate IsActiveRoom(room: Room) {
    room.IsActive()
  }

  /** Whether a room's roster holds `playerId`: the filter `getRoomsForPlayer` applies. */
  function Holding(playerId: PlayerId): Room -> bool {
    (room: Room) => HasPlayer(room.players, playerId)
  }

  /** The stored rooms in registry order whose state is Active. */
  function ActiveRooms(rooms: OMap<RoomId, Room>): (r: seq<Room>)
    ensures r == Filter(Values(rooms), IsActiveRoom)
  {
    if |rooms| == 0 then []
    else
      var rest := ActiveRooms(rooms[1..]);
      assert Values(rooms) == [rooms[0].1] + Values(rooms[1..]);
      FilterCons(rooms[0].1, Values(rooms[1..]), IsActiveRoom);
      if rooms[0].1.state == Active then [rooms[0].1] + rest else rest
  }

  /**
   * `getActiveRooms`: the Active rooms in registry order, each once, none of
   * the Paused ones; as many as there are Active rooms.
   */
  function GetActiveRooms(m: Manager): (r: seq<Room>)
    ensures r == Filter(Values(m.rooms), IsActiveRoom)
    ensures forall room :: room in r <==> room in Values(m.rooms) && room.IsActive()
    ensures |r| == Count(Values(m.rooms), IsActiveRoom)
  {
    FilterLength(Values(m.rooms), IsActiveRoom);
    ActiveRooms(m.rooms)
  }

  /** The stored rooms in registry order whose roster holds `playerId`. */
  function RoomsWith(rooms: OMap<RoomId, Room>, playerId: PlayerId): (r: seq<Room>)
    ensures r == Filter(Values(rooms), Holding(playerId))
  {
    if |rooms| == 0 then []
    else
      var rest := RoomsWith(rooms[1..], playerId);
      assert Values(rooms) == [rooms[0].1] + Values(rooms[1..]);
      FilterCons(rooms[0].1, Values(rooms[1..]), Holding(playerId));
      if HasPlayer(rooms[0].1.players, playerId) then [rooms[0].1] + rest else rest
  }

  /**
   * `getRoomsForPlayer`: the rooms whose roster holds the player, in registry
   * order, each once; [] when none does.
   */
  function GetRoomsForPlayer(m: Manager, playerId: PlayerId): (r: seq<Room>)
    ensures r == Filter(Values(m.rooms), Holding(playerId))
    ensures forall room :: room in r <==> room in Values(m.rooms) && HasPlayer(room.players, playerId)
    ensures |r| == Count(Values(m.rooms), Holding(playerId))
  {
    FilterLength(Values(m.rooms), Holding(playerId));
    RoomsWith(m.rooms, playerId)
  }

  // ---------------------------------------------------------------------
  // Properties over whole sequences of operations
  // ---------------------------------------------------------------------

  /** One call into the manager, as the transport layer issues them. */
  datatype RoomOp =
    | Create(roomId: RoomId, opts: RoomOptions, now: int)
    | Join(roomId: RoomId, playerId: PlayerId, socketId: SocketId)
    | Leave(roomId: RoomId, playerId: PlayerId)
    | Pause(roomId: RoomId)
    | Resume(roomId: RoomId)
    | End(roomId: RoomId)
    | Update(roomId: RoomId, gameState: GameState)

  function Apply(m: Manager, op: RoomOp): Manager {
    match op
    case Create(id, opts, now) =>
      (match CreateRoom(m, id, opts, now) case Ok(c) => c.manager case Err(_) => m)
    case Join(id, p, s) => AddPlayer(m, id, p, s).manager
    case Leave(id, p) => RemovePlayer(m, id, p).manager
    case Pause(id) => PauseRoom(m, id).manager
    case Resume(id) => ResumeRoom(m, id).manager
    case End(id) => EndRoom(m, id).manager
    case Update(id, gs) => UpdateGameState(m, id, gs)
  }

  function ApplyAll(m: Manager, ops: seq<RoomOp>): Manager
    decreases |ops|
  {
    if |ops| == 0 then m else ApplyAll(Apply(m, ops[0]), ops[1..])
  }

  /**
   * Whatever calls are made, every stored room keeps its id, never holds more
   * players than its capacity and never holds a player twice.
   */
  lemma {:induction false} InvariantHoldsForAnyRun(m: Manager, ops: seq<RoomOp>)
    requires ManagerValid(m)
    ensures ManagerValid(ApplyAll(m, ops))
    ensures forall id :: GetRoom(ApplyAll(m, ops), id).Some? ==>
      |GetRoom(ApplyAll(m, ops), id).value.players| <= GetRoom(ApplyAll(m, ops), id).value.maxPlayers
    decreases |ops|
  {
    if |ops| > 0 {
      ApplyKeepsValid(m, ops[0]);
      InvariantHoldsForAnyRun(Apply(m, ops[0]), ops[1..]);
    }
    ValidRoomsFit(ApplyAll(m, ops));
  }

  /** Every single call keeps the registry valid. */
  lemma ApplyKeepsValid(m: Manager, op: RoomOp)
    requires ManagerValid(m)
    ensures ManagerValid(Apply(m, op))
  {
  }

  /** In a valid registry no room holds more players than its capacity. */
  lemma ValidRoomsFit(m: Manager)
    requires ManagerValid(m)
    ensures forall id :: GetRoom(m, id).Some? ==> |GetRoom(m, id).value.players| <= GetRoom(m, id).value.maxPlayers
  {
  }

  /** The empty registry satisfies the invariant. */
  lemma EmptyManagerValid()
    ensures ManagerValid(EmptyManager())
    ensures GetActiveRooms(EmptyManager()) == []
  {
  }

  /** A second pause of the same room fails, and so does resuming a never-paused room. */
  lemma PauseIsNotReentrant(m: Manager, roomId: RoomId)
    ensures !PauseRoom(PauseRoom(m, roomId).manager, roomId).ok
    ensures GetRoom(m, roomId).Some? && GetRoom(m, roomId).value.IsActive() ==> !ResumeRoom(m, roomId).ok
  {
  }

  /** Removing the only player destroys the room: it cannot be looked up any more. */
  lemma RemoveLastPlayerDestroysRoom(m: Manager, roomId: RoomId, playerId: PlayerId)
    requires GetRoom(m, roomId).Some?
    requires |GetRoom(m, roomId).value.players| == 1
    requires GetRoom(m, roomId).value.players[0].playerId == playerId
    ensures RemovePlayer(m, roomId, playerId).ok
    ensures GetRoom(RemovePlayer(m, roomId, playerId).manager, roomId) == None
  {
    var players := GetRoom(m, roomId).value.players;
    assert PlayerIds(players) == [playerId];
    assert players[1..] == [];
  }

  /** A freshly created room, even with an empty roster, can be looked up and joined. */
  lemma CreatedRoomIsJoinable(m: Manager, roomId: RoomId, gameMode: string, playerId: PlayerId, socketId: SocketId, now: int)
    requires roomId !in Keys(m.rooms)
    ensures CreateRoom(m, roomId, RoomOptions(gameMode, None, []), now).Ok?
    ensures var c := CreateRoom(m, roomId, RoomOptions(gameMode, None, []), now).value;
      && GetRoom(c.manager, roomId).Some?
      && c.room.maxPlayers == 4
      && AddPlayer(c.manager, roomId, playerId, socketId).ok
  {
  }

  /** A full room rejects a new player and its roster stays as it was. */
  lemma FullRoomRejects(m: Manager, roomId: RoomId, playerId: PlayerId, socketId: SocketId)
    requires GetRoom(m, roomId).Some?
    requires |GetRoom(m, roomId).value.players| == GetRoom(m, roomId).value.maxPlayers
    ensures !AddPlayer(m, roomId, playerId, socketId).ok
    ensures GetRoom(AddPlayer(m, roomId, playerId, socketId).manager, roomId) == GetRoom(m, roomId)
  {
  }

  /** A successful `createRoom` appends the new room at the end of the registry's iteration order. */
  lemma CreateRoomAppends(m: Manager, roomId: RoomId, opts: RoomOptions, now: int)
    requires CreateRoom(m, roomId, opts, now).Ok?
    ensures CreateRoom(m, roomId, opts, now).value.manager.rooms ==
      m.rooms + [(roomId, Room(roomId, opts.gameMode, Capacity(opts), opts.players, Active, map[], now))]
  {
    SetAppends(m.rooms, roomId, Room(roomId, opts.gameMode, Capacity(opts), opts.players, Active, map[], now));
  }

  /** The registry the query tests build: "room1" (deathmatch) then "room2" (coop), sharing one roster. */
  function TwoRooms(roster: seq<PlayerRef>, now: int): Manager
    requires |roster| <= DEFAULT_MAX_PLAYERS && DistinctPlayers(roster)
  {
    var m1 := CreateRoom(EmptyManager(), "room1", RoomOptions("deathmatch", None, roster), now).value.manager;
    CreateRoom(m1, "room2", RoomOptions("coop", None, roster), now).value.manager
  }

  /** Two empty rooms created one after the other are stored in creation order. */
  lemma EmptyRoomsStored(now: int)
    ensures TwoRooms([], now).rooms == [
      ("room1", Room("room1", "deathmatch", 4, [], Active, map[], now)),
      ("room2", Room("room2", "coop", 4, [], Active, map[], now))]
  {
    var r1 := Room("room1", "deathmatch", 4, [], Active, map[], now);
    CreateRoomAppends(EmptyManager(), "room1", RoomOptions("deathmatch", None, []), now);
    CreateRoomAppends(Manager([("room1", r1)]), "room2", RoomOptions("coop", None, []), now);
  }

  /** Pausing the first of two stored rooms replaces it in place. */
  lemma PauseFirstOfTwo(r1: Room, r2: Room)
    requires r1.state == Active
    ensures PauseRoom(Manager([("room1", r1), ("room2", r2)]), "room1").manager.rooms ==
      [("room1", r1.(state := Paused)), ("room2", r2)]
  {
    var rooms := [("room1", r1), ("room2", r2)];
    assert rooms == [rooms[0]] + rooms[1..];
  }

  /** Of a paused room followed by an active one, only the active one is listed. */
  lemma ActiveOfPausedPair(r1: Room, r2: Room)
    requires r1.state == Paused && r2.state == Active
    ensures GetActiveRooms(Manager([("room1", r1), ("room2", r2)])) == [r2]
  {
    assert Values([("room1", r1), ("room2", r2)]) == [r1, r2];
    FilterCons(r1, [r2], IsActiveRoom);
    FilterCons(r2, [], IsActiveRoom);
  }

  /**
   * Two empty rooms, the first then paused: `getActiveRooms` lists exactly
   * one room, the second.
   */
  lemma ActiveRoomsExample(now: int)
    ensures var active := GetActiveRooms(PauseRoom(TwoRooms([], now), "room1").manager);
      |active| == 1 && active[0].roomId == "room2"
  {
    var r1 := Room("room1", "deathmatch", 4, [], Active, map[], now);
    var r2 := Room("room2", "coop", 4, [], Active, map[], now);
    EmptyRoomsStored(now);
    PauseFirstOfTwo(r1, r2);
    ActiveOfPausedPair(r1.(state := Paused), r2);
  }

  /** Of two rooms both holding the player, both are listed, in order. */
  lemma BothRoomsHold(r1: Room, r2: Room, playerId: PlayerId)
    requires HasPlayer(r1.players, playerId) && HasPlayer(r2.players, playerId)
    ensures GetRoomsForPlayer(Manager([("room1", r1), ("room2", r2)]), playerId) == [r1, r2]
  {
    assert Values([("room1", r1), ("room2", r2)]) == [r1, r2];
    assert Holding(playerId)(r1) && Holding(playerId)(r2);
    FilterCons(r1, [r2], Holding(playerId));
    FilterCons(r2, [], Holding(playerId));
  }

  /** The rooms `player1` holds a seat in, created one after the other. */
  lemma SharedRosterStored(now: int)
    ensures TwoRooms([PlayerRef("player1", "socket1")], now).rooms == [
      ("room1", Room("room1", "deathmatch", 4, [PlayerRef("player1", "socket1")], Active, map[], now)),
      ("room2", Room("room2", "coop", 4, [PlayerRef("player1", "socket1")], Active, map[], now))]
  {
    var roster := [PlayerRef("player1", "socket1")];
    var r1 := Room("room1", "deathmatch", 4, roster, Active, map[], now);
    CreateRoomAppends(EmptyManager(), "room1", RoomOptions("deathmatch", None, roster), now);
    CreateRoomAppends(Manager([("room1", r1)]), "room2", RoomOptions("coop", None, roster), now);
  }

  /** A player seated in both rooms is reported in both, in creation order. */
  lemma RoomsForPlayerExample(now: int)
    ensures var rooms := GetRoomsForPlayer(TwoRooms([PlayerRef("player1", "socket1")], now), "player1");
      |rooms| == 2 && rooms[0].roomId == "room1" && rooms[1].roomId == "room2"
  {
    var roster := [PlayerRef("player1", "socket1")];
    assert PlayerIds(roster) == ["player1"];
    SharedRosterStored(now);
    BothRoomsHold(Room("room1", "deathmatch", 4, roster, Active, map[], now),
                  Room("room2", "coop", 4, roster, Active, map[], now), "player1");
  }

  /** A player seated nowhere gets the empty list. */
  lemma NoRoomsForStranger(now: int)
    ensures GetRoomsForPlayer(CreateRoom(EmptyManager(), "room1", RoomOptions("deathmatch", None, []), now).value.manager, "nonexistent") == []
  {
    var r1 := Room("room1", "deathmatch", 4, [], Active, map[], now);
    CreateRoomAppends(EmptyManager(), "room1", RoomOptions("deathmatch", None, []), now);
    assert Values([("room1", r1)]) == [r1];
    FilterCons(r1, [], Holding("nonexistent"));
  }
}
