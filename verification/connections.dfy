/**
 * The server's connection registry (`ConnectionManager`): one session per
 * live socket, authenticated by a bearer token when a verification secret is
 * configured and otherwise a guest; a departing socket that sat in a room is
 * announced to that room.
 */
module Connections {
  import opened Wrappers
  import opened OrderedMaps
  import opened Seqs

  type SocketId = string
  type PlayerId = string
  type RoomId = string

  datatype Session = Session(
    socketId: SocketId,
    playerId: PlayerId,
    connectedAt: int,
    lastActivity: int,
    roomId: Option<RoomId>)

  datatype Registry = Registry(sessions: OMap<SocketId, Session>)

  /** What the transport hands over on `connection`: the socket id and the optional auth token. */
  datatype Handshake = Handshake(socketId: SocketId, token: Option<string>)

  /** `connection_ack {sessionId, playerId, serverTime}`. */
  datatype Ack = ConnectionAck(sessionId: SocketId, playerId: PlayerId, serverTime: int)

  /** The room-scoped `player_left {playerId, socketId}` broadcast. */
  datatype Notice = PlayerLeft(roomId: RoomId, playerId: PlayerId, socketId: SocketId)

  datatype Connected = Connected(registry: Registry, ack: Ack)

  datatype Disconnected = Disconnected(registry: Registry, notice: Option<Notice>)

  /**
   * The external token verifier `verify(token, secret)`: the verified player
   * id, or None where the real verifier throws.
   */
  type Verifier = (string, string) -> Option<PlayerId>

  const GUEST_PREFIX: string := "guest_"

  function EmptyRegistry(): Registry {
    Registry([])
  }

  /** Every stored session is filed under its own socket id, and no socket id occurs twice. */
  ghost predicate RegistryValid(reg: Registry) {
    && Valid(reg.sessions)
    && forall s :: Get(reg.sessions, s).Some? ==> Get(reg.sessions, s).value.socketId == s
  }

  /** `getSession`: the live session of a socket, if any. */
  function GetSession(reg: Registry, socketId: SocketId): (r: Option<Session>)
    ensures r.Some? <==> socketId in Keys(reg.sessions)
    ensures RegistryValid(reg) && r.Some? ==> r.value.socketId == socketId
  {
    Get(reg.sessions, socketId)
  }

  /** `getConnectedCount`: the size of the session map, one per distinct live socket. */
  function GetConnectedCount(reg: Registry): (n: nat)
    ensures RegistryValid(reg) ==> n == |set s | s in Keys(reg.sessions)|
    ensures n == 0 <==> forall s :: GetSession(reg, s).None?
  {
    if |reg.sessions| == 0 then 0
    else
      assert Keys(reg.sessions)[0] == reg.sessions[0].0;
      assert GetSession(reg, reg.sessions[0].0).Some?;
      if Valid(reg.sessions) then KeyCount(reg.sessions); |reg.sessions|
      else |reg.sessions|
  }

  /**
   * The identity a connection gets: the verified one when a token is present,
   * a secret is configured and verification succeeds; otherwise the guest id.
   */
  function ResolvePlayerId(socketId: SocketId, token: Option<string>, secret: Option<string>, verify: Verifier): (p: PlayerId)
    ensures token.Some? && secret.Some? && verify(token.value, secret.value).Some? ==>
      p == verify(token.value, secret.value).value
    ensures token.None? || secret.None? || verify(token.value, secret.value).None? ==>
      p == GUEST_PREFIX + socketId && p[..|GUEST_PREFIX|] == "guest_" && p[|GUEST_PREFIX|..] == socketId
  {
    if token.Some? && secret.Some? then
      match verify(token.value, secret.value)
      case Some(id) => id
      case None => GUEST_PREFIX + socketId
    else GUEST_PREFIX + socketId
  }

  /**
   * `handleConnection`: registers a session for the socket and acknowledges it
   * with the socket id as session id. Authentication failure degrades to a
   * guest session and is never an error.
   */
  function HandleConnection(reg: Registry, hs: Handshake, secret: Option<string>, verify: Verifier, now: int): (r: Connected)
    ensures r.ack.sessionId == hs.socketId
    ensures r.ack.serverTime == now
    ensures r.ack.playerId == ResolvePlayerId(hs.socketId, hs.token, secret, verify)
    ensures GetSession(r.registry, hs.socketId) == Some(Session(hs.socketId, r.ack.playerId, now, now, None))
    ensures forall s :: s != hs.socketId ==> GetSession(r.registry, s) == GetSession(reg, s)
    ensures hs.socketId !in Keys(reg.sessions) ==> GetConnectedCount(r.registry) == GetConnectedCount(reg) + 1
    ensures RegistryValid(reg) ==> RegistryValid(r.registry)
  {
    var playerId := ResolvePlayerId(hs.socketId, hs.token, secret, verify);
    var session := Session(hs.socketId, playerId, now, now, None);
    Connected(Registry(Put(reg.sessions, hs.socketId, session)), ConnectionAck(hs.socketId, playerId, now))
  }

  /**
   * `handleDisconnection`: drops the session unconditionally; a session that
   * was assigned to a room yields exactly one `player_left` for that room.
   * An unknown socket changes nothing.
   */
  function HandleDisconnection(reg: Registry, socketId: SocketId): (r: Disconnected)
    ensures GetSession(r.registry, socketId) == None
    ensures forall s :: s != socketId ==> GetSession(r.registry, s) == GetSession(reg, s)
    ensures r.notice.Some? <==> GetSession(reg, socketId).Some? && GetSession(reg, socketId).value.roomId.Some?
    ensures r.notice.Some? ==>
      var s := GetSession(reg, socketId).value;
      r.notice.value == PlayerLeft(s.roomId.value, s.playerId, socketId)
    ensures GetSession(reg, socketId).None? ==> r.registry == reg
    ensures RegistryValid(reg) && GetSession(reg, socketId).Some? ==>
      GetConnectedCount(r.registry) == GetConnectedCount(reg) - 1
    ensures RegistryValid(reg) ==> RegistryValid(r.registry)
  {
    match GetSession(reg, socketId)
    case None => Disconnected(reg, None)
    case Some(s) =>
      var notice := if s.roomId.Some? then Some(PlayerLeft(s.roomId.value, s.playerId, socketId)) else None;
      Disconnected(Registry(Remove(reg.sessions, socketId)), notice)
  }

  /** `assignRoom`: records the room of an existing session; a no-op for an unknown socket. */
  function AssignRoom(reg: Registry, socketId: SocketId, roomId: RoomId): (r: Registry)
    ensures GetSession(reg, socketId).None? ==> r == reg
    ensures GetSession(reg, socketId).Some? ==>
      GetSession(r, socketId) == Some(GetSession(reg, socketId).value.(roomId := Some(roomId)))
    ensures forall s :: s != socketId ==> GetSession(r, s) == GetSession(reg, s)
    ensures Keys(r.sessions) == Keys(reg.sessions)
    ensures RegistryValid(reg) ==> RegistryValid(r)
  {
    match GetSession(reg, socketId)
    case None => reg
    case Some(s) => Registry(Put(reg.sessions, socketId, s.(roomId := Some(roomId))))
  }

  /** `removeRoomAssignment`: clears the room of an existing session; a no-op for an unknown socket. */
  function RemoveRoomAssignment(reg: Registry, socketId: SocketId): (r: Registry)
    ensures GetSession(reg, socketId).None? ==> r == reg
    ensures GetSession(reg, socketId).Some? ==>
      GetSession(r, socketId) == Some(GetSession(reg, socketId).value.(roomId := None))
    ensures forall s :: s != socketId ==> GetSession(r, s) == GetSession(reg, s)
    ensures Keys(r.sessions) == Keys(reg.sessions)
    ensures RegistryValid(reg) ==> RegistryValid(r)
  {
    match GetSession(reg, socketId)
    case None => reg
    case Some(s) => Registry(Put(reg.sessions, socketId, s.(roomId := None)))
  }

  /** Whether a session is assigned to `roomId`, as the filter of `getSessionsInRoom` tests it. */
  function InRoom(roomId: RoomId): Session -> bool {
    (s: Session) => s.roomId == Some(roomId)
  }

  /** The stored sessions, in connection order, that are assigned to `roomId`. */
  function SessionsIn(sessions: OMap<SocketId, Session>, roomId: RoomId): (r: seq<Session>)
    ensures r == Filter(Values(sessions), InRoom(roomId))
  {
    if |sessions| == 0 then []
    else
      var rest := SessionsIn(sessions[1..], roomId);
      assert Values(sessions) == [sessions[0].1] + Values(sessions[1..]);
      FilterCons(sessions[0].1, Values(sessions[1..]), InRoom(roomId));
      if sessions[0].1.roomId == Some(roomId) then [sessions[0].1] + rest else rest
  }

  /**
   * `getSessionsInRoom`: the sessions assigned to the room, in connection
   * order, each once; [] for an unused room.
   */
  function GetSessionsInRoom(reg: Registry, roomId: RoomId): (r: seq<Session>)
    ensures r == Filter(Values(reg.sessions), InRoom(roomId))
    ensures forall s :: s in r <==> s in Values(reg.sessions) && s.roomId == Some(roomId)
    ensures |r| == Count(Values(reg.sessions), InRoom(roomId))
  {
    FilterLength(Values(reg.sessions), InRoom(roomId));
    SessionsIn(reg.sessions, roomId)
  }

  // ---------------------------------------------------------------------
  // Counting over a run of connection events
  // ---------------------------------------------------------------------

  datatype ConnEvent = Connect(hs: Handshake, now: int) | Disconnect(socketId: SocketId)

  function Step(reg: Registry, e: ConnEvent, secret: Option<string>, verify: Verifier): Registry {
    match e
    case Connect(hs, now) => HandleConnection(reg, hs, secret, verify, now).registry
    case Disconnect(s) => HandleDisconnection(reg, s).registry
  }

  function Run(reg: Registry, events: seq<ConnEvent>, secret: Option<string>, verify: Verifier): Registry
    decreases |events|
  {
    if |events| == 0 then reg else Run(Step(reg, events[0], secret, verify), events[1..], secret, verify)
  }

  /** The transport's contract: a socket connects only while it is not live, and disconnects only while it is. */
  ghost predicate WellFormedRun(reg: Registry, events: seq<ConnEvent>, secret: Option<string>, verify: Verifier)
    decreases |events|
  {
    |events| == 0 ||
    (&& (events[0].Connect? ==> events[0].hs.socketId !in Keys(reg.sessions))
     && (events[0].Disconnect? ==> events[0].socketId in Keys(reg.sessions))
     && WellFormedRun(Step(reg, events[0], secret, verify), events[1..], secret, verify))
  }

  function Connects(events: seq<ConnEvent>): nat {
    if |events| == 0 then 0 else (if events[0].Connect? then 1 else 0) + Connects(events[1..])
  }

  function Disconnects(events: seq<ConnEvent>): nat {
    if |events| == 0 then 0 else (if events[0].Disconnect? then 1 else 0) + Disconnects(events[1..])
  }

  /** The connected count equals the connects minus the disconnects processed so far. */
  lemma {:induction false} CountTracksEvents(reg: Registry, events: seq<ConnEvent>, secret: Option<string>, verify: Verifier)
    requires RegistryValid(reg)
    requires WellFormedRun(reg, events, secret, verify)
    ensures RegistryValid(Run(reg, events, secret, verify))
    ensures GetConnectedCount(Run(reg, events, secret, verify)) + Disconnects(events)
         == GetConnectedCount(reg) + Connects(events)
    decreases |events|
  {
    if |events| > 0 {
      CountTracksEvents(Step(reg, events[0], secret, verify), events[1..], secret, verify);
    }
  }

  /** A fresh registry is empty; one connection makes the count 1 and its disconnection brings it back to 0. */
  lemma ConnectThenDisconnect(hs: Handshake, secret: Option<string>, verify: Verifier, now: int)
    ensures GetConnectedCount(EmptyRegistry()) == 0
    ensures var c := HandleConnection(EmptyRegistry(), hs, secret, verify, now);
      && GetConnectedCount(c.registry) == 1
      && GetConnectedCount(HandleDisconnection(c.registry, hs.socketId).registry) == 0
      && HandleDisconnection(c.registry, hs.socketId).notice == None
  {
  }

  /** A socket assigned to a room announces its departure to exactly that room. */
  lemma AssignedDisconnectNotifiesRoom(reg: Registry, hs: Handshake, secret: Option<string>, verify: Verifier, now: int, roomId: RoomId)
    ensures var c := HandleConnection(reg, hs, secret, verify, now);
      var placed := AssignRoom(c.registry, hs.socketId, roomId);
      HandleDisconnection(placed, hs.socketId).notice == Some(PlayerLeft(roomId, c.ack.playerId, hs.socketId))
  {
  }

  /**
   * One connected socket assigned to "room-1": the room lists exactly that
   * session, and a room nobody was assigned to lists nothing.
   */
  lemma SessionsInRoomExample(hs: Handshake, secret: Option<string>, verify: Verifier, now: int)
    ensures var c := HandleConnection(EmptyRegistry(), hs, secret, verify, now);
      var placed := AssignRoom(c.registry, hs.socketId, "room-1");
      var sessions := GetSessionsInRoom(placed, "room-1");
      && |sessions| == 1
      && sessions[0].socketId == hs.socketId
      && GetSessionsInRoom(placed, "empty-room") == []
  {
    var c := HandleConnection(EmptyRegistry(), hs, secret, verify, now);
    var session := Session(hs.socketId, c.ack.playerId, now, now, Some("room-1"));
    var placed := AssignRoom(c.registry, hs.socketId, "room-1");
    assert placed.sessions == [(hs.socketId, session)];
    assert Values(placed.sessions) == [session];
    FilterCons(session, [], InRoom("room-1"));
    FilterCons(session, [], InRoom("empty-room"));
  }
}
