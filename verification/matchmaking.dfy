/**
 * The server's matchmaking queue (`Matchmaker`): requests are queued for
 * players that hold a session, grouped on every tick by game mode and region,
 * and each group the match-finding strategy accepts becomes a new room whose
 * sessions are bound to it.
 */
module Matchmaking {
  import opened Wrappers
  import opened OrderedMaps
  import Rooms
  import Connections

  type SocketId = string
  type PlayerId = string
  type RoomId = string

  /** A positive number of milliseconds. */
  type Pos = n: nat | n > 0 witness 1

  datatype Preferences = Preferences(gameMode: string, region: Option<string>)

  datatype Request = Request(
    requestId: nat,
    playerId: PlayerId,
    socketId: SocketId,
    preferences: Preferences,
    queuedAt: int)

  /** The queue with its id counters; `running` is false once the periodic tick is stopped. */
  datatype Matchmaker = Matchmaker(queue: seq<Request>, nextRequestId: nat, nextMatchId: nat, running: bool)

  /** The three shared registries a tick reads and writes. */
  datatype Server = Server(conns: Connections.Registry, rooms: Rooms.Manager, mm: Matchmaker)

  /** Messages sent to a single socket. */
  datatype Emission =
    | MatchmakingQueued(socketId: SocketId, requestId: nat, estimatedWait: nat)
    | MatchFound(socketId: SocketId, roomId: RoomId)

  datatype Enqueued = Enqueued(mm: Matchmaker, requestId: nat, emission: Emission)

  datatype Dequeued = Dequeued(mm: Matchmaker, removed: bool)

  /** The wait estimate, as a function of the queue length: always positive. */
  type Estimator = nat -> Pos

  /** What the match-finding strategy decides for one group: no match, or its first `count` requests. */
  datatype MatchPlan = NoMatch | MatchFirst(count: nat)

  type Strategy = seq<Request> -> MatchPlan

  datatype Tick = Tick(server: Server, emissions: seq<Emission>, matched: seq<Request>)

  const SESSION_NOT_FOUND: string := "Player session not found"

  function NewMatchmaker(): Matchmaker {
    Matchmaker([], 1, 1, true)
  }

  /** Request ids grow along the queue, so they are unique. */
  predicate Increasing(q: seq<Request>) {
    forall i, j :: 0 <= i < j < |q| ==> q[i].requestId < q[j].requestId
  }

  predicate QueueValid(mm: Matchmaker) {
    && Increasing(mm.queue)
    && forall i :: 0 <= i < |mm.queue| ==> mm.queue[i].requestId < mm.nextRequestId
  }

  // ---------------------------------------------------------------------
  // Queue operations
  // ---------------------------------------------------------------------

  /** The first queued request of a socket. */
  function FirstFor(q: seq<Request>, socketId: SocketId): (r: Option<Request>)
    ensures r.Some? <==> exists i :: 0 <= i < |q| && q[i].socketId == socketId
    ensures r.Some? ==> r.value in q && r.value.socketId == socketId
  {
    if |q| == 0 then None
    else if q[0].socketId == socketId then Some(q[0])
    else
      var r := FirstFor(q[1..], socketId);
      assert forall i :: 0 < i < |q| ==> q[i] == q[1..][i - 1];
      r
  }

  /** `getQueueStatus`: the pending request of a socket, if any. */
  function GetQueueStatus(mm: Matchmaker, socketId: SocketId): (r: Option<Request>)
    ensures r.Some? <==> exists i :: 0 <= i < |mm.queue| && mm.queue[i].socketId == socketId
    ensures r.Some? ==> r.value in mm.queue && r.value.socketId == socketId
  {
    FirstFor(mm.queue, socketId)
  }

  /**
   * `getQueueLength`: the pending requests; 0 exactly when no socket has one
   * queued. `EnqueueThenDequeue` states the rise by one and the fall back.
   */
  function GetQueueLength(mm: Matchmaker): (n: nat)
    ensures n == 0 <==> forall s :: GetQueueStatus(mm, s).None?
  {
    if |mm.queue| == 0 then 0
    else
      assert GetQueueStatus(mm, mm.queue[0].socketId).Some?;
      |mm.queue|
  }

  /**
   * `enqueuePlayer`: fails with "Player session not found" for a socket that
   * has no session; otherwise appends a request stamped with a fresh id, the
   * session's player id and `now`, and tells the socket its id and the wait
   * estimate for the new queue length.
   */
  function EnqueuePlayer(mm: Matchmaker, conns: Connections.Registry, socketId: SocketId, prefs: Preferences, now: int, estimate: Estimator): (r: Result<Enqueued, string>)
    ensures r.Err? <==> Connections.GetSession(conns, socketId).None?
    ensures r.Err? ==> r.error == SESSION_NOT_FOUND
    ensures r.Ok? ==>
      && r.value.requestId == mm.nextRequestId
      && r.value.mm.queue == mm.queue + [Request(r.value.requestId, Connections.GetSession(conns, socketId).value.playerId, socketId, prefs, now)]
      && r.value.mm.nextRequestId > r.value.requestId
      && r.value.emission.MatchmakingQueued?
      && r.value.emission.socketId == socketId
      && r.value.emission.requestId == r.value.requestId
      && r.value.emission.estimatedWait > 0
      && GetQueueStatus(r.value.mm, socketId).Some?
    ensures r.Ok? && QueueValid(mm) ==> QueueValid(r.value.mm)
  {
    match Connections.GetSession(conns, socketId)
    case None => Err(SESSION_NOT_FOUND)
    case Some(session) =>
      var req := Request(mm.nextRequestId, session.playerId, socketId, prefs, now);
      var q := mm.queue + [req];
      assert q[|q| - 1].socketId == socketId;
      Ok(Enqueued(mm.(queue := q, nextRequestId := mm.nextRequestId + 1), req.requestId,
                  MatchmakingQueued(socketId, req.requestId, estimate(|q|))))
  }

  /** The queue without the requests of one socket, in order. */
  function WithoutSocket(q: seq<Request>, socketId: SocketId): (r: seq<Request>)
    ensures forall x :: x in r <==> x in q && x.socketId != socketId
    ensures FirstFor(q, socketId).None? ==> r == q
    ensures Increasing(q) ==> Increasing(r)
    ensures |r| <= |q|
  {
    if |q| == 0 then []
    else
      var rest := WithoutSocket(q[1..], socketId);
      assert forall x :: x in q <==> x == q[0] || x in q[1..];
      assert Increasing(q) ==> Increasing(q[1..]);
      if q[0].socketId == socketId then rest
      else
        PrependIncreasing(q, rest);
        [q[0]] + rest
  }

  /**
   * `dequeuePlayer`: removes the socket's pending requests; true exactly when
   * there was one. Other requests keep their order.
   */
  function DequeuePlayer(mm: Matchmaker, socketId: SocketId): (r: Dequeued)
    ensures r.removed <==> GetQueueStatus(mm, socketId).Some?
    ensures GetQueueStatus(r.mm, socketId).None?
    ensures forall x :: x in r.mm.queue <==> x in mm.queue && x.socketId != socketId
    ensures !r.removed ==> r.mm == mm
    ensures QueueValid(mm) ==> QueueValid(r.mm)
  {
    var q := WithoutSocket(mm.queue, socketId);
    assert forall i :: 0 <= i < |q| ==> q[i] in q;
    Dequeued(mm.(queue := q), GetQueueStatus(mm, socketId).Some?)
  }

  /**
   * `stop`: clears the periodic tick (see `ScheduledTick`) and leaves the
   * queue and both id counters as they are.
   */
  function Stop(mm: Matchmaker): (r: Matchmaker)
    ensures !r.running
    ensures r.queue == mm.queue && r.nextRequestId == mm.nextRequestId && r.nextMatchId == mm.nextMatchId
    ensures r == mm.(running := false)
  {
    mm.(running := false)
  }

  /** Stopping twice is stopping once, and a stopped matchmaker is left unchanged by `stop`. */
  lemma StopIdempotent(mm: Matchmaker)
    ensures Stop(Stop(mm)) == Stop(mm)
    ensures !mm.running ==> Stop(mm) == mm
  {
  }

  // ---------------------------------------------------------------------
  // Grouping
  // ---------------------------------------------------------------------

  /**
   * The group a request belongs to: game mode and region, "any" when no
   * region was given. The key reads back as the mode, an underscore, and the
   * region or "any".
   */
  function GroupKey(p: Preferences): (k: string)
    ensures |k| > |p.gameMode| && k[..|p.gameMode|] == p.gameMode && k[|p.gameMode|] == '_'
    ensures p.region.Some? ==> k[|p.gameMode| + 1..] == p.region.value
    ensures p.region.None? ==> k[|p.gameMode| + 1..] == "any"
  {
    p.gameMode + "_" + p.region.GetOr("any")
  }

  /** The requests of one group, in queue order. */
  function WithKey(q: seq<Request>, k: string): (r: seq<Request>)
    ensures |r| <= |q|
  {
    if |q| == 0 then []
    else (if GroupKey(q[0].preferences) == k then [q[0]] else []) + WithKey(q[1..], k)
  }

  /** A group holds exactly the queued requests with its key. */
  lemma {:induction false} WithKeyMembers(q: seq<Request>, k: string, x: Request)
    ensures x in WithKey(q, k) <==> x in q && GroupKey(x.preferences) == k
    decreases |q|
  {
    if |q| > 0 {
      WithKeyMembers(q[1..], k, x);
      assert x in q <==> x == q[0] || x in q[1..];
    }
  }

  /** Adds the requests of `q`, in order, to the groups already in `acc`. */
  function GroupInto(acc: OMap<string, seq<Request>>, q: seq<Request>): (r: OMap<string, seq<Request>>)
    requires Valid(acc)
    ensures Valid(r)
    ensures |r| >= |acc|
    decreases |q|
  {
    if |q| == 0 then acc
    else
      var k := GroupKey(q[0].preferences);
      GroupInto(Put(acc, k, Get(acc, k).GetOr([]) + [q[0]]), q[1..])
  }

  lemma AppendAssoc<T>(a: seq<T>, b: seq<T>, c: seq<T>)
    ensures (a + b) + c == a + (b + c)
  {
  }

  /** Grouping appends each key's requests, in order, to what the key already held. */
  lemma {:induction false} GroupIntoGet(acc: OMap<string, seq<Request>>, q: seq<Request>, k: string)
    requires Valid(acc)
    ensures Get(GroupInto(acc, q), k).Some? <==> Get(acc, k).Some? || WithKey(q, k) != []
    ensures Get(GroupInto(acc, q), k).GetOr([]) == Get(acc, k).GetOr([]) + WithKey(q, k)
    decreases |q|
  {
    var before := Get(acc, k).GetOr([]);
    if |q| == 0 {
      assert before + WithKey(q, k) == before;
    } else {
      var k0 := GroupKey(q[0].preferences);
      var acc' := Put(acc, k0, Get(acc, k0).GetOr([]) + [q[0]]);
      assert GroupInto(acc, q) == GroupInto(acc', q[1..]);
      GroupIntoGet(acc', q[1..], k);
      var rest := WithKey(q[1..], k);
      if k == k0 {
        assert WithKey(q, k) == [q[0]] + rest;
        assert Get(acc', k).GetOr([]) == before + [q[0]];
        AppendAssoc(before, [q[0]], rest);
      } else {
        assert WithKey(q, k) == rest;
        assert Get(acc', k) == Get(acc, k);
      }
    }
  }

  /**
   * `groupByGameMode`: one group per key that occurs in the queue, holding
   * exactly that key's requests in queue order.
   */
  function GroupByGameMode(q: seq<Request>): (r: OMap<string, seq<Request>>)
    ensures Valid(r)
    ensures forall k :: Get(r, k) == if WithKey(q, k) == [] then None else Some(WithKey(q, k))
  {
    var none: OMap<string, seq<Request>> := [];
    var r := GroupInto(none, q);
    assert forall k :: Get(r, k) == if WithKey(q, k) == [] then None else Some(WithKey(q, k)) by {
      forall k ensures Get(r, k) == if WithKey(q, k) == [] then None else Some(WithKey(q, k)) {
        GroupIntoGet(none, q, k);
        assert Get(none, k) == None;
        assert Get(r, k).GetOr([]) == WithKey(q, k);
        if Get(r, k).Some? {
          assert Get(r, k).value == Get(r, k).GetOr([]);
        }
      }
    }
    r
  }

  /** Every request lands in the group of its own key. */
  lemma RequestInItsGroup(q: seq<Request>, i: nat)
    requires i < |q|
    ensures var g := Get(GroupByGameMode(q), GroupKey(q[i].preferences));
      g.Some? && q[i] in g.value
  {
    WithKeyMembers(q, GroupKey(q[i].preferences), q[i]);
  }

  /** Two requests for one mode and region share a group; a third for another mode gets its own. */
  lemma GroupingExample(now: int)
    ensures
      var a := Request(1, "player1", "socket-123", Preferences("deathmatch", Some("us-east")), now);
      var b := Request(2, "player2", "socket-124", Preferences("deathmatch", Some("us-east")), now);
      var c := Request(3, "player3", "socket-125", Preferences("ctf", Some("us-west")), now);
      var g := GroupByGameMode([a, b, c]);
      && |g| == 2
      && Get(g, "deathmatch_us-east") == Some([a, b])
      && Get(g, "ctf_us-west") == Some([c])
  {
    var a := Request(1, "player1", "socket-123", Preferences("deathmatch", Some("us-east")), now);
    var b := Request(2, "player2", "socket-124", Preferences("deathmatch", Some("us-east")), now);
    var c := Request(3, "player3", "socket-125", Preferences("ctf", Some("us-west")), now);
    var ka, kc := "deathmatch_us-east", "ctf_us-west";
    assert GroupKey(a.preferences) == ka && GroupKey(b.preferences) == ka;
    assert GroupKey(c.preferences) == kc;
    assert ka != kc by { assert ka[0] != kc[0]; }
    GroupTwoKeys(a, b, c);
    var g: OMap<string, seq<Request>> := [(ka, [a, b]), (kc, [c])];
    assert Get(g, kc) == Get(g[1..], kc);
  }

  /** Three requests whose first two share a key and whose third does not form two groups, in order of first arrival. */
  lemma GroupTwoKeys(a: Request, b: Request, c: Request)
    requires GroupKey(a.preferences) == GroupKey(b.preferences) != GroupKey(c.preferences)
    ensures GroupByGameMode([a, b, c]) == [(GroupKey(a.preferences), [a, b]), (GroupKey(c.preferences), [c])]
  {
    var ka, kc := GroupKey(a.preferences), GroupKey(c.preferences);
    var none: OMap<string, seq<Request>> := [];
    var g2 := [(ka, [a, b])];
    assert [a, b, c][1..] == [b, c];
    assert [b, c][1..] == [c];
    SameKeyPair(a, b);
    calc {
      GroupByGameMode([a, b, c]);
      GroupInto(none, [a, b, c]);
      GroupInto(g2, [c]);
      { NewKeyAppends(g2, c); }
      [(ka, [a, b]), (kc, [c])];
    }
  }

  /** Two requests with one key, grouped into an empty map, form one group in arrival order. */
  lemma SameKeyPair(a: Request, b: Request)
    requires GroupKey(a.preferences) == GroupKey(b.preferences)
    ensures forall c :: GroupInto([], [a, b, c]) == GroupInto([(GroupKey(a.preferences), [a, b])], [c])
  {
    var ka := GroupKey(a.preferences);
    var none: OMap<string, seq<Request>> := [];
    var nothing: seq<Request> := [];
    assert nothing + [a] == [a];
    var g1 := Put(none, ka, Get(none, ka).GetOr(nothing) + [a]);
    assert g1 == [(ka, [a])];
    assert [a] + [b] == [a, b];
    var g2 := Put(g1, ka, Get(g1, ka).GetOr(nothing) + [b]);
    assert g2 == [(ka, [a, b])];
    forall c ensures GroupInto(none, [a, b, c]) == GroupInto(g2, [c]) {
      assert [a, b, c][1..] == [b, c];
      assert [b, c][1..] == [c];
    }
  }

  /** A request with a key not yet grouped opens a new group at the end. */
  lemma NewKeyAppends(acc: OMap<string, seq<Request>>, c: Request)
    requires Valid(acc) && GroupKey(c.preferences) !in Keys(acc)
    ensures GroupInto(acc, [c]) == acc + [(GroupKey(c.preferences), [c])]
  {
    var kc := GroupKey(c.preferences);
    var nothing: seq<Request> := [];
    assert nothing + [c] == [c];
    assert Get(acc, kc) == None;
    var r := Put(acc, kc, [c]);
    SetAppends(acc, kc, [c]);
    assert GroupInto(acc, [c]) == GroupInto(r, []);
  }

  /** A request without a region is grouped under "<mode>_any". */
  lemma MissingRegionGroupsAsAny(r: Request)
    requires r.preferences.region.None?
    ensures GroupByGameMode([r]) == [(r.preferences.gameMode + "_any", [r])]
  {
    var k := GroupKey(r.preferences);
    assert k == r.preferences.gameMode + "_any";
    var none: OMap<string, seq<Request>> := [];
    var nothing: seq<Request> := [];
    assert Get(none, k) == None;
    assert nothing + [r] == [r];
    assert Put(none, k, Get(none, k).GetOr(nothing) + [r]) == [(k, [r])];
    assert GroupByGameMode([r]) == GroupInto(none, [r]) == GroupInto([(k, [r])], []);
  }

  // ---------------------------------------------------------------------
  // Creating matches
  // ---------------------------------------------------------------------

  /** The room roster for a batch of requests. */
  function Roster(batch: seq<Request>): (r: seq<Rooms.PlayerRef>)
    ensures |r| == |batch|
    ensures forall i :: 0 <= i < |batch| ==> r[i] == Rooms.PlayerRef(batch[i].playerId, batch[i].socketId)
  {
    seq(|batch|, i requires 0 <= i < |batch| => Rooms.PlayerRef(batch[i].playerId, batch[i].socketId))
  }

  function Sockets(batch: seq<Request>): (r: seq<SocketId>)
    ensures |r| == |batch|
    ensures forall i :: 0 <= i < |batch| ==> r[i] == batch[i].socketId
  {
    seq(|batch|, i requires 0 <= i < |batch| => batch[i].socketId)
  }

  lemma SocketsCons(batch: seq<Request>)
    requires |batch| > 0
    ensures forall s :: s in Sockets(batch) <==> s == batch[0].socketId || s in Sockets(batch[1..])
  {
    assert Sockets(batch) == [batch[0].socketId] + Sockets(batch[1..]);
  }

  /** Binds every session of the batch to the room; sessions outside the batch are untouched. */
  function AssignAll(conns: Connections.Registry, batch: seq<Request>, roomId: RoomId): (r: Connections.Registry)
    ensures forall s :: s !in Sockets(batch) ==> Connections.GetSession(r, s) == Connections.GetSession(conns, s)
    ensures forall s :: s in Sockets(batch) ==>
      (Connections.GetSession(conns, s).None? ==> Connections.GetSession(r, s).None?) &&
      (Connections.GetSession(conns, s).Some? ==>
        Connections.GetSession(r, s) == Some(Connections.GetSession(conns, s).value.(roomId := Some(roomId))))
    ensures Keys(r.sessions) == Keys(conns.sessions)
    ensures Connections.RegistryValid(conns) ==> Connections.RegistryValid(r)
    decreases |batch|
  {
    if |batch| == 0 then conns
    else
      var once := Connections.AssignRoom(conns, batch[0].socketId, roomId);
      SocketsCons(batch);
      AssignAll(once, batch[1..], roomId)
  }

  /**
   * `createMatch`: a new room for the batch, in the first request's game mode
   * and with the default capacity; every matched session is bound to it and
   * every matched socket is told. A room that cannot be created is an error
   * and nothing changes.
   */
  function CreateMatch(s: Server, batch: seq<Request>, roomId: RoomId, now: int): (r: Result<(Server, seq<Emission>), Rooms.CreateError>)
    requires |batch| > 0
    ensures r.Ok? <==>
      && roomId !in Keys(s.rooms.rooms)
      && |batch| <= Rooms.DEFAULT_MAX_PLAYERS
      && Rooms.DistinctPlayers(Roster(batch))
    ensures r.Ok? ==>
      var room := Rooms.GetRoom(r.value.0.rooms, roomId);
      && room.Some?
      && room.value.players == Roster(batch)
      && room.value.gameMode == batch[0].preferences.gameMode
      && room.value.IsActive()
      && (forall id :: id != roomId ==> Rooms.GetRoom(r.value.0.rooms, id) == Rooms.GetRoom(s.rooms, id))
    ensures r.Ok? ==> forall i :: 0 <= i < |batch| && Connections.GetSession(s.conns, batch[i].socketId).Some? ==>
      && Connections.GetSession(r.value.0.conns, batch[i].socketId).Some?
      && Connections.GetSession(r.value.0.conns, batch[i].socketId).value.roomId == Some(roomId)
    ensures r.Ok? ==> |r.value.1| == |batch|
    ensures r.Ok? ==> forall i :: 0 <= i < |batch| ==> r.value.1[i] == MatchFound(batch[i].socketId, roomId)
    ensures r.Ok? ==> r.value.0.mm == s.mm
    ensures r.Ok? && Rooms.ManagerValid(s.rooms) ==> Rooms.ManagerValid(r.value.0.rooms)
    ensures r.Ok? && Connections.RegistryValid(s.conns) ==> Connections.RegistryValid(r.value.0.conns)
  {
    var opts := Rooms.RoomOptions(batch[0].preferences.gameMode, None, Roster(batch));
    match Rooms.CreateRoom(s.rooms, roomId, opts, now)
    case Err(e) => Err(e)
    case Ok(created) =>
      var conns := AssignAll(s.conns, batch, roomId);
      assert forall i :: 0 <= i < |batch| ==> batch[i].socketId in Sockets(batch) by {
        forall i | 0 <= i < |batch| ensures batch[i].socketId in Sockets(batch) {
          assert Sockets(batch)[i] == batch[i].socketId;
        }
      }
      Ok((Server(conns, created.manager, s.mm),
          seq(|batch|, i requires 0 <= i < |batch| => MatchFound(batch[i].socketId, roomId))))
  }

  // ---------------------------------------------------------------------
  // The periodic tick
  // ---------------------------------------------------------------------

  /** A request ahead of an increasing tail whose ids it undercuts keeps the queue increasing. */
  lemma PrependIncreasing(q: seq<Request>, rest: seq<Request>)
    requires |q| > 0
    requires forall x :: x in rest ==> x in q[1..]
    ensures Increasing(q) && Increasing(rest) ==> Increasing([q[0]] + rest)
  {
    if Increasing(q) && Increasing(rest) {
      forall j | 0 <= j < |rest| ensures q[0].requestId < rest[j].requestId {
        assert rest[j] in q[1..];
        var m :| 0 <= m < |q[1..]| && q[1..][m] == rest[j];
        assert q[m + 1] == rest[j];
      }
    }
  }

  /** The queue after the first `n` requests of group `k` were taken out of it; the rest keeps its order. */
  function DropFirstWithKey(q: seq<Request>, k: string, n: nat): (r: seq<Request>)
    requires n <= |WithKey(q, k)|
    ensures |r| == |q| - n
    decreases |q|
  {
    if |q| == 0 then []
    else
      var here := GroupKey(q[0].preferences) == k;
      assert WithKey(q, k) == (if here then [q[0]] else []) + WithKey(q[1..], k);
      if n > 0 && here then DropFirstWithKey(q[1..], k, n - 1)
      else [q[0]] + DropFirstWithKey(q[1..], k, n)
  }

  /** One unfolding of dropping and grouping at the head of the queue. */
  lemma DropStep(q: seq<Request>, k: string, n: nat)
    requires |q| > 0
    requires n <= |WithKey(q, k)|
    ensures GroupKey(q[0].preferences) == k && n > 0 ==>
      && n - 1 <= |WithKey(q[1..], k)|
      && DropFirstWithKey(q, k, n) == DropFirstWithKey(q[1..], k, n - 1)
      && WithKey(q, k)[..n] == [q[0]] + WithKey(q[1..], k)[..n - 1]
    ensures !(GroupKey(q[0].preferences) == k && n > 0) ==>
      && n <= |WithKey(q[1..], k)|
      && DropFirstWithKey(q, k, n) == [q[0]] + DropFirstWithKey(q[1..], k, n)
      && WithKey(q, k)[..n] == WithKey(q[1..], k)[..n]
  {
    assert WithKey(q, k) == (if GroupKey(q[0].preferences) == k then [q[0]] else []) + WithKey(q[1..], k);
  }

  /** Dropping neither loses nor duplicates a request: what is dropped is the group's first `n`. */
  lemma {:induction false} DropConserves(q: seq<Request>, k: string, n: nat)
    requires n <= |WithKey(q, k)|
    ensures multiset(DropFirstWithKey(q, k, n)) + multiset(WithKey(q, k)[..n]) == multiset(q)
    decreases |q|
  {
    if |q| > 0 {
      DropStep(q, k, n);
      if GroupKey(q[0].preferences) == k && n > 0 {
        DropConserves(q[1..], k, n - 1);
        ConsConserves(q, DropFirstWithKey(q[1..], k, n - 1), WithKey(q[1..], k)[..n - 1]);
      } else {
        DropConserves(q[1..], k, n);
        ConsConserves(q, DropFirstWithKey(q[1..], k, n), WithKey(q[1..], k)[..n]);
      }
    }
  }

  /** A split of a tail into kept and taken parts extends to the element in front, on either side. */
  lemma ConsConserves<T>(q: seq<T>, kept: seq<T>, taken: seq<T>)
    requires |q| > 0
    requires multiset(kept) + multiset(taken) == multiset(q[1..])
    ensures multiset([q[0]] + kept) + multiset(taken) == multiset(q)
    ensures multiset(kept) + multiset([q[0]] + taken) == multiset(q)
  {
    assert q == [q[0]] + q[1..];
  }

  /** Dropping keeps the survivors in queue order, so increasing ids stay increasing. */
  lemma {:induction false} DropKeepsOrder(q: seq<Request>, k: string, n: nat)
    requires n <= |WithKey(q, k)|
    ensures forall x :: x in DropFirstWithKey(q, k, n) ==> x in q
    ensures Increasing(q) ==> Increasing(DropFirstWithKey(q, k, n))
    decreases |q|
  {
    if |q| > 0 {
      var here := GroupKey(q[0].preferences) == k;
      assert WithKey(q, k) == (if here then [q[0]] else []) + WithKey(q[1..], k);
      if n > 0 && here {
        DropKeepsOrder(q[1..], k, n - 1);
      } else {
        DropKeepsOrder(q[1..], k, n);
        var rest := DropFirstWithKey(q[1..], k, n);
        assert DropFirstWithKey(q, k, n) == [q[0]] + rest;
        assert Increasing(q) ==> Increasing(q[1..]);
        PrependIncreasing(q, rest);
      }
    }
  }

  /** An order-preserving sub-queue of a valid queue is valid. */
  lemma SubQueueValid(mm: Matchmaker, q: seq<Request>)
    requires forall x :: x in q ==> x in mm.queue
    requires Increasing(mm.queue) ==> Increasing(q)
    ensures QueueValid(mm) ==> QueueValid(mm.(queue := q))
  {
    if QueueValid(mm) {
      forall i | 0 <= i < |q| ensures q[i].requestId < mm.nextRequestId {
        assert q[i] in mm.queue;
      }
    }
  }

  /** Every emission is a `match_found` for the matching request's socket, naming a room that holds its player. */
  ghost predicate Announced(rooms: Rooms.Manager, emissions: seq<Emission>, matched: seq<Request>) {
    && |emissions| == |matched|
    && forall i :: 0 <= i < |emissions| ==> AnnouncedTo(rooms, emissions[i], matched[i])
  }

  ghost predicate AnnouncedTo(rooms: Rooms.Manager, e: Emission, x: Request) {
    && e.MatchFound?
    && e.socketId == x.socketId
    && Rooms.GetRoom(rooms, e.roomId).Some?
    && Rooms.HasPlayer(Rooms.GetRoom(rooms, e.roomId).value.players, x.playerId)
  }

  /** Announcements stay true while rooms are only added. */
  lemma AnnouncedKept(before: Rooms.Manager, after: Rooms.Manager, emissions: seq<Emission>, matched: seq<Request>)
    requires Announced(before, emissions, matched)
    requires RoomsKept(before, after)
    ensures Announced(after, emissions, matched)
  {
    forall i | 0 <= i < |emissions| ensures Rooms.GetRoom(after, emissions[i].roomId) == Rooms.GetRoom(before, emissions[i].roomId) {
    }
  }

  lemma AnnouncedConcat(rooms: Rooms.Manager, e1: seq<Emission>, m1: seq<Request>, e2: seq<Emission>, m2: seq<Request>)
    requires Announced(rooms, e1, m1)
    requires Announced(rooms, e2, m2)
    ensures Announced(rooms, e1 + e2, m1 + m2)
  {
    AnnouncedFront(rooms, e1, m1, e2, m2);
    AnnouncedBack(rooms, e1, m1, e2, m2);
  }

  lemma AnnouncedFront(rooms: Rooms.Manager, e1: seq<Emission>, m1: seq<Request>, e2: seq<Emission>, m2: seq<Request>)
    requires Announced(rooms, e1, m1)
    requires |e2| == |m2|
    ensures forall i :: 0 <= i < |e1| ==> AnnouncedTo(rooms, (e1 + e2)[i], (m1 + m2)[i])
  {
    forall i | 0 <= i < |e1| ensures AnnouncedTo(rooms, (e1 + e2)[i], (m1 + m2)[i]) {
      assert (e1 + e2)[i] == e1[i] && (m1 + m2)[i] == m1[i];
    }
  }

  lemma AnnouncedBack(rooms: Rooms.Manager, e1: seq<Emission>, m1: seq<Request>, e2: seq<Emission>, m2: seq<Request>)
    requires |e1| == |m1|
    requires Announced(rooms, e2, m2)
    ensures forall i :: |e1| <= i < |e1| + |e2| ==> AnnouncedTo(rooms, (e1 + e2)[i], (m1 + m2)[i])
  {
    forall i | |e1| <= i < |e1| + |e2| ensures AnnouncedTo(rooms, (e1 + e2)[i], (m1 + m2)[i]) {
      assert (e1 + e2)[i] == e2[i - |e1|] && (m1 + m2)[i] == m2[i - |e1|];
    }
  }

  /** Rooms present before are still present and unchanged. */
  ghost predicate RoomsKept(before: Rooms.Manager, after: Rooms.Manager) {
    forall id :: Rooms.GetRoom(before, id).Some? ==> Rooms.GetRoom(after, id) == Rooms.GetRoom(before, id)
  }

  lemma RosterHasPlayers(batch: seq<Request>, i: nat)
    requires i < |batch|
    ensures Rooms.HasPlayer(Roster(batch), batch[i].playerId)
  {
    assert Rooms.PlayerIds(Roster(batch))[i] == batch[i].playerId;
  }

  /** What a created match hands on: its announcements hold, old rooms stay, and validity is kept. */
  ghost predicate MatchMade(s: Server, batch: seq<Request>, made: (Server, seq<Emission>)) {
    && Announced(made.0.rooms, made.1, batch)
    && RoomsKept(s.rooms, made.0.rooms)
    && made.0.mm == s.mm
    && (Rooms.ManagerValid(s.rooms) ==> Rooms.ManagerValid(made.0.rooms))
    && (Connections.RegistryValid(s.conns) ==> Connections.RegistryValid(made.0.conns))
  }

  /** Every matched socket is told about the new room, which holds every matched player. */
  lemma CreateMatchMade(s: Server, batch: seq<Request>, roomId: RoomId, now: int)
    requires |batch| > 0
    requires CreateMatch(s, batch, roomId, now).Ok?
    ensures MatchMade(s, batch, CreateMatch(s, batch, roomId, now).value)
  {
    var made := CreateMatch(s, batch, roomId, now).value;
    forall i | 0 <= i < |batch| ensures Rooms.HasPlayer(Rooms.GetRoom(made.0.rooms, roomId).value.players, batch[i].playerId) {
      RosterHasPlayers(batch, i);
    }
  }

  /** A created match leaves the queue: its requests are dropped and its sockets told. */
  function Commit(s: Server, k: string, n: nat, made: (Server, seq<Emission>)): (r: Tick)
    requires 0 < n <= |WithKey(s.mm.queue, k)|
    requires MatchMade(s, WithKey(s.mm.queue, k)[..n], made)
    ensures r.matched == WithKey(s.mm.queue, k)[..n]
    ensures multiset(r.server.mm.queue) + multiset(r.matched) == multiset(s.mm.queue)
    ensures Announced(r.server.rooms, r.emissions, r.matched)
    ensures RoomsKept(s.rooms, r.server.rooms)
    ensures r.server.mm == s.mm.(queue := r.server.mm.queue)
    ensures QueueValid(s.mm) ==> QueueValid(r.server.mm)
    ensures Rooms.ManagerValid(s.rooms) ==> Rooms.ManagerValid(r.server.rooms)
    ensures Connections.RegistryValid(s.conns) ==> Connections.RegistryValid(r.server.conns)
  {
    var batch := WithKey(s.mm.queue, k)[..n];
    var q := DropFirstWithKey(s.mm.queue, k, n);
    DropConserves(s.mm.queue, k, n);
    DropKeepsOrder(s.mm.queue, k, n);
    SubQueueValid(s.mm, q);
    Tick(made.0.(mm := s.mm.(queue := q)), made.1, batch)
  }

  /**
   * One group of the tick: the strategy picks the group's first `count`
   * requests, which leave the queue only when their room was created.
   */
  function ProcessGroup(s: Server, k: string, strategy: Strategy, newRoomId: nat -> RoomId, now: int): (r: Tick)
    ensures multiset(r.server.mm.queue) + multiset(r.matched) == multiset(s.mm.queue)
    ensures r.matched == [] ==> r.server.mm.queue == s.mm.queue && r.server.rooms == s.rooms && r.server.conns == s.conns
    ensures r.matched == [] || (|r.matched| <= |WithKey(s.mm.queue, k)| && r.matched == WithKey(s.mm.queue, k)[..|r.matched|])
    ensures Announced(r.server.rooms, r.emissions, r.matched)
    ensures RoomsKept(s.rooms, r.server.rooms)
    ensures r.server.mm.nextRequestId == s.mm.nextRequestId && r.server.mm.running == s.mm.running
    ensures QueueValid(s.mm) ==> QueueValid(r.server.mm)
    ensures Rooms.ManagerValid(s.rooms) ==> Rooms.ManagerValid(r.server.rooms)
    ensures Connections.RegistryValid(s.conns) ==> Connections.RegistryValid(r.server.conns)
  {
    var group := WithKey(s.mm.queue, k);
    var plan := strategy(group);
    if plan.NoMatch? || plan.count == 0 || plan.count > |group| then Tick(s, [], [])
    else
      var roomId := newRoomId(s.mm.nextMatchId);
      var s' := s.(mm := s.mm.(nextMatchId := s.mm.nextMatchId + 1));
      var made := CreateMatch(s', group[..plan.count], roomId, now);
      if made.Err? then Tick(s', [], [])
      else
        CreateMatchMade(s', group[..plan.count], roomId, now);
        Commit(s', k, plan.count, made.value)
  }

  /** The groups named by `keys`, one after another. */
  function ProcessGroups(s: Server, keys: seq<string>, strategy: Strategy, newRoomId: nat -> RoomId, now: int): (r: Tick)
    ensures multiset(r.server.mm.queue) + multiset(r.matched) == multiset(s.mm.queue)
    ensures Announced(r.server.rooms, r.emissions, r.matched)
    ensures RoomsKept(s.rooms, r.server.rooms)
    ensures r.server.mm.nextRequestId == s.mm.nextRequestId && r.server.mm.running == s.mm.running
    ensures QueueValid(s.mm) ==> QueueValid(r.server.mm)
    ensures Rooms.ManagerValid(s.rooms) ==> Rooms.ManagerValid(r.server.rooms)
    ensures Connections.RegistryValid(s.conns) ==> Connections.RegistryValid(r.server.conns)
    decreases |keys|
  {
    if |keys| == 0 then Tick(s, [], [])
    else
      var first := ProcessGroup(s, keys[0], strategy, newRoomId, now);
      var rest := ProcessGroups(first.server, keys[1..], strategy, newRoomId, now);
      AnnouncedKept(first.server.rooms, rest.server.rooms, first.emissions, first.matched);
      AnnouncedConcat(rest.server.rooms, first.emissions, first.matched, rest.emissions, rest.matched);
      Tick(rest.server, first.emissions + rest.emissions, first.matched + rest.matched)
  }

  /**
   * `processQueue`: a no-op on an empty queue; otherwise every group of the
   * queue, in order of first appearance, is offered to the strategy. No
   * request is lost or duplicated: each either stays queued or was matched
   * into a room that now holds its player.
   */
  function ProcessQueue(s: Server, strategy: Strategy, newRoomId: nat -> RoomId, now: int): (r: Tick)
    ensures |s.mm.queue| == 0 ==> r == Tick(s, [], [])
    ensures multiset(r.server.mm.queue) + multiset(r.matched) == multiset(s.mm.queue)
    ensures |r.server.mm.queue| <= |s.mm.queue|
    ensures Announced(r.server.rooms, r.emissions, r.matched)
    ensures RoomsKept(s.rooms, r.server.rooms)
    ensures r.server.mm.nextRequestId == s.mm.nextRequestId && r.server.mm.running == s.mm.running
    ensures QueueValid(s.mm) ==> QueueValid(r.server.mm)
    ensures Rooms.ManagerValid(s.rooms) ==> Rooms.ManagerValid(r.server.rooms)
    ensures Connections.RegistryValid(s.conns) ==> Connections.RegistryValid(r.server.conns)
  {
    if |s.mm.queue| == 0 then Tick(s, [], [])
    else
      var r := ProcessGroups(s, Keys(GroupByGameMode(s.mm.queue)), strategy, newRoomId, now);
      assert |multiset(r.server.mm.queue)| + |multiset(r.matched)| == |multiset(s.mm.queue)|;
      r
  }

  /**
   * The callback of the matchmaking interval: one `processQueue` while the
   * interval is set, and nothing once `stop` has cleared it. A direct call of
   * `processQueue` is `ProcessQueue` itself and is not gated.
   */
  function ScheduledTick(s: Server, strategy: Strategy, newRoomId: nat -> RoomId, now: int): (r: Tick)
    ensures !s.mm.running ==> r == Tick(s, [], [])
    ensures s.mm.running ==> r == ProcessQueue(s, strategy, newRoomId, now)
    ensures r.server.mm.running == s.mm.running
  {
    if s.mm.running then ProcessQueue(s, strategy, newRoomId, now) else Tick(s, [], [])
  }

  /** The interval callback fired any number of times. */
  function RunTicks(s: Server, times: seq<int>, strategy: Strategy, newRoomId: nat -> RoomId): (r: Server)
    decreases |times|
  {
    if |times| == 0 then s
    else RunTicks(ScheduledTick(s, strategy, newRoomId, times[0]).server, times[1..], strategy, newRoomId)
  }

  /** After `stop`, however often the interval would have fired, the server stays exactly as it was. */
  lemma {:induction false} StoppedStaysIdle(s: Server, times: seq<int>, strategy: Strategy, newRoomId: nat -> RoomId)
    ensures var stopped := s.(mm := Stop(s.mm));
      RunTicks(stopped, times, strategy, newRoomId) == stopped
    decreases |times|
  {
    if |times| > 0 {
      StoppedStaysIdle(s, times[1..], strategy, newRoomId);
    }
  }

  /** A strategy that never matches leaves the queue, the rooms and the sessions as they were. */
  lemma {:induction false} NoMatchKeepsEverything(s: Server, keys: seq<string>, newRoomId: nat -> RoomId, now: int)
    ensures var r := ProcessGroups(s, keys, _ => NoMatch, newRoomId, now);
      r.server == s && r.matched == [] && r.emissions == []
    decreases |keys|
  {
    if |keys| > 0 {
      NoMatchKeepsEverything(s, keys[1..], newRoomId, now);
    }
  }

  /** Enqueue and dequeue of one socket on a queue without it restore the queue. */
  lemma EnqueueThenDequeue(mm: Matchmaker, conns: Connections.Registry, socketId: SocketId, prefs: Preferences, now: int, estimate: Estimator)
    requires Connections.GetSession(conns, socketId).Some?
    requires GetQueueStatus(mm, socketId).None?
    ensures var e := EnqueuePlayer(mm, conns, socketId, prefs, now, estimate);
      && GetQueueLength(e.value.mm) == GetQueueLength(mm) + 1
      && GetQueueStatus(e.value.mm, socketId).value.playerId == Connections.GetSession(conns, socketId).value.playerId
      && DequeuePlayer(e.value.mm, socketId).removed
      && DequeuePlayer(e.value.mm, socketId).mm.queue == mm.queue
  {
    var e := EnqueuePlayer(mm, conns, socketId, prefs, now, estimate);
    var q := e.value.mm.queue;
    assert q[..|mm.queue|] == mm.queue;
    FirstForAfterAppend(mm.queue, q[|q| - 1]);
    WithoutSocketAppend(mm.queue, q[|q| - 1]);
  }

  lemma {:induction false} FirstForAfterAppend(q: seq<Request>, x: Request)
    requires FirstFor(q, x.socketId).None?
    ensures FirstFor(q + [x], x.socketId) == Some(x)
    decreases |q|
  {
    if |q| == 0 {
    } else {
      assert (q + [x])[1..] == q[1..] + [x];
      FirstForAfterAppend(q[1..], x);
    }
  }

  lemma {:induction false} WithoutSocketAppend(q: seq<Request>, x: Request)
    requires FirstFor(q, x.socketId).None?
    ensures WithoutSocket(q + [x], x.socketId) == q
    decreases |q|
  {
    if |q| == 0 {
      assert WithoutSocket([x], x.socketId) == WithoutSocket([x][1..], x.socketId);
    } else {
      assert (q + [x])[1..] == q[1..] + [x];
      WithoutSocketAppend(q[1..], x);
      assert q == [q[0]] + q[1..];
    }
  }

  /** After a socket is dequeued and disconnected, neither a request nor a session of it remains. */
  lemma DisconnectLeavesNothingBehind(s: Server, socketId: SocketId)
    ensures GetQueueStatus(DequeuePlayer(s.mm, socketId).mm, socketId).None?
    ensures Connections.GetSession(Connections.HandleDisconnection(s.conns, socketId).registry, socketId).None?
  {
  }
}
