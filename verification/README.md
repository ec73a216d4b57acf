# Platformer session, room and rule model

This project models the bookkeeping core of a multiplayer 2D platformer, written in Dafny as immutable datatypes and pure step functions.

On the **server** it covers four parts:
- the connection registry (`ConnectionManager`), one session per live socket;
- the room registry (`RoomManager`), with Active/Paused rooms and bounded, duplicate-free rosters;
- the matchmaking queue (`Matchmaker`), which groups requests by game mode and region;
- the fixed-window HTTP rate limiter (`httpRateLimit`).

On the **client** it covers the integer-valued game rules:
- the slot inventory;
- the five-slot save store with its separate auto-save;
- level-select navigation;
- tile-map object classification;
- the player entity: health, attack cooldown, animation choice and transition table, and skills;
- the guards and counters of the game scene.

From the **asset scripts** it covers:
- the sprite-sheet frame layout and metadata;
- the 44-byte RIFF/WAVE header with its 16-bit mono PCM sample data, as described by the Microsoft RIFF WAVE format.

The server implementations of the four managers are not part of this model; only their unit tests are, and the same holds for the inventory, save manager, level-select screen and tile-map loader. The model therefore encodes what those tests assert. Where the tests leave a choice open, the model makes an explicit one; each such choice has its own line under "Left out", starting with the member that makes it.

Time is always a parameter (`now`). Every event is one call of a step function. Code that cannot be seen becomes a function parameter:
- the token verifier (`Connections.Verifier`);
- the wait-time estimate (`Matchmaking.Estimator`, always positive);
- the match-finding strategy (`Matchmaking.Strategy`);
- the room-id generator;
- the tile-map factory (`Tilemaps.MapFactory`).

Files, one module each:

| file | module | models |
|---|---|---|
| `wrappers.dfy` | `Wrappers` | `Option` and `Result` |
| `ordered_maps.dfy` | `OrderedMaps` | insertion-ordered maps with JavaScript `Map` semantics |
| `seqs.dfy` | `Seqs` | `Array.prototype.filter` and a count, as reference definitions for the list queries |
| `rooms.dfy` | `Rooms` | the room registry |
| `connections.dfy` | `Connections` | the connection registry |
| `matchmaking.dfy` | `Matchmaking` | the queue, grouping, match creation and one tick |
| `rate_limit.dfy` | `RateLimit` | the rate limiter and its cleanup sweep |
| `inventory.dfy` | `Inventories` | the slot inventory |
| `save_store.dfy` | `SaveStore` | the save store over a key→record storage map |
| `level_select.dfy` | `LevelSelect` | the level-select screen |
| `tilemap.dfy` | `Tilemaps` | the tile-map loader |
| `player.dfy` | `Players` | the player entity |
| `game_scene.dfy` | `GameScenes` | the game scene's pause, score, culling and end-of-game rules |
| `sprite_sheets.dfy` | `SpriteSheets` | the sprite-sheet generator's arithmetic |
| `wav.dfy` | `Wav` | `writeWAV` and a matching reader |

## Model

| member | source | states |
|---|---|---|
| Rooms.CreateRoom | server/tests/unit/network/RoomManager.test.ts:41-70 | Succeeds exactly for a fresh id with a roster that fits and has no duplicate player. The new room has the given id, mode and roster, is active, and its capacity is the given one or 4. It becomes retrievable; every other room is unchanged and the registry grows by one. |
| Rooms.GetRoom | server/tests/unit/network/RoomManager.test.ts:82-98 | Found exactly when the id is registered; in a valid registry the room found carries that id. |
| Rooms.AddPlayer | server/tests/unit/network/RoomManager.test.ts:100-149 | True iff the room exists, is active, is below capacity and does not hold the player; the player is then appended. On false nothing changes. Other rooms are untouched and the registry invariant is kept. |
| Rooms.RemovePlayer | server/tests/unit/network/RoomManager.test.ts:152-186 | True iff the room exists and holds the player. The room is deleted when its roster becomes empty and otherwise keeps the other players. On false nothing changes. |
| Rooms.PauseRoom | server/tests/unit/network/RoomManager.test.ts:189-215 | Succeeds iff the room exists and is active; it becomes paused. On false nothing changes. |
| Rooms.ResumeRoom | server/tests/unit/network/RoomManager.test.ts:217-243 | Succeeds iff the room exists and is paused; it becomes active. On false nothing changes. |
| Rooms.EndRoom | server/tests/unit/network/RoomManager.test.ts:245-260 | True iff the room exists; afterwards it cannot be looked up, and other rooms are unchanged. |
| Rooms.GetActiveRooms | server/tests/unit/network/RoomManager.test.ts:262-272 | Equals the filter of the registered rooms, in registry order, by being active: each active room once, paused rooms excluded, and as many entries as there are active rooms. |
| Rooms.GetRoomsForPlayer | server/tests/unit/network/RoomManager.test.ts:274-298 | Equals the filter of the registered rooms, in registry order, by holding the player: each such room once, [] when none does, and as many entries as there are such rooms. |
| Rooms.UpdateGameState | server/tests/unit/network/RoomManager.test.ts:300-317 | Replaces the game state of an existing room only; it is a no-op for an unknown id. |
| Rooms.InvariantHoldsForAnyRun | server/tests/unit/network/RoomManager.test.ts:100-186 | After any sequence of calls, every stored room keeps its id, fits its capacity and holds no player twice. |
| Rooms.PauseIsNotReentrant | server/tests/unit/network/RoomManager.test.ts:205-243 | A second pause fails, and resuming an active room fails. |
| Rooms.RemoveLastPlayerDestroysRoom | server/tests/unit/network/RoomManager.test.ts:178-186 | Removing a room's only player succeeds, and the room is gone afterwards. |
| Rooms.CreatedRoomIsJoinable | server/tests/unit/network/RoomManager.test.ts:83-92 | A room created with an empty roster exists, has capacity 4 and accepts a player. |
| Rooms.CreateRoomAppends | server/tests/unit/network/RoomManager.test.ts:262-272 | A successful creation appends the new room at the end of the registry's iteration order. |
| Rooms.ActiveRoomsExample | server/tests/unit/network/RoomManager.test.ts:262-272 | Creating room1 and room2 and pausing room1 leaves exactly one active room, room2. |
| Rooms.EmptyRoomsStored | server/tests/unit/network/RoomManager.test.ts:263-265 | Two creations with empty rosters store room1 then room2, both active with capacity 4. |
| Rooms.PauseFirstOfTwo | server/tests/unit/network/RoomManager.test.ts:263-266 | Pausing the first of two rooms marks it paused where it stands and keeps the second. |
| Rooms.ActiveOfPausedPair | server/tests/unit/network/RoomManager.test.ts:266-270 | Of a paused room followed by an active one, the active one alone is listed. |
| Rooms.BothRoomsHold | server/tests/unit/network/RoomManager.test.ts:274-287 | Of two rooms that both seat the player, both are listed, in registry order. |
| Rooms.SharedRosterStored | server/tests/unit/network/RoomManager.test.ts:275-283 | Two creations with the same one-player roster store room1 then room2, both active with capacity 4. |
| Rooms.RoomsForPlayerExample | server/tests/unit/network/RoomManager.test.ts:274-287 | A player seated in room1 and room2 gets both, room1 first, so the list has length 2. |
| Rooms.NoRoomsForStranger | server/tests/unit/network/RoomManager.test.ts:289-297 | With only an empty room1, a player seated nowhere gets []. |
| Rooms.FullRoomRejects | server/tests/unit/network/RoomManager.test.ts:127-139 | A room at capacity rejects a player and stays as it was. |
| Connections.ResolvePlayerId | server/tests/unit/network/ConnectionManager.test.ts:87-120 | The identity is the verified player when a token, a secret and a successful verification are all present. Otherwise it is "guest_" followed by the socket id. |
| Connections.HandleConnection | server/tests/unit/network/ConnectionManager.test.ts:87-120 | The ack carries the socket id as session id, the resolved player id and the server time. The stored session matches the ack and has no room. Other sessions are unchanged, and a new socket raises the count by one. |
| Connections.HandleDisconnection | server/tests/unit/network/ConnectionManager.test.ts:138-171 | The session is removed and the count drops by one. Exactly one player_left notice, carrying the player and socket, goes to the session's room when it had one. An unknown socket changes nothing. |
| Connections.GetSession | server/tests/unit/network/ConnectionManager.test.ts:182-191 | Found exactly for a live socket, and the session found carries that socket id. |
| Connections.GetConnectedCount | server/tests/unit/network/ConnectionManager.test.ts:217-233 | The count is the number of distinct live sockets in a valid registry, and 0 exactly when no socket has a session. |
| Connections.AssignRoom | server/tests/unit/network/ConnectionManager.test.ts:151-171 | Sets the room of an existing session only; the other sessions and the set of sockets are unchanged. |
| Connections.RemoveRoomAssignment | server/tests/unit/network/RoomManager.test.ts:29 | Clears the room of an existing session and leaves the other sessions and the set of sockets unchanged; an unknown socket changes nothing. |
| Connections.GetSessionsInRoom | server/tests/unit/network/ConnectionManager.test.ts:203-214 | Equals the filter of the live sessions, in connection order, by being assigned to the room: each such session once, [] for an unused room, and as many entries as there are such sessions. |
| Connections.SessionsInRoomExample | server/tests/unit/network/ConnectionManager.test.ts:203-214 | One connected socket assigned to room-1 makes room-1 list exactly one session, that socket's; empty-room lists []. |
| Connections.CountTracksEvents | server/tests/unit/network/ConnectionManager.test.ts:222-233 | Over any well-formed run of connects and disconnects, the count equals the initial count plus connects minus disconnects. |
| Connections.ConnectThenDisconnect | server/tests/unit/network/ConnectionManager.test.ts:138-149 | The count goes 0, then 1 after a connect, then 0 after the disconnect, with no room notice. |
| Connections.AssignedDisconnectNotifiesRoom | server/tests/unit/network/ConnectionManager.test.ts:151-171 | A socket assigned to room R announces player_left, with its player and socket ids, to R on disconnect. |
| Matchmaking.EnqueuePlayer | server/tests/unit/network/Matchmaker.test.ts:61-91 | Fails with "Player session not found" exactly when the socket has no session. Otherwise it appends one request stamped with a fresh id, the session's player and the time. It tells the socket that id and a positive wait estimate, and keeps ids increasing. |
| Matchmaking.DequeuePlayer | server/tests/unit/network/Matchmaker.test.ts:95-121 | True iff the socket had a queued request. Afterwards none remains and the other requests are kept. On false nothing changes. |
| Matchmaking.GetQueueStatus | server/tests/unit/network/Matchmaker.test.ts:130-150 | Returns a queued request of that socket, if and only if one exists. |
| Matchmaking.GetQueueLength | server/tests/unit/network/Matchmaker.test.ts:110-125 | The length is 0 exactly when no socket has a request queued; the +1 and −1 the test reads are in EnqueueThenDequeue. |
| Matchmaking.Stop | server/tests/unit/network/Matchmaker.test.ts:153-158 | Clears the tick flag and changes nothing else: the queue and both id counters are kept. |
| Matchmaking.StopIdempotent | server/tests/unit/network/Matchmaker.test.ts:153-158 | Stopping twice is stopping once, and stopping a stopped matchmaker changes nothing. |
| Matchmaking.ScheduledTick | server/tests/unit/network/Matchmaker.test.ts:153-158 | The interval callback runs one processQueue while running and does nothing once stopped; it never changes the flag. |
| Matchmaking.StoppedStaysIdle | server/tests/unit/network/Matchmaker.test.ts:153-158 | After stop, any number of interval firings leaves the server exactly as it was. |
| Matchmaking.GroupByGameMode | server/tests/unit/network/Matchmaker.test.ts:218-248 | Each key maps to exactly the queued requests with that key, in queue order. Keys without requests have no group. |
| Matchmaking.GroupKey | server/tests/unit/network/Matchmaker.test.ts:218-264 | The key reads back as the game mode, an underscore, and the region, or "any" when no region was given. |
| Matchmaking.RequestInItsGroup | server/tests/unit/network/Matchmaker.test.ts:218-248 | Every queued request is in the group of its own key. |
| Matchmaking.GroupingExample | server/tests/unit/network/Matchmaker.test.ts:218-248 | Two deathmatch/us-east requests and one ctf/us-west request give exactly two groups, of sizes 2 and 1. |
| Matchmaking.MissingRegionGroupsAsAny | server/tests/unit/network/Matchmaker.test.ts:250-265 | A request without a region is grouped under its mode followed by "_any". |
| Matchmaking.CreateMatch | server/tests/unit/network/Matchmaker.test.ts:189-214 | Creates a room for the batch in the first request's mode, binds every matched session to it, and sends each matched socket match_found for that room. The queue is left alone. |
| Matchmaking.ProcessQueue | server/tests/unit/network/Matchmaker.test.ts:161-187 | An empty queue is a no-op. Otherwise no request is lost or duplicated: each either stays queued or was matched into a room announced to its socket. Existing rooms are kept, and the queue, room and session invariants hold. |
| Matchmaking.ProcessGroup | server/tests/unit/network/Matchmaker.test.ts:161-187 | One group's matched requests are a prefix of that group in queue order. They leave the queue only when their room was created. When nothing is matched, the queue, rooms and sessions are unchanged. |
| Matchmaking.Commit | server/tests/unit/network/Matchmaker.test.ts:161-187 | The first n requests of a group leave the queue and are reported as matched. Queue plus matched equals the old queue as a multiset, and the queue stays valid. |
| Matchmaking.DropConserves | server/tests/unit/network/Matchmaker.test.ts:161-187 | The requests left plus the group's first n dropped make up exactly the old queue as a multiset. |
| Matchmaking.DropKeepsOrder | server/tests/unit/network/Matchmaker.test.ts:161-187 | Every request left was queued before, and increasing request ids stay increasing. |
| Matchmaking.NoMatchKeepsEverything | server/tests/unit/network/Matchmaker.test.ts:183-187 | A strategy that never matches leaves the queue, rooms and sessions unchanged. |
| Matchmaking.EnqueueThenDequeue | server/tests/unit/network/Matchmaker.test.ts:95-116 | Enqueue then dequeue restores the queue, taking its length from n+1 back to n, and the dequeue returns true. |
| Matchmaking.DisconnectLeavesNothingBehind | server/tests/unit/network/Matchmaker.test.ts:95-121 | After a dequeue and a disconnect, neither a request nor a session of the socket remains. |
| RateLimit.ClientKey | server/tests/unit/network/middleware/httpRateLimit.test.ts:96-108 | The key is the IP, else the remote address, else a fixed placeholder, so a request without an address is still counted. |
| RateLimit.Handle | server/tests/unit/network/middleware/httpRateLimit.test.ts:50-94 | On the bucket map all middlewares share, a request passes iff its client's current window count is below this middleware's maximum. It then passes with Limit = the maximum, Remaining = maximum − new count and Reset = window end. Otherwise it is a 429 "Too many requests" with the time left in the window. Other keys are untouched. |
| RateLimit.Sweep | server/tests/unit/network/middleware/httpRateLimit.test.ts:111-119 | Keeps exactly the unexpired buckets, unchanged. |
| RateLimit.SweepIsTransparent | server/tests/unit/network/middleware/httpRateLimit.test.ts:111-119 | A sweep never changes the answer to a later request of a middleware whose window is no longer than the sweep's. |
| RateLimit.WindowBound | server/tests/unit/network/middleware/httpRateLimit.test.ts:68-87 | Within one window, the passed requests of a key never exceed the maximum. |
| RateLimit.FirstWindowBound | server/tests/unit/network/middleware/httpRateLimit.test.ts:68-87 | A new client gets at most the maximum through in its first window. |
| RateLimit.SharedBuckets | server/tests/unit/network/middleware/httpRateLimit.test.ts:22-27 | The bucket map is shared: a request let through a 100-per-minute middleware leaves a 2-per-minute one for the same client only one more pass. |
| RateLimit.TwoPerMinute | server/tests/unit/network/middleware/httpRateLimit.test.ts:68-87 | With a budget of 2 per minute, requests pass with Remaining 1, then 0, and the third is rejected with 429. |
| Inventories.NewInventory | client/tests/unit/entities/Inventory.test.ts:31-42 | There are maxSlots slots, none occupied, so empty slots = maxSlots. |
| Inventories.GetMaxSlots | client/tests/unit/entities/Inventory.test.ts:31-38 | The slot count is the number of held slots plus the number of empty slots, each counted independently. |
| Inventories.GetOccupiedSlots | client/tests/unit/entities/Inventory.test.ts:40-42 | The number of slots holding an item, never more than the slot count. |
| Inventories.GetEmptySlots | client/tests/unit/entities/Inventory.test.ts:253-274 | Occupied plus empty slots equals maxSlots. |
| Inventories.GetItemQuantity | client/tests/unit/entities/Inventory.test.ts:230-250 | In a valid inventory, the size of the one stack holding the id, and 0 when no slot holds it. |
| Inventories.HasItem | client/tests/unit/entities/Inventory.test.ts:189-227 | In a valid inventory, true iff n is 0 or the stack holding the id has at least n items; n defaults to 1. |
| Inventories.AddItem | client/tests/unit/entities/Inventory.test.ts:46-106 | Succeeds iff the id is held or a slot is free. The id's quantity then rises by the amount and no other quantity changes. A held id stays in its slot; a new id takes one more slot. A refusal changes nothing. |
| Inventories.RemoveItem | client/tests/unit/entities/Inventory.test.ts:127-186 | Removes min(k, held) of the id and reports that amount, with k defaulting to 1. Other ids are unchanged; a missing id gives 0. |
| Inventories.GetSlot | client/tests/unit/entities/Inventory.test.ts:336-361 | Returns the slot at an index inside the inventory, and nothing outside it. |
| Inventories.GetAllItemIds | client/tests/unit/entities/Inventory.test.ts:296-334 | One entry per occupied slot; in a valid inventory the entries are exactly the ids with a positive quantity. |
| Inventories.Clear | client/tests/unit/entities/Inventory.test.ts:276-294 | No slot is occupied, every quantity is 0 and the id list is empty; the slot count is kept. |
| Inventories.AddThenStack | client/tests/unit/entities/Inventory.test.ts:46-81 | A new id occupies one slot; adding it again stacks, so one slot stays occupied and the quantities add up. |
| Inventories.FullRejectsNewItem | client/tests/unit/entities/Inventory.test.ts:83-106 | A full inventory refuses an id it does not hold and stays unchanged. |
| Inventories.RemoveAll | client/tests/unit/entities/Inventory.test.ts:146-168 | Removing exactly the held quantity returns it and leaves 0. |
| Inventories.HasItemAfterAdd | client/tests/unit/entities/Inventory.test.ts:190-251 | After adding q of a new id, hasItem(id, n) holds iff n ≤ q. |
| SaveStore.NewSettings | client/tests/unit/core/SaveManager.test.ts:28-52 | Auto-save follows the flag; the interval is the given one or 60000 ms. |
| SaveStore.IsAutoSaveEnabled | client/tests/unit/core/SaveManager.test.ts:28-41 | Reports the settings' auto-save flag. |
| SaveStore.AutoSaveAsConstructed | client/tests/unit/core/SaveManager.test.ts:28-41 | A manager built with flag b reports b, whatever interval it was given. |
| SaveStore.HasSave | client/tests/unit/core/SaveManager.test.ts:54-79 | True iff the index is 0..4 and that slot holds a record. |
| SaveStore.HasAutoSave | client/tests/unit/core/SaveManager.test.ts:81-101 | True iff an auto-save record exists. |
| SaveStore.SaveGame | client/tests/unit/core/SaveManager.test.ts:103-189 | True iff the index is 0..4. The slot then holds the given fields merged over the old record, stamped with now. No other record changes. |
| SaveStore.SaveAutoGame | client/tests/unit/core/SaveManager.test.ts:191-226 | Writes the merged auto-save record and never changes a numbered slot. |
| SaveStore.LoadGame | client/tests/unit/core/SaveManager.test.ts:228-266 | Returns the stored record exactly for a valid, written slot; an invalid index gives nothing. |
| SaveStore.LoadAutoGame | client/tests/unit/core/SaveManager.test.ts:268-293 | Returns the auto-save record exactly when one exists. |
| SaveStore.DeleteSave | client/tests/unit/core/SaveManager.test.ts:295-324 | True for every valid index, written or not, and the slot is empty afterwards. An invalid index gives false; other records are unchanged. |
| SaveStore.GetSaveSlots | client/tests/unit/core/SaveManager.test.ts:326-376 | Returns five entries in slot order, each marked written iff it holds a record and carrying that record. |
| SaveStore.GetAutoSaveInfo | client/tests/unit/core/SaveManager.test.ts:378-405 | Null without an auto-save, otherwise an entry with index −1 and its data. |
| SaveStore.ClearAllSaves | client/tests/unit/core/SaveManager.test.ts:407-445 | Removes all five slots and the auto-save, and nothing else. |
| SaveStore.SaveThenLoad | client/tests/unit/core/SaveManager.test.ts:238-265 | A save is read back with the fields written, stamped with the time of the save. |
| SaveStore.LaterSaveWins | client/tests/unit/core/SaveManager.test.ts:136-168 | After two saves to one slot, the later values are loaded. |
| SaveStore.SlotsAreIndependent | client/tests/unit/core/SaveManager.test.ts:327-376 | Saving to or deleting one slot, and saving the auto-save, leaves every other slot and the auto-save as they were. |
| SaveStore.SaveThenDelete | client/tests/unit/core/SaveManager.test.ts:301-319 | Deleting after a save succeeds and empties the slot. |
| SaveStore.ClearLooksFresh | client/tests/unit/core/SaveManager.test.ts:407-445 | After clearAllSaves the listing matches fresh storage. |
| LevelSelect.Create | client/tests/unit/scenes/LevelSelectScene.test.ts:155-165 | The unlocked list is the saved one, or [1]; the selection is its first level. |
| LevelSelect.NavigateLevel | client/tests/unit/scenes/LevelSelectScene.test.ts:194-248 | The unlocked list is unchanged and a selection in it stays in it. With one unlocked level, or direction 0, nothing moves. |
| LevelSelect.StartLevel | client/tests/unit/scenes/LevelSelectScene.test.ts:265-273 | Starts the game scene for an unlocked level and never for a locked one. |
| LevelSelect.GoBack | client/tests/unit/scenes/LevelSelectScene.test.ts:275-280 | Returns to the menu and never starts a level. |
| LevelSelect.NextIsSuccessor | client/tests/unit/scenes/LevelSelectScene.test.ts:194-210 | Over an increasing list, +1 moves to the least unlocked level above the selection, or stays at the last. |
| LevelSelect.PreviousIsPredecessor | client/tests/unit/scenes/LevelSelectScene.test.ts:212-239 | Over an increasing list, −1 moves to the greatest unlocked level below the selection, or stays at the first. |
| LevelSelect.SelectionStaysUnlocked | client/tests/unit/scenes/LevelSelectScene.test.ts:241-248 | After any run of navigations, the selection is still an unlocked level. |
| LevelSelect.SkipsLockedLevel | client/tests/unit/scenes/LevelSelectScene.test.ts:194-239 | With [1,2,3,5]: 1→2, 3→5, 3→2, and no wrap at either end. A locked level does not start. |
| Tilemaps.PreloadLevelAssets | client/tests/unit/core/TilemapLoader.test.ts:119-137 | Loads a tilemap iff the config names one, forwarding key and path unchanged. |
| Tilemaps.LoadTilemap | client/tests/unit/core/TilemapLoader.test.ts:44-49 | Issues the load call with the key and path unchanged. |
| Tilemaps.ObjectsNamed | client/tests/unit/core/TilemapLoader.test.ts:58-95 | An object is listed iff it sits in a layer of that name. |
| Tilemaps.ObjectsNamedCount | client/tests/unit/core/TilemapLoader.test.ts:58-95 | Each category holds as many objects as its layers do: none lost, none duplicated. |
| Tilemaps.SpawnPoint | client/tests/unit/core/TilemapLoader.test.ts:80-94 | The spawn is the {x, y} of the first player-layer object, and absent when there is none. |
| Tilemaps.ExtractObjects | client/tests/unit/core/TilemapLoader.test.ts:58-95 | Platforms, enemies and items are exactly the objects of the layers of those names, as many as those layers hold; the spawn is the spawn point. |
| Tilemaps.CreateFromTilemap | client/tests/unit/core/TilemapLoader.test.ts:52-56 | Null iff the map cannot be built; otherwise the map and its classified objects. |
| Tilemaps.LoadLevelFromJson | client/tests/unit/core/TilemapLoader.test.ts:98-117 | Null iff no map can be built under the level's key; otherwise that map and its classified objects. |
| Tilemaps.OneOfEach | client/tests/unit/core/TilemapLoader.test.ts:58-95 | One object per layer gives one platform, one enemy and one item, and the player object's position as the spawn. |
| Players.NewPlayer | client/src/entities/Player.ts:93-104 | Defaults are "local", "Player", health 10 with maxHealth equal to health, speed 250, jump 450, cooldown 500, inventory 10 and no skills. The player starts idle. |
| Players.TakeDamage | client/tests/unit/entities/Player.test.ts:247-279 | Health drops by d, floored at 0. The call returns true iff health stays positive, emits player:damage and changes nothing else. |
| Players.Heal | client/tests/unit/entities/Player.test.ts:258-267 | Health rises by a, capped at maxHealth. The call emits player:healed and changes nothing else. |
| Players.HealthStaysInRange | client/tests/unit/entities/Player.test.ts:247-279 | No sequence of damage and healing takes health out of [0, maxHealth]. |
| Players.HealthExamples | client/tests/unit/entities/Player.test.ts:375-394 | With 100 health: 50 damage then 20 healing gives 70; 200 damage gives 0 and death. |
| Players.Transition | client/src/entities/Player.ts:118-159 | Moves to the target iff the table allows it, and otherwise stays with no event. Entering the jump state, and only that, emits JumpStarted. |
| Players.TransitionTable | client/src/entities/Player.ts:118-159 | No state transitions to itself. Attack ends only in idle or walk, and is entered only from them; idle and walk reach every other state. |
| Players.Attack | client/src/entities/Player.ts:278-299 | A no-op while attacking. Otherwise it sets attacking, resets the timer to 0 and emits attack-started. |
| Players.TickAttack | client/src/entities/Player.ts:219-224 | While attacking, the timer grows by delta and the attack ends iff the timer reaches the cooldown. |
| Players.CooldownEndsAttack | client/src/entities/Player.ts:219-224 | With frames alone and no completion callback, the attack is still on iff the accumulated time stays below the cooldown. |
| Players.AttackAnimationMs | client/src/entities/Player.ts:173 | The attack animation, 6 frames at 15 per second, lasts the time t with 15t = 6000 ms. |
| Players.AttackAnimationDone | client/src/entities/Player.ts:285-294 | The completion callback ends the attack and moves the machine to idle when the table allows it, or leaves it where it is; nothing else changes. |
| Players.AttackEndsByCooldown | client/src/entities/Player.ts:210-294 | With frames and completion callbacks interleaved, an attack ends no later than its cooldown. It is still on only if no callback fired and the frames stay below the cooldown. |
| Players.StaysOver | client/src/entities/Player.ts:210-294 | An attack that is over stays over, whatever frames or callbacks follow. |
| Players.AnimationEndsAttackFirst | client/src/entities/Player.ts:170-294 | From idle with the default cooldown, the attack arms the callback. After 400 ms of frames it is still on, and the callback then ends it and returns the machine to idle. |
| Players.TargetPose | client/src/entities/Player.ts:304-316 | Airborne is jumping when vy < 0 and falling otherwise. Grounded is walking iff \|vx\| > 10, and idle otherwise. |
| Players.UpdateAnimation | client/src/entities/Player.ts:304-345 | Does nothing while attacking; otherwise the pose becomes the target pose. |
| Players.Update | client/src/entities/Player.ts:210-233 | An elapsed cooldown ends the attack, and a player not attacking shows the target pose. |
| Players.AttackThenRest | client/src/entities/Player.ts:210-233 | An attack followed by a frame of at least the cooldown returns a resting player to idle. |
| Players.EquipSkill | client/src/entities/Player.ts:379-383 | Appends the id unless it is already equipped, keeping the list duplicate-free. |
| Players.UnequipSkill | client/src/entities/Player.ts:389-394 | Removes the first occurrence of the id, keeping the other skills in order; otherwise nothing changes. |
| Players.EquipThenUnequip | client/src/entities/Player.ts:379-394 | Equipping a new skill and then unequipping it restores the player. |
| Players.UseSkill | client/src/entities/Player.ts:401-413 | Emits skill-used exactly when the skill is equipped. |
| Players.UseFollowsEquipment | client/src/entities/Player.ts:375-413 | After equipping a skill, using it emits exactly skill-used; after unequipping it from a duplicate-free list, using it emits nothing; use never changes the player. |
| Players.Respawn | client/src/entities/Player.ts:464-471 | Health becomes maxHealth; the player is not invulnerable, not attacking, and idle. |
| Players.DeathAndRespawn | client/src/entities/Player.ts:464-471 | Lethal damage kills, and respawn restores full health and the ability to attack. |
| GameScenes.Init | client/src/scenes/GameScene.ts:61-64 | The level is the given one or 1, and the scene is unpaused. |
| GameScenes.LevelBounds | client/src/scenes/GameScene.ts:763-778 | Level 2 is 1280×2560 and level 3 is 3000×800; every other level is 2000×600. |
| GameScenes.CeilTenth | client/src/scenes/GameScene.ts:501 | The result is the least r with 10r ≥ d. |
| GameScenes.ScoreStep | client/src/scenes/GameScene.ts:499-507 | Below the target, the displayed score rises by exactly the least k with 10k at least the gap, so strictly and never past the target. Above it, the score snaps to the target. |
| GameScenes.ScoreConverges | client/src/scenes/GameScene.ts:499-507 | After as many ticks as the gap, the displayed score equals the real one. |
| GameScenes.ScoreNeverOvershoots | client/src/scenes/GameScene.ts:499-507 | Every tick keeps the displayed score between its start and the real score. |
| GameScenes.ScoreExamples | client/src/scenes/GameScene.ts:499-507 | From 0 toward 100 the counter shows 10, 19, 28; from 95 it shows 96. |
| GameScenes.InViewMeansNearScreen | client/src/scenes/GameScene.ts:548-559 | On screen is in view; more than 200 beyond any edge is not. Missing coordinates count as 0. |
| GameScenes.IsInView | client/src/scenes/GameScene.ts:548-559 | For a view of non-negative size, in view iff the body lies at most 200 outside the camera rectangle on each axis, a missing coordinate counting as 0. |
| GameScenes.InViewIndices | client/src/scenes/GameScene.ts:561-581 | Lists exactly the in-view bodies, in increasing order. |
| GameScenes.ActiveOnly | client/src/scenes/GameScene.ts:583-589 | Equals the filter of the projectiles by being active: the active ones in their order and multiplicity, as many as there are. |
| GameScenes.ActiveOnlyIdempotent | client/src/scenes/GameScene.ts:583-589 | Filtering twice equals filtering once. |
| GameScenes.UpdateEntities | client/src/scenes/GameScene.ts:540-593 | Does nothing while paused. Otherwise it updates the player and exactly the in-view enemies, items and platforms, and keeps the active projectiles, in order, as the filter by being active. |
| GameScenes.HandleGameOver | client/src/scenes/GameScene.ts:636-655 | Does nothing when paused; otherwise it pauses and launches one game-over overlay with the level's tallies. |
| GameScenes.HandleLevelComplete | client/src/scenes/GameScene.ts:615-634 | Behaves as game over with won set, under the same guard. |
| GameScenes.OpenPauseMenu | client/src/scenes/GameScene.ts:657-673 | Does nothing when paused; otherwise it pauses and launches the pause overlay. |
| GameScenes.ResumeGame | client/src/scenes/GameScene.ts:675-681 | A no-op unless paused; otherwise it unpauses and restarts. |
| GameScenes.TogglePause | client/src/scenes/GameScene.ts:683-689 | Flips isPaused. |
| GameScenes.ToggleTwice | client/src/scenes/GameScene.ts:683-689 | Toggling twice returns a running scene to running. |
| GameScenes.CheckGameConditions | client/src/scenes/GameScene.ts:595-613 | Game over comes when health drops from above 0 to 0 or below, or y > 800, or time runs out. It launches at most one overlay and always records the health. |
| GameScenes.GameTick | client/src/scenes/GameScene.ts:404-410 | Entities first, then the end checks; at most one overlay per tick. |
| GameScenes.DeathAnnouncedOnce | client/src/scenes/GameScene.ts:595-613 | A death launches game over on its tick and not again on the next. |
| SpriteSheets.SheetCanvas | scripts/generate-sprite-sheets.js:115-124 | The canvas height is the frame height and the width is frameWidth × total frames. |
| SpriteSheets.LayOutFrames | scripts/generate-sprite-sheets.js:130-156 | Frame k is drawn at x = k·frameWidth. It belongs to the animation whose start plus its index within that animation is k. |
| SpriteSheets.FrameRateFor | scripts/generate-sprite-sheets.js:175 | The frame rate is 12 for attack and 10 otherwise. |
| SpriteSheets.BuildMetadata | scripts/generate-sprite-sheets.js:170-178 | Ranges are contiguous: the first starts at 0, end = start + frames − 1, each next start = previous end + 1, and the last ends at total − 1. |
| SpriteSheets.PlayerSheet | scripts/generate-sprite-sheets.js:27-37 | The player sheet has 26 frames on an 832×32 canvas, with animations starting at 0, 8, 16 and 20. |
| SpriteSheets.EnemySheets | scripts/generate-sprite-sheets.js:44-68 | The slime and flying sheets each have 10 frames on a 320×32 canvas, the second animation starting at frame 4. |
| SpriteSheets.JumpPhaseAt | scripts/generate-sprite-sheets.js:275-276 | The four named jump phases, then 'rise' from index 4 on. |
| SpriteSheets.AttackPhaseAt | scripts/generate-sprite-sheets.js:333-334 | The six named attack phases, then 'strike' from index 6 on. |
| SpriteSheets.PaletteColor | scripts/generate-sprite-sheets.js:90 | The pick is a palette entry at the index modulo the length; an empty palette gives nothing. |
| Wav.Clamp | scripts/generate-sound-effects.js:45-46 | The sample is limited to [−32767, 32767], and values inside are unchanged. |
| Wav.WriteWav | scripts/generate-sound-effects.js:25-47 | Fails iff a 32-bit field overflows. Otherwise: length 44 + 2n, the four tags at 0, 8, 12 and 36, the RIFF size = length − 8, and the data size = 2n. |
| Wav.HeaderFields | scripts/generate-sound-effects.js:29-41 | Every header field reads back the value written: 36+2n, 16, PCM 1, mono 1, the rate, 2·rate, 2, 16, 2n. |
| Wav.SampleBytesAt | scripts/generate-sound-effects.js:44-47 | Sample i sits at data bytes 2i and 2i+1 as its clamped 16-bit value. |
| Wav.ReadWav | scripts/generate-sound-effects.js:25-47 | Accepts only the writer's layout and yields (length − 44)/2 signed 16-bit samples. |
| Wav.WriteThenRead | scripts/generate-sound-effects.js:25-47 | Reading back a written buffer gives the rate (44100 by default) and every sample clamped. |
| Wav.DefaultRate | scripts/generate-sound-effects.js:25-37 | With no rate given, for any buffer whose 32-bit header fields fit, the header says 44100 and the byte rate 88200. |
| Wav.U32RoundTrip | scripts/generate-sound-effects.js:30-41 | A 32-bit little-endian field decodes to the value encoded. |
| Wav.I16RoundTrip | scripts/generate-sound-effects.js:46 | A 16-bit two's-complement little-endian sample decodes to the value encoded. |

## Left out

- Transport, timers and async: socket.io, the matchmaking and rate-limit cleanup intervals, and async worker calls. Every event and tick is one explicit step; concurrency is not modelled.
- Token verification is an abstract `Verifier` parameter, and the persistence (progression) hook is not modelled.
- `Matchmaking.EnqueuePlayer`: the wait estimate is a parameter that is always positive. The real formula, and the match-finding worker's algorithm, are not part of this model. Match selection is a `Strategy` parameter that takes a prefix of a group.
- `Matchmaking.EnqueuePlayer`: a second enqueue of the same socket appends a second request. `DequeuePlayer` removes all requests of the socket. The tests do not fix this policy.
- `Tilemaps.ObjectsNamed`: a category collects the objects of every layer with its name, in layer order. Classification goes by layer name only; an object's `type` ('slime', 'coin', 'spawn') is ignored, and layers with any other name are dropped. The tests use one layer per name with one object each, so these are the model's choices.
- `Tilemaps.SpawnPoint`: the spawn is the first object across all layers named "player", in layer order. The tests have a single player object, so this is the model's choice.
- `Matchmaking.Stop`: the interval is modelled by `ScheduledTick`, which the caller fires and which does nothing once `running` is false. A direct `ProcessQueue` call is not gated, and the interval period is not modelled.
- `Connections.RemoveRoomAssignment`: the tests only mock it. Clearing the room and ignoring an unknown socket is the model's choice.
- `Rooms.EndRoom`: an ended room leaves the registry, so ending it again returns false. The tests do not fix this either.
- `Inventories.RemoveItem`: asking for more than is held takes everything held and reports that amount. The tests remove at most what is held.
- `Inventories.AddItem`: amounts are positive (`Qty`), so a zero or negative amount cannot be passed to adding or removing. The tests never pass one.
- `LevelSelect.Create`: an empty saved list falls back to [1], as a missing one does.
- `LevelSelect.NavigateLevel`: moves by position in the unlocked list, not by level number. A move off either end, or a selection that is not in the list, leaves the selection where it is.
- `Matchmaking.CreateMatch`: fails, changing nothing, for a batch of more than 4 players or with a player twice, as room creation does.
- `Matchmaking.ProcessGroup`: a match id is used up even when the room for it cannot be created.
- `Players.Attack`: the completion callback is an explicit `AnimationComplete` event whose arrival time is not modelled; `Update` covers the timer alone.
- `Rooms.CreateRoom`: rejects a taken id, an oversized roster and a duplicated player with an error. The tests only create valid rooms.
- `RateLimit.Sweep`: the age after which a bucket is dropped is a parameter, because the middleware's source is not part of this model. A sweep is transparent only to middlewares whose window is no longer than that age.
- The rate limiter's placeholder key for a request without an address is "unknown". `retryAfter` is the time left in the window, in milliseconds.
- Rendering, tweens, camera, physics, audio, particles, input and the event-bus wiring of the game scene and the player. Velocities and positions are integers.
- `GameScenes.ScoreStep`: uses the integer ceiling of the gap over 10 where the source takes `Math.ceil` of the float product gap × 0.1. The two agree while that product of a multiple of ten rounds to the exact quotient, as it does for score gaps of ordinary size; float rounding for huge gaps is not modelled.
- The health-bar percentage and colours, all sample synthesis and the float-to-int16 conversion. `Wav` takes samples already scaled by 0x7fff as integers.
- `Players.TakeDamage`: the invulnerability flag is not consulted, as in the tests. `takeDamage` and `heal` live in the Character base class, which is not part of this model.
- The animation state machine class is not part of this model. Its initial state is idle, and a transition succeeds iff the declared table allows it.
- `SaveStore.SaveGame`: a save merges the fields it is given over the stored record, field by field. The tests only read back fields that were just written, so this merge policy is the model's choice. The save manager's source, its JSON encoding and its auto-save timer are not part of this model.
- File-system and process I/O in both scripts, canvas drawing geometry, and the monitoring script.
- The sprite metadata gives frame rates 10/10/10/12. The player entity plays the same ranges at 8/12/10/15 (Player.ts:170-173). The model records the script's rates.
- The combo, parry and inventory assertions of the player tests refer to members the player entity does not have. The type-only tests of other classes are also not modelled.
