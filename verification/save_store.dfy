/**
 * The client's save system (`SaveManager`): five numbered save slots and one
 * auto-save, each a record in the browser's key/value storage. Saving merges
 * the given fields over what the slot already holds and stamps the time;
 * slot indices outside 0..4 are refused by every slot operation.
 */
module SaveStore {
  import opened Wrappers

  /** The player part of a save. */
  datatype PlayerSave = PlayerSave(
    health: int,
    maxHealth: int,
    currentLevel: int,
    unlockedLevels: seq<int>,
    totalScore: int,
    totalCoins: int,
    totalEnemiesDefeated: int)

  /** Progress on one level. */
  datatype LevelRecord = LevelRecord(highScore: int, completed: bool, lastCheckpoint: int)

  /**
   * A stored save. A save written from a partial record lacks the fields the
   * caller left out, so each top-level field is optional; `timestamp` is
   * always written.
   */
  datatype SaveRecord = SaveRecord(
    player: Option<PlayerSave>,
    levels: Option<map<int, LevelRecord>>,
    timestamp: int)

  /** The `Partial<SaveData>` a caller passes to `saveGame` / `saveAutoGame`. */
  datatype SaveUpdate = SaveUpdate(player: Option<PlayerSave>, levels: Option<map<int, LevelRecord>>)

  /** The storage keys the manager uses: one per numbered slot and one for the auto-save. */
  datatype StoreKey = SlotKey(index: int) | AutoKey

  /** The browser storage, as far as the save system uses it. */
  type Store = map<StoreKey, SaveRecord>

  /** The manager's own settings; the records live in the `Store`. */
  datatype Settings = Settings(autoSaveEnabled: bool, autoSaveInterval: nat)

  /** The result of a write: the storage afterwards and the boolean the call returns. */
  datatype Written = Written(store: Store, ok: bool)

  /** An entry of `getSaveSlots` / `getAutoSaveInfo`. */
  datatype SlotInfo = SlotInfo(index: int, present: bool, data: Option<SaveRecord>)

  const MAX_SLOTS: nat := 5
  const AUTO_SAVE_INDEX: int := -1
  const DEFAULT_AUTO_SAVE_INTERVAL: nat := 60000

  /** `new SaveManager(scene, autoSave, interval?)`: the interval defaults to one minute. */
  function NewSettings(autoSave: bool, interval: Option<nat>): (s: Settings)
    ensures s.autoSaveEnabled == autoSave
    ensures interval.None? ==> s.autoSaveInterval == 60000
    ensures interval.Some? ==> s.autoSaveInterval == interval.value
  {
    Settings(autoSave, interval.GetOr(DEFAULT_AUTO_SAVE_INTERVAL))
  }

  /** `isAutoSaveEnabled`. */
  function IsAutoSaveEnabled(s: Settings): (r: bool)
    ensures r == s.autoSaveEnabled
  {
    s.autoSaveEnabled
  }

  /** A manager reports auto-save exactly as it was constructed, whatever the interval. */
  lemma AutoSaveAsConstructed(autoSave: bool, interval: Option<nat>)
    ensures IsAutoSaveEnabled(NewSettings(autoSave, interval)) == autoSave
    ensures IsAutoSaveEnabled(NewSettings(autoSave, interval)) == IsAutoSaveEnabled(NewSettings(autoSave, None))
  {
  }

  predicate ValidSlot(index: int) {
    0 <= index < MAX_SLOTS
  }

  /** `hasSave`: a valid slot that holds a record. */
  function HasSave(st: Store, index: int): (r: bool)
    ensures r ==> 0 <= index <= 4
    ensures r <==> ValidSlot(index) && SlotKey(index) in st
  {
    ValidSlot(index) && SlotKey(index) in st
  }

  /** `hasAutoSave`. */
  function HasAutoSave(st: Store): (r: bool)
    ensures r <==> AutoKey in st
  {
    AutoKey in st
  }

  function Lookup(st: Store, k: StoreKey): (r: Option<SaveRecord>)
    ensures r.Some? <==> k in st
    ensures r.Some? ==> r.value == st[k]
  {
    if k in st then Some(st[k]) else None
  }

  /**
   * The shallow merge `{...existing, ...update, timestamp: now}`: a field the
   * update carries replaces the stored one, a field it omits keeps the stored
   * value (or stays absent on a fresh slot), and the timestamp is the time of
   * the save.
   */
  function Merge(existing: Option<SaveRecord>, u: SaveUpdate, now: int): (r: SaveRecord)
    ensures r.timestamp == now
    ensures u.player.Some? ==> r.player == u.player
    ensures u.levels.Some? ==> r.levels == u.levels
    ensures u.player.None? ==> r.player == (if existing.Some? then existing.value.player else None)
    ensures u.levels.None? ==> r.levels == (if existing.Some? then existing.value.levels else None)
  {
    var base := if existing.Some? then existing.value else SaveRecord(None, None, now);
    SaveRecord(
      if u.player.Some? then u.player else base.player,
      if u.levels.Some? then u.levels else base.levels,
      now)
  }

  /**
   * Writes `Merge` of the update over the record under `k`, leaving every
   * other key as it was.
   */
  function WriteMerged(st: Store, k: StoreKey, u: SaveUpdate, now: int): (r: Store)
    ensures k in r && r[k] == Merge(Lookup(st, k), u, now)
    ensures forall k' :: k' != k ==> (k' in r <==> k' in st)
    ensures forall k' :: k' != k && k' in st ==> r[k'] == st[k']
  {
    st[k := Merge(Lookup(st, k), u, now)]
  }

  /** `saveGame(index, data)`: false and no write for an invalid index; otherwise the merged write. */
  function SaveGame(st: Store, index: int, u: SaveUpdate, now: int): (r: Written)
    ensures r.ok <==> 0 <= index < 5
    ensures !r.ok ==> r.store == st
    ensures r.ok ==> HasSave(r.store, index)
    ensures r.ok ==> r.store[SlotKey(index)] == Merge(Lookup(st, SlotKey(index)), u, now)
    ensures forall k :: k != SlotKey(index) ==> (k in r.store <==> k in st)
    ensures forall k :: k != SlotKey(index) && k in st ==> r.store[k] == st[k]
  {
    if ValidSlot(index) then Written(WriteMerged(st, SlotKey(index), u, now), true)
    else Written(st, false)
  }

  /** `saveAutoGame(data)`: the merged write to the auto-save record; it never touches a numbered slot. */
  function SaveAutoGame(st: Store, u: SaveUpdate, now: int): (r: Written)
    ensures r.ok
    ensures HasAutoSave(r.store)
    ensures r.store[AutoKey] == Merge(Lookup(st, AutoKey), u, now)
    ensures forall i :: HasSave(r.store, i) <==> HasSave(st, i)
    ensures forall k :: k != AutoKey ==> (k in r.store <==> k in st)
    ensures forall k :: k != AutoKey && k in st ==> r.store[k] == st[k]
  {
    Written(WriteMerged(st, AutoKey, u, now), true)
  }

  /** `loadGame(index)`: the stored record of a valid, written slot; None otherwise. */
  function LoadGame(st: Store, index: int): (r: Option<SaveRecord>)
    ensures r.Some? <==> HasSave(st, index)
    ensures !ValidSlot(index) ==> r.None?
    ensures r.Some? ==> r.value == st[SlotKey(index)]
  {
    if ValidSlot(index) then Lookup(st, SlotKey(index)) else None
  }

  /** `loadAutoGame`: the auto-save record, if one was written. */
  function LoadAutoGame(st: Store): (r: Option<SaveRecord>)
    ensures r.Some? <==> HasAutoSave(st)
    ensures r.Some? ==> r.value == st[AutoKey]
  {
    Lookup(st, AutoKey)
  }

  /**
   * `deleteSave(index)`: false for an invalid index; otherwise the slot is
   * emptied and the call answers true whether or not it held a record.
   */
  function DeleteSave(st: Store, index: int): (r: Written)
    ensures r.ok <==> 0 <= index < 5
    ensures !r.ok ==> r.store == st
    ensures !HasSave(r.store, index)
    ensures forall k :: k != SlotKey(index) ==> (k in r.store <==> k in st)
    ensures forall k :: k != SlotKey(index) && k in st ==> r.store[k] == st[k]
  {
    if ValidSlot(index) then Written(st - {SlotKey(index)}, true)
    else Written(st, false)
  }

  /** `getSaveSlots`: one entry per numbered slot, in slot order, saying whether it is written and with what. */
  function GetSaveSlots(st: Store): (r: seq<SlotInfo>)
    ensures |r| == 5
    ensures forall i :: 0 <= i < |r| ==> r[i].index == i
    ensures forall i :: 0 <= i < |r| ==> (r[i].present <==> HasSave(st, i))
    ensures forall i :: 0 <= i < |r| ==> r[i].data == LoadGame(st, i)
  {
    seq(MAX_SLOTS, i requires 0 <= i < MAX_SLOTS => SlotInfo(i, HasSave(st, i), LoadGame(st, i)))
  }

  /** `getAutoSaveInfo`: null without an auto-save, otherwise an entry with index -1. */
  function GetAutoSaveInfo(st: Store): (r: Option<SlotInfo>)
    ensures r.None? <==> !HasAutoSave(st)
    ensures r.Some? ==> r.value == SlotInfo(-1, true, Some(st[AutoKey]))
  {
    if HasAutoSave(st) then Some(SlotInfo(AUTO_SAVE_INDEX, true, LoadAutoGame(st))) else None
  }

  /** The keys the save system owns. */
  predicate OwnedKey(k: StoreKey) {
    k.AutoKey? || ValidSlot(k.index)
  }

  /** `clearAllSaves`: removes the five slot records and the auto-save record, and nothing else. */
  function ClearAllSaves(st: Store): (r: Store)
    ensures forall i :: !HasSave(r, i)
    ensures !HasAutoSave(r)
    ensures forall k :: k in r <==> k in st && !OwnedKey(k)
    ensures forall k :: k in r ==> r[k] == st[k]
  {
    map k | k in st && !OwnedKey(k) :: st[k]
  }

  // ---------------------------------------------------------------------
  // Properties across calls
  // ---------------------------------------------------------------------

  /** A save to a valid slot is read back: the fields written, stamped with the time of the save. */
  lemma SaveThenLoad(st: Store, index: int, u: SaveUpdate, now: int)
    requires ValidSlot(index)
    ensures var loaded := LoadGame(SaveGame(st, index, u, now).store, index);
      && loaded.Some?
      && (u.player.Some? ==> loaded.value.player == u.player)
      && (u.levels.Some? ==> loaded.value.levels == u.levels)
      && loaded.value.timestamp == now
  {
  }

  /**
   * Of two saves to the same slot the later wins field by field, while a field
   * only the first save wrote survives the second.
   */
  lemma LaterSaveWins(st: Store, index: int, first: SaveUpdate, second: SaveUpdate, t1: int, t2: int)
    requires ValidSlot(index)
    ensures var st1 := SaveGame(st, index, first, t1).store;
      var loaded := LoadGame(SaveGame(st1, index, second, t2).store, index).value;
      && (second.player.Some? ==> loaded.player == second.player)
      && (second.player.None? && first.player.Some? ==> loaded.player == first.player)
      && (second.levels.Some? ==> loaded.levels == second.levels)
      && (second.levels.None? && first.levels.Some? ==> loaded.levels == first.levels)
      && loaded.timestamp == t2
  {
  }

  /** Writing or deleting one slot leaves every other slot and the auto-save as they read before. */
  lemma SlotsAreIndependent(st: Store, index: int, other: int, u: SaveUpdate, now: int)
    requires other != index
    ensures LoadGame(SaveGame(st, index, u, now).store, other) == LoadGame(st, other)
    ensures LoadGame(DeleteSave(st, index).store, other) == LoadGame(st, other)
    ensures LoadAutoGame(SaveGame(st, index, u, now).store) == LoadAutoGame(st)
    ensures LoadAutoGame(DeleteSave(st, index).store) == LoadAutoGame(st)
    ensures LoadGame(SaveAutoGame(st, u, now).store, other) == LoadGame(st, other)
  {
  }

  /** A deletion after a save empties the slot again. */
  lemma SaveThenDelete(st: Store, index: int, u: SaveUpdate, now: int)
    requires ValidSlot(index)
    ensures var d := DeleteSave(SaveGame(st, index, u, now).store, index);
      d.ok && !HasSave(d.store, index) && LoadGame(d.store, index).None?
  {
  }

  /** On empty storage every slot entry says "not written" and there is no auto-save entry. */
  lemma FreshStorageIsEmpty()
    ensures forall i :: 0 <= i < 5 ==> !GetSaveSlots(map[])[i].present
    ensures GetAutoSaveInfo(map[]).None?
  {
  }

  /** After a clear the listing is as for fresh storage. */
  lemma ClearLooksFresh(st: Store)
    ensures var c := ClearAllSaves(st);
      && GetSaveSlots(c) == GetSaveSlots(map[])
      && GetAutoSaveInfo(c).None?
  {
    var c := ClearAllSaves(st);
    assert forall i :: 0 <= i < 5 ==> GetSaveSlots(c)[i] == GetSaveSlots(map[])[i];
  }

  /** One save to slot 2 of empty storage marks exactly that slot written. */
  lemma SaveToSlotTwo(u: SaveUpdate, now: int)
    ensures var slots := GetSaveSlots(SaveGame(map[], 2, u, now).store);
      && !slots[0].present && !slots[1].present && slots[2].present && !slots[3].present && !slots[4].present
      && slots[2].data == Some(Merge(None, u, now))
  {
  }
}
