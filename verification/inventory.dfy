/**
 * The player's slot-based inventory (`Inventory`): a fixed number of slots,
 * each empty or holding a stack of one item id. Adding an id already held
 * grows its stack; a new id takes the first empty slot.
 */
module Inventories {
  import opened Wrappers
  import opened Seqs

  type ItemId = string

  /** A stack size: inventory operations move at least one item. */
  type Qty = n: nat | n > 0 witness 1

  /** A slot; the empty slot holds no item and quantity 0. */
  datatype Slot = Slot(item: Option<ItemId>, quantity: nat)

  datatype Inventory = Inventory(slots: seq<Slot>)

  datatype Added = Added(inventory: Inventory, ok: bool)

  datatype Removed = Removed(inventory: Inventory, removed: nat)

  const EMPTY_SLOT: Slot := Slot(None, 0)

  /** Empty slots hold nothing, held stacks are not empty, and no id sits in two slots. */
  predicate InventoryValid(inv: Inventory) {
    && (forall i :: 0 <= i < |inv.slots| ==> (inv.slots[i].item.None? <==> inv.slots[i].quantity == 0))
    && (forall i, j :: 0 <= i < j < |inv.slots| && inv.slots[i].item.Some? ==> inv.slots[i].item != inv.slots[j].item)
  }

  /** `new Inventory(scene, maxSlots)`: every slot empty. */
  function NewInventory(maxSlots: nat): (inv: Inventory)
    ensures GetMaxSlots(inv) == maxSlots
    ensures GetOccupiedSlots(inv) == 0
    ensures GetEmptySlots(inv) == maxSlots
    ensures InventoryValid(inv)
  {
    var inv := Inventory(seq(maxSlots, _ => EMPTY_SLOT));
    ClearedIsEmpty(inv.slots);
    inv
  }

  /** `getMaxSlots`: every slot is either occupied or empty. */
  function GetMaxSlots(inv: Inventory): (n: nat)
    ensures n == Count(inv.slots, IsHeldSlot) + Count(inv.slots, IsEmptySlot)
  {
    HeldOrEmpty(inv.slots);
    |inv.slots|
  }

  predicate IsHeldSlot(s: Slot) { s.item.Some? }

  predicate IsEmptySlot(s: Slot) { s.item.None? }

  /** Each slot is counted once, as held or as empty, and the occupied count is the held one. */
  lemma {:induction false} HeldOrEmpty(slots: seq<Slot>)
    ensures Count(slots, IsHeldSlot) + Count(slots, IsEmptySlot) == |slots|
    ensures OccupiedIn(slots) == Count(slots, IsHeldSlot)
  {
    if |slots| > 0 {
      HeldOrEmpty(slots[1..]);
    }
  }

  // ---------------------------------------------------------------------
  // Counting over slots
  // ---------------------------------------------------------------------

  /** What one slot holds of `id`. */
  function Contrib(s: Slot, id: ItemId): nat {
    if s.item == Some(id) then s.quantity else 0
  }

  function QuantityIn(slots: seq<Slot>, id: ItemId): nat {
    if |slots| == 0 then 0 else Contrib(slots[0], id) + QuantityIn(slots[1..], id)
  }

  function OccupiedIn(slots: seq<Slot>): (n: nat)
    ensures n <= |slots|
  {
    if |slots| == 0 then 0 else (if slots[0].item.Some? then 1 else 0) + OccupiedIn(slots[1..])
  }

  /** Replacing one slot changes a total by exactly that slot's difference. */
  lemma {:induction false} QuantityUpdate(slots: seq<Slot>, i: nat, s: Slot, id: ItemId)
    requires i < |slots|
    ensures QuantityIn(slots[i := s], id) + Contrib(slots[i], id) == QuantityIn(slots, id) + Contrib(s, id)
    decreases i
  {
    if i == 0 {
      assert slots[i := s][1..] == slots[1..];
    } else {
      assert slots[i := s][1..] == slots[1..][i - 1 := s];
      QuantityUpdate(slots[1..], i - 1, s, id);
    }
  }

  lemma {:induction false} OccupiedUpdate(slots: seq<Slot>, i: nat, s: Slot)
    requires i < |slots|
    ensures OccupiedIn(slots[i := s]) + (if slots[i].item.Some? then 1 else 0) == OccupiedIn(slots) + (if s.item.Some? then 1 else 0)
    decreases i
  {
    if i == 0 {
      assert slots[i := s][1..] == slots[1..];
    } else {
      assert slots[i := s][1..] == slots[1..][i - 1 := s];
      OccupiedUpdate(slots[1..], i - 1, s);
    }
  }

  /** An id in no slot has quantity 0. */
  lemma {:induction false} QuantityAbsent(slots: seq<Slot>, id: ItemId)
    requires forall i :: 0 <= i < |slots| ==> slots[i].item != Some(id)
    ensures QuantityIn(slots, id) == 0
  {
    if |slots| > 0 {
      QuantityAbsent(slots[1..], id);
    }
  }

  /** In a valid inventory the quantity of a held id is the size of its one stack. */
  lemma {:induction false} QuantityAtUnique(slots: seq<Slot>, i: nat, id: ItemId)
    requires InventoryValid(Inventory(slots))
    requires i < |slots| && slots[i].item == Some(id)
    ensures QuantityIn(slots, id) == slots[i].quantity
    decreases i
  {
    if i == 0 {
      QuantityAbsent(slots[1..], id);
    } else {
      assert InventoryValid(Inventory(slots[1..]));
      QuantityAtUnique(slots[1..], i - 1, id);
    }
  }

  // ---------------------------------------------------------------------
  // Queries
  // ---------------------------------------------------------------------

  /** `getItemQuantity`: the size of the one stack holding `id`, 0 for an id not held. */
  function GetItemQuantity(inv: Inventory, id: ItemId): (q: nat)
    ensures InventoryValid(inv) && IndexOf(inv.slots, id).None? ==> q == 0
    ensures InventoryValid(inv) && IndexOf(inv.slots, id).Some? ==> q == inv.slots[IndexOf(inv.slots, id).value].quantity
  {
    match IndexOf(inv.slots, id)
    case None => QuantityAbsent(inv.slots, id); QuantityIn(inv.slots, id)
    case Some(i) =>
      if InventoryValid(inv) then QuantityAtUnique(inv.slots, i, id); QuantityIn(inv.slots, id)
      else QuantityIn(inv.slots, id)
  }

  /** `getOccupiedSlots`: the slots holding an item. */
  function GetOccupiedSlots(inv: Inventory): (n: nat)
    ensures n <= GetMaxSlots(inv)
    ensures n == Count(inv.slots, IsHeldSlot)
  {
    HeldOrEmpty(inv.slots);
    OccupiedIn(inv.slots)
  }

  /** `getEmptySlots`: the slots not occupied, so occupied plus empty is the slot count. */
  function GetEmptySlots(inv: Inventory): (n: nat)
    ensures GetOccupiedSlots(inv) + n == GetMaxSlots(inv)
    ensures n == Count(inv.slots, IsEmptySlot)
  {
    GetMaxSlots(inv) - GetOccupiedSlots(inv)
  }

  /**
   * `hasItem(id, n)`: at least `n` of the id are held (`n` defaults to 1),
   * that is, its one stack is at least that large.
   */
  function HasItem(inv: Inventory, id: ItemId, n: nat := 1): (r: bool)
    ensures InventoryValid(inv) ==>
      (r <==> n == 0 || (IndexOf(inv.slots, id).Some? && inv.slots[IndexOf(inv.slots, id).value].quantity >= n))
  {
    GetItemQuantity(inv, id) >= n
  }

  /** `getSlot(i)`: the slot at `i`, or nothing outside the inventory. */
  function GetSlot(inv: Inventory, i: int): (r: Option<Slot>)
    ensures r.Some? <==> 0 <= i < GetMaxSlots(inv)
    ensures r.Some? ==> r.value == inv.slots[i]
  {
    if 0 <= i < |inv.slots| then Some(inv.slots[i]) else None
  }

  /** The first slot holding `id`. */
  function IndexOf(slots: seq<Slot>, id: ItemId): (r: Option<nat>)
    ensures r.Some? ==> r.value < |slots| && slots[r.value].item == Some(id)
    ensures r.None? ==> forall i :: 0 <= i < |slots| ==> slots[i].item != Some(id)
  {
    if |slots| == 0 then None
    else if slots[0].item == Some(id) then Some(0)
    else
      match IndexOf(slots[1..], id)
      case Some(j) => Some(j + 1)
      case None => None
  }

  /** The first empty slot. */
  function FirstEmpty(slots: seq<Slot>): (r: Option<nat>)
    ensures r.Some? ==> r.value < |slots| && slots[r.value].item.None?
    ensures r.None? ==> forall i :: 0 <= i < |slots| ==> slots[i].item.Some?
  {
    if |slots| == 0 then None
    else if slots[0].item.None? then Some(0)
    else
      match FirstEmpty(slots[1..])
      case Some(j) => Some(j + 1)
      case None => None
  }

  /** With every slot taken, no slot is free. */
  lemma {:induction false} AllOccupied(slots: seq<Slot>)
    requires OccupiedIn(slots) == |slots|
    ensures forall i :: 0 <= i < |slots| ==> slots[i].item.Some?
  {
    if |slots| > 0 {
      AllOccupied(slots[1..]);
      assert forall i :: 1 <= i < |slots| ==> slots[i] == slots[1..][i - 1];
    }
  }

  /** The ids held, in slot order. */
  function IdsIn(slots: seq<Slot>): (r: seq<ItemId>)
    ensures |r| == OccupiedIn(slots)
    ensures forall id :: id in r <==> exists i :: 0 <= i < |slots| && slots[i].item == Some(id)
  {
    if |slots| == 0 then []
    else
      var rest := IdsIn(slots[1..]);
      assert forall i :: 1 <= i < |slots| ==> slots[i] == slots[1..][i - 1];
      assert forall id :: (exists i :: 1 <= i < |slots| && slots[i].item == Some(id)) ==>
        exists j :: 0 <= j < |slots[1..]| && slots[1..][j].item == Some(id);
      if slots[0].item.Some? then [slots[0].item.value] + rest else rest
  }

  /** `getAllItemIds`: each held id exactly once; in a valid inventory, exactly the ids with a positive quantity. */
  function GetAllItemIds(inv: Inventory): (r: seq<ItemId>)
    ensures |r| == GetOccupiedSlots(inv)
    ensures InventoryValid(inv) ==> forall id :: id in r <==> GetItemQuantity(inv, id) > 0
  {
    var r := IdsIn(inv.slots);
    if InventoryValid(inv) then
      assert forall id :: id in r <==> GetItemQuantity(inv, id) > 0 by {
        forall id ensures id in r <==> GetItemQuantity(inv, id) > 0 {
          if IndexOf(inv.slots, id).Some? {
            QuantityAtUnique(inv.slots, IndexOf(inv.slots, id).value, id);
          } else {
            QuantityAbsent(inv.slots, id);
          }
        }
      }
      r
    else r
  }

  // ---------------------------------------------------------------------
  // Updates
  // ---------------------------------------------------------------------

  /**
   * `addItem(item, quantity)`: stacks onto the slot already holding the id,
   * else fills the first empty slot; false, and nothing changes, when the id
   * is not held and every slot is taken. `quantity` defaults to 1.
   */
  function AddItem(inv: Inventory, id: ItemId, quantity: Qty := 1): (r: Added)
    ensures r.ok <==> IndexOf(inv.slots, id).Some? || GetOccupiedSlots(inv) < GetMaxSlots(inv)
    ensures !r.ok ==> r.inventory == inv
    ensures r.ok ==> GetItemQuantity(r.inventory, id) == GetItemQuantity(inv, id) + quantity
    ensures forall other :: other != id ==> GetItemQuantity(r.inventory, other) == GetItemQuantity(inv, other)
    ensures IndexOf(inv.slots, id).Some? ==> GetOccupiedSlots(r.inventory) == GetOccupiedSlots(inv)
    ensures IndexOf(inv.slots, id).None? && r.ok ==> GetOccupiedSlots(r.inventory) == GetOccupiedSlots(inv) + 1
    ensures GetMaxSlots(r.inventory) == GetMaxSlots(inv)
    ensures InventoryValid(inv) ==> InventoryValid(r.inventory)
  {
    match IndexOf(inv.slots, id)
    case Some(i) =>
      var s := Slot(Some(id), inv.slots[i].quantity + quantity);
      QuantityUpdate(inv.slots, i, s, id);
      assert forall other :: other != id ==> GetItemQuantity(Inventory(inv.slots[i := s]), other) == GetItemQuantity(inv, other) by {
        forall other | other != id ensures GetItemQuantity(Inventory(inv.slots[i := s]), other) == GetItemQuantity(inv, other) {
          QuantityUpdate(inv.slots, i, s, other);
        }
      }
      OccupiedUpdate(inv.slots, i, s);
      Added(Inventory(inv.slots[i := s]), true)
    case None =>
      match FirstEmpty(inv.slots)
      case None =>
        assert OccupiedIn(inv.slots) == |inv.slots| by {
          if OccupiedIn(inv.slots) < |inv.slots| { SomeEmpty(inv.slots); }
        }
        Added(inv, false)
      case Some(j) =>
        var s := Slot(Some(id), quantity);
        QuantityUpdate(inv.slots, j, s, id);
        assert forall other :: other != id ==> GetItemQuantity(Inventory(inv.slots[j := s]), other) == GetItemQuantity(inv, other) by {
          forall other | other != id ensures GetItemQuantity(Inventory(inv.slots[j := s]), other) == GetItemQuantity(inv, other) {
            QuantityUpdate(inv.slots, j, s, other);
          }
        }
        OccupiedUpdate(inv.slots, j, s);
        assert OccupiedIn(inv.slots) < |inv.slots| by {
          if OccupiedIn(inv.slots) == |inv.slots| { AllOccupied(inv.slots); }
        }
        Added(Inventory(inv.slots[j := s]), true)
  }

  /** With fewer occupied slots than slots, some slot is empty. */
  lemma {:induction false} SomeEmpty(slots: seq<Slot>)
    requires OccupiedIn(slots) < |slots|
    ensures exists i :: 0 <= i < |slots| && slots[i].item.None?
  {
    if slots[0].item.Some? {
      SomeEmpty(slots[1..]);
      var i :| 0 <= i < |slots[1..]| && slots[1..][i].item.None?;
      assert slots[i + 1].item.None?;
    }
  }

  /**
   * `removeItem(id, quantity)`: takes up to `quantity` (default 1) from the
   * id's stack and reports how many were taken, emptying the slot when the
   * stack runs out; 0 for an id not held.
   */
  function RemoveItem(inv: Inventory, id: ItemId, quantity: Qty := 1): (r: Removed)
    ensures IndexOf(inv.slots, id).None? ==> r.removed == 0 && r.inventory == inv
    ensures InventoryValid(inv) ==> r.removed == if quantity < GetItemQuantity(inv, id) then quantity else GetItemQuantity(inv, id)
    ensures InventoryValid(inv) ==> GetItemQuantity(r.inventory, id) == GetItemQuantity(inv, id) - r.removed
    ensures forall other :: other != id ==> GetItemQuantity(r.inventory, other) == GetItemQuantity(inv, other)
    ensures GetMaxSlots(r.inventory) == GetMaxSlots(inv)
    ensures InventoryValid(inv) ==> InventoryValid(r.inventory)
  {
    match IndexOf(inv.slots, id)
    case None =>
      QuantityAbsent(inv.slots, id);
      Removed(inv, 0)
    case Some(i) =>
      var held := inv.slots[i].quantity;
      var taken := if quantity < held then quantity else held;
      var s := if held - taken == 0 then EMPTY_SLOT else Slot(Some(id), held - taken);
      QuantityUpdate(inv.slots, i, s, id);
      assert forall other :: other != id ==> GetItemQuantity(Inventory(inv.slots[i := s]), other) == GetItemQuantity(inv, other) by {
        forall other | other != id ensures GetItemQuantity(Inventory(inv.slots[i := s]), other) == GetItemQuantity(inv, other) {
          QuantityUpdate(inv.slots, i, s, other);
        }
      }
      if InventoryValid(inv) then
        QuantityAtUnique(inv.slots, i, id);
        Removed(Inventory(inv.slots[i := s]), taken)
      else Removed(Inventory(inv.slots[i := s]), taken)
  }

  /** `clear`: every slot empty, the slot count kept. */
  function Clear(inv: Inventory): (r: Inventory)
    ensures GetMaxSlots(r) == GetMaxSlots(inv)
    ensures GetOccupiedSlots(r) == 0
    ensures forall id :: GetItemQuantity(r, id) == 0
    ensures GetAllItemIds(r) == []
    ensures InventoryValid(r)
  {
    var r := Inventory(seq(|inv.slots|, _ => EMPTY_SLOT));
    ClearedIsEmpty(r.slots);
    assert forall id :: GetItemQuantity(r, id) == 0 by {
      forall id ensures GetItemQuantity(r, id) == 0 {
        QuantityAbsent(r.slots, id);
      }
    }
    r
  }

  lemma {:induction false} ClearedIsEmpty(slots: seq<Slot>)
    requires forall i :: 0 <= i < |slots| ==> slots[i] == EMPTY_SLOT
    ensures OccupiedIn(slots) == 0
  {
    if |slots| > 0 {
      ClearedIsEmpty(slots[1..]);
    }
  }

  // ---------------------------------------------------------------------
  // Properties across operations
  // ---------------------------------------------------------------------

  /** Adding a new id takes one slot; adding it again stacks, so one slot stays occupied. */
  lemma AddThenStack(maxSlots: nat, id: ItemId, first: Qty, second: Qty)
    requires maxSlots > 0
    ensures var a := AddItem(NewInventory(maxSlots), id, first);
      && a.ok
      && GetOccupiedSlots(a.inventory) == 1
      && AddItem(a.inventory, id, second).ok
      && GetOccupiedSlots(AddItem(a.inventory, id, second).inventory) == 1
      && GetItemQuantity(AddItem(a.inventory, id, second).inventory, id) == first + second
  {
    var inv := NewInventory(maxSlots);
    QuantityAbsent(inv.slots, id);
    var a := AddItem(inv, id, first);
    var i := IndexOf(a.inventory.slots, id);
    assert i.Some? by {
      if i.None? { QuantityAbsent(a.inventory.slots, id); }
    }
  }

  /** A full inventory refuses an id it does not hold, and is left as it was. */
  lemma FullRejectsNewItem(inv: Inventory, id: ItemId, quantity: Qty)
    requires GetEmptySlots(inv) == 0
    requires GetItemQuantity(inv, id) == 0
    requires InventoryValid(inv)
    ensures !AddItem(inv, id, quantity).ok
    ensures AddItem(inv, id, quantity).inventory == inv
  {
    if IndexOf(inv.slots, id).Some? {
      QuantityAtUnique(inv.slots, IndexOf(inv.slots, id).value, id);
    }
  }

  /** Taking exactly what is held returns that amount and leaves none. */
  lemma RemoveAll(inv: Inventory, id: ItemId)
    requires InventoryValid(inv)
    requires GetItemQuantity(inv, id) > 0
    ensures var r := RemoveItem(inv, id, GetItemQuantity(inv, id));
      r.removed == GetItemQuantity(inv, id) && !HasItem(r.inventory, id)
  {
  }

  /** `hasItem` answers by the quantity: true for up to what was added, false beyond. */
  lemma HasItemAfterAdd(inv: Inventory, id: ItemId, quantity: Qty, n: nat)
    requires GetItemQuantity(inv, id) == 0
    requires AddItem(inv, id, quantity).ok
    ensures HasItem(AddItem(inv, id, quantity).inventory, id, n) <==> n <= quantity
  {
  }
}
