/**
  Access-item event rules and hotbar placement (`CommonMenuListeners`).

  An access item is an item stack that opens a form when used. The listeners keep
  such items from being moved or dropped (as each item's flags say) and, when a
  player joins, replace every access item in the inventory by fresh ones placed
  in their configured slots.
 */
module MenuListeners {
  import opened Wrappers

  datatype Material = Air | Solid(name: string)

  /** An item stack: its material, the access-item id stored in it (if any), and its amount. */
  datatype Item = Item(material: Material, accessId: Option<string>, amount: nat)

  /**
    A configured access item: its id, the form it opens, its flags, its desired
    hotbar slot and the stack given to a player (placeholders already rendered).
   */
  datatype AccessItem = AccessItem(
    id: string,
    formName: string,
    allowMove: bool,
    allowDrop: bool,
    destroyDropped: bool,
    onJoin: bool,
    slot: nat,
    stack: Item)

  /** The access-item registry: whether it is enabled, and its items in iteration order. */
  datatype Registry = Registry(enabled: bool, items: seq<AccessItem>)

  /** The first registered access item with the given id. */
  function FindById(items: seq<AccessItem>, id: string): (r: Option<AccessItem>)
    ensures r.Some? ==> r.value in items && r.value.id == id
    ensures r.Some? ==> exists i :: 0 <= i < |items| && items[i] == r.value && forall j :: 0 <= j < i ==> items[j].id != id
    ensures r.None? ==> forall a :: a in items ==> a.id != id
  {
    if items == [] then None
    else if items[0].id == id then Some(items[0])
    else FindById(items[1..], id)
  }

  /** `getAccessItem`: the registered access item whose id the stack carries, if any. */
  function GetAccessItem(reg: Registry, item: Item): (r: Option<AccessItem>)
    ensures r.Some? ==> r.value in reg.items && item.accessId == Some(r.value.id)
    ensures r.None? ==> item.accessId.None? || forall a :: a in reg.items ==> a.id != item.accessId.value
  {
    match item.accessId
    case None => None
    case Some(id) => FindById(reg.items, id)
  }

  datatype ClickAction = LeftClickAir | LeftClickBlock | RightClickAir | RightClickBlock | Physical

  predicate IsRightClick(action: ClickAction) {
    action == RightClickAir || action == RightClickBlock
  }

  /** A player's interaction with the item in hand (`PlayerInteractEvent`). */
  class InteractEvent {
    const action: ClickAction
    const item: Option<Item>
    var cancelled: bool

    constructor (action: ClickAction, item: Option<Item>)
      ensures this.action == action && this.item == item && !cancelled
    {
      this.action := action;
      this.item := item;
      cancelled := false;
    }
  }

  /** A click on an inventory slot (`InventoryClickEvent`). */
  class ClickEvent {
    const currentItem: Option<Item>
    var cancelled: bool

    constructor (currentItem: Option<Item>)
      ensures this.currentItem == currentItem && !cancelled
    {
      this.currentItem := currentItem;
      cancelled := false;
    }
  }

  /** A player dropping an item (`PlayerDropItemEvent`); `removed` records that the dropped entity was removed. */
  class DropEvent {
    const dropped: Item
    var cancelled: bool
    var removed: bool

    constructor (dropped: Item)
      ensures this.dropped == dropped && !cancelled && !removed
    {
      this.dropped := dropped;
      cancelled := false;
      removed := false;
    }
  }

  // ---------------------------------------------------------------------------
  // Inventory contents as values

  /** A slot is free when it holds nothing or air. */
  predicate IsEmptySlot(slot: Option<Item>) {
    slot.None? || slot.value.material == Air
  }

  /** A slot holds a stack that carries an access-item id. */
  predicate Tagged(slot: Option<Item>) {
    slot.Some? && slot.value.accessId.Some?
  }

  /** The contents with every stack that carries an access-item id taken out. */
  function StripAccessItems(s: seq<Option<Item>>): (r: seq<Option<Item>>)
    ensures |r| == |s|
    ensures forall j :: 0 <= j < |s| ==> r[j] == if Tagged(s[j]) then None else s[j]
  {
    if s == [] then []
    else [if Tagged(s[0]) then None else s[0]] + StripAccessItems(s[1..])
  }

  /** `Inventory.remove(item)`: every slot holding a stack equal to `item` is emptied. */
  function RemoveAll(s: seq<Option<Item>>, item: Item): (r: seq<Option<Item>>)
    ensures |r| == |s|
    ensures Some(item) !in r
    ensures forall j :: 0 <= j < |s| && s[j] == Some(item) ==> r[j] == None
    ensures forall j :: 0 <= j < |s| && s[j] != Some(item) ==> r[j] == s[j]
  {
    seq(|s|, j requires 0 <= j < |s| => if s[j] == Some(item) then None else s[j])
  }

  function Min(a: int, b: int): int {
    if a <= b then a else b
  }

  /** The first free slot at or after `from` and before `bound`. */
  function FirstEmptyFrom(s: seq<Option<Item>>, from: nat, bound: nat): (r: Option<nat>)
    requires from <= bound <= |s|
    ensures r.Some? ==> from <= r.value < bound && IsEmptySlot(s[r.value])
                        && forall j :: from <= j < r.value ==> !IsEmptySlot(s[j])
    ensures r.None? ==> forall j :: from <= j < bound ==> !IsEmptySlot(s[j])
    decreases bound - from
  {
    if from == bound then None
    else if IsEmptySlot(s[from]) then Some(from)
    else FirstEmptyFrom(s, from + 1, bound)
  }

  /** The result of placing one access item: the new contents and whether it was placed. */
  datatype Placement = Placement(slots: seq<Option<Item>>, success: bool)

  /**
    Placing an access item on join: into its desired slot when that is free;
    otherwise the occupant moves to the first free slot below both 10 and the
    desired slot and the access item takes the desired slot; when there is no
    such slot nothing changes.
   */
  function PlaceAccessItem(s: seq<Option<Item>>, a: AccessItem): (r: Placement)
    requires a.slot < |s|
    ensures |r.slots| == |s|
    ensures IsEmptySlot(s[a.slot]) ==> r == Placement(s[a.slot := Some(a.stack)], true)
    ensures !IsEmptySlot(s[a.slot]) ==>
      match FirstEmptyFrom(s, 0, Min(10, a.slot))
      case Some(i) => r == Placement(s[i := s[a.slot]][a.slot := Some(a.stack)], true)
      case None => r == Placement(s, false)
  {
    var desired := a.slot;
    if IsEmptySlot(s[desired]) then Placement(s[desired := Some(a.stack)], true)
    else
      match FirstEmptyFrom(s, 0, Min(10, desired))
      case Some(i) => Placement(s[i := s[desired]][desired := Some(a.stack)], true)
      case None => Placement(s, false)
  }

  /** Bukkit's held-item slot must lie in the hotbar, slots 0 to 8. */
  const HotbarSize := 9

  /**
    The contents and held slot after a join, and whether the handler was ended by
    the exception `setHeldItemSlot` throws for a slot outside the hotbar.
   */
  datatype JoinResult = JoinResult(slots: seq<Option<Item>>, heldSlot: int, aborted: bool)

  predicate SlotsFit(items: seq<AccessItem>, size: nat) {
    forall a :: a in items && a.onJoin ==> a.slot < size
  }

  /** `h` is the hotbar slot of an on-join item of `items`. */
  predicate IsJoinHotbarSlot(items: seq<AccessItem>, h: int) {
    exists a :: a in items && a.onJoin && a.slot == h && a.slot < HotbarSize
  }

  lemma JoinSlotOfTail(items: seq<AccessItem>, h: int)
    requires items != []
    ensures IsJoinHotbarSlot(items[1..], h) ==> IsJoinHotbarSlot(items, h)
  {
    if IsJoinHotbarSlot(items[1..], h) {
      var b :| b in items[1..] && b.onJoin && b.slot == h && b.slot < HotbarSize;
      assert b in items;
    }
  }

  /** Every stack in `slots` that carries an access-item id is the stack of an on-join item of `items`. */
  predicate OnlyJoinStacksTagged(slots: seq<Option<Item>>, items: seq<AccessItem>) {
    forall j :: 0 <= j < |slots| && Tagged(slots[j]) ==> exists a :: a in items && a.onJoin && slots[j] == Some(a.stack)
  }

  /**
    The placement loop over the registry's items: each on-join item is placed in
    turn; the first successful placement sets the held slot, once. A slot outside
    the hotbar makes `setHeldItemSlot` throw, which ends the handler there.
   */
  function PlaceAll(items: seq<AccessItem>, s: seq<Option<Item>>, held: int, heldSet: bool): (r: JoinResult)
    requires SlotsFit(items, |s|)
    ensures |r.slots| == |s|
    ensures r.heldSlot == held || IsJoinHotbarSlot(items, r.heldSlot)
    decreases |items|
  {
    if items == [] then JoinResult(s, held, false)
    else
      var a := items[0];
      assert a in items;
      if !a.onJoin then
        var r := PlaceAll(items[1..], s, held, heldSet);
        JoinSlotOfTail(items, r.heldSlot);
        r
      else
        var p := PlaceAccessItem(s, a);
        if p.success && !heldSet then
          if a.slot < HotbarSize then
            var r := PlaceAll(items[1..], p.slots, a.slot, true);
            JoinSlotOfTail(items, r.heldSlot);
            r
          else JoinResult(p.slots, held, true)
        else
          var r := PlaceAll(items[1..], p.slots, held, heldSet);
          JoinSlotOfTail(items, r.heldSlot);
          r
  }

  /**
    `onPlayerJoin`: nothing when disabled; otherwise strip every access item, then
    place the on-join ones. Afterwards the only stacks carrying an access-item id
    are freshly given on-join items, and the held slot is unchanged or the hotbar
    slot of an on-join item.
   */
  function OnJoin(reg: Registry, s: seq<Option<Item>>, held: int): (r: JoinResult)
    requires SlotsFit(reg.items, |s|)
    ensures |r.slots| == |s|
    ensures !reg.enabled ==> r == JoinResult(s, held, false)
    ensures reg.enabled ==> OnlyJoinStacksTagged(r.slots, reg.items)
    ensures r.heldSlot == held || IsJoinHotbarSlot(reg.items, r.heldSlot)
  {
    if !reg.enabled then JoinResult(s, held, false)
    else
      var stripped := StripAccessItems(s);
      PlaceAllKeepsOnlyJoinStacks(reg.items, reg.items, stripped, held, false);
      PlaceAll(reg.items, stripped, held, false)
  }

  // ---------------------------------------------------------------------------
  // Properties of joining

  /** Removing each tagged stack of a snapshot, in turn, strips exactly the tagged slots. */
  lemma RemovingTaggedStacksStrips(snapshot: seq<Option<Item>>, live: seq<Option<Item>>, i: nat)
    requires i < |snapshot| == |live|
    requires forall j :: 0 <= j < |live| ==>
      live[j] == if Tagged(snapshot[j]) && snapshot[j] in snapshot[..i] then None else snapshot[j]
    ensures var next := if Tagged(snapshot[i]) then RemoveAll(live, snapshot[i].value) else live;
      forall j :: 0 <= j < |next| ==>
        next[j] == if Tagged(snapshot[j]) && snapshot[j] in snapshot[..i + 1] then None else snapshot[j]
  {
    assert snapshot[..i + 1] == snapshot[..i] + [snapshot[i]];
  }

  /** One iteration of the placement loop, at position `n` of the registry's items. */
  lemma PlaceAllStep(items: seq<AccessItem>, n: nat, s: seq<Option<Item>>, held: int, heldSet: bool)
    requires n < |items| && SlotsFit(items[n..], |s|)
    ensures items[n] in items[n..] && SlotsFit(items[n + 1..], |s|)
    ensures items[n].onJoin ==> items[n].slot < |s|
    ensures var a := items[n];
      PlaceAll(items[n..], s, held, heldSet)
      == if !a.onJoin then PlaceAll(items[n + 1..], s, held, heldSet)
         else
           var p := PlaceAccessItem(s, a);
           if p.success && !heldSet then
             if a.slot < HotbarSize then PlaceAll(items[n + 1..], p.slots, a.slot, true)
             else JoinResult(p.slots, held, true)
           else PlaceAll(items[n + 1..], p.slots, held, heldSet)
  {
    assert items[n] in items[n..];
    assert items[n..][1..] == items[n + 1..];
  }

  /** Once the held slot is set, later placements never change it, and nothing throws. */
  lemma {:induction false} HeldSlotSetOnce(items: seq<AccessItem>, s: seq<Option<Item>>, held: int)
    requires SlotsFit(items, |s|)
    ensures PlaceAll(items, s, held, true).heldSlot == held
    ensures !PlaceAll(items, s, held, true).aborted
    decreases |items|
  {
    if items != [] {
      var a := items[0];
      assert a in items;
      if a.onJoin {
        HeldSlotSetOnce(items[1..], PlaceAccessItem(s, a).slots, held);
      } else {
        HeldSlotSetOnce(items[1..], s, held);
      }
    }
  }

  /**
    The held slot is decided by the first on-join item placed successfully, after
    any items that are skipped or find no room: a hotbar slot becomes the held
    slot; a slot outside the hotbar ends the handler with that item placed, the
    held slot unchanged and the later items never placed.
   */
  lemma {:induction false} FirstSuccessIsHeld(items: seq<AccessItem>, s: seq<Option<Item>>, held: int, k: nat)
    requires SlotsFit(items, |s|) && k < |items| && items[k].onJoin
    requires forall j :: 0 <= j < k && items[j].onJoin ==> items[j].slot < |s| && !PlaceAccessItem(s, items[j]).success
    requires items[k].slot < |s| && PlaceAccessItem(s, items[k]).success
    ensures var r := PlaceAll(items, s, held, false);
      if items[k].slot < HotbarSize then r.heldSlot == items[k].slot && !r.aborted
      else r == JoinResult(PlaceAccessItem(s, items[k]).slots, held, true)
    decreases k
  {
    var a := items[0];
    assert a in items;
    if k == 0 {
      if a.slot < HotbarSize {
        HeldSlotSetOnce(items[1..], PlaceAccessItem(s, a).slots, a.slot);
      }
    } else {
      assert PlaceAll(items, s, held, false) == PlaceAll(items[1..], s, held, false);
      FirstSuccessIsHeld(items[1..], s, held, k - 1);
    }
  }

  /** When no on-join item can be placed, the join changes nothing more and nothing throws. */
  lemma {:induction false} NothingPlacedKeepsHeld(items: seq<AccessItem>, s: seq<Option<Item>>, held: int, heldSet: bool)
    requires SlotsFit(items, |s|)
    requires forall j :: 0 <= j < |items| && items[j].onJoin ==> items[j].slot < |s| && !PlaceAccessItem(s, items[j]).success
    ensures PlaceAll(items, s, held, heldSet) == JoinResult(s, held, false)
    decreases |items|
  {
    if items != [] {
      assert items[0] in items;
      NothingPlacedKeepsHeld(items[1..], s, held, heldSet);
    }
  }

  /** Placing an on-join item adds no stack carrying an access-item id but its own. */
  lemma PlaceKeepsOnlyJoinStacks(s: seq<Option<Item>>, a: AccessItem, all: seq<AccessItem>)
    requires a.slot < |s| && a in all && a.onJoin && OnlyJoinStacksTagged(s, all)
    ensures OnlyJoinStacksTagged(PlaceAccessItem(s, a).slots, all)
  {
    var r := PlaceAccessItem(s, a).slots;
    forall j | 0 <= j < |r| && Tagged(r[j])
      ensures exists b :: b in all && b.onJoin && r[j] == Some(b.stack)
    {
      if r[j] != Some(a.stack) {
        var i :| 0 <= i < |s| && r[j] == s[i];
        assert Tagged(s[i]);
      }
    }
  }

  /** The placement loop adds no stack carrying an access-item id but those of on-join items. */
  lemma {:induction false} PlaceAllKeepsOnlyJoinStacks(
    items: seq<AccessItem>, all: seq<AccessItem>, s: seq<Option<Item>>, held: int, heldSet: bool)
    requires SlotsFit(items, |s|) && (forall a :: a in items ==> a in all) && OnlyJoinStacksTagged(s, all)
    ensures OnlyJoinStacksTagged(PlaceAll(items, s, held, heldSet).slots, all)
    decreases |items|
  {
    if items != [] {
      var a := items[0];
      assert a in items;
      assert forall b :: b in items[1..] ==> b in items;
      if a.onJoin {
        var p := PlaceAccessItem(s, a);
        PlaceKeepsOnlyJoinStacks(s, a, all);
        if p.success && !heldSet {
          PlaceAllKeepsOnlyJoinStacks(items[1..], all, p.slots, a.slot, true);
        } else {
          PlaceAllKeepsOnlyJoinStacks(items[1..], all, p.slots, held, heldSet);
        }
      } else {
        PlaceAllKeepsOnlyJoinStacks(items[1..], all, s, held, heldSet);
      }
    }
  }

  /** Placing an access item never loses a real item: every non-free slot's stack is still somewhere. */
  lemma PlacementKeepsItems(s: seq<Option<Item>>, a: AccessItem)
    requires a.slot < |s|
    ensures var r := PlaceAccessItem(s, a).slots;
      forall j :: 0 <= j < |s| && j != a.slot && !IsEmptySlot(s[j]) ==> r[j] == s[j]
    ensures var r := PlaceAccessItem(s, a).slots;
      !IsEmptySlot(s[a.slot]) ==> s[a.slot] in r
  {
    var r := PlaceAccessItem(s, a).slots;
    if !IsEmptySlot(s[a.slot]) {
      match FirstEmptyFrom(s, 0, Min(10, a.slot))
      case Some(i) =>
        assert r[i] == s[a.slot];
      case None =>
        assert r[a.slot] == s[a.slot];
    }
  }

  // ---------------------------------------------------------------------------
  // The inventory and the listeners

  /** A player's inventory: a fixed-size array of slots and the held hotbar slot. */
  class PlayerInventory {
    const contents: array<Option<Item>>
    var heldSlot: int

    constructor (size: nat, heldSlot: int)
      ensures contents.Length == size && fresh(contents) && this.heldSlot == heldSlot
      ensures forall j :: 0 <= j < size ==> contents[j].None?
    {
      contents := new Option<Item>[size](_ => None);
      this.heldSlot := heldSlot;
    }

    /** `setHeldItemSlot`: Bukkit accepts only a hotbar slot and throws for any other. */
    method SetHeldItemSlot(slot: int) returns (threw: bool)
      modifies this
      ensures threw <==> !(0 <= slot < HotbarSize)
      ensures heldSlot == if threw then old(heldSlot) else slot
    {
      if !(0 <= slot < HotbarSize) {
        return true;
      }
      heldSlot := slot;
      return false;
    }

    /** `Inventory.remove(item)`. */
    method Remove(item: Item)
      modifies contents
      ensures contents[..] == RemoveAll(old(contents[..]), item)
    {
      var j := 0;
      while j < contents.Length
        invariant 0 <= j <= contents.Length
        invariant forall k :: 0 <= k < j ==> contents[k] == RemoveAll(old(contents[..]), item)[k]
        invariant forall k :: j <= k < contents.Length ==> contents[k] == old(contents[k])
      {
        if contents[j] == Some(item) {
          contents[j] := None;
        }
        j := j + 1;
      }
    }
  }

  class CommonMenuListeners {
    const registry: Registry

    constructor (registry: Registry)
      ensures this.registry == registry
    {
      this.registry := registry;
    }

    /**
      `onInteract`: a right click (in the air or on a block) with an access item
      cancels the event and sends that item's form; nothing else changes the event.
     */
    method OnInteract(e: InteractEvent) returns (sentForm: Option<string>)
      modifies e
      ensures sentForm.Some? <==>
        registry.enabled && IsRightClick(e.action) && e.item.Some? && GetAccessItem(registry, e.item.value).Some?
      ensures sentForm.Some? ==> sentForm.value == GetAccessItem(registry, e.item.value).value.formName
      ensures e.cancelled == (sentForm.Some? || old(e.cancelled))
    {
      sentForm := None;
      if !registry.enabled {
        return;
      }
      if e.action == RightClickAir || e.action == RightClickBlock {
        var item := e.item;
        if item != None {
          var accessItem := GetAccessItem(registry, item.value);
          if accessItem != None {
            e.cancelled := true;
            sentForm := Some(accessItem.value.formName);
          }
        }
      }
    }

    /** `onInventoryClick`: clicking an access item cancels the click exactly when it may not move. */
    method OnInventoryClick(e: ClickEvent)
      modifies e
      ensures !registry.enabled || e.currentItem.None? || GetAccessItem(registry, e.currentItem.value).None?
              ==> e.cancelled == old(e.cancelled)
      ensures registry.enabled && e.currentItem.Some? && GetAccessItem(registry, e.currentItem.value).Some?
              ==> e.cancelled == !GetAccessItem(registry, e.currentItem.value).value.allowMove
    {
      if !registry.enabled {
        return;
      }
      var item := e.currentItem;
      if item != None {
        var accessItem := GetAccessItem(registry, item.value);
        if accessItem != None {
          e.cancelled := !accessItem.value.allowMove;
        }
      }
    }

    /**
      `onPlayerDropItem`: dropping an access item that may not be dropped cancels the
      drop; one that may be dropped is destroyed when its item says so.
     */
    method OnPlayerDropItem(e: DropEvent)
      modifies e
      ensures var a := GetAccessItem(registry, e.dropped);
        e.cancelled == (old(e.cancelled) || (registry.enabled && a.Some? && !a.value.allowDrop))
      ensures var a := GetAccessItem(registry, e.dropped);
        e.removed == (old(e.removed) || (registry.enabled && a.Some? && a.value.allowDrop && a.value.destroyDropped))
    {
      if !registry.enabled {
        return;
      }
      var accessItem := GetAccessItem(registry, e.dropped);
      if accessItem != None {
        if !accessItem.value.allowDrop {
          e.cancelled := true;
        } else if accessItem.value.destroyDropped {
          e.removed := true;
        }
      }
    }

    /** Lines 107-127 of `onPlayerJoin`: place one access item, moving the occupant within the hotbar if needed. */
    method PlaceOnJoin(inv: PlayerInventory, a: AccessItem) returns (success: bool)
      requires a.slot < inv.contents.Length
      modifies inv.contents
      ensures Placement(inv.contents[..], success) == PlaceAccessItem(old(inv.contents[..]), a)
    {
      var desiredSlot := a.slot;
      var oldItem := inv.contents[desiredSlot];
      success := false;
      if oldItem.None? || oldItem.value.material == Air {
        inv.contents[desiredSlot] := Some(a.stack);
        success := true;
      } else {
        var i := 0;
        while i < 10 && i != desiredSlot
          invariant 0 <= i <= Min(10, desiredSlot)
          invariant inv.contents[..] == old(inv.contents[..])
          invariant FirstEmptyFrom(old(inv.contents[..]), 0, Min(10, desiredSlot))
                 == FirstEmptyFrom(old(inv.contents[..]), i, Min(10, desiredSlot))
        {
          if inv.contents[i].None? || inv.contents[i].value.material == Air {
            inv.contents[i] := oldItem;
            inv.contents[desiredSlot] := Some(a.stack);
            success := true;
            break;
          }
          i := i + 1;
        }
      }
    }

    /** Lines 93-102 of `onPlayerJoin`: every stack carrying an access-item id leaves the inventory. */
    method RemoveAccessItems(inv: PlayerInventory)
      modifies inv.contents
      ensures inv.contents[..] == StripAccessItems(old(inv.contents[..]))
    {
      var snapshot := inv.contents[..];
      var i := 0;
      while i < |snapshot|
        invariant 0 <= i <= |snapshot|
        invariant forall j :: 0 <= j < inv.contents.Length ==>
          inv.contents[j] == if Tagged(snapshot[j]) && snapshot[j] in snapshot[..i] then None else snapshot[j]
      {
        var item := snapshot[i];
        RemovingTaggedStacksStrips(snapshot, inv.contents[..], i);
        if item != None && item.value.accessId != None {
          inv.Remove(item.value);
        }
        i := i + 1;
      }
      assert snapshot[..i] == snapshot;
    }

    /**
      `onPlayerJoin`: remove every stack carrying an access-item id, then place each
      on-join access item and hold the slot of the first one placed. `threw` reports
      that `setHeldItemSlot` rejected that slot, which ends the handler.
     */
    method OnPlayerJoin(inv: PlayerInventory) returns (threw: bool)
      requires SlotsFit(registry.items, inv.contents.Length)
      modifies inv, inv.contents
      ensures var r := OnJoin(registry, old(inv.contents[..]), old(inv.heldSlot));
        inv.contents[..] == r.slots && inv.heldSlot == r.heldSlot && threw == r.aborted
    {
      threw := false;
      if !registry.enabled {
        return;
      }
      RemoveAccessItems(inv);

      var items := registry.items;
      var setHeldSlot := false;
      var n := 0;
      while n < |items|
        invariant 0 <= n <= |items|
        invariant SlotsFit(items[n..], inv.contents.Length)
        invariant PlaceAll(items[n..], inv.contents[..], inv.heldSlot, setHeldSlot)
               == OnJoin(registry, old(inv.contents[..]), old(inv.heldSlot))
      {
        var accessItem := items[n];
        PlaceAllStep(items, n, inv.contents[..], inv.heldSlot, setHeldSlot);
        if accessItem.onJoin {
          var success := PlaceOnJoin(inv, accessItem);
          if success && !setHeldSlot {
            threw := inv.SetHeldItemSlot(accessItem.slot);
            if threw {
              return;
            }
            setHeldSlot := true;
          }
        }
        n := n + 1;
      }
    }
  }
}
