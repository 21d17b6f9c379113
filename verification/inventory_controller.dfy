/** InventoryController: the per-owner inventory registry and the item
    operations on it. Each operation is split into a function on one inventory
    (returning the new inventory and the C# return value) and a controller-level
    wrapper that looks the owner up and throws for an unknown one. */
module InventoryController {
  import opened Outcomes
  import opened Items
  import opened Inventories

  function Min(a: int, b: int): int {
    if a <= b then a else b
  }

  // ---------------------------------------------------------------------------
  // Operations on one inventory
  // ---------------------------------------------------------------------------

  /** FindPartialStackItem: the first stack (hotbar before backpack) the item can
      join and that is below the stack size. */
  function FindPartialStackItem(inv: Inventory, item: Item): (r: Option<Item>)
    ensures r.Some? ==> Mergeable(r.value, item) && GetQuantity(r.value) < StackSize
    ensures r.Some? ==> exists s :: IsFirst(inv, PartialStackOf(item), s) && At(inv, s) == r
    ensures r.None? <==> NoMatch(inv, PartialStackOf(item))
  {
    match Locate(inv, PartialStackOf(item))
    case Some(s) => At(inv, s)
    case None => None
  }

  /** RemoveItem on one inventory: empties the first slot holding an item with
      this id. */
  function RemoveFrom(inv: Inventory, id: int): (r: (Inventory, bool))
    ensures SameShape(inv, r.0)
    ensures r.1 <==> !NoMatch(inv, ItemWithId(id))
    ensures !r.1 ==> r.0 == inv
    ensures r.1 ==> exists s :: IsFirst(inv, ItemWithId(id), s) && r.0 == Put(inv, s, None)
  {
    match FindSlotById(inv, id)
    case Some(s) => (Put(inv, s, None), true)
    case None => (inv, false)
  }

  /** The guards of MergeItems: both ids present, the source of a stackable type,
      and the two items mergeable. */
  predicate MergeEligible(inv: Inventory, sourceId: int, targetId: int) {
    && FindItemById(inv, sourceId).Some?
    && FindItemById(inv, targetId).Some?
    && Stackable(FindItemById(inv, sourceId).value.kind)
    && Mergeable(FindItemById(inv, sourceId).value, FindItemById(inv, targetId).value)
  }

  function CombinedQuantity(inv: Inventory, sourceId: int, targetId: int): int
    requires MergeEligible(inv, sourceId, targetId)
  {
    GetQuantity(FindItemById(inv, sourceId).value) + GetQuantity(FindItemById(inv, targetId).value)
  }

  /** The over-full branch of MergeItems: the target is set to a full stack,
      then the (re-read) source slot is set to the remainder. */
  function SplitOverflow(inv: Inventory, s: Slot, t: Slot, total: int): (r: Inventory)
    requires ValidSlot(inv, s) && ValidSlot(inv, t) && At(inv, s).Some? && At(inv, t).Some?
    ensures SameShape(inv, r)
    ensures forall u :: ValidSlot(inv, u) && u != s && u != t ==> At(r, u) == At(inv, u)
    ensures At(r, s).Some? && At(r, t).Some?
    ensures GetQuantity(At(r, s).value) == total - StackSize
    ensures s != t ==> GetQuantity(At(r, t).value) == StackSize
    ensures At(r, s).value.(attributes := At(inv, s).value.attributes) == At(inv, s).value
    ensures At(r, t).value.(attributes := At(inv, t).value.attributes) == At(inv, t).value
  {
    var inv1 := Put(inv, t, Some(SetQuantity(At(inv, t).value, StackSize)));
    Put(inv1, s, Some(SetQuantity(At(inv1, s).value, total - StackSize)))
  }

  /** The completing branch of MergeItems: the regrouped target takes the whole
      quantity, then RemoveItem(sourceId) empties the source's slot, which is `s`
      because writing an item with the same id leaves `s` first. */
  function Combine(inv: Inventory, s: Slot, t: Slot, sourceId: int, total: int): (r: Inventory)
    requires IsFirst(inv, ItemWithId(sourceId), s)
    requires ValidSlot(inv, t) && At(inv, t).Some?
    ensures var inv1 := Put(inv, t, Some(SetQuantity(MergeCharacteristics(At(inv, s).value, At(inv, t).value), total)));
            r == RemoveFrom(inv1, sourceId).0
  {
    var merged := SetQuantity(MergeCharacteristics(At(inv, s).value, At(inv, t).value), total);
    var inv1 := Put(inv, t, Some(merged));
    FindSlotAfterSameIdPut(inv, t, merged, sourceId);
    LocateIsFirst(inv, ItemWithId(sourceId), s);
    Put(inv1, s, None)
  }

  /** MergeItems once both items have been found: `s` is the first slot holding
      the source's id and `t` a slot holding the target. */
  function MergeSlots(inv: Inventory, s: Slot, t: Slot, sourceId: int): (r: (Inventory, bool))
    requires IsFirst(inv, ItemWithId(sourceId), s)
    requires ValidSlot(inv, t) && At(inv, t).Some?
    ensures SameShape(inv, r.0)
    ensures var source, target := At(inv, s).value, At(inv, t).value;
            && (!Stackable(source.kind) || !Mergeable(source, target) ==> r == (inv, false))
            && (r.1 <==> Stackable(source.kind) && Mergeable(source, target)
                         && GetQuantity(source) + GetQuantity(target) <= StackSize)
  {
    var source := At(inv, s).value;
    var target := At(inv, t).value;
    if !Stackable(source.kind) || !Mergeable(source, target) then (inv, false)
    else
      var total := GetQuantity(source) + GetQuantity(target);
      if total > StackSize then (SplitOverflow(inv, s, t, total), false)
      else (Combine(inv, s, t, sourceId, total), true)
  }

  /** MergeItems on one inventory. The two items are written back slot by slot in
      the order the C# code mutates them, so that a source and target sharing an
      id (the same object in C#) see each other's updates. */
  function Merge(inv: Inventory, sourceId: int, targetId: int): (r: (Inventory, bool))
    ensures SameShape(inv, r.0)
    ensures !MergeEligible(inv, sourceId, targetId) ==> r == (inv, false)
    ensures MergeEligible(inv, sourceId, targetId) ==>
              (r.1 <==> CombinedQuantity(inv, sourceId, targetId) <= StackSize)
  {
    match (FindSlotById(inv, sourceId), FindSlotById(inv, targetId))
    case (Some(s), Some(t)) => MergeSlots(inv, s, t, sourceId)
    case _ => (inv, false)
  }

  /** What MergeItems does to two distinct stacks: an over-full total leaves a
      full target and the remainder in the source; otherwise the target takes the
      whole total and the source's slot is emptied. No other slot changes. */
  lemma MergeOutcome(inv: Inventory, sourceId: int, targetId: int)
    requires MergeEligible(inv, sourceId, targetId) && sourceId != targetId
    ensures var r := Merge(inv, sourceId, targetId);
            var s := FindSlotById(inv, sourceId).value;
            var t := FindSlotById(inv, targetId).value;
            var total := CombinedQuantity(inv, sourceId, targetId);
            && s != t
            && (forall u :: ValidSlot(inv, u) && u != s && u != t ==> At(r.0, u) == At(inv, u))
            && At(r.0, t).Some?
            && At(r.0, t).value.(attributes := At(inv, t).value.attributes) == At(inv, t).value
            && (total > StackSize ==>
                  && !r.1
                  && GetQuantity(At(r.0, t).value) == StackSize
                  && At(r.0, s).Some?
                  && At(r.0, s).value.(attributes := At(inv, s).value.attributes) == At(inv, s).value
                  && GetQuantity(At(r.0, s).value) + GetQuantity(At(r.0, t).value) == total)
            && (total <= StackSize ==>
                  && r.1
                  && GetQuantity(At(r.0, t).value) == total
                  && At(r.0, s) == None)
  {
  }

  /** AddItem on one inventory. A stackable item with a partial stack to join is
      handed to Merge under its own id (so it is merged only if an item with that
      id is already held); otherwise it goes into the first empty slot. */
  function AddTo(inv: Inventory, item: Item): (r: (Inventory, bool))
    ensures SameShape(inv, r.0)
    ensures Stackable(item.kind) && FindPartialStackItem(inv, item).Some? ==>
              r == Merge(inv, item.id, FindPartialStackItem(inv, item).value.id)
    ensures !(Stackable(item.kind) && FindPartialStackItem(inv, item).Some?) ==>
              && (r.1 <==> !NoMatch(inv, EmptySlot))
              && (!r.1 ==> r.0 == inv)
              && (r.1 ==> exists s :: IsFirst(inv, EmptySlot, s) && r.0 == Put(inv, s, Some(item)))
  {
    if Stackable(item.kind) && FindPartialStackItem(inv, item).Some? then
      Merge(inv, item.id, FindPartialStackItem(inv, item).value.id)
    else
      match Locate(inv, EmptySlot)
      case Some(s) => (Put(inv, s, Some(item)), true)
      case None => (inv, false)
  }

  /** MoveItem on one inventory. */
  function Move(inv: Inventory, fromHotbar: bool, fromSlot: int, toHotbar: bool, toSlot: int): (r: (Inventory, bool))
    ensures SameShape(inv, r.0)
    ensures var from := Slot(fromHotbar, fromSlot);
            var to := Slot(toHotbar, toSlot);
            && (!ValidSlot(inv, from) || !ValidSlot(inv, to) ==> r == (inv, false))
            && (ValidSlot(inv, from) && ValidSlot(inv, to) ==>
                  && (At(inv, from).None? ==> r == (inv, false))
                  && (At(inv, from).Some? && At(inv, to).None? ==>
                        && r.1
                        && At(r.0, to) == At(inv, from)
                        && At(r.0, from) == None
                        && forall u :: ValidSlot(inv, u) && u != from && u != to ==> At(r.0, u) == At(inv, u))
                  && (At(inv, from).Some? && At(inv, to).Some? ==>
                        var source := At(inv, from).value;
                        var target := At(inv, to).value;
                        && (Stackable(source.kind) && Mergeable(source, target) ==>
                              r == Merge(inv, source.id, target.id))
                        && (!(Stackable(source.kind) && Mergeable(source, target)) ==>
                              && r.1
                              && At(r.0, to) == At(inv, from)
                              && At(r.0, from) == At(inv, to)
                              && forall u :: ValidSlot(inv, u) && u != from && u != to ==> At(r.0, u) == At(inv, u))))
  {
    var from := Slot(fromHotbar, fromSlot);
    var to := Slot(toHotbar, toSlot);
    if !ValidSlot(inv, from) || !ValidSlot(inv, to) then (inv, false)
    else if At(inv, from).None? then (inv, false)
    else
      var source := At(inv, from).value;
      if At(inv, to).Some? then
        var target := At(inv, to).value;
        if Stackable(source.kind) && Mergeable(source, target) then Merge(inv, source.id, target.id)
        else (Put(Put(inv, to, Some(source)), from, Some(target)), true)
      else (Put(Put(inv, to, Some(source)), from, None), true)
  }

  /** ExtractItemFromStack on one inventory. A stack of one or fewer is removed
      and returned. A larger stack is copied through the ItemModel constructor,
      which fails on the copy's non-empty attribute list. */
  function ExtractFrom(inv: Inventory, id: int): (r: (Inventory, Result<Option<Item>>))
    ensures SameShape(inv, r.0)
    ensures FindItemById(inv, id).None? ==> r == (inv, Ok(None))
    ensures FindItemById(inv, id).Some? && !Stackable(FindItemById(inv, id).value.kind) ==> r == (inv, Ok(None))
    ensures FindItemById(inv, id).Some? && Stackable(FindItemById(inv, id).value.kind) ==>
              var stack := FindItemById(inv, id).value;
              && (GetQuantity(stack) <= 1 ==> r == (RemoveFrom(inv, id).0, Ok(Some(stack))))
              && (GetQuantity(stack) > 1 ==> r == (inv, Throw(NullReference)))
  {
    match FindSlotById(inv, id)
    case None => (inv, Ok(None))
    case Some(s) =>
      var stack := At(inv, s).value;
      if !Stackable(stack.kind) then (inv, Ok(None))
      else
        var current := GetQuantity(stack);
        if current <= 1 then (RemoveFrom(inv, id).0, Ok(Some(stack)))
        else
          match NewItem(stack.id, stack.name, stack.description, stack.rarity, stack.kind, stack.attributes)
          case Throw(e) => (inv, Throw(e))
          case Ok(_) =>
            // A quantity above 1 comes from a quantity attribute, so the copied
            // list is non-empty and the constructor never succeeds here.
            assert false; (inv, Ok(None))
  }

  /** CreateItemStack: copies a stackable item through the ItemModel constructor
      and gives the copy a quantity attribute capped at the stack size. */
  function CreateItemStack(base: Item, quantity: int): (r: Result<Item>)
    ensures r == Throw(InvalidOperation) <==> !Stackable(base.kind)
    ensures r.Ok? <==> Stackable(base.kind) && base.attributes == Some([])
    ensures r.Throw? && Stackable(base.kind) ==> r.error == NullReference
    ensures r.Ok? ==>
              && r.value.id == base.id && r.value.name == base.name
              && r.value.description == base.description && r.value.kind == base.kind
              && r.value.rarity == DefaultRarity
              && r.value.attributes == Some([Attribute(Quantity, Min(quantity, StackSize))])
              && GetQuantity(r.value) <= StackSize
  {
    if !Stackable(base.kind) then Throw(InvalidOperation)
    else
      var capped := Min(quantity, StackSize);
      match NewItem(base.id, base.name, base.description, base.rarity, base.kind, base.attributes)
      case Throw(e) => Throw(e)
      case Ok(stack) =>
        var r := SetQuantity(stack, capped);
        assert WithQuantity([], capped) == [Attribute(Quantity, capped)];
        Ok(r)
  }

  // ---------------------------------------------------------------------------
  // The controller: owner id -> inventory
  // ---------------------------------------------------------------------------

  datatype Controller = Controller(inventories: map<int, Inventory>)

  /** The state after a call, and what the call returned or threw. */
  datatype Step<T> = Step(state: Controller, result: Result<T>)

  /** The call threw InvalidOperation and changed nothing. */
  predicate Refused<T(==)>(c: Controller, r: Step<T>) {
    r.state == c && r.result == Throw(InvalidOperation)
  }

  /** The call replaced `owner`'s inventory by `inv`, touched no other owner, and returned `v`. */
  predicate Committed<T(==)>(c: Controller, owner: int, r: Step<T>, inv: Inventory, v: T) {
    && r.state.inventories.Keys == c.inventories.Keys
    && r.state.inventories == c.inventories[owner := inv]
    && r.result == Ok(v)
  }

  function EmptyController(): Controller {
    Controller(map[])
  }

  /** CreateInventory: registers a fresh inventory, refusing an owner that already has one. */
  function CreateInventory(c: Controller, owner: int): (r: Step<Inventory>)
    ensures owner in c.inventories ==> Refused(c, r)
    ensures owner !in c.inventories ==>
              && r.state.inventories == c.inventories[owner := NewInventory(owner)]
              && r.result == Ok(NewInventory(owner))
              && TotalItemCount(r.result.value) == 0
  {
    if owner in c.inventories then Step(c, Throw(InvalidOperation))
    else Step(Controller(c.inventories[owner := NewInventory(owner)]), Ok(NewInventory(owner)))
  }

  function AddItem(c: Controller, owner: int, item: Item): (r: Step<bool>)
    ensures owner !in c.inventories ==> Refused(c, r)
    ensures owner in c.inventories ==>
              var a := AddTo(c.inventories[owner], item); Committed(c, owner, r, a.0, a.1)
  {
    if owner !in c.inventories then Step(c, Throw(InvalidOperation))
    else
      var a := AddTo(c.inventories[owner], item);
      Step(Controller(c.inventories[owner := a.0]), Ok(a.1))
  }

  function RemoveItem(c: Controller, owner: int, id: int): (r: Step<bool>)
    ensures owner !in c.inventories ==> Refused(c, r)
    ensures owner in c.inventories ==>
              var a := RemoveFrom(c.inventories[owner], id); Committed(c, owner, r, a.0, a.1)
  {
    if owner !in c.inventories then Step(c, Throw(InvalidOperation))
    else
      var a := RemoveFrom(c.inventories[owner], id);
      Step(Controller(c.inventories[owner := a.0]), Ok(a.1))
  }

  function MoveItem(c: Controller, owner: int, fromHotbar: bool, fromSlot: int, toHotbar: bool, toSlot: int): (r: Step<bool>)
    ensures owner !in c.inventories ==> Refused(c, r)
    ensures owner in c.inventories ==>
              var a := Move(c.inventories[owner], fromHotbar, fromSlot, toHotbar, toSlot);
              Committed(c, owner, r, a.0, a.1)
  {
    if owner !in c.inventories then Step(c, Throw(InvalidOperation))
    else
      var a := Move(c.inventories[owner], fromHotbar, fromSlot, toHotbar, toSlot);
      Step(Controller(c.inventories[owner := a.0]), Ok(a.1))
  }

  function MergeItems(c: Controller, owner: int, sourceId: int, targetId: int): (r: Step<bool>)
    ensures owner !in c.inventories ==> Refused(c, r)
    ensures owner in c.inventories ==>
              var a := Merge(c.inventories[owner], sourceId, targetId); Committed(c, owner, r, a.0, a.1)
  {
    if owner !in c.inventories then Step(c, Throw(InvalidOperation))
    else
      var a := Merge(c.inventories[owner], sourceId, targetId);
      Step(Controller(c.inventories[owner := a.0]), Ok(a.1))
  }

  function GetAllItems(c: Controller, owner: int): (r: Step<seq<Item>>)
    ensures r.state == c
    ensures owner !in c.inventories ==> Refused(c, r)
    ensures owner in c.inventories ==>
              && r.result == Ok(AllItems(c.inventories[owner]))
              && |r.result.value| == TotalItemCount(c.inventories[owner])
  {
    if owner !in c.inventories then Step(c, Throw(InvalidOperation))
    else
      AllItemsIsOccupiedSlots(c.inventories[owner], Item(0, [], [], DefaultRarity, Consumables, None));
      Step(c, Ok(AllItems(c.inventories[owner])))
  }

  function CountItemsByType(c: Controller, owner: int, t: ItemType): (r: Step<nat>)
    ensures r.state == c
    ensures owner !in c.inventories ==> Refused(c, r)
    ensures owner in c.inventories ==>
              && r.result == Ok(CountOfType(AllItems(c.inventories[owner]), t))
              && r.result.value == multiset(KindsOf(AllItems(c.inventories[owner])))[t]
              && r.result.value <= TotalItemCount(c.inventories[owner])
  {
    match GetAllItems(c, owner).result
    case Throw(e) => Step(c, Throw(e))
    case Ok(items) => Step(c, Ok(CountOfType(items, t)))
  }

  function ExtractItemFromStack(c: Controller, owner: int, id: int): (r: Step<Option<Item>>)
    ensures owner !in c.inventories ==> Refused(c, r)
    ensures owner in c.inventories ==>
              var a := ExtractFrom(c.inventories[owner], id);
              && (a.1.Throw? ==> r.state == c && r.result == a.1)
              && (a.1.Ok? ==> Committed(c, owner, r, a.0, a.1.value))
  {
    if owner !in c.inventories then Step(c, Throw(InvalidOperation))
    else
      var a := ExtractFrom(c.inventories[owner], id);
      match a.1
      case Throw(e) => Step(c, Throw(e))
      case Ok(v) => Step(Controller(c.inventories[owner := a.0]), Ok(v))
  }
}
