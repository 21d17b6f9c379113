/** Properties of the inventory operations that relate several calls or
    summarise a whole inventory: conservation of stack totals, what happens to
    the set of held items, and the behaviour of a merge of an item with itself. */
module InventoryProperties {
  import opened Outcomes
  import opened Items
  import opened Inventories
  import opened InventoryController

  /** The slots MergeItems reads, when its guards pass. */
  lemma EligibleSlots(inv: Inventory, sourceId: int, targetId: int)
    requires MergeEligible(inv, sourceId, targetId)
    ensures FindSlotById(inv, sourceId).Some? && FindSlotById(inv, targetId).Some?
    ensures FindItemById(inv, sourceId) == At(inv, FindSlotById(inv, sourceId).value)
    ensures FindItemById(inv, targetId) == At(inv, FindSlotById(inv, targetId).value)
  {
  }

  /** Merging two distinct stacks never creates or destroys units: the summed
      quantity of all held items is unchanged, and one slot is freed exactly when
      the merge completes. */
  lemma MergeConservesStackTotal(inv: Inventory, sourceId: int, targetId: int)
    requires MergeEligible(inv, sourceId, targetId) && sourceId != targetId
    ensures StackTotal(Merge(inv, sourceId, targetId).0) == StackTotal(inv)
    ensures TotalItemCount(Merge(inv, sourceId, targetId).0)
            == TotalItemCount(inv) - (if Merge(inv, sourceId, targetId).1 then 1 else 0)
  {
    MergeOutcome(inv, sourceId, targetId);
    EligibleSlots(inv, sourceId, targetId);
    var s := FindSlotById(inv, sourceId).value;
    var t := FindSlotById(inv, targetId).value;
    var r := Merge(inv, sourceId, targetId);
    TwoSlotsWritten(inv, r.0, s, t);
    var inv1 := Put(inv, s, At(r.0, s));
    StackTotalAfterPut(inv, s, At(r.0, s));
    StackTotalAfterPut(inv1, t, At(r.0, t));
    CountAfterPut(inv, s, At(r.0, s));
    CountAfterPut(inv1, t, At(r.0, t));
  }

  /** The slots a merge of a stack with itself leaves behind. */
  lemma MergeSelfSlots(inv: Inventory, id: int)
    requires MergeEligible(inv, id, id)
    ensures var s := FindSlotById(inv, id).value;
            var q := GetQuantity(At(inv, s).value);
            var r := Merge(inv, id, id);
            && (forall u :: ValidSlot(inv, u) && u != s ==> At(r.0, u) == At(inv, u))
            && (2 * q <= StackSize ==> r.1 && At(r.0, s) == None)
            && (2 * q > StackSize ==> !r.1 && At(r.0, s).Some? && GetQuantity(At(r.0, s).value) == 2 * q - StackSize)
  {
    EligibleSlots(inv, id, id);
  }

  /** Merging a stack with itself (one object as both source and target): a
      doubled quantity that fits makes the stack vanish, because the slot is
      emptied after the quantity is written; one that does not fit leaves the
      doubled quantity less a full stack. */
  lemma MergeWithItself(inv: Inventory, id: int)
    requires MergeEligible(inv, id, id)
    ensures var s := FindSlotById(inv, id).value;
            var q := GetQuantity(At(inv, s).value);
            var r := Merge(inv, id, id);
            && (2 * q <= StackSize ==> r == (Put(inv, s, None), true))
            && (2 * q > StackSize ==> !r.1 && r.0 == Put(inv, s, At(r.0, s))
                                      && GetQuantity(At(r.0, s).value) == 2 * q - StackSize)
  {
    MergeSelfSlots(inv, id);
    EligibleSlots(inv, id, id);
    var s := FindSlotById(inv, id).value;
    var r := Merge(inv, id, id);
    SlotsDetermine(r.0, Put(inv, s, At(r.0, s)));
  }

  /** Merging can only free slots, whatever the ids. */
  lemma MergeNeverAddsItems(inv: Inventory, sourceId: int, targetId: int)
    ensures TotalItemCount(Merge(inv, sourceId, targetId).0) <= TotalItemCount(inv)
  {
    if MergeEligible(inv, sourceId, targetId) {
      if sourceId != targetId {
        MergeConservesStackTotal(inv, sourceId, targetId);
      } else {
        MergeWithItself(inv, sourceId);
        EligibleSlots(inv, sourceId, targetId);
        var s := FindSlotById(inv, sourceId).value;
        CountAfterPut(inv, s, At(Merge(inv, sourceId, targetId).0, s));
      }
    }
  }

  /** AddItem with a partial stack to join never puts the new item in a slot:
      the number of occupied slots cannot grow, and when no held item carries
      the new item's id nothing changes and the call returns false. */
  lemma AddToPartialStackNeverPlaces(inv: Inventory, item: Item)
    requires Stackable(item.kind) && FindPartialStackItem(inv, item).Some?
    ensures TotalItemCount(AddTo(inv, item).0) <= TotalItemCount(inv)
    ensures FindItemById(inv, item.id).None? ==> AddTo(inv, item) == (inv, false)
  {
    MergeNeverAddsItems(inv, item.id, FindPartialStackItem(inv, item).value.id);
  }

  /** Placing into an empty slot adds exactly the new item to the held items. */
  lemma AddToEmptySlotAddsItem(inv: Inventory, item: Item)
    requires !(Stackable(item.kind) && FindPartialStackItem(inv, item).Some?)
    requires AddTo(inv, item).1
    ensures multiset(AllItems(AddTo(inv, item).0)) == multiset(AllItems(inv)) + multiset{item}
    ensures TotalItemCount(AddTo(inv, item).0) == TotalItemCount(inv) + 1
  {
    var s := Locate(inv, EmptySlot).value;
    BagAfterPut(inv, s, Some(item));
    CountAfterPut(inv, s, Some(item));
  }

  /** RemoveItem takes exactly one item with that id out of the held items. */
  lemma RemoveFromTakesOneItem(inv: Inventory, id: int)
    requires RemoveFrom(inv, id).1
    ensures exists x :: x in AllItems(inv) && x.id == id
              && multiset(AllItems(RemoveFrom(inv, id).0)) == multiset(AllItems(inv)) - multiset{x}
    ensures TotalItemCount(RemoveFrom(inv, id).0) == TotalItemCount(inv) - 1
  {
    var s := FindSlotById(inv, id).value;
    var x := At(inv, s).value;
    BagAfterPut(inv, s, None);
    CountAfterPut(inv, s, None);
    AllItemsIsOccupiedSlots(inv, x);
    assert x in AllItems(inv);
  }

  lemma SwapBags(m: multiset<Item>, x: multiset<Item>, y: multiset<Item>)
    requires x <= m
    ensures m - x + y - y + x == m
  {
    assert forall e :: (m - x + y - y + x)[e] == m[e];
  }

  /** A move into an empty slot and a swap both keep the multiset of held items. */
  lemma MoveKeepsItems(inv: Inventory, fromHotbar: bool, fromSlot: int, toHotbar: bool, toSlot: int)
    requires ValidSlot(inv, Slot(fromHotbar, fromSlot)) && ValidSlot(inv, Slot(toHotbar, toSlot))
    requires At(inv, Slot(fromHotbar, fromSlot)).Some?
    requires At(inv, Slot(toHotbar, toSlot)).Some? ==>
               !(Stackable(At(inv, Slot(fromHotbar, fromSlot)).value.kind)
                 && Mergeable(At(inv, Slot(fromHotbar, fromSlot)).value, At(inv, Slot(toHotbar, toSlot)).value))
    ensures Move(inv, fromHotbar, fromSlot, toHotbar, toSlot).1
    ensures multiset(AllItems(Move(inv, fromHotbar, fromSlot, toHotbar, toSlot).0)) == multiset(AllItems(inv))
  {
    var from := Slot(fromHotbar, fromSlot);
    var to := Slot(toHotbar, toSlot);
    var r := Move(inv, fromHotbar, fromSlot, toHotbar, toSlot);
    assert At(inv, to).None? ==> At(r.0, from) == At(inv, to);
    ExchangeKeepsItems(inv, r.0, from, to);
  }

  /** Exchanging the contents of two slots (or writing a slot with what it
      already holds) keeps the multiset of held items. */
  lemma ExchangeKeepsItems(inv: Inventory, r: Inventory, from: Slot, to: Slot)
    requires SameShape(inv, r) && ValidSlot(inv, from) && ValidSlot(inv, to)
    requires At(r, to) == At(inv, from) && At(r, from) == At(inv, to)
    requires forall u :: ValidSlot(inv, u) && u != from && u != to ==> At(r, u) == At(inv, u)
    ensures multiset(AllItems(r)) == multiset(AllItems(inv))
  {
    if from == to {
      SlotsDetermine(r, inv);
    } else {
      TwoSlotsWritten(inv, r, from, to);
      var inv1 := Put(inv, from, At(r, from));
      BagAfterPut(inv, from, At(r, from));
      BagAfterPut(inv1, to, At(r, to));
      assert At(inv1, to) == At(inv, to);
      SwapBags(multiset(AllItems(inv)), Bag(At(inv, from)), Bag(At(inv, to)));
    }
  }

}
