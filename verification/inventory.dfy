/** InventoryModel: an owner's hotbar and backpack, each a fixed array of
    optional items, and the slot-level vocabulary the controller works with:
    slot addresses, reads and writes, the hotbar-before-backpack search order,
    occupied-slot counts and the list of held items. */
module Inventories {
  import opened Outcomes
  import opened Items

  const HotbarSize: nat := 6
  const BackpackSize: nat := 18

  datatype Inventory = Inventory(ownerId: int, hotbar: seq<Option<Item>>, backpack: seq<Option<Item>>)

  /** A new InventoryModel: both arrays allocated and every slot null. */
  function NewInventory(ownerId: int): (r: Inventory)
    ensures r.ownerId == ownerId
    ensures |r.hotbar| == HotbarSize && |r.backpack| == BackpackSize
    ensures forall i :: 0 <= i < |r.hotbar| ==> r.hotbar[i].None?
    ensures forall i :: 0 <= i < |r.backpack| ==> r.backpack[i].None?
    ensures TotalItemCount(r) == 0
  {
    var r := Inventory(ownerId, seq(HotbarSize, _ => None), seq(BackpackSize, _ => None));
    NoneCount(r.hotbar);
    NoneCount(r.backpack);
    r
  }

  /** The address of one slot: which array, and the index into it. */
  datatype Slot = Slot(inHotbar: bool, index: int)

  function Row(inv: Inventory, inHotbar: bool): seq<Option<Item>> {
    if inHotbar then inv.hotbar else inv.backpack
  }

  predicate ValidSlot(inv: Inventory, s: Slot) {
    0 <= s.index < |Row(inv, s.inHotbar)|
  }

  function At(inv: Inventory, s: Slot): Option<Item>
    requires ValidSlot(inv, s)
  {
    Row(inv, s.inHotbar)[s.index]
  }

  /** Same owner and same array lengths. */
  predicate SameShape(a: Inventory, b: Inventory) {
    a.ownerId == b.ownerId && |a.hotbar| == |b.hotbar| && |a.backpack| == |b.backpack|
  }

  /** Writes one slot and leaves every other slot as it was. */
  function Put(inv: Inventory, s: Slot, o: Option<Item>): (r: Inventory)
    requires ValidSlot(inv, s)
    ensures SameShape(inv, r)
    ensures At(r, s) == o
    ensures forall t :: ValidSlot(inv, t) && t != s ==> At(r, t) == At(inv, t)
  {
    if s.inHotbar then inv.(hotbar := inv.hotbar[s.index := o])
    else inv.(backpack := inv.backpack[s.index := o])
  }

  /** An inventory is determined by its owner, its shape and its slots. */
  lemma SlotsDetermine(a: Inventory, b: Inventory)
    requires SameShape(a, b)
    requires forall u :: ValidSlot(a, u) ==> At(a, u) == At(b, u)
    ensures a == b
  {
    forall i | 0 <= i < |a.hotbar| ensures a.hotbar[i] == b.hotbar[i] {
      assert ValidSlot(a, Slot(true, i));
    }
    forall i | 0 <= i < |a.backpack| ensures a.backpack[i] == b.backpack[i] {
      assert ValidSlot(a, Slot(false, i));
    }
  }

  /** An inventory that differs from `a` at most in slots `s` and `t` is `a` with
      those two slots written. */
  lemma TwoSlotsWritten(a: Inventory, b: Inventory, s: Slot, t: Slot)
    requires SameShape(a, b) && ValidSlot(a, s) && ValidSlot(a, t) && s != t
    requires forall u :: ValidSlot(a, u) && u != s && u != t ==> At(b, u) == At(a, u)
    ensures b == Put(Put(a, s, At(b, s)), t, At(b, t))
  {
    var c := Put(Put(a, s, At(b, s)), t, At(b, t));
    SlotsDetermine(c, b);
  }

  /** The order in which the controller scans slots: the hotbar from index 0,
      then the backpack from index 0. */
  predicate Before(s: Slot, t: Slot) {
    (s.inHotbar && !t.inHotbar) || (s.inHotbar == t.inHotbar && s.index < t.index)
  }

  /** What a scan is looking for. */
  datatype Query =
    | EmptySlot                  // a null slot
    | ItemWithId(id: int)        // an item with this id
    | PartialStackOf(item: Item) // a stack `item` can join that is below the stack size

  predicate Matches(q: Query, o: Option<Item>) {
    match q
    case EmptySlot => o.None?
    case ItemWithId(id) => o.Some? && o.value.id == id
    case PartialStackOf(item) => o.Some? && Mergeable(o.value, item) && GetQuantity(o.value) < StackSize
  }

  /** `s` is the first slot in scan order that matches `q`. */
  ghost predicate IsFirst(inv: Inventory, q: Query, s: Slot) {
    && ValidSlot(inv, s)
    && Matches(q, At(inv, s))
    && forall t :: ValidSlot(inv, t) && Before(t, s) ==> !Matches(q, At(inv, t))
  }

  ghost predicate NoMatch(inv: Inventory, q: Query) {
    forall t :: ValidSlot(inv, t) ==> !Matches(q, At(inv, t))
  }

  /** First index at or after `from` whose slot matches `q` (LINQ FirstOrDefault). */
  function FirstIn(a: seq<Option<Item>>, q: Query, from: nat): (r: Option<nat>)
    requires from <= |a|
    ensures r.Some? ==> from <= r.value < |a| && Matches(q, a[r.value])
    ensures r.Some? ==> forall j :: from <= j < r.value ==> !Matches(q, a[j])
    ensures r.None? ==> forall j :: from <= j < |a| ==> !Matches(q, a[j])
    decreases |a| - from
  {
    if from == |a| then None
    else if Matches(q, a[from]) then Some(from)
    else FirstIn(a, q, from + 1)
  }

  /** Scans the hotbar, then the backpack, for the first slot matching `q`. */
  function Locate(inv: Inventory, q: Query): (r: Option<Slot>)
    ensures r.Some? ==> IsFirst(inv, q, r.value)
    ensures r.None? ==> NoMatch(inv, q)
  {
    match FirstIn(inv.hotbar, q, 0)
    case Some(i) => Some(Slot(true, i))
    case None =>
      match FirstIn(inv.backpack, q, 0)
      case Some(j) => Some(Slot(false, j))
      case None => None
  }

  /** The scan finds exactly the first matching slot. */
  lemma LocateIsFirst(inv: Inventory, q: Query, s: Slot)
    requires IsFirst(inv, q, s)
    ensures Locate(inv, q) == Some(s)
  {
    var r := Locate(inv, q);
    assert Matches(q, At(inv, s));
    assert r.Some?;
    var t := r.value;
    assert t == s || Before(t, s) || Before(s, t);
  }

  /** Two inventories whose slots answer `q` alike give the same scan result. */
  lemma LocateAgrees(a: Inventory, b: Inventory, q: Query)
    requires SameShape(a, b)
    requires forall t :: ValidSlot(a, t) ==> Matches(q, At(a, t)) == Matches(q, At(b, t))
    ensures Locate(a, q) == Locate(b, q)
  {
    assert forall t :: ValidSlot(a, t) <==> ValidSlot(b, t);
    match Locate(a, q)
    case Some(s) =>
      LocateIsFirst(b, q, s);
    case None =>
      assert NoMatch(b, q) by {
        forall t | ValidSlot(b, t) ensures !Matches(q, At(b, t)) {
          assert ValidSlot(a, t);
        }
      }
  }

  /** The slot FindItemById reads: the first one holding an item with this id. */
  function FindSlotById(inv: Inventory, id: int): (r: Option<Slot>)
    ensures r.Some? ==> IsFirst(inv, ItemWithId(id), r.value)
    ensures r.None? ==> NoMatch(inv, ItemWithId(id))
  {
    Locate(inv, ItemWithId(id))
  }

  /** FindItemById. */
  function FindItemById(inv: Inventory, id: int): (r: Option<Item>)
    ensures r.Some? ==> r.value.id == id
    ensures r.None? <==> NoMatch(inv, ItemWithId(id))
  {
    match FindSlotById(inv, id)
    case Some(s) => At(inv, s)
    case None => None
  }

  /** Overwriting an occupied slot with an item of the same id does not change
      where any id is found. */
  lemma FindSlotAfterSameIdPut(inv: Inventory, s: Slot, x: Item, id: int)
    requires ValidSlot(inv, s) && At(inv, s).Some? && At(inv, s).value.id == x.id
    ensures FindSlotById(Put(inv, s, Some(x)), id) == FindSlotById(inv, id)
  {
    LocateAgrees(inv, Put(inv, s, Some(x)), ItemWithId(id));
  }

  /** Number of non-null entries of one array. */
  function Occupied(a: seq<Option<Item>>): (r: nat)
    ensures r <= |a|
  {
    if |a| == 0 then 0 else (if a[0].Some? then 1 else 0) + Occupied(a[1..])
  }

  lemma {:induction false} NoneCount(a: seq<Option<Item>>)
    requires forall i :: 0 <= i < |a| ==> a[i].None?
    ensures Occupied(a) == 0
  {
    if |a| > 0 {
      NoneCount(a[1..]);
    }
  }

  /** InventoryModel.TotalItemCount. */
  function TotalItemCount(inv: Inventory): (r: nat)
    ensures r <= |inv.hotbar| + |inv.backpack|
  {
    Occupied(inv.hotbar) + Occupied(inv.backpack)
  }

  /** InventoryModel.IsSlotEmpty; the index must lie inside the chosen array. */
  function IsSlotEmpty(inv: Inventory, inHotbar: bool, index: int): (r: bool)
    requires 0 <= index < |Row(inv, inHotbar)|
    ensures r <==> Matches(EmptySlot, At(inv, Slot(inHotbar, index)))
    ensures !r ==> TotalItemCount(inv) > 0
  {
    if Row(inv, inHotbar)[index] == None then true
    else
      OccupiedPositive(Row(inv, inHotbar), index);
      false
  }

  lemma {:induction false} OccupiedPositive(a: seq<Option<Item>>, i: nat)
    requires i < |a| && a[i].Some?
    ensures Occupied(a) > 0
  {
    if i > 0 {
      OccupiedPositive(a[1..], i - 1);
    }
  }

  /** The non-null entries of one array, in order. */
  function HeldItems(a: seq<Option<Item>>): seq<Item> {
    if |a| == 0 then [] else Unwrap(a[0]) + HeldItems(a[1..])
  }

  /** GetAllItems: the hotbar's items in order, then the backpack's. */
  function AllItems(inv: Inventory): (r: seq<Item>)
    ensures |r| == TotalItemCount(inv)
  {
    ItemsLength(inv.hotbar);
    ItemsLength(inv.backpack);
    HeldItems(inv.hotbar) + HeldItems(inv.backpack)
  }

  /** HeldItems keeps slot order: it distributes over concatenation, drops a
      null slot and keeps an occupied one. */
  lemma {:induction false} HeldItemsInOrder(a: seq<Option<Item>>, b: seq<Option<Item>>, x: Item)
    ensures HeldItems(a + b) == HeldItems(a) + HeldItems(b)
    ensures HeldItems([None]) == [] && HeldItems([Some(x)]) == [x]
    decreases |a|
  {
    var none: seq<Option<Item>>, some: seq<Option<Item>> := [None], [Some(x)];
    assert none[1..] == [] && some[1..] == [];
    if |a| == 0 {
      assert a + b == b;
    } else {
      assert (a + b)[1..] == a[1..] + b;
      HeldItemsInOrder(a[1..], b, x);
    }
  }

  function Bag(o: Option<Item>): multiset<Item> {
    match o
    case None => multiset{}
    case Some(x) => multiset{x}
  }

  function Unwrap(o: Option<Item>): (r: seq<Item>)
    ensures multiset(r) == Bag(o)
  {
    match o
    case None => []
    case Some(x) => [x]
  }

  lemma {:induction false} ItemsLength(a: seq<Option<Item>>)
    ensures |HeldItems(a)| == Occupied(a)
  {
    if |a| > 0 {
      ItemsLength(a[1..]);
    }
  }

  lemma {:induction false} ItemsMembership(a: seq<Option<Item>>, x: Item)
    ensures x in HeldItems(a) <==> Some(x) in a
  {
    if |a| > 0 {
      ItemsMembership(a[1..], x);
      assert x in HeldItems(a) <==> x in Unwrap(a[0]) || x in HeldItems(a[1..]) by {
        assert HeldItems(a) == Unwrap(a[0]) + HeldItems(a[1..]);
      }
      assert Some(x) in a <==> a[0] == Some(x) || Some(x) in a[1..] by {
        assert a == [a[0]] + a[1..];
      }
    }
  }

  /** GetAllItems has one entry per occupied slot, and holds exactly the items
      found in some slot. */
  lemma AllItemsIsOccupiedSlots(inv: Inventory, x: Item)
    ensures |AllItems(inv)| == TotalItemCount(inv)
    ensures x in AllItems(inv) <==> exists s :: ValidSlot(inv, s) && At(inv, s) == Some(x)
  {
    assert |AllItems(inv)| == TotalItemCount(inv) by {
      ItemsLength(inv.hotbar);
      ItemsLength(inv.backpack);
    }
    assert x in AllItems(inv) <==> Some(x) in inv.hotbar || Some(x) in inv.backpack by {
      ItemsMembership(inv.hotbar, x);
      ItemsMembership(inv.backpack, x);
    }
    if exists s :: ValidSlot(inv, s) && At(inv, s) == Some(x) {
      var s :| ValidSlot(inv, s) && At(inv, s) == Some(x);
      assert Row(inv, s.inHotbar)[s.index] == Some(x);
    }
    if Some(x) in inv.hotbar {
      var i :| 0 <= i < |inv.hotbar| && inv.hotbar[i] == Some(x);
      assert ValidSlot(inv, Slot(true, i)) && At(inv, Slot(true, i)) == Some(x);
    }
    if Some(x) in inv.backpack {
      var i :| 0 <= i < |inv.backpack| && inv.backpack[i] == Some(x);
      assert ValidSlot(inv, Slot(false, i)) && At(inv, Slot(false, i)) == Some(x);
    }
  }


  lemma HeldItemsCons(a: seq<Option<Item>>)
    requires |a| > 0
    ensures multiset(HeldItems(a)) == Bag(a[0]) + multiset(HeldItems(a[1..]))
  {
    assert HeldItems(a) == Unwrap(a[0]) + HeldItems(a[1..]);
  }

  lemma {:induction false} ItemsUpdate(a: seq<Option<Item>>, i: nat, o: Option<Item>)
    requires i < |a|
    ensures Bag(a[i]) <= multiset(HeldItems(a))
    ensures multiset(HeldItems(a[i := o])) == multiset(HeldItems(a)) - Bag(a[i]) + Bag(o)
  {
    var a' := a[i := o];
    var tail := multiset(HeldItems(a[1..]));
    HeldItemsCons(a);
    HeldItemsCons(a');
    if i == 0 {
      assert a'[1..] == a[1..];
      ReplaceHead(Bag(a[0]), tail, Bag(o));
    } else {
      assert a'[1..] == a[1..][i - 1 := o];
      ItemsUpdate(a[1..], i - 1, o);
      assert a'[0] == a[0] && a[1..][i - 1] == a[i];
      ReplaceInUnion(tail, Bag(a[0]), Bag(a[i]), Bag(o));
    }
  }

  lemma ReplaceHead(x: multiset<Item>, m: multiset<Item>, o: multiset<Item>)
    ensures x <= x + m
    ensures o + m == x + m - x + o
  {
    assert forall e :: (o + m)[e] == (x + m - x + o)[e];
  }

  lemma ReplaceInUnion(h: multiset<Item>, b: multiset<Item>, x: multiset<Item>, o: multiset<Item>)
    requires x <= h
    ensures (h - x + o) + b == h + b - x + o
    ensures b + (h - x + o) == b + h - x + o
  {
    assert forall e :: (h - x + o + b)[e] == (h + b - x + o)[e];
    assert forall e :: (b + (h - x + o))[e] == (b + h - x + o)[e];
  }

  /** Writing one slot replaces that slot's item in the multiset of held items. */
  lemma BagAfterPut(inv: Inventory, s: Slot, o: Option<Item>)
    requires ValidSlot(inv, s)
    ensures Bag(At(inv, s)) <= multiset(AllItems(inv))
    ensures multiset(AllItems(Put(inv, s, o))) == multiset(AllItems(inv)) - Bag(At(inv, s)) + Bag(o)
  {
    var p := Put(inv, s, o);
    var h := multiset(HeldItems(inv.hotbar));
    var b := multiset(HeldItems(inv.backpack));
    assert multiset(AllItems(inv)) == h + b;
    assert multiset(AllItems(p)) == multiset(HeldItems(p.hotbar)) + multiset(HeldItems(p.backpack));
    if s.inHotbar {
      assert p.hotbar == inv.hotbar[s.index := o] && p.backpack == inv.backpack;
      ItemsUpdate(inv.hotbar, s.index, o);
      ReplaceInUnion(h, b, Bag(At(inv, s)), Bag(o));
    } else {
      assert p.backpack == inv.backpack[s.index := o] && p.hotbar == inv.hotbar;
      ItemsUpdate(inv.backpack, s.index, o);
      ReplaceInUnion(b, h, Bag(At(inv, s)), Bag(o));
    }
  }

  /** Quantity held in one slot (0 for a null slot). */
  function SlotQuantity(o: Option<Item>): int {
    match o
    case None => 0
    case Some(x) => GetQuantity(x)
  }

  function RowQuantity(a: seq<Option<Item>>): int {
    if |a| == 0 then 0 else SlotQuantity(a[0]) + RowQuantity(a[1..])
  }

  /** Sum of GetItemQuantity over every held item. */
  function StackTotal(inv: Inventory): int {
    RowQuantity(inv.hotbar) + RowQuantity(inv.backpack)
  }

  lemma {:induction false} RowQuantityUpdate(a: seq<Option<Item>>, i: nat, o: Option<Item>)
    requires i < |a|
    ensures RowQuantity(a[i := o]) == RowQuantity(a) - SlotQuantity(a[i]) + SlotQuantity(o)
  {
    if i == 0 {
      assert a[i := o][1..] == a[1..];
    } else {
      assert a[i := o][1..] == a[1..][i - 1 := o];
      RowQuantityUpdate(a[1..], i - 1, o);
    }
  }

  lemma StackTotalAfterPut(inv: Inventory, s: Slot, o: Option<Item>)
    requires ValidSlot(inv, s)
    ensures StackTotal(Put(inv, s, o)) == StackTotal(inv) - SlotQuantity(At(inv, s)) + SlotQuantity(o)
  {
    if s.inHotbar {
      RowQuantityUpdate(inv.hotbar, s.index, o);
    } else {
      RowQuantityUpdate(inv.backpack, s.index, o);
    }
  }

  lemma {:induction false} OccupiedUpdate(a: seq<Option<Item>>, i: nat, o: Option<Item>)
    requires i < |a|
    ensures Occupied(a[i := o]) == Occupied(a) - |Bag(a[i])| + |Bag(o)|
  {
    if i == 0 {
      assert a[i := o][1..] == a[1..];
    } else {
      assert a[i := o][1..] == a[1..][i - 1 := o];
      OccupiedUpdate(a[1..], i - 1, o);
    }
  }

  lemma CountAfterPut(inv: Inventory, s: Slot, o: Option<Item>)
    requires ValidSlot(inv, s)
    ensures TotalItemCount(Put(inv, s, o)) == TotalItemCount(inv) - |Bag(At(inv, s))| + |Bag(o)|
  {
    if s.inHotbar {
      OccupiedUpdate(inv.hotbar, s.index, o);
    } else {
      OccupiedUpdate(inv.backpack, s.index, o);
    }
  }

  /** The item types of a list, in order. */
  function KindsOf(items: seq<Item>): (r: seq<ItemType>)
    ensures |r| == |items|
    ensures forall i :: 0 <= i < |items| ==> r[i] == items[i].kind
  {
    seq(|items|, i requires 0 <= i < |items| => items[i].kind)
  }

  /** CountItemsByType over a list of items: how many of the listed items have
      type `t`, i.e. the multiplicity of `t` among their types. */
  function CountOfType(items: seq<Item>, t: ItemType): (r: nat)
    ensures r == multiset(KindsOf(items))[t]
    ensures r <= |items|
  {
    if |items| == 0 then 0
    else
      assert KindsOf(items) == [items[0].kind] + KindsOf(items[1..]);
      (if items[0].kind == t then 1 else 0) + CountOfType(items[1..], t)
  }
}
