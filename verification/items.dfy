/** Items and their attribute lists (ItemModel, AttributeModel), together with the
    item-level helpers of the inventory controller: quantity lookup and update,
    mergeability and the regrouping of attributes. */
module Items {
  import opened Outcomes

  /** Maximum number of units held by one stack (InventoryController.STACK_SIZE). */
  const StackSize: int := 16

  /** Item categories. Only the two stackable ones are named in the modelled code;
      every other enum member is represented by its ordinal. */
  datatype ItemType = Consumables | Deployable | OtherType(ordinal: int)

  /** Attribute kinds. The modelled code only ever names the quantity kind
      (spelled `Quanity` in the enum); the others are represented by their ordinal. */
  datatype AttributeType = Quantity | OtherAttribute(ordinal: int)

  /** Rarity is an enum whose members are not used by the modelled code. */
  datatype Rarity = Rarity(ordinal: int)

  /** The value an enum-typed property holds when it is never assigned. */
  const DefaultRarity: Rarity := Rarity(0)

  datatype Attribute = Attribute(kind: AttributeType, value: int)

  /** An item; `attributes == None` is a null attribute list. */
  datatype Item = Item(
    id: int,
    name: string,
    description: string,
    rarity: Rarity,
    kind: ItemType,
    attributes: Option<seq<Attribute>>)

  predicate Stackable(t: ItemType) {
    t == Consumables || t == Deployable
  }

  /** The ItemModel constructor as written. The attribute list is never allocated,
      so the first characteristic it tries to add dereferences null, and iterating a
      null characteristic sequence fails the same way. The rarity argument is
      ignored, so the property keeps the enum's default. */
  function NewItem(id: int, name: string, description: string, rarity: Rarity,
                   kind: ItemType, characteristics: Option<seq<Attribute>>): (r: Result<Item>)
    ensures r.Ok? <==> characteristics == Some([])
    ensures r.Throw? ==> r.error == NullReference
    ensures r.Ok? ==> r.value.id == id && r.value.name == name
                      && r.value.description == description && r.value.kind == kind
    ensures r.Ok? ==> r.value.rarity == DefaultRarity && r.value.attributes == None
  {
    match characteristics
    case None => Throw(NullReference)
    case Some(cs) =>
      if |cs| == 0 then Ok(Item(id, name, description, DefaultRarity, kind, None))
      else Throw(NullReference)
  }

  /** Two items can share a stack when type, name, description and rarity agree:
      they may differ only in their id and their attribute list. */
  predicate Mergeable(a: Item, b: Item): (m: bool)
    ensures m <==> a.(id := b.id, attributes := b.attributes) == b
  {
    a.kind == b.kind && a.name == b.name && a.description == b.description && a.rarity == b.rarity
  }

  lemma MergeableIsEquivalence(a: Item, b: Item, c: Item)
    ensures Mergeable(a, a)
    ensures Mergeable(a, b) <==> Mergeable(b, a)
    ensures Mergeable(a, b) && Mergeable(b, c) ==> Mergeable(a, c)
  {
  }

  /** Position of the first quantity attribute of `attrs`, if any. */
  function FirstQuantity(attrs: seq<Attribute>): (r: Option<nat>)
    ensures r.Some? ==> r.value < |attrs| && attrs[r.value].kind == Quantity
    ensures r.Some? ==> forall j :: 0 <= j < r.value ==> attrs[j].kind != Quantity
    ensures r.None? ==> forall j :: 0 <= j < |attrs| ==> attrs[j].kind != Quantity
  {
    if |attrs| == 0 then None
    else if attrs[0].kind == Quantity then Some(0)
    else match FirstQuantity(attrs[1..])
      case None => None
      case Some(k) => Some(k + 1)
  }

  /** GetItemQuantity: the value of the first quantity attribute, and 1 when the
      list is null or holds no quantity attribute. */
  function GetQuantity(item: Item): (r: int)
    ensures r != 1 ==> item.attributes.Some?
    ensures r != 1 ==> exists k :: 0 <= k < |item.attributes.value| && item.attributes.value[k] == Attribute(Quantity, r)
  {
    match item.attributes
    case None => 1
    case Some(attrs) =>
      match FirstQuantity(attrs)
      case None => 1
      case Some(k) => attrs[k].value
  }

  /** A missing quantity reads as 1; otherwise the quantity is the value of
      the earliest attribute of the quantity kind. */
  lemma QuantityDefaultsToOne(item: Item)
    ensures item.attributes.None? ==> GetQuantity(item) == 1
    ensures item.attributes.Some? && (forall j :: 0 <= j < |item.attributes.value| ==> item.attributes.value[j].kind != Quantity)
            ==> GetQuantity(item) == 1
    ensures forall k :: item.attributes.Some? && 0 <= k < |item.attributes.value|
              && item.attributes.value[k].kind == Quantity
              && (forall j :: 0 <= j < k ==> item.attributes.value[j].kind != Quantity)
              ==> GetQuantity(item) == item.attributes.value[k].value
  {
    if item.attributes.Some? {
      var attrs := item.attributes.value;
      forall k | 0 <= k < |attrs| && attrs[k].kind == Quantity && (forall j :: 0 <= j < k ==> attrs[j].kind != Quantity)
        ensures GetQuantity(item) == attrs[k].value
      {
        FirstQuantityIs(attrs, k);
      }
    }
  }

  /** The first quantity attribute is the one at `k` when `k` holds one and
      nothing before it does. */
  lemma FirstQuantityIs(attrs: seq<Attribute>, k: nat)
    requires k < |attrs| && attrs[k].kind == Quantity
    requires forall j :: 0 <= j < k ==> attrs[j].kind != Quantity
    ensures FirstQuantity(attrs) == Some(k)
  {
  }

  /** The attribute list after setting the quantity to `q`: the first quantity
      attribute is overwritten, or a new one is appended when there is none. */
  function WithQuantity(attrs: seq<Attribute>, q: int): (r: seq<Attribute>)
    ensures |r| == |attrs| + (if FirstQuantity(attrs).None? then 1 else 0)
    ensures forall i :: 0 <= i < |attrs| && (FirstQuantity(attrs).None? || i != FirstQuantity(attrs).value) ==> r[i] == attrs[i]
    ensures FirstQuantity(attrs).Some? ==> r[FirstQuantity(attrs).value] == Attribute(Quantity, q)
    ensures FirstQuantity(attrs).None? ==> r[|attrs|] == Attribute(Quantity, q)
    ensures FirstQuantity(r).Some? && r[FirstQuantity(r).value] == Attribute(Quantity, q)
  {
    match FirstQuantity(attrs)
    case Some(k) =>
      var r := attrs[k := Attribute(Quantity, q)];
      FirstQuantityIs(r, k);
      r
    case None =>
      var r := attrs + [Attribute(Quantity, q)];
      FirstQuantityIs(r, |attrs|);
      r
  }

  function AttributesOrEmpty(item: Item): seq<Attribute> {
    match item.attributes
    case None => []
    case Some(attrs) => attrs
  }

  /** SetItemQuantity; a null attribute list is first replaced by an empty one. */
  function SetQuantity(item: Item, q: int): (r: Item)
    ensures GetQuantity(r) == q
    ensures r.attributes.Some?
    ensures r.(attributes := item.attributes) == item
    ensures var a, k := AttributesOrEmpty(item), FirstQuantity(AttributesOrEmpty(item));
            && |AttributesOrEmpty(r)| == |a| + (if k.None? then 1 else 0)
            && forall i :: 0 <= i < |a| && (k.None? || i != k.value) ==> AttributesOrEmpty(r)[i] == a[i]
  {
    item.(attributes := Some(WithQuantity(AttributesOrEmpty(item), q)))
  }

  /** Setting the quantity twice is the same as setting it once to the later value. */
  lemma SetQuantityTwice(item: Item, a: int, b: int)
    ensures SetQuantity(SetQuantity(item, a), b) == SetQuantity(item, b)
  {
    var attrs := AttributesOrEmpty(item);
    match FirstQuantity(attrs)
    case Some(k) =>
      FirstQuantityIs(attrs[k := Attribute(Quantity, a)], k);
      assert attrs[k := Attribute(Quantity, a)][k := Attribute(Quantity, b)] == attrs[k := Attribute(Quantity, b)];
    case None =>
      var once := attrs + [Attribute(Quantity, a)];
      FirstQuantityIs(once, |attrs|);
      assert once[|attrs| := Attribute(Quantity, b)] == attrs + [Attribute(Quantity, b)];
  }

  /** Sum of the values of all attributes of kind `k`. */
  function Total(attrs: seq<Attribute>, k: AttributeType): int {
    if |attrs| == 0 then 0
    else Total(attrs[..|attrs| - 1], k) + (if attrs[|attrs| - 1].kind == k then attrs[|attrs| - 1].value else 0)
  }

  function Kinds(attrs: seq<Attribute>): set<AttributeType> {
    set i | 0 <= i < |attrs| :: attrs[i].kind
  }

  ghost predicate DistinctKinds(attrs: seq<Attribute>) {
    forall i, j :: 0 <= i < j < |attrs| ==> attrs[i].kind != attrs[j].kind
  }

  /** Position of the attribute of kind `k`, if any. */
  function IndexOfKind(attrs: seq<Attribute>, k: AttributeType): (r: Option<nat>)
    ensures r.Some? ==> r.value < |attrs| && attrs[r.value].kind == k
    ensures r.None? ==> forall i :: 0 <= i < |attrs| ==> attrs[i].kind != k
  {
    if |attrs| == 0 then None
    else if attrs[|attrs| - 1].kind == k then Some(|attrs| - 1)
    else
      var init := attrs[..|attrs| - 1];
      assert forall i :: 0 <= i < |init| ==> init[i] == attrs[i];
      IndexOfKind(init, k)
  }

  lemma TotalUpdate(attrs: seq<Attribute>, i: nat, x: Attribute, k: AttributeType)
    requires i < |attrs| && x.kind == attrs[i].kind
    ensures Total(attrs[i := x], k)
            == Total(attrs, k) + (if x.kind == k then x.value - attrs[i].value else 0)
    decreases |attrs|
  {
    var n := |attrs|;
    if i < n - 1 {
      assert attrs[i := x][..n - 1] == attrs[..n - 1][i := x];
      TotalUpdate(attrs[..n - 1], i, x, k);
    } else {
      assert attrs[i := x][..n - 1] == attrs[..n - 1];
    }
  }

  /** Adds one attribute into a list of per-kind groups. */
  function Accumulate(groups: seq<Attribute>, x: Attribute): (r: seq<Attribute>)
    requires DistinctKinds(groups)
    ensures DistinctKinds(r)
    ensures Kinds(r) == Kinds(groups) + {x.kind}
    ensures forall k :: Total(r, k) == Total(groups, k) + (if x.kind == k then x.value else 0)
  {
    match IndexOfKind(groups, x.kind)
    case Some(i) =>
      var r := groups[i := Attribute(x.kind, groups[i].value + x.value)];
      forall k ensures Total(r, k) == Total(groups, k) + (if x.kind == k then x.value else 0) {
        TotalUpdate(groups, i, Attribute(x.kind, groups[i].value + x.value), k);
      }
      assert Kinds(r) == Kinds(groups) + {x.kind} by {
        forall t | t in Kinds(groups) ensures t in Kinds(r) {
          var j :| 0 <= j < |groups| && groups[j].kind == t;
          assert r[j].kind == t;
        }
        forall t | t in Kinds(r) ensures t in Kinds(groups) {
          var j :| 0 <= j < |r| && r[j].kind == t;
          assert groups[j].kind == t;
        }
      }
      r
    case None =>
      var r := groups + [x];
      assert r[..|r| - 1] == groups;
      assert Kinds(r) == Kinds(groups) + {x.kind} by {
        forall t | t in Kinds(groups) ensures t in Kinds(r) {
          var j :| 0 <= j < |groups| && groups[j].kind == t;
          assert r[j].kind == t;
        }
        forall t | t in Kinds(r) ensures t in Kinds(groups) + {x.kind} {
          var j :| 0 <= j < |r| && r[j].kind == t;
          if j < |groups| {
            assert groups[j].kind == t;
          }
        }
        assert r[|groups|].kind == x.kind;
      }
      r
  }

  /** The GroupBy/Sum regrouping: one attribute per kind, in order of first
      appearance, carrying the sum of that kind's values. */
  function Regroup(attrs: seq<Attribute>): (r: seq<Attribute>)
    ensures DistinctKinds(r)
    ensures Kinds(r) == Kinds(attrs)
    ensures forall k :: Total(r, k) == Total(attrs, k)
  {
    if |attrs| == 0 then []
    else
      var init := attrs[..|attrs| - 1];
      var r := Accumulate(Regroup(init), attrs[|attrs| - 1]);
      assert Kinds(attrs) == Kinds(init) + {attrs[|attrs| - 1].kind} by {
        forall t | t in Kinds(init) ensures t in Kinds(attrs) {
          var j :| 0 <= j < |init| && init[j].kind == t;
          assert attrs[j].kind == t;
        }
      }
      r
  }

  /** MergeCharacteristics: when both lists are present, the target's own list is
      regrouped by kind; the source's attributes are not folded in. */
  function MergeCharacteristics(source: Item, target: Item): (r: Item)
    ensures r.(attributes := target.attributes) == target
    ensures source.attributes.None? || target.attributes.None? ==> r == target
    ensures source.attributes.Some? && target.attributes.Some? ==>
              && r.attributes.Some?
              && DistinctKinds(r.attributes.value)
              && Kinds(r.attributes.value) == Kinds(target.attributes.value)
              && forall k :: Total(r.attributes.value, k) == Total(target.attributes.value, k)
  {
    if source.attributes.None? || target.attributes.None? then target
    else target.(attributes := Some(Regroup(target.attributes.value)))
  }
}
