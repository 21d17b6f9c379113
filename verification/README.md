# Badventure core, modelled in Dafny

This project models the game logic of Badventure that does not depend on the
Godot engine:

- **Inventory engine.** `InventoryController` works over `InventoryModel`,
  `ItemModel` and `AttributeModel`. Each owner has a hotbar of 6 slots and a
  backpack of 18. The operations are add, remove, move/swap, merge stacks
  (stack size 16), create a stack, extract one unit from a stack, list and
  count items. The `ItemModel` constructor is modelled as written: it throws
  unless its characteristics list is empty, and it never assigns the rarity.
- **Entity and player stats.** `EntityModel` has clamping property setters;
  the heal, damage, experience, level-up, death and respawn transitions; the
  effect list; and the id setter with its shared counter. `PlayerModel`
  initialises all of these through the setters.
- **Id-stamped objects.** `AbilityModel` and `EffectModel` draw ids from static
  counters. Each counter is threaded through the model as an explicit value.
  `UseAbility` resets the cooldown.
- **Terrain topology** (`TerrainGenerator`):
  - the row-major cell key `x * Height + z`;
  - the per-cell vertex records of the two-argument `GenerateVertices`, and
    their re-sorting by key in `CreateMeshes`;
  - the triangle indices that `AddIndices`/`AddTriangleIndices` emit for land
    and water;
  - the coast and ocean-floor height clamps, over reals;
  - the placement offsets, and the circular `IsWithinMapBounds` test.
- **`RangeModel`**: a closed interval with a membership test, over reals.

Every operation is a pure function of the state it reads. Each returns the new
state together with what the C# method returns. A C# `null` becomes `None`,
and a thrown exception becomes `Throw(InvalidOperation)` or
`Throw(NullReference)`. Items are values held in slots. An in-place mutation
of a found item becomes a write to its slot. When a merge names the same id as
source and target (the same object found twice in C#), the two writes are made
one after the other in the C# order, which reproduces that case. One object
stored in two different slots is not modelled; see "Left out".

Modules, in dependency order:

- `Outcomes`: `Option`, `Error`, `Result`.
- `Items`, `Inventories`, `InventoryController` and `InventoryProperties`.
- `Effects`, `Abilities`, `Entities`, `EntityProperties` and `Players`.
- `Reals`, `TerrainGrid`, `TerrainVertices`, `TerrainMesh`, `TerrainHeights`
  and `TerrainPlacement`.
- `Ranges`.

## Model

| member | source | states |
|---|---|---|
| Items.NewItem | badventure/Scripts/Csharp/Solution/Models/ItemModel.cs:19-29 | The constructor succeeds exactly when the characteristics list is present and empty. A null or non-empty list throws NullReference. On success, id, name, description and type are copied, the rarity keeps the enum default, and the attribute list stays null. |
| Items.MergeableIsEquivalence | badventure/Scripts/Csharp/Solution/Contollers/InventoryController.cs:200-206 | Mergeability (equal type, name, description and rarity) is reflexive, symmetric and transitive. |
| Items.Mergeable | badventure/Scripts/Csharp/Solution/Contollers/InventoryController.cs:200-206 | Two items are mergeable exactly when they agree on every field except id and attribute list. |
| Items.FirstQuantity | badventure/Scripts/Csharp/Solution/Contollers/InventoryController.cs:222 | The lookup finds the first attribute of the quantity kind: it holds a quantity and nothing before it does. It finds none exactly when no attribute is a quantity. |
| Items.GetQuantity | badventure/Scripts/Csharp/Solution/Contollers/InventoryController.cs:217-225 | A quantity other than 1 comes from a present attribute list that holds a quantity attribute with that value. |
| Items.QuantityDefaultsToOne | badventure/Scripts/Csharp/Solution/Contollers/InventoryController.cs:217-225 | GetItemQuantity is 1 for a null attribute list and for a list without a quantity attribute. Otherwise it is the value of the earliest quantity attribute. |
| Items.WithQuantity | badventure/Scripts/Csharp/Solution/Contollers/InventoryController.cs:232-241 | Setting a quantity overwrites the first quantity attribute, or appends one when there is none. The list grows by one entry only in the append case. Every other entry keeps its place and value, and the first quantity entry of the result is (Quantity, q). |
| Items.SetQuantity | badventure/Scripts/Csharp/Solution/Contollers/InventoryController.cs:227-242 | After SetItemQuantity(q), GetItemQuantity returns q and the list is non-null. No field other than the attributes changes. In the attribute list only the first quantity entry changes, and the list grows by one only when no quantity entry existed. |
| Items.SetQuantityTwice | badventure/Scripts/Csharp/Solution/Contollers/InventoryController.cs:227-242 | Setting the quantity to a and then to b equals setting it to b. |
| Items.Accumulate | badventure/Scripts/Csharp/Solution/Contollers/InventoryController.cs:212 | Folding one attribute into per-kind groups keeps the kinds distinct, adds its kind, and adds its value to that kind's sum only. |
| Items.Regroup | badventure/Scripts/Csharp/Solution/Contollers/InventoryController.cs:212 | GroupBy/Sum gives one attribute per kind. The set of kinds is the same, and each kind's sum is the same. |
| Items.MergeCharacteristics | badventure/Scripts/Csharp/Solution/Contollers/InventoryController.cs:207-215 | If either list is null the target is unchanged. Otherwise only the target's attributes change, to a list with distinct kinds whose kinds and per-kind sums are the target's own. |
| Inventories.NewInventory | badventure/Scripts/Csharp/Solution/Models/InventoryModel.cs:13-15 | A fresh inventory has the given owner, 6 empty hotbar slots and 18 empty backpack slots, and holds 0 items. |
| Inventories.FirstIn | badventure/Scripts/Csharp/Solution/Contollers/InventoryController.cs:183 | FirstOrDefault over one array: the result is the first matching index at or after the start, or none when no entry there matches. |
| Inventories.Locate | badventure/Scripts/Csharp/Solution/Contollers/InventoryController.cs:180-189 | Searching the hotbar and then the backpack gives the first matching slot in that order, or none when no slot matches. |
| Inventories.LocateIsFirst | badventure/Scripts/Csharp/Solution/Contollers/InventoryController.cs:180-189 | Converse of Locate: any slot that is first in scan order is exactly what the search returns. |
| Inventories.FindSlotById | badventure/Scripts/Csharp/Solution/Contollers/InventoryController.cs:180-189 | The slot FindItemById reads is the first one, hotbar before backpack, that holds an item with the id. |
| Inventories.FindItemById | badventure/Scripts/Csharp/Solution/Contollers/InventoryController.cs:180-189 | A found item carries the id. The result is null exactly when no slot holds an item with that id. |
| Inventories.IsSlotEmpty | badventure/Scripts/Csharp/Solution/Models/InventoryModel.cs:19-23 | The chosen array's slot is null exactly when the test is true, for an index inside the array. An occupied slot means TotalItemCount is positive. |
| Inventories.TotalItemCount | badventure/Scripts/Csharp/Solution/Models/InventoryModel.cs:17 | The number of non-null slots over both arrays, at most the total slot count. |
| Inventories.AllItems | badventure/Scripts/Csharp/Solution/Contollers/InventoryController.cs:175 | The listed items number exactly TotalItemCount. |
| Inventories.HeldItemsInOrder | badventure/Scripts/Csharp/Solution/Contollers/InventoryController.cs:175 | Dropping null entries distributes over concatenation, a null entry contributes nothing and an item contributes itself. So GetAllItems lists the hotbar's items before the backpack's, each array in slot order. |
| Inventories.AllItemsIsOccupiedSlots | badventure/Scripts/Csharp/Solution/Models/InventoryModel.cs:17 | GetAllItems has exactly TotalItemCount entries. An item is listed exactly when some slot holds it. |
| Inventories.CountOfType | badventure/Scripts/Csharp/Solution/Contollers/InventoryController.cs:178 | The count of type t is the number of listed items whose type is t (the multiplicity of t among their types), so it is at most the number of items. |
| InventoryController.FindPartialStackItem | badventure/Scripts/Csharp/Solution/Contollers/InventoryController.cs:68-75 | The result is the item in the first slot, hotbar before backpack, that the new item can join and that holds fewer than 16. It is null exactly when no slot qualifies. |
| InventoryController.RemoveFrom | badventure/Scripts/Csharp/Solution/Contollers/InventoryController.cs:82-100 | RemoveItem returns true exactly when some slot holds the id. It then empties only the first such slot. Otherwise the inventory is unchanged. |
| InventoryController.MergeSlots | badventure/Scripts/Csharp/Solution/Contollers/InventoryController.cs:151-168 | Once both items are found, the merge leaves the inventory unchanged with false when the source is not stackable or the pair is not mergeable. It returns true exactly when the pair is eligible and the two quantities sum to at most 16. The slot layout is unchanged. |
| InventoryController.SplitOverflow | badventure/Scripts/Csharp/Solution/Contollers/InventoryController.cs:155-160 | Over-full merge: only the two slots change, and only in their attributes. The source holds total minus 16, and a distinct target holds 16. |
| InventoryController.Combine | badventure/Scripts/Csharp/Solution/Contollers/InventoryController.cs:162-166 | Completing merge: the target is regrouped and given the total, and then RemoveItem(sourceId) is applied, which empties the source's first slot. |
| InventoryController.Merge | badventure/Scripts/Csharp/Solution/Contollers/InventoryController.cs:138-169 | MergeItems returns false and changes nothing when an id is missing, the source is not stackable, or the items are not mergeable. When the guards pass it returns true exactly when the combined quantity is at most 16. |
| InventoryController.MergeOutcome | badventure/Scripts/Csharp/Solution/Contollers/InventoryController.cs:151-168 | For distinct ids only the two slots change, and only their attributes. Over 16: false, the target holds 16 and the source the rest, and the two still sum to the total. At most 16: true, the target holds the total and the source slot is empty. |
| InventoryController.AddTo | badventure/Scripts/Csharp/Solution/Contollers/InventoryController.cs:30-66 | A stackable item with a partial stack to join is handed to MergeItems under its own id. Otherwise it goes into the first empty slot, hotbar before backpack. It returns false with nothing changed when every slot is full. |
| InventoryController.Move | badventure/Scripts/Csharp/Solution/Contollers/InventoryController.cs:103-136 | An out-of-range slot or an empty source gives false with no change. An empty destination receives the item and the source is emptied. A mergeable stackable pair is merged. Any other occupied pair is swapped. No other slot changes. |
| InventoryController.ExtractFrom | badventure/Scripts/Csharp/Solution/Contollers/InventoryController.cs:278-310 | A missing id or a non-stackable item gives null and no change. A stack of at most 1 is removed and returned. A larger stack is copied through the ItemModel constructor, which throws NullReference and leaves the inventory unchanged. |
| InventoryController.CreateItemStack | badventure/Scripts/Csharp/Solution/Contollers/InventoryController.cs:244-276 | A non-stackable type throws InvalidOperation. A stackable base succeeds exactly when its attribute list is present and empty, and yields a copy whose only attribute is quantity min(q, 16). Any other stackable base throws NullReference. |
| InventoryController.CreateInventory | badventure/Scripts/Csharp/Solution/Contollers/InventoryController.cs:18-28 | An owner that already has an inventory makes it throw with no change. Otherwise it registers and returns an empty inventory for that owner. |
| InventoryController.AddItem | badventure/Scripts/Csharp/Solution/Contollers/InventoryController.cs:30-35 | An unknown owner throws with no change. Otherwise only that owner's inventory is replaced by the AddItem result; the other owners are untouched. |
| InventoryController.RemoveItem | badventure/Scripts/Csharp/Solution/Contollers/InventoryController.cs:77-79 | An unknown owner throws with no change. Otherwise only that owner's inventory is replaced. |
| InventoryController.MoveItem | badventure/Scripts/Csharp/Solution/Contollers/InventoryController.cs:103-105 | An unknown owner throws with no change. Otherwise only that owner's inventory is replaced. |
| InventoryController.MergeItems | badventure/Scripts/Csharp/Solution/Contollers/InventoryController.cs:138-140 | An unknown owner throws with no change. Otherwise only that owner's inventory is replaced. |
| InventoryController.GetAllItems | badventure/Scripts/Csharp/Solution/Contollers/InventoryController.cs:171-176 | An unknown owner throws. Otherwise the result is the owner's items, hotbar then backpack with nulls dropped, and there are exactly TotalItemCount of them. The state never changes. |
| InventoryController.CountItemsByType | badventure/Scripts/Csharp/Solution/Contollers/InventoryController.cs:178 | An unknown owner throws. Otherwise the result is the number of the owner's items of that type, which is at most TotalItemCount. The state never changes. |
| InventoryController.ExtractItemFromStack | badventure/Scripts/Csharp/Solution/Contollers/InventoryController.cs:278-280 | An unknown owner throws InvalidOperation. A thrown constructor error leaves the state unchanged. Otherwise only that owner's inventory is replaced. |
| InventoryProperties.MergeConservesStackTotal | badventure/Scripts/Csharp/Solution/Contollers/InventoryController.cs:151-168 | Merging two distinct eligible stacks keeps the sum of quantities over all slots. It frees exactly one slot when it returns true, and none otherwise. |
| InventoryProperties.MergeWithItself | badventure/Scripts/Csharp/Solution/Contollers/InventoryController.cs:143-166 | Merging a stack with itself: if twice its quantity fits, the stack's slot ends up empty and the call returns true. Otherwise it returns false, and the slot holds twice the quantity less 16. |
| InventoryProperties.MergeNeverAddsItems | badventure/Scripts/Csharp/Solution/Contollers/InventoryController.cs:138-169 | Whatever the ids, MergeItems never increases the number of occupied slots. |
| InventoryProperties.AddToPartialStackNeverPlaces | badventure/Scripts/Csharp/Solution/Contollers/InventoryController.cs:37-45 | When a partial stack matches, AddItem never fills a slot. If no held item carries the new item's id, it returns false and changes nothing. |
| InventoryProperties.AddToEmptySlotAddsItem | badventure/Scripts/Csharp/Solution/Contollers/InventoryController.cs:47-63 | A successful placement adds exactly the new item to the multiset of held items, and adds one occupied slot. |
| InventoryProperties.RemoveFromTakesOneItem | badventure/Scripts/Csharp/Solution/Contollers/InventoryController.cs:82-100 | A successful RemoveItem takes exactly one item with that id out of the multiset of held items, and frees one slot. |
| InventoryProperties.MoveKeepsItems | badventure/Scripts/Csharp/Solution/Contollers/InventoryController.cs:114-133 | Moving into an empty slot, or swapping with a non-mergeable item, returns true and keeps the multiset of held items. |
| Effects.NewEffect | badventure/Scripts/Csharp/Solution/Models/EffectModel.cs:18-26 | The counter goes up by exactly 1. The id is the new counter value. Name, description, value and duration are stored as given. |
| Effects.NewEffects | badventure/Scripts/Csharp/Solution/Models/EffectModel.cs:18-26 | n constructions in a row advance the counter by n. The i-th effect gets id counter + i + 1 and keeps its arguments. |
| Effects.EffectIdsIncrease | badventure/Scripts/Csharp/Solution/Models/EffectModel.cs:20-21 | Successive effects get strictly increasing ids, all above the starting counter and at most the final one, so no two are equal. |
| Abilities.NewAbility | badventure/Scripts/Csharp/Solution/Models/AbilityModel.cs:22-33 | The counter goes up by exactly 1 and the id is the new value. All constructor arguments are stored as given. CurrentCooldown starts at 0. |
| Abilities.NewAbilities | badventure/Scripts/Csharp/Solution/Models/AbilityModel.cs:22-33 | n constructions advance the counter by n. The i-th ability gets id counter + i + 1 and keeps its arguments. |
| Abilities.AbilityIdsIncrease | badventure/Scripts/Csharp/Solution/Models/AbilityModel.cs:24-25 | Successive abilities get strictly increasing ids above the starting counter. |
| Abilities.UseAbility | badventure/Scripts/Csharp/Solution/Models/AbilityModel.cs:88-91 | CurrentCooldown becomes Cooldown, and nothing else changes. |
| Abilities.UseAbilityIdempotent | badventure/Scripts/Csharp/Solution/Models/AbilityModel.cs:88-91 | Using an ability twice gives the same state as using it once. |
| Entities.PositiveOrOne | badventure/Scripts/Csharp/Solution/Models/EntityModel.cs:46 | The clamped-stat rule: a positive value is kept, a non-positive one becomes 1, and the result is always at least 1. |
| Entities.NonNegative | badventure/Scripts/Csharp/Solution/Models/EntityModel.cs:38 | The Health rule: a non-negative value is kept and a negative one becomes 0. |
| Entities.Set | badventure/Scripts/Csharp/Solution/Models/EntityModel.cs:43-141 | Assigning any of the eleven clamped stats stores it clamped to at least 1. Every other stat and every other field is unchanged. |
| Entities.SetHealth | badventure/Scripts/Csharp/Solution/Models/EntityModel.cs:35-39 | Assigning Health stores the value clamped at 0 and changes nothing else. |
| Entities.StatsValidIsClampedStats | badventure/Scripts/Csharp/Solution/Models/EntityModel.cs:35-141 | The setter invariant means exactly: health is at least 0 and every clamped stat is at least 1. |
| Entities.SetTwice | badventure/Scripts/Csharp/Solution/Models/EntityModel.cs:43-141 | Assigning a stat twice is the same as assigning it once, to the later value. |
| Entities.Heal | badventure/Scripts/Csharp/Solution/Models/EntityModel.cs:149-152 | Health becomes health + amount, clamped only at 0. Nothing else changes. |
| Entities.TakeDamage | badventure/Scripts/Csharp/Solution/Models/EntityModel.cs:154-157 | Health becomes health - amount + BaseArmor / 100, clamped at 0. Nothing else changes. |
| Entities.LevelUp | badventure/Scripts/Csharp/Solution/Models/EntityModel.cs:168-175 | Level +1, MaxHealth +10, BaseDamage +1 and BaseArmor +1, each through its setter. Health becomes the new MaxHealth. Nothing else changes. |
| Entities.AddExperience | badventure/Scripts/Csharp/Solution/Models/EntityModel.cs:159-166 | Experience becomes the clamped sum. The entity levels up once exactly when the new experience reaches Level * 100, and is otherwise unchanged. |
| Entities.Die | badventure/Scripts/Csharp/Solution/Models/EntityModel.cs:187-190 | Only IsAlive changes, to false. |
| Entities.Respawn | badventure/Scripts/Csharp/Solution/Models/EntityModel.cs:192-196 | IsAlive becomes true and Health becomes MaxHealth (clamped at 0). Nothing else changes. |
| Entities.SetEffects | badventure/Scripts/Csharp/Solution/Models/EntityModel.cs:143-147 | Assigning null stores an empty list. A list is stored as given. Nothing else changes. |
| Entities.AddEffect | badventure/Scripts/Csharp/Solution/Models/EntityModel.cs:177-180 | A null list throws NullReference, and only then. Otherwise the effect is appended and nothing else changes. |
| Entities.IndexOf | badventure/Scripts/Csharp/Solution/Models/EntityModel.cs:182-185 | The position of the first equal element. It is absent exactly when the element is not in the list. |
| Entities.RemoveFirst | badventure/Scripts/Csharp/Solution/Models/EntityModel.cs:182-185 | List.Remove cuts out the first equal element, or leaves the list as it was when there is none. |
| Entities.RemoveEffect | badventure/Scripts/Csharp/Solution/Models/EntityModel.cs:182-185 | A null list throws NullReference, and only then. Otherwise the first equal effect is removed and nothing else changes. |
| Entities.SetId | badventure/Scripts/Csharp/Solution/Models/EntityModel.cs:91-106 | A value above the counter is kept; any other value is replaced by counter + 1. The new id exceeds the old counter, the counter becomes the new id, and nothing else changes. |
| Entities.AssignIds | badventure/Scripts/Csharp/Solution/Models/EntityModel.cs:94-105 | Over a run of Id assignments, the ids strictly increase and all exceed the starting counter. A requested value above the previous id is honoured. The counter ends at the last id. |
| EntityProperties.SettersKeepStatsValid | badventure/Scripts/Csharp/Solution/Models/EntityModel.cs:35-141 | Assigning any clamped stat, or Health, keeps the setter invariant. |
| EntityProperties.TransitionsKeepStatsValid | badventure/Scripts/Csharp/Solution/Models/EntityModel.cs:143-196 | Heal, TakeDamage, LevelUp, AddExperience, Die, Respawn, the Effects setter, the Id setter, AddEffect and RemoveEffect all keep the setter invariant. |
| EntityProperties.LevelUpIncrements | badventure/Scripts/Csharp/Solution/Models/EntityModel.cs:168-175 | On a valid entity a level-up adds exactly 1 level, 10 MaxHealth, 1 damage and 1 armour, and leaves health full. |
| EntityProperties.AddExperienceLevelsOnce | badventure/Scripts/Csharp/Solution/Models/EntityModel.cs:159-166 | The level rises by exactly one when the clamped experience reaches 100 * Level, and stays the same otherwise. Experience is not reset. |
| EntityProperties.HealIsUncapped | badventure/Scripts/Csharp/Solution/Models/EntityModel.cs:149-152 | A non-negative heal raises health by exactly the amount, even past MaxHealth. |
| EntityProperties.DamageUndoesHeal | badventure/Scripts/Csharp/Solution/Models/EntityModel.cs:149-157 | With armour below 100, a hit of the same size as a heal undoes it exactly. |
| EntityProperties.DamageMonotone | badventure/Scripts/Csharp/Solution/Models/EntityModel.cs:154-157 | A larger hit never leaves more health, and more armour never leaves less. |
| EntityProperties.ArmorReductionIsFloor | badventure/Scripts/Csharp/Solution/Models/EntityModel.cs:156 | The integer armour reduction is the floor of BaseArmor / 100 over the reals. |
| EntityProperties.DieRespawn | badventure/Scripts/Csharp/Solution/Models/EntityModel.cs:187-196 | Respawning after death equals respawning, dying is idempotent, and health after Respawn and then Die is MaxHealth. |
| EntityProperties.RemoveFirstTakesOne | badventure/Scripts/Csharp/Solution/Models/EntityModel.cs:182-185 | Removing an element that is present shortens the list by one and takes exactly one copy out of its multiset. |
| EntityProperties.AddThenRemoveEffect | badventure/Scripts/Csharp/Solution/Models/EntityModel.cs:177-185 | Adding an effect the list did not hold and then removing it gives back the original entity. |
| EntityProperties.AssignedIdsDistinct | badventure/Scripts/Csharp/Solution/Models/EntityModel.cs:94-105 | Ids handed out by the Id setter never repeat, and the counter never goes down. |
| Players.NewPlayer | badventure/Scripts/Csharp/Solution/Models/PlayerModel.cs:15-52 | Every stat argument passes through its clamp, HealthRegenerationFactor is stored raw, and Level and Experience are 1. Health equals MaxHealth. Abilities and flags are stored as given. Id is 0, Effects is null, and the setter invariant holds. |
| Players.NewPlayerWithDefaults | badventure/Scripts/Csharp/Solution/Models/PlayerModel.cs:29-30 | With the optional flags left out, the player is visible and alive, at level 1 and full health. |
| Players.FreshPlayerFirstLevelUp | badventure/Scripts/Csharp/Solution/Models/PlayerModel.cs:49-50 | A new player reaches level 2 exactly when it gains at least 99 experience at once, because the clamped starting experience is 1. |
| Ranges.Fits | badventure/Scripts/Csharp/Solution/Dependencies/PerlinNoise/RangeModel.cs:20-23 | A value fits only when Min <= Max. Endpoints and FitsIsConvex state which values fit. |
| Ranges.Endpoints | badventure/Scripts/Csharp/Solution/Dependencies/PerlinNoise/RangeModel.cs:22 | Min fits, and Max fits, exactly when Min <= Max. Nothing fits when Min > Max. |
| Ranges.FitsIsConvex | badventure/Scripts/Csharp/Solution/Dependencies/PerlinNoise/RangeModel.cs:20-23 | Any value between two fitting values fits. |
| TerrainGrid.KeyOfCell | badventure/Scripts/Csharp/World/TerrainGenerator.cs:275-278 | A cell inside the map has a key in [0, Width * Height). Quotient and remainder by Height give the cell back. |
| TerrainGrid.CellOfKey | badventure/Scripts/Csharp/World/TerrainGenerator.cs:241 | Every key in [0, Width * Height) belongs to exactly one cell of the map, namely (key / Height, key % Height). |
| TerrainVertices.CellAt | badventure/Scripts/Csharp/World/TerrainGenerator.cs:183-198 | The record for key i has key i, lies inside the map, and sits at that cell's height with that cell's texture coordinate. |
| TerrainVertices.Cells | badventure/Scripts/Csharp/World/TerrainGenerator.cs:183-198 | Width * Height records. Record i is the in-map cell whose key is i, at that cell's height and texture coordinate. Every cell (x, z) of the map has its record at position x * Height + z. |
| TerrainVertices.GenerateVertices | badventure/Scripts/Csharp/World/TerrainGenerator.cs:178-202 | Each surface gets Width * Height records. Record i of each surface is the cell with key i inside the map. The land record is at noise * HeightScale and the water record at 20 - floor, with the same x, z and uv. |
| TerrainVertices.CellsCoverGrid | badventure/Scripts/Csharp/World/TerrainGenerator.cs:183-198 | Every cell of the map has its record at the position of its key, and at no other position. |
| TerrainVertices.Insert | badventure/Scripts/Csharp/World/TerrainGenerator.cs:241 | Inserting into a key-sorted sequence keeps it sorted and adds exactly the new record to its multiset. |
| TerrainVertices.SortByKey | badventure/Scripts/Csharp/World/TerrainGenerator.cs:241-242 | OrderBy on the key returns a permutation of its input, sorted by key. |
| TerrainVertices.SortedUnique | badventure/Scripts/Csharp/World/TerrainGenerator.cs:241 | Two key-sorted permutations of each other are equal when one of them has distinct keys. |
| TerrainVertices.CellKeys | badventure/Scripts/Csharp/World/TerrainGenerator.cs:241 | In row-major order, record i has key i, so that order is sorted with distinct keys. |
| TerrainVertices.SortRestoresRowMajor | badventure/Scripts/Csharp/World/TerrainGenerator.cs:241-242 | Whatever order the parallel loop leaves the records in, sorting by key restores row-major order: position i holds cell (i / Height, i % Height). |
| TerrainMesh.AddIndices | badventure/Scripts/Csharp/World/TerrainGenerator.cs:269-284 | The nested loops give land and water the same index sequence: for each cell in loop order, that cell's two triangles. |
| TerrainMesh.Topology | badventure/Scripts/Csharp/World/TerrainGenerator.cs:269-284 | Each surface's index sequence holds six indices per cell that gets triangles. |
| TerrainMesh.IndexCount | badventure/Scripts/Csharp/World/TerrainGenerator.cs:271-296 | Each surface gets 6 * (Width - 1) * (Height - 1) indices when both sides are at least 1, and none on smaller maps. |
| TerrainMesh.CellIndices | badventure/Scripts/Csharp/World/TerrainGenerator.cs:271-296 | Cell (x, z) owns positions 6 * (x * (Height - 1) + z) through that position + 5, and they hold its triangles (tl, tr, bl) and (tr, br, bl). |
| TerrainMesh.OwnerCell | badventure/Scripts/Csharp/World/TerrainGenerator.cs:271-278 | Each position of the index sequence belongs to a cell inside the grid of cells, and holds that cell's corner. |
| TerrainMesh.QuadCorners | badventure/Scripts/Csharp/World/TerrainGenerator.cs:275-278 | The corners tl, tr, bl and br of a cell lie in [0, Width * Height) and decode to (x, z), (x+1, z), (x, z+1) and (x+1, z+1). |
| TerrainMesh.IndicesInRange | badventure/Scripts/Csharp/World/TerrainGenerator.cs:275-278 | Every emitted index lies in [0, Width * Height). |
| TerrainMesh.TrianglesNonDegenerate | badventure/Scripts/Csharp/World/TerrainGenerator.cs:285-297 | On a map at least 2 high, each triangle has three distinct corners, and the two triangles share the edge tr-bl. |
| TerrainMesh.Triangles | badventure/Scripts/Csharp/World/TerrainGenerator.cs:285-297 | The six indices are tl, tr, bl, tr, br, bl: the two triangles share the diagonal tr-bl and between them use all four corners. |
| TerrainMesh.HeightOneEmitsNothing | badventure/Scripts/Csharp/World/TerrainGenerator.cs:271-273 | A map of height 1 gets no indices; such a cell's first triangle would be degenerate. |
| TerrainMesh.TrianglesSelectCorners | badventure/Scripts/Csharp/World/TerrainGenerator.cs:241-247 | After the sort, every index of a cell selects the vertex of the matching corner in the vertex array. |
| TerrainHeights.CoastHeight | badventure/Scripts/Csharp/World/TerrainGenerator.cs:142-145 | One cell of ApplyCoastFalloff is the larger of noise * (1 - falloff) and 0.1, so it is at least 0.1. |
| TerrainHeights.ApplyCoastFalloff | badventure/Scripts/Csharp/World/TerrainGenerator.cs:121-150 | The falloff matrix has the map's shape, every cell is at least 0.1, and each cell is that cell's clamp. |
| TerrainHeights.OceanFloorDepth | badventure/Scripts/Csharp/World/TerrainGenerator.cs:169-171 | One ocean-floor cell is the larger of ocean * (1 - coast) * 5 and 0, so it is at least 0. |
| TerrainHeights.GenerateOceanFloor | badventure/Scripts/Csharp/World/TerrainGenerator.cs:152-176 | The ocean-floor matrix has the map's shape, and every cell is non-negative and is that cell's clamp. |
| TerrainHeights.CoastHeightEnds | badventure/Scripts/Csharp/World/TerrainGenerator.cs:140-145 | Falloff 0 keeps the noise, clamped at 0.1. Falloff 1 flattens the cell to 0.1. |
| TerrainHeights.CoastHeightMonotone | badventure/Scripts/Csharp/World/TerrainGenerator.cs:140-145 | For non-negative noise, a larger falloff never gives a higher cell. |
| TerrainHeights.OceanFloorBounds | badventure/Scripts/Csharp/World/TerrainGenerator.cs:169-171 | Because coast heights are at least 0.1, the ocean floor is at most 4.5 times non-negative noise. It is 0 wherever the coast height is at least 1. |
| TerrainHeights.MeshHeightBounds | badventure/Scripts/Csharp/World/TerrainGenerator.cs:189-196 | After the coast and ocean-floor clamps, every land vertex of GenerateVertices is at least 0.1 * HeightScale high, and every water vertex is at most 20 high. |
| TerrainPlacement.Half | badventure/Scripts/Csharp/World/TerrainGenerator.cs:351 | C# integer division by 2 truncates toward zero: twice the result is within 1 of n, on n's side of zero. |
| TerrainPlacement.PositionTerrainAndWater | badventure/Scripts/Csharp/World/TerrainGenerator.cs:349-358 | The terrain sits at (-(Width / 2), 0, -(Height / 2)). The collision keeps its x and z at height 0. The water takes the terrain's x and z at height -10. |
| TerrainPlacement.TerrainCentred | badventure/Scripts/Csharp/World/TerrainGenerator.cs:351 | With the offset, the vertex columns and rows are centred on the origin to within half a unit. |
| TerrainPlacement.WithinIsDistanceAtMostRadius | badventure/Scripts/Csharp/World/TerrainGenerator.cs:360-370 | The bounds test holds exactly when the planar distance from (Width/2, Height/2) is at most min(Width, Height)/2 - 20. |
| TerrainPlacement.IsWithinMapBounds | badventure/Scripts/Csharp/World/TerrainGenerator.cs:360-370 | Only a map whose shorter side is at least 40 has any position inside. |
| TerrainPlacement.CentreWithin | badventure/Scripts/Csharp/World/TerrainGenerator.cs:369 | The centre is inside exactly when the shorter side is at least 40. |
| TerrainPlacement.SmallMapHasNoInside | badventure/Scripts/Csharp/World/TerrainGenerator.cs:369 | When the shorter side is below 40, no position is inside. |
| TerrainPlacement.BoundaryIsInclusive | badventure/Scripts/Csharp/World/TerrainGenerator.cs:369 | A point exactly one radius from the centre is inside, and any point further out along the same line is not. |

## Left out

- Godot engine plumbing in TerrainGenerator.cs is not modelled: `_Ready`, scene set-up, lighting, materials and textures. These are scene and resource I/O.
- SurfaceTool's normal, tangent and commit calls, and the collision faces, are not modelled. They are engine calls. A mesh is modelled only as its vertex records and its index sequence.
- `PerlinNoise.GetNoiseMatrix` is not part of this model. The noise matrices, and the falloff values `pow(distance / maxRadius, CoastFalloffStrength)`, are input grids.
- Floats are modelled as reals. Texture coordinates are exact ratios x / (Width - 1), because a map one cell wide would make the float division divide by zero.
- TerrainVertices.SortByKey: the sort key is exact. The float key `X * Height + Z` can round for very large maps.
- `Parallel.For` and `ConcurrentBag` are not modelled. The bag a parallel loop fills is taken to be any permutation of the row-major records, and the sort lemmas cover every permutation.
- The one-argument `GenerateVertices` overload (TerrainGenerator.cs:204-231) is not modelled, because nothing calls it.
- TerrainVertices.GenerateVertices: a negative Width or Height is excluded, where C# would throw allocating the matrices.
- TerrainPlacement.IsWithinMapBounds compares squared distances instead of taking the float square root. WithinIsDistanceAtMostRadius proves the two agree for any non-negative root.
- PlayerMovement.cs, Menu.cs and PlayerController.cs are not modelled. They handle input, camera and UI, or only forward calls to PlayerModel.
- Integers are unbounded. Unchecked 32-bit wrap-around is not modelled: in the id counters, in `Level * 100` and in the stat arithmetic.
- Entities.TakeDamage uses the integer quotient BaseArmor / 100 instead of `(int)Mathf.Floor((float)BaseArmor / 100F)`. The two agree whenever BaseArmor is exact as a float (|BaseArmor| < 2^24), and ArmorReductionIsFloor relates the quotient to the real floor.
- Entities.RemoveEffect matches effects by value. `List.Remove` compares references, and two effects with equal fields can only be distinct objects if they have equal ids.
- Items.MergeCharacteristics orders groups by first appearance, whereas C# uses dictionary enumeration order, which is unspecified. The contract states only kinds and per-kind sums, so it holds for every order.
- A null string is represented by the empty string. Enum members other than those the code names are represented by their ordinals.
- AbilityModel's plain property setters and getters are not modelled as separate operations. They are datatype field updates.
- `RangeModel` NaN behaviour is not modelled, since reals have no NaN.
- InventoryController.SplitOverflow: C# can hold one ItemModel object in two slots, for example after AddItem of the same 16-unit item twice. The model treats slots as independent values, so "only the two slots change" is not promised when the source or target object also sits in another slot, which C# would change as well.
- InventoryController.Combine: when the target object is also held in another slot, C# changes that slot too, and RemoveItem may empty a different slot holding the source object. The model's "only the target and source slots change" does not cover that case.
- InventoryController.MergeOutcome: the outcome is stated for slots holding independent objects. One object held in two slots is not modelled.
- InventoryProperties.MergeConservesStackTotal: the total over all slots is conserved only when no object is held in two slots. C# would count such an object once per slot.
- Inventories.IsSlotEmpty: an index outside the chosen array is excluded by the precondition. C# throws IndexOutOfRangeException there (InventoryModel.cs:19-23).
- InventoryController's unused private `FindSimilarStackItem` (InventoryController.cs:191-198) is not modelled separately. It is identical to `FindPartialStackItem`.
