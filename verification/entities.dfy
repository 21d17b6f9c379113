/** EntityModel: the stats of a living game entity, the clamping rules of its
    property setters, and the transitions built on them (heal, damage,
    experience and levelling, death and respawn, effects). Each transition
    returns the entity after the call. */
module Entities {
  import opened Outcomes
  import opened Effects

  datatype Entity = Entity(
    health: int,
    name: string,
    maxHealth: int,
    healthRegenerationFactor: int,
    baseDamage: int,
    baseArmor: int,
    isVisible: bool,
    isAlive: bool,
    level: int,
    experience: int,
    id: int,
    attackSpeed: int,
    attackRange: int,
    movementSpeed: int,
    sprintMultiplier: int,
    jumpPower: int,
    criticalChance: int,
    effects: Option<seq<Effect>>)

  /** An entity whose fields were never assigned: numbers 0, flags false, the
      effect list null (a null name is represented by the empty string). */
  const Unassigned: Entity :=
    Entity(0, "", 0, 0, 0, 0, false, false, 0, 0, 0, 0, 0, 0, 0, 0, 0, None)

  // ---------------------------------------------------------------------------
  // Clamping setters
  // ---------------------------------------------------------------------------

  /** The rule of every stat setter except Health's: a non-positive value
      becomes 1. */
  function PositiveOrOne(v: int): (r: int)
    ensures r >= 1
    ensures v > 0 ==> r == v
    ensures v <= 0 ==> r == 1
  {
    if v > 0 then v else 1
  }

  /** The Health setter's rule: a negative value becomes 0. */
  function NonNegative(v: int): (r: int)
    ensures r >= 0
    ensures v >= 0 ==> r == v
    ensures v < 0 ==> r == 0
  {
    if v >= 0 then v else 0
  }

  /** The stats whose setters apply PositiveOrOne. */
  datatype Stat =
    | MaxHealth | BaseDamage | BaseArmor | Level | Experience | AttackSpeed
    | AttackRange | MovementSpeed | SprintMultiplier | JumpPower | CriticalChance

  function Get(e: Entity, s: Stat): int {
    match s
    case MaxHealth => e.maxHealth
    case BaseDamage => e.baseDamage
    case BaseArmor => e.baseArmor
    case Level => e.level
    case Experience => e.experience
    case AttackSpeed => e.attackSpeed
    case AttackRange => e.attackRange
    case MovementSpeed => e.movementSpeed
    case SprintMultiplier => e.sprintMultiplier
    case JumpPower => e.jumpPower
    case CriticalChance => e.criticalChance
  }

  /** The fields no clamped setter writes (the clamped stats are blanked). */
  function Unclamped(e: Entity): Entity {
    e.(maxHealth := 0, baseDamage := 0, baseArmor := 0, level := 0, experience := 0,
       attackSpeed := 0, attackRange := 0, movementSpeed := 0, sprintMultiplier := 0,
       jumpPower := 0, criticalChance := 0)
  }

  /** Assigning a clamped stat: the stat becomes PositiveOrOne(v) and nothing
      else changes. */
  function Set(e: Entity, s: Stat, v: int): (r: Entity)
    ensures Get(r, s) >= 1
    ensures v > 0 ==> Get(r, s) == v
    ensures v <= 0 ==> Get(r, s) == 1
    ensures forall t :: t != s ==> Get(r, t) == Get(e, t)
    ensures Unclamped(r) == Unclamped(e)
  {
    var c := PositiveOrOne(v);
    match s
    case MaxHealth => e.(maxHealth := c)
    case BaseDamage => e.(baseDamage := c)
    case BaseArmor => e.(baseArmor := c)
    case Level => e.(level := c)
    case Experience => e.(experience := c)
    case AttackSpeed => e.(attackSpeed := c)
    case AttackRange => e.(attackRange := c)
    case MovementSpeed => e.(movementSpeed := c)
    case SprintMultiplier => e.(sprintMultiplier := c)
    case JumpPower => e.(jumpPower := c)
    case CriticalChance => e.(criticalChance := c)
  }

  /** Assigning Health: the value clamped at 0, nothing else changes. */
  function SetHealth(e: Entity, v: int): (r: Entity)
    ensures r.health >= 0
    ensures v >= 0 ==> r.health == v
    ensures v < 0 ==> r.health == 0
    ensures r.(health := e.health) == e
  {
    e.(health := NonNegative(v))
  }

  /** The state every clamping setter establishes: health at least 0 and every
      clamped stat at least 1. */
  predicate StatsValid(e: Entity) {
    && e.health >= 0 && e.maxHealth >= 1 && e.baseDamage >= 1 && e.baseArmor >= 1
    && e.level >= 1 && e.experience >= 1 && e.attackSpeed >= 1 && e.attackRange >= 1
    && e.movementSpeed >= 1 && e.sprintMultiplier >= 1 && e.jumpPower >= 1 && e.criticalChance >= 1
  }

  /** StatsValid says that health is at least 0 and every clamped stat at least 1. */
  lemma StatsValidIsClampedStats(e: Entity)
    ensures StatsValid(e) <==> e.health >= 0 && forall s :: Get(e, s) >= 1
  {
    if e.health >= 0 && forall s :: Get(e, s) >= 1 {
      assert Get(e, MaxHealth) >= 1 && Get(e, BaseDamage) >= 1 && Get(e, BaseArmor) >= 1;
      assert Get(e, Level) >= 1 && Get(e, Experience) >= 1 && Get(e, AttackSpeed) >= 1;
      assert Get(e, AttackRange) >= 1 && Get(e, MovementSpeed) >= 1 && Get(e, SprintMultiplier) >= 1;
      assert Get(e, JumpPower) >= 1 && Get(e, CriticalChance) >= 1;
    }
  }

  /** Assigning a stat that has been assigned before: only the later value
      counts. */
  lemma SetTwice(e: Entity, s: Stat, a: int, b: int)
    ensures Set(Set(e, s, a), s, b) == Set(e, s, b)
  {
    match s
    case MaxHealth =>
    case BaseDamage =>
    case BaseArmor =>
    case Level =>
    case Experience =>
    case AttackSpeed =>
    case AttackRange =>
    case MovementSpeed =>
    case SprintMultiplier =>
    case JumpPower =>
    case CriticalChance =>
  }

  // ---------------------------------------------------------------------------
  // Transitions
  // ---------------------------------------------------------------------------

  /** Heal: adds the amount through the Health setter; health is not capped at
      the maximum. */
  function Heal(e: Entity, amount: int): (r: Entity)
    ensures r.health == NonNegative(e.health + amount)
    ensures r.(health := e.health) == e
  {
    SetHealth(e, e.health + amount)
  }

  /** The armour's share of a hit: the whole hundreds of BaseArmor. */
  function ArmorReduction(e: Entity): int {
    e.baseArmor / 100
  }

  /** TakeDamage: subtracts the amount less the armour reduction, through the
      Health setter. */
  function TakeDamage(e: Entity, amount: int): (r: Entity)
    ensures r.health == NonNegative(e.health - amount + e.baseArmor / 100)
    ensures r.(health := e.health) == e
  {
    SetHealth(e, e.health - (amount - ArmorReduction(e)))
  }

  /** LevelUp: one more level, 10 more maximum health, one more damage and armour,
      then health refilled to the new maximum. */
  function LevelUp(e: Entity): (r: Entity)
    ensures r.level == PositiveOrOne(e.level + 1)
    ensures r.maxHealth == PositiveOrOne(e.maxHealth + 10)
    ensures r.baseDamage == PositiveOrOne(e.baseDamage + 1)
    ensures r.baseArmor == PositiveOrOne(e.baseArmor + 1)
    ensures r.health == r.maxHealth
    ensures forall s :: s !in {Level, MaxHealth, BaseDamage, BaseArmor} ==> Get(r, s) == Get(e, s)
    ensures Unclamped(r).(health := e.health) == Unclamped(e)
  {
    var e1 := Set(e, Level, e.level + 1);
    var e2 := Set(e1, MaxHealth, e1.maxHealth + 10);
    var e3 := Set(e2, BaseDamage, e2.baseDamage + 1);
    var e4 := Set(e3, BaseArmor, e3.baseArmor + 1);
    SetHealth(e4, e4.maxHealth)
  }

  /** The experience a level needs before the next level-up. */
  function LevelThreshold(level: int): int {
    level * 100
  }

  /** AddExperience: adds through the Experience setter, then levels up once when
      the new experience reaches the current level's threshold. Experience is
      not reset. */
  function AddExperience(e: Entity, amount: int): (r: Entity)
    ensures r.experience == PositiveOrOne(e.experience + amount)
    ensures PositiveOrOne(e.experience + amount) >= LevelThreshold(e.level) ==>
              r == LevelUp(e.(experience := r.experience))
    ensures PositiveOrOne(e.experience + amount) < LevelThreshold(e.level) ==>
              r == e.(experience := r.experience)
  {
    var e1 := Set(e, Experience, e.experience + amount);
    if e1.experience >= LevelThreshold(e1.level) then LevelUp(e1) else e1
  }

  /** Die: only the alive flag changes. */
  function Die(e: Entity): (r: Entity)
    ensures !r.isAlive
    ensures r.(isAlive := e.isAlive) == e
  {
    e.(isAlive := false)
  }

  /** Respawn: alive again, with health refilled to the maximum. */
  function Respawn(e: Entity): (r: Entity)
    ensures r.isAlive
    ensures r.health == NonNegative(e.maxHealth)
    ensures r.(isAlive := e.isAlive, health := e.health) == e
  {
    SetHealth(e.(isAlive := true), e.maxHealth)
  }

  /** Assigning Effects: a null list is replaced by an empty one. */
  function SetEffects(e: Entity, effects: Option<seq<Effect>>): (r: Entity)
    ensures r.effects.Some?
    ensures effects.Some? ==> r.effects == effects
    ensures effects.None? ==> r.effects == Some([])
    ensures r.(effects := e.effects) == e
  {
    e.(effects := Some(effects.GetOr([])))
  }

  /** AddEffect: appends to the list; a list never assigned is null. */
  function AddEffect(e: Entity, effect: Effect): (r: Result<Entity>)
    ensures e.effects.None? <==> r == Throw(NullReference)
    ensures r.Ok? ==> r.value.effects == Some(e.effects.value + [effect])
    ensures r.Ok? ==> r.value.(effects := e.effects) == e
  {
    match e.effects
    case None => Throw(NullReference)
    case Some(list) => Ok(e.(effects := Some(list + [effect])))
  }

  /** Position of the first element equal to `x` (List.IndexOf). */
  function IndexOf(list: seq<Effect>, x: Effect): (r: Option<nat>)
    ensures r.Some? ==> r.value < |list| && list[r.value] == x
    ensures r.Some? ==> forall j :: 0 <= j < r.value ==> list[j] != x
    ensures r.None? <==> x !in list
    decreases |list|
  {
    if |list| == 0 then None
    else if list[0] == x then Some(0)
    else
      match IndexOf(list[1..], x)
      case None => None
      case Some(k) => Some(k + 1)
  }

  /** List.Remove: drops the first element equal to `x`, if there is one. */
  function RemoveFirst(list: seq<Effect>, x: Effect): (r: seq<Effect>)
    ensures IndexOf(list, x).None? ==> r == list
    ensures IndexOf(list, x).Some? ==>
              var i := IndexOf(list, x).value; r == list[..i] + list[i + 1..]
    decreases |list|
  {
    if |list| == 0 then []
    else if list[0] == x then list[1..]
    else
      var rest := RemoveFirst(list[1..], x);
      var tail := list[1..];
      if IndexOf(tail, x).Some? then
        var k := IndexOf(tail, x).value;
        CutAfterHead(list, k);
        [list[0]] + rest
      else
        assert list == [list[0]] + tail;
        [list[0]] + rest
  }

  /** Cutting position k out of the tail and putting the head back is cutting
      position k + 1 out of the whole list. */
  lemma CutAfterHead<T>(list: seq<T>, k: nat)
    requires k + 1 < |list|
    ensures [list[0]] + (list[1..][..k] + list[1..][k + 1..]) == list[..k + 1] + list[k + 2..]
  {
    assert list[..k + 1] == [list[0]] + list[1..][..k];
    assert list[k + 2..] == list[1..][k + 1..];
  }

  /** RemoveEffect: removes the first equal effect; a null list throws. */
  function RemoveEffect(e: Entity, effect: Effect): (r: Result<Entity>)
    ensures e.effects.None? <==> r == Throw(NullReference)
    ensures r.Ok? ==> r.value.effects == Some(RemoveFirst(e.effects.value, effect))
    ensures r.Ok? ==> r.value.(effects := e.effects) == e
  {
    match e.effects
    case None => Throw(NullReference)
    case Some(list) => Ok(e.(effects := Some(RemoveFirst(list, effect))))
  }

  // ---------------------------------------------------------------------------
  // The id setter and its shared counter
  // ---------------------------------------------------------------------------

  /** Assigning Id: a value above the shared counter is kept, any other is
      replaced by counter + 1; the counter then moves to the new id. Returns the
      entity and the counter after the call. */
  function SetId(e: Entity, counter: int, value: int): (r: (Entity, int))
    ensures r.0.id > counter
    ensures r.1 == r.0.id
    ensures value > counter ==> r.0.id == value
    ensures value <= counter ==> r.0.id == counter + 1
    ensures r.0.(id := e.id) == e
  {
    var id := if value > counter then value else counter + 1;
    (e.(id := id), id)
  }

  /** The ids a run of Id assignments hands out, one per requested value, in
      order, with the counter after the run. */
  function AssignIds(counter: int, values: seq<int>): (r: (seq<int>, int))
    ensures |r.0| == |values|
    ensures forall i :: 0 <= i < |values| && values[i] > (if i == 0 then counter else r.0[i - 1]) ==> r.0[i] == values[i]
    ensures forall i :: 0 <= i < |values| ==> r.0[i] > counter
    ensures forall i, j :: 0 <= i < j < |values| ==> r.0[i] < r.0[j]
    ensures r.1 == (if |values| == 0 then counter else r.0[|values| - 1])
    decreases |values|
  {
    if |values| == 0 then ([], counter)
    else
      var id := SetId(Unassigned, counter, values[0]).1;
      var rest := AssignIds(id, values[1..]);
      ([id] + rest.0, rest.1)
  }
}
