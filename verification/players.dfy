/** PlayerModel: an entity with three ability slots, initialised through the
    entity's clamping setters. */
module Players {
  import opened Outcomes
  import opened Abilities
  import opened Entities

  /** A player; a null ability reference is `None`. */
  datatype Player = Player(
    entity: Entity,
    ability1: Option<Ability>,
    ability2: Option<Ability>,
    ultimate: Option<Ability>)

  /** The stat arguments of the PlayerModel constructor, in its parameter order. */
  datatype PlayerArgs = PlayerArgs(
    name: string,
    maxHealthPoints: int,
    healthRegenerationIndex: int,
    baseDamage: int,
    baseArmor: int,
    attackRange: int,
    attackSpeed: int,
    movementSpeed: int,
    sprintMultiplier: int,
    jumpHeight: int,
    criticalChance: int)

  /** The PlayerModel constructor: every property is assigned through its setter,
      in the order the constructor assigns them, starting from an entity whose
      fields were never assigned. Level and experience are assigned 0 and Health
      is assigned MaxHealth last. Id and Effects are not assigned. */
  function NewPlayer(args: PlayerArgs, ability1: Option<Ability>, ability2: Option<Ability>,
                     ultimate: Option<Ability>, isVisible: bool, isAlive: bool): (r: Player)
    ensures r.entity.name == args.name
    ensures r.entity.maxHealth == PositiveOrOne(args.maxHealthPoints)
    ensures r.entity.health == r.entity.maxHealth
    ensures r.entity.healthRegenerationFactor == args.healthRegenerationIndex
    ensures r.entity.baseDamage == PositiveOrOne(args.baseDamage)
    ensures r.entity.baseArmor == PositiveOrOne(args.baseArmor)
    ensures r.entity.attackRange == PositiveOrOne(args.attackRange)
    ensures r.entity.attackSpeed == PositiveOrOne(args.attackSpeed)
    ensures r.entity.movementSpeed == PositiveOrOne(args.movementSpeed)
    ensures r.entity.sprintMultiplier == PositiveOrOne(args.sprintMultiplier)
    ensures r.entity.jumpPower == PositiveOrOne(args.jumpHeight)
    ensures r.entity.criticalChance == PositiveOrOne(args.criticalChance)
    ensures r.entity.level == 1 && r.entity.experience == 1
    ensures r.entity.isVisible == isVisible && r.entity.isAlive == isAlive
    ensures r.entity.id == 0 && r.entity.effects.None?
    ensures r.ability1 == ability1 && r.ability2 == ability2 && r.ultimate == ultimate
    ensures StatsValid(r.entity)
  {
    var e0 := Unassigned.(name := args.name);
    var e1 := Set(e0, MaxHealth, args.maxHealthPoints);
    var e2 := e1.(healthRegenerationFactor := args.healthRegenerationIndex);
    var e3 := Set(e2, BaseDamage, args.baseDamage);
    var e4 := Set(e3, BaseArmor, args.baseArmor);
    var e5 := Set(e4, AttackRange, args.attackRange);
    var e6 := Set(e5, AttackSpeed, args.attackSpeed);
    var e7 := Set(e6, MovementSpeed, args.movementSpeed);
    var e8 := Set(e7, SprintMultiplier, args.sprintMultiplier);
    var e9 := Set(e8, JumpPower, args.jumpHeight);
    var e10 := Set(e9, CriticalChance, args.criticalChance);
    var e11 := e10.(isVisible := isVisible, isAlive := isAlive);
    var e12 := Set(e11, Level, 0);
    var e13 := Set(e12, Experience, 0);
    var e := SetHealth(e13, e13.maxHealth);
    Player(e, ability1, ability2, ultimate)
  }

  /** The constructor with its two optional flags left at their defaults. */
  function NewPlayerWithDefaults(args: PlayerArgs, ability1: Option<Ability>, ability2: Option<Ability>,
                                 ultimate: Option<Ability>): (r: Player)
    ensures r.entity.isVisible && r.entity.isAlive
    ensures r.entity.level == 1 && r.entity.health == r.entity.maxHealth
  {
    NewPlayer(args, ability1, ability2, ultimate, true, true)
  }

  /** A fresh player reaches level 2 exactly when it gains at least 99
      experience at once, because its experience starts at 1 and level 1 needs 100. */
  lemma {:induction false} FreshPlayerFirstLevelUp(args: PlayerArgs, a1: Option<Ability>, a2: Option<Ability>,
                                                   ult: Option<Ability>, amount: int)
    ensures var e := NewPlayerWithDefaults(args, a1, a2, ult).entity;
            (AddExperience(e, amount).level == 2 <==> amount >= 99)
  {
    var e := NewPlayerWithDefaults(args, a1, a2, ult).entity;
    assert e.level == 1 && e.experience == 1;
    assert StatsValid(e) by {
      assert NewPlayer(args, a1, a2, ult, true, true).entity == e;
    }
    var gained := PositiveOrOne(e.experience + amount);
    if amount >= 99 {
      assert gained >= 100;
    } else {
      assert gained < 100;
    }
  }
}
