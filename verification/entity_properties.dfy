/** Properties of the entity transitions: the setter invariant they keep, what
    heal and damage do to each other, how experience turns into levels, and
    the round trips of the effect list. */
module EntityProperties {
  import opened Outcomes
  import opened Effects
  import opened Entities

  /** Assigning any stat, or health, keeps the setter invariant. */
  lemma SettersKeepStatsValid(e: Entity, s: Stat, v: int)
    requires StatsValid(e)
    ensures StatsValid(Set(e, s, v)) && StatsValid(SetHealth(e, v))
  {
    StatsValidIsClampedStats(e);
    StatsValidIsClampedStats(Set(e, s, v));
  }

  /** Every transition keeps the invariant the clamping setters establish. */
  lemma TransitionsKeepStatsValid(e: Entity, amount: int, effect: Effect, counter: int, v: int)
    requires StatsValid(e)
    ensures StatsValid(Heal(e, amount)) && StatsValid(TakeDamage(e, amount))
    ensures StatsValid(LevelUp(e)) && StatsValid(AddExperience(e, amount))
    ensures StatsValid(Die(e)) && StatsValid(Respawn(e))
    ensures StatsValid(SetEffects(e, None)) && StatsValid(SetId(e, counter, v).0)
    ensures AddEffect(e, effect).Ok? ==> StatsValid(AddEffect(e, effect).value)
    ensures RemoveEffect(e, effect).Ok? ==> StatsValid(RemoveEffect(e, effect).value)
  {
    StatsValidIsClampedStats(LevelUp(e));
    StatsValidIsClampedStats(LevelUp(Set(e, Experience, e.experience + amount)));
  }

  /** On a valid entity a level-up adds exactly 1 level, 10 maximum health,
      1 damage and 1 armour, and leaves the entity at full health. */
  lemma LevelUpIncrements(e: Entity)
    requires StatsValid(e)
    ensures var r := LevelUp(e);
            && r.level == e.level + 1 && r.maxHealth == e.maxHealth + 10
            && r.baseDamage == e.baseDamage + 1 && r.baseArmor == e.baseArmor + 1
            && r.health == r.maxHealth
  {
    assert Get(e, Level) >= 1 && Get(e, MaxHealth) >= 1 && Get(e, BaseDamage) >= 1 && Get(e, BaseArmor) >= 1;
  }

  /** AddExperience levels up exactly once when the new experience reaches
      100 times the current level, and not at all otherwise; the experience
      total is kept, not reset. */
  lemma AddExperienceLevelsOnce(e: Entity, amount: int)
    requires StatsValid(e)
    ensures var r := AddExperience(e, amount);
            var gained := PositiveOrOne(e.experience + amount);
            && r.experience == gained
            && (gained >= 100 * e.level <==> r.level == e.level + 1)
            && (gained < 100 * e.level <==> r.level == e.level)
  {
    assert Get(e, Level) >= 1 && Get(e, MaxHealth) >= 1 && Get(e, BaseDamage) >= 1 && Get(e, BaseArmor) >= 1;
  }

  /** Healing is not capped: a positive amount raises health by exactly that
      much, even past the maximum. */
  lemma HealIsUncapped(e: Entity, amount: int)
    requires e.health >= 0 && amount >= 0
    ensures Heal(e, amount).health == e.health + amount
    ensures e.health >= e.maxHealth && amount > 0 ==> Heal(e, amount).health > e.maxHealth
  {
  }

  /** With less than 100 armour a hit undoes a heal of the same size. */
  lemma DamageUndoesHeal(e: Entity, amount: int)
    requires e.health >= 0 && amount >= 0 && 0 <= e.baseArmor < 100
    ensures TakeDamage(Heal(e, amount), amount) == e
  {
  }

  /** A harder hit never leaves more health, and more armour never leaves less. */
  lemma DamageMonotone(e: Entity, a: int, b: int, armor: int)
    requires a <= b && e.baseArmor <= armor
    ensures TakeDamage(e, b).health <= TakeDamage(e, a).health
    ensures TakeDamage(e, a).health <= TakeDamage(e.(baseArmor := armor), a).health
  {
    assert e.baseArmor / 100 <= armor / 100 by {
      DivMonotone(e.baseArmor, armor);
    }
  }

  lemma DivMonotone(x: int, y: int)
    requires x <= y
    ensures x / 100 <= y / 100
  {
  }

  /** The armour reduction is the floor of BaseArmor / 100 taken over the reals,
      which is what the float division followed by Floor computes for armour
      values a float holds exactly. */
  lemma ArmorReductionIsFloor(e: Entity)
    ensures (ArmorReduction(e) as real) <= (e.baseArmor as real) / 100.0 < (ArmorReduction(e) + 1) as real
  {
    var q := e.baseArmor / 100;
    var m := e.baseArmor % 100;
    assert e.baseArmor == 100 * q + m && 0 <= m < 100;
    assert (e.baseArmor as real) / 100.0 == q as real + (m as real) / 100.0;
  }

  /** Respawn overwrites everything Die changed, and dying twice is dying once. */
  lemma DieRespawn(e: Entity)
    ensures Respawn(Die(e)) == Respawn(e)
    ensures Die(Die(e)) == Die(e)
    ensures Die(Respawn(e)).health == NonNegative(e.maxHealth)
  {
  }

  /** Removing an element takes exactly one copy of it out of the list. */
  lemma RemoveFirstTakesOne(list: seq<Effect>, x: Effect)
    requires x in list
    ensures |RemoveFirst(list, x)| == |list| - 1
    ensures multiset(RemoveFirst(list, x)) == multiset(list) - multiset{x}
  {
    var i := IndexOf(list, x).value;
    RemoveAtBag(list, i);
  }

  /** Cutting position i out of a list takes one copy of list[i] out of its multiset. */
  lemma RemoveAtBag(list: seq<Effect>, i: nat)
    requires i < |list|
    ensures |list[..i] + list[i + 1..]| == |list| - 1
    ensures multiset(list[..i] + list[i + 1..]) == multiset(list) - multiset{list[i]}
  {
    var before, after := list[..i], list[i + 1..];
    assert list == before + [list[i]] + after;
    var a, b := multiset(before), multiset(after);
    assert multiset(list) == a + multiset{list[i]} + b;
    assert forall e :: (a + multiset{list[i]} + b - multiset{list[i]})[e] == (a + b)[e];
  }

  /** Removing an effect just added to a list that did not hold it gives the
      entity back. */
  lemma AddThenRemoveEffect(e: Entity, effect: Effect)
    requires e.effects.Some? && effect !in e.effects.value
    ensures AddEffect(e, effect).Ok?
    ensures RemoveEffect(AddEffect(e, effect).value, effect) == Ok(e)
  {
    var list := e.effects.value;
    var added := list + [effect];
    assert added[|list|] == effect;
    assert forall j :: 0 <= j < |list| ==> added[j] == list[j];
    assert IndexOf(added, effect) == Some(|list|);
    assert added[..|list|] == list;
    assert added[|list| + 1..] == [];
    assert RemoveFirst(added, effect) == list;
  }

  /** Ids handed out by the Id setter never repeat, and a requested id above
      every earlier one is honoured. */
  lemma {:induction false} AssignedIdsDistinct(counter: int, values: seq<int>)
    ensures var r := AssignIds(counter, values);
            && (forall i, j :: 0 <= i < |values| && 0 <= j < |values| && i != j ==> r.0[i] != r.0[j])
            && r.1 >= counter
  {
    var r := AssignIds(counter, values);
    forall i, j | 0 <= i < |values| && 0 <= j < |values| && i != j
      ensures r.0[i] != r.0[j]
    {
      if i < j {
        assert r.0[i] < r.0[j];
      } else {
        assert r.0[j] < r.0[i];
      }
    }
    if |values| > 0 {
      assert r.0[|values| - 1] > counter;
    }
  }
}
