/** AbilityModel: a player ability with a damage value and a cooldown, stamped
    with an id drawn from a counter shared by all abilities. The static counter
    is threaded through explicitly. */
module Abilities {

  datatype Ability = Ability(
    id: int,
    name: string,
    description: string,
    damage: int,
    cooldown: int,
    currentCooldown: int,
    iconPath: string,
    modelPath: string,
    prefabPath: string)

  /** The constructor arguments of one ability. */
  datatype AbilityArgs = AbilityArgs(
    name: string, description: string, damage: int, cooldown: int,
    iconPath: string, modelPath: string, prefabPath: string)

  /** The fields an ability was constructed from. */
  function ArgsOf(a: Ability): AbilityArgs {
    AbilityArgs(a.name, a.description, a.damage, a.cooldown, a.iconPath, a.modelPath, a.prefabPath)
  }

  /** The AbilityModel constructor: increments the counter and takes the new
      value as the id; the current cooldown is not assigned and starts at 0. */
  function NewAbility(counter: int, args: AbilityArgs): (r: (Ability, int))
    ensures r.1 == counter + 1
    ensures r.0.id == r.1
    ensures ArgsOf(r.0) == args
    ensures r.0.currentCooldown == 0
  {
    var next := counter + 1;
    (Ability(next, args.name, args.description, args.damage, args.cooldown, 0,
             args.iconPath, args.modelPath, args.prefabPath), next)
  }

  /** Constructs one ability per argument record, in order. */
  function NewAbilities(counter: int, args: seq<AbilityArgs>): (r: (seq<Ability>, int))
    ensures |r.0| == |args| && r.1 == counter + |args|
    ensures forall i :: 0 <= i < |args| ==> r.0[i].id == counter + i + 1
    ensures forall i :: 0 <= i < |args| ==> ArgsOf(r.0[i]) == args[i] && r.0[i].currentCooldown == 0
    decreases |args|
  {
    if |args| == 0 then ([], counter)
    else
      var first := NewAbility(counter, args[0]);
      var rest := NewAbilities(first.1, args[1..]);
      ([first.0] + rest.0, rest.1)
  }

  /** Abilities constructed one after another carry strictly increasing ids,
      all above the counter's starting value. */
  lemma {:induction false} AbilityIdsIncrease(counter: int, args: seq<AbilityArgs>)
    ensures var r := NewAbilities(counter, args);
            && (forall i, j :: 0 <= i < j < |r.0| ==> counter < r.0[i].id < r.0[j].id <= r.1)
  {
  }

  /** UseAbility: restarts the cooldown at its full length. */
  function UseAbility(a: Ability): (r: Ability)
    ensures r.currentCooldown == a.cooldown
    ensures r.(currentCooldown := a.currentCooldown) == a
  {
    a.(currentCooldown := a.cooldown)
  }

  /** Using an ability twice leaves it as using it once. */
  lemma UseAbilityIdempotent(a: Ability)
    ensures UseAbility(UseAbility(a)) == UseAbility(a)
  {
  }
}
