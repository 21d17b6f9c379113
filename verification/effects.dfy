/** EffectModel: a named modifier with a value and a duration, stamped with an
    id drawn from a counter shared by all effects. The static counter is
    threaded through explicitly: a constructor takes the counter's value before
    the call and returns its value after. */
module Effects {

  datatype Effect = Effect(id: int, name: string, description: string, value: int, duration: int)

  /** The constructor arguments of one effect. */
  datatype EffectArgs = EffectArgs(name: string, description: string, value: int, duration: int)

  /** The EffectModel constructor: increments the counter and takes the new
      value as the id; the other fields are stored as given. */
  function NewEffect(counter: int, args: EffectArgs): (r: (Effect, int))
    ensures r.1 == counter + 1
    ensures r.0.id == r.1
    ensures r.0.id > counter
    ensures r.0.name == args.name && r.0.description == args.description
    ensures r.0.value == args.value && r.0.duration == args.duration
  {
    var next := counter + 1;
    (Effect(next, args.name, args.description, args.value, args.duration), next)
  }

  /** Constructs one effect per argument record, in order. */
  function NewEffects(counter: int, args: seq<EffectArgs>): (r: (seq<Effect>, int))
    ensures |r.0| == |args| && r.1 == counter + |args|
    ensures forall i :: 0 <= i < |args| ==> r.0[i].id == counter + i + 1
    ensures forall i :: 0 <= i < |args| ==>
              r.0[i] == Effect(r.0[i].id, args[i].name, args[i].description, args[i].value, args[i].duration)
    decreases |args|
  {
    if |args| == 0 then ([], counter)
    else
      var first := NewEffect(counter, args[0]);
      var rest := NewEffects(first.1, args[1..]);
      ([first.0] + rest.0, rest.1)
  }

  /** Effects constructed one after another carry strictly increasing ids, all
      above the counter's starting value, so no two of them share an id. */
  lemma {:induction false} EffectIdsIncrease(counter: int, args: seq<EffectArgs>)
    ensures var r := NewEffects(counter, args);
            && (forall i, j :: 0 <= i < j < |r.0| ==> counter < r.0[i].id < r.0[j].id <= r.1)
  {
  }
}
