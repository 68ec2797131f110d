/**
 * use_Def: the definition of one property of a property file: its key,
 * formal name, default value and a group of guards that judge a raw value.
 * Judging a value records whether the definition is VALID or INVALID.
 */
module UseDefs {
  import opened Wrappers

  /** def_State. */
  datatype DefState = NotLoaded | Valid | Invalid

  /** An impl_DGuard: check(value). */
  type Guard = string -> bool

  /** The verdict call() returns as written: each guard's result overwrites the last, so only the last guard counts. */
  function LastVerdict(guards: seq<Guard>, arg: string): (r: bool)
    ensures guards == [] ==> r
  {
    if guards == [] then true else guards[|guards| - 1](arg)
  }

  /** Every guard of the group accepts the value. */
  predicate AllPass(guards: seq<Guard>, arg: string)
  {
    forall i | 0 <= i < |guards| :: guards[i](arg)
  }

  /** A guard that rejects followed by one that accepts: call() as written says valid, though a guard rejected. */
  lemma LastGuardOnly()
    ensures LastVerdict([(s: string) => false, (s: string) => true], "x")
    ensures !AllPass([(s: string) => false, (s: string) => true], "x")
  {
    var g: seq<Guard> := [(s: string) => false, (s: string) => true];
    assert !g[0]("x");
  }

  /** The two verdicts agree whenever there is at most one guard. */
  lemma VerdictsAgreeOnOneGuard(guards: seq<Guard>, arg: string)
    requires |guards| <= 1
    ensures LastVerdict(guards, arg) == AllPass(guards, arg)
  {
  }

  function StateOf(verdict: bool): (s: DefState)
    ensures s != NotLoaded
    ensures s == Valid <==> verdict
  {
    if verdict then Valid else Invalid
  }

  /** use_Def<T>, with the modifier's type `M` and the action's type `A` left open. */
  class UseDef<T, M, A> {
    const key: string
    const propertyName: string
    const propertyDefaultValue: T
    /** coalesce: the guard group. */
    const coalesce: seq<Guard>
    const modifier: Option<M>
    const actionPotential: Option<A>
    var optDescriptor: Option<string>
    var myState: DefState

    /**
     * use_Def(modifier, action, descriptor, key, property_name, default, guards...):
     * a null modifier, action or descriptor is kept as an empty Optional;
     * the definition starts NOT_LOADED.
     */
    constructor(potentialModifier: Option<M>, action: Option<A>, descriptor: Option<string>,
                key: string, propertyName: string, propertyDefaultValue: T, guards: seq<Guard>)
      ensures modifier == potentialModifier && actionPotential == action && optDescriptor == descriptor
      ensures this.key == key && this.propertyName == propertyName
      ensures this.propertyDefaultValue == propertyDefaultValue && coalesce == guards
      ensures State() == NotLoaded
    {
      this.key := key;
      this.modifier := potentialModifier;
      this.actionPotential := action;
      this.propertyDefaultValue := propertyDefaultValue;
      this.propertyName := propertyName;
      this.coalesce := guards;
      this.optDescriptor := descriptor;
      this.myState := NotLoaded;
    }

    /** use_Def(key, property_name, default, guards...): no modifier, action or descriptor. */
    constructor WithoutExtras(key: string, propertyName: string, propertyDefaultValue: T, guards: seq<Guard>)
      ensures modifier.None? && actionPotential.None? && optDescriptor.None?
      ensures this.key == key && this.propertyName == propertyName
      ensures this.propertyDefaultValue == propertyDefaultValue && coalesce == guards
      ensures State() == NotLoaded
    {
      this.key := key;
      this.modifier := None;
      this.actionPotential := None;
      this.propertyDefaultValue := propertyDefaultValue;
      this.propertyName := propertyName;
      this.coalesce := guards;
      this.optDescriptor := None;
      this.myState := NotLoaded;
    }

    /** state(). */
    function State(): DefState
      reads this
    {
      myState
    }

    /**
     * call(arg) as written: every guard runs, each verdict overwriting the
     * one before; the last one (true with no guards) is returned and
     * recorded as the state.
     */
    method CallAsWritten(arg: string) returns (r: bool)
      modifies this
      ensures r == LastVerdict(coalesce, arg)
      ensures State() == StateOf(r)
      ensures optDescriptor == old(optDescriptor)
    {
      r := true;
      for i := 0 to |coalesce|
        invariant i > 0 ==> r == coalesce[i - 1](arg)
        invariant i == 0 ==> r
      {
        r := coalesce[i](arg);
      }
      myState := StateOf(r);
    }

    /**
     * call(arg) as the guard group is evidently meant to work: the value is
     * valid only when every guard accepts it (true with no guards).
     */
    method Call(arg: string) returns (r: bool)
      modifies this
      ensures r == AllPass(coalesce, arg)
      ensures State() == StateOf(r)
      ensures optDescriptor == old(optDescriptor)
    {
      r := true;
      for i := 0 to |coalesce|
        invariant r == AllPass(coalesce[..i], arg)
      {
        r := r && coalesce[i](arg);
      }
      assert coalesce[..|coalesce|] == coalesce;
      myState := StateOf(r);
    }
  }
}
