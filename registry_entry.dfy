/**
 * Registry entries: a leaf's current value, the check that guards it and
 * its default. Entries made by RegistryEntryFactory.collate override the
 * base behaviour; other subclasses keep it.
 */
module RegistryEntries {
  import opened Wrappers
  import opened JavaValues

  /** What the registry code panics or throws with. */
  datatype RegistryError =
    | BadLoadFactor           // EphemeralRegistry: loadFactor <= 0
    | ForbiddenName(name: string)
    | LeafExists(name: string)
    | NoSuchLeaf(name: string)
    | RegistryExists(id: int)
    | NoSuchRegistry(id: int)
    | MissingCheck            // collate before withCheck
    | MissingDefault          // collate before withDefaultValue
    | MissingCanonicalName    // collate before withCanonicalName
    | RejectedValue           // withValue with no check, or one the check refuses

  /** A check functor: Functor11<Boolean,Object>, called on a possibly null value. */
  type Check = Option<Value> -> bool

  /** Which RegistryEntry an object is. */
  datatype Kind =
    | Plain(name: string)     // a subclass that overrides only getCanonicalName
    | Collated(check: Check, defaultValue: Value, canonicalName: string)  // built by collate

  class RegistryEntry {
    var currentValue: Option<Value>
    const kind: Kind

    constructor Plain(name: string)
      ensures kind.Plain? && kind.name == name && currentValue == None
    {
      kind := Kind.Plain(name);
      currentValue := None;
    }

    /** The anonymous subclass collate creates, starting from the factory's current value. */
    constructor Collated(check: Check, defaultValue: Value, canonicalName: string, current: Option<Value>)
      ensures kind.Collated? && kind.check == check && kind.defaultValue == defaultValue
      ensures kind.canonicalName == canonicalName && currentValue == current
    {
      kind := Kind.Collated(check, defaultValue, canonicalName);
      currentValue := current;
    }

    /** check(r): the base accepts every value; a collated entry asks its functor. */
    function Check(r: Option<Value>): (ok: bool)
      ensures kind.Plain? ==> ok
      ensures kind.Collated? ==> ok == kind.check(r)
    {
      match kind
      case Plain(_) => true
      case Collated(check, _, _) => check(r)
    }

    function GetCurrentValue(): Option<Value>
      reads this
    {
      currentValue
    }

    /**
     * setCurrentValue(r): the base sets unconditionally; a collated entry
     * ignores a value its check refuses.
     */
    method SetCurrentValue(r: Option<Value>)
      modifies this
      ensures Check(r) ==> GetCurrentValue() == r
      ensures !Check(r) ==> GetCurrentValue() == old(GetCurrentValue())
      ensures kind.Plain? ==> GetCurrentValue() == r
    {
      if Check(r) {
        currentValue := r;
      }
    }

    /** defaultValue(): empty for the base, Optional.of(the default) for a collated entry. */
    function DefaultValue(): (d: Option<Value>)
      ensures kind.Plain? ==> d.None?
      ensures kind.Collated? ==> d == Some(kind.defaultValue)
    {
      match kind
      case Plain(_) => None
      case Collated(_, defaultValue, _) => Some(defaultValue)
    }

    function GetCanonicalName(): string
    {
      match kind
      case Plain(name) => name
      case Collated(_, _, name) => name
    }
  }
}
