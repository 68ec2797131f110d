/**
 * RegistryEntryFactory: a builder whose with* calls set a check, a default,
 * a canonical name and an initial value; collate checks that the required
 * parts are set and builds the entry.
 */
module RegistryEntryFactories {
  import opened Wrappers
  import opened JavaValues
  import opened RegistryEntries
  import opened SharedServices

  /**
   * The value a collated entry starts with: a null value becomes the default
   * whenever the nullable-value flag is present as a Boolean, whatever the
   * flag says.
   */
  function InitialValue(current: Option<Value>, defaultValue: Value, flag: Option<bool>): (v: Option<Value>)
    ensures current.Some? ==> v == current
    ensures current.None? && flag.Some? ==> v == Some(defaultValue)
    ensures current.None? && flag.None? ==> v.None?
  {
    if current.None? && flag.Some? then Some(defaultValue) else current
  }

  /** Only the flag's presence matters, not its value. */
  lemma FlagValueIgnored(current: Option<Value>, defaultValue: Value)
    ensures InitialValue(current, defaultValue, Some(true)) == InitialValue(current, defaultValue, Some(false))
  {
  }

  class RegistryEntryFactory {
    var check: Option<Check>
    var defaultValue: Option<Value>
    var canonicalName: Option<string>
    var currentValue: Option<Value>

    /** make(): nothing is set yet. */
    constructor Make()
      ensures check.None? && defaultValue.None? && canonicalName.None? && currentValue.None?
    {
      check, defaultValue, canonicalName, currentValue := None, None, None, None;
    }

    /** withCheck(check). */
    method WithCheck(c: Option<Check>)
      modifies this
      ensures check == c
      ensures defaultValue == old(defaultValue) && canonicalName == old(canonicalName) && currentValue == old(currentValue)
    {
      check := c;
    }

    /** withCanonicalName(name). */
    method WithCanonicalName(name: Option<string>)
      modifies this
      ensures canonicalName == name
      ensures check == old(check) && defaultValue == old(defaultValue) && currentValue == old(currentValue)
    {
      canonicalName := name;
    }

    /** withDefaultValue(defaultCheck). */
    method WithDefaultValue(d: Option<Value>)
      modifies this
      ensures defaultValue == d
      ensures check == old(check) && canonicalName == old(canonicalName) && currentValue == old(currentValue)
    {
      defaultValue := d;
    }

    /**
     * withValue(value): panics unless a check is set and accepts `value`;
     * otherwise `value` becomes the initial value.
     */
    method WithValue(value: Option<Value>) returns (res: Result<(), RegistryError>)
      modifies this
      ensures res.Ok? <==> check.Some? && check.value(value)
      ensures res.Err? ==> res.error == RejectedValue && currentValue == old(currentValue)
      ensures res.Ok? ==> currentValue == value
      ensures check == old(check) && defaultValue == old(defaultValue) && canonicalName == old(canonicalName)
    {
      if check.None? || !check.value(value) {
        return Err(RejectedValue);
      }
      currentValue := value;
      res := Ok(());
    }

    /** The first unset required part, in the order checkTargets asserts them. */
    function Missing(): (e: Option<RegistryError>)
      reads this
      ensures e.None? <==> check.Some? && defaultValue.Some? && canonicalName.Some?
      ensures check.None? ==> e == Some(MissingCheck)
      ensures check.Some? && defaultValue.None? ==> e == Some(MissingDefault)
      ensures check.Some? && defaultValue.Some? && canonicalName.None? ==> e == Some(MissingCanonicalName)
    {
      if check.None? then Some(MissingCheck)
      else if defaultValue.None? then Some(MissingDefault)
      else if canonicalName.None? then Some(MissingCanonicalName)
      else None
    }

    /**
     * checkTargets(): panics on the first unset required part; otherwise a
     * null initial value is replaced by the default when the shared
     * nullable-value flag is present.
     */
    method CheckTargets(shared: Properties) returns (res: Result<(), RegistryError>)
      modifies this
      ensures check == old(check) && defaultValue == old(defaultValue) && canonicalName == old(canonicalName)
      ensures res.Err? <==> old(Missing()).Some?
      ensures res.Err? ==> res.error == old(Missing()).value && currentValue == old(currentValue)
      ensures res.Ok? ==> currentValue == InitialValue(old(currentValue), defaultValue.value, shared.GetBool(ALLOW_NULLABLE_VALUE))
    {
      var missing := Missing();
      if missing.Some? {
        return Err(missing.value);
      }
      if currentValue.None? && shared.GetBool(ALLOW_NULLABLE_VALUE).Some? {
        currentValue := defaultValue;
      }
      res := Ok(());
    }

    /**
     * collate(): after checkTargets, a new entry that guards its value with
     * the factory's check, reports the factory's default and name, and
     * starts from the (possibly defaulted) initial value.
     */
    method Collate(shared: Properties) returns (r: Result<RegistryEntry, RegistryError>)
      modifies this
      ensures check == old(check) && defaultValue == old(defaultValue) && canonicalName == old(canonicalName)
      ensures r.Err? <==> old(Missing()).Some?
      ensures r.Err? ==> r.error == old(Missing()).value && currentValue == old(currentValue)
      ensures r.Ok? ==>
        && fresh(r.value)
        && r.value.kind.Collated?
        && Some(r.value.kind.check) == check
        && Some(r.value.kind.defaultValue) == defaultValue
        && Some(r.value.kind.canonicalName) == canonicalName
        && r.value.DefaultValue() == defaultValue
        && currentValue == InitialValue(old(currentValue), defaultValue.value, shared.GetBool(ALLOW_NULLABLE_VALUE))
        && r.value.GetCurrentValue() == currentValue
    {
      var checked := CheckTargets(shared);
      if checked.Err? {
        return Err(checked.error);
      }
      var entry := new RegistryEntry.Collated(check.value, defaultValue.value, canonicalName.value, currentValue);
      r := Ok(entry);
    }
  }
}
