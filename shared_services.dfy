/**
 * Shared properties: a fixed set of named settings, each keeping the class
 * of its default value. Setting an unknown key, or a value of another class,
 * changes nothing.
 */
module SharedServices {
  import opened Wrappers
  import opened JavaValues

  const ALLOW_NULLABLE_VALUE: string := "registry_services.allow_nullable_value"
  const DEBUG_VOLUME: string := "debug.volume"
  /** DiagnosticsMode.FAIL_FAST. */
  const FAIL_FAST: Value := EnumConstant("DiagnosticsMode", "FAIL_FAST")

  /** The properties the static initialiser loads. */
  const DEFAULTS: map<string, Value> := map[ALLOW_NULLABLE_VALUE := Boolean(true), DEBUG_VOLUME := FAIL_FAST]

  /** What set(r, value) did. */
  datatype SetOutcome =
    | Stored
    | UnknownKey        // logged, nothing changes
    | IncompatibleType  // logged, nothing changes
    | NullPointer       // value.getClass() on a null value throws

  /** `b` has the keys of `a`, each holding a value of the same class. */
  predicate SameClasses(a: map<string, Value>, b: map<string, Value>)
  {
    a.Keys == b.Keys && forall k | k in a :: ClassOf(a[k]) == ClassOf(b[k])
  }

  /** The shape the defaults give: the nullable-value flag is a Boolean and the debug volume a DiagnosticsMode. */
  predicate DefaultShape(m: map<string, Value>)
  {
    && ALLOW_NULLABLE_VALUE in m && m[ALLOW_NULLABLE_VALUE].Boolean?
    && DEBUG_VOLUME in m && ClassOf(m[DEBUG_VOLUME]) == EnumClass("DiagnosticsMode")
  }

  /** Keeping every key's class keeps the default shape. */
  lemma SameClassesKeepShape(a: map<string, Value>, b: map<string, Value>)
    requires SameClasses(a, b) && DefaultShape(a)
    ensures DefaultShape(b)
  {
    assert ClassOf(b[ALLOW_NULLABLE_VALUE]) == BooleanClass;
  }

  /** The static property table (a TreeMap). */
  class Properties {
    var properties: map<string, Value>

    /** The static initialiser. */
    constructor()
      ensures properties == DEFAULTS
      ensures DefaultShape(properties)
      ensures GetBool(ALLOW_NULLABLE_VALUE) == Some(true)
      ensures Get(DEBUG_VOLUME) == Some(FAIL_FAST)
    {
      properties := DEFAULTS;
    }

    /**
     * set(r, value): stores `value` only when `r` is known and `value` has
     * the class of what `r` holds; every key keeps its class either way.
     */
    method Set(r: string, value: Option<Value>) returns (outcome: SetOutcome)
      modifies this
      ensures r !in old(properties) ==> outcome == UnknownKey
      ensures r in old(properties) && value.None? ==> outcome == NullPointer
      ensures r in old(properties) && value.Some? && ClassOf(value.value) != ClassOf(old(properties)[r]) ==>
        outcome == IncompatibleType
      ensures outcome == Stored <==>
        r in old(properties) && value.Some? && ClassOf(value.value) == ClassOf(old(properties)[r])
      ensures outcome != Stored ==> properties == old(properties)
      ensures outcome == Stored ==> properties == old(properties)[r := value.value] && Get(r) == value
      ensures SameClasses(old(properties), properties)
    {
      if r !in properties {
        return UnknownKey;
      }
      if value.None? {
        return NullPointer;
      }
      if ClassOf(properties[r]) != ClassOf(value.value) {
        return IncompatibleType;
      }
      properties := properties[r := value.value];
      outcome := Stored;
    }

    /** get(r): the stored value, or empty for an unknown key. */
    function Get(r: string): (v: Option<Value>)
      reads this
      ensures v.None? <==> r !in properties
      ensures v.Some? ==> v.value == properties[r]
    {
      if r in properties then Some(properties[r]) else None
    }

    /** getBool(r): the flag stored under `r`, or empty unless `r` holds a Boolean. */
    function GetBool(r: string): (b: Option<bool>)
      reads this
      ensures b.Some? <==> Get(r).Some? && ClassOf(Get(r).value) == BooleanClass
      ensures b.Some? ==> Get(r) == Some(Boolean(b.value))
    {
      if r in properties && properties[r].Boolean? then Some(properties[r].b) else None
    }
  }

  /** Once the defaults are loaded, no sequence of sets can make the nullable-value flag absent. */
  lemma FlagAlwaysPresent(p: Properties)
    requires DefaultShape(p.properties)
    ensures p.GetBool(ALLOW_NULLABLE_VALUE).Some?
  {
  }
}
