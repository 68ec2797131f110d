/**
 * RegistryServices: the static table of ephemeral registries by id, and
 * the armed flag the service waits for.
 */
module RegistryServices {
  import opened Wrappers
  import opened JavaInt
  import opened JavaValues
  import opened JavaText
  import opened RegistryEntries
  import opened RegistryEntryFactories
  import opened EphemeralRegistries
  import opened SharedServices

  class Registries {
    var objects: map<int32, EphemeralRegistry>
    var armed: bool

    constructor()
      ensures objects == map[] && !armed
    {
      objects := map[];
      armed := false;
    }

    /** armService(): afterwards the service is armed, however often it is called. */
    method ArmService()
      modifies this
      ensures armed && objects == old(objects)
    {
      if !armed {
        armed := true;
      }
    }

    /** runOnArmed(r): runs `r` (returned here) only once the service is armed. */
    method RunOnArmed<R>(r: R) returns (ran: seq<R>)
      ensures armed ==> ran == [r]
      ensures !armed ==> ran == []
    {
      ran := if armed then [r] else [];
    }

    /**
     * registerEphemeralRegistry(id, config): panics when `id` is taken;
     * otherwise the registry the config describes is stored under `id`,
     * unless building it throws, which changes nothing.
     */
    method RegisterEphemeralRegistry(id: int32, config: EphemeralRegistryConfig) returns (res: Result<(), RegistryError>)
      modifies this
      ensures armed == old(armed)
      ensures id in old(objects) ==> res == Err(RegistryExists(id))
      ensures res.Err? ==> objects == old(objects)
      ensures res.Ok? ==>
        && id !in old(objects)
        && objects.Keys == old(objects).Keys + {id}
        && (forall k | k in old(objects) :: objects[k] == old(objects)[k])
        && fresh(objects[id]) && objects[id].Valid()
        && objects[id].objectName == config.rootName
      ensures id !in old(objects) && config.loadFactor > 0.0 && config.entries.None? ==>
        res.Ok? && objects[id].leaves == map[]
    {
      if id in objects {
        return Err(RegistryExists(id));
      }
      var reg := EphemeralRegistry.New(config);
      if reg.Err? {
        return Err(reg.error);
      }
      objects := objects[id := reg.value];
      res := Ok(());
    }

    /** getEphemeral(id): the registry stored under `id`; panics when there is none. */
    function GetEphemeral(id: int32): (r: Result<EphemeralRegistry, RegistryError>)
      reads this
      ensures r.Err? <==> id !in objects
      ensures r.Err? ==> r.error == NoSuchRegistry(id)
      ensures r.Ok? ==> r.value == objects[id]
    {
      if id in objects then Ok(objects[id]) else Err(NoSuchRegistry(id))
    }
  }

  /**
   * The registry test's steps: arm, register registry 1 named "test_exoad",
   * register a collated entry "entry#1" with no initial value and a default
   * object, then read the entry's value. The registry is found, carries its
   * root name, and the entry holds the default object.
   */
  method RegistryServicesScenario() returns (found: bool, name: string, value: Result<Option<Value>, RegistryError>)
    ensures found && name == "test_exoad"
    ensures value == Ok(Some(Instance("java.lang.Object", 0)))
  {
    var shared := new Properties();
    var reg := RegisterTestRegistry();
    found := true;
    name := reg.objectName;
    var ref := Instance("java.lang.Object", 0);
    var entry := CollateWithDefault(shared, ref);
    PlainLeafName();
    var added := reg.RegisterEntry("entry#1", entry);
    value := reg.AcquireEntryValue("entry#1");
  }

  /** Arming, then registering registry 1 from a config with no entries, makes getEphemeral(1) succeed with an empty registry. */
  method RegisterTestRegistry() returns (reg: EphemeralRegistry)
    ensures fresh(reg) && reg.Valid() && reg.leaves == map[] && reg.objectName == "test_exoad"
  {
    var services := new Registries();
    services.ArmService();
    var registered := services.RegisterEphemeralRegistry(1, EphemeralRegistryConfig("test_exoad", 0.75, None));
    var r := services.GetEphemeral(1);
    reg := r.value;
  }

  /**
   * A factory given a name, an accept-all check and a default, but no value,
   * collates (with the default shared properties) into an entry holding the
   * default.
   */
  method CollateWithDefault(shared: Properties, ref: Value) returns (entry: RegistryEntry)
    requires shared.properties == DEFAULTS
    ensures fresh(entry) && entry.GetCurrentValue() == Some(ref) && entry.DefaultValue() == Some(ref)
  {
    var factory := new RegistryEntryFactory.Make();
    factory.WithCanonicalName(Some("Test Entry #1"));
    factory.WithCheck(Some((v: Option<Value>) => true));
    factory.WithDefaultValue(Some(ref));
    var r := factory.Collate(shared);
    entry := r.value;
  }

  /** "entry#1" is a valid leaf name and already lower-case. */
  lemma PlainLeafName()
    ensures FormatLeafName("entry#1") == Ok("entry#1")
  {
    var n := "entry#1";
    assert !HasForbiddenChar(n) by {
      forall i | 0 <= i < |n|
        ensures n[i] !in FORBIDDEN_CHARS
      {
      }
    }
    assert ToLower(n) == n by {
      forall i | 0 <= i < |n|
        ensures LowerChar(n[i]) == n[i]
      {
      }
    }
  }
}
