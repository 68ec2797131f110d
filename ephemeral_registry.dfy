/**
 * EphemeralRegistry: leaves (registry entries) by name. Names are checked
 * against a list of forbidden sequences and stored lower-cased, so lookup
 * ignores ASCII case.
 */
module EphemeralRegistries {
  import opened Wrappers
  import opened JavaValues
  import opened JavaText
  import opened BasicService
  import opened RegistryEntries

  /** NOT_ALLOWED_SEQUENCES. */
  const NOT_ALLOWED_SEQUENCES: seq<string> := [">", "<", "/", "?", "\"", "'", "[", "]", ";", ":", "!"]

  /** The characters those one-character sequences are. */
  const FORBIDDEN_CHARS: set<char> := {'>', '<', '/', '?', '"', '\'', '[', ']', ';', ':', '!'}

  /** Each forbidden sequence is one forbidden character. */
  lemma ForbiddenSequencesAreChars()
    ensures forall i | 0 <= i < |NOT_ALLOWED_SEQUENCES| :: |NOT_ALLOWED_SEQUENCES[i]| == 1 && NOT_ALLOWED_SEQUENCES[i][0] in FORBIDDEN_CHARS
    ensures forall c | c in FORBIDDEN_CHARS :: exists i | 0 <= i < |NOT_ALLOWED_SEQUENCES| :: NOT_ALLOWED_SEQUENCES[i] == [c]
  {
    forall c | c in FORBIDDEN_CHARS
      ensures exists i | 0 <= i < |NOT_ALLOWED_SEQUENCES| :: NOT_ALLOWED_SEQUENCES[i] == [c]
    {
      if c == '>' { assert NOT_ALLOWED_SEQUENCES[0] == [c]; }
      else if c == '<' { assert NOT_ALLOWED_SEQUENCES[1] == [c]; }
      else if c == '/' { assert NOT_ALLOWED_SEQUENCES[2] == [c]; }
      else if c == '?' { assert NOT_ALLOWED_SEQUENCES[3] == [c]; }
      else if c == '"' { assert NOT_ALLOWED_SEQUENCES[4] == [c]; }
      else if c == '\'' { assert NOT_ALLOWED_SEQUENCES[5] == [c]; }
      else if c == '[' { assert NOT_ALLOWED_SEQUENCES[6] == [c]; }
      else if c == ']' { assert NOT_ALLOWED_SEQUENCES[7] == [c]; }
      else if c == ';' { assert NOT_ALLOWED_SEQUENCES[8] == [c]; }
      else if c == ':' { assert NOT_ALLOWED_SEQUENCES[9] == [c]; }
      else { assert NOT_ALLOWED_SEQUENCES[10] == [c]; }
    }
  }

  predicate HasForbiddenChar(name: string)
  {
    exists i | 0 <= i < |name| :: name[i] in FORBIDDEN_CHARS
  }

  /** A name contains a forbidden sequence exactly when it has a forbidden character. */
  lemma ForbiddenIffChar(name: string)
    ensures AnyContained(name, NOT_ALLOWED_SEQUENCES) <==> HasForbiddenChar(name)
  {
    ForbiddenSequencesAreChars();
    if AnyContained(name, NOT_ALLOWED_SEQUENCES) {
      var i :| 0 <= i < |NOT_ALLOWED_SEQUENCES| && Contains(name, NOT_ALLOWED_SEQUENCES[i]);
      var c := NOT_ALLOWED_SEQUENCES[i][0];
      assert NOT_ALLOWED_SEQUENCES[i] == [c];
      ContainsChar(name, c);
    }
    if HasForbiddenChar(name) {
      var j :| 0 <= j < |name| && name[j] in FORBIDDEN_CHARS;
      var i :| 0 <= i < |NOT_ALLOWED_SEQUENCES| && NOT_ALLOWED_SEQUENCES[i] == [name[j]];
      ContainsChar(name, name[j]);
    }
  }

  /**
   * assertLeafNameFormat(name): panics when the name contains a forbidden
   * sequence; otherwise the name lower-cased.
   */
  function FormatLeafName(name: string): (r: Result<string, RegistryError>)
    ensures r.Err? <==> HasForbiddenChar(name)
    ensures r.Err? ==> r.error == ForbiddenName(name)
    ensures r.Ok? ==> r.value == ToLower(name)
  {
    ForbiddenIffChar(name);
    if AnyContained(name, NOT_ALLOWED_SEQUENCES) then Err(ForbiddenName(name)) else Ok(ToLower(name))
  }

  /** Lower-casing neither adds nor removes a forbidden character (none of them is a letter). */
  lemma LowerKeepsForbidden(name: string)
    ensures HasForbiddenChar(ToLower(name)) <==> HasForbiddenChar(name)
  {
    var l := ToLower(name);
    if HasForbiddenChar(name) {
      var i :| 0 <= i < |name| && name[i] in FORBIDDEN_CHARS;
      assert l[i] == name[i];
    }
    if HasForbiddenChar(l) {
      var i :| 0 <= i < |l| && l[i] in FORBIDDEN_CHARS;
      assert l[i] == LowerChar(name[i]);
    }
  }

  /** A formatted name formats to itself. */
  lemma FormatIdempotent(name: string)
    requires FormatLeafName(name).Ok?
    ensures FormatLeafName(FormatLeafName(name).value) == FormatLeafName(name)
  {
    LowerKeepsForbidden(name);
    ToLowerIdempotent(name);
  }

  /** Names equal up to ASCII case format alike: both are refused, or both give the same key. */
  lemma FormatIgnoresCase(a: string, b: string)
    requires ToLower(a) == ToLower(b)
    ensures FormatLeafName(a) == FormatLeafName(b) || (FormatLeafName(a).Err? && FormatLeafName(b).Err?)
  {
    LowerKeepsForbidden(a);
    LowerKeepsForbidden(b);
  }

  /** Every key is its own formatted name: valid and lower-case. */
  predicate WellFormedKeys<E>(leaves: map<string, E>)
  {
    forall k | k in leaves :: FormatLeafName(k) == Ok(k)
  }

  /**
   * The leaves the constructor builds from its initial entries, in order:
   * each name formatted (a later duplicate replaces an earlier one); the
   * first invalid name panics.
   */
  function InitialLeaves<E>(entries: seq<(string, E)>): (r: Result<map<string, E>, RegistryError>)
    ensures r.Ok? ==> WellFormedKeys(r.value)
  {
    if entries == [] then Ok(map[])
    else
      var last := entries[|entries| - 1];
      match InitialLeaves(entries[..|entries| - 1])
      case Err(e) => Err(e)
      case Ok(m) =>
        match FormatLeafName(last.0)
        case Err(e) => Err(e)
        case Ok(n) =>
          FormatIdempotent(last.0);
          Ok(m[n := last.1])
  }

  /** Every initial entry is stored under its lower-cased name, the last one given for that name winning. */
  lemma {:induction false} InitialLeavesStoreAll<E>(entries: seq<(string, E)>)
    requires InitialLeaves(entries).Ok?
    ensures forall i | 0 <= i < |entries| :: ToLower(entries[i].0) in InitialLeaves(entries).value
    ensures |entries| > 0 ==>
      InitialLeaves(entries).value[ToLower(entries[|entries| - 1].0)] == entries[|entries| - 1].1
  {
    if entries != [] {
      var p := entries[..|entries| - 1];
      var last := entries[|entries| - 1];
      InitialLeavesStoreAll(p);
      var m := InitialLeaves(p).value;
      var n := FormatLeafName(last.0).value;
      assert InitialLeaves(entries).value == m[n := last.1];
      forall i | 0 <= i < |entries|
        ensures ToLower(entries[i].0) in InitialLeaves(entries).value
      {
        if i < |p| {
          assert entries[i] == p[i];
        }
      }
    }
  }

  /** Once a prefix of the entries fails, so does the whole list, with the same error. */
  lemma {:induction false} InitialLeavesErrorPersists<E>(entries: seq<(string, E)>, k: nat)
    requires k <= |entries| && InitialLeaves(entries[..k]).Err?
    ensures InitialLeaves(entries) == InitialLeaves(entries[..k])
    decreases |entries| - k
  {
    if k < |entries| {
      assert entries[..k + 1][..k] == entries[..k];
      InitialLeavesErrorPersists(entries, k + 1);
    } else {
      assert entries[..k] == entries;
    }
  }

  /** The constructor's loop over its initial entries. */
  method BuildLeaves<E>(es: seq<(string, E)>) returns (r: Result<map<string, E>, RegistryError>)
    ensures r == InitialLeaves(es)
  {
    var acc: map<string, E> := map[];
    var i := 0;
    while i < |es|
      invariant 0 <= i <= |es|
      invariant InitialLeaves(es[..i]) == Ok(acc)
    {
      assert es[..i + 1][..i] == es[..i];
      var name := FormatLeafName(es[i].0);
      if name.Err? {
        InitialLeavesErrorPersists(es, i + 1);
        return Err(name.error);
      }
      acc := acc[name.value := es[i].1];
      i := i + 1;
    }
    assert es[..i] == es;
    r := Ok(acc);
  }

  /** The registry's name as the constructor leaves it: rootName is never stored, so the name stays "". */
  function InitialObjectNameAsWritten(rootName: string): (n: string)
    ensures |n| == 0
  {
    ""
  }

  /** A registry made with a non-empty root name does not report that name. */
  lemma RootNameLost(rootName: string)
    requires rootName != ""
    ensures InitialObjectNameAsWritten(rootName) != rootName
  {
  }

  /** The name a registry is evidently meant to carry: its root name. */
  function InitialObjectName(rootName: string): (n: string)
    ensures n == rootName
  {
    rootName
  }

  /** EphemeralRegistryConfig: the root name, the hash-table load factor and optional initial entries. */
  datatype EphemeralRegistryConfig = EphemeralRegistryConfig(
    rootName: string, loadFactor: real, entries: Option<seq<(string, RegistryEntry)>>)

  class EphemeralRegistry {
    var leaves: map<string, RegistryEntry>
    /** getObjectName(). */
    var objectName: string

    predicate Valid()
      reads this
    {
      WellFormedKeys(leaves)
    }

    constructor Init(name: string, initial: map<string, RegistryEntry>)
      requires WellFormedKeys(initial)
      ensures leaves == initial && objectName == name && Valid()
    {
      leaves := initial;
      objectName := name;
    }

    /**
     * EphemeralRegistry(rootName, loadFactor, entries): a load factor <= 0
     * throws; then each initial entry is stored under its formatted name, and
     * the first invalid name panics.
     */
    static method New(config: EphemeralRegistryConfig) returns (r: Result<EphemeralRegistry, RegistryError>)
      ensures config.loadFactor <= 0.0 ==> r == Err(BadLoadFactor)
      ensures config.loadFactor > 0.0 && config.entries.None? ==> r.Ok? && r.value.leaves == map[]
      ensures config.loadFactor > 0.0 && config.entries.Some? ==>
        (r.Ok? <==> InitialLeaves(config.entries.value).Ok?)
      ensures config.loadFactor > 0.0 && config.entries.Some? && r.Err? ==>
        r == Err(InitialLeaves(config.entries.value).error)
      ensures config.loadFactor > 0.0 && config.entries.Some? && r.Ok? ==>
        r.value.leaves == InitialLeaves(config.entries.value).value
      ensures r.Ok? ==> fresh(r.value) && r.value.Valid() && r.value.objectName == InitialObjectName(config.rootName)
    {
      if config.loadFactor <= 0.0 {
        return Err(BadLoadFactor);
      }
      var acc: map<string, RegistryEntry> := map[];
      if config.entries.Some? {
        var built := BuildLeaves(config.entries.value);
        if built.Err? {
          return Err(built.error);
        }
        acc := built.value;
      }
      var reg := new EphemeralRegistry.Init(InitialObjectName(config.rootName), acc);
      r := Ok(reg);
    }

    /**
     * acquireEntry(name): panics for an invalid name and throws for one not
     * registered; otherwise the entry under the formatted name.
     */
    function AcquireEntry(name: string): (r: Result<RegistryEntry, RegistryError>)
      reads this
      ensures FormatLeafName(name).Err? ==> r == Err(ForbiddenName(name))
      ensures FormatLeafName(name).Ok? && ToLower(name) !in leaves ==> r == Err(NoSuchLeaf(ToLower(name)))
      ensures r.Ok? <==> FormatLeafName(name).Ok? && ToLower(name) in leaves
      ensures r.Ok? ==> r.value == leaves[ToLower(name)]
    {
      match FormatLeafName(name)
      case Err(e) => Err(e)
      case Ok(n) => if n in leaves then Ok(leaves[n]) else Err(NoSuchLeaf(n))
    }

    /**
     * registerEntry(name, entry): panics for an invalid name and throws when
     * the formatted name is taken; otherwise adds exactly that one leaf.
     */
    method RegisterEntry(name: string, entry: RegistryEntry) returns (res: Result<(), RegistryError>)
      requires Valid()
      modifies this
      ensures Valid() && objectName == old(objectName)
      ensures FormatLeafName(name).Err? ==> res == Err(ForbiddenName(name))
      ensures FormatLeafName(name).Ok? && ToLower(name) in old(leaves) ==> res == Err(LeafExists(ToLower(name)))
      ensures res.Err? ==> leaves == old(leaves)
      ensures res.Ok? <==> FormatLeafName(name).Ok? && ToLower(name) !in old(leaves)
      ensures res.Ok? ==>
        && leaves == old(leaves)[ToLower(name) := entry]
        && |leaves| == |old(leaves)| + 1
        && AcquireEntry(name) == Ok(entry)
    {
      var n := FormatLeafName(name);
      if n.Err? {
        return Err(n.error);
      }
      if n.value in leaves {
        return Err(LeafExists(n.value));
      }
      FormatIdempotent(name);
      leaves := leaves[n.value := entry];
      res := Ok(());
    }

    /** acquireEntryValue(name) (from BaseRegistry): the current value of the named leaf. */
    function AcquireEntryValue(name: string): (r: Result<Option<Value>, RegistryError>)
      reads this, leaves.Values
      ensures r.Ok? <==> AcquireEntry(name).Ok?
      ensures r.Err? ==> r.error == AcquireEntry(name).error
      ensures r.Ok? ==> r.value == AcquireEntry(name).value.GetCurrentValue()
    {
      match AcquireEntry(name)
      case Err(e) => Err(e)
      case Ok(entry) => Ok(entry.currentValue)
    }

    /** inferTyping(): this registry never reports entry types. */
    function InferTyping(): (r: Option<set<string>>)
      ensures r.None?
    {
      None
    }
  }

  /** Lookup ignores case: names equal up to ASCII case find the same leaf, or fail alike. */
  lemma LookupIgnoresCase(reg: EphemeralRegistry, a: string, b: string)
    requires ToLower(a) == ToLower(b)
    ensures reg.AcquireEntry(a).Ok? <==> reg.AcquireEntry(b).Ok?
    ensures reg.AcquireEntry(a).Ok? ==> reg.AcquireEntry(a) == reg.AcquireEntry(b)
  {
    FormatIgnoresCase(a, b);
  }
}
