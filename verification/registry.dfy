/** The module registry (`ModuleRegistry`): the registered module classes with their
    declared capabilities, hooks and dependencies, an index from each capability to
    the modules declaring it, and dependency validation. The load order lives in
    the `LoadOrder` module. */
module Registry {
  import opened Common

  /** The standard capability tags (`ModuleCapability`). */
  const CapabilityTags: seq<string> := [
    "conversation_memory", "context_injection", "voice_recognition", "emotion_detection",
    "metrics_collection", "audio_processing", "interruption_handling", "custom_commands"]

  /** What `register` reads from a module class. Whether the class has
      `get_capabilities` and `get_hooks` at all is part of the class; a missing
      `get_dependencies` reads as no dependencies. */
  datatype ModuleClass = ModuleClass(
    name: string,
    hasGetCapabilities: bool,
    hasGetHooks: bool,
    capabilities: seq<string>,
    /** Extension point name to handler method name. */
    hooks: map<string, string>,
    dependencies: seq<string>,
    /** The class docstring; empty when there is none. */
    doc: string)

  datatype ModuleInfo = ModuleInfo(
    capabilities: seq<string>,
    hooks: map<string, string>,
    dependencies: seq<string>,
    description: string)

  datatype Registry = Registry(modules: map<string, ModuleInfo>, index: map<string, set<string>>)

  function Empty(): (r: Registry)
    ensures Inv(r) && r.modules == map[]
  {
    Registry(map[], map[])
  }

  /** The index agrees with the modules: a module is listed under exactly the
      capabilities it declares, and no capability has an empty set. */
  predicate Inv(r: Registry) {
    && (forall c, n :: c in r.index && n in r.index[c] ==> n in r.modules && c in r.modules[n].capabilities)
    && (forall n, c :: n in r.modules && c in r.modules[n].capabilities ==> c in r.index && n in r.index[c])
    && (forall c :: c in r.index ==> r.index[c] != {})
  }

  /** The set a capability maps to, empty when it is not indexed. */
  function IndexSet(index: map<string, set<string>>, c: string): set<string> {
    if c in index then index[c] else {}
  }

  /** Adds `name` under every capability of `caps`, creating sets as needed. */
  function AddToIndex(index: map<string, set<string>>, caps: seq<string>, name: string): (r: map<string, set<string>>)
    ensures forall c :: c in caps ==> c in r && r[c] == IndexSet(index, c) + {name}
    ensures forall c :: c !in caps ==> (c in r <==> c in index) && (c in index ==> r[c] == index[c])
    decreases |caps|
  {
    if caps == [] then index
    else AddToIndex(index[caps[0] := IndexSet(index, caps[0]) + {name}], caps[1..], name)
  }

  /** Discards `name` from the sets of `caps`, dropping sets that become empty. */
  function RemoveFromIndex(index: map<string, set<string>>, caps: seq<string>, name: string): (r: map<string, set<string>>)
    ensures forall c :: c in caps ==> (c in r <==> IndexSet(index, c) - {name} != {})
    ensures forall c :: c in caps && c in r ==> r[c] == IndexSet(index, c) - {name}
    ensures forall c :: c !in caps ==> (c in r <==> c in index) && (c in index ==> r[c] == index[c])
    decreases |caps|
  {
    if caps == [] then index
    else
      var c := caps[0];
      var next := if c in index then
                    (if index[c] - {name} == {} then index - {c} else index[c := index[c] - {name}])
                  else index;
      RemoveFromIndex(next, caps[1..], name)
  }

  /** `register(module_class)`: a class without `get_capabilities` or `get_hooks`
      is refused with a `ValueError`; otherwise its entry is stored under the class
      name (replacing any earlier one) and indexed under each declared capability. */
  function Register(r: Registry, cls: ModuleClass): (res: Result<Registry, string>)
    ensures res.Err? <==> !cls.hasGetCapabilities || !cls.hasGetHooks
    ensures !cls.hasGetCapabilities ==> res == Err("Module " + cls.name + " must implement get_capabilities()")
    ensures cls.hasGetCapabilities && !cls.hasGetHooks ==> res == Err("Module " + cls.name + " must implement get_hooks()")
    ensures res.Ok? ==> res.value.modules == r.modules[cls.name := Info(cls)]
    ensures res.Ok? ==> forall c :: c in cls.capabilities ==> cls.name in GetModulesByCapability(res.value, c)
    ensures res.Ok? ==> forall c :: c in cls.capabilities ==>
              GetModulesByCapability(res.value, c) == GetModulesByCapability(r, c) + {cls.name}
    ensures res.Ok? ==> forall c :: c !in cls.capabilities ==>
              GetModulesByCapability(res.value, c) == GetModulesByCapability(r, c)
  {
    if !cls.hasGetCapabilities then Err("Module " + cls.name + " must implement get_capabilities()")
    else if !cls.hasGetHooks then Err("Module " + cls.name + " must implement get_hooks()")
    else Ok(Registry(r.modules[cls.name := Info(cls)], AddToIndex(r.index, cls.capabilities, cls.name)))
  }

  /** The stored entry; an empty docstring falls back to a fixed description. */
  function Info(cls: ModuleClass): (r: ModuleInfo)
    ensures r.capabilities == cls.capabilities && r.hooks == cls.hooks && r.dependencies == cls.dependencies
    ensures r.description != ""
    ensures cls.doc != "" ==> r.description == cls.doc
  {
    ModuleInfo(cls.capabilities, cls.hooks, cls.dependencies,
               if cls.doc != "" then cls.doc else "No description provided")
  }

  /** Registering a class under a new name keeps the index consistent. */
  lemma RegisterKeepsInv(r: Registry, cls: ModuleClass)
    requires Inv(r) && cls.name !in r.modules
    requires Register(r, cls).Ok?
    ensures Inv(Register(r, cls).value)
  {
    var r' := Register(r, cls).value;
    forall c, n | c in r'.index && n in r'.index[c]
      ensures n in r'.modules && c in r'.modules[n].capabilities
    {
      if c !in cls.capabilities {
        assert c in r.index && n in r.index[c];
        assert n != cls.name;
      }
    }
  }

  /** Registering a name again with fewer capabilities leaves the old name listed
      under the capability it no longer declares: the index is not cleaned. */
  lemma ReRegisterKeepsStaleEntry()
    ensures
      var cls1 := ModuleClass("M", true, true, ["voice_recognition"], map[], [], "");
      var cls2 := ModuleClass("M", true, true, [], map[], [], "");
      var r := Register(Register(Empty(), cls1).value, cls2).value;
      && "M" in GetModulesByCapability(r, "voice_recognition")
      && r.modules["M"].capabilities == []
      && !Inv(r)
  {
    var cls2 := ModuleClass("M", true, true, [], map[], [], "");
    var r := Register(Register(Empty(), ModuleClass("M", true, true, ["voice_recognition"], map[], [], "")).value, cls2).value;
    assert "voice_recognition" in r.index && "M" in r.index["voice_recognition"];
  }

  /** `unregister(name)`: an unknown name changes nothing; otherwise the module is
      discarded from the sets of its capabilities, emptied sets are dropped, and its
      entry is deleted. */
  function Unregister(r: Registry, name: string): (res: Registry)
    ensures name !in r.modules ==> res == r
    ensures res.modules == r.modules - {name}
    ensures name in r.modules ==> forall c :: c in r.modules[name].capabilities ==>
              GetModulesByCapability(res, c) == GetModulesByCapability(r, c) - {name}
    ensures name in r.modules ==> forall c :: c !in r.modules[name].capabilities ==>
              GetModulesByCapability(res, c) == GetModulesByCapability(r, c)
  {
    if name !in r.modules then r
    else Registry(r.modules - {name}, RemoveFromIndex(r.index, r.modules[name].capabilities, name))
  }

  /** Unregistering keeps the index consistent, and the module is then listed under
      no capability. */
  lemma UnregisterKeepsInv(r: Registry, name: string)
    requires Inv(r)
    ensures Inv(Unregister(r, name))
    ensures forall c :: name !in GetModulesByCapability(Unregister(r, name), c)
  {
    if name in r.modules {
      var r' := Unregister(r, name);
      var caps := r.modules[name].capabilities;
      forall c, n | c in r'.index && n in r'.index[c]
        ensures n in r'.modules && c in r'.modules[n].capabilities
      {
        assert c in r.index && n in r.index[c] && n != name;
      }
      forall c | c in r'.index
        ensures name !in r'.index[c]
      {
        if c !in caps {
          assert name !in r.index[c];
        }
      }
    }
  }

  /** Register then unregister of a new name gives back the same modules and the
      same capability lookups. */
  lemma UnregisterUndoesRegister(r: Registry, cls: ModuleClass, c: string)
    requires Inv(r) && cls.name !in r.modules
    requires Register(r, cls).Ok?
    ensures Unregister(Register(r, cls).value, cls.name).modules == r.modules
    ensures GetModulesByCapability(Unregister(Register(r, cls).value, cls.name), c) == GetModulesByCapability(r, c)
  {
    var r' := Register(r, cls).value;
    var r2 := Unregister(r', cls.name);
    assert cls.name in r'.modules && r'.modules[cls.name].capabilities == cls.capabilities;
    assert r2.modules == r.modules by {
      assert r2.modules == r.modules[cls.name := Info(cls)] - {cls.name};
    }
    if c in cls.capabilities {
      var before := GetModulesByCapability(r, c);
      assert cls.name !in before;
      assert GetModulesByCapability(r2, c) == (before + {cls.name}) - {cls.name};
      assert (before + {cls.name}) - {cls.name} == before;
    } else {
      assert GetModulesByCapability(r2, c) == GetModulesByCapability(r', c);
    }
  }

  /** `get_modules_by_capability(c)`, as a set (the source lists a set in no
      particular order). Under the invariant it holds exactly the registered
      modules declaring `c`. */
  function GetModulesByCapability(r: Registry, c: string): (names: set<string>)
    ensures Inv(r) ==> forall n :: n in names <==> n in r.modules && c in r.modules[n].capabilities
    ensures names == {} <==> c !in r.index || r.index[c] == {}
  {
    IndexSet(r.index, c)
  }

  /** `validate_dependencies(name)`: whether every declared dependency is
      registered, with the missing ones in declaration order; an unknown module is
      invalid with a single explanatory message. */
  function ValidateDependencies(r: Registry, name: string): (res: (bool, seq<string>))
    ensures name !in r.modules ==> res == (false, ["Module " + name + " not found"])
    ensures name in r.modules ==>
              (res.0 <==> forall i :: 0 <= i < |r.modules[name].dependencies| ==> r.modules[name].dependencies[i] in r.modules)
    ensures name in r.modules ==> res.1 == Filter(r.modules[name].dependencies, (d: string) => d !in r.modules)
    ensures name in r.modules ==> (res.0 <==> res.1 == [])
  {
    if name !in r.modules then (false, ["Module " + name + " not found"])
    else
      var deps := r.modules[name].dependencies;
      var missing := Filter(deps, (d: string) => d !in r.modules);
      assert missing == [] <==> forall i :: 0 <= i < |deps| ==> deps[i] in r.modules by {
        if missing != [] { assert missing[0] in deps; }
      }
      (missing == [], missing)
  }
}
