/** The module service (`ModuleService`): module instances keyed by instance name,
    created from classes in the module registry, with a running flag that gates
    initialisation.

    A new instance's name joins the class name and the instance's identity
    (`id(module)`), given here as the parameter `id`. Whether constructing,
    initialising or cleaning up an instance raises is given by parameters. */
module ModuleService {
  import opened Common
  import Registry
  import Numbers

  /** A module instance: its class (the registry key), configuration and flag. */
  datatype Instance = Instance(cls: string, config: map<string, Value>, enabled: bool)

  datatype Service = Service(modules: OMap<Instance>, registry: Registry.Registry, running: bool)

  predicate Inv(s: Service) {
    ValidMap(s.modules)
  }

  function Init(): (s: Service)
    ensures Inv(s) && s.modules.keys == [] && !s.running && s.registry == Registry.Empty()
  {
    Service(EmptyMap(), Registry.Empty(), false)
  }

  /** `start()`: a running service is left alone; otherwise it starts and tries to
      initialise every enabled instance, in order. Returns the instance names
      whose `initialize` was called. A raising `initialize` is logged only. */
  function Start(s: Service): (r: (Service, seq<string>))
    requires Inv(s)
    ensures s.running ==> r == (s, [])
    ensures r.0.running && r.0.modules == s.modules && r.0.registry == s.registry
    ensures !s.running ==> forall n :: n in r.1 <==> n in s.modules.entries && s.modules.entries[n].enabled
  {
    if s.running then (s, [])
    else (s.(running := true), Filter(s.modules.keys, (n: string) => n in s.modules.entries && s.modules.entries[n].enabled))
  }

  /** `stop()`: a stopped service is left alone; otherwise it stops and cleans up
      every instance, enabled or not, in order. Returns the instance names whose
      `cleanup` was called; instances are kept. */
  function Stop(s: Service): (r: (Service, seq<string>))
    requires Inv(s)
    ensures !s.running ==> r == (s, [])
    ensures !r.0.running && r.0.modules == s.modules && r.0.registry == s.registry
    ensures s.running ==> forall n :: n in r.1 <==> n in s.modules.entries
  {
    if !s.running then (s, []) else (s.(running := false), s.modules.keys)
  }

  /** Starting twice is starting once; stopping twice is stopping once. */
  lemma StartStopIdempotent(s: Service)
    requires Inv(s)
    ensures Start(Start(s).0) == (Start(s).0, [])
    ensures Stop(Stop(s).0) == (Stop(s).0, [])
  {
  }

  /** `register_module_class(cls)`: registration errors propagate. */
  function RegisterModuleClass(s: Service, cls: Registry.ModuleClass): (r: Result<Service, string>)
    ensures r.Err? <==> Registry.Register(s.registry, cls).Err?
    ensures r.Ok? ==> r.value.registry == Registry.Register(s.registry, cls).value
    ensures r.Ok? ==> r.value.modules == s.modules && r.value.running == s.running
  {
    match Registry.Register(s.registry, cls)
    case Ok(reg) => Ok(s.(registry := reg))
    case Err(e) => Err(e)
  }

  /** `f"{module_name}_{id(module)}"`. */
  function InstanceName(moduleName: string, id: nat): (r: string)
    ensures |r| > |moduleName| + 1 && r[..|moduleName|] == moduleName && r[|moduleName|] == '_'
  {
    moduleName + "_" + Numbers.NatToString(id)
  }

  /** `load_module(module_name, config)`: an unregistered name or a raising
      constructor gives `False` and changes nothing. Otherwise the instance is
      stored, and then initialised when the service runs; a raising `initialize`
      gives `False` but the stored instance stays. `config` already has `None`
      replaced by the empty map. */
  function LoadModule(s: Service, moduleName: string, config: map<string, Value>, id: nat,
                      constructRaises: bool, initializeRaises: bool): (r: (Service, bool))
    requires Inv(s)
    ensures Inv(r.0) && r.0.registry == s.registry && r.0.running == s.running
    ensures moduleName !in s.registry.modules || constructRaises ==> r == (s, false)
    ensures r.1 <==> moduleName in s.registry.modules && !constructRaises && !(s.running && initializeRaises)
    ensures moduleName in s.registry.modules && !constructRaises ==>
              && InstanceName(moduleName, id) in r.0.modules.entries
              && r.0.modules.entries[InstanceName(moduleName, id)] == Instance(moduleName, config, true)
              && (forall n :: n != InstanceName(moduleName, id) ==>
                    (n in r.0.modules.entries <==> n in s.modules.entries)
                    && (n in s.modules.entries ==> r.0.modules.entries[n] == s.modules.entries[n]))
    ensures moduleName in s.registry.modules && !constructRaises && InstanceName(moduleName, id) !in s.modules.entries ==>
              |r.0.modules.keys| == |s.modules.keys| + 1
  {
    if moduleName !in s.registry.modules || constructRaises then (s, false)
    else
      var name := InstanceName(moduleName, id);
      var s' := s.(modules := Put(s.modules, name, Instance(moduleName, config, true)));
      (s', !(s.running && initializeRaises))
  }

  /** `unload_module(instance_name)`: an unknown name or a raising `cleanup` gives
      `False` and keeps the instance; otherwise the instance is removed. */
  function UnloadModule(s: Service, instanceName: string, cleanupRaises: bool): (r: (Service, bool))
    requires Inv(s)
    ensures Inv(r.0) && r.0.registry == s.registry && r.0.running == s.running
    ensures r.1 <==> instanceName in s.modules.entries && !cleanupRaises
    ensures !r.1 ==> r.0 == s
    ensures r.1 ==> r.0.modules.entries == s.modules.entries - {instanceName}
    ensures r.1 ==> r.0.modules.keys == Filter(s.modules.keys, (n: string) => n != instanceName)
  {
    if instanceName !in s.modules.entries || cleanupRaises then (s, false)
    else (s.(modules := Remove(s.modules, instanceName)), true)
  }

  /** Loading an instance under a fresh name and unloading it restores the service. */
  lemma UnloadUndoesLoad(s: Service, moduleName: string, config: map<string, Value>, id: nat, initializeRaises: bool)
    requires Inv(s) && moduleName in s.registry.modules
    requires InstanceName(moduleName, id) !in s.modules.entries
    ensures var s1 := LoadModule(s, moduleName, config, id, false, initializeRaises).0;
            UnloadModule(s1, InstanceName(moduleName, id), false) == (s, true)
  {
    RemoveUndoesPut(s.modules, InstanceName(moduleName, id), Instance(moduleName, config, true));
  }

  /** `get_active_modules()`: the enabled instances, in order. */
  function GetActiveModules(s: Service): (r: seq<Instance>)
    requires Inv(s)
    ensures forall i :: 0 <= i < |r| ==> r[i].enabled && r[i] in s.modules.entries.Values
    ensures forall n :: n in s.modules.entries && s.modules.entries[n].enabled ==> s.modules.entries[n] in r
  {
    var vals := Values(s.modules);
    assert forall n :: n in s.modules.entries ==> s.modules.entries[n] in vals by {
      forall n | n in s.modules.entries ensures s.modules.entries[n] in vals {
        var i :| 0 <= i < |s.modules.keys| && s.modules.keys[i] == n;
        assert vals[i] == s.modules.entries[n];
      }
    }
    Filter(vals, (m: Instance) => m.enabled)
  }

  /** Whether the registry entry of an instance's class lists the capability. */
  predicate Provides(reg: Registry.Registry, m: Instance, capability: string) {
    m.cls in reg.modules && capability in reg.modules[m.cls].capabilities
  }

  /** `get_modules_by_capability(capability)`: the instances, in order, whose
      class's registry entry lists the capability. */
  function GetModulesByCapability(s: Service, capability: string): (r: seq<Instance>)
    requires Inv(s)
    ensures forall i :: 0 <= i < |r| ==> r[i] in Values(s.modules) && Provides(s.registry, r[i], capability)
    ensures forall i :: 0 <= i < |s.modules.keys| && Provides(s.registry, Values(s.modules)[i], capability) ==>
              Values(s.modules)[i] in r
  {
    Filter(Values(s.modules), (m: Instance) => Provides(s.registry, m, capability))
  }

  /** With a consistent registry, the capability lookup of the service agrees with
      the registry's own index. */
  lemma CapabilityLookupAgrees(s: Service, capability: string, m: Instance)
    requires Inv(s) && Registry.Inv(s.registry) && m in Values(s.modules)
    ensures m in GetModulesByCapability(s, capability) <==>
            m.cls in Registry.GetModulesByCapability(s.registry, capability)
  {
    var vals := Values(s.modules);
    var i :| 0 <= i < |vals| && vals[i] == m;
    assert i < |s.modules.keys|;
  }

  /** The values of a map with a fresh key added are the old values followed by
      the new one. */
  lemma ValuesAfterPut<V>(m: OMap<V>, k: string, v: V)
    requires ValidMap(m) && k !in m.entries
    ensures Values(Put(m, k, v)) == Values(m) + [v]
  {
    var r := Put(m, k, v);
    assert forall i :: 0 <= i < |m.keys| ==> r.keys[i] == m.keys[i] && m.keys[i] != k;
  }

  /** The lookup keeps loading order: an instance loaded under a fresh name is
      listed after every earlier one, and only when its class provides the
      capability. */
  lemma CapabilityAfterLoad(s: Service, moduleName: string, config: map<string, Value>, id: nat,
                            initializeRaises: bool, capability: string)
    requires Inv(s) && moduleName in s.registry.modules
    requires InstanceName(moduleName, id) !in s.modules.entries
    ensures var s1 := LoadModule(s, moduleName, config, id, false, initializeRaises).0;
            var m := Instance(moduleName, config, true);
            GetModulesByCapability(s1, capability)
            == GetModulesByCapability(s, capability) + (if Provides(s.registry, m, capability) then [m] else [])
  {
    var m := Instance(moduleName, config, true);
    var s1 := LoadModule(s, moduleName, config, id, false, initializeRaises).0;
    assert s1.modules == Put(s.modules, InstanceName(moduleName, id), m);
    ValuesAfterPut(s.modules, InstanceName(moduleName, id), m);
    var p := (x: Instance) => Provides(s.registry, x, capability);
    FilterConcat(Values(s.modules), [m], p);
    assert [m][1..] == [];
  }
}
