/** The module loader (`ModuleLoader`): loaded module instances by name, each
    subscribed to the event bus under the wildcard type while it is loaded, and
    frame processing that shows every frame to the enabled modules before
    forwarding it.

    Constructing, initialising, cleaning up and running a module are foreign code;
    whether each of them raises is given by the module class or by a parameter. A
    module's `on_event` is a callback identity on the bus. */
module ModuleLoader {
  import opened Common
  import opened Frames
  import EventBus

  /** The type under which a loaded module's `on_event` is subscribed. */
  const Wildcard: string := "*"

  /** What the loader needs from a module class. */
  datatype ModuleClass = ModuleClass(
    name: string,
    constructRaises: bool,
    initializeRaises: bool,
    hasProcessFrame: bool)

  /** A loaded module (`MaestroCatModule`); `handler` is its bound `on_event`. */
  datatype Instance = Instance(
    handler: EventBus.CallbackId,
    cls: string,
    name: string,
    config: map<string, Value>,
    enabled: bool,
    hasProcessFrame: bool)

  datatype Loader = Loader(modules: OMap<Instance>, emitter: Option<EventBus.Bus>)

  predicate Inv(l: Loader) {
    ValidMap(l.modules)
  }

  function Init(emitter: Option<EventBus.Bus>): (l: Loader)
    ensures Inv(l) && ListModules(l) == [] && l.emitter == emitter
  {
    Loader(EmptyMap(), emitter)
  }

  /** `config.get("name", cls.__name__)`. */
  function ModuleName(cls: ModuleClass, config: map<string, Value>): (name: string)
    ensures "name" in config && config["name"].Str? ==> name == config["name"].s
    ensures "name" !in config ==> name == cls.name
  {
    if "name" in config && config["name"].Str? then config["name"].s else cls.name
  }

  /** `get_module(name)`. */
  function GetModule(l: Loader, name: string): (r: Option<Instance>)
    ensures r.Some? <==> name in l.modules.entries
    ensures r.Some? ==> r.value == l.modules.entries[name]
  {
    if name in l.modules.entries then Some(l.modules.entries[name]) else None
  }

  /** `list_modules()`: the names of the loaded modules, in loading order. */
  function ListModules(l: Loader): (names: seq<string>)
    requires Inv(l)
    ensures Distinct(names)
    ensures forall n :: n in names <==> GetModule(l, n).Some?
  {
    l.modules.keys
  }

  /** Why loading failed: the exception propagates to the caller. */
  datatype LoadError = ConstructFailed(moduleName: string) | InitializeFailed(moduleName: string)

  /** The `module_loaded` marker pushed after a successful load. */
  function LoadedFrame(name: string, config: map<string, Value>): Frame {
    SystemFrame("module_loaded", Some(map["name" := Str(name), "config" := Dict(config)]))
  }

  /** `load_module(cls, config)`: construct, initialise, store under the name
      (replacing any module of that name), subscribe `on_event` under the wildcard
      when there is a bus, and announce. A failure while constructing or
      initialising propagates and changes nothing. `handler` is the new instance's
      `on_event`. */
  function LoadModule(l: Loader, cls: ModuleClass, config: map<string, Value>, handler: EventBus.CallbackId)
    : (r: Result<(Loader, Push), LoadError>)
    requires Inv(l)
    ensures r.Err? <==> cls.constructRaises || cls.initializeRaises
    ensures cls.constructRaises ==> r == Err(ConstructFailed(ModuleName(cls, config)))
    ensures r.Ok? ==> Inv(r.value.0)
    ensures r.Ok? ==> GetModule(r.value.0, ModuleName(cls, config))
                      == Some(Instance(handler, cls.name, ModuleName(cls, config), config, true, cls.hasProcessFrame))
    ensures r.Ok? ==> forall n :: n != ModuleName(cls, config) ==> GetModule(r.value.0, n) == GetModule(l, n)
    ensures r.Ok? && ModuleName(cls, config) in ListModules(l) ==> ListModules(r.value.0) == ListModules(l)
    ensures r.Ok? && ModuleName(cls, config) !in ListModules(l) ==>
              ListModules(r.value.0) == ListModules(l) + [ModuleName(cls, config)]
    ensures r.Ok? ==> (r.value.0.emitter.Some? <==> l.emitter.Some?)
    ensures r.Ok? && l.emitter.Some? ==>
              EventBus.Subscribers(r.value.0.emitter.value, Wildcard) == EventBus.Subscribers(l.emitter.value, Wildcard) + [handler]
    ensures r.Ok? ==> r.value.1 == Push(LoadedFrame(ModuleName(cls, config), config), Downstream)
  {
    var name := ModuleName(cls, config);
    if cls.constructRaises then Err(ConstructFailed(name))
    else if cls.initializeRaises then Err(InitializeFailed(name))
    else
      var inst := Instance(handler, cls.name, name, config, true, cls.hasProcessFrame);
      var emitter := if l.emitter.Some? then Some(EventBus.Subscribe(l.emitter.value, Wildcard, handler)) else None;
      Ok((Loader(Put(l.modules, name, inst), emitter), Push(LoadedFrame(name, config), Downstream)))
  }

  /** `unload_module(name)`: an unknown name changes nothing and pushes nothing.
      Otherwise the module is cleaned up, its `on_event` unsubscribed from the
      wildcard, its entry deleted, and the unload announced. A raising cleanup
      propagates and changes nothing. */
  function UnloadModule(l: Loader, name: string, cleanupRaises: bool): (r: Result<(Loader, seq<Push>), string>)
    requires Inv(l)
    ensures name !in ListModules(l) ==> r == Ok((l, []))
    ensures r.Err? <==> name in ListModules(l) && cleanupRaises
    ensures r.Ok? ==> Inv(r.value.0)
    ensures r.Ok? ==> GetModule(r.value.0, name).None?
    ensures r.Ok? ==> forall n :: n != name ==> GetModule(r.value.0, n) == GetModule(l, n)
    ensures r.Ok? ==> ListModules(r.value.0) == Filter(ListModules(l), (n: string) => n != name)
    ensures r.Ok? && name in ListModules(l) ==>
              r.value.1 == [Push(SystemFrame("module_unloaded", Some(map["name" := Str(name)])), Downstream)]
    ensures r.Ok? && name in ListModules(l) && l.emitter.Some? ==>
              r.value.0.emitter == Some(EventBus.Unsubscribe(l.emitter.value, Wildcard, l.modules.entries[name].handler))
  {
    if name !in l.modules.entries then
      assert Filter(l.modules.keys, (n: string) => n != name) == l.modules.keys by {
        FilterAll(l.modules.keys, (n: string) => n != name);
      }
      Ok((l, []))
    else if cleanupRaises then Err(name)
    else
      var inst := l.modules.entries[name];
      var emitter := if l.emitter.Some? then Some(EventBus.Unsubscribe(l.emitter.value, Wildcard, inst.handler)) else None;
      var pushed := [Push(SystemFrame("module_unloaded", Some(map["name" := Str(name)])), Downstream)];
      Ok((Loader(Remove(l.modules, name), emitter), pushed))
  }

  /** Loading a module under a new name and unloading it again leaves the loaded
      modules, their order and the wildcard subscriptions as they were. */
  lemma UnloadUndoesLoad(l: Loader, cls: ModuleClass, config: map<string, Value>, handler: EventBus.CallbackId)
    requires Inv(l) && ModuleName(cls, config) !in ListModules(l)
    requires l.emitter.Some? ==> handler !in EventBus.Subscribers(l.emitter.value, Wildcard)
    requires LoadModule(l, cls, config, handler).Ok?
    ensures var l1 := LoadModule(l, cls, config, handler).value.0;
            var r := UnloadModule(l1, ModuleName(cls, config), false);
            && r.Ok?
            && r.value.0.modules == l.modules
            && (l.emitter.Some? ==>
                  EventBus.Subscribers(r.value.0.emitter.value, Wildcard) == EventBus.Subscribers(l.emitter.value, Wildcard))
  {
    var name := ModuleName(cls, config);
    var l1 := LoadModule(l, cls, config, handler).value.0;
    var inst := Instance(handler, cls.name, name, config, true, cls.hasProcessFrame);
    assert l1.modules == Put(l.modules, name, inst);
    RemoveUndoesPut(l.modules, name, inst);
    if l.emitter.Some? {
      EventBus.UnsubscribeUndoesSubscribe(l.emitter.value, Wildcard, handler);
    }
  }

  /** Loading under a name that is already taken replaces the stored module but
      never unsubscribes the replaced one: its `on_event` stays subscribed to the
      wildcard, and unloading the name afterwards removes only the new handler. */
  lemma ReloadLeavesOldSubscription(cls: ModuleClass, bus: EventBus.Bus)
    requires !cls.constructRaises && !cls.initializeRaises
    requires EventBus.Subscribers(bus, Wildcard) == []
    ensures var l0 := Init(Some(bus));
            var l1 := LoadModule(l0, cls, map[], 1).value.0;
            var l2 := LoadModule(l1, cls, map[], 2).value.0;
            var l3 := UnloadModule(l2, cls.name, false).value.0;
            && ListModules(l2) == [cls.name]
            && GetModule(l2, cls.name).value.handler == 2
            && EventBus.Subscribers(l2.emitter.value, Wildcard) == [1, 2]
            && ListModules(l3) == []
            && EventBus.Subscribers(l3.emitter.value, Wildcard) == [1]
  {
    var l0 := Init(Some(bus));
    var l1 := LoadModule(l0, cls, map[], 1).value.0;
    var l2 := LoadModule(l1, cls, map[], 2).value.0;
    assert ListModules(l1) == [cls.name];
    var subs := EventBus.Subscribers(l2.emitter.value, Wildcard);
    assert subs == [1, 2];
    var l3 := UnloadModule(l2, cls.name, false).value.0;
    assert EventBus.RemoveFirst(subs, 2) == [1] by {
      assert subs[..1] == [1];
    }
    assert ListModules(l3) == Filter([cls.name], (n: string) => n != cls.name);
  }

  /** The modules shown a frame, in loading order. */
  predicate SeesFrames(m: Instance) {
    m.enabled && m.hasProcessFrame
  }

  /** Runs the modules' `process_frame` in order; the first one that raises stops
      the loop. Returns the modules that ran and whether all of them returned. */
  function RunModules(mods: seq<Instance>, raises: Instance -> bool): (r: (seq<Instance>, bool))
    ensures |r.0| <= |mods| && r.0 == mods[..|r.0|]
    ensures r.1 <==> forall i :: 0 <= i < |mods| ==> !raises(mods[i])
    ensures r.1 ==> r.0 == mods
    ensures !r.1 ==> |r.0| > 0 && raises(r.0[|r.0| - 1])
                     && forall i :: 0 <= i < |r.0| - 1 ==> !raises(r.0[i])
    decreases |mods|
  {
    if mods == [] then ([], true)
    else if raises(mods[0]) then ([mods[0]], false)
    else
      var rest := RunModules(mods[1..], raises);
      assert forall i :: 0 <= i < |mods| - 1 ==> mods[1..][i] == mods[i + 1];
      ([mods[0]] + rest.0, rest.1)
  }

  datatype FrameOutcome = FrameOutcome(ran: seq<Instance>, pushed: seq<Push>)

  /** `process_frame`: every enabled module with a `process_frame` sees the frame,
      in loading order, then the frame is forwarded unchanged. A module that raises
      stops the loop and the frame is not forwarded. */
  function ProcessFrame(l: Loader, f: Frame, dir: Direction, raises: Instance -> bool): (r: FrameOutcome)
    requires Inv(l)
    ensures forall i :: 0 <= i < |r.ran| ==> SeesFrames(r.ran[i]) && r.ran[i] in Values(l.modules)
    ensures (forall m :: m in Values(l.modules) && SeesFrames(m) ==> !raises(m)) ==>
              r.ran == Filter(Values(l.modules), SeesFrames) && r.pushed == [Push(f, dir)]
    ensures r.pushed == [] || r.pushed == [Push(f, dir)]
    ensures var eligible := Filter(Values(l.modules), SeesFrames);
            && |r.ran| <= |eligible| && r.ran == eligible[..|r.ran|]
            && (r.pushed == [] <==> exists i :: 0 <= i < |eligible| && raises(eligible[i]))
            && (r.pushed == [] ==> |r.ran| > 0 && raises(r.ran[|r.ran| - 1])
                                   && forall i :: 0 <= i < |r.ran| - 1 ==> !raises(r.ran[i]))
  {
    var eligible := Filter(Values(l.modules), SeesFrames);
    var run := RunModules(eligible, raises);
    EligiblePrefix(Values(l.modules), run.0);
    FrameOutcome(run.0, if run.1 then [Push(f, dir)] else [])
  }

  /** A prefix of the eligible modules holds eligible modules only. */
  lemma EligiblePrefix(all: seq<Instance>, ran: seq<Instance>)
    requires |ran| <= |Filter(all, SeesFrames)| && ran == Filter(all, SeesFrames)[..|ran|]
    ensures forall i :: 0 <= i < |ran| ==> SeesFrames(ran[i]) && ran[i] in all
  {
    var eligible := Filter(all, SeesFrames);
    forall i | 0 <= i < |ran|
      ensures SeesFrames(ran[i]) && ran[i] in all
    {
      assert ran[i] == eligible[i];
    }
  }
}
