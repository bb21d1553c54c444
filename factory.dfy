/** `ComponentFactory` (js/components.js:4-20): a registry from names to
    component classes whose `create` instantiates the class registered
    under a name. */
module Factory {
  import opened Wrappers

  /** What `new Component(options)` yields: the class that was
      instantiated and the options it was given. */
  datatype Created<C, O> = Created(cls: C, options: O)

  /** `create(name, options)` on a registry: the registered class applied to
      the options, or the `Component <name> not found` error. */
  function Resolve<C, O>(registry: map<string, C>, name: string, options: O): Result<Created<C, O>, string>
  {
    if name in registry then Success(Created(registry[name], options))
    else Failure("Component " + name + " not found")
  }

  class ComponentFactory<C> {
    /** `this.components`. */
    var components: map<string, C>

    constructor()
      ensures components == map[]
    {
      components := map[];
    }

    /** `register(name, component)`: binds the name, replacing any earlier
        binding, and leaves every other name as it was. */
    method Register(name: string, component: C)
      modifies this
      ensures components == old(components)[name := component]
    {
      components := components[name := component];
    }

    /** `create(name, options)`: an unregistered name throws
        `Component <name> not found`; otherwise the registered class is
        instantiated with the options. The registry is not changed. */
    method Create<O>(name: string, options: O) returns (r: Result<Created<C, O>, string>)
      ensures r == Resolve(components, name, options)
      ensures r.Failure? <==> name !in components
      ensures r.Failure? ==> r.error == "Component " + name + " not found"
      ensures r.Success? ==> r.value.cls == components[name] && r.value.options == options
    {
      if name !in components {
        return Failure("Component " + name + " not found");
      }
      r := Success(Created(components[name], options));
    }
  }

  /** After `register(name, C)`, `create(name, …)` constructs `C`. */
  lemma RegisterThenCreate<C, O>(registry: map<string, C>, name: string, cls: C, options: O)
    ensures Resolve(registry[name := cls], name, options) == Success(Created(cls, options))
  {
  }

  /** Registering one name does not change what any other name creates. */
  lemma RegisterKeepsOthers<C, O>(registry: map<string, C>, name: string, cls: C, other: string, options: O)
    requires other != name
    ensures Resolve(registry[name := cls], other, options) == Resolve(registry, other, options)
  {
  }

  /** Re-registering a name: the later class wins. */
  lemma LaterRegistrationWins<C, O>(registry: map<string, C>, name: string, first: C, second: C, options: O)
    ensures Resolve(registry[name := first][name := second], name, options) == Success(Created(second, options))
  {
  }

  /** A sequence of `register` calls, applied in order. */
  function RegisterAll<C>(registry: map<string, C>, bindings: seq<(string, C)>): map<string, C>
    decreases |bindings|
  {
    if |bindings| == 0 then registry
    else RegisterAll(registry[bindings[0].0 := bindings[0].1], bindings[1..])
  }

  /** After a sequence of registrations a name resolves to the class of its
      last registration, and names never registered resolve as before. */
  lemma RegisterAllResolves<C>(registry: map<string, C>, bindings: seq<(string, C)>, name: string)
    ensures name in RegisterAll(registry, bindings) <==>
      name in registry || exists i :: 0 <= i < |bindings| && bindings[i].0 == name
    ensures (forall i :: 0 <= i < |bindings| ==> bindings[i].0 != name) && name in registry ==>
      RegisterAll(registry, bindings)[name] == registry[name]
    ensures forall i :: (0 <= i < |bindings| && bindings[i].0 == name &&
      (forall j :: i < j < |bindings| ==> bindings[j].0 != name)) ==>
      name in RegisterAll(registry, bindings) && RegisterAll(registry, bindings)[name] == bindings[i].1
  {
    RegisterAllDomain(registry, bindings, name);
    if forall i :: 0 <= i < |bindings| ==> bindings[i].0 != name {
      RegisterAllUnchanged(registry, bindings, name);
    }
    forall i | 0 <= i < |bindings| && bindings[i].0 == name &&
      (forall j :: i < j < |bindings| ==> bindings[j].0 != name)
      ensures name in RegisterAll(registry, bindings) && RegisterAll(registry, bindings)[name] == bindings[i].1
    {
      RegisterAllLastWins(registry, bindings, name, i);
    }
  }

  /** The names a run of registrations leaves bound: those bound before
      and those registered. */
  lemma {:induction false} RegisterAllDomain<C>(registry: map<string, C>, bindings: seq<(string, C)>, name: string)
    ensures name in RegisterAll(registry, bindings) <==>
      name in registry || exists i :: 0 <= i < |bindings| && bindings[i].0 == name
    decreases |bindings|
  {
    if |bindings| > 0 {
      var first, rest := bindings[0], bindings[1..];
      RegisterAllDomain(registry[first.0 := first.1], rest, name);
      if exists i :: 0 <= i < |rest| && rest[i].0 == name {
        var i :| 0 <= i < |rest| && rest[i].0 == name;
        assert bindings[i + 1].0 == name;
      }
      if exists i :: 0 <= i < |bindings| && bindings[i].0 == name {
        var i :| 0 <= i < |bindings| && bindings[i].0 == name;
        if i > 0 {
          assert rest[i - 1].0 == name;
        }
      }
    }
  }

  /** A name no registration mentions keeps its binding, or its absence. */
  lemma {:induction false} RegisterAllUnchanged<C>(registry: map<string, C>, bindings: seq<(string, C)>, name: string)
    requires forall i :: 0 <= i < |bindings| ==> bindings[i].0 != name
    ensures name in RegisterAll(registry, bindings) <==> name in registry
    ensures name in registry ==> RegisterAll(registry, bindings)[name] == registry[name]
    decreases |bindings|
  {
    if |bindings| > 0 {
      var first, rest := bindings[0], bindings[1..];
      forall i | 0 <= i < |rest|
        ensures rest[i].0 != name
      {
        assert rest[i] == bindings[i + 1];
      }
      RegisterAllUnchanged(registry[first.0 := first.1], rest, name);
    }
  }

  /** The last registration of a name decides its binding. */
  lemma {:induction false} RegisterAllLastWins<C>(registry: map<string, C>, bindings: seq<(string, C)>, name: string, i: nat)
    requires i < |bindings| && bindings[i].0 == name
    requires forall j :: i < j < |bindings| ==> bindings[j].0 != name
    ensures name in RegisterAll(registry, bindings) && RegisterAll(registry, bindings)[name] == bindings[i].1
    decreases |bindings|
  {
    var first, rest := bindings[0], bindings[1..];
    forall j | i < j + 1 < |bindings| && 0 <= j
      ensures rest[j].0 != name
    {
      assert rest[j] == bindings[j + 1];
    }
    if i > 0 {
      assert rest[i - 1] == bindings[i];
      RegisterAllLastWins(registry[first.0 := first.1], rest, name, i - 1);
    } else {
      RegisterAllUnchanged(registry[first.0 := first.1], rest, name);
    }
  }

  /** The component classes the library registers. */
  datatype ComponentClass =
    | Button | Input | Card | Modal
    | StoreInfoCard | SearchFilter | MapMarker | StatsCard

  /** The registrations of js/components.js:308-312 and 923-926, in order. */
  const LibraryBindings: seq<(string, ComponentClass)> := [
    ("button", Button), ("input", Input), ("card", Card), ("modal", Modal),
    ("storeInfoCard", StoreInfoCard), ("searchFilter", SearchFilter),
    ("mapMarker", MapMarker), ("statsCard", StatsCard)
  ]

  /** The shared `componentFactory`: a fresh factory with the eight library
      classes registered. */
  method LibraryFactory() returns (f: ComponentFactory<ComponentClass>)
    ensures fresh(f)
    ensures f.components == RegisterAll(map[], LibraryBindings)
    ensures f.components == map[
      "button" := Button, "input" := Input, "card" := Card, "modal" := Modal,
      "storeInfoCard" := StoreInfoCard, "searchFilter" := SearchFilter,
      "mapMarker" := MapMarker, "statsCard" := StatsCard]
  {
    f := new ComponentFactory();
    var k := 0;
    while k < |LibraryBindings|
      invariant 0 <= k <= |LibraryBindings|
      invariant RegisterAll(f.components, LibraryBindings[k..]) == RegisterAll(map[], LibraryBindings)
      modifies f
    {
      assert LibraryBindings[k..][1..] == LibraryBindings[k + 1..];
      f.Register(LibraryBindings[k].0, LibraryBindings[k].1);
      k := k + 1;
    }
    assert LibraryBindings[k..] == [];
  }
}
