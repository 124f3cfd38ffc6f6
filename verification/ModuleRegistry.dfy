/** ModuleRegistry: dependency-order start, reverse-order stop. */
module ModuleRegistry {
  import opened Options
  import opened ModuleGraph

  type Instance = nat

  /** What the registry does to modules; Start and Stop calls carry the modules registered at that moment. */
  datatype Event =
    | Constructed(factory: Factory, instance: Instance)
    | Started(factory: Factory, registered: set<Factory>)
    | HandlerStopped(factory: Factory)
    | Stopped(factory: Factory, registered: set<Factory>)
    | Deleted(factory: Factory)

  function Elements(order: seq<Factory>): set<Factory> {
    set f | f in order
  }

  /** Duplicate-free, and every module comes after all its dependencies. */
  ghost predicate Topological(g: Dependencies, order: seq<Factory>) {
    && (forall i, j :: 0 <= i < j < |order| ==> order[i] != order[j])
    && (forall i :: 0 <= i < |order| ==> order[i] in g && forall d :: d in g[order[i]] ==> d in order[..i])
  }

  lemma {:induction false} Push(g: Dependencies, order: seq<Factory>, f: Factory)
    requires Topological(g, order) && f in g && f !in order && forall d :: d in g[f] ==> d in order
    ensures Topological(g, order + [f])
    ensures Elements(order + [f]) == Elements(order) + {f}
  {
    var r := order + [f];
    forall i | 0 <= i < |r| ensures r[i] in g && forall d :: d in g[r[i]] ==> d in r[..i] {
      if i < |order| { assert r[..i] == order[..i]; } else { assert r[..i] == order; }
    }
  }

  /** Everything a started module needs stands before it. */
  lemma {:induction false} NeedsStandBefore(g: Dependencies, order: seq<Factory>, i: nat, d: Factory)
    requires Topological(g, order) && i < |order| && d in Needs(g, order[i])
    ensures d in order[..i + 1]
  {
    var s := Elements(order[..i + 1]);
    forall a, e | a in s && e in g[a] ensures e in s {
      var j :| 0 <= j <= i && order[j] == a;
      assert e in order[..j];
      var k :| 0 <= k < j && order[k] == e;
      assert order[..i + 1][k] == e;
    }
    assert order[..i + 1][i] == order[i];
    ClosedUnderNeeds(g, s, order[i], d);
  }

  // ---------- traces ----------

  function Starts(events: seq<Event>): seq<Factory> {
    if events == [] then []
    else Starts(events[..|events| - 1]) +
         (if events[|events| - 1].Started? then [events[|events| - 1].factory] else [])
  }

  function Constructions(events: seq<Event>): multiset<Factory> {
    if events == [] then multiset{}
    else Constructions(events[..|events| - 1]) +
         (if events[|events| - 1].Constructed? then multiset{events[|events| - 1].factory} else multiset{})
  }

  lemma {:induction false} Log(events: seq<Event>, e: Event)
    ensures Starts(events + [e]) == Starts(events) + (if e.Started? then [e.factory] else [])
    ensures Constructions(events + [e]) ==
            Constructions(events) + (if e.Constructed? then multiset{e.factory} else multiset{})
  {
    assert (events + [e])[..|events|] == events;
  }

  /** A module's Start runs when everything it needs is registered, and it is not yet. */
  ghost predicate Ready(g: Dependencies, e: Event) {
    e.Started? ==> e.factory !in e.registered && Needs(g, e.factory) <= e.registered + {e.factory}
  }

  /** The trace of the first loop of StopAll: last started, first stopped. */
  function StopTrace(order: seq<Factory>, registered: set<Factory>): seq<Event> {
    if order == [] then []
    else [HandlerStopped(order[|order| - 1]), Stopped(order[|order| - 1], registered)] +
         StopTrace(order[..|order| - 1], registered)
  }

  /** The trace of its second loop. */
  function DeleteTrace(order: seq<Factory>): seq<Event> {
    if order == [] then [] else [Deleted(order[|order| - 1])] + DeleteTrace(order[..|order| - 1])
  }

  /**
   Order, registered modules and trace agree; `pending` are the modules constructed
   but still starting their dependencies.
   */
  ghost predicate Agree(
      g: Dependencies, order: seq<Factory>, registered: set<Factory>, events: seq<Event>, pending: seq<Factory>)
  {
    && Topological(g, order)
    && Elements(order) == registered
    && Starts(events) == order
    && Constructions(events) == multiset(order) + multiset(pending)
    && AllReady(g, events)
  }

  lemma {:induction false} RegisterKeeps(
      g: Dependencies, order: seq<Factory>, registered: set<Factory>, events: seq<Event>, waiting: seq<Factory>,
      f: Factory)
    requires Agree(g, order, registered, events, waiting + [f]) && f in g && f !in registered
    requires forall d :: d in Needs(g, f) && d != f ==> d in registered
    requires forall d :: d in g[f] ==> d in registered
    ensures Agree(g, order + [f], registered + {f}, events + [Started(f, registered)], waiting)
  {
    forall d ensures d in registered <==> d in order { assert d in Elements(order) <==> d in order; }
    Push(g, order, f);
    Log(events, Started(f, registered));
    ReadyNow(g, events, f, registered);
    CountMoves(order, waiting, f);
  }

  lemma {:induction false} ConstructKeeps(
      g: Dependencies, order: seq<Factory>, registered: set<Factory>, events: seq<Event>, waiting: seq<Factory>,
      f: Factory, instance: Instance)
    requires Agree(g, order, registered, events, waiting)
    ensures Agree(g, order, registered, events + [Constructed(f, instance)], waiting + [f])
  {
    Log(events, Constructed(f, instance));
    assert multiset(waiting + [f]) == multiset(waiting) + multiset{f};
  }

  /** Every instance ever made has its own number. */
  ghost predicate Numbered(events: seq<Event>, constructed: nat) {
    && (forall e :: e in events && e.Constructed? ==> e.instance < constructed)
    && (forall e, f :: e in events && f in events && e.Constructed? && f.Constructed? && e.instance == f.instance ==>
          e == f)
  }

  /** A registered instance was made for the factory it is registered under. */
  ghost predicate OwnInstances(modules: map<Factory, Instance>, events: seq<Event>) {
    forall f :: f in modules ==> Constructed(f, modules[f]) in events
  }

  lemma {:induction false} OneMoreInstance(
      modules: map<Factory, Instance>, events: seq<Event>, f: Factory, instance: Instance)
    requires Numbered(events, instance) && OwnInstances(modules, events)
    ensures Numbered(events + [Constructed(f, instance)], instance + 1)
    ensures OwnInstances(modules, events + [Constructed(f, instance)])
  {
  }

  lemma {:induction false} InstanceRegistered(
      modules: map<Factory, Instance>, events: seq<Event>, constructed: nat, e: Event, f: Factory, instance: Instance)
    requires Numbered(events, constructed) && OwnInstances(modules, events)
    requires e.Started? && Constructed(f, instance) in events
    ensures Numbered(events + [e], constructed)
    ensures OwnInstances(modules[f := instance], events + [e])
  {
  }

  lemma StillThere(before: seq<Event>, after: seq<Event>, e: Event)
    requires before <= after && e in before
    ensures e in after
  {
  }

  ghost predicate AllReady(g: Dependencies, events: seq<Event>) {
    forall e :: e in events ==> Ready(g, e)
  }

  // ---------- facts about the recursion ----------

  /** A nested call puts its module on the stack; the stack stays a path, so it stays short. */
  lemma {:induction false} StackGrows(g: Dependencies, stack: seq<Factory>, m: Factory)
    requires Acyclic(g) && m in g
    requires stack != [] ==> IsPath(g, stack) && m in g[stack[|stack| - 1]]
    ensures IsPath(g, stack + [m]) && |stack| < |g|
    ensures (stack + [m])[..|stack|] == stack
  {
    if stack == [] { assert stack + [m] == [m]; } else { Extend(g, stack, m); }
    PathIsShort(g, stack + [m]);
  }

  /** What the modules of a list need together. */
  ghost function NeedsOfAll(g: Dependencies, modules: seq<Factory>): set<Factory> {
    if modules == [] then {} else NeedsOfAll(g, modules[..|modules| - 1]) + Needs(g, modules[|modules| - 1])
  }

  lemma {:induction false} NeedsOfMember(g: Dependencies, modules: seq<Factory>, d: Factory)
    ensures d in NeedsOfAll(g, modules) <==> exists m :: m in modules && d in Needs(g, m)
  {
    if modules != [] {
      var n := |modules| - 1;
      NeedsOfMember(g, modules[..n], d);
      assert modules == modules[..n] + [modules[n]];
    }
  }

  ghost predicate Kept(before: map<Factory, Instance>, after: map<Factory, Instance>) {
    forall f :: f in before ==> f in after && after[f] == before[f]
  }

  lemma {:induction false} KeptOn(a: map<Factory, Instance>, b: map<Factory, Instance>, c: map<Factory, Instance>)
    requires Kept(a, b) && Kept(b, c)
    ensures Kept(a, c)
  {
  }

  lemma {:induction false} OneMore(
      g: Dependencies, modules: seq<Factory>, i: nat, before: set<Factory>, during: set<Factory>, after: set<Factory>)
    requires i < |modules|
    requires during == before + NeedsOfAll(g, modules[..i]) && after == during + Needs(g, modules[i])
    ensures after == before + NeedsOfAll(g, modules[..i + 1])
  {
    assert modules[..i + 1][..i] == modules[..i];
  }

  lemma {:induction false} StartedAlready(g: Dependencies, order: seq<Factory>, f: Factory)
    requires Topological(g, order) && f in Elements(order)
    ensures Needs(g, f) <= Elements(order)
  {
    var i :| 0 <= i < |order| && order[i] == f;
    forall d | d in Needs(g, f) ensures d in Elements(order) { NeedsStandBefore(g, order, i, d); }
  }

  /** Starting the dependencies of a module neither starts it nor leaves out anything it needs. */
  lemma {:induction false} NotYetStarted(g: Dependencies, f: Factory)
    requires Closed(g) && Acyclic(g) && f in g
    ensures NeedsOfAll(g, g[f]) == Needs(g, f) - {f}
    ensures f in Needs(g, f)
    ensures forall d :: d in g[f] ==> d in NeedsOfAll(g, g[f])
  {
    NeedsUnfold(g, f);
    forall m | m in g[f] ensures f !in Needs(g, m) && m in Needs(g, m) {
      NoNeedBack(g, f, m);
      NeedsUnfold(g, m);
    }
    forall d ensures d in NeedsOfAll(g, g[f]) <==> d in Needs(g, f) && d != f { NeedsOfMember(g, g[f], d); }
    SameMembers(NeedsOfAll(g, g[f]), Needs(g, f), f);
  }

  lemma {:induction false} ReadyNow(g: Dependencies, events: seq<Event>, f: Factory, registered: set<Factory>)
    requires AllReady(g, events) && f !in registered
    requires forall d :: d in Needs(g, f) && d != f ==> d in registered
    ensures AllReady(g, events + [Started(f, registered)])
  {
  }

  lemma {:induction false} CountMoves(order: seq<Factory>, waiting: seq<Factory>, f: Factory)
    ensures multiset(order) + multiset(waiting + [f]) == multiset(order + [f]) + multiset(waiting)
  {
  }

  lemma InPath(g: Dependencies, waiting: seq<Factory>, f: Factory)
    requires IsPath(g, waiting + [f])
    ensures f in g
  {
    assert (waiting + [f])[|waiting|] == f;
  }

  lemma SameMembers(a: set<Factory>, b: set<Factory>, f: Factory)
    requires forall x :: x in a <==> x in b && x != f
    ensures a == b - {f}
  {
  }

  lemma {:induction false} DependenciesStarted(
      g: Dependencies, f: Factory, before: map<Factory, Instance>, after: map<Factory, Instance>, instance: Instance)
    requires Closed(g) && Acyclic(g) && f in g && f !in before && Kept(before, after)
    requires after.Keys == before.Keys + NeedsOfAll(g, g[f])
    ensures f !in after
    ensures forall d :: d in Needs(g, f) && d != f ==> d in after
    ensures forall d :: d in g[f] ==> d in after
    ensures Kept(before, after[f := instance])
    ensures after[f := instance].Keys == before.Keys + Needs(g, f)
  {
    NotYetStarted(g, f);
  }

  class ModuleRegistry {
    const graph: Dependencies
    var startedModules: map<Factory, Instance>
    var startOrder: seq<Factory>
    var constructed: nat      // instances made so far; the next one gets this number
    var events: seq<Event>    // since the registry was last empty

    ghost predicate Consistent(pending: seq<Factory>)
      reads this
    {
      && Numbered(events, constructed) && OwnInstances(startedModules, events)
      && Agree(graph, startOrder, startedModules.Keys, events, pending)
    }

    ghost predicate Valid()
      reads this
    {
      Closed(graph) && Acyclic(graph) && Consistent([])
    }

    constructor (graph: Dependencies)
      requires Closed(graph) && Acyclic(graph)
      ensures Valid() && this.graph == graph && startOrder == [] && events == []
    {
      this.graph := graph;
      startedModules, startOrder, constructed, events := map[], [], 0, [];
    }

    /**
     None stands for the failed assertion; otherwise the answer is the one instance
     that was made for the factory. Also callable while modules start.
     */
    method Get(factory: Factory, ghost pending: seq<Factory>) returns (instance: Option<Instance>)
      requires Consistent(pending)
      ensures instance.Some? <==> factory in startOrder
      ensures instance.Some? ==> factory in startedModules && instance.value == startedModules[factory]
      ensures instance.Some? ==> forall f :: Constructed(f, instance.value) in events <==> f == factory
    {
      assert factory in Elements(startOrder) <==> factory in startOrder;
      instance := if factory in startedModules then Some(startedModules[factory]) else None;
    }

    method IsStarted(factory: Factory) returns (started: bool)
      requires Valid()
      ensures started <==> factory in startOrder
    {
      assert factory in Elements(startOrder) <==> factory in startOrder;
      started := factory in startedModules;
    }

    /** The dependencies a module lists are registered: it has started, or its own Start is running. */
    ghost predicate DependenciesUp(caller: Factory)
      reads this
    {
      caller in graph && forall d :: d in graph[caller] ==> d in startedModules
    }

    /** A listed dependency that is registered is found, anything else is fatal. */
    method GetDependency(caller: Factory, factory: Factory, ghost pending: seq<Factory>)
      returns (instance: Option<Instance>)
      requires Consistent(pending) && caller in graph
      ensures instance.Some? <==> factory in graph[caller] && factory in startOrder
      ensures DependenciesUp(caller) ==> (instance.Some? <==> factory in graph[caller])
      ensures instance.Some? ==> Constructed(factory, instance.value) in events
    {
      instance := None;
      for i := 0 to |graph[caller]|
        invariant instance.None? && factory !in graph[caller][..i]
      {
        assert graph[caller][..i + 1] == graph[caller][..i] + [graph[caller][i]];
        if graph[caller][i] == factory {
          assert factory in Elements(startOrder) <==> factory in startOrder;
          instance := Get(factory, pending);
          return;
        }
      }
      assert graph[caller][..|graph[caller]|] == graph[caller];
    }

    /** Start for a list: in list order, each with its dependencies first. */
    method StartList(modules: seq<Factory>, ghost stack: seq<Factory>)
      requires Closed(graph) && Acyclic(graph) && Consistent(stack)
      requires forall m :: m in modules ==> m in graph
      requires stack != [] ==> IsPath(graph, stack) && forall m :: m in modules ==> m in graph[stack[|stack| - 1]]
      requires |stack| <= |graph|
      modifies this
      ensures Consistent(stack)
      ensures old(startOrder) <= startOrder && old(constructed) <= constructed && old(events) <= events
      ensures Kept(old(startedModules), startedModules)
      ensures startedModules.Keys == old(startedModules.Keys) + NeedsOfAll(graph, modules)
      decreases |graph| - |stack|, 0
    {
      for i := 0 to |modules|
        invariant Consistent(stack)
        invariant old(startOrder) <= startOrder && old(constructed) <= constructed && old(events) <= events
        invariant Kept(old(startedModules), startedModules)
        invariant startedModules.Keys == old(startedModules.Keys) + NeedsOfAll(graph, modules[..i])
      {
        assert modules[i] in modules;
        StackGrows(graph, stack, modules[i]);
        ghost var before := startedModules;
        var instance := StartModule(modules[i], stack + [modules[i]]);
        OneMore(graph, modules, i, old(startedModules.Keys), before.Keys, startedModules.Keys);
        KeptOn(old(startedModules), before, startedModules);
      }
      assert modules[..|modules|] == modules;
    }

    /** Start for one module; `stack` is the path of calls that led here. */
    method StartModule(factory: Factory, ghost stack: seq<Factory>) returns (instance: Instance)
      requires Closed(graph) && Acyclic(graph) && stack != [] && Consistent(stack[..|stack| - 1])
      requires IsPath(graph, stack) && stack[|stack| - 1] == factory
      modifies this
      ensures Consistent(stack[..|stack| - 1])
      ensures old(startOrder) <= startOrder && old(constructed) <= constructed && old(events) <= events
      ensures Kept(old(startedModules), startedModules)
      ensures startedModules.Keys == old(startedModules.Keys) + Needs(graph, factory)
      ensures factory in startedModules && instance == startedModules[factory]
      ensures factory !in old(startedModules) ==> old(constructed) <= instance
      decreases |graph| - |stack|, 3
    {
      PathIsShort(graph, stack);
      if factory in startedModules {
        StartedAlready(graph, startOrder, factory);
        assert startedModules.Keys + Needs(graph, factory) == startedModules.Keys;
        return startedModules[factory];
      }
      instance := StartNew(factory, stack[..|stack| - 1]);
    }

    /** The rest of Start: the module is constructed, its dependencies start, then it starts itself. */
    method StartNew(factory: Factory, ghost waiting: seq<Factory>) returns (instance: Instance)
      requires Closed(graph) && Acyclic(graph) && Consistent(waiting) && factory !in startedModules
      requires IsPath(graph, waiting + [factory]) && |waiting| < |graph|
      modifies this
      ensures Consistent(waiting)
      ensures old(startOrder) <= startOrder && old(constructed) <= constructed && old(events) <= events
      ensures Kept(old(startedModules), startedModules)
      ensures startedModules.Keys == old(startedModules.Keys) + Needs(graph, factory)
      ensures factory in startedModules && startedModules[factory] == instance == old(constructed)
      decreases |graph| - |waiting| - 1, 2
    {
      InPath(graph, waiting, factory);
      instance := Construct(factory, waiting);
      StartDependencies(factory, instance, waiting);
      Register(factory, instance, waiting);
    }

    method StartDependencies(factory: Factory, ghost instance: Instance, ghost waiting: seq<Factory>)
      requires Closed(graph) && Acyclic(graph) && Consistent(waiting + [factory]) && factory !in startedModules
      requires IsPath(graph, waiting + [factory]) && |waiting| < |graph| && factory in graph
      requires Constructed(factory, instance) in events
      modifies this
      ensures Consistent(waiting + [factory]) && DependenciesUp(factory) && factory !in startedModules
      ensures Constructed(factory, instance) in events
      ensures forall d :: d in Needs(graph, factory) && d != factory ==> d in startedModules
      ensures old(startOrder) <= startOrder && old(constructed) <= constructed && old(events) <= events
      ensures Kept(old(startedModules), startedModules[factory := instance])
      ensures startedModules[factory := instance].Keys == old(startedModules.Keys) + Needs(graph, factory)
      decreases |graph| - |waiting| - 1, 1
    {
      StartList(graph[factory], waiting + [factory]);
      StillThere(old(events), events, Constructed(factory, instance));
      DependenciesStarted(graph, factory, old(startedModules), startedModules, instance);
    }

    method Construct(factory: Factory, ghost waiting: seq<Factory>) returns (instance: Instance)
      requires Consistent(waiting)
      modifies this`constructed, this`events
      ensures Consistent(waiting + [factory])
      ensures instance == old(constructed) && constructed == instance + 1
      ensures events == old(events) + [Constructed(factory, instance)]
    {
      instance := constructed;
      constructed := constructed + 1;
      OneMoreInstance(startedModules, events, factory, instance);
      ConstructKeeps(graph, startOrder, startedModules.Keys, events, waiting, factory, instance);
      events := events + [Constructed(factory, instance)];
    }

    /** The end of Start: the module's own Start runs and the module is recorded. */
    method Register(factory: Factory, instance: Instance, ghost waiting: seq<Factory>)
      requires Consistent(waiting + [factory]) && DependenciesUp(factory) && factory !in startedModules
      requires Constructed(factory, instance) in events
      requires forall d :: d in Needs(graph, factory) && d != factory ==> d in startedModules
      modifies this
      ensures Consistent(waiting)
      ensures startOrder == old(startOrder) + [factory] && constructed == old(constructed)
      ensures events == old(events) + [Started(factory, old(startedModules.Keys))]
      ensures startedModules == old(startedModules)[factory := instance]
    {
      RegisterKeeps(graph, startOrder, startedModules.Keys, events, waiting, factory);
      InstanceRegistered(
        startedModules, events, constructed, Started(factory, startedModules.Keys), factory, instance);
      assert startedModules[factory := instance].Keys == startedModules.Keys + {factory};
      events := events + [Started(factory, startedModules.Keys)];
      startOrder := startOrder + [factory];
      startedModules := startedModules[factory := instance];
    }

    /** The entry point for one module. */
    method Start(factory: Factory) returns (instance: Instance)
      requires Valid() && factory in graph
      modifies this
      ensures Valid()
      ensures old(startOrder) <= startOrder && old(events) <= events && Kept(old(startedModules), startedModules)
      ensures startedModules.Keys == old(startedModules.Keys) + Needs(graph, factory)
      ensures factory in startedModules && instance == startedModules[factory]
      ensures factory !in old(startedModules) ==> old(constructed) <= instance
    {
      StackGrows(graph, [], factory);
      assert [] + [factory] == [factory] && [factory][..0] == [];
      instance := StartModule(factory, [factory]);
    }

    /** The entry point for a list of modules. */
    method StartAll(modules: seq<Factory>)
      requires Valid() && forall m :: m in modules ==> m in graph
      modifies this
      ensures Valid()
      ensures old(startOrder) <= startOrder && old(events) <= events && Kept(old(startedModules), startedModules)
      ensures startedModules.Keys == old(startedModules.Keys) + NeedsOfAll(graph, modules)
    {
      StartList(modules, []);
    }

    /** Stops everything, then deletes everything, both in reverse start order. */
    method StopAll() returns (trace: seq<Event>)
      requires Valid()
      modifies this
      ensures Valid() && startedModules == map[] && startOrder == [] && events == []
      ensures trace == StopTrace(old(startOrder), Elements(old(startOrder))) + DeleteTrace(old(startOrder))
    {
      trace := StopModules();
      var deletions := DeleteModules();
      trace := trace + deletions;
      startOrder := [];
      events := [];
    }

    /** The first loop of StopAll. */
    method StopModules() returns (trace: seq<Event>)
      requires Elements(startOrder) == startedModules.Keys
      ensures trace == StopTrace(startOrder, startedModules.Keys)
    {
      trace := [];
      assert startOrder[..|startOrder|] == startOrder;
      for i := |startOrder| downto 0
        invariant trace + StopTrace(startOrder[..i], startedModules.Keys) == StopTrace(startOrder, startedModules.Keys)
      {
        assert startOrder[i] in Elements(startOrder);
        assert startOrder[i] in startedModules;
        assert startOrder[..i + 1][..i] == startOrder[..i];
        trace := trace + [HandlerStopped(startOrder[i]), Stopped(startOrder[i], startedModules.Keys)];
      }
    }

    /** The second loop of StopAll. */
    method DeleteModules() returns (trace: seq<Event>)
      requires Elements(startOrder) == startedModules.Keys && Topological(graph, startOrder)
      modifies this`startedModules
      ensures startedModules.Keys == {}
      ensures trace == DeleteTrace(startOrder)
    {
      trace := [];
      assert startOrder[..|startOrder|] == startOrder;
      for i := |startOrder| downto 0
        invariant startedModules.Keys == Elements(startOrder[..i])
        invariant trace + DeleteTrace(startOrder[..i]) == DeleteTrace(startOrder)
      {
        DropLast(graph, startOrder, i);
        var factory := startOrder[i];
        assert factory in startedModules;
        assert trace + DeleteTrace(startOrder[..i + 1]) == trace + [Deleted(factory)] + DeleteTrace(startOrder[..i]);
        trace := trace + [Deleted(factory)];
        startedModules := startedModules - {factory};
      }
    }
  }

  lemma {:induction false} DropLast(g: Dependencies, order: seq<Factory>, i: nat)
    requires Topological(g, order) && i < |order|
    ensures order[i] in Elements(order[..i + 1])
    ensures Elements(order[..i + 1]) - {order[i]} == Elements(order[..i])
    ensures DeleteTrace(order[..i + 1]) == [Deleted(order[i])] + DeleteTrace(order[..i])
  {
    assert order[..i + 1] == order[..i] + [order[i]];
    assert order[..i + 1][..i] == order[..i];
  }

  // ---------- what the contracts mean ----------

  /** A started module finds all its listed dependencies. */
  lemma {:induction false} StartedFindsDependencies(r: ModuleRegistry, f: Factory)
    requires r.Valid() && f in r.startedModules
    ensures r.DependenciesUp(f)
  {
    assert f in Elements(r.startOrder);
    var i :| 0 <= i < |r.startOrder| && r.startOrder[i] == f;
    forall d | d in r.graph[f] ensures d in r.startedModules { assert d in Elements(r.startOrder); }
  }

  /** And so did every module, transitively, while its own Start ran. */
  lemma {:induction false} StartingFindsDependencies(r: ModuleRegistry, e: Event, d: Factory)
    requires r.Valid() && e in r.events && e.Started? && e.factory in r.graph && d in r.graph[e.factory]
    ensures Needs(r.graph, d) <= e.registered
  {
    NeedsUnfold(r.graph, e.factory);
    NoNeedBack(r.graph, e.factory, d);
    assert Ready(r.graph, e);
  }

  /** In a consistent registry every started module was constructed and started exactly once, nobody else was. */
  lemma {:induction false} ExactlyOnce(r: ModuleRegistry, f: Factory)
    requires r.Valid()
    ensures var once := if f in r.startedModules then 1 else 0;
            Constructions(r.events)[f] == once && multiset(Starts(r.events))[f] == once
  {
    DistinctCount(r.startOrder, f);
    assert f in r.startedModules <==> f in Elements(r.startOrder);
  }

  lemma {:induction false} DistinctCount(order: seq<Factory>, f: Factory)
    requires forall i, j :: 0 <= i < j < |order| ==> order[i] != order[j]
    ensures multiset(order)[f] == if f in order then 1 else 0
  {
    if order != [] {
      var n := |order| - 1;
      DistinctCount(order[..n], f);
      assert order == order[..n] + [order[n]];
    }
  }

  lemma {:induction false} StopTraceAt(order: seq<Factory>, registered: set<Factory>, k: nat)
    requires k < 2 * |order|
    ensures |StopTrace(order, registered)| == 2 * |order|
    ensures var f := order[|order| - 1 - k / 2];
            StopTrace(order, registered)[k] == if k % 2 == 0 then HandlerStopped(f) else Stopped(f, registered)
  {
    var n := |order| - 1;
    if k >= 2 {
      StopTraceAt(order[..n], registered, k - 2);
    } else if n > 0 {
      StopTraceAt(order[..n], registered, 0);
    }
  }

  lemma {:induction false} DeleteTraceAt(order: seq<Factory>, k: nat)
    requires k < |order|
    ensures |DeleteTrace(order)| == |order|
    ensures DeleteTrace(order)[k] == Deleted(order[|order| - 1 - k])
  {
    var n := |order| - 1;
    if k >= 1 {
      DeleteTraceAt(order[..n], k - 1);
    } else if n > 0 {
      DeleteTraceAt(order[..n], 0);
    }
  }

  /**
   While StopAll runs, each module stops with everything it needs registered, with
   none of that stopped before it, after its own handler, and before anything is deleted.
   */
  lemma {:induction false} StopsBeforeItsNeeds(g: Dependencies, order: seq<Factory>, i: nat, j: nat)
    requires Topological(g, order)
    requires var trace := StopTrace(order, Elements(order)) + DeleteTrace(order); j < i < |trace| && trace[i].Stopped?
    ensures var trace := StopTrace(order, Elements(order)) + DeleteTrace(order);
            var f := trace[i].factory;
            && Needs(g, f) <= trace[i].registered
            && !trace[j].Deleted?
            && (trace[j].Stopped? ==> trace[j].factory !in Needs(g, f))
            && trace[i - 1] == HandlerStopped(f)
  {
    var n, stops := |order|, StopTrace(order, Elements(order));
    var trace := stops + DeleteTrace(order);
    if n > 0 { StopTraceAt(order, Elements(order), 0); DeleteTraceAt(order, 0); }
    if i >= 2 * n { DeleteTraceAt(order, i - 2 * n); }
    StopTraceAt(order, Elements(order), i);
    StopTraceAt(order, Elements(order), j);
    StopTraceAt(order, Elements(order), i - 1);
    var at := n - 1 - i / 2;
    forall d | d in Needs(g, order[at]) ensures d in Elements(order) && d in order[..at + 1] {
      NeedsStandBefore(g, order, at, d);
    }
  }
}
