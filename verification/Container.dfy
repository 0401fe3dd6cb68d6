/** The container objects (pkg/di/container.go): a root, scopes below it, and their caches.

    Providers are registered before the first resolution and shared by all containers of a family.
    The constructors themselves are behind a Factory, which decides whether a call succeeds. */
module Containers {
  import opened Wrappers
  import opened Encoding
  import opened Resolution
  import opened Families

  /** The outside world of constructors, common to a root and its scopes. */
  class Factory {
    const ok: nat -> bool
    var calls: nat
    ghost var built: seq<Key>

    constructor (ok: nat -> bool)
      ensures this.ok == ok && calls == 0 && built == []
    {
      this.ok, calls, built := ok, 0, [];
    }

    /** Runs a constructor on its arguments; None is its error return. */
    method Call(key: Key, args: seq<Instance>) returns (inst: Option<Instance>)
      modifies this
      ensures calls == old(calls) + 1
      ensures inst == if ok(old(calls)) then Some(Instance(key, old(calls), args)) else None
      ensures built == if ok(old(calls)) then old(built) + [key] else old(built)
    {
      if ok(calls) {
        inst := Some(Instance(key, calls, args));
        built := built + [key];
      } else {
        inst := None;
      }
      calls := calls + 1;
    }
  }

  /** The cached instances whose provider has the given lifetime. */
  ghost function OfLifetime(g: Graph, instances: map<Key, Instance>, lifetime: Lifetime): map<Key, Instance> {
    map k | k in instances && k in g && g[k].lifetime == lifetime :: instances[k]
  }

  lemma OfLifetimeUpdate(g: Graph, instances: map<Key, Instance>, key: Key, inst: Instance, lifetime: Lifetime)
    requires key in g
    ensures OfLifetime(g, instances[key := inst], lifetime)
            == if g[key].lifetime == lifetime then OfLifetime(g, instances, lifetime)[key := inst]
               else OfLifetime(g, instances, lifetime)
  {}

  /** The arguments resolved so far, followed by what is still to come. */
  function After(args: seq<Instance>, rest: (Box, Result<seq<Instance>, DiError>))
    : (Box, Result<seq<Instance>, DiError>)
  {
    (rest.0, if rest.1.Err? then rest.1 else Ok(args + rest.1.value))
  }

  lemma {:induction false} AfterNothing(g: Graph, ok: nat -> bool, box: Box, keys: seq<Key>, path: seq<Key>)
    ensures After([], ResolveArgs(g, ok, box, keys[0..], path)) == ResolveArgs(g, ok, box, keys, path)
  {
    assert keys[0..] == keys;
    var args := ResolveArgs(g, ok, box, keys, path).1;
    assert args.Ok? ==> [] + args.value == args.value;
  }

  lemma {:induction false} AfterOne(
    g: Graph, ok: nat -> bool, box: Box, keys: seq<Key>, path: seq<Key>, i: nat, args: seq<Instance>)
    requires i < |keys|
    ensures
      var (box1, r) := Resolve(g, ok, box, keys[i], path);
      After(args, ResolveArgs(g, ok, box, keys[i..], path))
      == if r.Err? then (box1, Err(r.error))
         else After(args + [r.value], ResolveArgs(g, ok, box1, keys[i + 1..], path))
  {
    assert keys[i..][0] == keys[i] && keys[i..][1..] == keys[i + 1..];
    var (box1, r) := Resolve(g, ok, box, keys[i], path);
    if r.Ok? {
      var rest := ResolveArgs(g, ok, box1, keys[i + 1..], path).1;
      if rest.Ok? { ConcatAssociative(args, [r.value], rest.value); }
    }
  }

  lemma {:induction false} AfterAll(
    g: Graph, ok: nat -> bool, box: Box, keys: seq<Key>, path: seq<Key>, args: seq<Instance>)
    ensures After(args, ResolveArgs(g, ok, box, keys[|keys|..], path)) == (box, Ok(args))
  {
    assert keys[|keys|..] == [] && args + [] == args;
  }

  class Container {
    const parent: Container?
    const providers: Graph
    const factory: Factory
    var instances: map<Key, Instance>
    var cleanups: seq<Key>

    /** This container, its parent, and so on up to the root. */
    ghost const line: seq<Container>

    /** `line` follows the parents. */
    ghost predicate Linked()
      decreases |line|
    {
      && |line| > 0 && line[0] == this
      && (parent == null <==> |line| == 1)
      && (parent != null ==>
            && parent == line[1] && parent.line == line[1..]
            && parent.providers == providers && parent.factory == factory && parent.Linked())
    }

    ghost function Root(): Container
      requires |line| > 0
    {
      line[|line| - 1]
    }

    /** The line is linked and without repetition, and only its root keeps singletons. */
    ghost predicate Valid()
      reads line
    {
      && Linked() && Distinct(line)
      && forall i :: 0 <= i < |line| - 1 ==> OfLifetime(providers, line[i].instances, Singleton) == map[]
    }

    constructor NewRoot(providers: Graph, factory: Factory)
      ensures Valid() && parent == null && this.providers == providers && this.factory == factory
      ensures instances == map[] && cleanups == []
    {
      this.parent, this.providers, this.factory := null, providers, factory;
      instances, cleanups := map[], [];
      line := [this];
    }

    constructor Scope(parent: Container)
      requires parent.Valid()
      ensures Valid() && this.parent == parent && providers == parent.providers && factory == parent.factory
      ensures instances == map[] && cleanups == [] && Root() == parent.Root()
    {
      this.parent, providers, factory := parent, parent.providers, parent.factory;
      instances, cleanups := map[], [];
      line := [this] + parent.line;
      new;
      assert line[1..] == parent.line;
      forall i | 0 <= i < |line| - 1 ensures OfLifetime(providers, line[i].instances, Singleton) == map[] {
        if i > 0 { assert line[i] == parent.line[i - 1]; }
      }
    }

    /** The state of this container as Resolution sees it. */
    ghost function View(): Box
      requires Valid()
      reads line, factory
    {
      Box(OfLifetime(providers, Root().instances, Singleton), OfLifetime(providers, instances, Scoped),
          cleanups, factory.built, factory.calls)
    }

    /** The scoped instances that the root holds for itself. */
    ghost function RootScoped(): map<Key, Instance>
      requires |line| > 0
      reads Root()
    {
      OfLifetime(providers, Root().instances, Scoped)
    }

    lemma ParentValid()
      requires Valid() && parent != null
      ensures parent.Valid() && parent.Root() == Root() && |parent.line| < |line|
    {
      forall i | 0 <= i < |parent.line| ensures parent.line[i] == line[i + 1] {}
    }

    /** Walks up to find a cached singleton. */
    function LookupSingletonInstance(key: Key): (r: Option<Instance>)
      requires Valid() && key in providers && providers[key].lifetime.Singleton?
      reads line
      ensures r == if key in Root().instances then Some(Root().instances[key]) else None
      decreases |line|
    {
      if key in instances then
        assert key in OfLifetime(providers, line[0].instances, Singleton);
        Some(instances[key])
      else if parent != null then
        ParentValid();
        parent.LookupSingletonInstance(key)
      else None
    }

    /** Stores a singleton at the root, so that all scopes share it. */
    method StoreSingleton(key: Key, inst: Instance)
      requires Valid() && key in providers && providers[key].lifetime.Singleton?
      modifies Root()`instances
      ensures Root().instances == old(Root().instances)[key := inst]
      ensures Valid() && RootScoped() == old(RootScoped())
      decreases |line|
    {
      OfLifetimeUpdate(providers, Root().instances, key, inst, Scoped);
      if parent != null {
        ParentValid();
        parent.StoreSingleton(key, inst);
        return;
      }
      instances := instances[key := inst];
    }

    /** Caches the instance according to the lifetime. */
    method Store(key: Key, inst: Instance)
      requires Valid() && key in providers
      modifies this`instances, Root()`instances
      ensures Valid() && cleanups == old(cleanups)
      ensures OfLifetime(providers, Root().instances, Singleton)
              == if providers[key].lifetime.Singleton? then old(View()).shared[key := inst] else old(View()).shared
      ensures OfLifetime(providers, instances, Scoped)
              == if providers[key].lifetime.Scoped? then old(View()).scoped[key := inst] else old(View()).scoped
      ensures this != Root() ==> RootScoped() == old(RootScoped())
    {
      OfLifetimeUpdate(providers, Root().instances, key, inst, Singleton);
      OfLifetimeUpdate(providers, Root().instances, key, inst, Scoped);
      OfLifetimeUpdate(providers, instances, key, inst, Scoped);
      OfLifetimeUpdate(providers, instances, key, inst, Singleton);
      match providers[key].lifetime
      case Singleton => StoreSingleton(key, inst);
      case Scoped => instances := instances[key := inst];
      case Transient =>
    }

    /** The cache lookup by lifetime: scoped instances are looked up in this container only. */
    method LookupInstance(key: Key) returns (hit: Option<Instance>)
      requires Valid() && key in providers
      ensures hit == Cached(providers, View(), key)
    {
      match providers[key].lifetime
      case Singleton => hit := LookupSingletonInstance(key);
      case Scoped => hit := if key in instances then Some(instances[key]) else None;
      case Transient => hit := None;
    }

    /** The recursive resolution, on the objects. */
    method Resolve(key: Key, path: seq<Key>) returns (r: Result<Instance, DiError>)
      requires Valid()
      modifies this, Root()`instances, factory
      ensures Valid()
      ensures (View(), r) == Resolution.Resolve(providers, factory.ok, old(View()), key, path)
      ensures this != Root() ==> RootScoped() == old(RootScoped())
      decreases Room(providers, path), 0
    {
      if key in path {
        return Err(Cycle(path + [key]));
      }
      if key !in providers {
        return Err(NoProvider(key));
      }
      var hit := LookupInstance(key);
      if hit.Some? {
        return Ok(hit.value);
      }
      RoomShrinks(providers, path, key);
      var args := ResolveArgs(ArgKeys(providers[key].args), path + [key]);
      if args.Err? {
        return Err(args.error);
      }
      r := Build(key, args.value);
    }

    /** The loop that fills the constructor's argument list. */
    method ResolveArgs(keys: seq<Key>, path: seq<Key>) returns (r: Result<seq<Instance>, DiError>)
      requires Valid()
      modifies this, Root()`instances, factory
      ensures Valid()
      ensures (View(), r) == Resolution.ResolveArgs(providers, factory.ok, old(View()), keys, path)
      ensures this != Root() ==> RootScoped() == old(RootScoped())
      decreases Room(providers, path), 1
    {
      var args: seq<Instance> := [];
      AfterNothing(providers, factory.ok, View(), keys, path);
      for i := 0 to |keys|
        invariant Valid() && (this != Root() ==> RootScoped() == old(RootScoped()))
        invariant Resolution.ResolveArgs(providers, factory.ok, old(View()), keys, path)
                  == After(args, Resolution.ResolveArgs(providers, factory.ok, View(), keys[i..], path))
      {
        AfterOne(providers, factory.ok, View(), keys, path, i, args);
        var val := Resolve(keys[i], path);
        if val.Err? {
          return Err(val.error);
        }
        args := args + [val.value];
      }
      AfterAll(providers, factory.ok, View(), keys, path, args);
      r := Ok(args);
    }

    /** Appends the cleanup, if the constructor returned one. */
    method NoteCleanup(key: Key)
      requires Valid() && key in providers
      modifies this`cleanups
      ensures Valid() && instances == old(instances)
      ensures cleanups == if providers[key].hasCleanup then old(cleanups) + [key] else old(cleanups)
    {
      if providers[key].hasCleanup {
        cleanups := cleanups + [key];
      }
    }

    /** Caches an instance and notes its cleanup. */
    method KeepInstance(inst: Instance)
      requires Valid() && inst.key in providers
      modifies this, Root()`instances
      ensures Valid()
      ensures View() == Keep(providers, old(View()), inst)
      ensures this != Root() ==> RootScoped() == old(RootScoped())
    {
      Store(inst.key, inst);
      NoteCleanup(inst.key);
    }

    /** Calls the constructor, caches its result and notes its cleanup. */
    method Build(key: Key, args: seq<Instance>) returns (r: Result<Instance, DiError>)
      requires Valid() && key in providers
      modifies this, Root()`instances, factory
      ensures Valid()
      ensures
        var inst := Instance(key, old(View()).calls, args);
        (View(), r) ==
          if factory.ok(old(View()).calls) then (Construct(providers, old(View()), inst), Ok(inst))
          else (old(View()).(calls := old(View()).calls + 1), Err(BuildFailed(key)))
      ensures this != Root() ==> RootScoped() == old(RootScoped())
    {
      var inst := factory.Call(key, args);
      assert Valid() && RootScoped() == old(RootScoped());
      assert View() == old(View()).(built := factory.built, calls := factory.calls);
      if inst.None? {
        return Err(BuildFailed(key));
      }
      KeepInstance(inst.value);
      r := Ok(inst.value);
    }

    /** Runs the cleanups in LIFO order; `ran` lists them as they run. */
    method Close() returns (ran: seq<Key>)
      modifies this`cleanups
      ensures ran == Reverse(old(cleanups)) && cleanups == []
    {
      ran := [];
      var i := |cleanups|;
      while i > 0
        invariant 0 <= i <= |cleanups| && cleanups == old(cleanups)
        invariant ran + Reverse(cleanups[..i]) == Reverse(cleanups)
      {
        assert cleanups[..i][..i - 1] == cleanups[..i - 1];
        i := i - 1;
        ran := ran + [cleanups[i]];
      }
      cleanups := [];
    }
  }
}
