/** The dependency-injection container's resolution engine (pkg/di/container.go, resolve), as a
    function, with the graph theorems it satisfies.

    A provider is reduced to its lifetime, the types its constructor takes and whether the constructor
    returns a cleanup. Whether a constructor call succeeds is decided by an arbitrary function of how
    many constructor calls came before it. */
module Resolution {
  import opened Wrappers
  import opened Encoding

  datatype Key = Key(typ: nat, name: string)

  datatype Lifetime = Singleton | Transient | Scoped

  datatype Provider = Provider(lifetime: Lifetime, args: seq<nat>, hasCleanup: bool)

  type Graph = map<Key, Provider>

  /** What the constructor of `key` made in the given successful or failed call, out of its arguments. */
  datatype Instance = Instance(key: Key, serial: nat, args: seq<Instance>)

  datatype DiError = Cycle(chain: seq<Key>) | NoProvider(key: Key) | BuildFailed(key: Key)

  /** What a resolution sees: the root's singletons, the container's own scoped instances and cleanup
      list, and the history of successful and attempted constructor calls in the whole family. */
  datatype Box = Box(
    shared: map<Key, Instance>, scoped: map<Key, Instance>, cleanups: seq<Key>, built: seq<Key>, calls: nat)

  /** Arguments are always looked up under the default name. */
  function ArgKeys(args: seq<nat>): (r: seq<Key>)
    ensures |r| == |args| && forall i :: 0 <= i < |r| ==> r[i] == Key(args[i], "")
  {
    if args == [] then [] else [Key(args[0], "")] + ArgKeys(args[1..])
  }

  function Deps(g: Graph, key: Key): seq<Key>
    requires key in g
  {
    ArgKeys(g[key].args)
  }

  function Cached(g: Graph, box: Box, key: Key): Option<Instance>
    requires key in g
  {
    match g[key].lifetime
    case Singleton => if key in box.shared then Some(box.shared[key]) else None
    case Scoped => if key in box.scoped then Some(box.scoped[key]) else None
    case Transient => None
  }

  /** Cache an instance by the provider's lifetime, and note its cleanup. */
  function Keep(g: Graph, box: Box, inst: Instance): Box
    requires inst.key in g
  {
    var p := g[inst.key];
    box.(shared := if p.lifetime.Singleton? then box.shared[inst.key := inst] else box.shared,
         scoped := if p.lifetime.Scoped? then box.scoped[inst.key := inst] else box.scoped,
         cleanups := if p.hasCleanup then box.cleanups + [inst.key] else box.cleanups)
  }

  /** A constructor call that succeeds. */
  function Construct(g: Graph, box: Box, inst: Instance): Box
    requires inst.key in g
  {
    Keep(g, box, inst).(built := box.built + [inst.key], calls := box.calls + 1)
  }

  function Elements(path: seq<Key>): set<Key> {
    set k | k in path
  }

  /** The termination measure: registered keys that are not on the path yet. */
  function Room(g: Graph, path: seq<Key>): nat {
    |g.Keys - Elements(path)|
  }

  lemma RoomShrinks(g: Graph, path: seq<Key>, key: Key)
    requires key in g && key !in path
    ensures Room(g, path + [key]) < Room(g, path)
  {
    var before, after := g.Keys - Elements(path), g.Keys - Elements(path + [key]);
    assert key in before && after == before - {key};
  }

  function Resolve(g: Graph, ok: nat -> bool, box: Box, key: Key, path: seq<Key>)
    : (Box, Result<Instance, DiError>)
    decreases Room(g, path), 0
  {
    if key in path then (box, Err(Cycle(path + [key])))
    else if key !in g then (box, Err(NoProvider(key)))
    else if Cached(g, box, key).Some? then (box, Ok(Cached(g, box, key).value))
    else
      RoomShrinks(g, path, key);
      var (box1, args) := ResolveArgs(g, ok, box, Deps(g, key), path + [key]);
      if args.Err? then (box1, Err(args.error))
      else if !ok(box1.calls) then (box1.(calls := box1.calls + 1), Err(BuildFailed(key)))
      else
        var inst := Instance(key, box1.calls, args.value);
        (Construct(g, box1, inst), Ok(inst))
  }

  /** Resolves the arguments in order and stops at the first failure. */
  function ResolveArgs(g: Graph, ok: nat -> bool, box: Box, keys: seq<Key>, path: seq<Key>)
    : (Box, Result<seq<Instance>, DiError>)
    decreases Room(g, path), 1 + |keys|
  {
    if keys == [] then (box, Ok([]))
    else
      var (box1, r) := Resolve(g, ok, box, keys[0], path);
      if r.Err? then (box1, Err(r.error))
      else
        var (box2, rest) := ResolveArgs(g, ok, box1, keys[1..], path);
        (box2, if rest.Err? then rest else Ok([r.value] + rest.value))
  }

  /** A key that is not cached is built by a resolution that succeeds: a new instance, from its own constructor
      call, the last one made. */
  lemma {:induction false} BuiltWhenNotCached(g: Graph, ok: nat -> bool, box: Box, key: Key, path: seq<Key>)
    requires key in g && Cached(g, box, key).None? && Resolve(g, ok, box, key, path).1.Ok?
    ensures
      var (box', r) := Resolve(g, ok, box, key, path);
      && box'.calls > 0 && r.value.key == key && r.value.serial == box'.calls - 1 && ok(r.value.serial)
      && box'.built != [] && box'.built[|box'.built| - 1] == key
  {
    RoomShrinks(g, path, key);
  }

  lemma ConcatAssociative<T>(a: seq<T>, b: seq<T>, c: seq<T>)
    ensures a + b + c == a + (b + c)
  {}

  /** Arguments are resolved from left to right, and the first failure ends it. */
  lemma {:induction false} LeftToRight(
    g: Graph, ok: nat -> bool, box: Box, keys: seq<Key>, more: seq<Key>, path: seq<Key>)
    ensures
      var (box1, args) := ResolveArgs(g, ok, box, keys, path);
      ResolveArgs(g, ok, box, keys + more, path)
      == if args.Err? then (box1, args)
         else
           var (box2, rest) := ResolveArgs(g, ok, box1, more, path);
           (box2, if rest.Err? then rest else Ok(args.value + rest.value))
    decreases |keys|
  {
    if keys == [] {
      assert keys + more == more;
      var rest := ResolveArgs(g, ok, box, more, path).1;
      assert rest.Ok? ==> [] + rest.value == rest.value;
    } else {
      assert (keys + more)[1..] == keys[1..] + more;
      var (box1, r) := Resolve(g, ok, box, keys[0], path);
      if r.Ok? {
        LeftToRight(g, ok, box1, keys[1..], more, path);
        var (box2, args) := ResolveArgs(g, ok, box1, keys[1..], path);
        if args.Ok? {
          var rest := ResolveArgs(g, ok, box2, more, path).1;
          if rest.Ok? { ConcatAssociative([r.value], args.value, rest.value); }
        }
      }
    }
  }

  /** A constructor failure is reported only for the last constructor call made, and only if that failed. */
  lemma {:induction false} BuildFailureMeans(g: Graph, ok: nat -> bool, box: Box, key: Key, path: seq<Key>)
    ensures
      var (box', r) := Resolve(g, ok, box, key, path);
      r.Err? && r.error.BuildFailed? ==> box'.calls > 0 && !ok(box'.calls - 1)
    decreases Room(g, path), 0
  {
    if key !in path && key in g && Cached(g, box, key).None? {
      RoomShrinks(g, path, key);
      ArgFailureMeans(g, ok, box, Deps(g, key), path + [key]);
    }
  }

  lemma {:induction false} ArgFailureMeans(g: Graph, ok: nat -> bool, box: Box, keys: seq<Key>, path: seq<Key>)
    ensures
      var (box', args) := ResolveArgs(g, ok, box, keys, path);
      args.Err? && args.error.BuildFailed? ==> box'.calls > 0 && !ok(box'.calls - 1)
    decreases Room(g, path), 1 + |keys|
  {
    if keys != [] {
      BuildFailureMeans(g, ok, box, keys[0], path);
      var (box1, r) := Resolve(g, ok, box, keys[0], path);
      if r.Ok? { ArgFailureMeans(g, ok, box1, keys[1..], path); }
    }
  }

  // ---------------------------------------------------------------- the graph

  ghost predicate Edge(g: Graph, a: Key, b: Key) {
    a in g && b in Deps(g, a)
  }

  ghost predicate Walk(g: Graph, w: seq<Key>) {
    w != [] && forall i :: 0 <= i < |w| - 1 ==> Edge(g, w[i], w[i + 1])
  }

  /** Everything reachable from the key is registered and no walk from it meets a key twice. */
  ghost predicate Sound(g: Graph, key: Key) {
    forall w :: Walk(g, w) && w[0] == key ==> Distinct(w) && forall i :: 0 <= i < |w| ==> w[i] in g
  }

  ghost predicate Reaches(g: Graph, a: Key, b: Key) {
    exists w :: Walk(g, w) && |w| >= 2 && w[0] == a && w[|w| - 1] == b
  }

  lemma SoundRegistered(g: Graph, key: Key)
    requires Sound(g, key)
    ensures key in g
  {
    assert Walk(g, [key]) && [key][0] in [key];
  }

  lemma SoundDeps(g: Graph, key: Key, dep: Key)
    requires Sound(g, key) && Edge(g, key, dep)
    ensures Sound(g, dep)
  {
    forall w | Walk(g, w) && w[0] == dep ensures Distinct(w) && forall i :: 0 <= i < |w| ==> w[i] in g {
      var longer := [key] + w;
      assert Walk(g, longer) && longer[0] == key;
      forall i | 0 <= i < |w| ensures w[i] in g { assert longer[i + 1] == w[i]; }
      forall i, j | 0 <= i < j < |w| ensures w[i] != w[j] { assert longer[i + 1] != longer[j + 1]; }
    }
  }

  /** A walk that comes back to its start closes a cycle through its second key. */
  lemma ReturnToStart(g: Graph, w: seq<Key>, j: nat)
    requires Walk(g, w) && 1 <= j < |w| && w[j] == w[0]
    ensures !Sound(g, w[1])
  {
    var loop := w[1..j + 1] + [w[1]];
    forall i | 0 <= i < |loop| - 1 ensures Edge(g, loop[i], loop[i + 1]) {
      assert Edge(g, w[i + 1], w[if i + 1 == j then 1 else i + 2]) by {
        if i + 1 == j { assert Edge(g, w[0], w[1]); }
      }
    }
    assert Walk(g, loop) && loop[0] == w[1] && loop[|loop| - 1] == loop[0] && !Distinct(loop);
  }

  lemma TailWalk(g: Graph, w: seq<Key>)
    requires Walk(g, w) && |w| > 1
    ensures Walk(g, w[1..])
  {}

  lemma DistinctCons<T>(w: seq<T>)
    requires w != [] && Distinct(w[1..]) && forall j :: 1 <= j < |w| ==> w[j] != w[0]
    ensures Distinct(w)
  {}

  lemma SoundFromDeps(g: Graph, key: Key)
    requires key in g && forall dep :: dep in Deps(g, key) ==> Sound(g, dep)
    ensures Sound(g, key)
  {
    forall w | Walk(g, w) && w[0] == key ensures Distinct(w) && forall i :: 0 <= i < |w| ==> w[i] in g {
      if |w| > 1 {
        assert Edge(g, w[0], w[1]);
        TailWalk(g, w);
        forall j | 1 <= j < |w| ensures w[j] != w[0] {
          if w[j] == w[0] { ReturnToStart(g, w, j); }
        }
        DistinctCons(w);
        forall i | 1 <= i < |w| ensures w[i] in g { assert w[1..][i - 1] in g; }
      }
    }
  }

  /** A sound key does not stand on a path that leads to it. */
  lemma SoundOffPath(g: Graph, path: seq<Key>, key: Key)
    requires Sound(g, key) && Walk(g, path + [key])
    ensures key !in path
  {
    if i: nat :| i < |path| && path[i] == key {
      var w, loop := path + [key], path[i..] + [key];
      forall j | 0 <= j < |loop| - 1 ensures Edge(g, loop[j], loop[j + 1]) {
        assert Edge(g, w[i + j], w[i + j + 1]);
      }
      assert Walk(g, loop) && loop[0] == key && loop[|loop| - 1] == key;
    }
  }

  lemma ExtendWalk(g: Graph, path: seq<Key>, key: Key, dep: Key)
    requires Walk(g, path + [key]) && Edge(g, key, dep)
    ensures Walk(g, path + [key] + [dep])
  {}

  // ---------------------------------------------------------------- what a resolution leaves behind

  ghost predicate IsSingleton(g: Graph, key: Key) {
    key in g && g[key].lifetime.Singleton?
  }

  /** History only grows, cached instances stay, and nothing on the path is cached along the way. */
  ghost predicate Grows(g: Graph, box: Box, box': Box, path: seq<Key>) {
    && box.built <= box'.built
    && (forall k :: k in box.shared ==> k in box'.shared && box'.shared[k] == box.shared[k])
    && (forall k :: k in box.scoped ==> k in box'.scoped && box'.scoped[k] == box.scoped[k])
    && (forall k :: k in path && k in box'.shared ==> k in box.shared)
    && (forall k :: k in path && k in box'.scoped ==> k in box.scoped)
    && box.calls <= box'.calls
  }

  lemma ConstructGrows(g: Graph, box: Box, box1: Box, inst: Instance, path: seq<Key>)
    requires inst.key in g && inst.key !in path && Cached(g, box, inst.key).None?
    requires Grows(g, box, box1, path + [inst.key])
    ensures Grows(g, box, Construct(g, box1, inst), path)
  {
    assert forall k :: k in path || k == inst.key ==> k in path + [inst.key];
  }

  lemma {:induction false} ResolveGrows(g: Graph, ok: nat -> bool, box: Box, key: Key, path: seq<Key>)
    ensures Grows(g, box, Resolve(g, ok, box, key, path).0, path)
    decreases Room(g, path), 0
  {
    if key !in path && key in g && Cached(g, box, key).None? {
      RoomShrinks(g, path, key);
      ArgsGrow(g, ok, box, Deps(g, key), path + [key]);
      var (box1, args) := ResolveArgs(g, ok, box, Deps(g, key), path + [key]);
      if args.Ok? { ConstructGrows(g, box, box1, Instance(key, box1.calls, args.value), path); }
    }
  }

  lemma {:induction false} ArgsGrow(g: Graph, ok: nat -> bool, box: Box, keys: seq<Key>, path: seq<Key>)
    ensures Grows(g, box, ResolveArgs(g, ok, box, keys, path).0, path)
    decreases Room(g, path), 1 + |keys|
  {
    if keys != [] {
      ResolveGrows(g, ok, box, keys[0], path);
      var (box1, r) := Resolve(g, ok, box, keys[0], path);
      if r.Ok? { ArgsGrow(g, ok, box1, keys[1..], path); }
    }
  }

  /** Every singleton that key i of the history depends on, directly or not, was built before it. */
  ghost predicate BuiltAfterDeps(g: Graph, built: seq<Key>) {
    forall i, d :: 0 <= i < |built| && IsSingleton(g, d) && Reaches(g, built[i], d) ==> d in built[..i]
  }

  ghost predicate SingletonsOnce(g: Graph, built: seq<Key>) {
    forall i, j :: 0 <= i < j < |built| && built[i] == built[j] ==> !IsSingleton(g, built[i])
  }

  /** Every key comes after the singletons it depends on, directly or not. */
  ghost predicate DependenciesFirst(g: Graph, noted: seq<Key>) {
    forall p, q :: 0 <= p < |noted| && 0 <= q < |noted| && IsSingleton(g, noted[q]) && Reaches(g, noted[p], noted[q])
      ==> q < p
  }

  /** What a container notes for cleanup was built, and in an order that respects dependencies. */
  ghost predicate CleanupsInv(g: Graph, cleanups: seq<Key>, built: seq<Key>) {
    (forall k :: k in cleanups ==> k in built) && DependenciesFirst(g, cleanups)
  }

  /** The caches hold sound keys that were built, singletons are cached exactly when built, no singleton
      was built twice, dependencies were built first, and cleanups are noted in that order. */
  ghost predicate BoxInv(g: Graph, box: Box) {
    && (forall k :: k in box.shared ==> IsSingleton(g, k) && Sound(g, k))
    && (forall k :: k in box.scoped ==> k in g && g[k].lifetime.Scoped? && Sound(g, k) && k in box.built)
    && (forall k :: IsSingleton(g, k) ==> (k in box.built <==> k in box.shared))
    && SingletonsOnce(g, box.built)
    && BuiltAfterDeps(g, box.built)
    && CleanupsInv(g, box.cleanups, box.built)
  }

  /** What holds of a key once it is resolved: it is sound, and the singletons it needs are there. */
  ghost predicate Settled(g: Graph, key: Key, built: seq<Key>) {
    && Sound(g, key)
    && (IsSingleton(g, key) ==> key in built)
    && (forall d :: IsSingleton(g, d) && Reaches(g, key, d) ==> d in built)
  }

  lemma DependencyBuilt(g: Graph, built: seq<Key>, key: Key, d: Key)
    requires BuiltAfterDeps(g, built) && key in built && IsSingleton(g, d) && Reaches(g, key, d)
    ensures d in built
  {
    var i: nat :| i < |built| && built[i] == key;
    assert d in built[..i];
  }

  lemma CachedSettled(g: Graph, box: Box, key: Key)
    requires BoxInv(g, box) && key in g && Cached(g, box, key).Some?
    ensures Settled(g, key, box.built)
  {
    forall d | IsSingleton(g, d) && Reaches(g, key, d) ensures d in box.built {
      DependencyBuilt(g, box.built, key, d);
    }
  }

  lemma ReachesThroughDep(g: Graph, key: Key, d: Key)
    requires Reaches(g, key, d)
    ensures exists dep :: Edge(g, key, dep) && (dep == d || Reaches(g, dep, d))
  {
    var w :| Walk(g, w) && |w| >= 2 && w[0] == key && w[|w| - 1] == d;
    assert Edge(g, w[0], w[1]);
    TailWalk(g, w);
    if |w| > 2 {
      assert Walk(g, w[1..]) && w[1..][0] == w[1] && w[1..][|w| - 2] == d;
    }
  }

  /** When all arguments are settled, everything the key reaches is built. */
  lemma DepsSettled(g: Graph, key: Key, built: seq<Key>)
    requires key in g && forall dep :: dep in Deps(g, key) ==> Settled(g, dep, built)
    ensures Sound(g, key)
    ensures forall d :: IsSingleton(g, d) && Reaches(g, key, d) ==> d in built
  {
    SoundFromDeps(g, key);
    forall d | IsSingleton(g, d) && Reaches(g, key, d) ensures d in built {
      ReachesThroughDep(g, key, d);
      var dep :| Edge(g, key, dep) && (dep == d || Reaches(g, dep, d));
      assert Settled(g, dep, built);
    }
  }

  lemma NotOnItself(g: Graph, key: Key)
    requires Sound(g, key)
    ensures !Reaches(g, key, key)
  {}

  lemma ConstructKeepsCleanups(g: Graph, box: Box, key: Key)
    requires BoxInv(g, box) && Sound(g, key) && (IsSingleton(g, key) ==> key !in box.built)
    ensures CleanupsInv(g, box.cleanups + [key], box.built + [key])
  {
    var noted, n := box.cleanups + [key], |box.cleanups|;
    NotOnItself(g, key);
    forall p, q | 0 <= p <= n && 0 <= q <= n && IsSingleton(g, noted[q]) && Reaches(g, noted[p], noted[q])
      ensures q < p
    {
      if q == n && p < n {
        DependencyBuilt(g, box.built, noted[p], key);
      }
    }
  }

  lemma ConstructKeepsOrder(g: Graph, built: seq<Key>, key: Key)
    requires BuiltAfterDeps(g, built)
    requires forall d :: IsSingleton(g, d) && Reaches(g, key, d) ==> d in built
    ensures BuiltAfterDeps(g, built + [key])
  {
    var longer := built + [key];
    forall i, d | 0 <= i < |longer| && IsSingleton(g, d) && Reaches(g, longer[i], d) ensures d in longer[..i] {
      assert longer[..i] == built[..i];
      if i < |built| { assert d in built[..i]; }
    }
  }

  lemma ConstructKeepsOnce(g: Graph, built: seq<Key>, key: Key)
    requires SingletonsOnce(g, built) && (IsSingleton(g, key) ==> key !in built)
    ensures SingletonsOnce(g, built + [key])
  {}

  lemma ConstructKeepsInv(g: Graph, box: Box, inst: Instance)
    requires BoxInv(g, box) && inst.key in g && Sound(g, inst.key)
    requires forall d :: IsSingleton(g, d) && Reaches(g, inst.key, d) ==> d in box.built
    requires IsSingleton(g, inst.key) ==> inst.key !in box.shared
    ensures BoxInv(g, Construct(g, box, inst))
  {
    ConstructKeepsOnce(g, box.built, inst.key);
    ConstructKeepsOrder(g, box.built, inst.key);
    ConstructKeepsCleanups(g, box, inst.key);
  }

  lemma SettledLater(g: Graph, key: Key, built: seq<Key>, built': seq<Key>)
    requires Settled(g, key, built) && built <= built'
    ensures Settled(g, key, built')
  {}

  lemma SettledAfterConstruct(g: Graph, box: Box, inst: Instance)
    requires inst.key in g && Sound(g, inst.key)
    requires forall d :: IsSingleton(g, d) && Reaches(g, inst.key, d) ==> d in box.built
    ensures Settled(g, inst.key, Construct(g, box, inst).built)
  {}

  /** A resolution keeps the invariant whether it succeeds or not, and a resolved key is settled. */
  lemma {:induction false} ResolveKeepsInv(g: Graph, ok: nat -> bool, box: Box, key: Key, path: seq<Key>)
    requires BoxInv(g, box)
    ensures
      var (box', r) := Resolve(g, ok, box, key, path);
      BoxInv(g, box') && (r.Ok? ==> Settled(g, key, box'.built))
    decreases Room(g, path), 0
  {
    if key !in path && key in g {
      if Cached(g, box, key).Some? {
        CachedSettled(g, box, key);
      } else {
        RoomShrinks(g, path, key);
        ArgsKeepInv(g, ok, box, Deps(g, key), path + [key]);
        ArgsGrow(g, ok, box, Deps(g, key), path + [key]);
        var (box1, args) := ResolveArgs(g, ok, box, Deps(g, key), path + [key]);
        if args.Ok? && ok(box1.calls) {
          DepsSettled(g, key, box1.built);
          assert key in path + [key];
          var inst := Instance(key, box1.calls, args.value);
          ConstructKeepsInv(g, box1, inst);
          SettledAfterConstruct(g, box1, inst);
        }
      }
    }
  }

  lemma {:induction false} ArgsKeepInv(g: Graph, ok: nat -> bool, box: Box, keys: seq<Key>, path: seq<Key>)
    requires BoxInv(g, box)
    ensures
      var (box', args) := ResolveArgs(g, ok, box, keys, path);
      BoxInv(g, box') && (args.Ok? ==> forall k :: k in keys ==> Settled(g, k, box'.built))
    decreases Room(g, path), 1 + |keys|
  {
    if keys != [] {
      ResolveKeepsInv(g, ok, box, keys[0], path);
      var (box1, r) := Resolve(g, ok, box, keys[0], path);
      if r.Ok? {
        ArgsKeepInv(g, ok, box1, keys[1..], path);
        ArgsGrow(g, ok, box1, keys[1..], path);
        var (box2, rest) := ResolveArgs(g, ok, box1, keys[1..], path);
        SettledLater(g, keys[0], box1.built, box2.built);
        if rest.Ok? {
          forall k | k in keys ensures Settled(g, k, box2.built) {
            assert k == keys[0] || k in keys[1..];
          }
        }
      }
    }
  }

  // ---------------------------------------------------------------- what a resolved instance is made of

  /** The instance was built from instances of exactly the keys its constructor asks for, these likewise,
      and every singleton in it is the one in the shared cache. */
  ghost predicate Wired(g: Graph, shared: map<Key, Instance>, inst: Instance)
    decreases inst
  {
    && inst.key in g && |inst.args| == |Deps(g, inst.key)|
    && (IsSingleton(g, inst.key) ==> inst.key in shared && shared[inst.key] == inst)
    && forall i :: 0 <= i < |inst.args| ==> inst.args[i].key == Deps(g, inst.key)[i] && Wired(g, shared, inst.args[i])
  }

  ghost predicate WiredCaches(g: Graph, box: Box) {
    && (forall k :: k in box.shared ==> box.shared[k].key == k && Wired(g, box.shared, box.shared[k]))
    && (forall k :: k in box.scoped ==> box.scoped[k].key == k && Wired(g, box.shared, box.scoped[k]))
  }

  lemma {:induction false} WiredLater(g: Graph, shared: map<Key, Instance>, shared': map<Key, Instance>, inst: Instance)
    requires Wired(g, shared, inst) && forall k :: k in shared ==> k in shared' && shared'[k] == shared[k]
    ensures Wired(g, shared', inst)
    decreases inst
  {
    forall i | 0 <= i < |inst.args| ensures Wired(g, shared', inst.args[i]) {
      WiredLater(g, shared, shared', inst.args[i]);
    }
  }

  ghost predicate WiredArgs(g: Graph, shared: map<Key, Instance>, keys: seq<Key>, args: seq<Instance>) {
    |args| == |keys| && forall i :: 0 <= i < |args| ==> args[i].key == keys[i] && Wired(g, shared, args[i])
  }

  lemma {:induction false} WiredArgsLater(
    g: Graph, shared: map<Key, Instance>, shared': map<Key, Instance>, keys: seq<Key>, args: seq<Instance>)
    requires WiredArgs(g, shared, keys, args) && forall k :: k in shared ==> k in shared' && shared'[k] == shared[k]
    ensures WiredArgs(g, shared', keys, args)
  {
    forall i | 0 <= i < |args| ensures Wired(g, shared', args[i]) { WiredLater(g, shared, shared', args[i]); }
  }

  lemma {:induction false} CachesLater(g: Graph, box: Box, shared': map<Key, Instance>)
    requires WiredCaches(g, box) && forall k :: k in box.shared ==> k in shared' && shared'[k] == box.shared[k]
    ensures forall k :: k in box.shared ==> Wired(g, shared', box.shared[k])
    ensures forall k :: k in box.scoped ==> Wired(g, shared', box.scoped[k])
  {
    forall k | k in box.shared ensures Wired(g, shared', box.shared[k]) {
      WiredLater(g, box.shared, shared', box.shared[k]);
    }
    forall k | k in box.scoped ensures Wired(g, shared', box.scoped[k]) {
      WiredLater(g, box.shared, shared', box.scoped[k]);
    }
  }

  lemma {:induction false} ConstructWired(g: Graph, box: Box, inst: Instance)
    requires WiredCaches(g, box) && inst.key in g && WiredArgs(g, box.shared, Deps(g, inst.key), inst.args)
    requires IsSingleton(g, inst.key) ==> inst.key !in box.shared
    ensures WiredCaches(g, Construct(g, box, inst)) && Wired(g, Construct(g, box, inst).shared, inst)
  {
    var shared' := Construct(g, box, inst).shared;
    WiredArgsLater(g, box.shared, shared', Deps(g, inst.key), inst.args);
    CachesLater(g, box, shared');
  }

  /** Whatever a resolution returns is wired as the graph says. */
  lemma {:induction false} ResolveWired(g: Graph, ok: nat -> bool, box: Box, key: Key, path: seq<Key>)
    requires WiredCaches(g, box)
    ensures
      var (box', r) := Resolve(g, ok, box, key, path);
      WiredCaches(g, box') && (r.Ok? ==> r.value.key == key && Wired(g, box'.shared, r.value))
    decreases Room(g, path), 0
  {
    if key !in path && key in g && Cached(g, box, key).None? {
      RoomShrinks(g, path, key);
      ArgsWired(g, ok, box, Deps(g, key), path + [key]);
      ArgsGrow(g, ok, box, Deps(g, key), path + [key]);
      var (box1, args) := ResolveArgs(g, ok, box, Deps(g, key), path + [key]);
      if args.Ok? {
        assert key in path + [key];
        ConstructWired(g, box1, Instance(key, box1.calls, args.value));
      }
    }
  }

  lemma {:induction false} ArgsWired(g: Graph, ok: nat -> bool, box: Box, keys: seq<Key>, path: seq<Key>)
    requires WiredCaches(g, box)
    ensures
      var (box', args) := ResolveArgs(g, ok, box, keys, path);
      WiredCaches(g, box') && (args.Ok? ==> WiredArgs(g, box'.shared, keys, args.value))
    decreases Room(g, path), 1 + |keys|
  {
    if keys != [] {
      ResolveWired(g, ok, box, keys[0], path);
      var (box1, r) := Resolve(g, ok, box, keys[0], path);
      if r.Ok? {
        ArgsWired(g, ok, box1, keys[1..], path);
        ArgsGrow(g, ok, box1, keys[1..], path);
        var (box2, rest) := ResolveArgs(g, ok, box1, keys[1..], path);
        WiredLater(g, box1.shared, box2.shared, r.value);
      }
    }
  }

  // ---------------------------------------------------------------- what a resolution builds and notes

  /** The keys that come with a cleanup, in the same order. */
  function WithCleanup(g: Graph, built: seq<Key>): seq<Key> {
    if built == [] then []
    else
      var k := built[|built| - 1];
      WithCleanup(g, built[..|built| - 1]) + if k in g && g[k].hasCleanup then [k] else []
  }

  lemma {:induction false} WithCleanupConcat(g: Graph, a: seq<Key>, b: seq<Key>)
    ensures WithCleanup(g, a + b) == WithCleanup(g, a) + WithCleanup(g, b)
  {
    if b == [] {
      assert a + b == a;
    } else {
      assert (a + b)[..|a + b| - 1] == a + b[..|b| - 1];
      WithCleanupConcat(g, a, b[..|b| - 1]);
    }
  }

  lemma {:induction false} CleanupMember(g: Graph, built: seq<Key>, k: Key)
    requires k in built && k in g && g[k].hasCleanup
    ensures k in WithCleanup(g, built)
  {
    if k in built[..|built| - 1] {
      CleanupMember(g, built[..|built| - 1], k);
    }
  }

  function Bit(b: bool): nat {
    if b then 1 else 0
  }

  ghost predicate IsScoped(g: Graph, key: Key) {
    key in g && g[key].lifetime.Scoped?
  }

  /** A scoped key occurs in `part` once if it is newly cached, and not at all otherwise. */
  ghost predicate ScopedOnce(g: Graph, scoped: map<Key, Instance>, part: seq<Key>, scoped': map<Key, Instance>) {
    forall k :: IsScoped(g, k) ==> multiset(part)[k] + Bit(k in scoped) == Bit(k in scoped')
  }

  lemma ScopedOnceOn(g: Graph, a: map<Key, Instance>, part: seq<Key>, b: map<Key, Instance>, part': seq<Key>,
                     c: map<Key, Instance>)
    requires ScopedOnce(g, a, part, b) && ScopedOnce(g, b, part', c)
    ensures ScopedOnce(g, a, part + part', c)
  {
    forall k | IsScoped(g, k) ensures multiset(part + part')[k] + Bit(k in a) == Bit(k in c) {
      assert multiset(part + part')[k] == multiset(part)[k] + multiset(part')[k];
    }
  }

  /** `part` is what was built between the two states, and its cleanups have been noted in building order. */
  ghost predicate Progress(g: Graph, box: Box, part: seq<Key>, box': Box) {
    && box'.built == box.built + part
    && box'.cleanups == box.cleanups + WithCleanup(g, part)
    && ScopedOnce(g, box.scoped, part, box'.scoped)
  }

  lemma ProgressOn(g: Graph, a: Box, part: seq<Key>, b: Box, part': seq<Key>, c: Box)
    requires Progress(g, a, part, b) && Progress(g, b, part', c)
    ensures Progress(g, a, part + part', c)
  {
    ConcatAssociative(a.built, part, part');
    ConcatAssociative(a.cleanups, WithCleanup(g, part), WithCleanup(g, part'));
    WithCleanupConcat(g, part, part');
    ScopedOnceOn(g, a.scoped, part, b.scoped, part', c.scoped);
  }

  lemma ConstructProgress(g: Graph, box: Box, part: seq<Key>, box1: Box, inst: Instance)
    requires Progress(g, box, part, box1)
    requires inst.key in g && (IsScoped(g, inst.key) ==> inst.key !in box1.scoped)
    ensures Progress(g, box, part + [inst.key], Construct(g, box1, inst))
  {
    assert [inst.key][..0] == [];
    assert Progress(g, box1, [inst.key], Construct(g, box1, inst));
    ProgressOn(g, box, part, box1, [inst.key], Construct(g, box1, inst));
  }

  /** A key that was not cached and stands on the path of the resolution of its arguments still is not. */
  lemma NotCachedMeanwhile(g: Graph, box: Box, box1: Box, key: Key, path: seq<Key>)
    requires key in g && Cached(g, box, key).None? && key in path && Grows(g, box, box1, path)
    ensures Cached(g, box1, key).None?
  {}

  lemma {:induction false} ResolveProgress(g: Graph, ok: nat -> bool, box: Box, key: Key, path: seq<Key>)
    returns (part: seq<Key>)
    ensures Progress(g, box, part, Resolve(g, ok, box, key, path).0)
    decreases Room(g, path), 0
  {
    part := [];
    if key !in path && key in g && Cached(g, box, key).None? {
      RoomShrinks(g, path, key);
      part := ArgsProgress(g, ok, box, Deps(g, key), path + [key]);
      ArgsGrow(g, ok, box, Deps(g, key), path + [key]);
      var (box1, args) := ResolveArgs(g, ok, box, Deps(g, key), path + [key]);
      if args.Ok? && ok(box1.calls) {
        NotCachedMeanwhile(g, box, box1, key, path + [key]);
        ConstructProgress(g, box, part, box1, Instance(key, box1.calls, args.value));
        part := part + [key];
      }
    }
  }

  lemma {:induction false} ArgsProgress(g: Graph, ok: nat -> bool, box: Box, keys: seq<Key>, path: seq<Key>)
    returns (part: seq<Key>)
    ensures Progress(g, box, part, ResolveArgs(g, ok, box, keys, path).0)
    decreases Room(g, path), 1 + |keys|
  {
    part := [];
    if keys != [] {
      part := ResolveProgress(g, ok, box, keys[0], path);
      var (box1, r) := Resolve(g, ok, box, keys[0], path);
      if r.Ok? {
        var part' := ArgsProgress(g, ok, box1, keys[1..], path);
        ProgressOn(g, box, part, box1, part', ResolveArgs(g, ok, box1, keys[1..], path).0);
        part := part + part';
      }
    }
  }

  // ---------------------------------------------------------------- success and failure

  /** With constructors that succeed, a sound key resolves. */
  lemma {:induction false} SoundResolves(g: Graph, ok: nat -> bool, box: Box, key: Key, path: seq<Key>)
    requires Sound(g, key) && Walk(g, path + [key]) && forall n :: n >= box.calls ==> ok(n)
    ensures Resolve(g, ok, box, key, path).1.Ok?
    decreases Room(g, path), 0
  {
    SoundRegistered(g, key);
    SoundOffPath(g, path, key);
    if Cached(g, box, key).None? {
      RoomShrinks(g, path, key);
      SoundArgsResolve(g, ok, box, key, Deps(g, key), path);
      ArgsGrow(g, ok, box, Deps(g, key), path + [key]);
    }
  }

  lemma {:induction false} SoundArgsResolve(
    g: Graph, ok: nat -> bool, box: Box, key: Key, keys: seq<Key>, path: seq<Key>)
    requires Sound(g, key) && key in g && Walk(g, path + [key]) && forall n :: n >= box.calls ==> ok(n)
    requires forall k :: k in keys ==> k in Deps(g, key)
    ensures ResolveArgs(g, ok, box, keys, path + [key]).1.Ok?
    decreases Room(g, path + [key]), 1 + |keys|
  {
    if keys != [] {
      assert Edge(g, key, keys[0]);
      SoundDeps(g, key, keys[0]);
      ExtendWalk(g, path, key, keys[0]);
      SoundResolves(g, ok, box, keys[0], path + [key]);
      ResolveGrows(g, ok, box, keys[0], path + [key]);
      SoundArgsResolve(g, ok, Resolve(g, ok, box, keys[0], path + [key]).0, key, keys[1..], path);
    }
  }

  /** With constructors that succeed, a key resolves exactly when everything reachable from it is
      registered and acyclic. */
  lemma {:induction false} ResolvesIffSound(g: Graph, ok: nat -> bool, box: Box, key: Key)
    requires BoxInv(g, box) && forall n :: n >= box.calls ==> ok(n)
    ensures Resolve(g, ok, box, key, []).1.Ok? <==> Sound(g, key)
  {
    ResolveKeepsInv(g, ok, box, key, []);
    if Sound(g, key) {
      assert Walk(g, [] + [key]);
      SoundResolves(g, ok, box, key, []);
    }
  }

  /** The keys an error speaks about lie on a walk that continues the path: a cycle error names a walk
      whose last key occurs before, a missing provider is an unregistered key at the end of a walk. */
  ghost predicate Justified(g: Graph, start: Key, e: DiError) {
    match e
    case Cycle(chain) => Walk(g, chain) && chain[0] == start && chain[|chain| - 1] in chain[..|chain| - 1]
    case NoProvider(k) => k !in g && (k == start || Reaches(g, start, k))
    case BuildFailed(k) => k in g && (k == start || Reaches(g, start, k))
  }

  /** The path and then the key walk from `start`. */
  ghost predicate Leads(g: Graph, start: Key, path: seq<Key>, key: Key) {
    Walk(g, path + [key]) && (path + [key])[0] == start
  }

  lemma LeadsReaches(g: Graph, start: Key, path: seq<Key>, key: Key)
    requires Leads(g, start, path, key)
    ensures start == key || Reaches(g, start, key)
  {}

  lemma LeadsOn(g: Graph, start: Key, path: seq<Key>, key: Key, dep: Key)
    requires Leads(g, start, path, key) && Edge(g, key, dep)
    ensures Leads(g, start, path + [key], dep)
  {
    ExtendWalk(g, path, key, dep);
  }

  lemma CycleJustified(g: Graph, start: Key, path: seq<Key>, key: Key)
    requires Leads(g, start, path, key) && key in path
    ensures Justified(g, start, Cycle(path + [key]))
  {}

  lemma {:induction false} ErrorsJustified(g: Graph, ok: nat -> bool, box: Box, start: Key, key: Key, path: seq<Key>)
    requires Leads(g, start, path, key)
    ensures
      var r := Resolve(g, ok, box, key, path).1;
      r.Err? ==> Justified(g, start, r.error)
    decreases Room(g, path), 0
  {
    LeadsReaches(g, start, path, key);
    if key in path {
      CycleJustified(g, start, path, key);
    } else if key in g && Cached(g, box, key).None? {
      RoomShrinks(g, path, key);
      ArgErrorsJustified(g, ok, box, start, key, Deps(g, key), path);
    }
  }

  lemma {:induction false} ArgErrorsJustified(
    g: Graph, ok: nat -> bool, box: Box, start: Key, key: Key, keys: seq<Key>, path: seq<Key>)
    requires key in g && Leads(g, start, path, key) && forall k :: k in keys ==> k in Deps(g, key)
    ensures
      var args := ResolveArgs(g, ok, box, keys, path + [key]).1;
      args.Err? ==> Justified(g, start, args.error)
    decreases Room(g, path + [key]), 1 + |keys|
  {
    if keys != [] {
      LeadsOn(g, start, path, key, keys[0]);
      ErrorsJustified(g, ok, box, start, keys[0], path + [key]);
      var (box1, r) := Resolve(g, ok, box, keys[0], path + [key]);
      if r.Ok? { ArgErrorsJustified(g, ok, box1, start, key, keys[1..], path); }
    }
  }

  /** A cycle error names a genuine cycle: the error's chain walks from the requested key to a key it has
      passed before. */
  lemma {:induction false} CycleErrorIsGenuine(g: Graph, ok: nat -> bool, box: Box, key: Key)
    ensures
      var r := Resolve(g, ok, box, key, []).1;
      r.Err? ==> Justified(g, key, r.error)
  {
    assert Leads(g, key, [], key);
    ErrorsJustified(g, ok, box, key, key, []);
  }
}
