/** A root container and its scopes over whole runs of resolutions and closings (pkg/di/container.go). */
module Families {
  import opened Wrappers
  import opened Encoding
  import opened Resolution

  datatype Own = Own(scoped: map<Key, Instance>, cleanups: seq<Key>)

  /** Shared singletons and history, and for each container what is its own. A container not in the map
      has not been used yet. */
  datatype Family = Family(shared: map<Key, Instance>, built: seq<Key>, calls: nat, own: map<nat, Own>)

  const NEW_FAMILY := Family(map[], [], 0, map[])

  function OwnOf(f: Family, c: nat): Own {
    if c in f.own then f.own[c] else Own(map[], [])
  }

  /** What a resolution in container c sees. */
  function BoxOf(f: Family, c: nat): Box {
    Box(f.shared, OwnOf(f, c).scoped, OwnOf(f, c).cleanups, f.built, f.calls)
  }

  /** The cleanups container c has still to run, in the order they were noted. */
  function Noted(f: Family, c: nat): seq<Key> {
    OwnOf(f, c).cleanups
  }

  function ResolveIn(g: Graph, ok: nat -> bool, f: Family, c: nat, key: Key): Family {
    var box := Resolve(g, ok, BoxOf(f, c), key, []).0;
    Family(box.shared, box.built, box.calls, f.own[c := Own(box.scoped, box.cleanups)])
  }

  function Closed(f: Family, c: nat): Family {
    f.(own := f.own[c := Own(OwnOf(f, c).scoped, [])])
  }

  datatype Action = Get(container: nat, key: Key) | Close(container: nat)

  function Act(g: Graph, ok: nat -> bool, f: Family, a: Action): Family {
    match a
    case Get(c, key) => ResolveIn(g, ok, f, c, key)
    case Close(c) => Closed(f, c)
  }

  /** Any sequence of resolutions and closings on any of the containers; failures included. */
  function Run(g: Graph, ok: nat -> bool, actions: seq<Action>): Family {
    if actions == [] then NEW_FAMILY
    else Act(g, ok, Run(g, ok, actions[..|actions| - 1]), actions[|actions| - 1])
  }

  // ---------------------------------------------------------------- every action keeps the invariant

  ghost predicate FamilyInv(g: Graph, f: Family) {
    forall c :: BoxInv(g, BoxOf(f, c)) && WiredCaches(g, BoxOf(f, c))
  }

  lemma OtherContainer(g: Graph, other: Box, box': Box)
    requires BoxInv(g, other) && BoxInv(g, box') && other.built <= box'.built
    ensures BoxInv(g, Box(box'.shared, other.scoped, other.cleanups, box'.built, box'.calls))
  {
    forall k | k in other.built ensures k in box'.built {}
  }

  lemma {:induction false} OtherWired(g: Graph, other: Box, box': Box)
    requires WiredCaches(g, other) && WiredCaches(g, box')
    requires forall k :: k in other.shared ==> k in box'.shared && box'.shared[k] == other.shared[k]
    ensures WiredCaches(g, Box(box'.shared, other.scoped, other.cleanups, box'.built, box'.calls))
  {
    CachesLater(g, other, box'.shared);
  }

  lemma {:induction false} ResolveInKeepsInv(g: Graph, ok: nat -> bool, f: Family, c: nat, key: Key)
    requires FamilyInv(g, f)
    ensures FamilyInv(g, ResolveIn(g, ok, f, c, key))
  {
    var box := BoxOf(f, c);
    var box' := Resolve(g, ok, box, key, []).0;
    assert BoxInv(g, box) && WiredCaches(g, box);
    ResolveKeepsInv(g, ok, box, key, []);
    ResolveWired(g, ok, box, key, []);
    ResolveGrows(g, ok, box, key, []);
    var f' := ResolveIn(g, ok, f, c, key);
    forall d ensures BoxInv(g, BoxOf(f', d)) && WiredCaches(g, BoxOf(f', d)) {
      if d == c {
        assert BoxOf(f', d) == box';
      } else {
        assert BoxInv(g, BoxOf(f, d)) && WiredCaches(g, BoxOf(f, d));
        OtherContainer(g, BoxOf(f, d), box');
        OtherWired(g, BoxOf(f, d), box');
      }
    }
  }

  lemma {:induction false} ClosedKeepsInv(g: Graph, f: Family, c: nat)
    requires FamilyInv(g, f)
    ensures FamilyInv(g, Closed(f, c))
  {
    forall d ensures BoxInv(g, BoxOf(Closed(f, c), d)) && WiredCaches(g, BoxOf(Closed(f, c), d)) {
      assert BoxInv(g, BoxOf(f, d)) && WiredCaches(g, BoxOf(f, d));
      assert BoxOf(Closed(f, c), d) == if d == c then BoxOf(f, d).(cleanups := []) else BoxOf(f, d);
    }
  }

  lemma {:induction false} RunKeepsInv(g: Graph, ok: nat -> bool, actions: seq<Action>)
    ensures FamilyInv(g, Run(g, ok, actions))
  {
    if actions != [] {
      var front, a := actions[..|actions| - 1], actions[|actions| - 1];
      RunKeepsInv(g, ok, front);
      match a
      case Get(c, key) => ResolveInKeepsInv(g, ok, Run(g, ok, front), c, key);
      case Close(c) => ClosedKeepsInv(g, Run(g, ok, front), c);
    }
  }

  lemma {:induction false} ReachableBox(g: Graph, ok: nat -> bool, actions: seq<Action>, c: nat)
    ensures BoxInv(g, BoxOf(Run(g, ok, actions), c)) && WiredCaches(g, BoxOf(Run(g, ok, actions), c))
  {
    RunKeepsInv(g, ok, actions);
  }

  // ---------------------------------------------------------------- resolving

  /** After any run, and with constructors that succeed from now on, a key resolves in any container of
      the family exactly when it is sound. */
  lemma {:induction false} ResolvesAfterAnyHistory(g: Graph, ok: nat -> bool, actions: seq<Action>, c: nat, key: Key)
    requires
      var f := Run(g, ok, actions);
      forall n :: n >= f.calls ==> ok(n)
    ensures Resolve(g, ok, BoxOf(Run(g, ok, actions), c), key, []).1.Ok? <==> Sound(g, key)
  {
    ReachableBox(g, ok, actions, c);
    ResolvesIffSound(g, ok, BoxOf(Run(g, ok, actions), c), key);
  }

  /** After any run, a resolved instance is of the requested key, built from what the constructors ask
      for all the way down, and every singleton in it is the shared one. */
  lemma {:induction false} ResolvesWired(g: Graph, ok: nat -> bool, actions: seq<Action>, c: nat, key: Key)
    ensures
      var (box', r) := Resolve(g, ok, BoxOf(Run(g, ok, actions), c), key, []);
      r.Ok? ==> r.value.key == key && Wired(g, box'.shared, r.value)
  {
    ReachableBox(g, ok, actions, c);
    ResolveWired(g, ok, BoxOf(Run(g, ok, actions), c), key, []);
  }

  /** Each singleton is successfully constructed at most once across a root and its scopes. */
  lemma {:induction false} SingletonBuiltOnce(g: Graph, ok: nat -> bool, actions: seq<Action>, i: nat, j: nat)
    requires
      var built := Run(g, ok, actions).built;
      i < |built| && j < |built| && built[i] == built[j] && IsSingleton(g, built[i])
    ensures i == j
  {
    ReachableBox(g, ok, actions, 0);
  }

  /** The result of the i-th action, a resolution. */
  function ResultAt(g: Graph, ok: nat -> bool, actions: seq<Action>, i: nat): Result<Instance, DiError>
    requires i < |actions| && actions[i].Get?
  {
    Resolve(g, ok, BoxOf(Run(g, ok, actions[..i]), actions[i].container), actions[i].key, []).1
  }

  /** Cached instances stay what they are. */
  ghost predicate Stays(f: Family, f': Family) {
    && (forall k :: k in f.shared ==> k in f'.shared && f'.shared[k] == f.shared[k])
    && (forall c, k :: k in OwnOf(f, c).scoped ==>
          k in OwnOf(f', c).scoped && OwnOf(f', c).scoped[k] == OwnOf(f, c).scoped[k])
  }

  lemma ActStays(g: Graph, ok: nat -> bool, f: Family, a: Action)
    ensures Stays(f, Act(g, ok, f, a))
  {
    if a.Get? { ResolveGrows(g, ok, BoxOf(f, a.container), a.key, []); }
  }

  lemma {:induction false} RunStays(g: Graph, ok: nat -> bool, actions: seq<Action>, n: nat)
    requires n <= |actions|
    ensures Stays(Run(g, ok, actions[..n]), Run(g, ok, actions))
  {
    if n == |actions| {
      assert actions[..n] == actions;
    } else {
      var front := actions[..|actions| - 1];
      assert front[..n] == actions[..n];
      RunStays(g, ok, front, n);
      ActStays(g, ok, Run(g, ok, front), actions[|actions| - 1]);
    }
  }

  lemma {:induction false} ResolvedIsCached(g: Graph, ok: nat -> bool, box: Box, key: Key)
    requires Resolve(g, ok, box, key, []).1.Ok? && (IsSingleton(g, key) || IsScoped(g, key))
    ensures Cached(g, Resolve(g, ok, box, key, []).0, key) == Some(Resolve(g, ok, box, key, []).1.value)
  {}

  /** Two successful resolutions of one singleton, anywhere in the family, give the same instance, and so
      do two of a scoped key in one container. */
  lemma {:induction false} SameInstance(g: Graph, ok: nat -> bool, actions: seq<Action>, i: nat, j: nat)
    requires i < j < |actions| && actions[i].Get? && actions[j].Get? && actions[i].key == actions[j].key
    requires
      || IsSingleton(g, actions[i].key)
      || (IsScoped(g, actions[i].key) && actions[i].container == actions[j].container)
    requires ResultAt(g, ok, actions, i).Ok? && ResultAt(g, ok, actions, j).Ok?
    ensures ResultAt(g, ok, actions, i) == ResultAt(g, ok, actions, j)
  {
    var key, c := actions[i].key, actions[i].container;
    var first := Run(g, ok, actions[..i]);
    ResolvedIsCached(g, ok, BoxOf(first, c), key);
    assert actions[..i + 1][..i] == actions[..i] && actions[..j][..i + 1] == actions[..i + 1];
    RunStays(g, ok, actions[..j], i + 1);
    var later := BoxOf(Run(g, ok, actions[..j]), actions[j].container);
    assert Cached(g, later, key) == Some(ResultAt(g, ok, actions, i).value);
  }

  lemma {:induction false} CallsGrow(g: Graph, ok: nat -> bool, actions: seq<Action>, n: nat)
    requires n <= |actions|
    ensures Run(g, ok, actions[..n]).calls <= Run(g, ok, actions).calls
  {
    if n == |actions| {
      assert actions[..n] == actions;
    } else {
      var front, a := actions[..|actions| - 1], actions[|actions| - 1];
      assert front[..n] == actions[..n];
      CallsGrow(g, ok, front, n);
      if a.Get? { ResolveGrows(g, ok, BoxOf(Run(g, ok, front), a.container), a.key, []); }
    }
  }

  lemma {:induction false} TransientGrows(g: Graph, ok: nat -> bool, box: Box, key: Key)
    requires key in g && g[key].lifetime == Transient && Resolve(g, ok, box, key, []).1.Ok?
    ensures Resolve(g, ok, box, key, []).0.calls > box.calls
  {
    var path: seq<Key> := [];
    RoomShrinks(g, path, key);
    ArgsGrow(g, ok, box, Deps(g, key), path + [key]);
  }

  /** Two successful resolutions of a transient key never give the same instance. */
  lemma {:induction false} TransientIsNew(g: Graph, ok: nat -> bool, actions: seq<Action>, i: nat, j: nat)
    requires i < j < |actions| && actions[i].Get? && actions[j].Get? && actions[i].key == actions[j].key
    requires actions[i].key in g && g[actions[i].key].lifetime == Transient
    requires ResultAt(g, ok, actions, i).Ok? && ResultAt(g, ok, actions, j).Ok?
    ensures ResultAt(g, ok, actions, i) != ResultAt(g, ok, actions, j)
  {
    var key := actions[i].key;
    var first, later := Run(g, ok, actions[..i]), Run(g, ok, actions[..j]);
    BuiltWhenNotCached(g, ok, BoxOf(first, actions[i].container), key, []);
    BuiltWhenNotCached(g, ok, BoxOf(later, actions[j].container), key, []);
    assert actions[..i + 1][..i] == actions[..i] && actions[..j][..i + 1] == actions[..i + 1];
    CallsGrow(g, ok, actions[..j], i + 1);
    TransientGrows(g, ok, BoxOf(later, actions[j].container), key);
  }

  // ---------------------------------------------------------------- who built what

  /** What an action builds. */
  ghost function NewlyBuilt(g: Graph, ok: nat -> bool, f: Family, a: Action): seq<Key> {
    match a
    case Get(c, key) =>
      ResolveGrows(g, ok, BoxOf(f, c), key, []);
      Act(g, ok, f, a).built[|f.built|..]
    case Close(_) => []
  }

  /** What container c has built so far, in order. */
  ghost function BuiltBy(g: Graph, ok: nat -> bool, actions: seq<Action>, c: nat): seq<Key> {
    if actions == [] then []
    else
      var front, a := actions[..|actions| - 1], actions[|actions| - 1];
      BuiltBy(g, ok, front, c) + if a.container == c then NewlyBuilt(g, ok, Run(g, ok, front), a) else []
  }

  /** What closings of container c have drained from its cleanup list so far, each time the list as noted. */
  ghost function Drained(g: Graph, ok: nat -> bool, actions: seq<Action>, c: nat): seq<Key> {
    if actions == [] then []
    else
      var front, a := actions[..|actions| - 1], actions[|actions| - 1];
      Drained(g, ok, front, c) + if a == Close(c) then Noted(Run(g, ok, front), c) else []
  }

  lemma {:induction false} ActProgress(g: Graph, ok: nat -> bool, f: Family, c: nat, key: Key)
    ensures Progress(g, BoxOf(f, c), NewlyBuilt(g, ok, f, Get(c, key)), BoxOf(ResolveIn(g, ok, f, c, key), c))
  {
    var part := ResolveProgress(g, ok, BoxOf(f, c), key, []);
    assert (f.built + part)[|f.built|..] == part;
  }

  /** Only its own resolutions and closings change what a container has noted. */
  lemma NotedElsewhere(g: Graph, ok: nat -> bool, f: Family, a: Action, c: nat)
    requires !(a.Get? && a.container == c)
    ensures Noted(Act(g, ok, f, a), c) == if a == Close(c) then [] else Noted(f, c)
  {}

  /** In every run each container notes exactly the cleanups of what it builds, in building order:
      those drained by earlier closings, and those it still holds. */
  lemma {:induction false} CleanupsExact(g: Graph, ok: nat -> bool, actions: seq<Action>, c: nat)
    ensures Drained(g, ok, actions, c) + Noted(Run(g, ok, actions), c) == WithCleanup(g, BuiltBy(g, ok, actions, c))
  {
    if actions != [] {
      var front, a := actions[..|actions| - 1], actions[|actions| - 1];
      var f := Run(g, ok, front);
      CleanupsExact(g, ok, front, c);
      if a.Get? && a.container == c {
        ActProgress(g, ok, f, c, a.key);
        WithCleanupConcat(g, BuiltBy(g, ok, front, c), NewlyBuilt(g, ok, f, a));
        ConcatAssociative(Drained(g, ok, front, c), Noted(f, c), WithCleanup(g, NewlyBuilt(g, ok, f, a)));
      } else {
        NotedElsewhere(g, ok, f, a, c);
        assert BuiltBy(g, ok, actions, c) == BuiltBy(g, ok, front, c);
      }
    }
  }

  /** Everything that was built was built by some container. */
  lemma {:induction false} BuiltBySomeone(g: Graph, ok: nat -> bool, actions: seq<Action>, k: Key) returns (c: nat)
    requires k in Run(g, ok, actions).built
    ensures k in BuiltBy(g, ok, actions, c)
  {
    var front, a := actions[..|actions| - 1], actions[|actions| - 1];
    var f := Run(g, ok, front);
    if k in f.built {
      c := BuiltBySomeone(g, ok, front, k);
    } else {
      c := a.container;
      ActProgress(g, ok, f, c, a.key);
    }
  }

  /** No cleanup is forgotten: what was built and has a cleanup is noted in some container, or a closing
      of that container has run it. */
  lemma {:induction false} NoCleanupForgotten(g: Graph, ok: nat -> bool, actions: seq<Action>, k: Key)
    requires k in Run(g, ok, actions).built && k in g && g[k].hasCleanup
    ensures exists c :: k in Drained(g, ok, actions, c) + Noted(Run(g, ok, actions), c)
  {
    var c := BuiltBySomeone(g, ok, actions, k);
    CleanupMember(g, BuiltBy(g, ok, actions, c), k);
    CleanupsExact(g, ok, actions, c);
  }

  /** A container builds a scoped key once if it holds an instance of it, and never otherwise. */
  lemma {:induction false} ScopedBuiltOnce(g: Graph, ok: nat -> bool, actions: seq<Action>, c: nat, k: Key)
    requires IsScoped(g, k)
    ensures multiset(BuiltBy(g, ok, actions, c))[k] == Bit(k in OwnOf(Run(g, ok, actions), c).scoped)
  {
    if actions != [] {
      var front, a := actions[..|actions| - 1], actions[|actions| - 1];
      ScopedBuiltOnce(g, ok, front, c, k);
      if a.Get? && a.container == c {
        ActProgress(g, ok, Run(g, ok, front), c, a.key);
      }
    }
  }

  // ---------------------------------------------------------------- closing

  function Reverse(s: seq<Key>): (r: seq<Key>)
    ensures |r| == |s| && forall i :: 0 <= i < |s| ==> r[i] == s[|s| - 1 - i]
  {
    if s == [] then [] else [s[|s| - 1]] + Reverse(s[..|s| - 1])
  }

  ghost predicate Needs(g: Graph, k: Key, d: Key) {
    IsSingleton(g, d) && Reaches(g, k, d)
  }

  /** Everything comes before the singletons it depends on, directly or not. */
  ghost predicate DependentsFirst(g: Graph, ran: seq<Key>) {
    forall i, j :: 0 <= i < |ran| && 0 <= j < |ran| && Needs(g, ran[i], ran[j]) ==> i < j
  }

  lemma {:induction false} ReversedOrder(g: Graph, noted: seq<Key>)
    requires DependenciesFirst(g, noted)
    ensures DependentsFirst(g, Reverse(noted))
  {}

  /** In every run, whatever container closes next, its cleanups run everything before the singletons it
      depends on. */
  lemma {:induction false} CloseOrder(g: Graph, ok: nat -> bool, actions: seq<Action>, c: nat)
    ensures DependentsFirst(g, Reverse(Noted(Run(g, ok, actions), c)))
  {
    ReachableBox(g, ok, actions, c);
    ReversedOrder(g, Noted(Run(g, ok, actions), c));
  }

  /** Closes the containers in the given order; the second component lists the cleanups as they run. */
  function CloseAll(f: Family, order: seq<nat>): (Family, seq<Key>) {
    if order == [] then (f, [])
    else
      var (f1, ran) := CloseAll(f, order[..|order| - 1]);
      var c := order[|order| - 1];
      (Closed(f1, c), ran + Reverse(Noted(f1, c)))
  }

  lemma {:induction false} NotedAfter(f: Family, order: seq<nat>, c: nat)
    ensures Noted(CloseAll(f, order).0, c) == if c in order then [] else Noted(f, c)
  {
    if order != [] { NotedAfter(f, order[..|order| - 1], c); }
  }

  lemma {:induction false} ReverseMember(s: seq<Key>, k: Key)
    ensures k in Reverse(s) <==> k in s
  {
    if k in s {
      var i :| 0 <= i < |s| && s[i] == k;
      assert Reverse(s)[|s| - 1 - i] == k;
    }
  }

  lemma {:induction false} RanFrom(f: Family, order: seq<nat>, k: Key)
    ensures k in CloseAll(f, order).1 <==> exists i :: 0 <= i < |order| && k in Noted(f, order[i])
  {
    if order != [] {
      var n := |order| - 1;
      RanFrom(f, order[..n], k);
      NotedAfter(f, order[..n], order[n]);
      ReverseMember(Noted(f, order[n]), k);
      ReverseMember([], k);
    }
  }

  /** A singleton in `early` is needed by a key in `late`. */
  ghost predicate NeededLater(g: Graph, early: seq<Key>, late: seq<Key>) {
    exists d, k :: d in early && k in late && Needs(g, k, d)
  }

  lemma {:induction false} PartsInOrder(g: Graph, a: seq<Key>, b: seq<Key>)
    requires DependentsFirst(g, a) && DependentsFirst(g, b) && !NeededLater(g, a, b)
    ensures DependentsFirst(g, a + b)
  {
    var ran := a + b;
    forall i, j | 0 <= i < |ran| && 0 <= j < |ran| ensures Needs(g, ran[i], ran[j]) ==> i < j {
      if j < |a| <= i {
        assert ran[j] in a && ran[i] in b;
      } else if i >= |a| {
        assert ran[i] == b[i - |a|];
      }
    }
  }

  lemma {:induction false} OrderOfParts(g: Graph, a: seq<Key>, b: seq<Key>)
    requires DependentsFirst(g, a + b)
    ensures DependentsFirst(g, a) && !NeededLater(g, a, b)
  {
    var ran := a + b;
    forall i, j | 0 <= i < |a| && 0 <= j < |a| ensures Needs(g, a[i], a[j]) ==> i < j {
      assert ran[i] == a[i] && ran[j] == a[j];
    }
    forall d, k | d in a && k in b ensures !Needs(g, k, d) {
      var j :| 0 <= j < |a| && a[j] == d;
      var i :| 0 <= i < |b| && b[i] == k;
      assert ran[j] == d && ran[|a| + i] == k;
    }
  }

  /** What closes at j, for the first time, still needs a singleton noted in what closes at i. */
  ghost predicate ClosedTooEarly(g: Graph, f: Family, order: seq<nat>, i: nat, j: nat)
    requires i < j < |order|
  {
    order[j] !in order[..j] && NeededLater(g, Noted(f, order[i]), Noted(f, order[j]))
  }

  /** A singleton noted in a container is needed by what a container closed later has noted. */
  ghost predicate OutOfOrder(g: Graph, f: Family, order: seq<nat>) {
    exists i, j :: 0 <= i < j < |order| && ClosedTooEarly(g, f, order, i, j)
  }

  lemma {:induction false} InFront(g: Graph, f: Family, order: seq<nat>, n: nat, i: nat, j: nat)
    requires i < j < n <= |order|
    ensures ClosedTooEarly(g, f, order[..n], i, j) <==> ClosedTooEarly(g, f, order, i, j)
  {
    assert order[..n][..j] == order[..j];
  }

  lemma {:induction false} EarlierClosings(g: Graph, f: Family, order: seq<nat>, n: nat)
    requires n <= |order| && OutOfOrder(g, f, order[..n])
    ensures OutOfOrder(g, f, order)
  {
    var i, j :| 0 <= i < j < n && ClosedTooEarly(g, f, order[..n], i, j);
    InFront(g, f, order, n, i, j);
  }

  lemma {:induction false} NeededByLast(g: Graph, f: Family, order: seq<nat>, n: nat)
    requires n < |order| && order[n] !in order[..n] && NeededLater(g, CloseAll(f, order[..n]).1, Noted(f, order[n]))
    ensures OutOfOrder(g, f, order)
  {
    var d, k :| d in CloseAll(f, order[..n]).1 && k in Noted(f, order[n]) && Needs(g, k, d);
    RanFrom(f, order[..n], d);
    var i :| 0 <= i < n && d in Noted(f, order[..n][i]);
    assert ClosedTooEarly(g, f, order, i, n);
  }

  lemma {:induction false} NeededByRun(g: Graph, f: Family, order: seq<nat>, i: nat, n: nat)
    requires i < n < |order| && ClosedTooEarly(g, f, order, i, n)
    ensures NeededLater(g, CloseAll(f, order[..n]).1, Noted(f, order[n]))
  {
    var d, k :| d in Noted(f, order[i]) && k in Noted(f, order[n]) && Needs(g, k, d);
    assert order[..n][i] == order[i];
    RanFrom(f, order[..n], d);
  }

  lemma {:induction false} OutOfOrderInFront(g: Graph, f: Family, order: seq<nat>, n: nat, i: nat, j: nat)
    requires i < j < n <= |order| && ClosedTooEarly(g, f, order, i, j)
    ensures OutOfOrder(g, f, order[..n])
  {
    InFront(g, f, order, n, i, j);
  }

  lemma {:induction false} LastCloses(g: Graph, f: Family, order: seq<nat>)
    requires OutOfOrder(g, f, order)
    ensures order != []
    ensures
      var n := |order| - 1;
      || OutOfOrder(g, f, order[..n])
      || (order[n] !in order[..n] && NeededLater(g, CloseAll(f, order[..n]).1, Noted(f, order[n])))
  {
    var i, j :| 0 <= i < j < |order| && ClosedTooEarly(g, f, order, i, j);
    if j < |order| - 1 {
      OutOfOrderInFront(g, f, order, |order| - 1, i, j);
    } else {
      NeededByRun(g, f, order, i, j);
    }
  }

  lemma {:induction false} ReversedNeeds(g: Graph, early: seq<Key>, late: seq<Key>)
    ensures NeededLater(g, early, Reverse(late)) <==> NeededLater(g, early, late)
  {
    forall k ensures k in Reverse(late) <==> k in late { ReverseMember(late, k); }
  }

  lemma {:induction false} OrderedClosing(g: Graph, f: Family, order: seq<nat>)
    requires FamilyInv(g, f) && !OutOfOrder(g, f, order)
    ensures DependentsFirst(g, CloseAll(f, order).1)
  {
    if order != [] {
      var n := |order| - 1;
      var (f1, ran) := CloseAll(f, order[..n]);
      if OutOfOrder(g, f, order[..n]) { EarlierClosings(g, f, order, n); }
      OrderedClosing(g, f, order[..n]);
      NotedAfter(f, order[..n], order[n]);
      var last := Noted(f1, order[n]);
      assert BoxInv(g, BoxOf(f, order[n]));
      ReversedOrder(g, last);
      ReversedNeeds(g, ran, last);
      if NeededLater(g, ran, last) { NeededByLast(g, f, order, n); }
      PartsInOrder(g, ran, Reverse(last));
    }
  }

  lemma {:induction false} UnorderedClosing(g: Graph, f: Family, order: seq<nat>)
    requires DependentsFirst(g, CloseAll(f, order).1)
    ensures !OutOfOrder(g, f, order)
  {
    if OutOfOrder(g, f, order) {
      LastCloses(g, f, order);
      var n := |order| - 1;
      var (f1, ran) := CloseAll(f, order[..n]);
      NotedAfter(f, order[..n], order[n]);
      ReversedNeeds(g, ran, Noted(f1, order[n]));
      OrderOfParts(g, ran, Reverse(Noted(f1, order[n])));
      UnorderedClosing(g, f, order[..n]);
    }
  }

  /** After any run, closing containers one after the other runs everything before the singletons it
      depends on exactly when no singleton noted in one of them is needed by what a container closed
      later has noted. */
  lemma {:induction false} CloseAllOrder(g: Graph, ok: nat -> bool, actions: seq<Action>, order: seq<nat>)
    ensures
      var f := Run(g, ok, actions);
      DependentsFirst(g, CloseAll(f, order).1) <==> !OutOfOrder(g, f, order)
  {
    var f := Run(g, ok, actions);
    RunKeepsInv(g, ok, actions);
    if OutOfOrder(g, f, order) {
      if DependentsFirst(g, CloseAll(f, order).1) { UnorderedClosing(g, f, order); }
    } else {
      OrderedClosing(g, f, order);
    }
  }

  // ---------------------------------------------------------------- scopes and singletons

  /** A singleton first resolved in a scope is shared with the other containers, but its cleanup is noted
      in the scope and runs when that scope closes. */
  lemma {:induction false} ScopeOwnsCleanup(g: Graph, ok: nat -> bool, f: Family, scope: nat, other: nat, key: Key)
    requires key in g && g[key] == Provider(Singleton, [], true) && ok(f.calls)
    requires key !in f.shared && scope != other
    ensures
      var f' := ResolveIn(g, ok, f, scope, key);
      && Resolve(g, ok, BoxOf(f', other), key, []) == (BoxOf(f', other), Ok(Instance(key, f.calls, [])))
      && Noted(f', other) == Noted(f, other) && Noted(f', scope) == Noted(f, scope) + [key]
  {
    var path: seq<Key> := [];
    var box := BoxOf(f, scope);
    assert ResolveArgs(g, ok, box, Deps(g, key), path + [key]) == (box, Ok([]));
    assert Resolve(g, ok, box, key, path).0 == Construct(g, box, Instance(key, box.calls, []));
  }

  const BASE := Key(0, "")
  const USER := Key(1, "")

  /** Two singletons with cleanups, the second built out of the first. */
  const TWO_SINGLETONS: Graph := map[BASE := Provider(Singleton, [], true), USER := Provider(Singleton, [0], true)]

  lemma BaseFirst(ok: nat -> bool)
    requires forall n :: ok(n)
    ensures
      var f := Run(TWO_SINGLETONS, ok, [Get(1, BASE)]);
      Noted(f, 1) == [BASE] && Noted(f, 0) == [] && f.shared == map[BASE := Instance(BASE, 0, [])] && f.calls == 1
  {
    var one := [Get(1, BASE)];
    assert one[..0] == [];
    assert Run(TWO_SINGLETONS, ok, one) == ResolveIn(TWO_SINGLETONS, ok, NEW_FAMILY, 1, BASE);
    var none: seq<Key> := [];
    var box := BoxOf(NEW_FAMILY, 1);
    assert ResolveArgs(TWO_SINGLETONS, ok, box, Deps(TWO_SINGLETONS, BASE), none + [BASE]) == (box, Ok([]));
    assert Resolve(TWO_SINGLETONS, ok, box, BASE, none).0 == Construct(TWO_SINGLETONS, box, Instance(BASE, 0, []));
  }

  lemma UserNext(ok: nat -> bool, f: Family)
    requires forall n :: ok(n)
    requires f.shared == map[BASE := Instance(BASE, 0, [])] && Noted(f, 0) == []
    ensures
      var f' := ResolveIn(TWO_SINGLETONS, ok, f, 0, USER);
      Noted(f', 0) == [USER] && Noted(f', 1) == Noted(f, 1)
  {
    var none: seq<Key> := [];
    var g, box := TWO_SINGLETONS, BoxOf(f, 0);
    assert Deps(g, USER) == [BASE];
    var path := none + [USER];
    assert Resolve(g, ok, box, BASE, path) == (box, Ok(box.shared[BASE]));
    assert [BASE][1..] == [];
    assert ResolveArgs(g, ok, box, [], path) == (box, Ok([]));
    assert [box.shared[BASE]] + [] == [box.shared[BASE]];
    assert ResolveArgs(g, ok, box, [BASE], path) == (box, Ok([box.shared[BASE]]));
    assert Resolve(g, ok, box, USER, none).0 == Construct(g, box, Instance(USER, box.calls, [box.shared[BASE]]));
  }

  lemma {:induction false} CloseScopeThenRoot(f: Family)
    requires Noted(f, 1) == [BASE] && Noted(f, 0) == [USER]
    ensures CloseAll(f, [1, 0]).1 == [BASE, USER]
  {
    var order: seq<nat> := [1, 0];
    var none: seq<Key> := [];
    assert order[..1][..0] == [];
    assert Reverse([BASE]) == [BASE] && Reverse([USER]) == [USER];
    assert CloseAll(f, order[..1]).0 == Closed(f, 1);
    assert CloseAll(f, order[..1]).1 == none + [BASE];
  }

  lemma UserNeedsBase()
    ensures !DependentsFirst(TWO_SINGLETONS, [BASE, USER])
  {
    var w, ran := [USER, BASE], [BASE, USER];
    assert ArgKeys([0]) == [BASE];
    assert Edge(TWO_SINGLETONS, w[0], w[1]);
    assert Walk(TWO_SINGLETONS, w);
    assert Needs(TWO_SINGLETONS, ran[1], ran[0]);
  }

  /** Across containers the order can break: with `BASE` resolved in scope 1 and `USER` in the root,
      closing the scope and then the root cleans up `BASE` before `USER`, which is built out of it. */
  lemma {:induction false} ScopeBreaksOrder(ok: nat -> bool)
    requires forall n :: ok(n)
    ensures
      var f := Run(TWO_SINGLETONS, ok, [Get(1, BASE), Get(0, USER)]);
      CloseAll(f, [1, 0]).1 == [BASE, USER] && !DependentsFirst(TWO_SINGLETONS, [BASE, USER])
  {
    var actions := [Get(1, BASE), Get(0, USER)];
    assert actions[..1] == [Get(1, BASE)];
    BaseFirst(ok);
    UserNext(ok, Run(TWO_SINGLETONS, ok, [Get(1, BASE)]));
    var f := Run(TWO_SINGLETONS, ok, actions);
    assert f == ResolveIn(TWO_SINGLETONS, ok, Run(TWO_SINGLETONS, ok, actions[..1]), 0, USER);
    CloseScopeThenRoot(f);
    UserNeedsBase();
  }
}
