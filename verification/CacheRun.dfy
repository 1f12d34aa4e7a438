// The block cache over runs of the engine: tables come and go, blocks are read through
// the cache, and a cached block is always what the file of its table holds.

module CacheRuns {
  import opened Bytes
  import opened Blocks
  import opened Ssts
  import opened Engines
  import opened BlockCaches

  // made: every table there ever was, by its id.
  datatype State = State(registry: Registry, made: map<nat, Sst>, lists: Lists, now: nat)

  datatype Step =
    | Engine(registry: Registry)
    | Block(id: nat, idx: nat)

  // The engine's calls issue ids; only blocks of present tables are asked for.
  ghost predicate Allowed(s: State, e: Step)
  {
    match e
    case Engine(registry) => Issues(s.registry, registry)
    case Block(id, idx) => id in s.registry.tables && idx < |s.registry.tables[id].metas|
  }

  function Apply(s: State, e: Step, capacity: nat, k: nat): State
    requires Allowed(s, e)
  {
    match e
    case Engine(registry) => s.(registry := registry, made := s.made + registry.tables)
    case Block(id, idx) =>
      var (lists, now) := AfterRead(s.lists, (id, idx), Decoded(s.registry.tables[id], idx), capacity, k, s.now);
      s.(lists := lists, now := now)
  }

  // Every table there is was made under its id, and ids still to come are new.
  ghost predicate Kept(s: State)
  {
    && (forall id :: id in s.registry.tables ==> id in s.made && s.made[id] == s.registry.tables[id])
    && (forall id :: id in s.made ==> id < s.registry.next)
  }

  ghost predicate Inv(s: State, capacity: nat, k: nat)
  {
    Kept(s) && Sound(s.lists, capacity, k, s.now) && Mirrors(s.lists, s.made)
  }

  ghost predicate Runs(s: State, es: seq<Step>, capacity: nat, k: nat)
    decreases |es|
  {
    es != [] ==> Allowed(s, es[0]) && Runs(Apply(s, es[0], capacity, k), es[1..], capacity, k)
  }

  ghost function After(s: State, es: seq<Step>, capacity: nat, k: nat): State
    requires Runs(s, es, capacity, k)
    decreases |es|
  {
    if es == [] then s else After(Apply(s, es[0], capacity, k), es[1..], capacity, k)
  }

  // No id is given out twice: what was made under an id stays what it is.
  lemma EngineKeeps(s: State, registry: Registry)
    requires Kept(s) && Issues(s.registry, registry)
    ensures Kept(s.(registry := registry, made := s.made + registry.tables))
    ensures forall id :: id in s.made ==> (s.made + registry.tables)[id] == s.made[id]
  {
    forall id | id in s.made
      ensures (s.made + registry.tables)[id] == s.made[id]
    {
      assert id < s.registry.next;
    }
  }

  lemma StepKeeps(s: State, e: Step, capacity: nat, k: nat)
    requires Inv(s, capacity, k) && Allowed(s, e)
    ensures var t := Apply(s, e, capacity, k);
            Inv(t, capacity, k) && forall id :: id in s.made ==> id in t.made && t.made[id] == s.made[id]
  {
    match e
    case Engine(registry) =>
      EngineKeeps(s, registry);
      MirrorsMore(s.lists, s.made, s.made + registry.tables);
    case Block(id, idx) =>
      ReadSound(s.lists, (id, idx), Decoded(s.registry.tables[id], idx), capacity, k, s.now, s.made);
  }

  lemma {:induction false} RunKeeps(s: State, es: seq<Step>, capacity: nat, k: nat)
    requires Inv(s, capacity, k) && Runs(s, es, capacity, k)
    ensures var t := After(s, es, capacity, k);
            Inv(t, capacity, k) && forall id :: id in s.made ==> id in t.made && t.made[id] == s.made[id]
    decreases |es|
  {
    if es != [] {
      StepKeeps(s, es[0], capacity, k);
      RunKeeps(Apply(s, es[0], capacity, k), es[1..], capacity, k);
    }
  }

  // In every run from an empty cache, a cached block of a table there is, or there ever
  // was, is the block its file holds.
  lemma HitsAreTrue(registry: Registry, es: seq<Step>, capacity: nat, k: nat, x: CacheKey)
    requires forall id :: id in registry.tables ==> id < registry.next
    requires Runs(State(registry, registry.tables, Lists([], []), 0), es, capacity, k)
    ensures var t := After(State(registry, registry.tables, Lists([], []), 0), es, capacity, k);
            && Sound(t.lists, capacity, k, t.now)
            && (ImageOf(t.lists, x).Some? ==> Mirrored(t.made, x, ImageOf(t.lists, x).value))
            && (x.0 in t.registry.tables && ImageOf(t.lists, x).Some? ==> Mirrored(t.registry.tables, x, ImageOf(t.lists, x).value))
  {
    var s := State(registry, registry.tables, Lists([], []), 0);
    assert Mirrors(s.lists, s.made);
    RunKeeps(s, es, capacity, k);
    LookMirrored(After(s, es, capacity, k).lists, After(s, es, capacity, k).made);
  }
}
