// A read split into its memory step and its table step, against a flush split at its
// lock boundaries, with writes in between.

module FlushRaces {
  import opened Bytes
  import opened Mvcc
  import opened SkipLists

  // How far the flusher is.  From Locked to Registered it holds the table lock, so no read
  // can take its table step; in Built it also holds the lock of the frozen tables, so
  // nothing can look at memory.
  datatype Phase =
    | Idle
    | Locked
    | Built(table: seq<Rec>)
    | Popped(table: seq<Rec>)
    | Registered

  // Tables newest first; records of tables on disk newest source first.
  datatype State = State(current: seq<Rec>, frozen: seq<seq<Rec>>, stored: seq<Rec>, phase: Phase)

  datatype Event =
    | Write(r: Rec)
    | Freeze
    | Lock
    | Compact(now: seq<Rec>)
    | Build
    | FailBuild
    | Pop
    | Register
    | Unlock

  function Frozen(s: State): State
  {
    if s.current == [] then s else s.(current := [], frozen := [s.current] + s.frozen)
  }

  // Writers and freezing need the locks of memory; the flusher goes through its phases.
  ghost predicate Step(s: State, e: Event, t: State)
  {
    match e
    case Write(r) => t == s.(current := Upsert(s.current, r))
    case Freeze => !s.phase.Built? && t == Frozen(s)
    case Lock => s.phase.Idle? && t == s.(phase := Locked)
    case Compact(now) => s.phase.Locked? && SameGroups(now, s.stored) && t == s.(stored := now)
    case Build =>
      s.phase.Locked? &&
      var f := if s.frozen == [] then Frozen(s) else s;
      t == if f.frozen == [] then f.(phase := Registered) else f.(phase := Built(f.frozen[|f.frozen| - 1]))
    case FailBuild => s.phase.Built? && t == s.(phase := Registered)
    case Pop => s.phase.Built? && s.frozen != [] && t == s.(frozen := s.frozen[..|s.frozen| - 1], phase := Popped(s.phase.table))
    case Register => s.phase.Popped? && t == s.(stored := s.phase.table + s.stored, phase := Registered)
    case Unlock => (s.phase.Registered? || s.phase.Locked?) && t == s.(phase := Idle)
  }

  // The flusher keeps the table it built at hand until it is registered.
  ghost predicate Inv(s: State)
  {
    s.phase.Built? ==> s.frozen != [] && s.frozen[|s.frozen| - 1] == s.phase.table
  }

  ghost predicate Reaches(s: State, events: seq<Event>, t: State)
    decreases |events|
  {
    if events == [] then s == t
    else exists m :: Step(s, events[0], m) && Reaches(m, events[1..], t)
  }

  function InMemory(s: State): seq<Rec>
  {
    s.current + Flat(s.frozen)
  }

  // Out of memory, but perhaps not yet registered.
  function Settled(s: State): seq<Rec>
  {
    (if s.phase.Popped? then s.phase.table else []) + s.stored
  }

  ghost predicate Has(s: seq<Rec>, key: Key, ver: nat)
  {
    exists i :: 0 <= i < |s| && s[i].key == key && s[i].ver == ver
  }

  // ---- No step loses a version ----

  lemma HasAppend(s: seq<Rec>, t: seq<Rec>, key: Key, ver: nat)
    ensures Has(s + t, key, ver) <==> Has(s, key, ver) || Has(t, key, ver)
  {
    if Has(s, key, ver) {
      var i :| 0 <= i < |s| && s[i].key == key && s[i].ver == ver;
      assert (s + t)[i] == s[i];
    }
    if Has(t, key, ver) {
      var i :| 0 <= i < |t| && t[i].key == key && t[i].ver == ver;
      assert (s + t)[|s| + i] == t[i];
    }
  }

  lemma {:induction false} HasUpsert(s: seq<Rec>, r: Rec, key: Key, ver: nat)
    requires Has(s, key, ver)
    ensures Has(Upsert(s, r), key, ver)
  {
    if s[0].key == r.key && s[0].ver == r.ver {
      assert s == [s[0]] + s[1..];
      HasAppend([s[0]], s[1..], key, ver);
      HasAppend([r], s[1..], key, ver);
      HasOne(s[0], r, key, ver);
    } else if RecLess(s[0], r) {
      assert s == [s[0]] + s[1..];
      HasAppend([s[0]], s[1..], key, ver);
      HasAppend([s[0]], Upsert(s[1..], r), key, ver);
      if Has(s[1..], key, ver) {
        HasUpsert(s[1..], r, key, ver);
      }
    } else {
      HasAppend([r], s, key, ver);
    }
  }

  lemma HasOne(a: Rec, b: Rec, key: Key, ver: nat)
    requires a.key == b.key && a.ver == b.ver
    ensures Has([a], key, ver) ==> Has([b], key, ver)
  {
    if Has([a], key, ver) {
      assert [b][0].key == key && [b][0].ver == ver;
    }
  }

  lemma HasGroups(s: seq<Rec>, t: seq<Rec>, key: Key, ver: nat)
    requires SameGroups(s, t) && Has(s, key, ver)
    ensures Has(t, key, ver)
  {
    var i := GroupHead(s, key, ver);
    var j := GroupHead(t, key, ver);
    assert Group(s, key, ver) == Group(t, key, ver);
  }

  lemma FreezeKeeps(s: State, key: Key, ver: nat)
    ensures Has(InMemory(Frozen(s)), key, ver) <==> Has(InMemory(s), key, ver)
  {
    assert ([s.current] + s.frozen)[1..] == s.frozen;
    assert [] + Flat([s.current] + s.frozen) == s.current + Flat(s.frozen);
  }

  lemma PopMoves(s: State, key: Key, ver: nat)
    requires Inv(s) && s.phase.Built?
    ensures Has(InMemory(s), key, ver) ==>
              Has(s.current + Flat(s.frozen[..|s.frozen| - 1]), key, ver) || Has(s.phase.table, key, ver)
  {
    var n := |s.frozen| - 1;
    assert s.frozen == s.frozen[..n] + [s.frozen[n]];
    FlatAppend(s.frozen[..n], [s.frozen[n]]);
    FlatOne(s.frozen[n]);
    assert InMemory(s) == s.current + Flat(s.frozen[..n]) + s.phase.table;
    HasAppend(s.current + Flat(s.frozen[..n]), s.phase.table, key, ver);
  }

  // Memory gives versions up only to the settled records; those are never given up.
  lemma StepKeeps(s: State, e: Event, t: State, key: Key, ver: nat)
    requires Inv(s) && Step(s, e, t)
    ensures Inv(t)
    ensures Has(Settled(s), key, ver) ==> Has(Settled(t), key, ver)
    ensures Has(InMemory(s), key, ver) ==> Has(InMemory(t), key, ver) || Has(Settled(t), key, ver)
  {
    match e
    case Write(r) =>
      HasAppend(s.current, Flat(s.frozen), key, ver);
      HasAppend(Upsert(s.current, r), Flat(s.frozen), key, ver);
      if Has(s.current, key, ver) {
        HasUpsert(s.current, r, key, ver);
      }
    case Freeze =>
      FreezeKeeps(s, key, ver);
    case Lock =>
    case Compact(now) =>
      assert [] + s.stored == s.stored && [] + now == now;
      if Has(s.stored, key, ver) {
        HasGroups(s.stored, now, key, ver);
      }
    case Build =>
      FreezeKeeps(s, key, ver);
    case FailBuild =>
    case Pop =>
      PopMoves(s, key, ver);
      HasAppend([], s.stored, key, ver);
      HasAppend(s.phase.table, s.stored, key, ver);
    case Register =>
      assert [] + (s.phase.table + s.stored) == s.phase.table + s.stored;
    case Unlock =>
  }

  lemma {:induction false} RunKeeps(s: State, events: seq<Event>, t: State, key: Key, ver: nat)
    requires Inv(s) && Reaches(s, events, t)
    ensures Inv(t)
    ensures Has(Settled(s), key, ver) ==> Has(Settled(t), key, ver)
    ensures Has(InMemory(s), key, ver) ==> Has(InMemory(t), key, ver) || Has(Settled(t), key, ver)
    decreases |events|
  {
    if events != [] {
      var m :| Step(s, events[0], m) && Reaches(m, events[1..], t);
      StepKeeps(s, events[0], m, key, ver);
      RunKeeps(m, events[1..], t, key, ver);
    }
  }

  // ---- The read ----

  // Memory can be looked at unless the flusher holds the frozen tables.
  ghost predicate CanReadMemory(s: State)
  {
    !s.phase.Built?
  }

  // Tables can be looked at only while the flusher is out.
  ghost predicate CanReadTables(s: State)
  {
    s.phase.Idle?
  }

  lemma HasBounds(s: seq<Rec>, q: Query, ver: nat)
    requires Has(s, q.key, ver) && Admits(q.bound, q.skip, ver)
    ensures Best(s, q).Some? && Best(s, q).value.ver >= ver
  {
    BestMeaning(s, q);
    var i :| 0 <= i < |s| && s[i].key == q.key && s[i].ver == ver;
    assert Eligible(s[i], q);
  }

  // Whatever happens from the moment a read begins, between its two steps and in any
  // order: it finds each version stored at its beginning, or a newer one.  The set of
  // writers to ignore may change between the steps.
  lemma ReadMissesNothing(begin: State, before: seq<Event>, mem: State, between: seq<Event>, tables: State,
                          key: Key, bound: nat, skipMem: set<nat>, skipTables: set<nat>, ver: nat)
    requires Inv(begin) && Reaches(begin, before, mem) && CanReadMemory(mem)
    requires Reaches(mem, between, tables) && CanReadTables(tables)
    requires Has(InMemory(begin) + Settled(begin), key, ver) && Admits(bound, skipMem, ver) && Admits(bound, skipTables, ver)
    ensures var r := Pick(Best(InMemory(mem), Query(key, bound, skipMem)), Best(tables.stored, Query(key, bound, skipTables)));
            r.Some? && r.value.ver >= ver
  {
    HasAppend(InMemory(begin), Settled(begin), key, ver);
    RunKeeps(begin, before, mem, key, ver);
    if Has(InMemory(mem), key, ver) {
      HasBounds(InMemory(mem), Query(key, bound, skipMem), ver);
    } else {
      RunKeeps(mem, between, tables, key, ver);
      assert [] + tables.stored == tables.stored;
      HasBounds(tables.stored, Query(key, bound, skipTables), ver);
    }
  }

  lemma OneMore(s: State, e: Event, m: State, rest: seq<Event>, t: State)
    requires Step(s, e, m) && Reaches(m, rest, t)
    ensures Reaches(s, [e] + rest, t)
  {
    assert ([e] + rest)[1..] == rest;
  }

  // With nobody else about, the flusher's phases together do what the engine's flush
  // promises: the oldest table leaves memory and joins the tables, and no read changes.
  lemma WholeFlush(s: State, now: seq<Rec>) returns (t: State, moved: seq<Rec>)
    requires s.phase.Idle? && (s.current != [] || s.frozen != []) && SameGroups(now, s.stored)
    ensures Reaches(s, [Lock] + ([Compact(now)] + ([Build] + ([Pop] + ([Register] + ([Unlock] + []))))), t) && t.phase.Idle?
    ensures InMemory(s) == InMemory(t) + moved && t.stored == moved + now
    ensures SameGroups(InMemory(t) + t.stored, InMemory(s) + s.stored)
  {
    var s1 := s.(phase := Locked);
    var s2 := s1.(stored := now);
    var f := if s2.frozen == [] then Frozen(s2) else s2;
    var n := |f.frozen| - 1;
    moved := f.frozen[n];
    var s3 := f.(phase := Built(moved));
    var s4 := s3.(frozen := s3.frozen[..n], phase := Popped(moved));
    var s5 := s4.(stored := moved + s4.stored, phase := Registered);
    t := s5.(phase := Idle);
    OneMore(s5, Unlock, t, [], t);
    OneMore(s4, Register, s5, [Unlock] + [], t);
    OneMore(s3, Pop, s4, [Register] + ([Unlock] + []), t);
    OneMore(s2, Build, s3, [Pop] + ([Register] + ([Unlock] + [])), t);
    OneMore(s1, Compact(now), s2, [Build] + ([Pop] + ([Register] + ([Unlock] + []))), t);
    OneMore(s, Lock, s1, [Compact(now)] + ([Build] + ([Pop] + ([Register] + ([Unlock] + [])))), t);
    OldestLeaves(s, f, n);
    FlushedGroups(InMemory(s), InMemory(t), moved, s.stored, now);
  }

  lemma OldestLeaves(s: State, f: State, n: int)
    requires f.current == (if s.frozen == [] then [] else s.current) && f.frozen == (if s.frozen == [] then [s.current] else s.frozen)
    requires n == |f.frozen| - 1 >= 0
    ensures InMemory(s) == f.current + Flat(f.frozen[..n]) + f.frozen[n]
  {
    if s.frozen == [] {
      assert f.frozen[..0] == [] && InMemory(s) == s.current + [];
    } else {
      assert s.frozen == s.frozen[..n] + [s.frozen[n]];
      FlatAppend(s.frozen[..n], [s.frozen[n]]);
      FlatOne(s.frozen[n]);
      assert s.current + (Flat(s.frozen[..n]) + s.frozen[n]) == s.current + Flat(s.frozen[..n]) + s.frozen[n];
    }
  }

  lemma FlushedGroups(before: seq<Rec>, after: seq<Rec>, moved: seq<Rec>, stored: seq<Rec>, now: seq<Rec>)
    requires before == after + moved && SameGroups(now, stored)
    ensures SameGroups(after + (moved + now), before + stored)
  {
    forall k, v
      ensures Group(after + (moved + now), k, v) == Group(before + stored, k, v)
    {
      GroupAppend(after, moved + now, k, v);
      GroupAppend(moved, now, k, v);
      GroupAppend(after + moved, stored, k, v);
      GroupAppend(after, moved, k, v);
    }
  }

  // The other order of the two steps would not do: a flush in between hides what it moved.
  lemma TablesFirstMisses()
    ensures exists s, t, events, r: Rec ::
              && Inv(s) && CanReadTables(s) && Reaches(s, events, t) && CanReadMemory(t) && CanReadTables(t)
              && Has(InMemory(s), r.key, r.ver) && !Has(s.stored, r.key, r.ver) && !Has(InMemory(t), r.key, r.ver)
  {
    var r := Rec([1], [1], 1);
    var s0 := State([], [[r]], [], Idle);
    var s1 := s0.(phase := Locked);
    var s2 := s0.(phase := Built([r]));
    var s3 := State([], [], [], Popped([r]));
    var s4 := State([], [], [r] + [], Registered);
    var s5 := s4.(phase := Idle);
    assert s0.frozen[..0] == [];
    var e4 := [Unlock] + [];
    var e3 := [Register] + e4;
    var e2 := [Pop] + e3;
    var e1 := [Build] + e2;
    OneMore(s4, Unlock, s5, [], s5);
    OneMore(s3, Register, s4, e4, s5);
    OneMore(s2, Pop, s3, e3, s5);
    OneMore(s1, Build, s2, e2, s5);
    OneMore(s0, Lock, s1, e1, s5);
    FlatOne([r]);
    assert InMemory(s0) == [r] && InMemory(s0)[0] == r;
    assert InMemory(s5) == [];
  }
}
