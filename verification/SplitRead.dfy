// Gets split at their locks, a memory step and a table step, among the steps of all other
// transactions and of the flusher.

module SplitReads {
  import opened Bytes
  import opened Mvcc
  import opened MemTables
  import opened TranManagers
  import opened Transactions
  import opened WriteAheads
  import opened ReadSafeties
  import SkipLists
  import F = FlushRaces

  // A get that has been to memory: its key, and what memory answered.
  datatype Asked = Asked(key: Key, found: Option<Rec>)

  // The system, where its records are, and the gets under way, by transaction.
  datatype Split = Split(sys: Sys, shelf: F.State, asked: map<nat, Asked>)

  datatype Event =
    | Whole(e: Transactions.Event)
    | Flusher(f: F.Event, shelf: F.State)
    | AskMemory(id: nat, key: Key)
    | AskTables(id: nat)

  function Asks(c: Ctx, key: Key, m: Mgr): Query
  {
    Query(key, if c.level == ReadUncommitted || c.level == ReadCommitted then 0 else c.id, SkipSet(m, c.level != ReadUncommitted))
  }

  // The context has nothing of its own for the key.
  predicate NeedsStorage(c: Ctx, key: Key)
  {
    !Over(c) && key !in c.temp && (c.level == RepeatableRead || c.level == Serializable ==> key !in c.cache)
  }

  // The transaction whose call a step is.
  function Caller(e: Transactions.Event): Option<nat>
  {
    match e
    case Write(id, _, _, _, _) => Some(id)
    case Get(id, _) => Some(id)
    case Commit(id, _, _) => Some(id)
    case Abort(id) => Some(id)
    case _ => None
  }

  // A context that waits for a get makes no other call.
  predicate Waits(asked: map<nat, Asked>, e: Transactions.Event)
  {
    Caller(e).Some? && Caller(e).value in asked
  }

  ghost predicate Possible(s: Split, e: Event)
  {
    match e
    case Whole(e) =>
      && Transactions.Possible(s.sys, e) && !Waits(s.asked, e) && !e.Rearrange?
      && (e.Get? ==> !NeedsStorage(s.sys.ctxs[e.id], e.key))
    case Flusher(f, shelf) => !f.Write? && F.Step(s.shelf, f, shelf)
    case AskMemory(id, key) =>
      id in s.sys.ctxs && id !in s.asked && key != [] && NeedsStorage(s.sys.ctxs[id], key) && F.CanReadMemory(s.shelf)
    case AskTables(id) => id in s.asked && F.CanReadTables(s.shelf)
  }

  // The records a step puts into storage, in order.
  function Written(s: Sys, e: Transactions.Event): seq<Rec>
    requires Transactions.Possible(s, e)
  {
    match e
    case Write(id, key, value, removal, ok) =>
      var c := s.ctxs[id];
      if c.level == ReadUncommitted && !Over(c) && ok && WalRecords.Proper(WriteRecord(c, key, value, removal)) then [Rec(key, value, c.id)] else []
    case Commit(id, order, ok) =>
      var c := s.ctxs[id];
      if !Over(c) && !HasEnding(c.ops) && !Conflict(c, s.store, s.mgr) && ok then CommitWrites(c, order) else []
    case _ => []
  }

  function Upserts(s: seq<Rec>, rs: seq<Rec>): seq<Rec>
    decreases |rs|
  {
    if rs == [] then s else SkipLists.Upsert(Upserts(s, rs[..|rs| - 1]), rs[|rs| - 1])
  }

  // Memory's candidate, unless the tables have a larger version.
  function Answer(s: Split, id: nat): Option<Rec>
    requires id in s.asked && id in s.sys.ctxs
  {
    var a := s.asked[id];
    Mvcc.Visible(Pick(a.found, Best(s.shelf.stored, Asks(s.sys.ctxs[id], a.key, s.sys.mgr))))
  }

  function Answered(c: Ctx, key: Key, found: Option<Rec>): Ctx
  {
    var d := c.(trace := c.trace + [Got(key, ValueOf(found))]);
    if c.level == ReadUncommitted || c.level == ReadCommitted then d else d.(cache := c.cache[key := found])
  }

  ghost predicate Waiting(s: Split, id: nat)
    requires id in s.asked
  {
    id in s.sys.ctxs && s.asked[id].key != [] && NeedsStorage(s.sys.ctxs[id], s.asked[id].key)
  }

  ghost predicate Good(s: Split)
  {
    Formed(s.sys) && F.Inv(s.shelf) && Strict(s.shelf.current) && forall id :: id in s.asked ==> Waiting(s, id)
  }

  function Next(s: Split, e: Event): Split
    requires Good(s) && Possible(s, e)
  {
    match e
    case Whole(e) =>
      s.(sys := Transactions.Next(s.sys, e), shelf := s.shelf.(current := Upserts(s.shelf.current, Written(s.sys, e))))
    case Flusher(f, shelf) => s.(shelf := shelf)
    case AskMemory(id, key) =>
      s.(asked := s.asked[id := Asked(key, Best(F.InMemory(s.shelf), Asks(s.sys.ctxs[id], key, s.sys.mgr)))])
    case AskTables(id) =>
      assert Waiting(s, id);
      s.(sys := With(s.sys, Answered(s.sys.ctxs[id], s.asked[id].key, Answer(s, id))), asked := s.asked - {id})
  }

  // ---- Good is kept ----

  // Only the caller's context changes.
  lemma OthersStay(s: Sys, e: Transactions.Event, id: nat)
    requires Formed(s) && Transactions.Possible(s, e) && id in s.ctxs && Caller(e) != Some(id)
    ensures id in Transactions.Next(s, e).ctxs && Transactions.Next(s, e).ctxs[id] == s.ctxs[id]
  {
    if e.Begin? {
      BeginFormed(s, e.level);
    }
    if Caller(e).Some? {
      assert FormedCtx(s, Caller(e).value);
    }
  }

  lemma {:induction false} UpsertsStrict(s: seq<Rec>, rs: seq<Rec>)
    requires Strict(s)
    ensures Strict(Upserts(s, rs))
    decreases |rs|
  {
    if rs != [] {
      UpsertsStrict(s, rs[..|rs| - 1]);
      SkipLists.UpsertStrict(Upserts(s, rs[..|rs| - 1]), rs[|rs| - 1]);
    }
  }

  lemma FlusherGood(s: F.State, f: F.Event, t: F.State)
    requires F.Inv(s) && F.Step(s, f, t) && !f.Write? && Strict(s.current)
    ensures F.Inv(t) && Strict(t.current)
  {
    F.StepKeeps(s, f, t, [], 0);
  }

  // A get ends: the context is unfinished as before.
  lemma AnsweredFormed(s: Sys, id: nat, key: Key, found: Option<Rec>)
    requires Formed(s) && id in s.ctxs && !Over(s.ctxs[id])
    ensures s.ctxs[id].id == id && Formed(With(s, Answered(s.ctxs[id], key, found)))
  {
    assert FormedCtx(s, id);
    var d := Answered(s.ctxs[id], key, found);
    assert FormedCtx(With(s, d), id);
    OneCtx(s, d, With(s, d));
  }

  lemma NextGood(s: Split, e: Event)
    requires Good(s) && Possible(s, e)
    ensures Good(Next(s, e))
  {
    match e
    case Whole(e) => WholeGood(s, e);
    case Flusher(f, shelf) =>
      FlusherGood(s.shelf, f, shelf);
      assert forall id :: id in s.asked ==> Waiting(s, id);
    case AskMemory(id, key) =>
      forall x | x in s.asked
        ensures Waiting(Next(s, AskMemory(id, key)), x)
      {
        assert Waiting(s, x);
      }
    case AskTables(id) => TablesGood(s, id);
  }

  lemma WholeGood(s: Split, e: Transactions.Event)
    requires Good(s) && Possible(s, Whole(e))
    ensures Good(Next(s, Whole(e)))
  {
    NextFormed(s.sys, e);
    UpsertsStrict(s.shelf.current, Written(s.sys, e));
    forall id | id in s.asked
      ensures Waiting(Next(s, Whole(e)), id)
    {
      assert Waiting(s, id);
      OthersStay(s.sys, e, id);
    }
  }

  lemma TablesGood(s: Split, id: nat)
    requires Good(s) && Possible(s, AskTables(id))
    ensures Good(Next(s, AskTables(id)))
  {
    assert Waiting(s, id);
    AnsweredFormed(s.sys, id, s.asked[id].key, Answer(s, id));
    var t := Next(s, AskTables(id));
    forall x | x in t.asked
      ensures Waiting(t, x)
    {
      assert Waiting(s, x);
    }
  }

  // ---- Runs ----

  // Nothing runs yet; every record is from before.
  ghost predicate Start(s: Split)
  {
    && Initial(s.sys) && F.Inv(s.shelf) && Strict(s.shelf.current) && s.asked == map[]
    && SameReads(All(s.shelf), s.sys.store) && forall i :: 0 <= i < |All(s.shelf)| ==> All(s.shelf)[i].ver < s.sys.mgr.nextId
  }

  // Newest first: what memory has, what is on its way to the tables, and the tables.
  function All(shelf: F.State): seq<Rec>
  {
    F.InMemory(shelf) + F.Settled(shelf)
  }

  ghost predicate Runs(s: Split, es: seq<Event>)
    requires Start(s)
    decreases |es|, 0
  {
    es == [] || (Runs(s, es[..|es| - 1]) && Possible(After(s, es[..|es| - 1]), es[|es| - 1]))
  }

  ghost function After(s: Split, es: seq<Event>): (t: Split)
    requires Start(s) && Runs(s, es)
    ensures Good(t)
    decreases |es|, 1
  {
    if es == [] then s
    else
      var mid := After(s, es[..|es| - 1]);
      NextGood(mid, es[|es| - 1]);
      Next(mid, es[|es| - 1])
  }

  // ---- Where the records are ----

  // Phases of the flusher move records and keep every group.
  lemma FlusherGroups(s: F.State, f: F.Event, t: F.State)
    requires F.Inv(s) && F.Step(s, f, t) && !f.Write?
    ensures SameGroups(All(t), All(s))
  {
    match f
    case Freeze => FreezeMoves(s);
    case Lock =>
    case Compact(now) =>
      assert [] + s.stored == s.stored && [] + now == now;
      F.FlushedGroups(F.InMemory(s), F.InMemory(s), [], s.stored, now);
    case Build => FreezeMoves(s);
    case FailBuild =>
    case Pop => PopMoves(s);
    case Register => assert [] + (s.phase.table + s.stored) == s.phase.table + s.stored;
    case Unlock =>
  }

  lemma FreezeMoves(s: F.State)
    ensures F.InMemory(F.Frozen(s)) == F.InMemory(s)
  {
    assert ([s.current] + s.frozen)[1..] == s.frozen;
    assert [] + Flat([s.current] + s.frozen) == s.current + Flat(s.frozen);
  }

  lemma PopMoves(s: F.State)
    requires F.Inv(s) && s.phase.Built?
    ensures var n := |s.frozen| - 1;
            F.InMemory(s) + ([] + s.stored) == s.current + Flat(s.frozen[..n]) + (s.phase.table + s.stored)
  {
    var n := |s.frozen| - 1;
    assert s.frozen == s.frozen[..n] + [s.frozen[n]];
    FlatAppend(s.frozen[..n], [s.frozen[n]]);
    FlatOne(s.frozen[n]);
  }

  // What a step writes goes on top.
  lemma StoreWritten(s: Sys, e: Transactions.Event)
    requires Formed(s) && Transactions.Possible(s, e) && !e.Rearrange?
    ensures Transactions.Next(s, e).store == Stack(Written(s, e), s.store)
  {
    if Caller(e).Some? {
      assert FormedCtx(s, Caller(e).value);
    }
    if e.Write? {
      var r := Rec(e.key, e.value, s.ctxs[e.id].id);
      assert [r][1..] == [];
    }
  }

  lemma {:induction false} UpsertsAdd(s: seq<Rec>, rest: seq<Rec>, rs: seq<Rec>)
    requires Strict(s)
    ensures Adds(Upserts(s, rs) + rest, s + rest, rs)
    decreases |rs|
  {
    if rs != [] {
      var front, last := rs[..|rs| - 1], rs[|rs| - 1];
      UpsertsAdd(s, rest, front);
      UpsertsStrict(s, front);
      UpsertAdds(Upserts(s, front), rest, last);
      AddsOneMore(Upserts(s, rs) + rest, Upserts(s, front) + rest, s + rest, front, last);
      assert front + [last] == rs;
    }
  }

  lemma {:induction false} UpsertsHave(s: seq<Rec>, rs: seq<Rec>, r: Rec)
    requires r in Upserts(s, rs)
    ensures r in s || r in rs
    decreases |rs|
  {
    if rs != [] {
      var front := rs[..|rs| - 1];
      UpsertHas(Upserts(s, front), rs[|rs| - 1], r);
      if r in Upserts(s, front) {
        UpsertsHave(s, front, r);
      }
    }
  }

  lemma {:induction false} UpsertHas(s: seq<Rec>, x: Rec, r: Rec)
    requires r in SkipLists.Upsert(s, x)
    ensures r in s || r == x
  {
    if s != [] && !(s[0].key == x.key && s[0].ver == x.ver) && RecLess(s[0], x) && r != s[0] {
      UpsertHas(s[1..], x, r);
    }
  }

  // ---- Strict gets give committed records, though their steps are apart ----

  ghost predicate AllOurs(rs: seq<Rec>, ctxs: map<nat, Ctx>, first: nat)
  {
    forall i :: 0 <= i < |rs| ==> rs[i].ver >= first ==> rs[i].ver in ctxs
  }

  ghost predicate AskedLast(s: Split, first: nat)
  {
    forall id :: id in s.asked && id in s.sys.ctxs && s.sys.ctxs[id].level != ReadUncommitted && s.asked[id].found.Some? ==>
                   Lasting(s.sys.ctxs, first, s.asked[id].found.value.ver)
  }

  ghost predicate Safe(s: Split, first: nat)
  {
    AllOurs(All(s.shelf), s.sys.ctxs, first) && AskedLast(s, first) && CachesLast(s.sys.ctxs, first)
  }

  // At the moment it is looked at.
  lemma StrictFinds(s: Sys, rs: seq<Rec>, c: Ctx, key: Key, first: nat)
    requires Formed(s) && AllOurs(rs, s.ctxs, first) && c.level != ReadUncommitted
    ensures var r := Best(rs, Asks(c, key, s.mgr)); r.Some? ==> Lasting(s.ctxs, first, r.value.ver)
  {
    var r := Best(rs, Asks(c, key, s.mgr));
    BestIsEligible(rs, Asks(c, key, s.mgr));
    if r.Some? && r.value.ver >= first {
      var i :| 0 <= i < |rs| && rs[i] == r.value;
      assert FormedCtx(s, r.value.ver);
    }
  }

  lemma LastsOn(ctxs: map<nat, Ctx>, now: map<nat, Ctx>, first: nat, ver: nat)
    requires AllGrown(ctxs, now) && Lasting(ctxs, first, ver)
    ensures Lasting(now, first, ver)
  {
    assert ver in ctxs ==> Grown(ctxs[ver], now[ver]);
  }

  lemma OursMore(rs: seq<Rec>, now: seq<Rec>, ctxs: map<nat, Ctx>, more: map<nat, Ctx>, first: nat)
    requires AllOurs(rs, ctxs, first) && AllGrown(ctxs, more)
    requires forall r :: r in now ==> r in rs || r.ver in more
    ensures AllOurs(now, more, first)
  {
    forall i | 0 <= i < |now| && now[i].ver >= first
      ensures now[i].ver in more
    {
      assert now[i] in now;
      if now[i] in rs {
        var j :| 0 <= j < |rs| && rs[j] == now[i];
      }
    }
  }

  lemma AskedMore(s: Split, t: Split, first: nat)
    requires Good(s) && AskedLast(s, first) && AllGrown(s.sys.ctxs, t.sys.ctxs)
    requires forall id :: id in t.asked ==> id in s.asked && t.asked[id] == s.asked[id]
    ensures AskedLast(t, first)
  {
    forall id | id in t.asked && id in t.sys.ctxs && t.sys.ctxs[id].level != ReadUncommitted && t.asked[id].found.Some?
      ensures Lasting(t.sys.ctxs, first, t.asked[id].found.value.ver)
    {
      assert Waiting(s, id) && Grown(s.sys.ctxs[id], t.sys.ctxs[id]);
      LastsOn(s.sys.ctxs, t.sys.ctxs, first, s.asked[id].found.value.ver);
    }
  }

  // A get that needs no storage remembers nothing new.
  lemma WholeCaches(s: Split, e: Transactions.Event)
    requires Good(s) && Possible(s, Whole(e))
    ensures AllGrown(s.sys.ctxs, Transactions.Next(s.sys, e).ctxs) && SameCaches(s.sys.ctxs, Transactions.Next(s.sys, e).ctxs)
  {
    NextGrown(s.sys, e);
    if e.Get? {
      assert FormedCtx(s.sys, e.id);
    }
  }

  lemma WrittenOurs(s: Sys, e: Transactions.Event, r: Rec)
    requires Formed(s) && Transactions.Possible(s, e) && r in Written(s, e)
    ensures Caller(e).Some? && r.ver == Caller(e).value && r.ver in s.ctxs
  {
    assert FormedCtx(s, Caller(e).value);
    var i :| 0 <= i < |Written(s, e)| && Written(s, e)[i] == r;
  }

  lemma WholeSafe(s: Split, e: Transactions.Event, first: nat)
    requires Good(s) && Safe(s, first) && Possible(s, Whole(e))
    ensures Safe(Next(s, Whole(e)), first)
  {
    var t := Next(s, Whole(e));
    WholeCaches(s, e);
    CachesMore(s.sys.ctxs, t.sys.ctxs, first);
    AskedMore(s, t, first);
    forall r | r in All(t.shelf)
      ensures r in All(s.shelf) || r.ver in t.sys.ctxs
    {
      if r in t.shelf.current {
        UpsertsHave(s.shelf.current, Written(s.sys, e), r);
        if r in Written(s.sys, e) {
          WrittenOurs(s.sys, e, r);
        }
      }
    }
    OursMore(All(s.shelf), All(t.shelf), s.sys.ctxs, t.sys.ctxs, first);
  }

  lemma FlusherSafe(s: Split, f: F.Event, shelf: F.State, first: nat)
    requires Good(s) && Safe(s, first) && Possible(s, Flusher(f, shelf))
    ensures Safe(s.(shelf := shelf), first)
  {
    FlusherGroups(s.shelf, f, shelf);
    forall r | r in All(shelf)
      ensures r in All(s.shelf)
    {
      SameGroupsHas(All(shelf), All(s.shelf), r);
    }
    OursMore(All(s.shelf), All(shelf), s.sys.ctxs, s.sys.ctxs, first);
  }

  lemma MemorySafe(s: Split, id: nat, key: Key, first: nat)
    requires Good(s) && Safe(s, first) && Possible(s, AskMemory(id, key))
    ensures Safe(Next(s, AskMemory(id, key)), first)
  {
    var c := s.sys.ctxs[id];
    if c.level != ReadUncommitted {
      assert forall i :: 0 <= i < |F.InMemory(s.shelf)| ==> All(s.shelf)[i] == F.InMemory(s.shelf)[i];
      StrictFinds(s.sys, F.InMemory(s.shelf), c, key, first);
    }
  }

  // The answer of a strict get.
  lemma AnswerLasts(s: Split, id: nat, first: nat)
    requires Good(s) && Safe(s, first) && Possible(s, AskTables(id)) && id in s.sys.ctxs && s.sys.ctxs[id].level != ReadUncommitted
    ensures Answer(s, id).Some? ==> Lasting(s.sys.ctxs, first, Answer(s, id).value.ver)
  {
    var n := |All(s.shelf)| - |s.shelf.stored|;
    assert forall i :: 0 <= i < |s.shelf.stored| ==> All(s.shelf)[n + i] == s.shelf.stored[i];
    StrictFinds(s.sys, s.shelf.stored, s.sys.ctxs[id], s.asked[id].key, first);
  }

  lemma TablesSafe(s: Split, id: nat, first: nat)
    requires Good(s) && Safe(s, first) && Possible(s, AskTables(id))
    ensures Safe(Next(s, AskTables(id)), first)
  {
    assert Waiting(s, id) && FormedCtx(s.sys, id);
    var t := Next(s, AskTables(id));
    var c := s.sys.ctxs[id];
    var d := Answered(c, s.asked[id].key, Answer(s, id));
    OneGrown(s.sys.ctxs, d);
    OursMore(All(s.shelf), All(s.shelf), s.sys.ctxs, t.sys.ctxs, first);
    AskedMore(s, t, first);
    if c.level != ReadUncommitted {
      AnswerLasts(s, id, first);
    }
    forall x | x in t.sys.ctxs
      ensures CacheLasts(t.sys.ctxs, first, t.sys.ctxs[x])
    {
      assert CacheLasts(s.sys.ctxs, first, s.sys.ctxs[x]);
      LastsMore(s.sys.ctxs, t.sys.ctxs, first, s.sys.ctxs[x]);
    }
  }

  lemma {:induction false} RunSafe(s: Split, es: seq<Event>)
    requires Start(s) && Runs(s, es)
    ensures Safe(After(s, es), s.sys.mgr.nextId)
    decreases |es|
  {
    if es != [] {
      var front := es[..|es| - 1];
      RunSafe(s, front);
      var mid := After(s, front);
      match es[|es| - 1]
      case Whole(e) => WholeSafe(mid, e, s.sys.mgr.nextId);
      case Flusher(f, shelf) => FlusherSafe(mid, f, shelf, s.sys.mgr.nextId);
      case AskMemory(id, key) => MemorySafe(mid, id, key, s.sys.mgr.nextId);
      case AskTables(id) => TablesSafe(mid, id, s.sys.mgr.nextId);
    }
  }

  // In every run, whatever happens between the two steps of a get: above read-uncommitted
  // it answers with what a committed transaction left.
  lemma SplitGetIsCommitted(s: Split, es: seq<Event>, id: nat)
    requires Start(s) && Runs(s, es) && Possible(After(s, es), AskTables(id))
    requires id in After(s, es).sys.ctxs && After(s, es).sys.ctxs[id].level != ReadUncommitted
    ensures var t := After(s, es); Answer(t, id).Some? ==> Lasting(t.sys.ctxs, s.sys.mgr.nextId, Answer(t, id).value.ver)
  {
    RunSafe(s, es);
    AnswerLasts(After(s, es), id, s.sys.mgr.nextId);
  }
}
