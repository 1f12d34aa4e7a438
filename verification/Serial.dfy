// Serializable transactions: committed ones read and leave what running them one at a
// time, in commit order, would.

module Serials {
  import opened Bytes
  import opened Mvcc
  import opened MemTables
  import opened WalRecords
  import TranFiles
  import opened TranManagers
  import opened Transactions
  import opened WriteAheads
  import opened ReadSafeties

  // ---- Running one at a time ----

  // A plain map from keys to values, without versions.
  type Db = map<Key, ByteString>

  function Value(db: Db, key: Key): ByteString
  {
    if key in db then db[key] else []
  }

  function Play(db: Db, trace: seq<Op>): Db
    decreases |trace|
  {
    if trace == [] then db
    else
      var before := Play(db, trace[..|trace| - 1]);
      match trace[|trace| - 1]
      case Got(_, _) => before
      case Wrote(key, value) => before[key := value]
  }

  // Every read got what is there at its turn.
  predicate Plays(db: Db, trace: seq<Op>)
    decreases |trace|
  {
    trace == [] ||
    (Plays(db, trace[..|trace| - 1]) &&
     (trace[|trace| - 1].Got? ==> Value(Play(db, trace[..|trace| - 1]), trace[|trace| - 1].key) == trace[|trace| - 1].value))
  }

  function PlayAll(db: Db, history: seq<Ctx>): Db
    decreases |history|
  {
    if history == [] then db else Play(PlayAll(db, history[..|history| - 1]), history[|history| - 1].trace)
  }

  predicate PlaysAll(db: Db, history: seq<Ctx>)
    decreases |history|
  {
    history == [] ||
    (PlaysAll(db, history[..|history| - 1]) && Plays(PlayAll(db, history[..|history| - 1]), history[|history| - 1].trace))
  }

  lemma PlayMore(db: Db, trace: seq<Op>, op: Op)
    ensures Play(db, trace + [op]) == if op.Got? then Play(db, trace) else Play(db, trace)[op.key := op.value]
    ensures Plays(db, trace + [op]) <==> Plays(db, trace) && (op.Got? ==> Value(Play(db, trace), op.key) == op.value)
  {
    assert (trace + [op])[..|trace|] == trace;
  }

  lemma PlayAllMore(db: Db, history: seq<Ctx>, c: Ctx)
    ensures PlayAll(db, history + [c]) == Play(PlayAll(db, history), c.trace)
    ensures PlaysAll(db, history + [c]) <==> PlaysAll(db, history) && Plays(PlayAll(db, history), c.trace)
  {
    assert (history + [c])[..|history|] == history;
  }

  // ---- One transaction, whatever it runs on ----

  // The data its remembered reads were true of.
  ghost predicate Agrees(db: Db, cache: map<Key, Option<Rec>>)
  {
    forall k :: k in cache ==> Value(db, k) == ValueOf(cache[k])
  }

  // It leaves its staged writes on top of whatever it runs on, ...
  ghost predicate Leaves(c: Ctx, db: Db)
  {
    forall k :: Value(Play(db, c.trace), k) == if k in c.temp then c.temp[k] else Value(db, k)
  }

  // ... and its reads come out the same exactly on data its remembered reads are true of.
  ghost predicate PlaysOn(c: Ctx, db: Db)
  {
    Leaves(c, db) && (Plays(db, c.trace) <==> Agrees(db, c.cache))
  }

  ghost predicate Tells(c: Ctx)
  {
    && (forall k :: k in c.temp || k in c.cache ==> k != [])
    && (forall db :: PlaysOn(c, db))
  }

  predicate Repeats(level: IsolationLevel)
  {
    level == RepeatableRead || level == Serializable
  }

  lemma StagedTells(c: Ctx, key: Key, value: ByteString)
    requires Tells(c) && key != []
    ensures Tells(Staged(c, key, value))
  {
    var d := Staged(c, key, value);
    forall db
      ensures PlaysOn(d, db)
    {
      assert PlaysOn(c, db);
      PlayMore(db, c.trace, Wrote(key, value));
    }
  }

  lemma GetTells(c: Ctx, key: Key, store: seq<Rec>, m: Mgr)
    requires Tells(c) && key != [] && Repeats(c.level)
    ensures Tells(AfterGet(c, key, store, m))
  {
    var d := AfterGet(c, key, store, m);
    var seen := Seen(c, key, store, m);
    forall db
      ensures PlaysOn(d, db)
    {
      assert PlaysOn(c, db);
      PlayMore(db, c.trace, Got(key, seen));
      if key !in c.temp {
        CacheMore(db, c.cache, key, Fetched(c, key, store, m));
        assert Value(Play(db, c.trace), key) == Value(db, key);
      }
    }
  }

  lemma CacheMore(db: Db, cache: map<Key, Option<Rec>>, key: Key, found: Option<Rec>)
    requires key in cache ==> cache[key] == found
    ensures Agrees(db, cache[key := found]) <==> Agrees(db, cache) && Value(db, key) == ValueOf(found)
  {
    var more := cache[key := found];
    if Agrees(db, more) {
      assert key in more;
      forall k | k in cache
        ensures Value(db, k) == ValueOf(cache[k])
      {
        assert k in more;
      }
    }
  }

  // ---- Writes on top ----

  lemma {:induction false} StackMisses(rs: seq<Rec>, was: seq<Rec>, q: Query)
    requires forall i :: 0 <= i < |rs| ==> rs[i].key != q.key
    ensures Best(Stack(rs, was), q) == Best(was, q)
  {
    if rs != [] {
      StackMisses(rs[1..], [rs[0]] + was, q);
      assert ([rs[0]] + was)[1..] == was;
    }
  }

  lemma {:induction false} StackHits(rs: seq<Rec>, was: seq<Rec>, q: Query, i: nat)
    requires i < |rs| && Eligible(rs[i], q) && forall j :: 0 <= j < |rs| && j != i ==> rs[j].key != q.key
    requires Best(was, q).Some? ==> Best(was, q).value.ver <= rs[i].ver
    ensures Best(Stack(rs, was), q) == Some(rs[i])
  {
    var more := [rs[0]] + was;
    assert more[1..] == was;
    if i == 0 {
      StackMisses(rs[1..], more, q);
    } else {
      StackHits(rs[1..], more, q, i - 1);
    }
  }

  // Ignoring writers that stored nothing changes no read.
  lemma {:induction false} SkipMore(s: seq<Rec>, q: Query, p: Query)
    requires p.key == q.key && p.bound == q.bound && forall i :: 0 <= i < |s| ==> (s[i].ver in p.skip <==> s[i].ver in q.skip)
    ensures Best(s, q) == Best(s, p)
  {
    if s != [] {
      SkipMore(s[1..], q, p);
    }
  }

  // ---- The invariant ----

  // first: the first id given out.  base: the ids rolled back before.
  ghost predicate Only(s: Sys, first: nat, base: set<nat>)
  {
    && first <= s.mgr.nextId
    && (forall id :: id in s.ctxs ==> id >= first && Repeats(s.ctxs[id].level))
    && (forall x :: x < first ==> (x in s.mgr.aborted <==> x in base))
    && (forall x :: x in base ==> x < first)
    && (forall i :: 0 <= i < |s.store| ==> Lasting(s.ctxs, first, s.store[i].ver))
  }

  ghost predicate AllTell(ctxs: map<nat, Ctx>)
  {
    forall id :: id in ctxs && !Over(ctxs[id]) ==> Tells(ctxs[id])
  }

  ghost predicate Holds(db: Db, store: seq<Rec>, skip: set<nat>)
  {
    forall k :: k != [] ==> Value(db, k) == ValueOf(Best(store, Query(k, 0, skip)))
  }

  // The history is the committed transactions, each once.
  ghost predicate Listed(s: Sys)
  {
    && (forall i :: 0 <= i < |s.history| ==> InHistory(s.ctxs, s.history[i]))
    && (forall i, j :: 0 <= i < j < |s.history| ==> s.history[i].id != s.history[j].id)
    && (forall id :: id in s.ctxs && s.ctxs[id].committed ==> s.ctxs[id] in s.history)
  }

  ghost predicate InHistory(ctxs: map<nat, Ctx>, c: Ctx)
  {
    c.id as nat in ctxs && ctxs[c.id as nat] == c && c.committed
  }

  ghost predicate Serial(s: Sys, first: nat, base: set<nat>, db: Db)
  {
    Only(s, first, base) && AllTell(s.ctxs) && Listed(s) && Holds(PlayAll(db, s.history), s.store, base)
  }

  // In such a state every read that skips the rolled-back ones sees the same.
  lemma AnySkip(s: Sys, first: nat, base: set<nat>, key: Key, bound: nat, strict: bool)
    requires Formed(s) && Only(s, first, base)
    ensures Best(s.store, Query(key, bound, SkipSet(s.mgr, strict))) == Best(s.store, Query(key, bound, base))
  {
    forall i | 0 <= i < |s.store|
      ensures s.store[i].ver in SkipSet(s.mgr, strict) <==> s.store[i].ver in base
    {
      var v := s.store[i].ver;
      assert Lasting(s.ctxs, first, v);
      if v in s.ctxs {
        assert FormedCtx(s, v);
      }
    }
    SkipMore(s.store, Query(key, bound, SkipSet(s.mgr, strict)), Query(key, bound, base));
  }

  // ---- A commit that passes validation ----

  // Every key the transaction remembers reading still has the value it read.
  ghost predicate FreshReads(c: Ctx, store: seq<Rec>, m: Mgr)
  {
    forall k :: k in c.cache ==> ValueOf(Latest(store, k, m)) == ValueOf(c.cache[k])
  }

  lemma FreshPlays(s: Sys, c: Ctx, first: nat, base: set<nat>, db: Db)
    requires Formed(s) && Only(s, first, base) && Tells(c) && Holds(db, s.store, base)
    ensures Plays(db, c.trace) <==> FreshReads(c, s.store, s.mgr)
  {
    assert PlaysOn(c, db);
    assert SkipSet(s.mgr, false) == s.mgr.aborted;
    forall k | k in c.cache
      ensures Value(db, k) == ValueOf(Latest(s.store, k, s.mgr))
    {
      AnySkip(s, first, base, k, 0, false);
    }
  }

  // At the serializable level validation makes sure of it.
  lemma ValidatedIsFresh(c: Ctx, store: seq<Rec>, m: Mgr)
    requires c.level == Serializable && !Conflict(c, store, m)
    ensures FreshReads(c, store, m)
  {
    forall k | k in c.cache
      ensures ValueOf(Latest(store, k, m)) == ValueOf(c.cache[k])
    {
      assert Mvcc.Visible(Latest(store, k, m)) == c.cache[k];
    }
  }

  lemma CommitLeaves(s: Sys, c: Ctx, order: seq<Key>, first: nat, base: set<nat>, db: Db)
    requires Formed(s) && Only(s, first, base) && Repeats(c.level) && c.id >= first && OrderOf(order, c.temp)
    requires !Conflict(c, s.store, s.mgr) && Leaves(c, db) && Holds(db, s.store, base) && forall k :: k in c.temp ==> k != []
    ensures Holds(Play(db, c.trace), Stack(CommitWrites(c, order), s.store), base)
  {
    var rs := CommitWrites(c, order);
    forall k | k != []
      ensures Value(Play(db, c.trace), k) == ValueOf(Best(Stack(rs, s.store), Query(k, 0, base)))
    {
      var q := Query(k, 0, base);
      if k in c.temp {
        var i :| 0 <= i < |order| && order[i] == k;
        AnySkip(s, first, base, k, 0, false);
        assert SkipSet(s.mgr, false) == s.mgr.aborted;
        assert rs[i] == Rec(k, c.temp[k], c.id);
        StackHits(rs, s.store, q, i);
      } else {
        StackMisses(rs, s.store, q);
      }
    }
  }

  // ---- Every step keeps it ----

  // A step that commits nothing: one unfinished context changes or gives up.
  lemma OneSerial(s: Sys, d: Ctx, t: Sys, first: nat, base: set<nat>, db: Db)
    requires Formed(s) && Serial(s, first, base, db) && d.id as nat in s.ctxs && !Over(s.ctxs[d.id as nat])
    requires t.store == s.store && t.history == s.history && t.ctxs == s.ctxs[d.id as nat := d] && t.mgr.nextId == s.mgr.nextId
    requires !d.committed && Repeats(d.level) && (d.aborted || Tells(d))
    requires t.mgr.aborted == s.mgr.aborted || t.mgr.aborted == s.mgr.aborted + {d.id}
    ensures Serial(t, first, base, db)
  {
    forall i | 0 <= i < |t.store|
      ensures Lasting(t.ctxs, first, t.store[i].ver)
    {
      assert Lasting(s.ctxs, first, s.store[i].ver);
    }
    forall i | 0 <= i < |t.history|
      ensures InHistory(t.ctxs, t.history[i])
    {
      assert InHistory(s.ctxs, s.history[i]);
    }
  }

  lemma BeginSerial(s: Sys, level: IsolationLevel, first: nat, base: set<nat>, db: Db)
    requires Formed(s) && Serial(s, first, base, db) && s.mgr.nextId <= MAX_ID && Repeats(level)
    ensures Serial(DoBegin(s, level), first, base, db)
  {
    BeginFormed(s, level);
    var t := DoBegin(s, level);
    NewTells(s.mgr.nextId, level);
    forall i | 0 <= i < |t.store|
      ensures Lasting(t.ctxs, first, t.store[i].ver)
    {
      assert Lasting(s.ctxs, first, s.store[i].ver);
    }
    forall i | 0 <= i < |t.history|
      ensures InHistory(t.ctxs, t.history[i])
    {
      assert InHistory(s.ctxs, s.history[i]);
    }
  }

  lemma NewTells(id: u64, level: IsolationLevel)
    ensures Tells(NewCtx(id, level))
  {
  }

  lemma NotedTells(c: Ctx, w: Record)
    requires Tells(c)
    ensures Tells(Noted(c, w))
  {
    forall db
      ensures PlaysOn(Noted(c, w), db)
    {
      assert PlaysOn(c, db);
    }
  }

  lemma WriteSerial(s: Sys, c: Ctx, key: Key, value: ByteString, removal: bool, ok: bool, first: nat, base: set<nat>, db: Db)
    requires Formed(s) && Serial(s, first, base, db) && c.id as nat in s.ctxs && s.ctxs[c.id as nat] == c && !Over(c)
    requires c.written <= |c.ops| && key != []
    ensures var t := DoWrite(s, c, key, value, removal, ok); Serial(t, first, base, db) && t.history == s.history
  {
    var w := WriteRecord(c, key, value, removal);
    if WalRecords.Proper(w) {
      NotedTells(c, w);
      StagedTells(Noted(c, w), key, value);
      OneSerial(s, Staged(Noted(c, w), key, value), DoWrite(s, c, key, value, removal, ok), first, base, db);
    }
  }

  lemma GetSerial(s: Sys, id: nat, key: Key, first: nat, base: set<nat>, db: Db)
    requires Formed(s) && Serial(s, first, base, db) && id in s.ctxs && key != []
    ensures var t := DoGet(s, s.ctxs[id], key); Serial(t, first, base, db) && t.history == s.history
  {
    assert FormedCtx(s, id);
    if !Over(s.ctxs[id]) {
      GetTells(s.ctxs[id], key, s.store, s.mgr);
      OneSerial(s, AfterGet(s.ctxs[id], key, s.store, s.mgr), DoGet(s, s.ctxs[id], key), first, base, db);
    }
  }

  lemma AbortSerial(s: Sys, id: nat, first: nat, base: set<nat>, db: Db)
    requires Formed(s) && Serial(s, first, base, db) && id in s.ctxs
    ensures var t := DoAbort(s, s.ctxs[id]); Serial(t, first, base, db) && t.history == s.history
  {
    assert FormedCtx(s, id);
    var t := DoAbort(s, s.ctxs[id]);
    if t != s {
      OneSerial(s, t.ctxs[id], t, first, base, db);
    }
  }

  lemma CommittedListed(s: Sys, d: Ctx, t: Sys)
    requires Listed(s) && d.id as nat in s.ctxs && !Over(s.ctxs[d.id as nat]) && d.committed
    requires t.ctxs == s.ctxs[d.id as nat := d] && t.history == s.history + [d]
    ensures Listed(t)
  {
    forall i | 0 <= i < |t.history|
      ensures InHistory(t.ctxs, t.history[i]) && (i < |s.history| ==> t.history[i].id != d.id)
    {
      if i < |s.history| {
        assert InHistory(s.ctxs, s.history[i]);
      }
    }
  }

  lemma CommittedOnly(s: Sys, c: Ctx, order: seq<Key>, d: Ctx, t: Sys, first: nat, base: set<nat>)
    requires Formed(s) && Only(s, first, base) && c.id as nat in s.ctxs && s.ctxs[c.id as nat] == c && OrderOf(order, c.temp)
    requires !Over(c) && d.id == c.id && d.level == c.level && d.committed
    requires t.ctxs == s.ctxs[c.id as nat := d] && t.store == Stack(CommitWrites(c, order), s.store)
    requires t.mgr.nextId == s.mgr.nextId && t.mgr.aborted == s.mgr.aborted
    ensures Only(t, first, base)
  {
    forall i | 0 <= i < |t.store|
      ensures Lasting(t.ctxs, first, t.store[i].ver)
    {
      var r := t.store[i];
      StackHas(CommitWrites(c, order), s.store, r);
      if r in CommitWrites(c, order) {
        WritesOwn(c, order, r);
      } else {
        var j :| 0 <= j < |s.store| && s.store[j] == r;
        assert Lasting(s.ctxs, first, s.store[j].ver);
      }
    }
  }

  lemma WritesOwn(c: Ctx, order: seq<Key>, r: Rec)
    requires OrderOf(order, c.temp) && r in CommitWrites(c, order)
    ensures r.ver == c.id
  {
    var i :| 0 <= i < |CommitWrites(c, order)| && CommitWrites(c, order)[i] == r;
  }

  lemma ValidatedSerial(s: Sys, c: Ctx, order: seq<Key>, d: Ctx, t: Sys, first: nat, base: set<nat>, db: Db)
    requires Formed(s) && Serial(s, first, base, db) && c.id as nat in s.ctxs && s.ctxs[c.id as nat] == c && !Over(c)
    requires OrderOf(order, c.temp) && !Conflict(c, s.store, s.mgr)
    requires d.id == c.id && d.level == c.level && d.committed && d.trace == c.trace
    requires t.ctxs == s.ctxs[c.id as nat := d] && t.store == Stack(CommitWrites(c, order), s.store) && t.history == s.history + [d]
    requires t.mgr.nextId == s.mgr.nextId && t.mgr.aborted == s.mgr.aborted
    ensures Serial(t, first, base, db)
    ensures PlaysAll(db, t.history) <==> PlaysAll(db, s.history) && FreshReads(c, s.store, s.mgr)
  {
    var now := PlayAll(db, s.history);
    assert Tells(c) && PlaysOn(c, now);
    FreshPlays(s, c, first, base, now);
    CommitLeaves(s, c, order, first, base, now);
    PlayAllMore(db, s.history, d);
    CommittedListed(s, d, t);
    CommittedOnly(s, c, order, d, t, first, base);
  }

  // The commit goes through.
  ghost predicate Commits(s: Sys, c: Ctx, ok: bool)
  {
    !Over(c) && !HasEnding(c.ops) && !Conflict(c, s.store, s.mgr) && ok
  }

  lemma CommitSerial(s: Sys, c: Ctx, order: seq<Key>, ok: bool, first: nat, base: set<nat>, db: Db)
    requires Formed(s) && Serial(s, first, base, db) && c.id as nat in s.ctxs && s.ctxs[c.id as nat] == c && !Over(c)
    requires c.written <= |c.ops| && OrderOf(order, c.temp)
    ensures var t := DoCommit(s, c, order, ok);
            && Serial(t, first, base, db)
            && (PlaysAll(db, t.history) <==> PlaysAll(db, s.history) && (Commits(s, c, ok) ==> FreshReads(c, s.store, s.mgr)))
  {
    if Commits(s, c, ok) {
      var t := DoCommit(s, c, order, ok);
      ValidatedSerial(s, c, order, t.ctxs[c.id as nat], t, first, base, db);
    } else if !HasEnding(c.ops) {
      NoCommitSerial(s, c, order, ok, first, base, db);
    }
  }

  lemma NoCommitSerial(s: Sys, c: Ctx, order: seq<Key>, ok: bool, first: nat, base: set<nat>, db: Db)
    requires Formed(s) && Serial(s, first, base, db) && c.id as nat in s.ctxs && s.ctxs[c.id as nat] == c && !Over(c)
    requires c.written <= |c.ops| && OrderOf(order, c.temp) && !HasEnding(c.ops) && !Commits(s, c, ok)
    ensures var t := DoCommit(s, c, order, ok); Serial(t, first, base, db) && t.history == s.history
  {
    var t := DoCommit(s, c, order, ok);
    assert Tells(c);
    NotedTells(c, Record.Commit(c.id));
    OneSerial(s, t.ctxs[c.id as nat], t, first, base, db);
  }

  lemma RearrangeSerial(s: Sys, now: seq<Rec>, first: nat, base: set<nat>, db: Db)
    requires Serial(s, first, base, db) && SameGroups(now, s.store)
    ensures Serial(s.(store := now), first, base, db)
  {
    forall i | 0 <= i < |now|
      ensures Lasting(s.ctxs, first, now[i].ver)
    {
      SameGroupsHas(now, s.store, now[i]);
      var j :| 0 <= j < |s.store| && s.store[j] == now[i];
      assert Lasting(s.ctxs, first, s.store[j].ver);
    }
    forall k | k != []
      ensures Value(PlayAll(db, s.history), k) == ValueOf(Best(now, Query(k, 0, base)))
    {
      SameGroupsSameBest(now, s.store, Query(k, 0, base));
    }
  }

  // A commit that goes through has fresh reads.
  ghost predicate StepFresh(s: Sys, e: Transactions.Event)
    requires Possible(s, e)
  {
    e.Commit? && Commits(s, s.ctxs[e.id], e.ok) ==> FreshReads(s.ctxs[e.id], s.store, s.mgr)
  }

  lemma NextSerial(s: Sys, e: Transactions.Event, first: nat, base: set<nat>, db: Db)
    requires Formed(s) && Possible(s, e) && Serial(s, first, base, db) && (e.Begin? ==> Repeats(e.level))
    ensures var t := Next(s, e);
            Serial(t, first, base, db) && (PlaysAll(db, t.history) <==> PlaysAll(db, s.history) && StepFresh(s, e))
  {
    match e
    case Begin(level) => BeginSerial(s, level, first, base, db);
    case Write(id, key, value, removal, ok) =>
      assert FormedCtx(s, id);
      if !Over(s.ctxs[id]) {
        WriteSerial(s, s.ctxs[id], key, value, removal, ok, first, base, db);
      }
    case Get(id, key) => GetSerial(s, id, key, first, base, db);
    case Commit(id, order, ok) =>
      assert FormedCtx(s, id);
      if !Over(s.ctxs[id]) {
        CommitSerial(s, s.ctxs[id], order, ok, first, base, db);
      }
    case Abort(id) => AbortSerial(s, id, first, base, db);
    case Notify(id) =>
    case Rearrange(now) => RearrangeSerial(s, now, first, base, db);
  }

  // ---- Every run ----

  // The data storage holds before the run, as a plain map.
  function DbOf(s: Sys): Db
  {
    map k | k in KeysOf(s.store) :: ValueOf(Best(s.store, Query(k, 0, s.mgr.aborted)))
  }

  function KeysOf(store: seq<Rec>): set<Key>
  {
    set r | r in store :: r.key
  }

  lemma DbOfHolds(s: Sys)
    ensures Holds(DbOf(s), s.store, s.mgr.aborted)
  {
    forall k | k != []
      ensures Value(DbOf(s), k) == ValueOf(Best(s.store, Query(k, 0, s.mgr.aborted)))
    {
      if k !in DbOf(s) {
        forall i | 0 <= i < |s.store|
          ensures s.store[i].key != k
        {
          assert s.store[i] in s.store;
        }
        BestOtherKeys(s.store, Query(k, 0, s.mgr.aborted));
      }
    }
  }

  ghost predicate AllRepeat(es: seq<Transactions.Event>)
  {
    forall i :: 0 <= i < |es| && es[i].Begin? ==> Repeats(es[i].level)
  }

  ghost predicate AllSerializable(es: seq<Transactions.Event>)
  {
    forall i :: 0 <= i < |es| && es[i].Begin? ==> es[i].level == Serializable
  }

  ghost predicate RunFresh(s: Sys, es: seq<Transactions.Event>)
    requires Initial(s) && Runs(s, es)
    decreases |es|
  {
    es == [] || (RunFresh(s, es[..|es| - 1]) && StepFresh(Transactions.After(s, es[..|es| - 1]), es[|es| - 1]))
  }

  lemma {:induction false} RunSerial(s: Sys, es: seq<Transactions.Event>)
    requires Initial(s) && Runs(s, es) && AllRepeat(es)
    ensures var t := Transactions.After(s, es);
            && Serial(t, s.mgr.nextId, s.mgr.aborted, DbOf(s)) && (PlaysAll(DbOf(s), t.history) <==> RunFresh(s, es))
    decreases |es|
  {
    if es == [] {
      DbOfHolds(s);
    } else {
      var front := es[..|es| - 1];
      RunSerial(s, front);
      NextSerial(Transactions.After(s, front), es[|es| - 1], s.mgr.nextId, s.mgr.aborted, DbOf(s));
    }
  }

  lemma NextAllSerializable(s: Sys, e: Transactions.Event)
    requires Formed(s) && Possible(s, e) && (e.Begin? ==> e.level == Serializable)
    requires forall id :: id in s.ctxs ==> s.ctxs[id].level == Serializable
    ensures forall id :: id in Next(s, e).ctxs ==> Next(s, e).ctxs[id].level == Serializable
    ensures StepFresh(s, e)
  {
    NextGrown(s, e);
    if e.Commit? && Commits(s, s.ctxs[e.id], e.ok) {
      ValidatedIsFresh(s.ctxs[e.id], s.store, s.mgr);
    }
  }

  lemma {:induction false} SerializableIsFresh(s: Sys, es: seq<Transactions.Event>)
    requires Initial(s) && Runs(s, es) && AllSerializable(es)
    ensures forall id :: id in Transactions.After(s, es).ctxs ==> Transactions.After(s, es).ctxs[id].level == Serializable
    ensures RunFresh(s, es)
    decreases |es|
  {
    if es != [] {
      var front := es[..|es| - 1];
      SerializableIsFresh(s, front);
      NextAllSerializable(Transactions.After(s, front), es[|es| - 1]);
    }
  }

  // In every run of serializable transactions, running the committed ones one at a time
  // in commit order gives every read the answer it got.
  lemma Serializability(s: Sys, es: seq<Transactions.Event>)
    requires Initial(s) && Runs(s, es) && AllSerializable(es)
    ensures PlaysAll(DbOf(s), Transactions.After(s, es).history)
  {
    RunSerial(s, es);
    SerializableIsFresh(s, es);
  }

  // Below that, from repeatable read on, exactly when every commit that went through
  // found the keys it had read unchanged.
  lemma RepeatableIsSerialWhenFresh(s: Sys, es: seq<Transactions.Event>)
    requires Initial(s) && Runs(s, es) && AllRepeat(es)
    ensures PlaysAll(DbOf(s), Transactions.After(s, es).history) <==> RunFresh(s, es)
  {
    RunSerial(s, es);
  }

  // The history lists exactly the committed transactions, each once.
  lemma HistoryIsCommitted(s: Sys, es: seq<Transactions.Event>)
    requires Initial(s) && Runs(s, es) && AllRepeat(es)
    ensures var t := Transactions.After(s, es);
            && (forall c :: c in t.history <==> c.committed && c.id as nat in t.ctxs && t.ctxs[c.id as nat] == c)
            && (forall i, j :: 0 <= i < j < |t.history| ==> t.history[i].id != t.history[j].id)
  {
    RunSerial(s, es);
    var t := Transactions.After(s, es);
    forall c
      ensures c in t.history <==> c.committed && c.id as nat in t.ctxs && t.ctxs[c.id as nat] == c
    {
      if c in t.history {
        var i :| 0 <= i < |t.history| && t.history[i] == c;
        assert InHistory(t.ctxs, t.history[i]);
      }
    }
  }

  // What the committed ones leave, one at a time, is what any read of storage finds.
  lemma SerialResult(s: Sys, es: seq<Transactions.Event>, all: seq<Rec>, key: Key, strict: bool)
    requires Initial(s) && Runs(s, es) && AllRepeat(es) && SameReads(all, Transactions.After(s, es).store) && key != []
    ensures var t := Transactions.After(s, es);
            ValueOf(Read(all, t.mgr, key, 0, strict)) == Value(PlayAll(DbOf(s), t.history), key)
  {
    RunSerial(s, es);
    var t := Transactions.After(s, es);
    AnySkip(t, s.mgr.nextId, s.mgr.aborted, key, 0, strict);
  }

  // Aborted and unfinished ones leave nothing at all in storage.
  lemma AbortedLeaveNothing(s: Sys, es: seq<Transactions.Event>, r: Rec)
    requires Initial(s) && Runs(s, es) && AllRepeat(es) && r in Transactions.After(s, es).store && r.ver >= s.mgr.nextId
    ensures var t := Transactions.After(s, es); r.ver in t.ctxs && t.ctxs[r.ver].committed
  {
    RunSerial(s, es);
    var t := Transactions.After(s, es);
    var i :| 0 <= i < |t.store| && t.store[i] == r;
    assert Lasting(t.ctxs, s.mgr.nextId, t.store[i].ver);
  }
}
