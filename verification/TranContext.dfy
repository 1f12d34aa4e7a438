// A transaction's context over the engine, the log and the manager.

module TranContexts {
  import opened Bytes
  import opened Mvcc
  import opened WalRecords
  import opened WalLogs
  import opened TranManagers
  import opened MemTables
  import opened Engines
  import opened Transactions
  import TranFiles

  // The notifications flushes sent, in order.
  function NotifiedAll(m: Mgr, ids: seq<nat>): (t: Mgr)
    requires m.flushed != []
    ensures t.flushed != []
    decreases |ids|
  {
    if ids == [] then m else Notified(NotifiedAll(m, ids[..|ids| - 1]), ids[|ids| - 1])
  }

  // What a context sees: itself, storage, the log and whether it failed, the manager.
  datatype Shared = Shared(ctx: Ctx, store: seq<Rec>, logged: seq<Record>, failed: bool, mgr: Mgr)

  // The log is what was confirmed before it failed.
  ghost predicate LogIs(log: seq<Record>, logged: seq<Record>, failed: bool)
  {
    if failed then log <= logged else log == logged
  }

  // The same as the machine of steps sees it, with this one context.
  function SysOf(v: Shared, log: seq<Record>): Sys
  {
    Sys(v.store, log, v.failed, v.mgr, map[v.ctx.id as nat := v.ctx], [])
  }

  // The outcome of one step, and of the notifications its flushes sent.
  ghost predicate IsOutcome(v: Shared, t: Sys, ids: seq<nat>)
  {
    forall n :: Opened(n) ==>
                  && t.mgr.flushed != [] && v.ctx.id as nat in t.ctxs && v.ctx == t.ctxs[v.ctx.id as nat]
                  && SameReads(v.store, t.store) && LogIs(t.log, v.logged, v.failed) && v.failed == t.broken
                  && v.mgr == NotifiedAll(t.mgr, ids)
  }

  lemma OneAdded(now: seq<Rec>, was: seq<Rec>, r: Rec)
    requires Adds(now, was, [r])
    ensures SameReads(now, [r] + was)
  {
    assert [r][1..] == [] && Stack([r], was) == Stack([], [r] + was);
  }

  // Nothing happened.
  lemma SameFollows(v: Shared, log: seq<Record>)
    requires v.mgr.flushed != [] && LogIs(log, v.logged, v.failed)
    ensures IsOutcome(v, SysOf(v, log), [])
  {
  }

  lemma StagedFollows(v: Shared, now: Shared, log: seq<Record>, key: Key, value: ByteString, removal: bool)
    requires v.mgr.flushed != [] && LogIs(log, v.logged, v.failed) && !Over(v.ctx) && v.ctx.written <= |v.ctx.ops|
    requires v.ctx.level != ReadUncommitted && WalRecords.Proper(WriteRecord(v.ctx, key, value, removal))
    requires now == v.(ctx := Staged(Noted(v.ctx, WriteRecord(v.ctx, key, value, removal)), key, value))
    ensures IsOutcome(now, DoWrite(SysOf(v, log), v.ctx, key, value, removal, false), [])
  {
  }

  // The write of a read-uncommitted transaction, once sent or not.
  lemma WrittenFollows(v: Shared, now: Shared, log: seq<Record>, key: Key, value: ByteString, removal: bool, ok: bool, ids: seq<nat>)
    requires v.mgr.flushed != [] && LogIs(log, v.logged, v.failed) && !Over(v.ctx) && v.ctx.written <= |v.ctx.ops|
    requires v.ctx.level == ReadUncommitted && WalRecords.Proper(WriteRecord(v.ctx, key, value, removal))
    requires var d := Noted(v.ctx, WriteRecord(v.ctx, key, value, removal));
             && now.mgr == NotifiedAll(v.mgr, ids)
             && (ok ==> !v.failed && !now.failed && now.logged == log + d.ops[d.written..] &&
                        now.ctx == Sent(d).(trace := d.trace + [Wrote(key, value)]) && Adds(now.store, v.store, [Rec(key, value, v.ctx.id)]))
             && (!ok ==> now.failed && log <= now.logged && now.ctx == d && now.store == v.store && ids == [])
    ensures IsOutcome(now, DoWrite(SysOf(v, log), v.ctx, key, value, removal, ok), ids)
  {
    if ok {
      OneAdded(now.store, v.store, Rec(key, value, v.ctx.id));
    }
  }

  lemma ReadFollows(v: Shared, now: Shared, log: seq<Record>, key: Key)
    requires v.mgr.flushed != [] && LogIs(log, v.logged, v.failed) && !Over(v.ctx)
    requires now == v.(ctx := AfterGet(v.ctx, key, v.store, v.mgr))
    ensures IsOutcome(now, DoGet(SysOf(v, log), v.ctx, key), [])
  {
  }

  lemma AbortFollows(v: Shared, now: Shared, log: seq<Record>)
    requires v.mgr.flushed != [] && LogIs(log, v.logged, v.failed) && !Over(v.ctx) && !HasEnding(v.ctx.ops)
    requires now.ctx == v.ctx.(aborted := true, temp := map[], cache := map[], ops := [])
    requires now.mgr == Finished(v.mgr, v.ctx.id, TranFiles.Aborted) && now == v.(ctx := now.ctx, mgr := now.mgr)
    ensures IsOutcome(now, DoAbort(SysOf(v, log), v.ctx), [])
  {
  }

  lemma CancelFollows(v: Shared, now: Shared, order: seq<Key>, log: seq<Record>)
    requires v.mgr.flushed != [] && LogIs(log, v.logged, v.failed) && !Over(v.ctx) && !HasEnding(v.ctx.ops)
    requires v.ctx.written <= |v.ctx.ops| && OrderOf(order, v.ctx.temp) && Conflict(v.ctx, v.store, v.mgr)
    requires now.mgr == Finished(v.mgr, v.ctx.id, TranFiles.Aborted) && now == v.(ctx := v.ctx.(aborted := true), mgr := now.mgr)
    ensures IsOutcome(now, DoCommit(SysOf(v, log), v.ctx, order, false), [])
  {
  }

  // The COMMIT did not get through.
  lemma UnsentFollows(v: Shared, now: Shared, order: seq<Key>, log: seq<Record>)
    requires v.mgr.flushed != [] && !Over(v.ctx) && !HasEnding(v.ctx.ops) && v.ctx.written <= |v.ctx.ops|
    requires OrderOf(order, v.ctx.temp) && !Conflict(v.ctx, v.store, v.mgr)
    requires now.ctx == Noted(v.ctx, Record.Commit(v.ctx.id)) && now.store == v.store && now.mgr == v.mgr
    requires now.failed && log <= now.logged
    ensures IsOutcome(now, DoCommit(SysOf(v, log), v.ctx, order, false), [])
  {
  }

  lemma CommitFollows(v: Shared, now: Shared, order: seq<Key>, log: seq<Record>, ids: seq<nat>)
    requires v.mgr.flushed != [] && !Over(v.ctx) && !HasEnding(v.ctx.ops) && v.ctx.written <= |v.ctx.ops| && !v.failed
    requires OrderOf(order, v.ctx.temp) && !Conflict(v.ctx, v.store, v.mgr)
    requires var d := Noted(v.ctx, Record.Commit(v.ctx.id));
             now.ctx == Sent(d).(committed := true) && !now.failed && now.logged == log + d.ops[d.written..]
    requires SameReads(now.store, Stack(CommitWrites(v.ctx, order), v.store))
    requires now.mgr == NotifiedAll(Finished(v.mgr, v.ctx.id, TranFiles.OpCommitted), ids)
    ensures IsOutcome(now, DoCommit(SysOf(v, log), v.ctx, order, true), ids)
  {
  }

  lemma {:induction false} NotifiedMore(m: Mgr, a: seq<nat>, b: seq<nat>)
    requires m.flushed != []
    ensures NotifiedAll(m, a + b) == NotifiedAll(NotifiedAll(m, a), b)
    decreases |b|
  {
    if b == [] {
      assert a + b == a;
    } else {
      assert (a + b)[..|a + b| - 1] == a + b[..|b| - 1];
      NotifiedMore(m, a, b[..|b| - 1]);
    }
  }

  lemma {:induction false} SomeOrder(keys: set<Key>) returns (order: seq<Key>)
    ensures (forall i, j :: 0 <= i < j < |order| ==> order[i] != order[j]) && forall k :: k in order <==> k in keys
    decreases |keys|
  {
    if keys == {} {
      order := [];
    } else {
      var k :| k in keys;
      order := SomeOrder(keys - {k});
      order := order + [k];
    }
  }

  // The keys taken so far, each once.
  ghost predicate OrderSoFar(order: seq<Key>, temp: map<Key, ByteString>, rest: set<Key>)
  {
    && rest <= temp.Keys && (forall i, j :: 0 <= i < j < |order| ==> order[i] != order[j])
    && forall k :: k in order <==> k in temp && k !in rest
  }

  lemma TakeKey(c: Ctx, order: seq<Key>, rest: set<Key>, k: Key)
    requires OrderSoFar(order, c.temp, rest) && k in rest
    ensures OrderSoFar(order + [k], c.temp, rest - {k})
    ensures StagedWrites(c, order + [k]) == StagedWrites(c, order) + [Rec(k, c.temp[k], c.id)]
  {
  }

  lemma SameGroupsSameReads(now: seq<Rec>, was: seq<Rec>)
    requires SameGroups(now, was)
    ensures SameReads(now, was)
  {
    forall q
      ensures Best(now, q) == Best(was, q)
    {
      SameGroupsSameBest(now, was, q);
    }
  }

  lemma NothingStaged(c: Ctx, order: seq<Key>)
    requires Own(c) && c.level == ReadUncommitted && OrderOf(order, c.temp)
    ensures order == []
  {
    IsOwn(c);
    TakesSome(order, c.temp);
  }

  lemma TakesSome(order: seq<Key>, temp: map<Key, ByteString>)
    requires OrderOf(order, temp)
    ensures order != [] ==> temp != map[]
  {
    if order != [] {
      assert order[0] in order;
    }
  }

  lemma AddsTwice(now: seq<Rec>, mid: seq<Rec>, was: seq<Rec>, rs: seq<Rec>)
    requires SameReads(now, mid) && Adds(mid, was, rs)
    ensures SameReads(now, Stack(rs, was))
  {
  }

  // The empty value is absence.
  function Present(value: ByteString): Option<ByteString>
  {
    if value == [] then None else Some(value)
  }

  // What a context keeps to itself.
  ghost predicate Own(c: Ctx)
  {
    forall n :: Opened(n) ==> OwnWell(c)
  }

  ghost predicate OwnWell(c: Ctx)
  {
    && AllProper(c.ops)
    && (forall k :: k in c.temp || k in c.cache ==> k != []) && (c.level == ReadUncommitted ==> c.temp == map[])
    && (forall k :: k in c.cache && c.cache[k].Some? ==> c.cache[k].value.value != [])
  }

  lemma IsOwn(c: Ctx)
    requires Own(c)
    ensures OwnWell(c)
  {
    assert Opened(0);
  }

  lemma NotedOwn(c: Ctx, w: Record)
    requires Own(c) && WalRecords.Proper(w)
    ensures Own(Noted(c, w))
  {
    IsOwn(c);
  }

  lemma StagedOwn(c: Ctx, key: Key, value: ByteString)
    requires Own(c) && key != [] && c.level != ReadUncommitted
    ensures Own(Staged(c, key, value))
  {
    IsOwn(c);
  }

  lemma SameOwn(c: Ctx, d: Ctx)
    requires Own(c) && d == c.(written := d.written, trace := d.trace, committed := d.committed, aborted := d.aborted)
    ensures Own(d)
  {
    IsOwn(c);
  }

  lemma GetOwn(c: Ctx, key: Key, store: seq<Rec>, m: Mgr)
    requires Own(c) && key != []
    ensures Own(AfterGet(c, key, store, m))
    ensures key !in c.temp && Fetched(c, key, store, m).Some? ==> Fetched(c, key, store, m).value.value != []
  {
    IsOwn(c);
  }

  // The engine is in order; see LSMEngine.Valid.
  ghost predicate Running(engine: LSMEngine)
    reads engine, engine.memtable, engine.memtable.mine, engine.memtable.theirs
  {
    forall n :: Opened(n) ==> engine.Valid()
  }

  lemma IsValid(engine: LSMEngine)
    requires Running(engine)
    ensures engine.Valid()
  {
    assert Opened(0);
  }

  // The log is in order; see WAL.Valid.
  ghost predicate Logging(wal: WAL)
    reads wal
  {
    forall n :: Opened(n) ==> wal.Valid()
  }

  lemma IsLogging(wal: WAL)
    requires Logging(wal)
    ensures wal.Valid()
  {
    assert Opened(0);
  }

  // The manager is in order; see TranManager.Valid.
  ghost predicate Managing(manager: TranManager)
    reads manager
  {
    forall n :: Opened(n) ==> manager.Valid()
  }

  lemma IsManaging(manager: TranManager)
    requires Managing(manager)
    ensures manager.Valid()
  {
    assert Opened(0);
  }

  lemma HasCheckpoint(manager: TranManager)
    requires Managing(manager)
    ensures manager.flushed != []
  {
    IsManaging(manager);
  }

  class TranContext {
    const id: u64
    const level: IsolationLevel
    const engine: LSMEngine
    const manager: TranManager
    const wal: WAL

    var operations: seq<Record>
    var temp: map<Key, ByteString>
    var cache: map<Key, Option<Rec>>
    var walWritten: nat
    var isCommitted: bool
    var isAborted: bool
    // What it saw and did.
    ghost var trace: seq<Op>

    constructor (id: u64, engine: LSMEngine, manager: TranManager, wal: WAL, level: IsolationLevel)
      ensures this.id == id && this.engine == engine && this.manager == manager && this.wal == wal
      ensures AsCtx() == NewCtx(id, level)
    {
      this.id, this.engine, this.manager, this.wal, this.level := id, engine, manager, wal, level;
      operations, temp, cache, walWritten := [Create(id)], map[], map[], 0;
      isCommitted, isAborted, trace := false, false, [];
    }

    ghost function AsCtx(): Ctx
      reads this
    {
      Ctx(id, level, operations, walWritten, temp, cache, isCommitted, isAborted, trace)
    }

    // The four objects and what the memory tables are made of are apart.
    ghost predicate Apart()
      reads this, engine, engine.memtable
    {
      var objects := engine.memtable.mine + engine.memtable.theirs;
      this !in objects && engine !in objects && manager !in objects && wal !in objects
    }

    ghost predicate Valid()
      reads this, engine, engine.memtable, engine.memtable.mine, engine.memtable.theirs, manager, wal
    {
      && Apart() && Running(engine) && Managing(manager) && Logging(wal) && Own(AsCtx())
      && (!isCommitted && !isAborted ==> walWritten <= |operations|)
    }

    // Some table of the engine cannot be read: nothing is promised of it any more.
    ghost predicate Spoilt()
      reads engine
    {
      HasUnreadable(engine.hasher, engine.ssts, engine.levels)
    }

    ghost function Now(): Shared
      requires Running(engine)
      reads this, engine, engine.memtable, engine.memtable.mine, engine.memtable.theirs, manager, wal
    {
      Shared(AsCtx(), Stored(), wal.History(), wal.failed, manager.Snapshot())
    }

    ghost function Stored(): seq<Rec>
      requires Running(engine)
      reads this, engine, engine.memtable, engine.memtable.mine, engine.memtable.theirs
    {
      IsValid(engine);
      engine.All()
    }

    // Sends to the log what is noted and not sent yet, and counts it once confirmed.
    method PersistPending(io: Io, ghost log: seq<Record>) returns (r: Result<()>)
      requires Logging(wal) && Own(AsCtx()) && LogIs(log, wal.History(), wal.failed)
      modifies this`walWritten, wal
      ensures Logging(wal)
      ensures old(walWritten) > |operations| ==> r == Err(LogicError) && walWritten == old(walWritten)
      ensures r.Ok? ==> old(walWritten) <= walWritten == |operations| && wal.failed == old(wal.failed)
      ensures r.Ok? ==> LogIs(log + operations[old(walWritten)..], wal.History(), wal.failed)
      ensures r.Err? ==> walWritten == old(walWritten) && (walWritten <= |operations| ==> wal.failed && log <= wal.History())
      ensures old(walWritten) < |operations| && old(wal.failed) ==> r.Err?
      ensures r != Err(Oversize)
    {
      if walWritten > |operations| {
        return Err(LogicError);
      }
      if walWritten == |operations| {
        assert operations[walWritten..] == [] && log + [] == log;
        return Ok(());
      }
      var pending := operations[walWritten..];
      IsLogging(wal);
      IsOwn(AsCtx());
      var logged := wal.Log(pending, true, io);
      if logged.Err? {
        return Err(WalFailed);
      }
      walWritten := |operations|;
      return Ok(());
    }

    // A flush tells the manager of every marker it has written.
    method Notify(flushed: FlushResult) returns (ghost ids: seq<nat>)
      requires Managing(manager)
      modifies manager
      ensures Managing(manager) && manager.flushed != [] && old(manager.flushed) != []
      ensures manager.Snapshot() == NotifiedAll(old(manager.Snapshot()), ids)
      ensures flushed.Done? ==> ids == flushed.markers
    {
      ids := [];
      IsManaging(manager);
      if flushed.Done? {
        var markers := flushed.markers;
        var i := 0;
        assert markers[..0] == [];
        while i < |markers|
          invariant 0 <= i <= |markers| && manager.Valid()
          invariant manager.Snapshot() == NotifiedAll(old(manager.Snapshot()), markers[..i])
        {
          manager.AddFlushed(markers[i]);
          assert markers[..i + 1][..i] == markers[..i];
          i := i + 1;
        }
        assert markers[..i] == markers;
        ids := markers;
      }
    }

    method EngineWrite(key: Key, value: ByteString, removal: bool, height: nat) returns (flushed: FlushResult)
      requires Apart() && Running(engine) && 1 <= height <= engine.memtable.maxLevel && (removal ==> value == [])
      modifies engine`ssts, engine`levels, engine`nextSstId, engine`curMaxLevel, engine.memtable, engine.memtable.mine
      ensures !Spoils(flushed) ==> Apart() && Running(engine) && Adds(Stored(), old(Stored()), [Rec(key, value, id)])
      ensures Spoils(flushed) ==> Spoilt()
    {
      IsValid(engine);
      if removal {
        flushed := engine.Remove(key, id, height);
      } else {
        flushed := engine.Put(key, value, id, height);
      }
    }

    method ApplyNow(key: Key, value: ByteString, removal: bool, height: nat) returns (r: Result<()>, ghost ids: seq<nat>)
      requires Apart() && Running(engine) && Managing(manager) && 1 <= height <= engine.memtable.maxLevel && (removal ==> value == [])
      modifies engine`ssts, engine`levels, engine`nextSstId, engine`curMaxLevel, engine.memtable, engine.memtable.mine, manager
      ensures if r == Err(Oversize) then Spoilt()
              else Apart() && Running(engine) && Adds(Stored(), old(Stored()), [Rec(key, value, id)])
      ensures Managing(manager) && old(manager.flushed) != [] && manager.Snapshot() == NotifiedAll(old(manager.Snapshot()), ids)
    {
      var flushed := EngineWrite(key, value, removal, height);
      if Spoils(flushed) {
        HasCheckpoint(manager);
        return Err(Oversize), [];
      }
      ids := Notify(flushed);
      r := if flushed.FlushFailed? then Err(flushed.error) else Ok(());
    }

    method SendWrite(key: Key, value: ByteString, io: Io, ghost log: seq<Record>) returns (r: Result<()>)
      requires Logging(wal) && Own(AsCtx()) && LogIs(log, wal.History(), wal.failed) && walWritten < |operations|
      modifies this`walWritten, this`trace, wal
      ensures Logging(wal) && Own(AsCtx()) && walWritten <= |operations| && (r.Ok? ==> !old(wal.failed)) && r != Err(Oversize)
      ensures var d := old(AsCtx());
              if r.Ok? then AsCtx() == Sent(d).(trace := d.trace + [Wrote(key, value)]) && !wal.failed && wal.History() == log + d.ops[d.written..]
              else AsCtx() == d && wal.failed && log <= wal.History()
    {
      ghost var c := AsCtx();
      r := PersistPending(io, log);
      if r.Ok? {
        trace := trace + [Wrote(key, value)];
      }
      SameOwn(c, AsCtx());
    }

    // A noted write reaches the log, and only then the engine.
    method WriteNow(key: Key, value: ByteString, removal: bool, height: nat, io: Io, ghost was: Shared, ghost log: seq<Record>)
      returns (r: Result<()>, ghost ok: bool, ghost ids: seq<nat>)
      requires Valid() && manager.flushed != [] && !Over(was.ctx) && was.ctx.written <= |was.ctx.ops| && level == ReadUncommitted
      requires var w := WriteRecord(was.ctx, key, value, removal); WalRecords.Proper(w) && Now() == was.(ctx := Noted(was.ctx, w))
      requires LogIs(log, wal.History(), wal.failed) && 1 <= height <= engine.memtable.maxLevel && (removal ==> value == [])
      modifies this`walWritten, this`trace, wal, manager
      modifies engine`ssts, engine`levels, engine`nextSstId, engine`curMaxLevel, engine.memtable, engine.memtable.mine
      ensures (ok ==> !was.failed) && (r.Ok? ==> ok)
      ensures if r == Err(Oversize) then Spoilt()
              else Valid() && IsOutcome(Now(), DoWrite(SysOf(was, log), was.ctx, key, value, removal, ok), ids)
    {
      ids := [];
      r := SendWrite(key, value, io, log);
      ok := r.Ok?;
      if r.Ok? {
        r, ids := ApplyNow(key, value, removal, height);
      }
      if r != Err(Oversize) {
        WrittenFollows(was, Now(), log, key, value, removal, ok, ids);
      }
    }

    // What becomes of a noted write: read-uncommitted transactions apply it at once, the
    // others stage it.
    method Proceed(key: Key, value: ByteString, removal: bool, height: nat, io: Io, ghost was: Shared, ghost log: seq<Record>)
      returns (r: Result<()>, ghost ok: bool, ghost ids: seq<nat>)
      requires Valid() && manager.flushed != [] && key != [] && !Over(was.ctx) && was.ctx.written <= |was.ctx.ops|
      requires var w := WriteRecord(was.ctx, key, value, removal); WalRecords.Proper(w) && Now() == was.(ctx := Noted(was.ctx, w))
      requires LogIs(log, wal.History(), wal.failed) && 1 <= height <= engine.memtable.maxLevel && (removal ==> value == [])
      modifies this`walWritten, this`trace, this`temp, wal, manager
      modifies engine`ssts, engine`levels, engine`nextSstId, engine`curMaxLevel, engine.memtable, engine.memtable.mine
      ensures (ok ==> !was.failed) && (r.Ok? && level == ReadUncommitted ==> ok)
      ensures if r == Err(Oversize) then Spoilt()
              else Valid() && IsOutcome(Now(), DoWrite(SysOf(was, log), was.ctx, key, value, removal, ok), ids)
    {
      ok, ids := false, [];
      if level == ReadUncommitted {
        r, ok, ids := WriteNow(key, value, removal, height, io, was, log);
      } else {
        StagedOwn(AsCtx(), key, value);
        temp := temp[key := value];
        trace := trace + [Wrote(key, value)];
        StagedFollows(was, Now(), log, key, value, removal);
        r := Ok(());
      }
    }

    // An immediate write of a read-uncommitted transaction, a staged one of the others.
    method Put(key: Key, value: ByteString, height: nat, io: Io, ghost log: seq<Record>)
      returns (r: Result<()>, ghost ok: bool, ghost ids: seq<nat>)
      requires Valid() && LogIs(log, wal.History(), wal.failed) && key != [] && 1 <= height <= engine.memtable.maxLevel
      modifies this, wal, manager
      modifies engine`ssts, engine`levels, engine`nextSstId, engine`curMaxLevel, engine.memtable, engine.memtable.mine
      ensures (ok ==> !old(wal.failed))
      ensures if r == Err(Oversize) then Spoilt()
              else Valid() && IsOutcome(Now(), DoWrite(SysOf(old(Now()), log), old(AsCtx()), key, value, false, ok), ids)
      ensures r.Ok? ==> !old(Over(AsCtx())) && WalRecords.Proper(WalRecords.Put(id, key, value)) && (level == ReadUncommitted ==> ok)
    {
      ok, ids := false, [];
      ghost var was := Now();
      HasCheckpoint(manager);
      if isCommitted || isAborted {
        SameFollows(was, log);
        return Err(LogicError), ok, ids;
      }
      var w := PutRecord(id, key, value);
      if w.Err? {
        SameFollows(was, log);
        return Err(w.error), ok, ids;
      }
      NotedOwn(AsCtx(), w.value);
      IsOwn(AsCtx());
      operations := operations + [w.value];
      r, ok, ids := Proceed(key, value, false, height, io, was, log);
    }

    // A removal is a write of a tombstone.
    method Remove(key: Key, height: nat, io: Io, ghost log: seq<Record>) returns (r: Result<()>, ghost ok: bool, ghost ids: seq<nat>)
      requires Valid() && LogIs(log, wal.History(), wal.failed) && key != [] && 1 <= height <= engine.memtable.maxLevel
      modifies this, wal, manager
      modifies engine`ssts, engine`levels, engine`nextSstId, engine`curMaxLevel, engine.memtable, engine.memtable.mine
      ensures (ok ==> !old(wal.failed))
      ensures if r == Err(Oversize) then Spoilt()
              else Valid() && IsOutcome(Now(), DoWrite(SysOf(old(Now()), log), old(AsCtx()), key, [], true, ok), ids)
      ensures r.Ok? ==> !old(Over(AsCtx())) && WalRecords.Proper(Delete(id, key)) && (level == ReadUncommitted ==> ok)
    {
      ok, ids := false, [];
      ghost var was := Now();
      HasCheckpoint(manager);
      if isCommitted || isAborted {
        SameFollows(was, log);
        return Err(LogicError), ok, ids;
      }
      var w := DeleteRecord(id, key);
      if w.Err? {
        SameFollows(was, log);
        return Err(w.error), ok, ids;
      }
      NotedOwn(AsCtx(), w.value);
      IsOwn(AsCtx());
      operations := operations + [w.value];
      r, ok, ids := Proceed(key, [], true, height, io, was, log);
    }

    method Fetch(key: Key) returns (query: Option<Rec>)
      requires Running(engine) && key != []
      ensures query == Fetched(AsCtx(), key, Stored(), manager.Snapshot())
    {
      IsValid(engine);
      var strict := level != ReadUncommitted;
      var skip := SkipSet(manager.Snapshot(), strict);
      if level == ReadUncommitted || level == ReadCommitted {
        query := engine.Get(key, 0, skip);
      } else if key in cache {
        query := cache[key];
      } else {
        query := engine.Get(key, id, skip);
      }
    }

    // Its own staged write first; then storage, which from repeatable read on is asked
    // once for each key.
    method Get(key: Key, ghost log: seq<Record>) returns (r: Result<Option<ByteString>>)
      requires Valid() && LogIs(log, wal.History(), wal.failed) && key != []
      modifies this`cache, this`trace
      ensures Valid() && IsOutcome(Now(), DoGet(SysOf(old(Now()), log), old(AsCtx()), key), [])
      ensures r.Err? <==> old(Over(AsCtx()))
      ensures r.Ok? ==> r.value == Present(old(Seen(AsCtx(), key, Stored(), manager.Snapshot())))
    {
      ghost var was := Now();
      HasCheckpoint(manager);
      if isCommitted || isAborted {
        SameFollows(was, log);
        return Err(LogicError);
      }
      if key in temp {
        GetOwn(was.ctx, key, was.store, was.mgr);
        trace := trace + [Got(key, temp[key])];
        ReadFollows(was, Now(), log, key);
        return Ok(if temp[key] == [] then None else Some(temp[key]));
      }
      var query := GetStored(key, log);
      return Ok(if query.None? then None else Some(query.value.value));
    }

    method GetStored(key: Key, ghost log: seq<Record>) returns (query: Option<Rec>)
      requires Valid() && LogIs(log, wal.History(), wal.failed) && key != [] && !Over(AsCtx()) && key !in temp && manager.flushed != []
      modifies this`cache, this`trace
      ensures Valid() && IsOutcome(Now(), DoGet(SysOf(old(Now()), log), old(AsCtx()), key), [])
      ensures query == old(Fetched(AsCtx(), key, Stored(), manager.Snapshot())) && (query.Some? ==> query.value.value != [])
    {
      ghost var was := Now();
      query := Fetch(key);
      Remember(key, query, was.store, was.mgr);
      ReadFollows(was, Now(), log, key);
    }

    method Remember(key: Key, query: Option<Rec>, ghost store: seq<Rec>, ghost m: Mgr)
      requires Own(AsCtx()) && key != [] && key !in temp && query == Fetched(AsCtx(), key, store, m)
      modifies this`cache, this`trace
      ensures Own(AsCtx()) && AsCtx() == AfterGet(old(AsCtx()), key, store, m) && (query.Some? ==> query.value.value != [])
    {
      GetOwn(AsCtx(), key, store, m);
      if level == RepeatableRead || level == Serializable {
        cache := cache[key := query];
      }
      trace := trace + [Got(key, ValueOf(query))];
    }

    // An earlier attempt to end was noted.
    method Ends() returns (b: bool)
      ensures b <==> HasEnding(operations)
    {
      var i := 0;
      while i < |operations|
        invariant 0 <= i <= |operations| && forall j :: 0 <= j < i ==> !Ending(operations[j])
      {
        if operations[i].Commit? || operations[i].Rollback? {
          return true;
        }
        i := i + 1;
      }
      return false;
    }

    // Registers the id as rolled back; what it staged is dropped, what it stored stays and
    // is ignored by every read from now on.
    method Abort(ghost log: seq<Record>) returns (r: Result<bool>)
      requires Valid() && LogIs(log, wal.History(), wal.failed)
      modifies this, manager
      ensures Valid() && IsOutcome(Now(), DoAbort(SysOf(old(Now()), log), old(AsCtx())), [])
      ensures r == Ok(true) <==> !old(Over(AsCtx())) && !HasEnding(old(operations))
      ensures r == Ok(false) <==> old(Over(AsCtx()))
    {
      ghost var was := Now();
      HasCheckpoint(manager);
      if isCommitted || isAborted {
        SameFollows(was, log);
        return Ok(false);
      }
      if walWritten > |operations| {
        return Err(LogicError);
      }
      var ends := Ends();
      if ends {
        SameFollows(was, log);
        return Err(LogicError);
      }
      Withdraw(log);
      return Ok(true);
    }

    method Withdraw(ghost log: seq<Record>)
      requires Valid() && LogIs(log, wal.History(), wal.failed) && !Over(AsCtx()) && !HasEnding(operations)
      modifies this`isAborted, this`temp, this`cache, this`operations, manager
      ensures Valid() && isAborted && IsOutcome(Now(), DoAbort(SysOf(old(Now()), log), old(AsCtx())), [])
    {
      ghost var was := Now();
      HasCheckpoint(manager);
      Finish(TranFiles.Aborted);
      GiveUp();
      AbortFollows(was, Now(), log);
    }

    method GiveUp()
      modifies this`isAborted, this`temp, this`cache, this`operations
      ensures AsCtx() == old(AsCtx()).(aborted := true, temp := map[], cache := map[], ops := []) && Own(AsCtx())
    {
      isAborted := true;
      temp, cache, operations := map[], map[], [];
    }

    method Finish(state: TranFiles.TransactionState)
      requires Managing(manager)
      modifies manager
      ensures Managing(manager) && manager.flushed != [] && manager.Snapshot() == Finished(old(manager.Snapshot()), id, state)
    {
      IsManaging(manager);
      manager.AddReadyToFlush(id, state);
    }

    // The newest version of a key that was not rolled back, tombstones included.
    method LatestRecord(key: Key) returns (latest: Option<Rec>)
      requires Running(engine) && key != []
      ensures latest == Latest(Stored(), key, manager.Snapshot())
    {
      IsValid(engine);
      latest := engine.SstGet(key, 0, manager.aborted);
      var memory := engine.memtable.Get(key, 0, manager.aborted);
      BestAppend(engine.memtable.Records(), engine.OnDisk(), Query(key, 0, manager.aborted));
      if memory.Some? && (latest.None? || memory.value.ver >= latest.value.ver) {
        latest := memory;
      }
    }

    method FindsWriteConflict() returns (conflict: bool)
      requires Running(engine) && forall k :: k in temp ==> k != []
      ensures conflict <==> exists k :: k in temp && Overtaken(AsCtx(), k, Stored(), manager.Snapshot())
    {
      var rest := temp.Keys;
      while rest != {}
        invariant rest <= temp.Keys
        invariant forall k :: k in temp && k !in rest ==> !Overtaken(AsCtx(), k, Stored(), manager.Snapshot())
        decreases |rest|
      {
        var k :| k in rest;
        var latest := LatestRecord(k);
        if latest.Some? && latest.value.ver > id {
          assert k in temp && Overtaken(AsCtx(), k, Stored(), manager.Snapshot());
          return true;
        }
        rest := rest - {k};
      }
      return false;
    }

    method FindsReadConflict() returns (conflict: bool)
      requires Running(engine) && forall k :: k in cache ==> k != []
      ensures conflict <==> exists k :: k in cache && Outdated(AsCtx(), k, Stored(), manager.Snapshot())
    {
      var rest := cache.Keys;
      while rest != {}
        invariant rest <= cache.Keys
        invariant forall k :: k in cache && k !in rest ==> !Outdated(AsCtx(), k, Stored(), manager.Snapshot())
        decreases |rest|
      {
        var k :| k in rest;
        var current := LatestRecord(k);
        if current.Some? && current.value.value == [] {
          current := None;
        }
        if current != cache[k] {
          assert k in cache && Outdated(AsCtx(), k, Stored(), manager.Snapshot());
          return true;
        }
        rest := rest - {k};
      }
      return false;
    }

    method FindsConflict() returns (conflict: bool)
      requires Running(engine) && Own(AsCtx())
      ensures conflict <==> Conflict(AsCtx(), Stored(), manager.Snapshot())
    {
      IsOwn(AsCtx());
      conflict := false;
      if level != ReadUncommitted {
        conflict := FindsWriteConflict();
      }
      if !conflict && level == Serializable {
        conflict := FindsReadConflict();
      }
    }

    method MarkAborted()
      requires Own(AsCtx())
      modifies this`isAborted
      ensures AsCtx() == old(AsCtx()).(aborted := true) && Own(AsCtx())
    {
      ghost var c := AsCtx();
      isAborted := true;
      SameOwn(c, AsCtx());
    }

    // A conflict cancels the whole transaction.
    method Cancel(ghost order: seq<Key>, ghost log: seq<Record>)
      requires Valid() && LogIs(log, wal.History(), wal.failed) && !Over(AsCtx()) && !HasEnding(operations)
      requires Conflict(AsCtx(), Stored(), manager.Snapshot()) && OrderOf(order, temp)
      modifies this`isAborted, manager
      ensures Valid() && isAborted && isCommitted == old(isCommitted)
      ensures IsOutcome(Now(), DoCommit(SysOf(old(Now()), log), old(AsCtx()), order, false), [])
    {
      ghost var was := Now();
      HasCheckpoint(manager);
      Finish(TranFiles.Aborted);
      MarkAborted();
      CancelFollows(was, Now(), order, log);
    }

    // ---- Applying a commit ----

    method PutMemory(key: Key, value: ByteString, height: nat)
      requires Apart() && Running(engine) && 1 <= height <= engine.memtable.maxLevel
      modifies engine.memtable, engine.memtable.mine
      ensures Apart() && Running(engine) && Adds(Stored(), old(Stored()), [Rec(key, value, id)])
      ensures fresh(engine.memtable.mine - old(engine.memtable.mine))
    {
      IsValid(engine);
      engine.memtable.PutOne(key, value, id, height);
      AddsBehind(engine.memtable.Records(), old(engine.memtable.Records()), [Rec(key, value, id)], engine.OnDisk());
    }

    // The staged writes in some order, then the marker.
    method ApplyAll(height: Key -> nat) returns (ghost order: seq<Key>)
      requires Apart() && Running(engine) && Own(AsCtx()) && forall k :: 1 <= height(k) <= engine.memtable.maxLevel
      modifies engine.memtable, engine.memtable.mine
      ensures Apart() && Running(engine) && OrderOf(order, temp)
      ensures Adds(Stored(), old(Stored()), CommitWrites(AsCtx(), order))
    {
      ghost var c, was := AsCtx(), Stored();
      order := ApplyStaged(height);
      ghost var mid := Stored();
      PutMemory([], [], height([]));
      AddsOneMore(Stored(), mid, was, StagedWrites(c, order), Rec([], [], id));
      if level == ReadUncommitted {
        NothingStaged(c, order);
      }
    }

    method ApplyStaged(height: Key -> nat) returns (ghost order: seq<Key>)
      requires Apart() && Running(engine) && Own(AsCtx()) && forall k :: 1 <= height(k) <= engine.memtable.maxLevel
      modifies engine.memtable, engine.memtable.mine
      ensures Apart() && Running(engine) && AsCtx() == old(AsCtx()) && OrderOf(order, temp)
      ensures Adds(Stored(), old(Stored()), StagedWrites(AsCtx(), order))
      ensures fresh(engine.memtable.mine - old(engine.memtable.mine))
    {
      ghost var c, was := AsCtx(), Stored();
      var rest := temp.Keys;
      order := [];
      assert StagedWrites(c, []) == [];
      while rest != {}
        invariant Apart() && Running(engine) && AsCtx() == c && OrderSoFar(order, temp, rest)
        invariant fresh(engine.memtable.mine - old(engine.memtable.mine))
        invariant Adds(Stored(), was, StagedWrites(c, order))
        decreases |rest|
      {
        var k :| k in rest;
        ghost var mid := Stored();
        PutMemory(k, temp[k], height(k));
        AddsOneMore(Stored(), mid, was, StagedWrites(c, order), Rec(k, c.temp[k], id));
        TakeKey(c, order, rest, k);
        rest, order := rest - {k}, order + [k];
      }
    }

    // After a commit the current table is frozen if it is full, and whole tables are
    // flushed until memory is below its limit.
    method Maintain() returns (r: Result<()>, ghost ids: seq<nat>)
      requires Apart() && Running(engine) && Managing(manager)
      modifies engine`ssts, engine`levels, engine`nextSstId, engine`curMaxLevel, engine.memtable, manager
      ensures if r == Err(Oversize) then Spoilt() else Apart() && Running(engine) && SameReads(Stored(), old(Stored()))
      ensures Managing(manager) && old(manager.flushed) != [] && manager.Snapshot() == NotifiedAll(old(manager.Snapshot()), ids)
    {
      FreezeMemory();
      r, ids := FlushDown();
    }

    method FreezeMemory()
      requires Apart() && Running(engine)
      modifies engine.memtable
      ensures Apart() && Running(engine) && Stored() == old(Stored())
    {
      IsValid(engine);
      engine.memtable.FreezeIfFull();
    }

    method FlushOnce() returns (flushed: FlushResult)
      requires Apart() && Running(engine) && engine.TotalSize() != 0
      modifies engine`ssts, engine`levels, engine`nextSstId, engine`curMaxLevel, engine.memtable
      ensures !Spoils(flushed) ==> Apart() && Running(engine) && SameReads(Stored(), old(Stored()))
      ensures Spoils(flushed) ==> Spoilt()
      ensures flushed.Done? ==> |engine.memtable.Records()| < |old(engine.memtable.Records())|
      ensures flushed.Idle? ==> engine.TotalSize() == 0 && engine.memtable.Records() == []
      ensures fresh(engine.memtable.mine + engine.memtable.theirs - old(engine.memtable.mine + engine.memtable.theirs))
    {
      IsValid(engine);
      ghost var moved, was := [], Stored();
      flushed, moved := engine.Flush();
      if !Spoils(flushed) {
        SameGroupsSameReads(Stored(), was);
      }
    }

    method FlushAndNotify() returns (r: Result<()>, ghost ids: seq<nat>)
      requires Apart() && Running(engine) && Managing(manager) && engine.TotalSize() != 0
      modifies engine`ssts, engine`levels, engine`nextSstId, engine`curMaxLevel, engine.memtable, manager
      ensures if r == Err(Oversize) then Spoilt() else Apart() && Running(engine) && SameReads(Stored(), old(Stored()))
      ensures Managing(manager) && old(manager.flushed) != [] && manager.Snapshot() == NotifiedAll(old(manager.Snapshot()), ids)
      ensures r.Ok? ==> |engine.memtable.Records()| < |old(engine.memtable.Records())| || engine.TotalSize() == 0
      ensures fresh(engine.memtable.mine + engine.memtable.theirs - old(engine.memtable.mine + engine.memtable.theirs))
    {
      var flushed := FlushOnce();
      if Spoils(flushed) {
        HasCheckpoint(manager);
        return Err(Oversize), [];
      }
      ids := Notify(flushed);
      r := if flushed.FlushFailed? then Err(flushed.error) else Ok(());
    }

    method FlushDown() returns (r: Result<()>, ghost ids: seq<nat>)
      requires Apart() && Running(engine) && Managing(manager)
      modifies engine`ssts, engine`levels, engine`nextSstId, engine`curMaxLevel, engine.memtable, manager
      ensures if r == Err(Oversize) then Spoilt() else Apart() && Running(engine) && SameReads(Stored(), old(Stored()))
      ensures Managing(manager) && old(manager.flushed) != [] && manager.Snapshot() == NotifiedAll(old(manager.Snapshot()), ids)
    {
      ghost var m := manager.Snapshot();
      ids := [];
      r := Ok(());
      HasCheckpoint(manager);
      while r.Ok? && engine.TotalSize() != 0 && engine.TotalSize() >= engine.totalLimit
        invariant if r == Err(Oversize) then Spoilt() else Apart() && Running(engine) && SameReads(Stored(), old(Stored()))
        invariant Managing(manager) && m.flushed != []
        invariant manager.Snapshot() == NotifiedAll(m, ids)
        decreases r.Ok?, engine.TotalSize() != 0, |engine.memtable.Records()|
      {
        ghost var more;
        r, more := FlushAndNotify();
        NotifiedMore(m, ids, more);
        ids := ids + more;
      }
    }

    // The COMMIT reaches the log before anything reaches storage; then the writes, the
    // marker, the registration, and what memory needs.
    method Decide(height: Key -> nat, io: Io, ghost log: seq<Record>)
      returns (r: Result<bool>, ghost order: seq<Key>, ghost ok: bool, ghost ids: seq<nat>)
      requires Valid() && LogIs(log, wal.History(), wal.failed) && forall k :: 1 <= height(k) <= engine.memtable.maxLevel
      requires !Over(AsCtx()) && !HasEnding(operations) && !Conflict(AsCtx(), Stored(), manager.Snapshot())
      modifies this, wal, manager
      modifies engine`ssts, engine`levels, engine`nextSstId, engine`curMaxLevel, engine.memtable, engine.memtable.mine
      ensures OrderOf(order, old(temp)) && (ok ==> !old(wal.failed)) && (r.Ok? ==> ok && r.value)
      ensures if r == Err(Oversize) then Spoilt()
              else Valid() && IsOutcome(Now(), DoCommit(SysOf(old(Now()), log), old(AsCtx()), order, ok), ids)
      ensures isAborted == old(isAborted) && isCommitted == ok
    {
      ghost var was := Now();
      HasCheckpoint(manager);
      ok, ids := false, [];
      order := SomeOrder(temp.Keys);
      var persisted := NoteCommit(io, log);
      if persisted.Err? {
        UnsentFollows(was, Now(), order, log);
        return Err(persisted.error), order, ok, ids;
      }
      ok := true;
      r, order, ids := Install(height);
      if r != Err(Oversize) {
        CommitFollows(was, Now(), order, log, ids);
      }
    }

    method Install(height: Key -> nat) returns (r: Result<bool>, ghost order: seq<Key>, ghost ids: seq<nat>)
      requires Apart() && Running(engine) && Managing(manager) && Own(AsCtx())
      requires forall k :: 1 <= height(k) <= engine.memtable.maxLevel
      modifies engine`ssts, engine`levels, engine`nextSstId, engine`curMaxLevel, engine.memtable, engine.memtable.mine, manager
      ensures OrderOf(order, temp) && (r.Ok? ==> r.value) && Managing(manager)
      ensures if r == Err(Oversize) then Spoilt()
              else Apart() && Running(engine) && SameReads(Stored(), Stack(CommitWrites(AsCtx(), order), old(Stored())))
      ensures old(manager.flushed) != []
      ensures manager.Snapshot() == NotifiedAll(Finished(old(manager.Snapshot()), id, TranFiles.OpCommitted), ids)
    {
      ghost var was := Stored();
      HasCheckpoint(manager);
      order := ApplyAll(height);
      Finish(TranFiles.OpCommitted);
      ghost var mid := Stored();
      var kept;
      kept, ids := Maintain();
      if kept != Err(Oversize) {
        AddsTwice(Stored(), mid, was, CommitWrites(AsCtx(), order));
      }
      r := if kept.Err? then Err(kept.error) else Ok(true);
    }

    // Once the COMMIT is confirmed the transaction stays committed, whatever comes.
    method NoteCommit(io: Io, ghost log: seq<Record>) returns (r: Result<()>)
      requires Valid() && LogIs(log, wal.History(), wal.failed) && !Over(AsCtx())
      modifies this`operations, this`walWritten, this`isCommitted, wal
      ensures Logging(wal) && Own(AsCtx()) && (r.Ok? ==> !old(wal.failed)) && r != Err(Oversize)
      ensures var d := Noted(old(AsCtx()), Record.Commit(id));
              if r.Ok? then AsCtx() == Sent(d).(committed := true) && !wal.failed && wal.History() == log + d.ops[d.written..]
              else AsCtx() == d && wal.failed && log <= wal.History()
    {
      ghost var c := AsCtx();
      NotedOwn(c, Record.Commit(id));
      operations := operations + [Record.Commit(id)];
      ghost var d := AsCtx();
      r := PersistPending(io, log);
      if r.Ok? {
        isCommitted := true;
      }
      SameOwn(d, AsCtx());
    }

    // Conflict search, COMMIT to the log, then storage.  False means cancelled or over.
    method Commit(height: Key -> nat, io: Io, ghost log: seq<Record>)
      returns (r: Result<bool>, ghost order: seq<Key>, ghost ok: bool, ghost ids: seq<nat>)
      requires Valid() && LogIs(log, wal.History(), wal.failed) && forall k :: 1 <= height(k) <= engine.memtable.maxLevel
      modifies this, wal, manager
      modifies engine`ssts, engine`levels, engine`nextSstId, engine`curMaxLevel, engine.memtable, engine.memtable.mine
      ensures OrderOf(order, old(temp)) && (ok ==> !old(wal.failed))
      ensures if r == Err(Oversize) then Spoilt()
              else Valid() && IsOutcome(Now(), DoCommit(SysOf(old(Now()), log), old(AsCtx()), order, ok), ids)
      ensures r == Ok(true) ==> ok && !old(Over(AsCtx())) && isCommitted
      ensures r == Ok(false) ==> old(Over(AsCtx())) || (isAborted && !isCommitted)
    {
      var open;
      r, open := MayEnd();
      if !open {
        order := Refusal(log);
        ok, ids := false, [];
        return;
      }
      r, order, ok, ids := Try(height, io, log);
    }

    lemma Refusal(log: seq<Record>) returns (order: seq<Key>)
      requires Valid() && LogIs(log, wal.History(), wal.failed) && (Over(AsCtx()) || HasEnding(operations))
      ensures OrderOf(order, temp) && IsOutcome(Now(), DoCommit(SysOf(Now(), log), AsCtx(), order, false), [])
    {
      order := SomeOrder(temp.Keys);
      HasCheckpoint(manager);
      SameFollows(Now(), log);
    }

    // A finished transaction is no error; an earlier attempt to end is.
    method MayEnd() returns (r: Result<bool>, open: bool)
      ensures open <==> !Over(AsCtx()) && !HasEnding(operations)
      ensures !open ==> r == if Over(AsCtx()) then Ok(false) else Err(LogicError)
    {
      if isCommitted || isAborted {
        return Ok(false), false;
      }
      var ends := Ends();
      return Err(LogicError), !ends;
    }

    method Try(height: Key -> nat, io: Io, ghost log: seq<Record>)
      returns (r: Result<bool>, ghost order: seq<Key>, ghost ok: bool, ghost ids: seq<nat>)
      requires Valid() && LogIs(log, wal.History(), wal.failed) && forall k :: 1 <= height(k) <= engine.memtable.maxLevel
      requires !Over(AsCtx()) && !HasEnding(operations)
      modifies this, wal, manager
      modifies engine`ssts, engine`levels, engine`nextSstId, engine`curMaxLevel, engine.memtable, engine.memtable.mine
      ensures OrderOf(order, old(temp)) && (ok ==> !old(wal.failed))
      ensures if r == Err(Oversize) then Spoilt()
              else Valid() && IsOutcome(Now(), DoCommit(SysOf(old(Now()), log), old(AsCtx()), order, ok), ids)
      ensures r == Ok(true) ==> ok && isCommitted
      ensures r == Ok(false) ==> isAborted && !isCommitted
    {
      var conflict := FindsConflict();
      if conflict {
        ok, ids := false, [];
        order := SomeOrder(temp.Keys);
        Cancel(order, log);
        return Ok(false), order, ok, ids;
      }
      r, order, ok, ids := Decide(height, io, log);
    }
  }
}
