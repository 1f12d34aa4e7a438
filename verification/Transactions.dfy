// Transactions as steps over shared storage, log and manager.

module Transactions {
  import opened Bytes
  import opened Mvcc
  import opened WalRecords
  import opened TranFiles
  import opened TranManagers
  import opened MemTables

  datatype IsolationLevel = ReadUncommitted | ReadCommitted | RepeatableRead | Serializable

  // What a transaction saw and did, in order; the empty value is absence.
  datatype Op =
    | Got(key: Key, value: ByteString)
    | Wrote(key: Key, value: ByteString)

  // A transaction's context, with its history.
  datatype Ctx = Ctx(id: u64, level: IsolationLevel, ops: seq<Record>, written: nat, temp: map<Key, ByteString>,
                     cache: map<Key, Option<Rec>>, committed: bool, aborted: bool, trace: seq<Op>)

  function NewCtx(id: u64, level: IsolationLevel): Ctx
  {
    Ctx(id, level, [Create(id)], 0, map[], map[], false, false, [])
  }

  predicate Over(c: Ctx)
  {
    c.committed || c.aborted
  }

  predicate Ending(r: Record)
  {
    r.Commit? || r.Rollback?
  }

  predicate HasEnding(rs: seq<Record>)
  {
    exists i :: 0 <= i < |rs| && Ending(rs[i])
  }

  // The record a write leaves in the log; a removal writes a tombstone.
  function WriteRecord(c: Ctx, key: Key, value: ByteString, removal: bool): Record
  {
    if removal then Delete(c.id, key) else Put(c.id, key, value)
  }

  function Noted(c: Ctx, r: Record): Ctx
  {
    c.(ops := c.ops + [r])
  }

  function Sent(c: Ctx): Ctx
  {
    c.(written := |c.ops|)
  }

  function Staged(c: Ctx, key: Key, value: ByteString): Ctx
  {
    c.(temp := c.temp[key := value], trace := c.trace + [Wrote(key, value)])
  }

  // ---- Reading ----

  function ValueOf(found: Option<Rec>): ByteString
  {
    if found.None? then [] else found.value.value
  }

  // What the engine answers a context that has nothing of its own for the key.
  function Fetched(c: Ctx, key: Key, store: seq<Rec>, m: Mgr): Option<Rec>
  {
    if c.level == ReadUncommitted || c.level == ReadCommitted then
      Visible(Best(store, Query(key, 0, SkipSet(m, c.level != ReadUncommitted))))
    else if key in c.cache then c.cache[key]
    else Visible(Best(store, Query(key, c.id, SkipSet(m, true))))
  }

  function Seen(c: Ctx, key: Key, store: seq<Rec>, m: Mgr): ByteString
  {
    if key in c.temp then c.temp[key] else ValueOf(Fetched(c, key, store, m))
  }

  function AfterGet(c: Ctx, key: Key, store: seq<Rec>, m: Mgr): Ctx
  {
    var d := c.(trace := c.trace + [Got(key, Seen(c, key, store, m))]);
    if key in c.temp || c.level == ReadUncommitted || c.level == ReadCommitted then d
    else d.(cache := c.cache[key := Fetched(c, key, store, m)])
  }

  // ---- Committing ----

  // The newest version of a key that was not rolled back, tombstones included.
  function Latest(store: seq<Rec>, key: Key, m: Mgr): Option<Rec>
  {
    Best(store, Query(key, 0, m.aborted))
  }

  predicate WriteConflict(c: Ctx, store: seq<Rec>, m: Mgr)
  {
    c.level != ReadUncommitted &&
    exists key :: key in c.temp && Overtaken(c, key, store, m)
  }

  // A larger version than the one a commit would write.
  predicate Overtaken(c: Ctx, key: Key, store: seq<Rec>, m: Mgr)
  {
    Latest(store, key, m).Some? && Latest(store, key, m).value.ver > c.id
  }

  // Not what was read at first.
  predicate Outdated(c: Ctx, key: Key, store: seq<Rec>, m: Mgr)
    requires key in c.cache
  {
    Mvcc.Visible(Latest(store, key, m)) != c.cache[key]
  }

  predicate ReadConflict(c: Ctx, store: seq<Rec>, m: Mgr)
  {
    c.level == Serializable && exists key :: key in c.cache && Outdated(c, key, store, m)
  }

  predicate Conflict(c: Ctx, store: seq<Rec>, m: Mgr)
  {
    WriteConflict(c, store, m) || ReadConflict(c, store, m)
  }

  // An order in which the staged writes may be taken.
  ghost predicate OrderOf(order: seq<Key>, temp: map<Key, ByteString>)
  {
    && (forall i, j :: 0 <= i < j < |order| ==> order[i] != order[j])
    && (forall k :: k in order <==> k in temp)
  }

  // The records a commit puts into storage, in order; the last is the marker.
  function CommitWrites(c: Ctx, order: seq<Key>): (rs: seq<Rec>)
    requires forall k :: k in order ==> k in c.temp
  {
    StagedWrites(c, if c.level == ReadUncommitted then [] else order) + [Rec([], [], c.id)]
  }

  function StagedWrites(c: Ctx, order: seq<Key>): (rs: seq<Rec>)
    requires forall k :: k in order ==> k in c.temp
    ensures |rs| == |order| && forall i :: 0 <= i < |order| ==> rs[i] == Rec(order[i], c.temp[order[i]], c.id)
  {
    seq(|order|, i requires 0 <= i < |order| => Rec(order[i], c.temp[order[i]], c.id))
  }

  // Storage no read can tell from another.
  ghost predicate SameReads(all: seq<Rec>, store: seq<Rec>)
  {
    forall q :: Best(all, q) == Best(store, q)
  }

  lemma {:induction false} StackStands(rs: seq<Rec>, a: seq<Rec>, b: seq<Rec>)
    requires SameReads(a, b)
    ensures SameReads(Stack(rs, a), Stack(rs, b))
  {
    if rs != [] {
      OnTop(rs[0], a, b);
      StackStands(rs[1..], [rs[0]] + a, [rs[0]] + b);
    }
  }

  lemma OnTop(r: Rec, a: seq<Rec>, b: seq<Rec>)
    requires SameReads(a, b)
    ensures SameReads([r] + a, [r] + b)
  {
    forall q
      ensures Best([r] + a, q) == Best([r] + b, q)
    {
      BestAppend([r], a, q);
      BestAppend([r], b, q);
    }
  }

  // ---- The whole system ----

  // log: the records whose writing was confirmed.  broken: a write failed, and the log
  // takes nothing more.  history: the committed transactions, in commit order.
  datatype Sys = Sys(store: seq<Rec>, log: seq<Record>, broken: bool, mgr: Mgr, ctxs: map<nat, Ctx>, history: seq<Ctx>)

  datatype Event =
    | Begin(level: IsolationLevel)
    | Write(id: nat, key: Key, value: ByteString, removal: bool, ok: bool)
    | Get(id: nat, key: Key)
    | Commit(id: nat, order: seq<Key>, ok: bool)
    | Abort(id: nat)
    | Notify(id: nat)
    | Rearrange(now: seq<Rec>)

  const MAX_ID := 0xFFFF_FFFF_FFFF_FFFF

  // Calls are made on contexts that exist; keys are not the marker's; a confirmed write
  // needs a log that has not failed; flush and compaction rearrange the storage.
  ghost predicate Possible(s: Sys, e: Event)
  {
    match e
    case Begin(_) => s.mgr.nextId < MAX_ID
    case Write(id, key, value, removal, ok) => id in s.ctxs && key != [] && (ok ==> !s.broken) && (removal ==> value == [])
    case Get(id, key) => id in s.ctxs && key != []
    case Commit(id, order, ok) => id in s.ctxs && (ok ==> !s.broken) && OrderOf(order, s.ctxs[id].temp)
    case Abort(id) => id in s.ctxs
    case Notify(_) => true
    case Rearrange(now) => SameGroups(now, s.store)
  }

  function With(s: Sys, c: Ctx): Sys
  {
    s.(ctxs := s.ctxs[c.id as nat := c])
  }

  function DoBegin(s: Sys, level: IsolationLevel): Sys
    requires s.mgr.nextId <= MAX_ID
  {
    s.(mgr := Begun(s.mgr), ctxs := s.ctxs[s.mgr.nextId := NewCtx(s.mgr.nextId, level)])
  }

  // A finished transaction, or a record that cannot be logged, is an error without effect.
  function DoWrite(s: Sys, c: Ctx, key: Key, value: ByteString, removal: bool, ok: bool): Sys
    requires Over(c) || c.written <= |c.ops|
  {
    var r := WriteRecord(c, key, value, removal);
    if Over(c) || !WalRecords.Proper(r) then s
    else
      var d := Noted(c, r);
      if c.level != ReadUncommitted then With(s, Staged(d, key, value))
      else if !ok then With(s, d).(broken := true)
      else With(s, Sent(d).(trace := d.trace + [Wrote(key, value)])).(log := s.log + d.ops[d.written..], store := [Rec(key, value, c.id)] + s.store)
  }

  function DoGet(s: Sys, c: Ctx, key: Key): Sys
  {
    if Over(c) then s else With(s, AfterGet(c, key, s.store, s.mgr))
  }

  function DoCommit(s: Sys, c: Ctx, order: seq<Key>, ok: bool): Sys
    requires (Over(c) || c.written <= |c.ops|) && forall k :: k in order ==> k in c.temp
  {
    if Over(c) || HasEnding(c.ops) then s
    else if Conflict(c, s.store, s.mgr) then
      With(s, c.(aborted := true)).(mgr := Finished(s.mgr, c.id, TransactionState.Aborted))
    else
      var d := Noted(c, Record.Commit(c.id));
      if !ok then With(s, d).(broken := true)
      else
        With(s, Sent(d).(committed := true)).(log := s.log + d.ops[d.written..], store := Stack(CommitWrites(c, order), s.store),
                                              mgr := Finished(s.mgr, c.id, OpCommitted), history := s.history + [Sent(d).(committed := true)])
  }

  function DoAbort(s: Sys, c: Ctx): Sys
  {
    if Over(c) || HasEnding(c.ops) then s
    else With(s, c.(aborted := true, temp := map[], cache := map[], ops := [])).(mgr := Finished(s.mgr, c.id, TransactionState.Aborted))
  }

  // Contexts know their own ids and never claim to have sent more than they have.
  ghost predicate Formed(s: Sys)
  {
    && Checkpointed(s.mgr.flushed) && IdsRise(s.mgr.ready)
    && (forall id :: id in s.ctxs ==> FormedCtx(s, id))
    && (forall id :: id in s.mgr.active ==> id in s.ctxs) && (forall id :: id in s.mgr.aborted ==> id < s.mgr.nextId)
  }

  ghost predicate FormedCtx(s: Sys, id: nat)
    requires id in s.ctxs
  {
    var c := s.ctxs[id];
    && c.id == id < s.mgr.nextId && (!c.aborted ==> c.written <= |c.ops|) && !(c.committed && c.aborted)
    && (!Over(c) <==> id in s.mgr.active) && (c.aborted <==> id in s.mgr.aborted)
  }

  function Next(s: Sys, e: Event): Sys
    requires Formed(s) && Possible(s, e)
  {
    match e
    case Begin(level) => DoBegin(s, level)
    case Write(id, key, value, removal, ok) =>
      assert FormedCtx(s, id);
      DoWrite(s, s.ctxs[id], key, value, removal, ok)
    case Get(id, key) => DoGet(s, s.ctxs[id], key)
    case Commit(id, order, ok) =>
      assert FormedCtx(s, id);
      DoCommit(s, s.ctxs[id], order, ok)
    case Abort(id) => DoAbort(s, s.ctxs[id])
    case Notify(id) => s.(mgr := Notified(s.mgr, id))
    case Rearrange(now) => s.(store := now)
  }

  // Storage may hold older records and the manager older endings; no transaction runs yet.
  ghost predicate Initial(s: Sys)
  {
    && s.log == [] && !s.broken && s.ctxs == map[] && s.history == []
    && Checkpointed(s.mgr.flushed) && IdsRise(s.mgr.ready) && s.mgr.active == {}
    && (forall id :: id in s.mgr.aborted ==> id < s.mgr.nextId)
    && (forall i :: 0 <= i < |s.store| ==> s.store[i].ver < s.mgr.nextId)
  }

  // ---- Formed is kept ----

  lemma OneCtx(s: Sys, c: Ctx, t: Sys)
    requires Formed(s) && c.id as nat in s.ctxs && t.ctxs == s.ctxs[c.id as nat := c] && t.mgr == s.mgr
    requires FormedCtx(t, c.id)
    requires !Over(c) <==> !Over(s.ctxs[c.id as nat])
    ensures Formed(t)
  {
    forall id | id in t.ctxs
      ensures FormedCtx(t, id)
    {
      if id != c.id {
        assert FormedCtx(s, id);
      }
    }
  }

  lemma OneEnded(s: Sys, c: Ctx, t: Sys, state: TransactionState)
    requires Formed(s) && c.id as nat in s.ctxs && !Over(s.ctxs[c.id as nat]) && t.ctxs == s.ctxs[c.id as nat := c]
    requires t.mgr == Finished(s.mgr, c.id, state) && (!c.aborted ==> c.written <= |c.ops|)
    requires c.aborted == (state == TransactionState.Aborted) && c.committed == (state == OpCommitted)
    ensures Formed(t)
  {
    RegisterMeaning(s.mgr.ready, Ended(c.id, state));
    assert FormedCtx(s, c.id);
    forall id | id in t.ctxs
      ensures FormedCtx(t, id)
    {
      if id != c.id {
        assert FormedCtx(s, id);
      }
    }
  }

  lemma NextFormed(s: Sys, e: Event)
    requires Formed(s) && Possible(s, e)
    ensures Formed(Next(s, e))
  {
    match e
    case Begin(level) => BeginFormed(s, level);
    case Write(id, key, value, removal, ok) => WriteFormed(s, id, key, value, removal, ok);
    case Get(id, key) => GetFormed(s, id, key);
    case Commit(id, order, ok) => CommitFormed(s, id, order, ok);
    case Abort(id) => AbortFormed(s, id);
    case Notify(id) =>
      SweptKeeps(s.mgr.ready, s.mgr.flushed, id);
      SameCtxs(s, Next(s, e));
    case Rearrange(now) => SameCtxs(s, Next(s, e));
  }

  lemma WriteFormed(s: Sys, id: nat, key: Key, value: ByteString, removal: bool, ok: bool)
    requires Formed(s) && id in s.ctxs
    ensures !Over(s.ctxs[id]) ==> s.ctxs[id].written <= |s.ctxs[id].ops|
    ensures !Over(s.ctxs[id]) ==> Formed(DoWrite(s, s.ctxs[id], key, value, removal, ok))
  {
    assert FormedCtx(s, id);
    if !Over(s.ctxs[id]) {
      var t := DoWrite(s, s.ctxs[id], key, value, removal, ok);
      if t != s {
        OneCtx(s, t.ctxs[id], t);
      }
    }
  }

  lemma GetFormed(s: Sys, id: nat, key: Key)
    requires Formed(s) && id in s.ctxs
    ensures Formed(DoGet(s, s.ctxs[id], key))
  {
    assert FormedCtx(s, id);
    var t := DoGet(s, s.ctxs[id], key);
    if t != s {
      OneCtx(s, t.ctxs[id], t);
    }
  }

  lemma AbortFormed(s: Sys, id: nat)
    requires Formed(s) && id in s.ctxs
    ensures Formed(DoAbort(s, s.ctxs[id]))
  {
    assert FormedCtx(s, id);
    var t := DoAbort(s, s.ctxs[id]);
    if t != s {
      OneEnded(s, t.ctxs[id], t, TransactionState.Aborted);
    }
  }

  lemma CommitFormed(s: Sys, id: nat, order: seq<Key>, ok: bool)
    requires Formed(s) && id in s.ctxs && OrderOf(order, s.ctxs[id].temp)
    ensures !Over(s.ctxs[id]) ==> s.ctxs[id].written <= |s.ctxs[id].ops|
    ensures !Over(s.ctxs[id]) ==> Formed(DoCommit(s, s.ctxs[id], order, ok))
  {
    assert FormedCtx(s, id);
    var c := s.ctxs[id];
    if !Over(c) && !HasEnding(c.ops) {
      var t := DoCommit(s, c, order, ok);
      if Conflict(c, s.store, s.mgr) {
        OneEnded(s, t.ctxs[id], t, TransactionState.Aborted);
      } else if ok {
        OneEnded(s, t.ctxs[id], t, OpCommitted);
      } else {
        OneCtx(s, t.ctxs[id], t);
      }
    }
  }

  lemma SameCtxs(s: Sys, t: Sys)
    requires Formed(s) && t.ctxs == s.ctxs && Checkpointed(t.mgr.flushed) && IdsRise(t.mgr.ready)
    requires t.mgr.nextId == s.mgr.nextId && t.mgr.active == s.mgr.active && t.mgr.aborted == s.mgr.aborted
    ensures Formed(t)
  {
    forall id | id in t.ctxs
      ensures FormedCtx(t, id)
    {
      assert FormedCtx(s, id);
    }
  }

  // Ids are given out once.
  lemma BeginFormed(s: Sys, level: IsolationLevel)
    requires Formed(s) && s.mgr.nextId <= MAX_ID
    ensures s.mgr.nextId !in s.ctxs && Formed(DoBegin(s, level))
  {
    var t := DoBegin(s, level);
    forall id | id in s.ctxs
      ensures id != s.mgr.nextId
    {
      assert FormedCtx(s, id);
    }
    forall id | id in t.ctxs
      ensures FormedCtx(t, id)
    {
      if id != s.mgr.nextId {
        assert FormedCtx(s, id);
      }
    }
  }

  // ---- Runs ----

  ghost predicate Runs(s: Sys, es: seq<Event>)
    requires Initial(s)
    decreases |es|, 0
  {
    es == [] || (Runs(s, es[..|es| - 1]) && Possible(After(s, es[..|es| - 1]), es[|es| - 1]))
  }

  ghost function After(s: Sys, es: seq<Event>): (t: Sys)
    requires Initial(s) && Runs(s, es)
    ensures Formed(t)
    decreases |es|, 1
  {
    if es == [] then s
    else
      var mid := After(s, es[..|es| - 1]);
      NextFormed(mid, es[|es| - 1]);
      Next(mid, es[|es| - 1])
  }

  lemma {:induction false} RunsPrefix(s: Sys, es: seq<Event>, n: nat)
    requires Initial(s) && Runs(s, es) && n <= |es|
    ensures Runs(s, es[..n])
    decreases |es|
  {
    if n < |es| {
      RunsPrefix(s, es[..|es| - 1], n);
      assert es[..|es| - 1][..n] == es[..n];
    } else {
      assert es[..n] == es;
    }
  }
}
