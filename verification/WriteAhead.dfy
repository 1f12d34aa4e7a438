// Write-ahead discipline: what the log holds of every transaction, over whole runs.

module WriteAheads {
  import opened Bytes
  import opened Mvcc
  import opened WalRecords
  import opened TranManagers
  import opened MemTables
  import opened Transactions

  // What the log holds of one transaction.
  function LogOf(log: seq<Record>, id: nat): seq<Record>
  {
    if log == [] then [] else (if log[0].id == id then [log[0]] else []) + LogOf(log[1..], id)
  }

  lemma {:induction false} LogOfAppend(a: seq<Record>, b: seq<Record>, id: nat)
    ensures LogOf(a + b, id) == LogOf(a, id) + LogOf(b, id)
  {
    if a == [] {
      assert a + b == b;
    } else {
      assert (a + b)[1..] == a[1..] + b;
      LogOfAppend(a[1..], b, id);
    }
  }

  ghost predicate OwnIds(rs: seq<Record>, id: nat)
  {
    forall i :: 0 <= i < |rs| ==> rs[i].id == id
  }

  lemma {:induction false} LogOfOwn(rs: seq<Record>, id: nat, x: nat)
    requires OwnIds(rs, id)
    ensures LogOf(rs, x) == if x == id then rs else []
  {
    if rs != [] {
      LogOfOwn(rs[1..], id, x);
      assert rs == [rs[0]] + rs[1..];
    }
  }

  ghost predicate OneEnding(rs: seq<Record>)
  {
    forall i, j :: 0 <= i < j < |rs| ==> !(Ending(rs[i]) && Ending(rs[j]))
  }

  // Some record says what storage holds: a put, or a deletion for a tombstone.
  predicate Says(w: Record, r: Rec)
  {
    w.id == r.ver && ((w.Put? && w.key == r.key && w.value == r.value) || (w.Delete? && w.key == r.key && r.value == []))
  }

  ghost predicate Backed(rs: seq<Record>, r: Rec)
  {
    exists i :: 0 <= i < |rs| && Says(rs[i], r)
  }

  lemma BackedMore(a: seq<Record>, b: seq<Record>, r: Rec)
    requires Backed(a, r) || Backed(b, r)
    ensures Backed(a + b, r)
  {
    if Backed(a, r) {
      var i :| 0 <= i < |a| && Says(a[i], r);
      assert (a + b)[i] == a[i];
    } else {
      var i :| 0 <= i < |b| && Says(b[i], r);
      assert (a + b)[|a| + i] == b[i];
    }
  }

  ghost predicate TempBacked(c: Ctx)
  {
    forall k :: k in c.temp ==> Backed(c.ops, Rec(k, c.temp[k], c.id))
  }

  // ---- One transaction and the log ----

  // An unfinished one has sent exactly the records it counts, in order, and no ending
  // yet; an ending noted but not sent means the log has failed.
  ghost predicate Underway(log: seq<Record>, broken: bool, c: Ctx)
  {
    && c.written <= |c.ops| && LogOf(log, c.id) == c.ops[..c.written]
    && !HasEnding(c.ops[..c.written]) && (HasEnding(c.ops) ==> broken)
    && c.ops != [] && c.ops[0] == Create(c.id) && TempBacked(c)
  }

  // A committed one has sent everything, its ending last.
  ghost predicate Complete(log: seq<Record>, c: Ctx)
  {
    && LogOf(log, c.id) == c.ops && c.ops != [] && c.ops[0] == Create(c.id)
    && c.ops[|c.ops| - 1] == Record.Commit(c.id) && !HasEnding(c.ops[..|c.ops| - 1])
  }

  ghost predicate LoggedCtx(log: seq<Record>, broken: bool, c: Ctx)
  {
    && OwnIds(c.ops, c.id)
    && (!Over(c) ==> Underway(log, broken, c))
    && (c.committed ==> Complete(log, c))
    && (c.aborted ==> !HasEnding(LogOf(log, c.id)))
  }

  // ---- The whole system ----

  ghost predicate Logged(s: Sys)
  {
    && (forall id :: id in s.ctxs ==> s.ctxs[id].id == id && LoggedCtx(s.log, s.broken, s.ctxs[id]))
    && (forall i :: 0 <= i < |s.log| ==> s.log[i].id in s.ctxs)
  }

  // A stored record has its cause in the log: the write, and for staged writes and
  // markers the commit.
  ghost predicate Caused(log: seq<Record>, ctxs: map<nat, Ctx>, r: Rec)
  {
    && r.ver in ctxs
    && (r.key != [] ==> Backed(log, r))
    && (r.key == [] || ctxs[r.ver].level != ReadUncommitted ==> CommitIn(log, r.ver))
  }

  ghost predicate CommitIn(log: seq<Record>, id: nat)
  {
    exists i :: 0 <= i < |log| && log[i].Commit? && log[i].id == id
  }

  ghost predicate AllCaused(store: seq<Rec>, log: seq<Record>, ctxs: map<nat, Ctx>, first: nat)
  {
    forall i :: 0 <= i < |store| && store[i].ver >= first ==> Caused(log, ctxs, store[i])
  }

  lemma LogUnchanged(s: Sys, d: Ctx, t: Sys)
    requires Formed(s) && Logged(s) && d.id as nat in s.ctxs && t.ctxs == s.ctxs[d.id as nat := d] && t.log == s.log
    requires s.broken ==> t.broken
    requires LoggedCtx(t.log, t.broken, d)
    ensures Logged(t)
  {
  }

  lemma NoneOf(log: seq<Record>, ctxs: map<nat, Ctx>, id: nat)
    requires id !in ctxs && forall i :: 0 <= i < |log| ==> log[i].id in ctxs
    ensures LogOf(log, id) == []
  {
    if log != [] {
      NoneOf(log[1..], ctxs, id);
    }
  }

  // Sending what is noted: the log then holds exactly the notes of this transaction, and
  // of every other one what it held.
  lemma SendMeaning(log: seq<Record>, ops: seq<Record>, written: nat, id: nat, x: nat)
    requires written <= |ops| && OwnIds(ops, id) && LogOf(log, id) == ops[..written]
    ensures LogOf(log + ops[written..], x) == if x == id then ops else LogOf(log, x)
  {
    LogOfAppend(log, ops[written..], x);
    LogOfOwn(ops[written..], id, x);
    assert ops == ops[..written] + ops[written..];
  }

  // A note that is not sent.
  lemma NotSent(log: seq<Record>, broken: bool, c: Ctx, d: Ctx, now: bool, w: Record)
    requires LoggedCtx(log, broken, c) && !Over(c) && !Over(d) && d.id == c.id == w.id && d.written == c.written
    requires d.ops == c.ops + [w] && TempBacked(d) && (HasEnding(d.ops) ==> now)
    ensures LoggedCtx(log, now, d)
  {
    assert d.ops[..c.written] == c.ops[..c.written];
  }

  lemma LogSent(s: Sys, c: Ctx, d: Ctx, t: Sys)
    requires Formed(s) && Logged(s) && c.id as nat in s.ctxs && s.ctxs[c.id as nat] == c && !Over(c) && d.id == c.id
    requires c.written <= |c.ops| && c.ops <= d.ops && OwnIds(d.ops, d.id)
    requires t.ctxs == s.ctxs[c.id as nat := d] && t.log == s.log + d.ops[c.written..] && t.broken == s.broken
    requires (!Over(d) ==> d.written == |d.ops| && !HasEnding(d.ops) && TempBacked(d))
    requires !d.aborted && (d.committed ==> EndsWell(d))
    ensures Logged(t)
  {
    assert LoggedCtx(s.log, s.broken, c) && d.ops[..c.written] == c.ops[..c.written];
    SendMeaning(s.log, d.ops, c.written, c.id, c.id);
    assert d.ops[..|d.ops|] == d.ops;
    forall id | id in t.ctxs
      ensures t.ctxs[id].id == id && LoggedCtx(t.log, t.broken, t.ctxs[id])
    {
      if id != c.id {
        assert LoggedCtx(s.log, s.broken, s.ctxs[id]);
        SendMeaning(s.log, d.ops, c.written, c.id, id);
      }
    }
  }

  ghost predicate EndsWell(d: Ctx)
  {
    d.ops != [] && d.ops[|d.ops| - 1] == Record.Commit(d.id) && !HasEnding(d.ops[..|d.ops| - 1])
  }

  // ---- Noting a write ----

  lemma NotedWrite(c: Ctx, key: Key, value: ByteString, removal: bool)
    requires OwnIds(c.ops, c.id) && (removal ==> value == [])
    ensures var w := WriteRecord(c, key, value, removal);
            && OwnIds(Noted(c, w).ops, c.id) && Backed(Noted(c, w).ops, Rec(key, value, c.id))
            && (HasEnding(Noted(c, w).ops) ==> HasEnding(c.ops))
            && (TempBacked(c) ==> TempBacked(Noted(c, w)) && TempBacked(Staged(Noted(c, w), key, value)))
  {
    var w := WriteRecord(c, key, value, removal);
    var d := Noted(c, w);
    assert d.ops[|c.ops|] == w && Says(w, Rec(key, value, c.id));
    if TempBacked(c) {
      forall k | k in c.temp
        ensures Backed(d.ops, Rec(k, c.temp[k], c.id))
      {
        BackedMore(c.ops, [w], Rec(k, c.temp[k], c.id));
      }
    }
  }

  lemma WriteLogged(s: Sys, c: Ctx, key: Key, value: ByteString, removal: bool, ok: bool)
    requires Formed(s) && Logged(s) && c.id as nat in s.ctxs && s.ctxs[c.id as nat] == c && !Over(c) && c.written <= |c.ops|
    requires (ok ==> !s.broken) && (removal ==> value == [])
    ensures Logged(DoWrite(s, c, key, value, removal, ok))
  {
    var w := WriteRecord(c, key, value, removal);
    var t := DoWrite(s, c, key, value, removal, ok);
    if WalRecords.Proper(w) {
      assert LoggedCtx(s.log, s.broken, c);
      NotedWrite(c, key, value, removal);
      var d := t.ctxs[c.id as nat];
      if c.level != ReadUncommitted || !ok {
        NotSent(s.log, s.broken, c, d, t.broken, w);
        LogUnchanged(s, d, t);
      } else {
        LogSent(s, c, d, t);
      }
    }
  }

  lemma CommitLogged(s: Sys, c: Ctx, order: seq<Key>, ok: bool)
    requires Formed(s) && Logged(s) && c.id as nat in s.ctxs && s.ctxs[c.id as nat] == c && !Over(c) && c.written <= |c.ops|
    requires (ok ==> !s.broken) && OrderOf(order, c.temp)
    ensures Logged(DoCommit(s, c, order, ok))
  {
    var t := DoCommit(s, c, order, ok);
    if !HasEnding(c.ops) {
      assert LoggedCtx(s.log, s.broken, c);
      var d := t.ctxs[c.id as nat];
      if Conflict(c, s.store, s.mgr) {
        LogUnchanged(s, d, t);
      } else {
        if ok {
          assert d.ops[..|c.ops|] == c.ops;
          LogSent(s, c, d, t);
        } else {
          assert TempBacked(d) by {
            forall k | k in c.temp
              ensures Backed(d.ops, Rec(k, c.temp[k], c.id))
            {
              BackedMore(c.ops, [Record.Commit(c.id)], Rec(k, c.temp[k], c.id));
            }
          }
          NotSent(s.log, s.broken, c, d, t.broken, Record.Commit(c.id));
          LogUnchanged(s, d, t);
        }
      }
    }
  }

  lemma BeginLogged(s: Sys, level: IsolationLevel)
    requires Formed(s) && Logged(s) && s.mgr.nextId <= MAX_ID
    ensures Logged(DoBegin(s, level))
  {
    BeginFormed(s, level);
    NoneOf(s.log, s.ctxs, s.mgr.nextId);
    var t := DoBegin(s, level);
    forall id | id in t.ctxs
      ensures t.ctxs[id].id == id && LoggedCtx(t.log, t.broken, t.ctxs[id])
    {
      if id != s.mgr.nextId {
        assert LoggedCtx(s.log, s.broken, s.ctxs[id]);
      }
    }
  }

  lemma NextLogged(s: Sys, e: Transactions.Event)
    requires Formed(s) && Logged(s) && Possible(s, e)
    ensures Logged(Next(s, e))
  {
    match e
    case Begin(level) => BeginLogged(s, level);
    case Write(id, key, value, removal, ok) =>
      if !Over(s.ctxs[id]) {
        assert FormedCtx(s, id);
        WriteLogged(s, s.ctxs[id], key, value, removal, ok);
      }
    case Get(id, key) =>
      if !Over(s.ctxs[id]) {
        LogUnchanged(s, AfterGet(s.ctxs[id], key, s.store, s.mgr), DoGet(s, s.ctxs[id], key));
      }
    case Commit(id, order, ok) =>
      if !Over(s.ctxs[id]) {
        assert FormedCtx(s, id);
        CommitLogged(s, s.ctxs[id], order, ok);
      }
    case Abort(id) =>
      var t := DoAbort(s, s.ctxs[id]);
      if t != s {
        LogUnchanged(s, t.ctxs[id], t);
      }
    case Notify(id) =>
    case Rearrange(now) =>
  }

  // ---- What storage holds ----

  lemma CausedMore(log: seq<Record>, ctxs: map<nat, Ctx>, more: seq<Record>, now: map<nat, Ctx>, r: Rec)
    requires Caused(log, ctxs, r) && r.ver in now && now[r.ver].level == ctxs[r.ver].level
    ensures Caused(log + more, now, r)
  {
    if Backed(log, r) {
      BackedMore(log, more, r);
    }
    if CommitIn(log, r.ver) {
      CommitStays(log, more, r.ver);
    }
  }

  lemma CommitStays(log: seq<Record>, more: seq<Record>, id: nat)
    requires CommitIn(log, id) || CommitIn(more, id)
    ensures CommitIn(log + more, id)
  {
    if CommitIn(log, id) {
      var i :| 0 <= i < |log| && log[i].Commit? && log[i].id == id;
      assert (log + more)[i] == log[i];
    } else {
      var i :| 0 <= i < |more| && more[i].Commit? && more[i].id == id;
      assert (log + more)[|log| + i] == more[i];
    }
  }

  lemma {:induction false} BackedInLog(log: seq<Record>, id: nat, r: Rec)
    requires Backed(LogOf(log, id), r)
    ensures Backed(log, r)
  {
    if log != [] {
      var front := if log[0].id == id then [log[0]] else [];
      var i :| 0 <= i < |LogOf(log, id)| && Says(LogOf(log, id)[i], r);
      if i < |front| {
        assert Says(log[0], r);
      } else {
        assert Says(LogOf(log[1..], id)[i - |front|], r);
        BackedInLog(log[1..], id, r);
        BackedMore([log[0]], log[1..], r);
        assert log == [log[0]] + log[1..];
      }
    }
  }

  lemma {:induction false} StackHas(rs: seq<Rec>, was: seq<Rec>, r: Rec)
    requires r in Stack(rs, was)
    ensures r in rs || r in was
  {
    if rs != [] {
      StackHas(rs[1..], [rs[0]] + was, r);
    }
  }

  lemma SameGroupsHas(s: seq<Rec>, t: seq<Rec>, r: Rec)
    requires SameGroups(s, t) && r in s
    ensures r in t
  {
    GroupHas(s, r.key, r.ver, r);
    GroupHas(t, r.key, r.ver, r);
  }

  lemma {:induction false} GroupHas(s: seq<Rec>, k: Key, v: nat, r: Rec)
    ensures r in Group(s, k, v) <==> r in s && r.key == k && r.ver == v
  {
    if s != [] {
      GroupHas(s[1..], k, v, r);
      assert s == [s[0]] + s[1..];
    }
  }

  // No step changes the level of a transaction.
  ghost predicate SameLevels(ctxs: map<nat, Ctx>, now: map<nat, Ctx>)
  {
    forall id :: id in ctxs ==> id in now && now[id].level == ctxs[id].level
  }

  lemma OneLevel(ctxs: map<nat, Ctx>, d: Ctx)
    requires d.id as nat in ctxs && d.level == ctxs[d.id as nat].level
    ensures SameLevels(ctxs, ctxs[d.id as nat := d])
  {
  }

  lemma AllCausedMore(store: seq<Rec>, log: seq<Record>, ctxs: map<nat, Ctx>, first: nat, more: seq<Record>, now: map<nat, Ctx>)
    requires AllCaused(store, log, ctxs, first) && SameLevels(ctxs, now)
    ensures AllCaused(store, log + more, now, first)
  {
    forall i | 0 <= i < |store| && store[i].ver >= first
      ensures Caused(log + more, now, store[i])
    {
      CausedMore(log, ctxs, more, now, store[i]);
    }
  }

  lemma WriteCaused(s: Sys, c: Ctx, key: Key, value: ByteString, removal: bool, ok: bool, first: nat)
    requires Formed(s) && AllCaused(s.store, s.log, s.ctxs, first)
    requires c.id as nat in s.ctxs && s.ctxs[c.id as nat] == c && c.written <= |c.ops| && key != [] && (removal ==> value == [])
    ensures var t := DoWrite(s, c, key, value, removal, ok); AllCaused(t.store, t.log, t.ctxs, first)
  {
    var t := DoWrite(s, c, key, value, removal, ok);
    var w := WriteRecord(c, key, value, removal);
    if !Over(c) && WalRecords.Proper(w) {
      var d := t.ctxs[c.id as nat];
      OneLevel(s.ctxs, d);
      if c.level != ReadUncommitted || !ok {
        SameCaused(s, t, first);
      } else {
        var more := d.ops[c.written..];
        AllCausedMore(s.store, s.log, s.ctxs, first, more, t.ctxs);
        var r := Rec(key, value, c.id);
        assert more[|more| - 1] == w && Says(w, r);
        BackedMore(s.log, more, r);
        assert Caused(t.log, t.ctxs, r);
      }
    }
  }

  lemma CommitCaused(s: Sys, c: Ctx, order: seq<Key>, ok: bool, first: nat)
    requires Formed(s) && Logged(s) && AllCaused(s.store, s.log, s.ctxs, first)
    requires c.id as nat in s.ctxs && s.ctxs[c.id as nat] == c && !Over(c) && c.written <= |c.ops| && OrderOf(order, c.temp)
    ensures var t := DoCommit(s, c, order, ok); AllCaused(t.store, t.log, t.ctxs, first)
  {
    var t := DoCommit(s, c, order, ok);
    if !HasEnding(c.ops) {
      var d := t.ctxs[c.id as nat];
      OneLevel(s.ctxs, d);
      if Conflict(c, s.store, s.mgr) || !ok {
        SameCaused(s, t, first);
      } else {
        var more := d.ops[c.written..];
        AllCausedMore(s.store, s.log, s.ctxs, first, more, t.ctxs);
        CommitSent(s, c);
        CommitApplied(c, order, s.store, t.log, t.ctxs, first);
      }
    }
  }

  lemma CommitSent(s: Sys, c: Ctx)
    requires Logged(s) && c.id as nat in s.ctxs && s.ctxs[c.id as nat] == c && !Over(c) && c.written <= |c.ops|
    ensures var d := Noted(c, Record.Commit(c.id)); var log := s.log + d.ops[c.written..];
            LogOf(log, c.id) == d.ops && CommitIn(log, c.id) && TempBacked(c)
  {
    assert LoggedCtx(s.log, s.broken, c);
    var d := Noted(c, Record.Commit(c.id));
    var more := d.ops[c.written..];
    assert d.ops[..c.written] == c.ops[..c.written];
    OwnIdsNoted(c);
    SendMeaning(s.log, d.ops, c.written, c.id, c.id);
    assert more[|more| - 1] == Record.Commit(c.id);
    CommitStays(s.log, more, c.id);
  }

  lemma CommitApplied(c: Ctx, order: seq<Key>, store: seq<Rec>, log: seq<Record>, ctxs: map<nat, Ctx>, first: nat)
    requires TempBacked(c) && OrderOf(order, c.temp) && c.id as nat in ctxs
    requires LogOf(log, c.id) == c.ops + [Record.Commit(c.id)] && CommitIn(log, c.id) && AllCaused(store, log, ctxs, first)
    ensures AllCaused(Stack(CommitWrites(c, order), store), log, ctxs, first)
  {
    var all := Stack(CommitWrites(c, order), store);
    forall i | 0 <= i < |all| && all[i].ver >= first
      ensures Caused(log, ctxs, all[i])
    {
      var r := all[i];
      StackHas(CommitWrites(c, order), store, r);
      if r in CommitWrites(c, order) {
        WriteIsBacked(c, order, r);
        if r.key != [] {
          BackedMore(c.ops, [Record.Commit(c.id)], r);
          BackedInLog(log, c.id, r);
        }
      } else {
        var j :| 0 <= j < |store| && store[j] == r;
      }
    }
  }

  lemma OwnIdsNoted(c: Ctx)
    requires OwnIds(c.ops, c.id)
    ensures OwnIds(Noted(c, Record.Commit(c.id)).ops, c.id)
  {
  }

  lemma WriteIsBacked(c: Ctx, order: seq<Key>, r: Rec)
    requires TempBacked(c) && OrderOf(order, c.temp) && r in CommitWrites(c, order)
    ensures r.ver == c.id && (r.key != [] ==> Backed(c.ops, r))
  {
    var rs := CommitWrites(c, order);
    var i :| 0 <= i < |rs| && rs[i] == r;
    var taken := if c.level == ReadUncommitted then [] else order;
    if i < |taken| {
      assert rs[i] == Rec(taken[i], c.temp[taken[i]], c.id);
    }
  }

  lemma NextCaused(s: Sys, e: Transactions.Event, first: nat)
    requires Formed(s) && Logged(s) && Possible(s, e) && AllCaused(s.store, s.log, s.ctxs, first)
    ensures var t := Next(s, e); AllCaused(t.store, t.log, t.ctxs, first)
  {
    match e
    case Begin(level) =>
      BeginFormed(s, level);
      SameCaused(s, DoBegin(s, level), first);
    case Write(id, key, value, removal, ok) =>
      if !Over(s.ctxs[id]) {
        assert FormedCtx(s, id);
        WriteCaused(s, s.ctxs[id], key, value, removal, ok, first);
      }
    case Get(id, key) => SameCaused(s, DoGet(s, s.ctxs[id], key), first);
    case Commit(id, order, ok) =>
      if !Over(s.ctxs[id]) {
        assert FormedCtx(s, id);
        CommitCaused(s, s.ctxs[id], order, ok, first);
      }
    case Abort(id) => SameCaused(s, DoAbort(s, s.ctxs[id]), first);
    case Notify(id) =>
    case Rearrange(now) =>
      forall i | 0 <= i < |now| && now[i].ver >= first
        ensures Caused(s.log, s.ctxs, now[i])
      {
        SameGroupsHas(now, s.store, now[i]);
      }
  }

  lemma SameCaused(s: Sys, t: Sys, first: nat)
    requires AllCaused(s.store, s.log, s.ctxs, first) && t.store == s.store && t.log == s.log && SameLevels(s.ctxs, t.ctxs)
    ensures AllCaused(t.store, t.log, t.ctxs, first)
  {
    AllCausedMore(s.store, s.log, s.ctxs, first, [], t.ctxs);
    assert s.log + [] == s.log;
  }

  // ---- Every run ----

  lemma {:induction false} RunLogged(s: Sys, es: seq<Transactions.Event>)
    requires Initial(s) && Runs(s, es)
    ensures var t := Transactions.After(s, es); Logged(t) && AllCaused(t.store, t.log, t.ctxs, s.mgr.nextId)
    decreases |es|
  {
    if es != [] {
      var front, last := es[..|es| - 1], es[|es| - 1];
      RunLogged(s, front);
      NextLogged(Transactions.After(s, front), last);
      NextCaused(Transactions.After(s, front), last, s.mgr.nextId);
    }
  }

  // Write-ahead discipline, in every state a run reaches: each record a transaction put
  // into storage has its PUT or DELETE in the log, and a staged one its COMMIT too.
  lemma StoredIsLogged(s: Sys, es: seq<Transactions.Event>, r: Rec)
    requires Initial(s) && Runs(s, es) && r in Transactions.After(s, es).store && r.ver >= s.mgr.nextId
    ensures var t := Transactions.After(s, es);
            && r.ver in t.ctxs
            && (r.key != [] ==> Backed(t.log, r))
            && (r.key == [] || t.ctxs[r.ver].level != ReadUncommitted ==> CommitIn(t.log, r.ver))
  {
    RunLogged(s, es);
    var t := Transactions.After(s, es);
    var i :| 0 <= i < |t.store| && t.store[i] == r;
    assert Caused(t.log, t.ctxs, t.store[i]);
  }

  // An unfinished context has sent exactly the records it counts, once and in order; a
  // committed one all of them; and no transaction has two endings in the log: a committed
  // one has one, the others none.
  lemma SentExactly(s: Sys, es: seq<Transactions.Event>, id: nat)
    requires Initial(s) && Runs(s, es) && id in Transactions.After(s, es).ctxs
    ensures var t := Transactions.After(s, es); var c := t.ctxs[id];
            && (!Over(c) ==> c.written <= |c.ops| && LogOf(t.log, id) == c.ops[..c.written])
            && (c.committed ==> LogOf(t.log, id) == c.ops)
            && (HasEnding(LogOf(t.log, id)) <==> c.committed) && OneEnding(LogOf(t.log, id))
  {
    RunLogged(s, es);
    var t := Transactions.After(s, es);
    var c := t.ctxs[id];
    assert LoggedCtx(t.log, t.broken, c) && FormedCtx(t, id);
    if c.committed {
      var n := |c.ops| - 1;
      assert Ending(c.ops[n]);
      forall i | 0 <= i < n
        ensures !Ending(c.ops[i])
      {
        assert c.ops[..n][i] == c.ops[i];
      }
    }
  }
}
