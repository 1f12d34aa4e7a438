// What is lost when a commit goes through on a key whose value has changed since it was
// read.

module StaleWrites {
  import opened Bytes
  import opened Mvcc
  import opened MemTables
  import opened WalRecords
  import opened TranManagers
  import opened Transactions
  import opened WriteAheads
  import opened ReadSafeties
  import opened Serials

  // ---- What committed transactions did, told from their contexts ----

  // A stored record of the run is what its committed writer staged.
  ghost predicate StagedBy(ctxs: map<nat, Ctx>, first: nat, r: Rec)
  {
    r.ver >= first && r.key != [] ==>
      r.ver in ctxs && ctxs[r.ver].committed && r.key in ctxs[r.ver].temp && ctxs[r.ver].temp[r.key] == r.value
  }

  ghost predicate Traced(s: Sys, first: nat)
  {
    && (forall i :: 0 <= i < |s.history| ==> Tells(s.history[i]))
    && (forall i :: 0 <= i < |s.store| ==> StagedBy(s.ctxs, first, s.store[i]))
  }

  lemma SameTells(c: Ctx, d: Ctx)
    requires Tells(c) && d.temp == c.temp && d.cache == c.cache && d.trace == c.trace
    ensures Tells(d)
  {
    forall db
      ensures PlaysOn(d, db)
    {
      assert PlaysOn(c, db);
    }
  }

  // A finished context is final.
  lemma StaysTraced(s: Sys, t: Sys, first: nat)
    requires Traced(s, first) && t.store == s.store && t.history == s.history && AllGrown(s.ctxs, t.ctxs)
    ensures Traced(t, first)
  {
    forall i | 0 <= i < |t.store|
      ensures StagedBy(t.ctxs, first, t.store[i])
    {
      var r := s.store[i];
      assert StagedBy(s.ctxs, first, r);
      assert r.ver in s.ctxs ==> Grown(s.ctxs[r.ver], t.ctxs[r.ver]);
    }
  }

  lemma CommitTraced(s: Sys, c: Ctx, order: seq<Key>, first: nat)
    requires Formed(s) && Traced(s, first) && c.id as nat in s.ctxs && s.ctxs[c.id as nat] == c && Tells(c) && Repeats(c.level)
    requires c.written <= |c.ops| && OrderOf(order, c.temp) && Commits(s, c, true)
    ensures Traced(DoCommit(s, c, order, true), first)
  {
    var t := DoCommit(s, c, order, true);
    CommitGrown(s, c, order, true);
    SameTells(c, t.ctxs[c.id as nat]);
    forall i | 0 <= i < |t.store|
      ensures StagedBy(t.ctxs, first, t.store[i])
    {
      var r := t.store[i];
      StackHas(CommitWrites(c, order), s.store, r);
      if r in CommitWrites(c, order) {
        var k :| 0 <= k < |CommitWrites(c, order)| && CommitWrites(c, order)[k] == r;
      } else {
        var j :| 0 <= j < |s.store| && s.store[j] == r;
        assert StagedBy(s.ctxs, first, s.store[j]);
        assert r.ver in s.ctxs ==> Grown(s.ctxs[r.ver], t.ctxs[r.ver]);
      }
    }
  }

  lemma RearrangeTraced(s: Sys, now: seq<Rec>, first: nat)
    requires Traced(s, first) && SameGroups(now, s.store)
    ensures Traced(s.(store := now), first)
  {
    forall i | 0 <= i < |now|
      ensures StagedBy(s.ctxs, first, now[i])
    {
      SameGroupsHas(now, s.store, now[i]);
      var j :| 0 <= j < |s.store| && s.store[j] == now[i];
      assert StagedBy(s.ctxs, first, s.store[j]);
    }
  }

  lemma NextTraced(s: Sys, e: Transactions.Event, first: nat, base: set<nat>, db: Db)
    requires Formed(s) && Possible(s, e) && Serial(s, first, base, db) && Traced(s, first)
    ensures Traced(Next(s, e), first)
  {
    NextGrown(s, e);
    if e.Commit? && Commits(s, s.ctxs[e.id], e.ok) {
      assert FormedCtx(s, e.id);
      CommitTraced(s, s.ctxs[e.id], e.order, first);
    } else if e.Rearrange? {
      RearrangeTraced(s, e.now, first);
    } else {
      QuietStep(s, e, first, base, db);
      StaysTraced(s, Next(s, e), first);
    }
  }

  // Only commits and rearrangements touch storage when every transaction stages.
  lemma QuietStep(s: Sys, e: Transactions.Event, first: nat, base: set<nat>, db: Db)
    requires Formed(s) && Possible(s, e) && Serial(s, first, base, db)
    requires !e.Rearrange? && (e.Commit? ==> !Commits(s, s.ctxs[e.id], e.ok))
    ensures Next(s, e).store == s.store && Next(s, e).history == s.history
  {
    if e.Write? {
      assert FormedCtx(s, e.id);
    }
  }

  lemma {:induction false} RunTraced(s: Sys, es: seq<Transactions.Event>)
    requires Initial(s) && Runs(s, es) && AllRepeat(es)
    ensures Traced(Transactions.After(s, es), s.mgr.nextId)
    decreases |es|
  {
    if es != [] {
      var front := es[..|es| - 1];
      RunTraced(s, front);
      RunSerial(s, front);
      NextTraced(Transactions.After(s, front), es[|es| - 1], s.mgr.nextId, s.mgr.aborted, DbOf(s));
    }
  }

  // The history only grows.
  lemma {:induction false} HistoryGrows(s: Sys, es: seq<Transactions.Event>, n: nat)
    requires Initial(s) && Runs(s, es) && n <= |es|
    ensures Runs(s, es[..n]) && Transactions.After(s, es[..n]).history <= Transactions.After(s, es).history
    decreases |es|
  {
    if n < |es| {
      var front := es[..|es| - 1];
      HistoryGrows(s, front, n);
      assert front[..n] == es[..n];
      OneLonger(Transactions.After(s, front), es[|es| - 1]);
    } else {
      assert es[..n] == es;
    }
  }

  lemma OneLonger(s: Sys, e: Transactions.Event)
    requires Formed(s) && Possible(s, e)
    ensures s.history <= Next(s, e).history
  {
  }

  // ---- Any order of the same transactions ----

  ghost predicate Reordered(p: seq<Ctx>, h: seq<Ctx>)
  {
    (forall c :: c in p <==> c in h) && forall i, j :: 0 <= i < j < |p| ==> p[i].id != p[j].id
  }

  ghost predicate NoneWrites(p: seq<Ctx>, key: Key)
  {
    forall i :: 0 <= i < |p| ==> key !in p[i].temp
  }

  // The last to write a key leaves its value.
  lemma {:induction false} LastWrites(db: Db, p: seq<Ctx>, i: nat, key: Key)
    requires i < |p| && (forall k :: 0 <= k < |p| ==> Tells(p[k])) && key in p[i].temp && NoneWrites(p[i + 1..], key)
    ensures Value(PlayAll(db, p), key) == p[i].temp[key]
    decreases |p|
  {
    var front, last := p[..|p| - 1], p[|p| - 1];
    assert PlaysOn(last, PlayAll(db, front));
    if i < |p| - 1 {
      var rest, less := p[i + 1..], front[i + 1..];
      assert last == rest[|rest| - 1];
      forall k | 0 <= k < |less|
        ensures key !in less[k].temp
      {
        assert less[k] == rest[k];
      }
      LastWrites(db, front, i, key);
    }
  }

  // Each plays on what those before it leave.
  lemma {:induction false} PlaysInTurn(db: Db, p: seq<Ctx>, i: nat)
    requires PlaysAll(db, p) && i < |p|
    ensures Plays(PlayAll(db, p[..i]), p[i].trace)
    decreases |p|
  {
    if i < |p| - 1 {
      var front := p[..|p| - 1];
      PlaysInTurn(db, front, i);
      assert front[..i] == p[..i];
    }
  }

  // Of these transactions two write the key, and one of them read it before.
  ghost predicate TwoWrite(c: Ctx, d: Ctx, h: seq<Ctx>, key: Key)
  {
    && c in h && d in h && c.id != d.id && key in c.temp && key in d.temp && key in c.cache
    && (forall x :: x in h ==> Tells(x)) && (forall x :: x in h && key in x.temp ==> x == c || x == d)
  }

  // What the second of them leaves is left at last.
  lemma LeavesLast(db: Db, p: seq<Ctx>, h: seq<Ctx>, c: Ctx, d: Ctx, key: Key, i: nat, j: nat, n: nat)
    requires TwoWrite(c, d, h, key) && Reordered(p, h) && i < |p| && n <= |p|
    requires (p[i] == c && (j < i ==> p[j] == d)) || (p[i] == d && (j < i ==> p[j] == c))
    requires i < n && forall k :: i < k < n ==> p[k] != c && p[k] != d
    ensures Value(PlayAll(db, p[..n]), key) == p[i].temp[key]
  {
    var front := p[..n];
    var rest := front[i + 1..];
    forall k | 0 <= k < |rest|
      ensures key !in rest[k].temp
    {
      assert rest[k] == p[i + 1 + k] && p[i + 1 + k] in p;
    }
    forall k | 0 <= k < |front|
      ensures Tells(front[k])
    {
      assert front[k] in p;
    }
    LastWrites(db, front, i, key);
  }

  // Behind d, c reads what d wrote.
  lemma ReadsBehind(db: Db, p: seq<Ctx>, h: seq<Ctx>, c: Ctx, d: Ctx, key: Key, i: nat, j: nat)
    requires TwoWrite(c, d, h, key) && Reordered(p, h) && i < j < |p| && p[i] == d && p[j] == c && PlaysAll(db, p)
    ensures ValueOf(c.cache[key]) == d.temp[key]
  {
    PlaysInTurn(db, p, j);
    LeavesLast(db, p, h, c, d, key, i, j, j);
    assert PlaysOn(c, PlayAll(db, p[..j]));
    assert key in c.cache;
  }

  // So no order of the same transactions lets every read get what it got and leaves what
  // the commit order left, where d came first.
  lemma NoOrderExplains(db: Db, p: seq<Ctx>, h: seq<Ctx>, c: Ctx, d: Ctx, key: Key, i: nat, j: nat)
    requires TwoWrite(c, d, h, key) && ValueOf(c.cache[key]) != d.temp[key] && c.temp[key] != d.temp[key]
    requires Reordered(h, h) && Reordered(p, h) && i < j < |h| && h[i] == d && h[j] == c
    ensures !(PlaysAll(db, p) && Value(PlayAll(db, p), key) == Value(PlayAll(db, h), key))
  {
    LeavesLast(db, h, h, c, d, key, j, i, |h|);
    assert h[..|h|] == h && p[..|p|] == p;
    assert c in p && d in p;
    var x :| 0 <= x < |p| && p[x] == c;
    var y :| 0 <= y < |p| && p[y] == d;
    if y < x {
      if PlaysAll(db, p) {
        ReadsBehind(db, p, h, c, d, key, y, x);
      }
    } else {
      LeavesLast(db, p, h, c, d, key, y, x, |p|);
    }
  }

  // ---- The lost update ----

  // A commit that goes through on a key it read and writes, though a transaction of the
  // run has changed the value in between.
  ghost predicate Stale(m: Sys, e: Transactions.Event, first: nat, key: Key)
    requires Possible(m, e)
  {
    e.Commit? && Commits(m, m.ctxs[e.id], e.ok) &&
    var c, now := m.ctxs[e.id], Latest(m.store, key, m.mgr);
    && key != [] && key in c.cache && key in c.temp
    && now.Some? && now.value.ver >= first && now.value.value != ValueOf(c.cache[key])
  }

  // What is known of the state such a commit finds.
  ghost predicate Known(m: Sys, first: nat)
  {
    forall n :: Opened(n) ==>
                  Formed(m) && Listed(m) && Traced(m, first) && forall id :: id in m.ctxs ==> Repeats(m.ctxs[id].level)
  }

  lemma RunKnown(s: Sys, es: seq<Transactions.Event>)
    requires Initial(s) && Runs(s, es) && AllRepeat(es)
    ensures Known(Transactions.After(s, es), s.mgr.nextId)
  {
    RunSerial(s, es);
    RunTraced(s, es);
  }

  lemma OlderAt(m: Sys, e: Transactions.Event, first: nat, key: Key)
    requires Known(m, first) && Possible(m, e) && Stale(m, e, first, key)
    ensures var now := Latest(m.store, key, m.mgr).value;
            && now.ver < e.id && now.ver in m.ctxs && m.ctxs[now.ver].id == now.ver && m.ctxs[now.ver] in m.history
            && key in m.ctxs[now.ver].temp && m.ctxs[now.ver].temp[key] == now.value
  {
    assert Opened(0);
    var c, now := m.ctxs[e.id], Latest(m.store, key, m.mgr).value;
    BestIsEligible(m.store, Query(key, 0, m.mgr.aborted));
    var i :| 0 <= i < |m.store| && m.store[i] == now;
    assert StagedBy(m.ctxs, first, m.store[i]);
    assert FormedCtx(m, e.id) && FormedCtx(m, now.ver);
    assert !Overtaken(c, key, m.store, m.mgr);
  }

  // The update that is lost was made by a committed transaction with a smaller id.
  lemma LostIsOlder(s: Sys, es: seq<Transactions.Event>, e: Transactions.Event, key: Key)
    requires Initial(s) && Runs(s, es) && AllRepeat(es) && Possible(Transactions.After(s, es), e)
    requires Stale(Transactions.After(s, es), e, s.mgr.nextId, key)
    ensures var m := Transactions.After(s, es); var now := Latest(m.store, key, m.mgr).value;
            && now.ver < e.id && now.ver in m.ctxs && m.ctxs[now.ver] in m.history
            && key in m.ctxs[now.ver].temp && m.ctxs[now.ver].temp[key] == now.value
  {
    RunKnown(s, es);
    OlderAt(Transactions.After(s, es), e, s.mgr.nextId, key);
  }

  // The history h goes on from the state right after such a commit.
  lemma LostAt(m: Sys, e: Transactions.Event, first: nat, key: Key, h: seq<Ctx>, db: Db, p: seq<Ctx>)
    requires Known(m, first) && Possible(m, e) && Formed(m) && Stale(m, e, first, key) && Next(m, e).history <= h
    requires (forall i :: 0 <= i < |h| ==> Tells(h[i])) && forall i, j :: 0 <= i < j < |h| ==> h[i].id != h[j].id
    requires var now := Latest(m.store, key, m.mgr).value;
             && m.ctxs[e.id].temp[key] != now.value && Reordered(p, h)
             && forall x :: x in h && key in x.temp ==> x.id as nat in {e.id, now.ver}
    ensures !(PlaysAll(db, p) && Value(PlayAll(db, p), key) == Value(PlayAll(db, h), key))
  {
    OlderAt(m, e, first, key);
    var c := CommittedAs(m, e);
    var d := m.ctxs[Latest(m.store, key, m.mgr).value.ver];
    var i :| 0 <= i < |m.history| && m.history[i] == d;
    assert h[i] == d && h[|m.history|] == c;
    TwoWriteHere(h, c, d, key);
    NoOrderExplains(db, p, h, c, d, key, i, |m.history|);
  }

  lemma CommittedAs(m: Sys, e: Transactions.Event) returns (c: Ctx)
    requires Formed(m) && Possible(m, e) && e.Commit? && Commits(m, m.ctxs[e.id], e.ok)
    ensures Next(m, e).history == m.history + [c] && c.id as nat == e.id
    ensures c.temp == m.ctxs[e.id].temp && c.cache == m.ctxs[e.id].cache
  {
    assert FormedCtx(m, e.id);
    c := Next(m, e).history[|m.history|];
  }

  // If these two are the only ones to write the key, and leave different values, then no
  // order of the committed transactions explains both what they read and what is left.
  lemma LostUpdate(s: Sys, es: seq<Transactions.Event>, n: nat, key: Key, p: seq<Ctx>)
    requires Initial(s) && Runs(s, es) && AllRepeat(es) && n < |es| && Runs(s, es[..n])
    requires Possible(Transactions.After(s, es[..n]), es[n]) && Stale(Transactions.After(s, es[..n]), es[n], s.mgr.nextId, key)
    requires var m, h := Transactions.After(s, es[..n]), Transactions.After(s, es).history; var now := Latest(m.store, key, m.mgr).value;
             && m.ctxs[es[n].id].temp[key] != now.value && Reordered(p, h)
             && forall x :: x in h && key in x.temp ==> x.id as nat in {es[n].id, now.ver}
    ensures var db, h := DbOf(s), Transactions.After(s, es).history;
            !(PlaysAll(db, p) && Value(PlayAll(db, p), key) == Value(PlayAll(db, h), key))
  {
    RunKnown(s, es[..n]);
    HistoryGoesOn(s, es, n);
    assert Formed(Transactions.After(s, es[..n]));
    LostAt(Transactions.After(s, es[..n]), es[n], s.mgr.nextId, key, Transactions.After(s, es).history, DbOf(s), p);
  }

  lemma HistoryGoesOn(s: Sys, es: seq<Transactions.Event>, n: nat)
    requires Initial(s) && Runs(s, es) && AllRepeat(es) && n < |es| && Runs(s, es[..n]) && Possible(Transactions.After(s, es[..n]), es[n])
    ensures Formed(Transactions.After(s, es[..n])) && Next(Transactions.After(s, es[..n]), es[n]).history <= Transactions.After(s, es).history
    ensures var h := Transactions.After(s, es).history;
            (forall i :: 0 <= i < |h| ==> Tells(h[i])) && forall i, j :: 0 <= i < j < |h| ==> h[i].id != h[j].id
  {
    assert es[..n + 1][..n] == es[..n] && es[..n + 1][n] == es[n];
    HistoryGrows(s, es, n + 1);
    RunTraced(s, es);
    HistoryIsCommitted(s, es);
  }

  lemma TwoWriteHere(h: seq<Ctx>, c: Ctx, d: Ctx, key: Key)
    requires c in h && d in h && c.id != d.id && key in c.temp && key in d.temp && key in c.cache
    requires forall i :: 0 <= i < |h| ==> Tells(h[i])
    requires forall i, j :: 0 <= i < j < |h| ==> h[i].id != h[j].id
    requires forall x :: x in h && key in x.temp ==> x.id == c.id || x.id == d.id
    ensures TwoWrite(c, d, h, key) && Reordered(h, h)
  {
    forall x | x in h
      ensures Tells(x) && (x.id == c.id ==> x == c) && (x.id == d.id ==> x == d)
    {
      var i :| 0 <= i < |h| && h[i] == x;
      var j :| 0 <= j < |h| && h[j] == c;
      var k :| 0 <= k < |h| && h[k] == d;
    }
  }
}
