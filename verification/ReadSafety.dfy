// What reads may return while transactions run, end and are settled.

module ReadSafeties {
  import opened Bytes
  import opened Mvcc
  import opened Streams
  import opened TranManagers
  import opened Transactions
  import opened WriteAheads
  import Scans

  lemma BestIsEligible(s: seq<Rec>, q: Query)
    ensures Best(s, q).Some? ==> Eligible(Best(s, q).value, q) && Best(s, q).value in s
  {
    BestMeaning(s, q);
  }

  // A read of whatever stands for the storage, under the manager's present state.
  function Read(all: seq<Rec>, m: Mgr, key: Key, bound: nat, strict: bool): Option<Rec>
  {
    Mvcc.Visible(Best(all, Query(key, bound, SkipSet(m, strict))))
  }

  // From before the run, or of a transaction that has committed.
  ghost predicate Lasting(ctxs: map<nat, Ctx>, first: nat, ver: nat)
  {
    ver < first || (ver in ctxs && ctxs[ver].committed)
  }

  // Strict reads: never of a transaction active or rolled back at that moment, so only
  // of one that committed.
  lemma StrictReadIsCommitted(s: Sys, es: seq<Transactions.Event>, all: seq<Rec>, key: Key, bound: nat)
    requires Initial(s) && Runs(s, es) && SameReads(all, Transactions.After(s, es).store)
    ensures var t := Transactions.After(s, es); var r := Read(all, t.mgr, key, bound, true);
            r.Some? ==> r.value.ver !in t.mgr.active && r.value.ver !in t.mgr.aborted && Lasting(t.ctxs, s.mgr.nextId, r.value.ver)
  {
    var t := Transactions.After(s, es);
    RunLogged(s, es);
    FoundLasts(t, s.mgr.nextId, key, bound);
  }

  lemma FoundLasts(t: Sys, first: nat, key: Key, bound: nat)
    requires Formed(t) && AllCaused(t.store, t.log, t.ctxs, first)
    ensures var r := Best(t.store, Query(key, bound, SkipSet(t.mgr, true)));
            r.Some? ==> r.value.ver !in t.mgr.active && r.value.ver !in t.mgr.aborted && Lasting(t.ctxs, first, r.value.ver)
  {
    var r := Best(t.store, Query(key, bound, SkipSet(t.mgr, true)));
    BestIsEligible(t.store, Query(key, bound, SkipSet(t.mgr, true)));
    if r.Some? && r.value.ver >= first {
      var i :| 0 <= i < |t.store| && t.store[i] == r.value;
      assert Caused(t.log, t.ctxs, t.store[i]);
      assert FormedCtx(t, r.value.ver);
    }
  }

  // ---- Rolled back for good ----

  lemma NextKeepsAborted(s: Sys, e: Transactions.Event)
    requires Formed(s) && Possible(s, e)
    ensures s.mgr.aborted <= Next(s, e).mgr.aborted
  {
  }

  lemma {:induction false} AbortedStays(s: Sys, es: seq<Transactions.Event>, n: nat)
    requires Initial(s) && Runs(s, es) && n <= |es|
    ensures Runs(s, es[..n]) && Transactions.After(s, es[..n]).mgr.aborted <= Transactions.After(s, es).mgr.aborted
    decreases |es|
  {
    if n < |es| {
      var front := es[..|es| - 1];
      AbortedStays(s, front, n);
      assert front[..n] == es[..n];
      NextKeepsAborted(Transactions.After(s, front), es[|es| - 1]);
    } else {
      assert es[..n] == es;
    }
  }

  // Once an id is registered as rolled back, no later read returns its records, strict or
  // not, whatever was notified and settled since.
  lemma RolledBackIsNeverRead(s: Sys, es: seq<Transactions.Event>, n: nat, id: nat, all: seq<Rec>, key: Key, bound: nat, strict: bool)
    requires Initial(s) && Runs(s, es) && n <= |es| && Runs(s, es[..n]) && id in Transactions.After(s, es[..n]).mgr.aborted
    ensures var r := Read(all, Transactions.After(s, es).mgr, key, bound, strict); r.Some? ==> r.value.ver != id
  {
    AbortedStays(s, es, n);
    BestIsEligible(all, Query(key, bound, SkipSet(Transactions.After(s, es).mgr, strict)));
  }

  // The same of scans and range queries.
  lemma RolledBackIsNeverScanned(s: Sys, es: seq<Transactions.Event>, n: nat, id: nat, all: seq<Rec>, out: seq<Rec>, bound: nat,
                                 pred: Key -> int)
    requires Initial(s) && Runs(s, es) && n <= |es| && Runs(s, es[..n]) && id in Transactions.After(s, es[..n]).mgr.aborted
    requires var m := Mode(bound, SkipSet(Transactions.After(s, es).mgr, false), false);
             Scans.ScanOf(out, all, m) || Scans.RangeOf(out, all, m, pred)
    ensures forall r :: r in out ==> r.ver != id
  {
    AbortedStays(s, es, n);
    forall r | r in out
      ensures r.ver != id
    {
      BestIsEligible(all, Query(r.key, bound, SkipSet(Transactions.After(s, es).mgr, false)));
    }
  }

  // ---- What a transaction remembers ----

  // A finished context is final; an unfinished one keeps its level and its first reads.
  ghost predicate Grown(c: Ctx, d: Ctx)
  {
    && d.level == c.level && (Over(c) ==> d == c)
    && (!Over(d) ==> forall k :: k in c.cache ==> k in d.cache && d.cache[k] == c.cache[k])
  }

  ghost predicate AllGrown(ctxs: map<nat, Ctx>, now: map<nat, Ctx>)
  {
    forall id :: id in ctxs ==> id in now && Grown(ctxs[id], now[id])
  }

  lemma OneGrown(ctxs: map<nat, Ctx>, d: Ctx)
    requires d.id as nat in ctxs && Grown(ctxs[d.id as nat], d)
    ensures AllGrown(ctxs, ctxs[d.id as nat := d])
    ensures d.cache == map[] || d.cache == ctxs[d.id as nat].cache ==> SameCaches(ctxs, ctxs[d.id as nat := d])
  {
  }

  lemma GrownTwice(a: map<nat, Ctx>, b: map<nat, Ctx>, c: map<nat, Ctx>)
    requires AllGrown(a, b) && AllGrown(b, c)
    ensures AllGrown(a, c)
  {
    forall id | id in a
      ensures id in c && Grown(a[id], c[id])
    {
      assert Grown(a[id], b[id]) && Grown(b[id], c[id]);
    }
  }

  lemma WriteGrown(s: Sys, c: Ctx, key: Key, value: ByteString, removal: bool, ok: bool)
    requires c.id as nat in s.ctxs && s.ctxs[c.id as nat] == c && c.written <= |c.ops|
    ensures var t := DoWrite(s, c, key, value, removal, ok); AllGrown(s.ctxs, t.ctxs) && SameCaches(s.ctxs, t.ctxs)
  {
    var t := DoWrite(s, c, key, value, removal, ok);
    if t.ctxs != s.ctxs {
      OneGrown(s.ctxs, t.ctxs[c.id as nat]);
    }
  }

  lemma CommitGrown(s: Sys, c: Ctx, order: seq<Key>, ok: bool)
    requires c.id as nat in s.ctxs && s.ctxs[c.id as nat] == c && c.written <= |c.ops| && OrderOf(order, c.temp)
    ensures var t := DoCommit(s, c, order, ok); AllGrown(s.ctxs, t.ctxs) && SameCaches(s.ctxs, t.ctxs)
  {
    var t := DoCommit(s, c, order, ok);
    if t.ctxs != s.ctxs {
      OneGrown(s.ctxs, t.ctxs[c.id as nat]);
    }
  }

  lemma AbortGrown(s: Sys, c: Ctx)
    requires c.id as nat in s.ctxs && s.ctxs[c.id as nat] == c
    ensures var t := DoAbort(s, c); AllGrown(s.ctxs, t.ctxs) && SameCaches(s.ctxs, t.ctxs)
  {
    var t := DoAbort(s, c);
    if t.ctxs != s.ctxs {
      OneGrown(s.ctxs, t.ctxs[c.id as nat]);
    }
  }

  lemma GetGrown(s: Sys, c: Ctx, key: Key)
    requires c.id as nat in s.ctxs && s.ctxs[c.id as nat] == c
    ensures AllGrown(s.ctxs, DoGet(s, c, key).ctxs)
  {
    var t := DoGet(s, c, key);
    if t.ctxs != s.ctxs {
      OneGrown(s.ctxs, t.ctxs[c.id as nat]);
    }
  }

  // Only gets remember anything.
  ghost predicate SameCaches(ctxs: map<nat, Ctx>, now: map<nat, Ctx>)
  {
    forall id :: id in now ==> now[id].cache == map[] || (id in ctxs && now[id].cache == ctxs[id].cache)
  }

  lemma NextGrown(s: Sys, e: Transactions.Event)
    requires Formed(s) && Possible(s, e)
    ensures AllGrown(s.ctxs, Next(s, e).ctxs) && (!e.Get? ==> SameCaches(s.ctxs, Next(s, e).ctxs))
  {
    match e
    case Begin(level) => BeginFormed(s, level);
    case Write(id, key, value, removal, ok) =>
      assert FormedCtx(s, id);
      if !Over(s.ctxs[id]) {
        WriteGrown(s, s.ctxs[id], key, value, removal, ok);
      }
    case Get(id, key) =>
      assert FormedCtx(s, id);
      GetGrown(s, s.ctxs[id], key);
    case Commit(id, order, ok) =>
      assert FormedCtx(s, id);
      if !Over(s.ctxs[id]) {
        CommitGrown(s, s.ctxs[id], order, ok);
      }
    case Abort(id) =>
      assert FormedCtx(s, id);
      AbortGrown(s, s.ctxs[id]);
    case Notify(id) =>
    case Rearrange(now) =>
  }

  lemma {:induction false} RunGrown(s: Sys, es: seq<Transactions.Event>, n: nat)
    requires Initial(s) && Runs(s, es) && n <= |es|
    ensures Runs(s, es[..n]) && AllGrown(Transactions.After(s, es[..n]).ctxs, Transactions.After(s, es).ctxs)
    decreases |es|
  {
    if n < |es| {
      var front := es[..|es| - 1];
      RunGrown(s, front, n);
      assert front[..n] == es[..n];
      NextGrown(Transactions.After(s, front), es[|es| - 1]);
      GrownTwice(Transactions.After(s, es[..n]).ctxs, Transactions.After(s, front).ctxs, Transactions.After(s, es).ctxs);
    } else {
      assert es[..n] == es;
    }
  }

  // What a transaction read from storage, and remembers, lasts.
  ghost predicate CacheLasts(ctxs: map<nat, Ctx>, first: nat, c: Ctx)
  {
    forall k :: k in c.cache && c.cache[k].Some? ==> Lasting(ctxs, first, c.cache[k].value.ver)
  }

  ghost predicate CachesLast(ctxs: map<nat, Ctx>, first: nat)
  {
    forall id :: id in ctxs ==> CacheLasts(ctxs, first, ctxs[id])
  }

  lemma LastsMore(ctxs: map<nat, Ctx>, now: map<nat, Ctx>, first: nat, c: Ctx)
    requires AllGrown(ctxs, now) && CacheLasts(ctxs, first, c)
    ensures CacheLasts(now, first, c)
  {
    forall k | k in c.cache && c.cache[k].Some?
      ensures Lasting(now, first, c.cache[k].value.ver)
    {
      var v := c.cache[k].value.ver;
      assert v in ctxs ==> Grown(ctxs[v], now[v]);
    }
  }

  lemma CachesMore(ctxs: map<nat, Ctx>, now: map<nat, Ctx>, first: nat)
    requires CachesLast(ctxs, first) && AllGrown(ctxs, now) && SameCaches(ctxs, now)
    ensures CachesLast(now, first)
  {
    forall id | id in now
      ensures CacheLasts(now, first, now[id])
    {
      if now[id].cache != map[] {
        assert CacheLasts(ctxs, first, ctxs[id]);
        LastsMore(ctxs, now, first, ctxs[id]);
      }
    }
  }

  lemma GetLasts(s: Sys, c: Ctx, key: Key, first: nat)
    requires Formed(s) && AllCaused(s.store, s.log, s.ctxs, first) && CachesLast(s.ctxs, first)
    requires c.id as nat in s.ctxs && s.ctxs[c.id as nat] == c
    ensures CachesLast(DoGet(s, c, key).ctxs, first)
  {
    var t := DoGet(s, c, key);
    FoundLasts(s, first, key, c.id);
    GetGrown(s, c, key);
    forall id | id in t.ctxs
      ensures CacheLasts(t.ctxs, first, t.ctxs[id])
    {
      assert CacheLasts(s.ctxs, first, s.ctxs[id]);
      LastsMore(s.ctxs, t.ctxs, first, t.ctxs[id]);
    }
  }

  lemma NextLasts(s: Sys, e: Transactions.Event, first: nat)
    requires Formed(s) && Possible(s, e) && AllCaused(s.store, s.log, s.ctxs, first) && CachesLast(s.ctxs, first)
    ensures CachesLast(Next(s, e).ctxs, first)
  {
    NextGrown(s, e);
    if e.Get? {
      assert FormedCtx(s, e.id);
      GetLasts(s, s.ctxs[e.id], e.key, first);
    } else {
      CachesMore(s.ctxs, Next(s, e).ctxs, first);
    }
  }

  lemma {:induction false} RunLasts(s: Sys, es: seq<Transactions.Event>)
    requires Initial(s) && Runs(s, es)
    ensures CachesLast(Transactions.After(s, es).ctxs, s.mgr.nextId)
    decreases |es|
  {
    if es != [] {
      var front := es[..|es| - 1];
      RunLasts(s, front);
      RunLogged(s, front);
      NextLasts(Transactions.After(s, front), es[|es| - 1], s.mgr.nextId);
    }
  }

  // Above read-uncommitted, a get answers with the transaction's own staged write or with
  // what a committed transaction left, however long ago it was first read.
  lemma GetIsCommitted(s: Sys, es: seq<Transactions.Event>, id: nat, key: Key)
    requires Initial(s) && Runs(s, es) && id in Transactions.After(s, es).ctxs
    requires Transactions.After(s, es).ctxs[id].level != ReadUncommitted
    ensures var t := Transactions.After(s, es); var r := Fetched(t.ctxs[id], key, t.store, t.mgr);
            r.Some? ==> Lasting(t.ctxs, s.mgr.nextId, r.value.ver)
  {
    var t := Transactions.After(s, es);
    RunLogged(s, es);
    RunLasts(s, es);
    assert CacheLasts(t.ctxs, s.mgr.nextId, t.ctxs[id]);
    FoundLasts(t, s.mgr.nextId, key, 0);
    FoundLasts(t, s.mgr.nextId, key, t.ctxs[id].id);
  }

  // From repeatable read on, a key once read answers the same as long as the transaction
  // runs, whatever others commit in between.
  lemma ReadsRepeat(s: Sys, es: seq<Transactions.Event>, n: nat, id: nat, key: Key)
    requires Initial(s) && Runs(s, es) && n <= |es| && Runs(s, es[..n])
    requires var c := Transactions.After(s, es[..n]).ctxs; id in c && key in c[id].cache && c[id].level in {RepeatableRead, Serializable}
    ensures var m, t := Transactions.After(s, es[..n]), Transactions.After(s, es);
            id in t.ctxs && (!Over(t.ctxs[id]) ==> Fetched(t.ctxs[id], key, t.store, t.mgr) == Fetched(m.ctxs[id], key, m.store, m.mgr))
  {
    RunGrown(s, es, n);
  }
}
