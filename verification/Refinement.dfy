// Runs of the context objects are runs of the machine of steps.

module Refinements {
  import opened Bytes
  import opened Mvcc
  import opened WalRecords
  import opened TranManagers
  import opened MemTables
  import opened Transactions
  import opened TranContexts
  import ReadSafeties
  import Serials

  // All contexts and what they share: storage as the engine holds it, everything handed
  // to the log, the manager.
  datatype World = World(ctxs: map<nat, Ctx>, store: seq<Rec>, logged: seq<Record>, failed: bool, mgr: Mgr)

  // The machine's state tells the same: storage no read can tell apart, and of the log
  // what was confirmed.
  ghost predicate Shows(w: World, s: Sys)
  {
    && w.ctxs == s.ctxs && w.mgr == s.mgr && w.failed == s.broken
    && SameReads(w.store, s.store) && LogIs(s.log, w.logged, w.failed)
  }

  function SharedOf(w: World, id: nat): Shared
    requires id in w.ctxs
  {
    Shared(w.ctxs[id], w.store, w.logged, w.failed, w.mgr)
  }

  predicate OfContext(e: Transactions.Event)
  {
    e.Write? || e.Get? || e.Commit? || e.Abort?
  }

  // The step of one context, as the contracts of its methods say it.
  function Step(s: Sys, c: Ctx, e: Transactions.Event): Sys
    requires OfContext(e) && (Over(c) || c.written <= |c.ops|) && (e.Commit? ==> forall k :: k in e.order ==> k in c.temp)
  {
    match e
    case Write(_, key, value, removal, ok) => DoWrite(s, c, key, value, removal, ok)
    case Get(_, key) => DoGet(s, c, key)
    case Commit(_, order, ok) => DoCommit(s, c, order, ok)
    case Abort(_) => DoAbort(s, c)
  }

  // One thing that happens: a transaction begins, a method of its context returns, or a
  // flush rearranges storage; with the notifications flushes sent.
  datatype Deed = Deed(event: Transactions.Event, ids: seq<nat>, now: World)

  // What the callers and the contracts of the methods promise of it.
  ghost predicate Meets(w: World, log: seq<Record>, d: Deed)
  {
    match d.event
    case Begin(level) => w.mgr.nextId < MAX_ID && d.ids == [] && d.now == Entered(w, level)
    case Notify(id) => w.mgr.flushed != [] && d.ids == [] && d.now == w.(mgr := Notified(w.mgr, id))
    case Rearrange(store) => w.mgr.flushed != [] && SameGroups(store, w.store) && d.now == w.(store := store, mgr := NotifiedAll(w.mgr, d.ids))
    case Write(id, key, value, removal, ok) => key != [] && (removal ==> value == []) && (ok ==> !w.failed) && Returned(w, log, d, id)
    case Get(id, key) => key != [] && Returned(w, log, d, id)
    case Commit(id, order, ok) => id in w.ctxs && OrderOf(order, w.ctxs[id].temp) && (ok ==> !w.failed) && Returned(w, log, d, id)
    case Abort(id) => Returned(w, log, d, id)
  }

  function Entered(w: World, level: IsolationLevel): World
    requires w.mgr.nextId < MAX_ID
  {
    w.(mgr := Begun(w.mgr), ctxs := w.ctxs[w.mgr.nextId := NewCtx(w.mgr.nextId, level)])
  }

  ghost predicate Returned(w: World, log: seq<Record>, d: Deed, id: nat)
    requires OfContext(d.event) && (d.event.Commit? ==> id in w.ctxs && OrderOf(d.event.order, w.ctxs[id].temp))
  {
    && id in w.ctxs && w.ctxs[id].id == id && (Over(w.ctxs[id]) || w.ctxs[id].written <= |w.ctxs[id].ops|)
    && id in d.now.ctxs && d.now.ctxs == w.ctxs[id := d.now.ctxs[id]] && d.now.ctxs[id].id == id
    && IsOutcome(SharedOf(d.now, id), Step(SysOf(SharedOf(w, id), log), w.ctxs[id], d.event), d.ids)
  }

  // ---- Reads, conflicts and writes see only what reads see ----

  lemma SameSight(c: Ctx, a: seq<Rec>, b: seq<Rec>, m: Mgr)
    requires SameReads(a, b)
    ensures Conflict(c, a, m) <==> Conflict(c, b, m)
  {
    forall k
      ensures Latest(a, k, m) == Latest(b, k, m)
    {
    }
    forall k | k in c.temp
      ensures Overtaken(c, k, a, m) <==> Overtaken(c, k, b, m)
    {
    }
    forall k | k in c.cache
      ensures Outdated(c, k, a, m) <==> Outdated(c, k, b, m)
    {
    }
  }

  lemma SameFetch(c: Ctx, key: Key, a: seq<Rec>, b: seq<Rec>, m: Mgr)
    requires SameReads(a, b)
    ensures AfterGet(c, key, a, m) == AfterGet(c, key, b, m)
  {
    assert Fetched(c, key, a, m) == Fetched(c, key, b, m);
  }

  lemma StandsTwice(a: seq<Rec>, b: seq<Rec>, c: seq<Rec>)
    requires SameReads(a, b) && SameReads(b, c)
    ensures SameReads(a, c)
  {
  }

  // ---- A step on what stands for the storage is the machine's step ----

  // The parts of a state a step of one context reads and writes.
  ghost predicate Alike(a: Sys, b: Sys, id: nat)
  {
    && id in a.ctxs && id in b.ctxs && a.ctxs[id] == b.ctxs[id]
    && a.log == b.log && a.broken == b.broken && a.mgr == b.mgr && SameReads(a.store, b.store)
  }

  lemma StepAlike(a: Sys, b: Sys, c: Ctx, e: Transactions.Event)
    requires OfContext(e) && Alike(a, b, c.id) && a.ctxs[c.id as nat] == c && (Over(c) || c.written <= |c.ops|)
    requires e.Commit? ==> forall k :: k in e.order ==> k in c.temp
    ensures Alike(Step(a, c, e), Step(b, c, e), c.id)
    ensures Step(b, c, e).ctxs == b.ctxs[c.id as nat := Step(b, c, e).ctxs[c.id as nat]]
  {
    match e
    case Write(_, key, value, removal, ok) => OnTop(Rec(key, value, c.id), a.store, b.store);
    case Get(_, key) => SameFetch(c, key, a.store, b.store, a.mgr);
    case Commit(_, order, ok) => CommitAlike(a, b, c, order, ok);
    case Abort(_) =>
  }

  lemma CommitAlike(a: Sys, b: Sys, c: Ctx, order: seq<Key>, ok: bool)
    requires Alike(a, b, c.id) && a.ctxs[c.id as nat] == c && (Over(c) || c.written <= |c.ops|)
    requires forall k :: k in order ==> k in c.temp
    ensures var t, u := DoCommit(a, c, order, ok), DoCommit(b, c, order, ok);
            Alike(t, u, c.id) && u.ctxs == b.ctxs[c.id as nat := u.ctxs[c.id as nat]]
  {
    SameSight(c, a.store, b.store, a.mgr);
    StackStands(CommitWrites(c, order), a.store, b.store);
  }

  // ---- Chains of deeds ----

  function LogNext(w: World, log: seq<Record>, d: Deed): seq<Record>
    requires OfContext(d.event) ==> d.event.id in w.ctxs && w.ctxs[d.event.id].id == d.event.id
    requires OfContext(d.event) ==> Over(w.ctxs[d.event.id]) || w.ctxs[d.event.id].written <= |w.ctxs[d.event.id].ops|
    requires d.event.Commit? ==> forall k :: k in d.event.order ==> k in w.ctxs[d.event.id].temp
  {
    if OfContext(d.event) then Step(SysOf(SharedOf(w, d.event.id), log), w.ctxs[d.event.id], d.event).log else log
  }

  function WorldAfter(w: World, ds: seq<Deed>): World
  {
    if ds == [] then w else ds[|ds| - 1].now
  }

  // Each deed meets the contracts in the world the ones before have left, with what the
  // log has confirmed by then.
  ghost predicate Chain(w: World, log: seq<Record>, ds: seq<Deed>)
    decreases |ds|, 0
  {
    ds == [] ||
    var front := ds[..|ds| - 1];
    Chain(w, log, front) && Meets(WorldAfter(w, front), LogAfter(w, log, front), ds[|ds| - 1])
  }

  ghost function LogAfter(w: World, log: seq<Record>, ds: seq<Deed>): seq<Record>
    requires Chain(w, log, ds)
    decreases |ds|, 1
  {
    if ds == [] then log
    else
      var front := ds[..|ds| - 1];
      LogNext(WorldAfter(w, front), LogAfter(w, log, front), ds[|ds| - 1])
  }

  lemma RunMore(s: Sys, es: seq<Transactions.Event>, e: Transactions.Event)
    requires Initial(s) && Runs(s, es) && Possible(Transactions.After(s, es), e)
    ensures Runs(s, es + [e]) && Transactions.After(s, es + [e]) == Next(Transactions.After(s, es), e)
  {
    assert (es + [e])[..|es|] == es;
  }

  lemma {:induction false} RunNotified(s: Sys, es: seq<Transactions.Event>, ids: seq<nat>) returns (more: seq<Transactions.Event>)
    requires Initial(s) && Runs(s, es)
    ensures Runs(s, more)
    ensures var t := Transactions.After(s, es); Transactions.After(s, more) == t.(mgr := NotifiedAll(t.mgr, ids))
    ensures Serials.AllSerializable(es) ==> Serials.AllSerializable(more)
    decreases |ids|
  {
    if ids == [] {
      more := es;
    } else {
      more := RunNotified(s, es, ids[..|ids| - 1]);
      var e := Transactions.Event.Notify(ids[|ids| - 1]);
      RunMore(s, more, e);
      more := more + [e];
    }
  }

  // A method's return is a step of the machine, and the notifications it caused.
  lemma ReturnedShows(s: Sys, w: World, d: Deed, id: nat)
    requires Formed(s) && Shows(w, s) && OfContext(d.event) && d.event.id == id && Possible(s, d.event) && Returned(w, s.log, d, id)
    ensures var t := Next(s, d.event); t.log == LogNext(w, s.log, d) && Shows(d.now, t.(mgr := NotifiedAll(t.mgr, d.ids)))
  {
    var c := w.ctxs[id];
    var a := SysOf(SharedOf(w, id), s.log);
    StepAlike(a, s, c, d.event);
    var t, u := Next(s, d.event), Step(a, c, d.event);
    NextIsStep(s, d.event);
    assert Opened(0);
    StandsTwice(d.now.store, u.store, t.store);
  }

  lemma NextIsStep(s: Sys, e: Transactions.Event)
    requires Formed(s) && Possible(s, e) && OfContext(e)
    ensures s.ctxs[e.id].id == e.id && (Over(s.ctxs[e.id]) || s.ctxs[e.id].written <= |s.ctxs[e.id].ops|)
    ensures Next(s, e) == Step(s, s.ctxs[e.id], e)
  {
    assert FormedCtx(s, e.id);
  }

  lemma StaysSerializable(es: seq<Transactions.Event>, e: Transactions.Event)
    ensures Serials.AllSerializable(es + [e]) <==> Serials.AllSerializable(es) && (e.Begin? ==> e.level == Serializable)
  {
    var more := es + [e];
    assert more[|es|] == e;
    assert forall i :: 0 <= i < |es| ==> more[i] == es[i];
  }

  lemma ContextDeed(s: Sys, es: seq<Transactions.Event>, w: World, d: Deed) returns (more: seq<Transactions.Event>)
    requires Initial(s) && Runs(s, es) && Shows(w, Transactions.After(s, es)) && Meets(w, Transactions.After(s, es).log, d)
    requires OfContext(d.event)
    ensures Runs(s, more) && Shows(d.now, Transactions.After(s, more))
    ensures Transactions.After(s, more).log == LogNext(w, Transactions.After(s, es).log, d)
    ensures Serials.AllSerializable(es) ==> Serials.AllSerializable(more)
  {
    var t := Transactions.After(s, es);
    ReturnedShows(t, w, d, d.event.id);
    RunMore(s, es, d.event);
    StaysSerializable(es, d.event);
    more := RunNotified(s, es + [d.event], d.ids);
  }

  lemma OtherDeed(s: Sys, es: seq<Transactions.Event>, w: World, d: Deed) returns (more: seq<Transactions.Event>)
    requires Initial(s) && Runs(s, es) && Shows(w, Transactions.After(s, es)) && Meets(w, Transactions.After(s, es).log, d)
    requires !OfContext(d.event)
    ensures Runs(s, more) && Shows(d.now, Transactions.After(s, more))
    ensures Transactions.After(s, more).log == LogNext(w, Transactions.After(s, es).log, d)
    ensures Serials.AllSerializable(es) && (d.event.Begin? ==> d.event.level == Serializable) ==> Serials.AllSerializable(more)
  {
    var t := Transactions.After(s, es);
    if d.event.Rearrange? {
      SameGroupsSameReads(d.now.store, w.store);
      StandsTwice(d.now.store, w.store, t.store);
      more := RunNotified(s, es, d.ids);
    } else {
      RunMore(s, es, d.event);
      StaysSerializable(es, d.event);
      more := es + [d.event];
    }
  }

  lemma OneDeed(s: Sys, es: seq<Transactions.Event>, w: World, d: Deed) returns (more: seq<Transactions.Event>)
    requires Initial(s) && Runs(s, es) && Shows(w, Transactions.After(s, es)) && Meets(w, Transactions.After(s, es).log, d)
    ensures Runs(s, more) && Shows(d.now, Transactions.After(s, more))
    ensures Transactions.After(s, more).log == LogNext(w, Transactions.After(s, es).log, d)
    ensures Serials.AllSerializable(es) && (d.event.Begin? ==> d.event.level == Serializable) ==> Serials.AllSerializable(more)
  {
    if OfContext(d.event) {
      more := ContextDeed(s, es, w, d);
    } else {
      more := OtherDeed(s, es, w, d);
    }
  }

  ghost predicate AllBeginSerializable(ds: seq<Deed>)
  {
    forall i :: 0 <= i < |ds| && ds[i].event.Begin? ==> ds[i].event.level == Serializable
  }

  // Whatever the contexts' methods do, in any order, some run of the machine does, and
  // shows the same contexts, manager, confirmed log and readable storage.
  lemma {:induction false} ChainIsRun(s: Sys, w: World, ds: seq<Deed>) returns (es: seq<Transactions.Event>)
    requires Initial(s) && Shows(w, s) && Chain(w, s.log, ds)
    ensures Runs(s, es) && Shows(WorldAfter(w, ds), Transactions.After(s, es))
    ensures Transactions.After(s, es).log == LogAfter(w, s.log, ds)
    ensures AllBeginSerializable(ds) ==> Serials.AllSerializable(es)
    decreases |ds|
  {
    if ds == [] {
      es := [];
    } else {
      var front := ds[..|ds| - 1];
      es := ChainIsRun(s, w, front);
      es := OneDeed(s, es, WorldAfter(w, front), ds[|ds| - 1]);
    }
  }

  // So for the objects themselves: run one at a time, the serializable transactions that
  // committed read what they read, and leave what any read of the engine now finds.
  lemma ObjectsAreSerial(s: Sys, w: World, ds: seq<Deed>, key: Key, strict: bool) returns (history: seq<Ctx>)
    requires Initial(s) && Shows(w, s) && Chain(w, s.log, ds) && AllBeginSerializable(ds) && key != []
    ensures var u := WorldAfter(w, ds);
            && (forall c :: c in history <==> c.committed && c.id as nat in u.ctxs && u.ctxs[c.id as nat] == c)
            && (forall i, j :: 0 <= i < j < |history| ==> history[i].id != history[j].id)
            && Serials.PlaysAll(Serials.DbOf(s), history)
            && ValueOf(ReadSafeties.Read(u.store, u.mgr, key, 0, strict)) == Serials.Value(Serials.PlayAll(Serials.DbOf(s), history), key)
  {
    var es := ChainIsRun(s, w, ds);
    history := Transactions.After(s, es).history;
    Serials.Serializability(s, es);
    Serials.HistoryIsCommitted(s, es);
    Serials.SerialResult(s, es, WorldAfter(w, ds).store, key, strict);
  }
}
