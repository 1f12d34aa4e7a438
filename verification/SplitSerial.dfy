// A get whose two steps are apart answers as if it had been made at one moment in between.
// So every run with split gets is a run without.

module SplitSerials {
  import opened Bytes
  import opened Mvcc
  import opened MemTables
  import opened TranManagers
  import opened Transactions
  import opened WriteAheads
  import opened ReadSafeties
  import opened SplitReads
  import Serials
  import F = FlushRaces

  // ---- Storage holds committed records only, when every transaction stages ----

  ghost predicate AllLast(rs: seq<Rec>, ctxs: map<nat, Ctx>, first: nat)
  {
    forall i :: 0 <= i < |rs| ==> Lasting(ctxs, first, rs[i].ver)
  }

  // first: the first id given out.  base: the ids rolled back before.
  ghost predicate Steady(s: Sys, first: nat, base: set<nat>)
  {
    && first <= s.mgr.nextId && (forall id :: id in s.ctxs ==> id >= first && s.ctxs[id].level != ReadUncommitted)
    && (forall x :: x < first ==> (x in s.mgr.aborted <==> x in base)) && (forall x :: x in base ==> x < first)
    && AllLast(s.store, s.ctxs, first)
  }

  ghost predicate Stages(es: seq<Transactions.Event>)
  {
    forall i :: 0 <= i < |es| && es[i].Begin? ==> es[i].level != ReadUncommitted
  }

  lemma LastMore(rs: seq<Rec>, now: seq<Rec>, ctxs: map<nat, Ctx>, more: map<nat, Ctx>, first: nat)
    requires AllLast(rs, ctxs, first) && AllGrown(ctxs, more)
    requires forall r :: r in now ==> r in rs || Lasting(more, first, r.ver)
    ensures AllLast(now, more, first)
  {
    forall i | 0 <= i < |now|
      ensures Lasting(more, first, now[i].ver)
    {
      assert now[i] in now;
      if now[i] in rs {
        var j :| 0 <= j < |rs| && rs[j] == now[i];
        LastsOn(ctxs, more, first, rs[j].ver);
      }
    }
  }

  // Every record a step writes belongs to a transaction that has committed by then.
  lemma WrittenLasts(s: Sys, e: Transactions.Event, first: nat, r: Rec)
    requires Formed(s) && Transactions.Possible(s, e) && r in Written(s, e)
    requires forall id :: id in s.ctxs ==> s.ctxs[id].level != ReadUncommitted
    ensures Lasting(Transactions.Next(s, e).ctxs, first, r.ver)
  {
    WrittenOurs(s, e, r);
    assert FormedCtx(s, r.ver);
  }

  lemma NextSteady(s: Sys, e: Transactions.Event, first: nat, base: set<nat>)
    requires Formed(s) && Transactions.Possible(s, e) && Steady(s, first, base) && (e.Begin? ==> e.level != ReadUncommitted)
    ensures Steady(Transactions.Next(s, e), first, base)
  {
    var t := Transactions.Next(s, e);
    NextGrown(s, e);
    forall r | r in t.store
      ensures r in s.store || Lasting(t.ctxs, first, r.ver)
    {
      if e.Rearrange? {
        SameGroupsHas(e.now, s.store, r);
      } else {
        StoreWritten(s, e);
        StackHas(Written(s, e), s.store, r);
        if r in Written(s, e) {
          WrittenLasts(s, e, first, r);
        }
      }
    }
    LastMore(s.store, t.store, s.ctxs, t.ctxs, first);
    NextIds(s, e, first, base);
  }

  lemma NextIds(s: Sys, e: Transactions.Event, first: nat, base: set<nat>)
    requires Formed(s) && Transactions.Possible(s, e) && Steady(s, first, base) && (e.Begin? ==> e.level != ReadUncommitted)
    ensures var t := Transactions.Next(s, e);
            && first <= t.mgr.nextId && (forall id :: id in t.ctxs ==> id >= first && t.ctxs[id].level != ReadUncommitted)
            && (forall x :: x < first ==> (x in t.mgr.aborted <==> x in base))
  {
    var t := Transactions.Next(s, e);
    NextGrown(s, e);
    NextAborts(s, e);
    forall id | id in t.ctxs
      ensures id >= first && t.ctxs[id].level != ReadUncommitted
    {
      NextMembers(s, e, id);
      assert id in s.ctxs ==> Grown(s.ctxs[id], t.ctxs[id]);
    }
  }

  lemma NextMembers(s: Sys, e: Transactions.Event, id: nat)
    requires Formed(s) && Transactions.Possible(s, e) && id in Transactions.Next(s, e).ctxs
    ensures id in s.ctxs || (e.Begin? && id == s.mgr.nextId && Transactions.Next(s, e).ctxs[id].level == e.level)
  {
    if Caller(e).Some? {
      assert FormedCtx(s, Caller(e).value);
    }
  }

  lemma NextAborts(s: Sys, e: Transactions.Event)
    requires Formed(s) && Transactions.Possible(s, e)
    ensures var t := Transactions.Next(s, e);
            s.mgr.nextId <= t.mgr.nextId && (t.mgr.aborted == s.mgr.aborted || exists id :: id in s.ctxs && t.mgr.aborted == s.mgr.aborted + {id})
  {
    if Caller(e).Some? {
      assert FormedCtx(s, Caller(e).value);
    }
  }

  lemma {:induction false} RunSteady(s: Sys, es: seq<Transactions.Event>)
    requires Initial(s) && Transactions.Runs(s, es) && Stages(es)
    ensures Steady(Transactions.After(s, es), s.mgr.nextId, s.mgr.aborted)
    decreases |es|
  {
    if es != [] {
      var front := es[..|es| - 1];
      RunSteady(s, front);
      NextSteady(Transactions.After(s, front), es[|es| - 1], s.mgr.nextId, s.mgr.aborted);
    }
  }

  function Bound(c: Ctx): nat
  {
    if c.level == ReadUncommitted || c.level == ReadCommitted then 0 else c.id
  }

  // Whom to ignore makes no difference then but for those from before.
  lemma SkipSame(s: Sys, rs: seq<Rec>, key: Key, bound: nat, first: nat, base: set<nat>)
    requires Formed(s) && Steady(s, first, base) && AllLast(rs, s.ctxs, first)
    ensures Best(rs, Query(key, bound, SkipSet(s.mgr, true))) == Best(rs, Query(key, bound, base))
  {
    forall i | 0 <= i < |rs|
      ensures rs[i].ver in SkipSet(s.mgr, true) <==> rs[i].ver in base
    {
      var v := rs[i].ver;
      assert Lasting(s.ctxs, first, v);
      if v in s.ctxs {
        assert FormedCtx(s, v);
      }
    }
    Serials.SkipMore(rs, Query(key, bound, SkipSet(s.mgr, true)), Query(key, bound, base));
  }

  // ---- A get put in where its context makes no call any more ----

  ghost predicate Untouched(es: seq<Transactions.Event>, id: nat)
  {
    forall i :: 0 <= i < |es| ==> Caller(es[i]) != Some(id)
  }

  function PutIn(es: seq<Transactions.Event>, j: nat, id: nat, key: Key): seq<Transactions.Event>
    requires j <= |es|
  {
    es[..j] + [Get(id, key)] + es[j..]
  }

  // A step of others and a change of one context can change places.
  lemma Commutes(s: Sys, d: Ctx, e: Transactions.Event)
    requires Formed(s) && Transactions.Possible(s, e) && d.id as nat in s.ctxs && Caller(e) != Some(d.id as nat) && Formed(With(s, d))
    ensures Transactions.Possible(With(s, d), e) && Transactions.Next(With(s, d), e) == With(Transactions.Next(s, e), d)
  {
    if Caller(e).Some? {
      CallCommutes(s, d, e);
    } else if e.Begin? {
      BeginFormed(s, e.level);
      TwoEntries(s.ctxs, d.id, d, s.mgr.nextId, NewCtx(s.mgr.nextId, e.level));
    }
  }

  lemma TwoEntries(ctxs: map<nat, Ctx>, a: nat, c: Ctx, b: nat, d: Ctx)
    requires a != b
    ensures ctxs[a := c][b := d] == ctxs[b := d][a := c]
  {
  }

  lemma CallCommutes(s: Sys, d: Ctx, e: Transactions.Event)
    requires Formed(s) && Transactions.Possible(s, e) && d.id as nat in s.ctxs && Formed(With(s, d))
    requires Caller(e).Some? && Caller(e).value != d.id as nat
    ensures Transactions.Possible(With(s, d), e) && Transactions.Next(With(s, d), e) == With(Transactions.Next(s, e), d)
  {
    var id := Caller(e).value;
    assert FormedCtx(s, id);
    var c := s.ctxs[id];
    match e
    case Write(_, key, value, removal, ok) => WriteCommutes(s, d, c, key, value, removal, ok);
    case Get(_, key) =>
      TwoEntries(s.ctxs, d.id, d, id, AfterGet(c, key, s.store, s.mgr));
    case Commit(_, order, ok) => CommitCommutes(s, d, c, order, ok);
    case Abort(_) =>
      TwoEntries(s.ctxs, d.id, d, id, c.(aborted := true, temp := map[], cache := map[], ops := []));
  }

  lemma WriteCommutes(s: Sys, d: Ctx, c: Ctx, key: Key, value: ByteString, removal: bool, ok: bool)
    requires c.id != d.id && (Over(c) || c.written <= |c.ops|)
    ensures DoWrite(With(s, d), c, key, value, removal, ok) == With(DoWrite(s, c, key, value, removal, ok), d) ||
            (DoWrite(s, c, key, value, removal, ok) == s && DoWrite(With(s, d), c, key, value, removal, ok) == With(s, d))
  {
    var n := Noted(c, WriteRecord(c, key, value, removal));
    TwoEntries(s.ctxs, d.id, d, c.id, Staged(n, key, value));
    TwoEntries(s.ctxs, d.id, d, c.id, n);
    TwoEntries(s.ctxs, d.id, d, c.id, Sent(n).(trace := n.trace + [Wrote(key, value)]));
  }

  lemma CommitCommutes(s: Sys, d: Ctx, c: Ctx, order: seq<Key>, ok: bool)
    requires c.id != d.id && (Over(c) || c.written <= |c.ops|) && forall k :: k in order ==> k in c.temp
    ensures DoCommit(With(s, d), c, order, ok) == With(DoCommit(s, c, order, ok), d)
  {
    var n := Noted(c, WalRecords.Record.Commit(c.id));
    TwoEntries(s.ctxs, d.id, d, c.id, c.(aborted := true));
    TwoEntries(s.ctxs, d.id, d, c.id, n);
    TwoEntries(s.ctxs, d.id, d, c.id, Sent(n).(committed := true));
  }

  // The run with the get put in ends as the one without, but for the get.
  ghost predicate GetFits(s: Sys, es: seq<Transactions.Event>, j: nat, id: nat, key: Key, m: Sys)
    requires Initial(s) && Transactions.Runs(s, es) && j <= |es| && id in m.ctxs
  {
    var t := Transactions.After(s, es);
    && id in t.ctxs && t.ctxs[id] == m.ctxs[id] && m.ctxs[id].id == id
    && Transactions.Runs(s, PutIn(es, j, id, key))
    && Transactions.After(s, PutIn(es, j, id, key)) == With(t, AfterGet(m.ctxs[id], key, m.store, m.mgr))
  }

  lemma {:induction false} Inserted(s: Sys, es: seq<Transactions.Event>, j: nat, id: nat, key: Key)
    requires Initial(s) && Transactions.Runs(s, es) && j <= |es| && Transactions.Runs(s, es[..j]) && Untouched(es[j..], id) && key != []
    requires var c := Transactions.After(s, es[..j]).ctxs; id in c && !Over(c[id])
    ensures GetFits(s, es, j, id, key, Transactions.After(s, es[..j]))
    decreases |es|
  {
    if j == |es| {
      assert es[..j] == es;
      InsertedLast(s, es, id, key);
    } else {
      FrontOf(es, j, id);
      Inserted(s, es[..|es| - 1], j, id, key);
      InsertedOneMore(s, es, j, id, key, Transactions.After(s, es[..j]));
    }
  }

  lemma PutInLast(es: seq<Transactions.Event>, id: nat, key: Key)
    ensures PutIn(es, |es|, id, key) == es + [Get(id, key)]
  {
  }

  lemma PutInFront(es: seq<Transactions.Event>, j: nat, id: nat, key: Key)
    requires j < |es|
    ensures PutIn(es, j, id, key) == PutIn(es[..|es| - 1], j, id, key) + [es[|es| - 1]]
  {
  }

  lemma OneEvent(s: Sys, es: seq<Transactions.Event>, e: Transactions.Event)
    requires Initial(s) && Transactions.Runs(s, es) && Transactions.Possible(Transactions.After(s, es), e)
    ensures Transactions.Runs(s, es + [e]) && Transactions.After(s, es + [e]) == Transactions.Next(Transactions.After(s, es), e)
  {
    assert (es + [e])[..|es|] == es;
  }

  lemma InsertedLast(s: Sys, es: seq<Transactions.Event>, id: nat, key: Key)
    requires Initial(s) && Transactions.Runs(s, es) && key != []
    requires var c := Transactions.After(s, es).ctxs; id in c && !Over(c[id])
    ensures GetFits(s, es, |es|, id, key, Transactions.After(s, es))
  {
    assert FormedCtx(Transactions.After(s, es), id);
    OneEvent(s, es, Get(id, key));
    PutInLast(es, id, key);
  }

  lemma FrontOf(es: seq<Transactions.Event>, j: nat, id: nat)
    requires j < |es| && Untouched(es[j..], id)
    ensures var front := es[..|es| - 1]; front[..j] == es[..j] && Untouched(front[j..], id) && Caller(es[|es| - 1]) != Some(id)
  {
    var front := es[..|es| - 1];
    assert es[|es| - 1] == es[j..][|es| - 1 - j];
    assert forall i :: 0 <= i < |front[j..]| ==> front[j..][i] == es[j..][i];
  }

  lemma InsertedOneMore(s: Sys, es: seq<Transactions.Event>, j: nat, id: nat, key: Key, m: Sys)
    requires Initial(s) && Transactions.Runs(s, es) && j < |es| && id in m.ctxs && Caller(es[|es| - 1]) != Some(id)
    requires GetFits(s, es[..|es| - 1], j, id, key, m)
    ensures GetFits(s, es, j, id, key, m)
  {
    var front, last := es[..|es| - 1], es[|es| - 1];
    var mid, d := Transactions.After(s, front), AfterGet(m.ctxs[id], key, m.store, m.mgr);
    assert Formed(With(mid, d)) by {
      assert Transactions.After(s, PutIn(front, j, id, key)) == With(mid, d);
    }
    Commutes(mid, d, last);
    OthersStay(mid, last, id);
    OneEvent(s, PutIn(front, j, id, key), last);
    PutInFront(es, j, id, key);
  }

  // ---- A moment at which a get could have been made ----

  // Before event j the query had that answer, and since then the context made no call.
  ghost predicate At(s: Sys, es: seq<Transactions.Event>, j: int, id: nat, q: Query, r: Option<Rec>)
    requires Initial(s)
  {
    && 0 <= j <= |es| && Transactions.Runs(s, es[..j]) && Untouched(es[j..], id)
    && id in Transactions.After(s, es[..j]).ctxs && Best(Transactions.After(s, es[..j]).store, q) == r
  }

  ghost predicate Explained(s: Sys, es: seq<Transactions.Event>, id: nat, q: Query, r: Option<Rec>)
    requires Initial(s)
  {
    exists j :: At(s, es, j, id, q, r)
  }

  lemma ExplainedMore(s: Sys, es: seq<Transactions.Event>, e: Transactions.Event, id: nat, q: Query, r: Option<Rec>)
    requires Initial(s) && Explained(s, es, id, q, r) && Caller(e) != Some(id)
    ensures Explained(s, es + [e], id, q, r)
  {
    var j :| At(s, es, j, id, q, r);
    OneBehind(es, e, j, id);
    assert At(s, es + [e], j, id, q, r);
  }

  lemma OneBehind(es: seq<Transactions.Event>, e: Transactions.Event, j: nat, id: nat)
    requires j <= |es| && Untouched(es[j..], id) && Caller(e) != Some(id)
    ensures (es + [e])[..j] == es[..j] && Untouched((es + [e])[j..], id)
  {
    assert (es + [e])[j..] == es[j..] + [e];
  }

  lemma ExplainedNow(s: Sys, es: seq<Transactions.Event>, id: nat, q: Query)
    requires Initial(s) && Transactions.Runs(s, es) && id in Transactions.After(s, es).ctxs
    ensures Explained(s, es, id, q, Best(Transactions.After(s, es).store, q))
  {
    assert es[..|es|] == es && es[|es|..] == [];
    assert At(s, es, |es|, id, q, Best(Transactions.After(s, es).store, q));
  }

  // Another context's get put in anywhere takes no moment away.
  lemma ExplainedInserted(s: Sys, es: seq<Transactions.Event>, j: nat, id: nat, key: Key, x: nat, q: Query, r: Option<Rec>)
    requires Initial(s) && Transactions.Runs(s, es) && j <= |es| && Transactions.Runs(s, es[..j]) && Untouched(es[j..], id) && key != []
    requires var c := Transactions.After(s, es[..j]).ctxs; id in c && !Over(c[id])
    requires Explained(s, es, x, q, r) && x != id
    ensures Explained(s, PutIn(es, j, id, key), x, q, r)
  {
    var k :| At(s, es, k, x, q, r);
    var more := PutIn(es, j, id, key);
    if k <= j {
      BeforeIt(es, j, id, key, k, x);
      assert At(s, more, k, x, q, r);
    } else {
      BehindIt(es, j, id, key, k);
      Inserted(s, es[..k], j, id, key);
      assert At(s, more, k + 1, x, q, r);
    }
  }

  lemma BeforeIt(es: seq<Transactions.Event>, j: nat, id: nat, key: Key, k: nat, x: nat)
    requires k <= j <= |es| && Untouched(es[k..], x) && x != id
    ensures PutIn(es, j, id, key)[..k] == es[..k] && Untouched(PutIn(es, j, id, key)[k..], x)
  {
    var more := PutIn(es, j, id, key);
    forall i | 0 <= i < |more[k..]|
      ensures Caller(more[k..][i]) != Some(x)
    {
      if i < j - k {
        assert more[k..][i] == es[k..][i];
      } else if i > j - k {
        assert more[k..][i] == es[k..][i - 1];
      }
    }
  }

  lemma BehindIt(es: seq<Transactions.Event>, j: nat, id: nat, key: Key, k: nat)
    requires j < k <= |es| && Untouched(es[j..], id)
    ensures es[..k][..j] == es[..j] && Untouched(es[..k][j..], id)
    ensures PutIn(es, j, id, key)[..k + 1] == PutIn(es[..k], j, id, key) && PutIn(es, j, id, key)[k + 1..] == es[k..]
  {
    assert forall i :: 0 <= i < |es[..k][j..]| ==> es[..k][j..][i] == es[j..][i];
  }

  // ---- What a get under way can still be told ----

  // The records from the i-th frozen table on, and the tables.
  function Cut(shelf: F.State, i: nat): seq<Rec>
    requires i <= |shelf.frozen|
  {
    Flat(shelf.frozen[i..]) + F.Settled(shelf)
  }

  ghost predicate Below(a: Option<Rec>, b: Option<Rec>)
  {
    a.Some? ==> b.Some? && a.value.ver <= b.value.ver
  }

  // Whatever part of memory reaches the tables before its second step, its answer has a
  // moment.
  ghost predicate Tracked(s: Sys, es: seq<Transactions.Event>, u: Split, id: nat, q: Query)
    requires Initial(s) && id in u.asked
  {
    var found := u.asked[id].found;
    && Explained(s, es, id, q, Pick(found, Best(u.sys.store, q))) && Below(found, Best(u.sys.store, q))
    && CutsExplained(s, es, u.shelf, id, q, found)
  }

  ghost predicate CutsExplained(s: Sys, es: seq<Transactions.Event>, shelf: F.State, id: nat, q: Query, found: Option<Rec>)
    requires Initial(s)
  {
    forall i :: 0 <= i <= |shelf.frozen| ==> Explained(s, es, id, q, Pick(found, Best(Cut(shelf, i), q)))
  }

  function AsksFor(c: Ctx, key: Key, base: set<nat>): Query
  {
    Query(key, Bound(c), base)
  }

  // ---- Its first step ----

  lemma MemoryCovers(shelf: F.State, i: nat, q: Query)
    requires i <= |shelf.frozen|
    ensures Pick(Best(F.InMemory(shelf), q), Best(Cut(shelf, i), q)) == Best(All(shelf), q)
  {
    var front, back := shelf.frozen[..i], shelf.frozen[i..];
    assert shelf.frozen == front + back;
    FlatAppend(front, back);
    assert F.InMemory(shelf) == (shelf.current + Flat(front)) + Flat(back);
    BestAppend(shelf.current + Flat(front), Flat(back), q);
    BestAppend(Flat(back), F.Settled(shelf), q);
    BestAppend(F.InMemory(shelf), F.Settled(shelf), q);
  }

  lemma MemoryTracked(s: Sys, es: seq<Transactions.Event>, u: Split, id: nat, q: Query)
    requires Initial(s) && Transactions.Runs(s, es) && Transactions.After(s, es) == u.sys && SameReads(All(u.shelf), u.sys.store)
    requires id in u.asked && id in u.sys.ctxs && u.asked[id].found == Best(F.InMemory(u.shelf), q)
    ensures Tracked(s, es, u, id, q)
  {
    ExplainedNow(s, es, id, q);
    BestAppend(F.InMemory(u.shelf), F.Settled(u.shelf), q);
    forall i | 0 <= i <= |u.shelf.frozen|
      ensures Explained(s, es, id, q, Pick(u.asked[id].found, Best(Cut(u.shelf, i), q)))
    {
      MemoryCovers(u.shelf, i, q);
    }
  }

  // ---- Between its steps ----

  lemma {:induction false} StackGrows(rs: seq<Rec>, was: seq<Rec>, q: Query)
    ensures Below(Best(was, q), Best(Stack(rs, was), q))
  {
    if rs != [] {
      var more := [rs[0]] + was;
      assert more[1..] == was;
      StackGrows(rs[1..], more, q);
    }
  }

  lemma PickAbove(found: Option<Rec>, b: Option<Rec>, now: Option<Rec>)
    requires Below(found, b) && Below(b, now)
    ensures Pick(found, now) == now || Pick(found, now) == Pick(found, b)
  {
  }

  lemma WholeTracked(s: Sys, es: seq<Transactions.Event>, u: Split, e: Transactions.Event, id: nat, q: Query)
    requires Initial(s) && Transactions.Runs(s, es) && Transactions.After(s, es) == u.sys
    requires Good(u) && SplitReads.Possible(u, Whole(e)) && id in u.asked && id in u.sys.ctxs && Tracked(s, es, u, id, q)
    ensures Transactions.Runs(s, es + [e]) && Tracked(s, es + [e], SplitReads.Next(u, Whole(e)), id, q)
  {
    var t, found := SplitReads.Next(u, Whole(e)), u.asked[id].found;
    OneEvent(s, es, e);
    WholeStands(u, e, id);
    EverythingOnTop(s, es, e, id, q, found, u.sys.store, Written(u.sys, e));
    CutsStay(s, es, e, u.shelf, t.shelf, id, q, found);
  }

  // A call of another transaction leaves a waiting get alone.
  lemma WholeStands(u: Split, e: Transactions.Event, id: nat)
    requires Good(u) && SplitReads.Possible(u, Whole(e)) && id in u.asked && id in u.sys.ctxs
    ensures var t := SplitReads.Next(u, Whole(e));
            && id in t.sys.ctxs && t.asked == u.asked && Caller(e) != Some(id)
            && t.sys.store == Stack(Written(u.sys, e), u.sys.store)
            && t.shelf.frozen == u.shelf.frozen && F.Settled(t.shelf) == F.Settled(u.shelf)
  {
    OthersStay(u.sys, e, id);
    StoreWritten(u.sys, e);
  }

  lemma EverythingOnTop(s: Sys, es: seq<Transactions.Event>, e: Transactions.Event, id: nat, q: Query, found: Option<Rec>,
                        was: seq<Rec>, rs: seq<Rec>)
    requires Initial(s) && Transactions.Runs(s, es + [e]) && Transactions.After(s, es + [e]).store == Stack(rs, was)
    requires id in Transactions.After(s, es + [e]).ctxs && Caller(e) != Some(id)
    requires Explained(s, es, id, q, Pick(found, Best(was, q))) && Below(found, Best(was, q))
    ensures Explained(s, es + [e], id, q, Pick(found, Best(Stack(rs, was), q))) && Below(found, Best(Stack(rs, was), q))
  {
    StackGrows(rs, was, q);
    PickAbove(found, Best(was, q), Best(Stack(rs, was), q));
    ExplainedNow(s, es + [e], id, q);
    ExplainedMore(s, es, e, id, q, Pick(found, Best(was, q)));
  }

  lemma CutsStay(s: Sys, es: seq<Transactions.Event>, e: Transactions.Event, shelf: F.State, t: F.State, id: nat, q: Query, found: Option<Rec>)
    requires Initial(s) && CutsExplained(s, es, shelf, id, q, found) && Caller(e) != Some(id)
    requires t.frozen == shelf.frozen && F.Settled(t) == F.Settled(shelf)
    ensures CutsExplained(s, es + [e], t, id, q, found)
  {
    forall i | 0 <= i <= |t.frozen|
      ensures Explained(s, es + [e], id, q, Pick(found, Best(Cut(t, i), q)))
    {
      assert Cut(t, i) == Cut(shelf, i);
      ExplainedMore(s, es, e, id, q, Pick(found, Best(Cut(shelf, i), q)));
    }
  }

  // Each cut after a phase of the flusher is one from before, or everything.
  ghost predicate Matches(shelf: F.State, now: seq<Rec>, q: Query)
  {
    Best(now, q) == Best(All(shelf), q) || exists k :: 0 <= k <= |shelf.frozen| && Best(now, q) == Best(Cut(shelf, k), q)
  }

  lemma CutMoves(shelf: F.State, f: F.Event, t: F.State, i: nat, q: Query)
    requires F.Inv(shelf) && F.Step(shelf, f, t) && !f.Write? && i <= |t.frozen|
    ensures Matches(shelf, Cut(t, i), q)
  {
    if f.Pop? {
      PopCut(shelf, t, i);
      assert Best(Cut(t, i), q) == Best(Cut(shelf, i), q);
    } else if f.Compact? {
      CompactCut(shelf, t, i, q);
      assert Best(Cut(t, i), q) == Best(Cut(shelf, i), q);
    } else if f.Register? {
      assert F.Settled(t) == F.Settled(shelf) && Best(Cut(t, i), q) == Best(Cut(shelf, i), q);
    } else if t.frozen != shelf.frozen {
      FreezeCut(shelf, i);
      assert i > 0 ==> Best(Cut(t, i), q) == Best(Cut(shelf, i - 1), q);
    } else {
      assert Best(Cut(t, i), q) == Best(Cut(shelf, i), q);
    }
  }

  lemma CompactCut(shelf: F.State, t: F.State, i: nat, q: Query)
    requires shelf.phase.Locked? && i <= |shelf.frozen| && t == shelf.(stored := t.stored) && SameGroups(t.stored, shelf.stored)
    ensures Best(Cut(t, i), q) == Best(Cut(shelf, i), q)
  {
    var part := Flat(shelf.frozen[i..]);
    assert F.Settled(shelf) == shelf.stored && F.Settled(t) == t.stored;
    BestAppend(part, shelf.stored, q);
    BestAppend(part, t.stored, q);
    SameGroupsSameBest(t.stored, shelf.stored, q);
  }

  lemma PopCut(shelf: F.State, t: F.State, i: nat)
    requires F.Inv(shelf) && F.Step(shelf, F.Pop, t) && i <= |t.frozen|
    ensures i <= |shelf.frozen| && Cut(t, i) == Cut(shelf, i)
  {
    var n := |shelf.frozen| - 1;
    var part := shelf.frozen[i..n];
    assert shelf.frozen[i..] == part + [shelf.frozen[n]] && t.frozen[i..] == part;
    FlatAppend(part, [shelf.frozen[n]]);
    FlatOne(shelf.frozen[n]);
    assert Flat(part) + (shelf.phase.table + shelf.stored) == Flat(part) + shelf.phase.table + ([] + shelf.stored);
  }

  lemma FreezeCut(shelf: F.State, i: nat)
    requires shelf.current != [] && i <= |shelf.frozen| + 1
    ensures var part := Flat(([shelf.current] + shelf.frozen)[i..]) + F.Settled(shelf);
            if i == 0 then part == All(shelf) else part == Cut(shelf, i - 1)
  {
    var tables := [shelf.current] + shelf.frozen;
    if i == 0 {
      assert tables[0..] == tables && tables[1..] == shelf.frozen;
    } else {
      assert tables[i..] == shelf.frozen[i - 1..];
    }
  }

  lemma FlusherTracked(s: Sys, es: seq<Transactions.Event>, u: Split, f: F.Event, t: F.State, id: nat, q: Query)
    requires Initial(s) && Good(u) && F.Step(u.shelf, f, t) && !f.Write? && SameReads(All(u.shelf), u.sys.store)
    requires id in u.asked && Tracked(s, es, u, id, q)
    ensures Tracked(s, es, u.(shelf := t), id, q)
  {
    forall i | 0 <= i <= |t.frozen|
      ensures Explained(s, es, id, q, Pick(u.asked[id].found, Best(Cut(t, i), q)))
    {
      CutMoves(u.shelf, f, t, i, q);
      if Best(Cut(t, i), q) != Best(All(u.shelf), q) {
        var k :| 0 <= k <= |u.shelf.frozen| && Best(Cut(t, i), q) == Best(Cut(u.shelf, k), q);
      }
    }
  }

  // ---- Every run with split gets is a run with whole ones ----

  // The run of whole gets that ends in the same state, and explains the gets under way.
  ghost predicate AsWhole(s: Split, whole: seq<Transactions.Event>, u: Split)
    requires Start(s)
  {
    && Transactions.Runs(s.sys, whole) && Stages(whole) && Transactions.After(s.sys, whole) == u.sys
    && SameReads(All(u.shelf), u.sys.store) && AllLast(All(u.shelf), u.sys.ctxs, s.sys.mgr.nextId)
    && forall id :: id in u.asked ==> Explains(s, whole, u, id)
  }

  ghost predicate Explains(s: Split, whole: seq<Transactions.Event>, u: Split, id: nat)
    requires Start(s) && id in u.asked
  {
    id in u.sys.ctxs && Tracked(s.sys, whole, u, id, AsksFor(u.sys.ctxs[id], u.asked[id].key, s.sys.mgr.aborted))
  }

  lemma UpsertedReads(shelf: F.State, store: seq<Rec>, rs: seq<Rec>)
    requires Strict(shelf.current) && SameReads(All(shelf), store)
    ensures SameReads(All(shelf.(current := Upserts(shelf.current, rs))), Stack(rs, store))
  {
    var rest, now := Flat(shelf.frozen) + F.Settled(shelf), shelf.(current := Upserts(shelf.current, rs));
    assert All(shelf) == shelf.current + rest && All(now) == now.current + rest;
    UpsertsAdd(shelf.current, rest, rs);
    StackStands(rs, All(shelf), store);
  }

  lemma UpsertedLasts(s: Sys, shelf: F.State, e: Transactions.Event, first: nat)
    requires Formed(s) && Transactions.Possible(s, e) && forall id :: id in s.ctxs ==> s.ctxs[id].level != ReadUncommitted
    requires AllLast(All(shelf), s.ctxs, first)
    ensures AllLast(All(shelf.(current := Upserts(shelf.current, Written(s, e)))), Transactions.Next(s, e).ctxs, first)
  {
    var now := shelf.(current := Upserts(shelf.current, Written(s, e)));
    NextGrown(s, e);
    forall r | r in All(now)
      ensures r in All(shelf) || Lasting(Transactions.Next(s, e).ctxs, first, r.ver)
    {
      if r in now.current {
        UpsertsHave(shelf.current, Written(s, e), r);
        if r in Written(s, e) {
          WrittenLasts(s, e, first, r);
        }
      }
    }
    LastMore(All(shelf), All(now), s.ctxs, Transactions.Next(s, e).ctxs, first);
  }

  lemma WholeStep(s: Split, whole: seq<Transactions.Event>, u: Split, e: Transactions.Event)
    requires Start(s) && Good(u) && AsWhole(s, whole, u) && SplitReads.Possible(u, Whole(e)) && (e.Begin? ==> e.level != ReadUncommitted)
    ensures AsWhole(s, whole + [e], SplitReads.Next(u, Whole(e)))
  {
    var t := SplitReads.Next(u, Whole(e));
    OneEvent(s.sys, whole, e);
    StoreWritten(u.sys, e);
    UpsertedReads(u.shelf, u.sys.store, Written(u.sys, e));
    RunSteady(s.sys, whole);
    UpsertedLasts(u.sys, u.shelf, e, s.sys.mgr.nextId);
    forall id | id in t.asked
      ensures Explains(s, whole + [e], t, id)
    {
      assert Explains(s, whole, u, id);
      OthersStay(u.sys, e, id);
      WholeTracked(s.sys, whole, u, e, id, AsksFor(u.sys.ctxs[id], u.asked[id].key, s.sys.mgr.aborted));
    }
  }

  lemma FlusherStep(s: Split, whole: seq<Transactions.Event>, u: Split, f: F.Event, shelf: F.State)
    requires Start(s) && Good(u) && AsWhole(s, whole, u) && SplitReads.Possible(u, Flusher(f, shelf))
    ensures AsWhole(s, whole, u.(shelf := shelf))
  {
    FlusherGroups(u.shelf, f, shelf);
    forall q
      ensures Best(All(shelf), q) == Best(u.sys.store, q)
    {
      SameGroupsSameBest(All(shelf), All(u.shelf), q);
    }
    forall r | r in All(shelf)
      ensures r in All(u.shelf)
    {
      SameGroupsHas(All(shelf), All(u.shelf), r);
    }
    LastMore(All(u.shelf), All(shelf), u.sys.ctxs, u.sys.ctxs, s.sys.mgr.nextId);
    forall id | id in u.asked
      ensures Explains(s, whole, u.(shelf := shelf), id)
    {
      assert Explains(s, whole, u, id);
      FlusherTracked(s.sys, whole, u, f, shelf, id, AsksFor(u.sys.ctxs[id], u.asked[id].key, s.sys.mgr.aborted));
    }
  }

  lemma MemoryStep(s: Split, whole: seq<Transactions.Event>, u: Split, id: nat, key: Key)
    requires Start(s) && Good(u) && AsWhole(s, whole, u) && SplitReads.Possible(u, AskMemory(id, key))
    ensures AsWhole(s, whole, SplitReads.Next(u, AskMemory(id, key)))
  {
    var t := SplitReads.Next(u, AskMemory(id, key));
    var c := u.sys.ctxs[id];
    RunSteady(s.sys, whole);
    LastMore(All(u.shelf), F.InMemory(u.shelf), u.sys.ctxs, u.sys.ctxs, s.sys.mgr.nextId);
    SkipSame(u.sys, F.InMemory(u.shelf), key, Bound(c), s.sys.mgr.nextId, s.sys.mgr.aborted);
    MemoryTracked(s.sys, whole, t, id, AsksFor(c, key, s.sys.mgr.aborted));
    forall x | x in t.asked
      ensures Explains(s, whole, t, x)
    {
      if x != id {
        assert Explains(s, whole, u, x);
      }
    }
  }

  // The answer of the second step is that of a whole get at some moment.
  lemma AnswerExplained(s: Split, whole: seq<Transactions.Event>, u: Split, id: nat) returns (j: nat)
    requires Start(s) && Good(u) && AsWhole(s, whole, u) && SplitReads.Possible(u, AskTables(id))
    ensures id in u.sys.ctxs && j <= |whole| && Transactions.Runs(s.sys, whole[..j]) && Untouched(whole[j..], id)
    ensures id in Transactions.After(s.sys, whole[..j]).ctxs
    ensures Answer(u, id) == Mvcc.Visible(Best(Transactions.After(s.sys, whole[..j]).store, AsksFor(u.sys.ctxs[id], u.asked[id].key, s.sys.mgr.aborted)))
  {
    assert Explains(s, whole, u, id);
    var q := AsksFor(u.sys.ctxs[id], u.asked[id].key, s.sys.mgr.aborted);
    RunSteady(s.sys, whole);
    LastCut(u.shelf);
    AnswerIs(u, id, s.sys.mgr.nextId, s.sys.mgr.aborted);
    j :| At(s.sys, whole, j, id, q, Pick(u.asked[id].found, Best(Cut(u.shelf, |u.shelf.frozen|), q)));
  }

  lemma LastCut(shelf: F.State)
    requires F.CanReadTables(shelf)
    ensures Cut(shelf, |shelf.frozen|) == shelf.stored
  {
    assert shelf.frozen[|shelf.frozen|..] == [] && [] + ([] + shelf.stored) == shelf.stored;
  }

  lemma AnswerIs(u: Split, id: nat, first: nat, base: set<nat>)
    requires Good(u) && Steady(u.sys, first, base) && AllLast(All(u.shelf), u.sys.ctxs, first) && id in u.asked && id in u.sys.ctxs
    ensures var q := AsksFor(u.sys.ctxs[id], u.asked[id].key, base);
            Answer(u, id) == Mvcc.Visible(Pick(u.asked[id].found, Best(u.shelf.stored, q)))
  {
    LastMore(All(u.shelf), u.shelf.stored, u.sys.ctxs, u.sys.ctxs, first);
    SkipSame(u.sys, u.shelf.stored, u.asked[id].key, Bound(u.sys.ctxs[id]), first, base);
  }

  lemma {:induction false} StaysSince(s: Sys, es: seq<Transactions.Event>, j: nat, id: nat)
    requires Initial(s) && Transactions.Runs(s, es) && j <= |es| && Transactions.Runs(s, es[..j]) && Untouched(es[j..], id)
    requires id in Transactions.After(s, es[..j]).ctxs
    ensures id in Transactions.After(s, es).ctxs && Transactions.After(s, es).ctxs[id] == Transactions.After(s, es[..j]).ctxs[id]
    decreases |es|
  {
    if j == |es| {
      assert es[..j] == es;
    } else {
      FrontOf(es, j, id);
      StaysSince(s, es[..|es| - 1], j, id);
      OthersStay(Transactions.After(s, es[..|es| - 1]), es[|es| - 1], id);
    }
  }

  // The whole get at that moment does to the context what the split one does.
  lemma SameAnswer(s: Sys, es: seq<Transactions.Event>, c: Ctx, key: Key, found: Option<Rec>)
    requires Initial(s) && Transactions.Runs(s, es) && Stages(es) && NeedsStorage(c, key) && c.level != ReadUncommitted
    requires found == Mvcc.Visible(Best(Transactions.After(s, es).store, AsksFor(c, key, s.mgr.aborted)))
    ensures var m := Transactions.After(s, es); AfterGet(c, key, m.store, m.mgr) == Answered(c, key, found)
  {
    var m := Transactions.After(s, es);
    RunSteady(s, es);
    SkipSame(m, m.store, key, Bound(c), s.mgr.nextId, s.mgr.aborted);
    assert Fetched(c, key, m.store, m.mgr) == found;
  }

  lemma {:induction false} StagesPrefix(es: seq<Transactions.Event>, j: nat, id: nat, key: Key)
    requires Stages(es) && j <= |es|
    ensures Stages(es[..j]) && Stages(PutIn(es, j, id, key))
    ensures forall e :: e in PutIn(es, j, id, key) && e.Begin? ==> e in es
  {
  }

  lemma TablesStep(s: Split, whole: seq<Transactions.Event>, u: Split, id: nat) returns (more: seq<Transactions.Event>)
    requires Start(s) && Good(u) && AsWhole(s, whole, u) && SplitReads.Possible(u, AskTables(id))
    ensures AsWhole(s, more, SplitReads.Next(u, AskTables(id)))
    ensures forall e :: e in more && e.Begin? ==> e in whole
  {
    var t, key := SplitReads.Next(u, AskTables(id)), u.asked[id].key;
    var j := AnswerExplained(s, whole, u, id);
    TablesRun(s, whole, u, id, j);
    more := PutIn(whole, j, id, key);
    TablesLast(u, id, s.sys.mgr.nextId);
    forall x | x in t.asked
      ensures Explains(s, more, t, x)
    {
      assert Explains(s, whole, u, x);
      OthersTracked(s, whole, u, j, id, key, x, t);
    }
  }

  lemma TablesRun(s: Split, whole: seq<Transactions.Event>, u: Split, id: nat, j: nat)
    requires Start(s) && Good(u) && AsWhole(s, whole, u) && SplitReads.Possible(u, AskTables(id))
    requires j <= |whole| && Transactions.Runs(s.sys, whole[..j]) && Untouched(whole[j..], id) && id in u.sys.ctxs
    requires id in Transactions.After(s.sys, whole[..j]).ctxs
    requires Answer(u, id) == Mvcc.Visible(Best(Transactions.After(s.sys, whole[..j]).store, AsksFor(u.sys.ctxs[id], u.asked[id].key, s.sys.mgr.aborted)))
    ensures var more := PutIn(whole, j, id, u.asked[id].key);
            && Transactions.Runs(s.sys, more) && Stages(more) && Transactions.After(s.sys, more) == SplitReads.Next(u, AskTables(id)).sys
            && (forall e :: e in more && e.Begin? ==> e in whole)
    ensures u.asked[id].key != [] && !Over(Transactions.After(s.sys, whole[..j]).ctxs[id])
  {
    var key, c, found := u.asked[id].key, u.sys.ctxs[id], Answer(u, id);
    ContextAt(s, whole, u, id, j);
    StagesPrefix(whole, j, id, key);
    SameAnswer(s.sys, whole[..j], c, key, found);
    Inserted(s.sys, whole, j, id, key);
    assert Transactions.After(s.sys, PutIn(whole, j, id, key)) == With(u.sys, Answered(c, key, found));
  }

  lemma ContextAt(s: Split, whole: seq<Transactions.Event>, u: Split, id: nat, j: nat)
    requires Start(s) && Good(u) && AsWhole(s, whole, u) && id in u.asked && j <= |whole| && Transactions.Runs(s.sys, whole[..j])
    requires Untouched(whole[j..], id) && id in Transactions.After(s.sys, whole[..j]).ctxs
    ensures id in u.sys.ctxs && Transactions.After(s.sys, whole[..j]).ctxs[id] == u.sys.ctxs[id]
    ensures u.asked[id].key != [] && NeedsStorage(u.sys.ctxs[id], u.asked[id].key) && u.sys.ctxs[id].level != ReadUncommitted
  {
    assert Waiting(u, id);
    StaysSince(s.sys, whole, j, id);
    RunSteady(s.sys, whole);
  }

  lemma TablesLast(u: Split, id: nat, first: nat)
    requires Good(u) && SplitReads.Possible(u, AskTables(id)) && AllLast(All(u.shelf), u.sys.ctxs, first)
    ensures var t := SplitReads.Next(u, AskTables(id)); AllLast(All(t.shelf), t.sys.ctxs, first)
    ensures var t := SplitReads.Next(u, AskTables(id)); forall x :: x in t.asked ==> x != id && x in t.sys.ctxs && t.sys.ctxs[x] == u.sys.ctxs[x]
  {
    assert Waiting(u, id) && FormedCtx(u.sys, id);
    var t := SplitReads.Next(u, AskTables(id));
    OneGrown(u.sys.ctxs, t.sys.ctxs[id]);
    LastMore(All(u.shelf), All(t.shelf), u.sys.ctxs, t.sys.ctxs, first);
    forall x | x in t.asked
      ensures x != id && x in t.sys.ctxs && t.sys.ctxs[x] == u.sys.ctxs[x]
    {
      assert Waiting(u, x);
    }
  }

  lemma OthersTracked(s: Split, whole: seq<Transactions.Event>, u: Split, j: nat, id: nat, key: Key, x: nat, t: Split)
    requires Start(s) && Transactions.Runs(s.sys, whole) && j <= |whole| && Transactions.Runs(s.sys, whole[..j])
    requires Untouched(whole[j..], id) && key != []
    requires var c := Transactions.After(s.sys, whole[..j]).ctxs; id in c && !Over(c[id])
    requires x != id && x in u.asked && x in t.asked && t.asked[x] == u.asked[x] && t.shelf == u.shelf && t.sys.store == u.sys.store
    requires x in u.sys.ctxs && x in t.sys.ctxs && t.sys.ctxs[x] == u.sys.ctxs[x] && Explains(s, whole, u, x)
    ensures Explains(s, PutIn(whole, j, id, key), t, x)
  {
    var q, found := AsksFor(u.sys.ctxs[x], u.asked[x].key, s.sys.mgr.aborted), u.asked[x].found;
    ExplainedInserted(s.sys, whole, j, id, key, x, q, Pick(found, Best(u.sys.store, q)));
    forall i | 0 <= i <= |t.shelf.frozen|
      ensures Explained(s.sys, PutIn(whole, j, id, key), x, q, Pick(found, Best(Cut(t.shelf, i), q)))
    {
      ExplainedInserted(s.sys, whole, j, id, key, x, q, Pick(found, Best(Cut(u.shelf, i), q)));
    }
  }

  // Above read-uncommitted.
  ghost predicate AllStage(es: seq<SplitReads.Event>)
  {
    forall e :: Whole(e) in es && e.Begin? ==> e.level != ReadUncommitted
  }

  lemma {:induction false} SplitIsWhole(s: Split, es: seq<SplitReads.Event>) returns (whole: seq<Transactions.Event>)
    requires Start(s) && SplitReads.Runs(s, es) && AllStage(es)
    ensures AsWhole(s, whole, SplitReads.After(s, es))
    ensures forall e :: e in whole && e.Begin? ==> Whole(e) in es
    decreases |es|
  {
    if es == [] {
      whole := [];
    } else {
      var front, last := es[..|es| - 1], es[|es| - 1];
      assert forall e :: e in front ==> e in es;
      assert last in es;
      whole := SplitIsWhole(s, front);
      var u := SplitReads.After(s, front);
      match last
      case Whole(e) =>
        WholeStep(s, whole, u, e);
        whole := whole + [e];
      case Flusher(f, shelf) => FlusherStep(s, whole, u, f, shelf);
      case AskMemory(id, key) => MemoryStep(s, whole, u, id, key);
      case AskTables(id) => whole := TablesStep(s, whole, u, id);
    }
  }

  // So with split gets too: played one at a time in commit order, the committed
  // serializable transactions read what they read, and leave what any read of memory and
  // tables finds.
  lemma SplitSerializability(s: Split, es: seq<SplitReads.Event>, key: Key, strict: bool)
    requires Start(s) && SplitReads.Runs(s, es) && key != []
    requires forall e :: Whole(e) in es && e.Begin? ==> e.level == Serializable
    ensures var t := SplitReads.After(s, es); var db := Serials.DbOf(s.sys);
            && Serials.PlaysAll(db, t.sys.history)
            && ValueOf(Read(All(t.shelf), t.sys.mgr, key, 0, strict)) == Serials.Value(Serials.PlayAll(db, t.sys.history), key)
  {
    var whole := SplitIsWhole(s, es);
    forall i | 0 <= i < |whole| && whole[i].Begin?
      ensures whole[i].level == Serializable
    {
      assert whole[i] in whole;
    }
    Serials.Serializability(s.sys, whole);
    Serials.SerialResult(s.sys, whole, All(SplitReads.After(s, es).shelf), key, strict);
  }
}
