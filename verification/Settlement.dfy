// The meaning of the checkpoint over runs of the whole system.

module Settlements {
  import opened TranFiles
  import TranManagers
  import opened Transactions

  // What one step of the system does to the manager.
  ghost function Told(s: Sys, e: Event): seq<TranManagers.Event>
    requires Formed(s) && Possible(s, e)
  {
    match e
    case Begin(_) => [TranManagers.Begin]
    case Commit(id, _, ok) =>
      var c := s.ctxs[id];
      if Over(c) || HasEnding(c.ops) then []
      else if Conflict(c, s.store, s.mgr) then [TranManagers.End(id, TransactionState.Aborted)]
      else if ok then [TranManagers.End(id, OpCommitted)]
      else []
    case Abort(id) =>
      var c := s.ctxs[id];
      if Over(c) || HasEnding(c.ops) then [] else [TranManagers.End(id, TransactionState.Aborted)]
    case Notify(id) => [TranManagers.Notify(id)]
    case _ => []
  }

  // What a run does to the manager, in order.
  ghost function AllTold(s: Sys, es: seq<Event>): seq<TranManagers.Event>
    requires Initial(s) && Runs(s, es)
    decreases |es|
  {
    if es == [] then []
    else AllTold(s, es[..|es| - 1]) + Told(After(s, es[..|es| - 1]), es[|es| - 1])
  }

  // How a context ended.
  ghost predicate EndedAs(s: Sys, e: Ended)
  {
    e.id in s.ctxs && match e.state
                      case OpCommitted => s.ctxs[e.id].committed
                      case Aborted => s.ctxs[e.id].aborted
  }

  // A notification settles a transaction that has ended: a committed one its own, a
  // rolled-back one that of any id from its own on.
  ghost predicate Settles(s: Sys, e: Event, id: nat)
  {
    e.Notify? && id in s.ctxs && ((s.ctxs[id].committed && e.id == id) || (s.ctxs[id].aborted && id <= e.id))
  }

  ghost predicate Settled(s: Sys, es: seq<Event>, id: nat)
    requires Initial(s) && Runs(s, es)
    decreases |es|
  {
    es != [] && (Settled(s, es[..|es| - 1], id) || Settles(After(s, es[..|es| - 1]), es[|es| - 1], id))
  }

  // ---- The manager's own run inside a run of the system ----

  lemma StepTold(s: Sys, e: Event)
    requires Formed(s) && Possible(s, e)
    ensures var told := Told(s, e);
            && |told| <= 1 && (told == [] ==> Next(s, e).mgr == s.mgr)
            && (told != [] ==> TranManagers.Allowed(s.mgr, told[0]) && Next(s, e).mgr == TranManagers.Apply(s.mgr, told[0]))
  {
    if (e.Commit? || e.Abort?) && !Over(s.ctxs[e.id]) {
      assert FormedCtx(s, e.id);
    }
  }

  lemma {:induction false} RunTold(s: Sys, es: seq<Event>)
    requires Initial(s) && Runs(s, es) && TranManagers.Compressed(s.mgr.flushed)
    ensures TranManagers.Proper(s.mgr, AllTold(s, es)) && TranManagers.After(s.mgr, AllTold(s, es)) == After(s, es).mgr
    decreases |es|
  {
    if es != [] {
      var front, last := es[..|es| - 1], es[|es| - 1];
      RunTold(s, front);
      StepTold(After(s, front), last);
      var was, told := AllTold(s, front), Told(After(s, front), last);
      if told == [] {
        assert was + told == was;
      } else {
        assert (was + told)[..|was|] == was && (was + told)[|was|] == told[0];
      }
    }
  }

  // A step ends at most the transaction whose call it is.
  lemma StepEnds(s: Sys, e: Event, x: Ended)
    requires Formed(s) && Possible(s, e)
    ensures EndedAs(Next(s, e), x) <==> EndedAs(s, x) || Told(s, e) == [TranManagers.End(x.id, x.state)]
  {
    match e
    case Begin(level) => BeginFormed(s, level);
    case Write(id, key, value, removal, ok) => assert FormedCtx(s, id);
    case Get(id, key) => assert FormedCtx(s, id);
    case Commit(id, order, ok) => CommitEnds(s, e, x);
    case Abort(id) => assert FormedCtx(s, id);
    case Notify(id) =>
    case Rearrange(now) =>
  }

  lemma CommitEnds(s: Sys, e: Event, x: Ended)
    requires Formed(s) && Possible(s, e) && e.Commit?
    ensures EndedAs(Next(s, e), x) <==> EndedAs(s, x) || Told(s, e) == [TranManagers.End(x.id, x.state)]
  {
    assert FormedCtx(s, e.id);
  }

  lemma {:induction false} EndsTold(s: Sys, es: seq<Event>, x: Ended)
    requires Initial(s) && Runs(s, es)
    ensures TranManagers.EndedIn(AllTold(s, es), x) <==> EndedAs(After(s, es), x)
    decreases |es|
  {
    if es != [] {
      var front, last := es[..|es| - 1], es[|es| - 1];
      EndsTold(s, front, x);
      StepTold(After(s, front), last);
      StepEnds(After(s, front), last, x);
      var was, told := AllTold(s, front), Told(After(s, front), last);
      if told == [] {
        assert was + told == was;
      } else {
        TranManagers.EndedMore(was, told[0], x);
        assert told == [told[0]];
      }
    }
  }

  lemma {:induction false} SettledTold(s: Sys, es: seq<Event>, id: nat)
    requires Initial(s) && Runs(s, es)
    ensures TranManagers.SettledBy(AllTold(s, es), id) <==> Settled(s, es, id)
    decreases |es|
  {
    if es != [] {
      var front, last := es[..|es| - 1], es[|es| - 1];
      SettledTold(s, front, id);
      StepTold(After(s, front), last);
      var was, told := AllTold(s, front), Told(After(s, front), last);
      if told == [] {
        assert was + told == was;
      } else {
        assert told == [told[0]];
        TranManagers.SettledMore(was, told[0], id);
        SettlesTold(s, front, last, id);
      }
    }
  }

  lemma SettlesTold(s: Sys, front: seq<Event>, last: Event, id: nat)
    requires Initial(s) && Runs(s, front)
    ensures Settles(After(s, front), last, id) <==>
              last.Notify? && exists x :: TranManagers.EndedIn(AllTold(s, front), x) && x.id == id && TranManagers.Sweeps(x, last.id)
  {
    forall x: Ended
      ensures TranManagers.EndedIn(AllTold(s, front), x) <==> EndedAs(After(s, front), x)
    {
      EndsTold(s, front, x);
    }
    if Settles(After(s, front), last, id) {
      var x := Ended(id, if After(s, front).ctxs[id].committed && last.id == id then OpCommitted else TransactionState.Aborted);
      assert TranManagers.EndedIn(AllTold(s, front), x) && x.id == id && TranManagers.Sweeps(x, last.id);
    }
  }

  lemma AllSettledTold(s: Sys, es: seq<Event>)
    requires Initial(s) && Runs(s, es)
    ensures forall id: nat :: TranManagers.SettledBy(AllTold(s, es), id) <==> Settled(s, es, id)
  {
    forall id: nat
      ensures TranManagers.SettledBy(AllTold(s, es), id) <==> Settled(s, es, id)
    {
      SettledTold(s, es, id);
    }
  }

  // In every run of the system: the ids the flushed set covers are exactly those up to
  // the baseline and the settled transactions; the checkpoint never passes one that is
  // not settled; and the set is what compressing all settled ids at once gives.
  lemma CheckpointOfRuns(s: Sys, es: seq<Event>, b: nat, all: seq<nat>)
    requires Initial(s) && Runs(s, es) && TranManagers.Baseline(s.mgr, b)
    requires Ascending(all) && forall x :: x in all <==> x == b || (x > b && Settled(s, es, x))
    ensures var f := After(s, es).mgr.flushed;
            && (forall id: nat :: TranManagers.Covers(f, id) <==> id <= b || Settled(s, es, id))
            && (forall id: nat :: id > b && !Settled(s, es, id) ==> f[0] < id)
            && f == TranManagers.Compress(all)
  {
    RunTold(s, es);
    AllSettledTold(s, es);
    TranManagers.CheckpointMeaning(s.mgr, AllTold(s, es), b, all);
  }

  // And it never moves back.
  lemma {:induction false} CheckpointNeverFalls(s: Sys, es: seq<Event>, n: nat)
    requires Initial(s) && Runs(s, es) && TranManagers.Compressed(s.mgr.flushed) && n <= |es|
    ensures Runs(s, es[..n]) && After(s, es[..n]).mgr.flushed[0] <= After(s, es).mgr.flushed[0]
    decreases |es|
  {
    if n < |es| {
      var front, last := es[..|es| - 1], es[|es| - 1];
      CheckpointNeverFalls(s, front, n);
      assert front[..n] == es[..n];
      RunTold(s, front);
      StepTold(After(s, front), last);
      if Told(After(s, front), last) != [] {
        TranManagers.ApplyKeeps(After(s, front).mgr, Told(After(s, front), last)[0]);
      }
    } else {
      assert es[..n] == es;
    }
  }
}
