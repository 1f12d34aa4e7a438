// Below serializable the guarantee fails: two repeatable-read transactions read a key,
// both write it, and both commit.

module LostUpdates {
  import opened Bytes
  import opened Mvcc
  import opened MemTables
  import opened WalRecords
  import opened TranFiles
  import opened TranManagers
  import opened Transactions
  import opened Serials

  const KEY: ByteString := [107]

  function Fresh(): Sys
  {
    Sys([], [], false, Mgr(1, {}, [], [0], {}), map[], [])
  }

  // The run has got to a state.
  ghost predicate Reaches(es: seq<Transactions.Event>, t: Sys)
  {
    Initial(Fresh()) && Runs(Fresh(), es) && Transactions.After(Fresh(), es) == t
  }

  lemma Reach(es: seq<Transactions.Event>, t: Sys, e: Transactions.Event)
    requires Reaches(es, t) && Possible(t, e)
    ensures Formed(t) && Reaches(es + [e], Next(t, e))
  {
    assert (es + [e])[..|es|] == es;
  }

  lemma Start()
    ensures Reaches([], Fresh())
  {
    assert Checkpointed([0]) && IdsRise([]);
  }

  function Reader(id: u64): Ctx
  {
    NewCtx(id, RepeatableRead).(cache := map[KEY := None], trace := [Got(KEY, [])])
  }

  function Writer(id: u64, value: ByteString): Ctx
  {
    Reader(id).(ops := [Create(id), Put(id, KEY, value)], temp := map[KEY := value], trace := [Got(KEY, []), Wrote(KEY, value)])
  }

  function Done(id: u64, value: ByteString): Ctx
  {
    Writer(id, value).(ops := [Create(id), Put(id, KEY, value), Record.Commit(id)], written := 3, committed := true)
  }

  function Two(one: Ctx, two: Ctx): Sys
  {
    Fresh().(mgr := Mgr(3, {1, 2}, [], [0], {}), ctxs := map[1 := one, 2 := two])
  }

  lemma Began() returns (es: seq<Transactions.Event>)
    ensures Reaches(es, Two(NewCtx(1, RepeatableRead), NewCtx(2, RepeatableRead)))
  {
    Start();
    var b := Transactions.Event.Begin(RepeatableRead);
    Reach([], Fresh(), b);
    var mid := Next(Fresh(), b);
    Reach([] + [b], mid, b);
    es := [] + [b] + [b];
    assert Next(mid, b) == Two(NewCtx(1, RepeatableRead), NewCtx(2, RepeatableRead));
  }

  lemma ReadsNothing(id: u64, m: Mgr)
    ensures AfterGet(NewCtx(id, RepeatableRead), KEY, [], m) == Reader(id)
  {
    var c := NewCtx(id, RepeatableRead);
    assert Fetched(c, KEY, [], m) == None;
    assert c.trace + [Got(KEY, [])] == [Got(KEY, [])];
  }

  lemma ReadBoth() returns (es: seq<Transactions.Event>)
    ensures Reaches(es, Two(Reader(1), Reader(2)))
  {
    es := Began();
    var s := Two(NewCtx(1, RepeatableRead), NewCtx(2, RepeatableRead));
    Reach(es, s, Get(1, KEY));
    ReadsNothing(1, s.mgr);
    ReadsNothing(2, s.mgr);
    assert Next(s, Get(1, KEY)) == Two(Reader(1), NewCtx(2, RepeatableRead));
    es := es + [Get(1, KEY)];
    s := Two(Reader(1), NewCtx(2, RepeatableRead));
    Reach(es, s, Get(2, KEY));
    assert Next(s, Get(2, KEY)) == Two(Reader(1), Reader(2));
    es := es + [Get(2, KEY)];
  }

  lemma WriteBoth() returns (es: seq<Transactions.Event>)
    ensures Reaches(es, Two(Writer(1, [1]), Writer(2, [2])))
  {
    es := ReadBoth();
    var s, t := Two(Reader(1), Reader(2)), Two(Writer(1, [1]), Reader(2));
    var e, f := Write(1, KEY, [1], false, true), Write(2, KEY, [2], false, true);
    Reach(es, s, e);
    WriteStep(s, 1, [1]);
    assert Next(s, e) == t;
    es := es + [e];
    Reach(es, t, f);
    WriteStep(t, 2, [2]);
    assert Next(t, f) == Two(Writer(1, [1]), Writer(2, [2]));
    es := es + [f];
  }

  lemma WriteStep(s: Sys, id: u64, value: ByteString)
    requires Formed(s) && id as nat in s.ctxs && s.ctxs[id as nat] == Reader(id) && |value| == 1
    ensures DoWrite(s, Reader(id), KEY, value, false, true) == s.(ctxs := s.ctxs[id as nat := Writer(id, value)])
  {
    var c := Reader(id);
    var w := Put(id, KEY, value);
    assert |Body(w)| == 6;
    assert c.ops + [w] == [Create(id), w] && c.trace + [Wrote(KEY, value)] == [Got(KEY, []), Wrote(KEY, value)];
    assert Staged(Noted(c, w), KEY, value) == Writer(id, value);
  }

  // The state once the first has committed, then the second.
  function OneDone(): Sys
  {
    Two(Done(1, [1]), Writer(2, [2])).(store := [Rec([], [], 1), Rec(KEY, [1], 1)], log := Done(1, [1]).ops,
                                       mgr := Mgr(3, {2}, [Ended(1, OpCommitted)], [0], {}), history := [Done(1, [1])])
  }

  lemma StoredFirst()
    ensures Stack(CommitWrites(Writer(1, [1]), [KEY]), []) == [Rec([], [], 1), Rec(KEY, [1], 1)]
  {
    var a, b := Rec(KEY, [1], 1), Rec([], [], 1);
    assert CommitWrites(Writer(1, [1]), [KEY]) == [a, b];
    assert [a, b][1..] == [b] && [b][1..] == [] && [a] + [] == [a] && [b] + [a] == [b, a];
    assert Stack([b], [a]) == Stack([], [b, a]);
  }

  lemma FirstCommits()
    requires Formed(Two(Writer(1, [1]), Writer(2, [2])))
    ensures DoCommit(Two(Writer(1, [1]), Writer(2, [2])), Writer(1, [1]), [KEY], true) == OneDone()
  {
    var s := Two(Writer(1, [1]), Writer(2, [2]));
    var c := Writer(1, [1]);
    StoredFirst();
    assert Latest([], KEY, s.mgr) == None;
    assert !Conflict(c, s.store, s.mgr);
    var d := Noted(c, Record.Commit(1));
    assert !HasEnding(c.ops);
    assert d.ops == [Create(1), Put(1, KEY, [1]), Record.Commit(1)] && d.ops[0..] == d.ops && [] + d.ops == d.ops;
    assert Sent(d).(committed := true) == Done(1, [1]);
    assert Register([], Ended(1, OpCommitted)) == [Ended(1, OpCommitted)];
  }

  // The newest version of the key is the first writer's, which is no larger than the
  // second's id: no conflict is seen, though the second never read it.
  lemma SecondCommits()
    requires Formed(OneDone())
    ensures var t := DoCommit(OneDone(), Writer(2, [2]), [KEY], true); t.ctxs == map[1 := Done(1, [1]), 2 := Done(2, [2])]
  {
    var s := OneDone();
    var c := Writer(2, [2]);
    assert s.store[1..] == [Rec(KEY, [1], 1)] && [Rec(KEY, [1], 1)][1..] == [];
    var q := Query(KEY, 0, s.mgr.aborted);
    assert |KEY| == 1 && s.store[0].key == [];
    assert Best([Rec(KEY, [1], 1)], q) == Some(Rec(KEY, [1], 1)) ;
    assert |q.key| == 1 && |s.store[0].key| == 0;
    assert !Eligible(s.store[0], q);
    assert Latest(s.store, KEY, s.mgr) == Some(Rec(KEY, [1], 1));
    assert !Conflict(c, s.store, s.mgr);
    var d := Noted(c, Record.Commit(2));
    assert !HasEnding(c.ops);
    assert d.ops == [Create(2), Put(2, KEY, [2]), Record.Commit(2)];
    assert Sent(d).(committed := true) == Done(2, [2]);
  }

  lemma CommitBoth() returns (es: seq<Transactions.Event>, t: Sys)
    ensures Reaches(es, t) && t.ctxs == map[1 := Done(1, [1]), 2 := Done(2, [2])]
  {
    es := WriteBoth();
    var s := Two(Writer(1, [1]), Writer(2, [2]));
    var e, f := Transactions.Event.Commit(1, [KEY], true), Transactions.Event.Commit(2, [KEY], true);
    Reach(es, s, e);
    FirstCommits();
    assert Next(s, e) == OneDone();
    es := es + [e];
    Reach(es, OneDone(), f);
    SecondCommits();
    es := es + [f];
    t := Next(OneDone(), f);
  }

  // A run in which both commit, and no order of the two, one at a time, explains what
  // they read.
  lemma BothCommit() returns (es: seq<Transactions.Event>)
    ensures Initial(Fresh()) && Runs(Fresh(), es)
    ensures var t := Transactions.After(Fresh(), es);
            && t.ctxs.Keys == {1, 2} && t.ctxs[1].committed && t.ctxs[2].committed
            && t.ctxs[1].level == t.ctxs[2].level == RepeatableRead
            && !PlaysAll(DbOf(Fresh()), [t.ctxs[1], t.ctxs[2]]) && !PlaysAll(DbOf(Fresh()), [t.ctxs[2], t.ctxs[1]])
  {
    var t;
    es, t := CommitBoth();
    NoOrder(Done(1, [1]), Done(2, [2]), [1], [2]);
    NoOrder(Done(2, [2]), Done(1, [1]), [2], [1]);
  }

  lemma NoOrder(a: Ctx, b: Ctx, x: ByteString, y: ByteString)
    requires a.trace == [Got(KEY, []), Op.Wrote(KEY, x)] && b.trace == [Got(KEY, []), Op.Wrote(KEY, y)] && x != []
    ensures !PlaysAll(DbOf(Fresh()), [a, b])
  {
    var db := PlayAll(DbOf(Fresh()), [a]);
    PlayAllMore(DbOf(Fresh()), [a], b);
    assert [a] + [b] == [a, b];
    PlayAllMore(DbOf(Fresh()), [], a);
    assert [] + [a] == [a];
    assert Value(db, KEY) == x by {
      PlayMore(DbOf(Fresh()), [Got(KEY, [])], Op.Wrote(KEY, x));
      assert [Got(KEY, [])] + [Op.Wrote(KEY, x)] == a.trace;
    }
    PlayMore(db, [Got(KEY, [])], Op.Wrote(KEY, y));
    assert [Got(KEY, [])] + [Op.Wrote(KEY, y)] == b.trace;
    PlayMore(db, [], Got(KEY, []));
    assert [] + [Got(KEY, [])] == [Got(KEY, [])];
  }
}
