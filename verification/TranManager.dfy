// Transaction ids, their endings, and the checkpoint of settled transactions.

module TranManagers {
  import opened Bytes
  import opened TranFiles

  // ---- Sets as the sorted sequences their iterators walk ----

  function Insert(s: seq<nat>, id: nat): (t: seq<nat>)
    ensures t != []
  {
    if s == [] then [id]
    else if s[0] == id then s
    else if id < s[0] then [id] + s
    else [s[0]] + Insert(s[1..], id)
  }

  lemma {:induction false} InsertMeaning(s: seq<nat>, id: nat)
    requires Ascending(s)
    ensures Ascending(Insert(s, id))
    ensures forall x :: x in Insert(s, id) <==> x in s || x == id
    ensures s != [] && s[0] < id ==> Insert(s, id)[0] == s[0]
  {
    if s != [] && id > s[0] {
      assert Ascending(s[1..]);
      InsertMeaning(s[1..], id);
      var t := Insert(s[1..], id);
      forall i | 0 <= i < |t|
        ensures s[0] < t[i]
      {
        assert t[i] in t;
        if t[i] != id {
          var j :| 0 <= j < |s[1..]| && s[1..][j] == t[i];
          assert s[j + 1] == t[i];
        }
      }
    }
  }

  // The front run of consecutive ids, replaced by its last.
  function Compress(s: seq<nat>): (t: seq<nat>)
    ensures s != [] ==> t != []
    decreases |s|
  {
    if |s| > 1 && s[1] == s[0] + 1 then Compress(s[1..]) else s
  }

  // The set of settled ids always has a checkpoint.
  ghost predicate Checkpointed(s: seq<nat>)
  {
    Ascending(s) && s != []
  }

  ghost predicate Compressed(s: seq<nat>)
  {
    Checkpointed(s) && (|s| > 1 ==> s[1] != s[0] + 1)
  }

  // The ids a compressed set stands for: everything up to its first element, and the rest.
  ghost predicate Covers(s: seq<nat>, id: nat)
    requires s != []
  {
    id <= s[0] || id in s
  }

  lemma {:induction false} CompressMeaning(s: seq<nat>)
    requires Ascending(s) && s != []
    ensures Compressed(Compress(s)) && Compress(s)[0] >= s[0]
    ensures forall id :: Covers(Compress(s), id) <==> Covers(s, id)
    decreases |s|
  {
    if |s| > 1 && s[1] == s[0] + 1 {
      assert Ascending(s[1..]);
      CompressMeaning(s[1..]);
      forall id
        ensures Covers(s[1..], id) <==> Covers(s, id)
      {
        assert s == [s[0]] + s[1..];
        if id in s[1..] {
          assert id in s;
        }
      }
    }
  }

  // A compressed set is told by the ids it covers.
  lemma {:induction false} CompressedUnique(s: seq<nat>, t: seq<nat>)
    requires Compressed(s) && Compressed(t) && forall id :: Covers(s, id) <==> Covers(t, id)
    ensures s == t
  {
    FirstGap(s);
    FirstGap(t);
    assert Covers(s, s[0] + 1) <==> Covers(t, s[0] + 1);
    assert Covers(s, t[0] + 1) <==> Covers(t, t[0] + 1);
    forall x
      ensures x in s <==> x in t
    {
      InTail(s, x);
      InTail(t, x);
      assert Covers(s, x) <==> Covers(t, x);
    }
    AscendingUnique(s, t);
  }

  lemma FirstGap(s: seq<nat>)
    requires Compressed(s)
    ensures !Covers(s, s[0] + 1)
  {
    forall i | 0 <= i < |s|
      ensures s[i] != s[0] + 1
    {
      assert i > 1 ==> s[0] < s[1] < s[i];
    }
  }

  lemma InTail(s: seq<nat>, x: nat)
    requires Ascending(s) && s != []
    ensures x in s <==> x == s[0] || (x > s[0] && Covers(s, x))
  {
    if x in s {
      var i :| 0 <= i < |s| && s[i] == x;
    }
  }

  lemma {:induction false} AscendingUnique(s: seq<nat>, t: seq<nat>)
    requires Ascending(s) && Ascending(t) && forall x :: x in s <==> x in t
    ensures s == t
    decreases |s|
  {
    if s == [] {
      assert forall i :: 0 <= i < |t| ==> t[i] in t;
    } else {
      assert s[0] in s && s[0] in t && t[0] in t && t[0] in s;
      assert s[0] == t[0];
      forall x
        ensures x in s[1..] <==> x in t[1..]
      {
        Rest(s, x);
        Rest(t, x);
      }
      assert Ascending(s[1..]) && Ascending(t[1..]);
      AscendingUnique(s[1..], t[1..]);
      assert s == [s[0]] + s[1..] && t == [t[0]] + t[1..];
    }
  }

  lemma Rest(s: seq<nat>, x: nat)
    requires Ascending(s) && s != []
    ensures x in s[1..] <==> x in s && x != s[0]
  {
    if x in s[1..] {
      var i :| 0 <= i < |s[1..]| && s[1..][i] == x;
      assert s[i + 1] == x;
    }
  }

  // One look at the front of a stretch.
  lemma {:induction false} CompressStep(s: seq<nat>, k: nat)
    requires k < |s|
    ensures k + 1 < |s| && s[k + 1] == s[k] + 1 ==> Compress(s[k..]) == Compress(s[k + 1..])
    ensures k + 1 == |s| || s[k + 1] != s[k] + 1 ==> Compress(s[k..]) == s[k..]
  {
    var t := s[k..];
    assert t[0] == s[k] && (k + 1 < |s| ==> t[1] == s[k + 1]) && t[1..] == s[k + 1..];
  }

  // The stand-alone form over a whole set.
  method CompressSet(s: seq<nat>) returns (result: seq<nat>)
    requires Ascending(s)
    ensures result == Compress(s)
  {
    if s == [] {
      return [];
    }
    var last := s[0];
    var it := 1;
    assert s[0..] == s;
    while it < |s|
      invariant 1 <= it <= |s| && last == s[it - 1] && Compress(s[it - 1..]) == Compress(s)
    {
      CompressStep(s, it - 1);
      if s[it] == last + 1 {
        last := s[it];
      } else {
        break;
      }
      it := it + 1;
    }
    CompressStep(s, it - 1);
    result := CopyRest([last], s, it);
    assert s[it - 1..] == [last] + s[it..];
  }

  method CopyRest(front: seq<nat>, s: seq<nat>, from: nat) returns (result: seq<nat>)
    requires from <= |s|
    ensures result == front + s[from..]
  {
    result := front;
    var it := from;
    while it < |s|
      invariant from <= it <= |s| && result == front + s[from..it]
    {
      result := result + [s[it]];
      it := it + 1;
    }
    assert s[from..it] == s[from..];
  }

  // The same in place, as the checkpoint is advanced.
  method CompressInPlace(s: seq<nat>) returns (r: seq<nat>)
    requires Ascending(s) && s != []
    ensures r == Compress(s)
  {
    var last, next := 0, 1;
    assert s[0..] == s;
    while next < |s| && s[next] - s[last] == 1
      invariant 0 <= last < next == last + 1 <= |s| && Compress(s[last..]) == Compress(s)
    {
      CompressStep(s, last);
      last := next;
      next := next + 1;
    }
    CompressStep(s, last);
    r := s[last..];
  }

  // ---- Settling ----

  // One id is done with: the checkpoint covers it already, or it joins the set.
  function Settle(flushed: seq<nat>, id: nat): (t: seq<nat>)
    requires flushed != []
    ensures t != []
  {
    if id > flushed[0] then Compress(Insert(flushed, id)) else flushed
  }

  lemma {:induction false} SettleMeaning(flushed: seq<nat>, id: nat)
    requires Checkpointed(flushed)
    ensures Checkpointed(Settle(flushed, id)) && Settle(flushed, id)[0] >= flushed[0]
    ensures Compressed(flushed) ==> Compressed(Settle(flushed, id))
    ensures forall x :: Covers(Settle(flushed, id), x) <==> Covers(flushed, x) || x == id
  {
    if id > flushed[0] {
      InsertMeaning(flushed, id);
      CompressMeaning(Insert(flushed, id));
      assert forall x :: Covers(Insert(flushed, id), x) <==> Covers(flushed, x) || x == id;
    }
  }

  // A notification for id settles that id and every rolled-back one before it.
  predicate Sweeps(e: Ended, id: nat)
  {
    e.id <= id && (e.id == id || e.state == Aborted)
  }

  function Swept(ready: seq<Ended>, flushed: seq<nat>, id: nat): (r: (seq<Ended>, seq<nat>))
    requires flushed != []
    ensures r.1 != []
    decreases |ready|
  {
    if ready == [] || ready[0].id > id then (ready, flushed)
    else if !Sweeps(ready[0], id) then
      var (rest, f) := Swept(ready[1..], flushed, id);
      ([ready[0]] + rest, f)
    else
      Swept(ready[1..], Settle(flushed, ready[0].id), id)
  }

  // What a notification does: exactly the swept entries leave, exactly their ids become
  // covered, and the checkpoint does not move back.
  lemma {:induction false} SweptMeaning(ready: seq<Ended>, flushed: seq<nat>, id: nat)
    requires IdsRise(ready) && Checkpointed(flushed)
    ensures var (r, f) := Swept(ready, flushed, id);
            && IdsRise(r) && Checkpointed(f) && f[0] >= flushed[0] && (Compressed(flushed) ==> Compressed(f))
            && (forall e :: e in r <==> e in ready && !Sweeps(e, id))
            && (forall x :: Covers(f, x) <==> Covers(flushed, x) || SweepsId(ready, id, x))
    decreases |ready|
  {
    if ready != [] && ready[0].id <= id {
      var tail := ready[1..];
      assert IdsRise(tail) && ready == [ready[0]] + tail;
      if !Sweeps(ready[0], id) {
        SweptMeaning(tail, flushed, id);
        KeepFirst(ready, Swept(tail, flushed, id).0);
        SweepOthers(ready, id);
      } else {
        SettleMeaning(flushed, ready[0].id);
        SweptMeaning(tail, Settle(flushed, ready[0].id), id);
        SweepFirst(ready, id);
      }
    } else if ready != [] {
      forall e | e in ready
        ensures !Sweeps(e, id)
      {
      }
    }
  }

  lemma SweptKeeps(ready: seq<Ended>, flushed: seq<nat>, id: nat)
    requires IdsRise(ready) && Checkpointed(flushed)
    ensures var (r, f) := Swept(ready, flushed, id); IdsRise(r) && Checkpointed(f) && f[0] >= flushed[0]
  {
    SweptMeaning(ready, flushed, id);
  }

  lemma KeepFirst(ready: seq<Ended>, rest: seq<Ended>)
    requires IdsRise(ready) && ready != [] && IdsRise(rest) && forall e :: e in rest ==> e in ready[1..]
    ensures IdsRise([ready[0]] + rest)
  {
    var all := [ready[0]] + rest;
    forall i, j | 0 <= i < j < |all|
      ensures all[i].id < all[j].id
    {
      if i == 0 {
        assert rest[j - 1] in rest && rest[j - 1] in ready[1..];
        var k :| 0 <= k < |ready[1..]| && ready[1..][k] == rest[j - 1];
        assert ready[k + 1] == all[j];
      }
    }
  }

  ghost predicate SweepsId(ready: seq<Ended>, id: nat, x: nat)
  {
    exists e :: e in ready && Sweeps(e, id) && e.id == x
  }

  lemma SweepOthers(ready: seq<Ended>, id: nat)
    requires ready != [] && !Sweeps(ready[0], id)
    ensures forall x :: SweepsId(ready, id, x) <==> SweepsId(ready[1..], id, x)
  {
    assert ready == [ready[0]] + ready[1..];
  }

  lemma SweepFirst(ready: seq<Ended>, id: nat)
    requires ready != [] && Sweeps(ready[0], id)
    ensures forall x :: SweepsId(ready, id, x) <==> x == ready[0].id || SweepsId(ready[1..], id, x)
  {
    assert ready == [ready[0]] + ready[1..];
    assert ready[0] in ready;
  }

  // A map from id to state in the order its iterator walks it.
  function Register(ready: seq<Ended>, e: Ended): seq<Ended>
  {
    if ready == [] then [e]
    else if ready[0].id == e.id then [e] + ready[1..]
    else if e.id < ready[0].id then [e] + ready
    else [ready[0]] + Register(ready[1..], e)
  }

  lemma {:induction false} RegisterMeaning(ready: seq<Ended>, e: Ended)
    requires IdsRise(ready)
    ensures IdsRise(Register(ready, e))
    ensures forall x :: x in Register(ready, e) <==> x == e || (x in ready && x.id != e.id)
  {
    if ready != [] {
      var tail := ready[1..];
      assert IdsRise(tail) && ready == [ready[0]] + tail;
      LaterIds(ready);
      if e.id > ready[0].id {
        RegisterMeaning(tail, e);
        IdsAbove(ready[0], Register(tail, e));
      } else if e.id < ready[0].id {
        IdsAbove(e, ready);
      } else {
        IdsAbove(e, tail);
      }
    }
  }

  lemma LaterIds(ready: seq<Ended>)
    requires IdsRise(ready) && ready != []
    ensures forall x :: x in ready[1..] ==> x.id > ready[0].id
  {
    forall x | x in ready[1..]
      ensures x.id > ready[0].id
    {
      var k :| 0 <= k < |ready[1..]| && ready[1..][k] == x;
      assert ready[k + 1] == x;
    }
  }

  lemma IdsAbove(e: Ended, rest: seq<Ended>)
    requires IdsRise(rest) && forall x :: x in rest ==> x.id > e.id
    ensures IdsRise([e] + rest)
  {
    var all := [e] + rest;
    forall i, j | 0 <= i < j < |all|
      ensures all[i].id < all[j].id
    {
      assert all[j] == rest[j - 1] && rest[j - 1] in rest;
    }
  }

  // ---- The manager ----

  datatype Mgr = Mgr(nextId: nat, active: set<nat>, ready: seq<Ended>, flushed: seq<nat>, aborted: set<nat>)

  function Begun(m: Mgr): Mgr
  {
    m.(nextId := m.nextId + 1, active := m.active + {m.nextId})
  }

  function Finished(m: Mgr, id: nat, state: TransactionState): Mgr
  {
    m.(active := m.active - {id}, ready := Register(m.ready, Ended(id, state)),
       aborted := if state == Aborted then m.aborted + {id} else m.aborted)
  }

  function Notified(m: Mgr, id: nat): (t: Mgr)
    requires m.flushed != []
    ensures t.flushed != []
  {
    var (r, f) := Swept(m.ready, m.flushed, id);
    m.(ready := r, flushed := f)
  }

  function Restored(s: Saved, active: set<nat>): Mgr
  {
    Mgr(s.nextId, active, s.ready, s.flushed, ToSet(s.aborted))
  }

  lemma {:induction false} SavedFits(s: Saved, aborted: set<nat>)
    requires AllWords(s.flushed) && AllWords([s.nextId, |s.flushed|, |s.ready|, |s.aborted|])
    requires (forall i :: 0 <= i < |s.ready| ==> s.ready[i].id < 0x1_0000_0000_0000_0000)
    requires (forall x :: x in s.aborted ==> x in aborted) && forall x :: x in aborted ==> x < 0x1_0000_0000_0000_0000
    ensures AllWords(Words(s))
  {
    var w, f, r := Words(s), |s.flushed|, |s.ready|;
    WordIs(s);
    forall k | 0 <= k < |w|
      ensures w[k] < 0x1_0000_0000_0000_0000
    {
      if k < 4 {
        assert w[k] == [s.nextId, |s.flushed|, |s.ready|, |s.aborted|][k];
      } else if k < 4 + f {
        assert w[4 + (k - 4)] == s.flushed[k - 4];
      } else if k < 4 + f + 2 * r {
        ReadyWords(s, (k - 4 - f) / 2);
      } else {
        var i := k - (4 + f + 2 * r);
        assert w[4 + f + 2 * r + i] == s.aborted[i] && s.aborted[i] in s.aborted;
      }
    }
  }

  // Whose records a read must ignore.
  function SkipSet(m: Mgr, strict: bool): set<nat>
  {
    m.aborted + if strict then m.active else {}
  }

  // The sweep has got to entry i.
  ghost predicate SweptFrom(ready: seq<Ended>, flushed: seq<nat>, id: nat, i: nat, r: seq<Ended>, f: seq<nat>)
  {
    forall n :: Opened(n) ==>
                  flushed != [] && i <= |ready| &&
                  ready[..i] + Swept(ready[i..], flushed, id).0 == r && Swept(ready[i..], flushed, id).1 == f
  }

  lemma {:induction false} SweptStart(ready: seq<Ended>, flushed: seq<nat>, id: nat)
    requires flushed != []
    ensures SweptFrom(ready, flushed, id, 0, Swept(ready, flushed, id).0, Swept(ready, flushed, id).1)
  {
    assert ready[0..] == ready;
  }

  lemma {:induction false} SweptSkip(ready: seq<Ended>, flushed: seq<nat>, id: nat, i: nat, r: seq<Ended>, f: seq<nat>)
    requires i < |ready| && ready[i].id <= id && !Sweeps(ready[i], id) && SweptFrom(ready, flushed, id, i, r, f)
    ensures SweptFrom(ready, flushed, id, i + 1, r, f)
  {
    assert Opened(0);
    assert ready[i..][0] == ready[i] && ready[i..][1..] == ready[i + 1..];
    var rest := Swept(ready[i + 1..], flushed, id).0;
    assert ready[..i] + ([ready[i]] + rest) == ready[..i + 1] + rest;
  }

  lemma {:induction false} SweptTake(ready: seq<Ended>, flushed: seq<nat>, id: nat, i: nat, r: seq<Ended>, f: seq<nat>)
    requires flushed != [] && i < |ready| && Sweeps(ready[i], id) && SweptFrom(ready, flushed, id, i, r, f)
    ensures SweptFrom(ready[..i] + ready[i + 1..], Settle(flushed, ready[i].id), id, i, r, f)
  {
    assert Opened(0);
    assert ready[i..][0] == ready[i] && ready[i..][1..] == ready[i + 1..];
    var now := ready[..i] + ready[i + 1..];
    assert now[..i] == ready[..i] && now[i..] == ready[i + 1..];
  }

  lemma {:induction false} SweptEnd(ready: seq<Ended>, flushed: seq<nat>, id: nat, i: nat, r: seq<Ended>, f: seq<nat>)
    requires SweptFrom(ready, flushed, id, i, r, f) && i <= |ready| && (i < |ready| ==> ready[i].id > id)
    ensures ready == r && flushed == f
  {
    assert Opened(0);
    assert ready == ready[..i] + ready[i..];
  }

  class TranManager {
    var nextId: nat
    var active: set<nat>
    var ready: seq<Ended>
    var flushed: seq<nat>
    var aborted: set<nat>

    function Snapshot(): Mgr
      reads this
    {
      Mgr(nextId, active, ready, flushed, aborted)
    }

    ghost predicate Valid()
      reads this
    {
      Checkpointed(flushed) && IdsRise(ready)
    }

    // The state of a new database.
    constructor ()
      ensures Valid() && Snapshot() == Mgr(1, {}, [], [0], {})
    {
      nextId, active, ready, flushed, aborted := 1, {}, [], [0], {};
    }

    method GetNextTransactionId() returns (id: nat)
      modifies this`nextId
      ensures id == old(nextId) && nextId == id + 1
    {
      id := nextId;
      nextId := nextId + 1;
    }

    method NewTranc() returns (id: nat)
      requires Valid()
      modifies this
      ensures Valid() && id == old(nextId) && Snapshot() == Begun(old(Snapshot()))
    {
      id := GetNextTransactionId();
      active := active + {id};
    }

    method IsAborted(id: nat) returns (r: bool)
      ensures r <==> id in SkipSet(Snapshot(), false)
    {
      r := id in aborted;
    }

    method ShouldSkipRead(id: nat, requireCommitted: bool) returns (r: bool)
      ensures r <==> id in SkipSet(Snapshot(), requireCommitted)
    {
      if id in aborted {
        return true;
      }
      r := requireCommitted && id in active;
    }

    // A rolled-back id is listed before it stops being active.
    method AddReadyToFlush(id: nat, state: TransactionState)
      requires Valid()
      modifies this
      ensures Valid() && Snapshot() == Finished(old(Snapshot()), id, state)
    {
      if state == Aborted {
        aborted := aborted + {id};
      }
      RegisterMeaning(ready, Ended(id, state));
      ready := Register(ready, Ended(id, state));
      active := active - {id};
    }

    method SettleOne(id: nat)
      requires Checkpointed(flushed)
      modifies this`flushed
      ensures Checkpointed(flushed) && flushed == Settle(old(flushed), id)
    {
      SettleMeaning(flushed, id);
      if id > flushed[0] {
        InsertMeaning(flushed, id);
        var compressed := CompressInPlace(Insert(flushed, id));
        flushed := compressed;
      }
    }

    // A flush has written the marker of this transaction.
    method AddFlushed(id: nat)
      requires Valid()
      modifies this
      ensures Valid() && Snapshot() == Notified(old(Snapshot()), id) && flushed[0] >= old(flushed)[0]
    {
      SweptKeeps(ready, flushed, id);
      ghost var r, f := Swept(ready, flushed, id).0, Swept(ready, flushed, id).1;
      var i := 0;
      SweptStart(ready, flushed, id);
      while i < |ready| && ready[i].id <= id
        invariant 0 <= i <= |ready| && Checkpointed(flushed) && SweptFrom(ready, flushed, id, i, r, f)
        invariant nextId == old(nextId) && active == old(active) && aborted == old(aborted)
        decreases |ready| - i
      {
        var e := ready[i];
        if e.id != id && e.state != Aborted {
          SweptSkip(ready, flushed, id, i, r, f);
          i := i + 1;
        } else {
          SweptTake(ready, flushed, id, i, r, f);
          SettleOne(e.id);
          ready := ready[..i] + ready[i + 1..];
        }
      }
      SweptEnd(ready, flushed, id, i, r, f);
    }

    // Every number fits the 64 bits the file has for it.
    ghost predicate Fits()
      reads this
    {
      && nextId < 0x1_0000_0000_0000_0000 && AllWords(flushed) && |flushed| < 0x1_0000_0000_0000_0000
      && |ready| < 0x1_0000_0000_0000_0000 && (forall i :: 0 <= i < |ready| ==> ready[i].id < 0x1_0000_0000_0000_0000)
      && |aborted| < 0x1_0000_0000_0000_0000 && (forall x :: x in aborted ==> x < 0x1_0000_0000_0000_0000)
    }

    // The whole state as bytes, for the file to be overwritten with.
    method WriteTrancIdFile() returns (r: Result<ByteString>, ghost saved: Saved)
      requires Valid() && Fits()
      ensures r.Err? <==> nextId == 0
      ensures r.Ok? ==> Sound(saved) && r.value == WordsBytes(Words(saved)) && Restored(saved, active) == Snapshot()
    {
      ghost var order;
      r, order := Write(nextId, flushed, ready, aborted);
      saved := Saved(nextId, flushed, ready, order);
      if r.Ok? {
        CountIds(order, aborted);
        SavedFits(saved, aborted);
        assert ToSet(order) == aborted;
      }
    }

    // A rejected file leaves the manager as it was; what was saved comes back.
    method ReadTrancIdFile(buf: ByteString, ghost built: bool, ghost was: Saved) returns (r: Result<()>)
      requires Valid() && (built ==> Sound(was) && buf == WordsBytes(Words(was)))
      modifies this
      ensures Valid() && active == old(active)
      ensures r.Err? ==> Snapshot() == old(Snapshot())
      ensures r.Ok? ==> exists s :: Sound(s) && buf == WordsBytes(Words(s)) && Snapshot() == Restored(s, active)
      ensures built ==> r.Ok? && Snapshot() == Restored(was, active)
    {
      var s := Read(buf, built, was);
      if s.Err? {
        return Err(s.error);
      }
      nextId, flushed, ready, aborted := s.value.nextId, s.value.flushed, s.value.ready, ToSet(s.value.aborted);
      return Ok(());
    }

    // A new log starts from a new baseline.
    method InitNewWal()
      requires Valid() && nextId > 0
      modifies this`flushed
      ensures Valid() && flushed == [nextId - 1]
    {
      flushed := [nextId - 1];
    }

    function MaxFlushed(): (id: nat)
      requires Valid()
      reads this
      ensures id in flushed && forall x :: x in flushed ==> x <= id
    {
      flushed[|flushed| - 1]
    }

    function Checkpoint(): (id: nat)
      requires Valid()
      reads this
      ensures forall x: nat :: x <= id ==> Covers(flushed, x)
    {
      flushed[0]
    }
  }

  // ---- Runs ----

  datatype Event =
    | Begin
    | End(id: nat, state: TransactionState)
    | Notify(id: nat)

  function Apply(m: Mgr, e: Event): Mgr
    requires m.flushed != []
  {
    match e
    case Begin => Begun(m)
    case End(id, state) => Finished(m, id, state)
    case Notify(id) => Notified(m, id)
  }

  lemma ApplyKeeps(m: Mgr, e: Event)
    requires Compressed(m.flushed) && IdsRise(m.ready)
    ensures Compressed(Apply(m, e).flushed) && IdsRise(Apply(m, e).ready)
    ensures Apply(m, e).flushed[0] >= m.flushed[0] && m.aborted <= Apply(m, e).aborted
  {
    match e
    case Begin =>
    case End(id, state) => RegisterMeaning(m.ready, Ended(id, state));
    case Notify(id) => SweptMeaning(m.ready, m.flushed, id);
  }

  // Only a transaction that is active ends.
  predicate Allowed(m: Mgr, e: Event)
  {
    e.End? ==> e.id in m.active
  }

  function After(m: Mgr, es: seq<Event>): (t: Mgr)
    requires Compressed(m.flushed) && IdsRise(m.ready)
    ensures Compressed(t.flushed) && IdsRise(t.ready)
    decreases |es|
  {
    if es == [] then m
    else
      var mid := After(m, es[..|es| - 1]);
      var e := es[|es| - 1];
      ApplyKeeps(mid, e);
      Apply(mid, e)
  }

  ghost predicate Proper(m: Mgr, es: seq<Event>)
    requires Compressed(m.flushed) && IdsRise(m.ready)
    decreases |es|
  {
    es != [] ==> Proper(m, es[..|es| - 1]) && Allowed(After(m, es[..|es| - 1]), es[|es| - 1])
  }

  // Nothing ended yet, and no id up to the baseline is still to come.
  ghost predicate Baseline(m: Mgr, b: nat)
  {
    m.ready == [] && m.flushed == [b] && b < m.nextId && forall id :: id in m.active ==> b < id < m.nextId
  }

  ghost predicate EndedIn(es: seq<Event>, e: Ended)
  {
    exists i :: 0 <= i < |es| && es[i] == End(e.id, e.state)
  }

  // The id ended, and later a notification settled it: its own, or for a rolled-back one
  // that of any larger id.
  ghost predicate SettledBy(es: seq<Event>, id: nat)
  {
    exists i, j :: 0 <= i < j < |es| && SettlesAt(es, id, i, j)
  }

  ghost predicate SettlesAt(es: seq<Event>, id: nat, i: nat, j: nat)
    requires i < |es| && j < |es|
  {
    es[i].End? && es[i].id == id && es[j].Notify? && Sweeps(Ended(id, es[i].state), es[j].id)
  }

  lemma EndedMore(es: seq<Event>, last: Event, e: Ended)
    ensures EndedIn(es + [last], e) <==> EndedIn(es, e) || last == End(e.id, e.state)
  {
    var all := es + [last];
    if EndedIn(es, e) {
      var i :| 0 <= i < |es| && es[i] == End(e.id, e.state);
      assert all[i] == es[i];
    }
    if last == End(e.id, e.state) {
      assert all[|es|] == last;
    }
  }

  lemma SettledMore(es: seq<Event>, last: Event, id: nat)
    ensures SettledBy(es + [last], id) <==>
              SettledBy(es, id) || (last.Notify? && exists e :: EndedIn(es, e) && e.id == id && Sweeps(e, last.id))
  {
    var all := es + [last];
    if SettledBy(all, id) {
      var i, j :| 0 <= i < j < |all| && SettlesAt(all, id, i, j);
      assert all[i] == es[i];
      if j < |es| {
        assert SettlesAt(es, id, i, j);
      } else {
        assert EndedIn(es, Ended(id, es[i].state));
      }
    }
    if SettledBy(es, id) {
      var i, j :| 0 <= i < j < |es| && SettlesAt(es, id, i, j);
      assert SettlesAt(all, id, i, j);
    }
    if last.Notify? && exists e :: EndedIn(es, e) && e.id == id && Sweeps(e, last.id) {
      var e :| EndedIn(es, e) && e.id == id && Sweeps(e, last.id);
      var i :| 0 <= i < |es| && es[i] == End(e.id, e.state);
      assert SettlesAt(all, id, i, |es|);
    }
  }

  // What a run has made of the manager, told from the events alone.
  ghost predicate Told(m: Mgr, es: seq<Event>, b: nat)
    requires m.flushed != []
  {
    forall n :: Opened(n) ==> ToldWell(m, es, b)
  }

  ghost predicate ToldWell(m: Mgr, es: seq<Event>, b: nat)
    requires m.flushed != []
  {
    && b < m.nextId && (forall id :: id in m.active ==> b < id < m.nextId)
    && (forall e :: EndedIn(es, e) ==> b < e.id < m.nextId && e.id !in m.active)
    && (forall e, f :: EndedIn(es, e) && EndedIn(es, f) && e.id == f.id ==> e == f)
    && (forall e :: e in m.ready <==> EndedIn(es, e) && !SettledBy(es, e.id))
    && (forall id: nat :: Covers(m.flushed, id) <==> id <= b || SettledBy(es, id))
  }

  lemma ToldBegin(m: Mgr, es: seq<Event>, b: nat)
    requires m.flushed != [] && ToldWell(m, es, b)
    ensures ToldWell(Begun(m), es + [Begin], b)
  {
    forall e
      ensures EndedIn(es + [Begin], e) <==> EndedIn(es, e)
    {
      EndedMore(es, Begin, e);
    }
    forall id
      ensures SettledBy(es + [Begin], id) <==> SettledBy(es, id)
    {
      SettledMore(es, Begin, id);
    }
  }

  lemma ToldEnd(m: Mgr, es: seq<Event>, b: nat, id: nat, state: TransactionState)
    requires Compressed(m.flushed) && IdsRise(m.ready) && ToldWell(m, es, b) && id in m.active
    ensures ToldWell(Finished(m, id, state), es + [End(id, state)], b)
  {
    var last := End(id, state);
    RegisterMeaning(m.ready, Ended(id, state));
    forall e
      ensures EndedIn(es + [last], e) <==> EndedIn(es, e) || e == Ended(id, state)
    {
      EndedMore(es, last, e);
    }
    forall x
      ensures SettledBy(es + [last], x) <==> SettledBy(es, x)
    {
      SettledMore(es, last, x);
    }
    NotYetSettled(m, es, b, id);
  }

  lemma NotYetSettled(m: Mgr, es: seq<Event>, b: nat, id: nat)
    requires m.flushed != [] && ToldWell(m, es, b) && id in m.active
    ensures !SettledBy(es, id)
  {
    forall i, j | 0 <= i < j < |es|
      ensures !SettlesAt(es, id, i, j)
    {
      if es[i].End? {
        assert EndedIn(es, Ended(es[i].id, es[i].state));
      }
    }
  }

  lemma ToldNotify(m: Mgr, es: seq<Event>, b: nat, id: nat)
    requires Compressed(m.flushed) && IdsRise(m.ready) && ToldWell(m, es, b)
    ensures ToldWell(Notified(m, id), es + [Notify(id)], b)
  {
    var last := Notify(id);
    SweptMeaning(m.ready, m.flushed, id);
    forall e
      ensures EndedIn(es + [last], e) <==> EndedIn(es, e)
    {
      EndedMore(es, last, e);
    }
    forall x
      ensures SettledBy(es + [last], x) <==> SettledBy(es, x) || SweepsId(m.ready, id, x)
    {
      SettledMore(es, last, x);
      if exists e :: EndedIn(es, e) && e.id == x && Sweeps(e, id) {
        var e :| EndedIn(es, e) && e.id == x && Sweeps(e, id);
        if !SettledBy(es, x) {
          assert e in m.ready;
        }
      }
    }
    forall e
      ensures e in Notified(m, id).ready <==> EndedIn(es + [last], e) && !SettledBy(es + [last], e.id)
    {
      if e in m.ready {
        SweptOnce(m, es, b, id, e);
      }
    }
  }

  lemma SweptOnce(m: Mgr, es: seq<Event>, b: nat, id: nat, e: Ended)
    requires m.flushed != [] && ToldWell(m, es, b) && e in m.ready
    ensures SweepsId(m.ready, id, e.id) <==> Sweeps(e, id)
  {
    if SweepsId(m.ready, id, e.id) {
      var f :| f in m.ready && Sweeps(f, id) && f.id == e.id;
      assert EndedIn(es, e) && EndedIn(es, f);
    }
  }

  lemma {:induction false} RunIsTold(m: Mgr, es: seq<Event>, b: nat)
    requires Compressed(m.flushed) && IdsRise(m.ready) && Baseline(m, b) && Proper(m, es)
    ensures Told(After(m, es), es, b)
    decreases |es|
  {
    if es != [] {
      var front, last := es[..|es| - 1], es[|es| - 1];
      RunIsTold(m, front, b);
      assert es == front + [last];
      StepIsTold(After(m, front), front, last, b);
    } else {
      assert m.flushed == [b];
      assert ToldWell(m, [], b);
    }
  }

  lemma StepIsTold(m: Mgr, es: seq<Event>, last: Event, b: nat)
    requires Compressed(m.flushed) && IdsRise(m.ready) && Told(m, es, b) && Allowed(m, last)
    ensures Apply(m, last).flushed != [] && Told(Apply(m, last), es + [last], b)
  {
    assert Opened(0);
    match last
    case Begin => ToldBegin(m, es, b);
    case End(id, state) => ToldEnd(m, es, b, id, state);
    case Notify(id) => ToldNotify(m, es, b, id);
  }

  // The checkpoint's meaning: the ids up to the first element and the later elements are
  // exactly the settled ones; it never passes an unsettled id; and the set is what the
  // stand-alone compression makes of all settled ids.
  lemma CheckpointMeaning(m: Mgr, es: seq<Event>, b: nat, all: seq<nat>)
    requires Compressed(m.flushed) && IdsRise(m.ready) && Baseline(m, b) && Proper(m, es)
    requires Ascending(all) && forall x :: x in all <==> x == b || (x > b && SettledBy(es, x))
    ensures forall id: nat :: Covers(After(m, es).flushed, id) <==> id <= b || SettledBy(es, id)
    ensures forall id: nat :: id > b && !SettledBy(es, id) ==> After(m, es).flushed[0] < id
    ensures After(m, es).flushed == Compress(all)
  {
    RunIsTold(m, es, b);
    assert ToldWell(After(m, es), es, b) by {
      assert Opened(0);
    }
    assert b in all;
    CompressMeaning(all);
    LeastFirst(all, b);
    var f := After(m, es).flushed;
    forall id: nat
      ensures Covers(Compress(all), id) <==> Covers(f, id)
    {
      assert Covers(all, id) <==> id <= b || SettledBy(es, id);
    }
    CompressedUnique(f, Compress(all));
  }

  lemma LeastFirst(s: seq<nat>, b: nat)
    requires Ascending(s) && b in s && forall x :: x in s ==> x >= b
    ensures s[0] == b
  {
    assert s[0] in s;
  }

  // Along a run the checkpoint does not move back and rolled-back ids stay listed.
  lemma {:induction false} RunGrows(m: Mgr, es: seq<Event>, n: nat)
    requires Compressed(m.flushed) && IdsRise(m.ready) && n <= |es|
    ensures After(m, es).flushed[0] >= After(m, es[..n]).flushed[0]
    ensures After(m, es[..n]).aborted <= After(m, es).aborted
    decreases |es|
  {
    if n < |es| {
      var front := es[..|es| - 1];
      RunGrows(m, front, n);
      assert front[..n] == es[..n];
      ApplyKeeps(After(m, front), es[|es| - 1]);
    } else {
      assert es[..n] == es;
    }
  }

  lemma {:induction false} RolledBackStays(m: Mgr, es: seq<Event>, id: nat)
    requires Compressed(m.flushed) && IdsRise(m.ready) && EndedIn(es, Ended(id, Aborted))
    ensures id in After(m, es).aborted
  {
    var i :| 0 <= i < |es| && es[i] == End(id, Aborted);
    var front := es[..i + 1];
    assert front[..|front| - 1] == es[..i] && front[|front| - 1] == es[i];
    assert id in After(m, front).aborted;
    RunGrows(m, es, i + 1);
  }
}
