// The full scan and the predicate range query over memory and all levels.

module Scans {
  import opened Bytes
  import opened Mvcc
  import opened Bloom
  import opened Ssts
  import opened Streams
  import opened TableIterators
  import opened TableRanges
  import opened Heaps
  import opened Merges
  import opened LevelScans
  import opened Collecting
  import opened Storages
  import Compactions

  // ---- The children of a full scan ----

  // A list that answers for the source behind it, for every key but the marker's.
  ghost predicate AnswersFor(list: seq<Rec>, src: seq<Rec>, m: Mode)
  {
    KeysRise(list) && forall k :: k != [] ==> Find(list, k) == Best(src, Ask(m, k))
  }

  lemma {:induction false} RestsStand(rests: seq<seq<Rec>>, parts: seq<seq<Rec>>, m: Mode)
    requires |rests| == |parts| && !m.keepAll
    requires forall i :: 0 <= i < |parts| ==> Ordered(parts[i]) && rests[i] == Shown(parts[i], m)
    ensures StandsFor(Flat(rests), Flat(parts), m, k => true)
    ensures forall r :: r in Flat(rests) ==> Shows(m, r)
  {
    if rests == [] {
      assert Flat(rests) == [] && Flat(parts) == [];
    } else {
      RestsStand(rests[1..], parts[1..], m);
      ShownStands(parts[0], m, k => 0);
      ShownSubset(parts[0], m);
      StandsAppend(rests[0], parts[0], Flat(rests[1..]), Flat(parts[1..]), m, k => true);
    }
  }

  method TopChild(hasher: Hasher, ssts: map<nat, Sst>, ids: seq<nat>, m: Mode) returns (h: HeapIt)
    requires TopLevel(hasher, ssts, ids) && !m.keepAll
    ensures OnHeap(h) && AnswersFor(HeapRest(h), Part(hasher, ssts, ids), m)
  {
    var its := Compactions.SeekTables(hasher, ssts, ids, m);
    h := MergeTables(hasher, its, false);
    ghost var rests, run := Rests(hasher, its), RunOf(hasher, ssts, ids);
    forall i | 0 <= i < |run|
      ensures Ordered(run[i]) && rests[i] == Shown(run[i], m)
    {
      assert Known(hasher, ssts, ids[i]) && Strict(run[i]);
      StrictIsOrdered(run[i]);
    }
    RestsStand(rests, run, m);
    TopAnswers(h, Flat(rests), Flat(run), m);
  }

  // The queue itself has no bound; what is in it is already within the read's bound.
  lemma TopAnswers(h: HeapIt, chosen: seq<Rec>, src: seq<Rec>, m: Mode)
    requires HeapOk(h.items, chosen) && StandsFor(chosen, src, m, k => true) && h.bound == 0 && !h.keepAll && !h.skipDelete
    requires forall r :: r in chosen ==> m.bound == 0 || r.ver <= m.bound
    ensures AnswersFor(HeapRest(h), src, m)
  {
    var mode := Mode(0, {}, false);
    SortedIsOrdered(h.items);
    ShownMeaning(Recs(h.items), mode);
    forall k | k != []
      ensures Find(HeapRest(h), k) == Best(src, Ask(m, k))
    {
      FindIsBest(Recs(h.items), mode, k);
      SameGroupsSameBest(Recs(h.items), chosen, Query(k, 0, {}));
      SameEligible(chosen, Query(k, 0, {}), Query(k, m.bound, {}));
    }
  }

  lemma {:induction false} SameEligible(s: seq<Rec>, p: Query, q: Query)
    requires forall r :: r in s ==> (Eligible(r, p) <==> Eligible(r, q))
    ensures Best(s, p) == Best(s, q)
  {
    if s != [] {
      assert s[0] in s && forall r :: r in s[1..] ==> r in s;
      SameEligible(s[1..], p, q);
    }
  }

  method DeepChild(hasher: Hasher, ssts: map<nat, Sst>, ids: seq<nat>, m: Mode) returns (it: ConcatIt)
    requires DeepLevel(hasher, ssts, ids) && !m.keepAll
    ensures OnLevel(hasher, it) && AnswersFor(LevelRest(hasher, it), Part(hasher, ssts, ids), m)
  {
    assert forall i :: 0 <= i < |ids| ==> Known(hasher, ssts, ids[i]);
    it := StartLevel(hasher, Tables(ssts, ids), m);
    FlatOrdered(RunOf(hasher, ssts, ids));
    ShownAnswers(Part(hasher, ssts, ids), m);
  }

  lemma ShownAnswers(s: seq<Rec>, m: Mode)
    requires Ordered(s) && !m.keepAll
    ensures AnswersFor(Shown(s, m), s, m)
  {
    ShownMeaning(s, m);
    forall k | k != []
      ensures Find(Shown(s, m), k) == Best(s, Ask(m, k))
    {
      FindIsBest(s, m, k);
    }
  }

  // One child for memory, one for level 0 and one for each deeper level, each answering
  // for its own records.
  ghost predicate ChildrenOk(hasher: Hasher, children: seq<Child>, lists: seq<seq<Rec>>, srcs: seq<seq<Rec>>, m: Mode)
  {
    && |children| == |lists| == |srcs|
    && forall i :: 0 <= i < |children| ==> ChildOk(hasher, children[i], lists[i], srcs[i], m)
  }

  ghost predicate ChildOk(hasher: Hasher, c: Child, list: seq<Rec>, src: seq<Rec>, m: Mode)
  {
    forall n :: Opened(n) ==> ChildGives(hasher, c, list) && AnswersFor(list, src, m)
  }

  lemma ChildIsOk(hasher: Hasher, c: Child, list: seq<Rec>, src: seq<Rec>, m: Mode)
    requires ChildOk(hasher, c, list, src, m)
    ensures ChildGives(hasher, c, list) && AnswersFor(list, src, m)
  {
    assert Opened(0);
  }

  method LevelChildOf(hasher: Hasher, ssts: map<nat, Sst>, levels: seq<seq<nat>>, l: nat, m: Mode)
    returns (c: Child, ghost list: seq<Rec>)
    requires Storage(hasher, ssts, levels) && AllListed(hasher, ssts, levels) && l < |levels| && !m.keepAll
    ensures ChildOk(hasher, c, list, Parts(hasher, ssts, levels)[l], m)
  {
    assert LevelOk(hasher, ssts, levels, l);
    if l == 0 {
      var h := TopChild(hasher, ssts, levels[0], m);
      c, list := HeapChild(h), HeapRest(h);
    } else {
      var it := DeepChild(hasher, ssts, levels[l], m);
      c, list := LevelChild(it), LevelRest(hasher, it);
    }
  }

  method Children(hasher: Hasher, ssts: map<nat, Sst>, levels: seq<seq<nat>>, mem: HeapIt, m: Mode, ghost memSrc: seq<Rec>)
    returns (children: seq<Child>, ghost lists: seq<seq<Rec>>)
    requires Storage(hasher, ssts, levels) && AllListed(hasher, ssts, levels) && !m.keepAll
    requires OnHeap(mem) && AnswersFor(HeapRest(mem), memSrc, m)
    ensures ChildrenOk(hasher, children, lists, [memSrc] + Parts(hasher, ssts, levels), m)
  {
    ghost var srcs := [memSrc] + Parts(hasher, ssts, levels);
    children, lists := [HeapChild(mem)], [HeapRest(mem)];
    var l := 0;
    while l < |levels|
      invariant 0 <= l <= |levels| && |children| == |lists| == l + 1
      invariant forall i :: 0 <= i <= l ==> ChildOk(hasher, children[i], lists[i], srcs[i], m)
    {
      ghost var list;
      var c;
      c, list := LevelChildOf(hasher, ssts, levels, l, m);
      children, lists := children + [c], lists + [list];
      l := l + 1;
    }
  }

  // What a full scan gives: in strictly rising key order, exactly the records a read of
  // their keys finds.
  ghost predicate ScanOf(out: seq<Rec>, all: seq<Rec>, m: Mode)
  {
    KeysRise(out) && forall r :: r in out <==> r.key != [] && Mvcc.Visible(Best(all, Ask(m, r.key))) == Some(r)
  }

  lemma ScanIsReading(hasher: Hasher, children: seq<Child>, out: seq<Rec>, lists: seq<seq<Rec>>, srcs: seq<seq<Rec>>, m: Mode)
    requires IsScan(out, lists) && ChildrenOk(hasher, children, lists, srcs, m)
    ensures ScanOf(out, Flat(srcs), m)
  {
    forall r: Rec
      ensures r in out <==> r.key != [] && Mvcc.Visible(Best(Flat(srcs), Ask(m, r.key))) == Some(r)
    {
      if r.key != [] {
        forall i | 0 <= i < |lists|
          ensures Find(lists[i], r.key) == Best(srcs[i], Ask(m, r.key))
        {
          ChildIsOk(hasher, children[i], lists[i], srcs[i], m);
        }
        PickIsBest(lists, srcs, Ask(m, r.key));
      }
    }
  }

  method FullScan(hasher: Hasher, ssts: map<nat, Sst>, levels: seq<seq<nat>>, mem: HeapIt, m: Mode, ghost memSrc: seq<Rec>)
    returns (out: seq<Rec>)
    requires Storage(hasher, ssts, levels) && AllListed(hasher, ssts, levels) && !m.keepAll
    requires OnHeap(mem) && AnswersFor(HeapRest(mem), memSrc, m)
    ensures ScanOf(out, memSrc + Stored(hasher, ssts, levels), m)
  {
    ghost var lists, srcs := [], [memSrc] + Parts(hasher, ssts, levels);
    var children;
    children, lists := Children(hasher, ssts, levels, mem, m, memSrc);
    forall i | 0 <= i < |children|
      ensures ChildGives(hasher, children[i], lists[i]) && KeysRise(lists[i])
    {
      ChildIsOk(hasher, children[i], lists[i], srcs[i], m);
    }
    out := ScanAll(hasher, children, lists);
    ScanIsReading(hasher, children, out, lists, srcs, m);
    assert srcs[1..] == Parts(hasher, ssts, levels);
  }

  // ---- The predicate range query ----

  // The marker's key is never selected.
  function Guarded(pred: Key -> int): Key -> int
  {
    k => if k == [] then 1 else pred(k)
  }

  lemma GuardedMonotone(pred: Key -> int)
    requires Monotone(pred)
    ensures Monotone(Guarded(pred))
  {
    forall a, b | Less(a, b)
      ensures (Guarded(pred)(a) < 0 ==> Guarded(pred)(b) < 0) && (Guarded(pred)(a) == 0 ==> Guarded(pred)(b) <= 0)
    {
    }
  }

  // Taking the n-th record of a list whose keys rise: it is selected or not.
  lemma SelectStep(list: seq<Rec>, n: nat, pred: Key -> int)
    requires n < |list|
    ensures Selected(list[..n + 1], pred) == Selected(list[..n], pred) + if pred(list[n].key) == 0 then [list[n]] else []
  {
    assert list[..n + 1] == list[..n] + [list[n]];
    SelectedAppend(list[..n], [list[n]], pred);
    assert [list[n]][1..] == [];
  }

  // Behind a record past the selected ones nothing is selected.
  lemma SelectStop(list: seq<Rec>, n: nat, pred: Key -> int)
    requires n <= |list| && KeysRise(list) && Monotone(pred) && (n < |list| ==> pred(list[n].key) < 0)
    ensures Selected(list, pred) == Selected(list[..n], pred)
  {
    assert list == list[..n] + list[n..];
    SelectedAppend(list[..n], list[n..], pred);
    forall i | 0 <= i < |list[n..]|
      ensures pred(list[n..][i].key) != 0
    {
      assert i > 0 ==> Less(list[n].key, list[n + i].key);
    }
    SelectedOf(list[n..], pred);
  }

  lemma RisingDistinct(list: seq<Rec>)
    requires KeysRise(list)
    ensures Heaps.OnceEach(list)
  {
    forall i, j | 0 <= i < j < |list|
      ensures list[i].key != list[j].key
    {
      LessTotal(list[i].key, list[j].key);
    }
  }

  // One record of a source into the queue, if it is selected.
  method Gather(items: seq<Item>, x: Rec, idx: int, pos: int, ghost list: seq<Rec>, ghost n: nat, ghost src: seq<Rec>, ghost pred: Key -> int)
    returns (r: seq<Item>)
    requires n < |list| && list[n] == x && pos == pred(x.key) && Heaps.OnceEach(list)
    requires HeapOk(items, src + Selected(list[..n], pred)) && NewerThan(items, idx, list[..n])
    ensures HeapOk(r, src + Selected(list[..n + 1], pred)) && NewerThan(r, idx, list[..n + 1])
  {
    SelectStep(list, n, pred);
    assert forall y :: y in list[..n] ==> y in list[..n + 1];
    if pos != 0 {
      assert Selected(list[..n], pred) + [] == Selected(list[..n], pred);
      return items;
    }
    assert forall y :: y in list[..n] ==> y.key != x.key || y.ver != x.ver;
    r := Push(items, Item(x, idx), src + Selected(list[..n], pred));
    assert src + Selected(list[..n], pred) + [x] == src + Selected(list[..n + 1], pred);
    forall i | 0 <= i < |r|
      ensures r[i].idx > idx || (r[i].idx == idx && r[i].rec in list[..n + 1])
    {
      assert r[i] in r && list[..n + 1][n] == x;
    }
  }

  method GatherMemory(mem: HeapIt, pred: Key -> int, idx: int) returns (items: seq<Item>)
    requires OnHeap(mem) && KeysRise(HeapRest(mem)) && Monotone(pred)
    ensures HeapOk(items, Selected(HeapRest(mem), pred)) && forall i :: 0 <= i < |items| ==> items[i].idx >= idx
  {
    ghost var list, n := HeapRest(mem), 0;
    var it := mem;
    items := [];
    RisingDistinct(list);
    assert list[0..] == list && [] + Selected(list[..0], pred) == [];
    while it.items != []
      invariant OnHeap(it) && 0 <= n <= |list| && HeapRest(it) == list[n..]
      invariant HeapOk(items, [] + Selected(list[..n], pred)) && NewerThan(items, idx, list[..n])
      decreases |list| - n
    {
      RestHead(it);
      var x := it.items[0].rec;
      assert list[n] == x;
      var pos := pred(x.key);
      if pos < 0 {
        break;
      }
      items := Gather(items, x, idx, pos, list, n, [], pred);
      it := HeapNext(it);
      assert list[n..][1..] == list[n + 1..];
      n := n + 1;
    }
    EmptyHeap(it);
    SelectStop(list, n, pred);
    assert [] + Selected(list[..n], pred) == Selected(list[..n], pred);
  }

  // Whether the walk stops at range_end depends on block identity and is left open; the
  // predicate is asked again for every record.
  method GatherTable(hasher: Hasher, sst: Sst, m: Mode, pred: Key -> int, idx: int, items: seq<Item>, ghost src: seq<Rec>)
    returns (r: seq<Item>)
    requires IsTable(hasher, sst) && Monotone(pred) && pred([]) > 0 && !m.keepAll
    requires HeapOk(items, src) && forall i :: 0 <= i < |items| ==> items[i].idx > idx
    ensures HeapOk(r, src + Selected(Shown(RecordsOf(hasher, sst), m), pred)) && forall i :: 0 <= i < |r| ==> r[i].idx >= idx
  {
    var range;
    ghost var x;
    range, x := SelectInTable(hasher, sst, m, pred);
    r := items;
    if range.None? {
      assert src + [] == src;
      return;
    }
    TableShape(hasher, sst);
    ShownMeaning(RecordsOf(hasher, sst), m);
    r := GatherRange(hasher, range.value, pred, idx, items, src, Shown(RecordsOf(hasher, sst), m), x);
  }

  method GatherRange(hasher: Hasher, range: TableRanges.Range, pred: Key -> int, idx: int, items: seq<Item>,
                     ghost src: seq<Rec>, ghost shown: seq<Rec>, ghost x: seq<Rec>)
    returns (r: seq<Item>)
    requires Delimits(hasher, range, shown, pred, x) && KeysRise(shown)
    requires HeapOk(items, src) && forall i :: 0 <= i < |items| ==> items[i].idx > idx
    ensures HeapOk(r, src + x) && forall i :: 0 <= i < |r| ==> r[i].idx >= idx
  {
    ghost var list, rest, n := TableRest(hasher, range.begin), TableRest(hasher, range.end), 0;
    var it := range.begin;
    StartWalk(items, idx, src, list, x, rest, shown, pred);
    StartTableAt(hasher, it);
    r := items;
    while it.block.Some?
      invariant 0 <= n <= |list| && TableAt(hasher, it, list, n) && Walked(r, idx, src, list, x, rest, n, pred)
      decreases |list| - n
    {
      var atEnd: bool := *;
      if it == range.end && atEnd {
        break;
      }
      var head := HeadAt(hasher, it, list, n);
      var pos := pred(head.key);
      if pos < 0 {
        break;
      }
      r := WalkOne(r, idx, head, pos, src, list, x, rest, n, pred);
      it := NextAt(hasher, it, list, n);
      n := n + 1;
    }
    EndAt(hasher, it, list, n);
    EndWalk(r, idx, src, list, x, rest, n, pred);
  }

  // Of the walked part of the list the selected records, a prefix of x, are queued.
  ghost predicate Walked(items: seq<Item>, idx: int, src: seq<Rec>, list: seq<Rec>, x: seq<Rec>, rest: seq<Rec>, n: nat, pred: Key -> int)
  {
    forall m :: Opened(m) ==> WalkedWell(items, idx, src, list, x, rest, n, pred)
  }

  ghost predicate WalkedWell(items: seq<Item>, idx: int, src: seq<Rec>, list: seq<Rec>, x: seq<Rec>, rest: seq<Rec>, n: nat, pred: Key -> int)
  {
    && list == x + rest && AllHit(x, pred) && NoneHit(rest, pred) && Heaps.OnceEach(x)
    && (var k := if n < |x| then n else |x|; HeapOk(items, src + x[..k]) && NewerThan(items, idx, x[..k]))
  }

  lemma StartWalk(items: seq<Item>, idx: int, src: seq<Rec>, list: seq<Rec>, x: seq<Rec>, rest: seq<Rec>, shown: seq<Rec>, pred: Key -> int)
    requires KeysRise(shown) && x == Selected(shown, pred) && list == x + rest && NoneHit(rest, pred)
    requires HeapOk(items, src) && forall i :: 0 <= i < |items| ==> items[i].idx > idx
    ensures Walked(items, idx, src, list, x, rest, 0, pred)
  {
    SelectedMeaning(shown, pred);
    RisingDistinct(x);
    assert src + x[..0] == src;
    forall i | 0 <= i < |x|
      ensures pred(x[i].key) == 0
    {
      assert x[i] in x;
    }
  }

  method WalkOne(items: seq<Item>, idx: int, head: Rec, pos: int, ghost src: seq<Rec>, ghost list: seq<Rec>, ghost x: seq<Rec>,
                 ghost rest: seq<Rec>, ghost n: nat, ghost pred: Key -> int)
    returns (r: seq<Item>)
    requires Walked(items, idx, src, list, x, rest, n, pred) && n < |list| && head == list[n] && pos == pred(head.key)
    ensures Walked(r, idx, src, list, x, rest, n + 1, pred)
  {
    assert WalkedWell(items, idx, src, list, x, rest, n, pred) by {
      assert Opened(0);
    }
    assert n >= |x| ==> head == rest[n - |x|];
    r := items;
    if pos == 0 {
      r := PushHead(items, idx, head, src, x, n);
    }
  }

  // Stopping at the end, or at the first record past the selected ones.
  lemma EndWalk(items: seq<Item>, idx: int, src: seq<Rec>, list: seq<Rec>, x: seq<Rec>, rest: seq<Rec>, n: nat, pred: Key -> int)
    requires Walked(items, idx, src, list, x, rest, n, pred) && n <= |list|
    requires n == |list| || list[n..] == rest || pred(list[n].key) < 0
    ensures HeapOk(items, src + x) && forall i :: 0 <= i < |items| ==> items[i].idx >= idx
  {
    assert WalkedWell(items, idx, src, list, x, rest, n, pred) by {
      assert Opened(0);
    }
    if list[n..] == rest {
      assert |list[n..]| == |list| - n;
    }
    assert x[..|x|] == x;
  }

  // The queue holds what stands for src among the selected keys; all of it is newer than
  // the ranks still to be given.
  ghost predicate Queued(items: seq<Item>, chosen: seq<Rec>, src: seq<Rec>, m: Mode, pred: Key -> int, rank: int)
  {
    forall n :: Opened(n) ==> QueuedWell(items, chosen, src, m, pred, rank)
  }

  ghost predicate QueuedWell(items: seq<Item>, chosen: seq<Rec>, src: seq<Rec>, m: Mode, pred: Key -> int, rank: int)
  {
    && HeapOk(items, chosen) && StandsFor(chosen, src, m, k => pred(k) == 0) && Unmarked(chosen)
    && forall i :: 0 <= i < |items| ==> items[i].idx >= rank
  }

  lemma QueuedMore(items: seq<Item>, chosen: seq<Rec>, src: seq<Rec>, s: seq<Rec>, m: Mode, pred: Key -> int, rank: int)
    requires Ordered(s) && !m.keepAll && pred([]) > 0
    requires StandsFor(chosen, src, m, k => pred(k) == 0) && Unmarked(chosen)
    requires HeapOk(items, chosen + Selected(Shown(s, m), pred)) && forall i :: 0 <= i < |items| ==> items[i].idx >= rank
    ensures Queued(items, chosen + Selected(Shown(s, m), pred), src + s, m, pred, rank)
  {
    var picked := Selected(Shown(s, m), pred);
    ShownStands(s, m, pred);
    StandsAppend(chosen, src, picked, s, m, k => pred(k) == 0);
    SelectedMeaning(Shown(s, m), pred);
    forall i | 0 <= i < |picked|
      ensures picked[i].key != []
    {
      assert picked[i] in picked;
    }
  }

  method GatherOne(hasher: Hasher, sst: Sst, m: Mode, pred: Key -> int, rank: int, items: seq<Item>, ghost chosen: seq<Rec>, ghost src: seq<Rec>)
    returns (r: seq<Item>, ghost more: seq<Rec>)
    requires IsTable(hasher, sst) && Monotone(pred) && pred([]) > 0 && !m.keepAll && Queued(items, chosen, src, m, pred, rank + 1)
    ensures Queued(r, more, src + RecordsOf(hasher, sst), m, pred, rank)
  {
    assert QueuedWell(items, chosen, src, m, pred, rank + 1) by {
      assert Opened(0);
    }
    TableShape(hasher, sst);
    r := GatherTable(hasher, sst, m, pred, rank, items, chosen);
    more := chosen + Selected(Shown(RecordsOf(hasher, sst), m), pred);
    QueuedMore(r, chosen, src, RecordsOf(hasher, sst), m, pred, rank);
  }

  method GatherIds(hasher: Hasher, ssts: map<nat, Sst>, ids: seq<nat>, m: Mode, pred: Key -> int, rank: int, items: seq<Item>,
                   ghost chosen: seq<Rec>, ghost src: seq<Rec>)
    returns (r: seq<Item>, next: int, ghost more: seq<Rec>)
    requires Listed(hasher, ssts, ids) && Monotone(pred) && pred([]) > 0 && !m.keepAll && Queued(items, chosen, src, m, pred, rank)
    ensures Queued(r, more, src + Part(hasher, ssts, ids), m, pred, next)
  {
    r, next, more := items, rank, chosen;
    var i := 0;
    assert src + Part(hasher, ssts, ids[..0]) == src;
    while i < |ids|
      invariant 0 <= i <= |ids| && Listed(hasher, ssts, ids[..i])
      invariant Queued(r, more, src + Part(hasher, ssts, ids[..i]), m, pred, next)
    {
      assert Known(hasher, ssts, ids[i]);
      next := next - 1;
      r, more := GatherOne(hasher, ssts[ids[i]], m, pred, next, r, more, src + Part(hasher, ssts, ids[..i]));
      PartStep(hasher, ssts, ids, i);
      assert src + Part(hasher, ssts, ids[..i]) + RecordsOf(hasher, ssts[ids[i]]) == src + Part(hasher, ssts, ids[..i + 1]);
      i := i + 1;
    }
    assert ids[..i] == ids;
  }

  method GatherAll(hasher: Hasher, ssts: map<nat, Sst>, levels: seq<seq<nat>>, mem: HeapIt, m: Mode, pred: Key -> int, ghost memSrc: seq<Rec>)
    returns (items: seq<Item>, ghost chosen: seq<Rec>)
    requires AllListed(hasher, ssts, levels) && !m.keepAll && Monotone(pred) && pred([]) > 0
    requires OnHeap(mem) && Answers(HeapRest(mem), memSrc, m, k => true) && mem.bound == m.bound && !mem.keepAll && !mem.skipDelete
    ensures HeapOk(items, chosen) && StandsFor(chosen, memSrc + Stored(hasher, ssts, levels), m, k => pred(k) == 0) && Unmarked(chosen)
  {
    var rank := |ssts|;
    items := GatherMemory(mem, pred, rank);
    chosen := Selected(HeapRest(mem), pred);
    MemoryStands(mem, memSrc, m, pred);
    assert QueuedWell(items, chosen, memSrc, m, pred, rank);
    var l := 0;
    assert memSrc + Stored(hasher, ssts, levels[..0]) == memSrc;
    while l < |levels|
      invariant 0 <= l <= |levels| && AllListed(hasher, ssts, levels[..l])
      invariant Queued(items, chosen, memSrc + Stored(hasher, ssts, levels[..l]), m, pred, rank)
    {
      items, rank, chosen := GatherIds(hasher, ssts, levels[l], m, pred, rank, items, chosen, memSrc + Stored(hasher, ssts, levels[..l]));
      StoredStep(hasher, ssts, levels, l);
      assert memSrc + Stored(hasher, ssts, levels[..l]) + Part(hasher, ssts, levels[l]) == memSrc + Stored(hasher, ssts, levels[..l + 1]);
      l := l + 1;
    }
    assert levels[..l] == levels;
    assert QueuedWell(items, chosen, memSrc + Stored(hasher, ssts, levels), m, pred, rank) by {
      assert Opened(0);
    }
  }

  lemma MemoryStands(mem: HeapIt, memSrc: seq<Rec>, m: Mode, pred: Key -> int)
    requires OnHeap(mem) && Answers(HeapRest(mem), memSrc, m, k => true) && mem.bound == m.bound && !mem.keepAll && !mem.skipDelete
    requires pred([]) > 0
    ensures StandsFor(Selected(HeapRest(mem), pred), memSrc, m, k => pred(k) == 0) && Unmarked(Selected(HeapRest(mem), pred))
  {
    var list := HeapRest(mem);
    var picked := Selected(list, pred);
    ShownSubset(Recs(mem.items), Mode(mem.bound, {}, false));
    SelectedMeaning(list, pred);
    InBound(picked, list, Mode(mem.bound, {}, false));
    forall k | k != []
      ensures Best(picked, Query(k, m.bound, {})) == if pred(k) == 0 then Best(memSrc, Ask(m, k)) else None
    {
      RisingBest(picked, m.bound, k);
      FindSelected(list, pred, k);
    }
    forall i | 0 <= i < |picked|
      ensures picked[i].key != []
    {
      assert picked[i] in picked;
    }
  }

  // Exactly the visible records of the keys the predicate selects, in key order.
  ghost predicate RangeOf(out: seq<Rec>, all: seq<Rec>, m: Mode, pred: Key -> int)
  {
    KeysRise(out) &&
    forall r :: r in out <==> r.key != [] && pred(r.key) == 0 && Mvcc.Visible(Best(all, Ask(m, r.key))) == Some(r)
  }

  // The query's iterator: a merge of one queue with an empty one.
  method RangeBegin(hasher: Hasher, ssts: map<nat, Sst>, levels: seq<seq<nat>>, mem: HeapIt, m: Mode, pred: Key -> int, ghost memSrc: seq<Rec>)
    returns (it: TwoMerge)
    requires AllListed(hasher, ssts, levels) && !m.keepAll && Monotone(pred)
    requires OnHeap(mem) && Answers(HeapRest(mem), memSrc, m, k => true) && mem.bound == m.bound && !mem.keepAll && !mem.skipDelete
    ensures OnMerge(hasher, it) && RangeOf(MergeRest(hasher, it), memSrc + Stored(hasher, ssts, levels), m, pred)
  {
    GuardedMonotone(pred);
    var guarded := Guarded(pred);
    var items;
    ghost var chosen;
    items, chosen := GatherAll(hasher, ssts, levels, mem, m, guarded, memSrc);
    var raw := HeapIt(items, m.bound, true, false);
    ghost var all := memSrc + Stored(hasher, ssts, levels);
    QueueGives(raw, chosen, all, m, k => guarded(k) == 0);
    var h := Settle(raw);
    var empty := HeapIt([], m.bound, false, false);
    it := StartMerge(hasher, HeapChild(h), HeapChild(empty), m.bound, false);
    ghost var out := HeapRest(h);
    LiveMeaning(Shown(Recs(h.items), Mode(h.bound, {}, false)));
    ShownSubset(Recs(h.items), Mode(h.bound, {}, false));
    forall i | 0 <= i < |out|
      ensures m.bound == 0 || out[i].ver <= m.bound
    {
      assert out[i] in out;
    }
    TrimNothing(out, m.bound);
    MergedSingle(out, m.bound);
  }

  lemma TrimNothing(s: seq<Rec>, bound: nat)
    requires forall i :: 0 <= i < |s| ==> bound == 0 || s[i].ver <= bound
    ensures Trim(s, bound) == s
  {
  }

  // The range query is the full scan restricted to the predicate.
  lemma RangeIsSelectedScan(scan: seq<Rec>, range: seq<Rec>, all: seq<Rec>, m: Mode, pred: Key -> int)
    requires ScanOf(scan, all, m) && RangeOf(range, all, m, pred)
    ensures range == Selected(scan, pred)
  {
    SelectedMeaning(scan, pred);
    RisingUnique(range, Selected(scan, pred));
  }

  // Point reads and the scan agree: a key is in the scan exactly when a read of it
  // answers, and with the same record.
  lemma ScanAgreesWithReads(scan: seq<Rec>, all: seq<Rec>, m: Mode, key: Key)
    requires ScanOf(scan, all, m) && key != []
    ensures Find(scan, key) == Mvcc.Visible(Best(all, Ask(m, key)))
  {
    FindMeaning(scan, key);
    BestMeaning(all, Ask(m, key));
    var read := Mvcc.Visible(Best(all, Ask(m, key)));
    if read.Some? {
      assert read.value.key == key && read.value in scan;
    }
  }

  // Walks the query's iterator to its end.
  method DrainRange(hasher: Hasher, begin: TwoMerge) returns (out: seq<Rec>)
    requires OnMerge(hasher, begin)
    ensures out == MergeRest(hasher, begin)
  {
    out := DrainAll(hasher, begin, MergeRest(hasher, begin));
  }

  method DrainAll(hasher: Hasher, begin: TwoMerge, ghost all: seq<Rec>) returns (out: seq<Rec>)
    requires MergeLeft(hasher, begin, all)
    ensures out == all
  {
    ghost var rest := all;
    var it := begin;
    out := [];
    while MergeValid(it)
      invariant MergeLeft(hasher, it, rest) && out + rest == all
      decreases |rest|
    {
      var x;
      x, it := TakeNext(hasher, it, rest);
      HeadMoves(out, rest);
      out, rest := out + [x], rest[1..];
    }
    LeftOver(hasher, it, rest);
  }

  lemma HeadMoves<T>(a: seq<T>, b: seq<T>)
    requires b != []
    ensures a + b == a + [b[0]] + b[1..]
  {
  }
}
