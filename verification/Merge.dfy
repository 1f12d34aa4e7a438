// Merging sources of records: many tables into one queue, two iterators into one.

module Merges {
  import opened Bytes
  import opened Mvcc
  import opened Bloom
  import opened Ssts
  import opened Streams
  import opened TableIterators
  import opened Heaps

  // ---- Many tables into one queue ----

  // The tables' iterators, newest table first.
  ghost predicate Newest(its: seq<SstIt>)
  {
    forall i, j :: 0 <= i < j < |its| ==> its[i].sst.id > its[j].sst.id
  }

  ghost predicate AllOnTable(hasher: Hasher, its: seq<SstIt>)
  {
    forall i :: 0 <= i < |its| ==> OnTable(hasher, its[i]) && OnceEach(TableRest(hasher, its[i]))
  }

  ghost function Rests(hasher: Hasher, its: seq<SstIt>): (rests: seq<seq<Rec>>)
    requires AllOnTable(hasher, its)
    ensures |rests| == |its| && forall i :: 0 <= i < |its| ==> rests[i] == TableRest(hasher, its[i])
  {
    seq(|its|, i requires 0 <= i < |its| => TableRest(hasher, its[i]))
  }

  // Everything one iterator gives goes into the queue under its table's id.
  method PushTable(hasher: Hasher, it: SstIt, items: seq<Item>, ghost src: seq<Rec>) returns (r: seq<Item>)
    requires OnTable(hasher, it) && OnceEach(TableRest(hasher, it))
    requires HeapOk(items, src) && forall i :: 0 <= i < |items| ==> items[i].idx > it.sst.id
    ensures HeapOk(r, src + TableRest(hasher, it)) && forall i :: 0 <= i < |r| ==> r[i].idx >= it.sst.id
  {
    ghost var all := TableRest(hasher, it);
    var cur := it;
    r := items;
    ghost var n := 0;
    assert src + all[..0] == src;
    StartTableAt(hasher, it);
    while cur.block.Some?
      invariant cur.sst == it.sst && 0 <= n <= |all| && TableAt(hasher, cur, all, n)
      invariant HeapOk(r, src + all[..n]) && NewerThan(r, it.sst.id, all[..n])
      decreases |all| - n
    {
      var head := HeadAt(hasher, cur, all, n);
      r := PushHead(r, it.sst.id, head, src, all, n);
      cur := NextAt(hasher, cur, all, n);
      n := n + 1;
    }
    EndAt(hasher, cur, all, n);
    assert all[..n] == all;
  }

  method PushHead(items: seq<Item>, idx: int, head: Rec, ghost src: seq<Rec>, ghost all: seq<Rec>, ghost n: nat) returns (r: seq<Item>)
    requires n < |all| && head == all[n] && OnceEach(all) && HeapOk(items, src + all[..n]) && NewerThan(items, idx, all[..n])
    ensures HeapOk(r, src + all[..n + 1]) && NewerThan(r, idx, all[..n + 1])
  {
    assert forall r :: r in all[..n] ==> r.key != all[n].key || r.ver != all[n].ver;
    r := Push(items, Item(head, idx), src + all[..n]);
    PushedOne(items, r, idx, src, all, n);
  }

  lemma PushedOne(items: seq<Item>, r: seq<Item>, idx: int, src: seq<Rec>, all: seq<Rec>, n: nat)
    requires n < |all| && HeapOk(r, src + all[..n] + [all[n]]) && NewerThan(items, idx, all[..n])
    requires forall y :: y in r <==> y in items || y == Item(all[n], idx)
    ensures HeapOk(r, src + all[..n + 1]) && NewerThan(r, idx, all[..n + 1])
  {
    assert src + all[..n] + [all[n]] == src + all[..n + 1];
    assert forall y :: y in all[..n] ==> y in all[..n + 1];
    assert all[..n + 1][n] == all[n];
    forall i | 0 <= i < |r|
      ensures r[i].idx > idx || (r[i].idx == idx && r[i].rec in all[..n + 1])
    {
      assert r[i] in r;
    }
  }

  lemma FlatStep<T>(parts: seq<seq<T>>, i: nat)
    requires i < |parts|
    ensures Flat(parts[..i + 1]) == Flat(parts[..i]) + parts[i]
  {
    assert parts[..i + 1] == parts[..i] + [parts[i]];
    FlatAppend(parts[..i], [parts[i]]);
    FlatOne(parts[i]);
  }

  // The queue over several tables of which any two may share keys.
  method MergeTables(hasher: Hasher, its: seq<SstIt>, keepAll: bool) returns (h: HeapIt)
    requires AllOnTable(hasher, its) && Newest(its)
    ensures OnHeap(h) && h.bound == 0 && !h.skipDelete && h.keepAll == keepAll
    ensures HeapOk(h.items, Flat(Rests(hasher, its)))
  {
    ghost var rests := Rests(hasher, its);
    var items: seq<Item> := [];
    var i := 0;
    assert rests[..0] == [] && Flat(rests[..0]) == [];
    while i < |its|
      invariant 0 <= i <= |its| && HeapOk(items, Flat(rests[..i]))
      invariant forall k :: 0 <= k < |items| ==> i > 0 && items[k].idx >= its[i - 1].sst.id
    {
      items := PushTable(hasher, its[i], items, Flat(rests[..i]));
      FlatStep(rests, i);
      i := i + 1;
    }
    assert rests[..|its|] == rests;
    h := HeapIt(items, 0, false, keepAll);
  }

  // ---- One iterator behind a common interface ----

  datatype Child = HeapChild(heap: HeapIt) | LevelChild(level: ConcatIt)

  ghost predicate OnChild(hasher: Hasher, c: Child)
  {
    match c
    case HeapChild(heap) => OnHeap(heap)
    case LevelChild(level) => OnLevel(hasher, level)
  }

  ghost function ChildRest(hasher: Hasher, c: Child): seq<Rec>
    requires OnChild(hasher, c)
  {
    match c
    case HeapChild(heap) => HeapRest(heap)
    case LevelChild(level) => LevelRest(hasher, level)
  }

  predicate IsValid(c: Child)
  {
    match c
    case HeapChild(heap) => heap.items != []
    case LevelChild(level) => level.cur.Some?
  }

  lemma ValidChild(hasher: Hasher, c: Child)
    requires OnChild(hasher, c)
    ensures IsValid(c) ==> ChildRest(hasher, c) != []
    ensures !IsValid(c) ==> ChildRest(hasher, c) == []
  {
    match c
    case HeapChild(heap) => EmptyHeap(heap);
    case LevelChild(level) =>
      if level.cur.Some? {
        var es := BlocksOf(hasher, level.cur.value.sst)[level.cur.value.blockIdx];
        HeadShown(level.cur.value.block.value, es);
      }
  }

  method Head(hasher: Hasher, c: Child) returns (r: Rec)
    requires OnChild(hasher, c) && IsValid(c)
    ensures ChildRest(hasher, c) != [] && ChildRest(hasher, c)[0] == r
  {
    match c
    case HeapChild(heap) =>
      RestHead(heap);
      r := heap.items[0].rec;
    case LevelChild(level) =>
      r := LevelHead(hasher, level);
  }

  lemma RestHead(h: HeapIt)
    requires OnHeap(h) && h.items != []
    ensures HeapRest(h) != [] && HeapRest(h)[0] == h.items[0].rec
  {
    RestOfHeap(h);
  }

  method Next(hasher: Hasher, c: Child) returns (r: Child)
    requires OnChild(hasher, c)
    ensures OnChild(hasher, r) && r.HeapChild? == c.HeapChild?
    ensures !IsValid(c) ==> r == c
    ensures IsValid(c) ==> ChildRest(hasher, c) != [] && ChildRest(hasher, r) == ChildRest(hasher, c)[1..]
  {
    match c
    case HeapChild(heap) =>
      var h := HeapNext(heap);
      r := HeapChild(h);
    case LevelChild(level) =>
      var l := NextInLevel(hasher, level);
      r := LevelChild(l);
  }

  // ---- Two iterators into one ----

  // Which of two non-empty sources comes next: the smaller key, then the larger version,
  // then the first source.
  predicate TakeFirst(a: Rec, b: Rec)
  {
    if a.key != b.key then Less(a.key, b.key) else a.ver >= b.ver
  }

  function Trim(s: seq<Rec>, bound: nat): (t: seq<Rec>)
    ensures |t| <= |s|
  {
    if s != [] && bound != 0 && s[0].ver > bound then Trim(s[1..], bound) else s
  }

  // What the two-way merge gives of two trimmed sources.
  function {:tailrecursion false} Merged(s: seq<Rec>, t: seq<Rec>, bound: nat, keepAll: bool): seq<Rec>
    decreases |s| + |t|
  {
    if s == [] && t == [] then []
    else if t == [] || (s != [] && TakeFirst(s[0], t[0])) then
      [s[0]] + (if keepAll then Merged(Trim(s[1..], bound), t, bound, keepAll)
                else Merged(Trim(DropKey(s[1..], s[0].key), bound), Trim(DropKey(t, s[0].key), bound), bound, keepAll))
    else
      [t[0]] + (if keepAll then Merged(s, Trim(t[1..], bound), bound, keepAll)
                else Merged(Trim(DropKey(s, t[0].key), bound), Trim(DropKey(t[1..], t[0].key), bound), bound, keepAll))
  }

  lemma TakeFirstOrder(a: Rec, b: Rec)
    ensures TakeFirst(a, b) ==> !RecLess(b, a)
    ensures !TakeFirst(a, b) ==> RecLess(b, a) && !RecLess(a, b)
  {
    LessTotal(a.key, b.key);
  }

  // Every record of both, in order.
  lemma {:induction false} MergedOrdered(s: seq<Rec>, t: seq<Rec>)
    requires Ordered(s) && Ordered(t)
    ensures Ordered(Merged(s, t, 0, true)) && |Merged(s, t, 0, true)| == |s| + |t|
    ensures forall r :: r in Merged(s, t, 0, true) <==> r in s || r in t
    decreases |s| + |t|
  {
    if s != [] && t != [] {
      TakeFirstOrder(s[0], t[0]);
    }
    if s == [] && t == [] {
    } else if t == [] || (s != [] && TakeFirst(s[0], t[0])) {
      OrderedTail(s);
      MergedOrdered(s[1..], t);
      assert s == [s[0]] + s[1..];
      Prepend(s[0], Merged(s[1..], t, 0, true), s[1..], t);
    } else {
      OrderedTail(t);
      MergedOrdered(s, t[1..]);
      assert t == [t[0]] + t[1..];
      Prepend(t[0], Merged(s, t[1..], 0, true), t[1..], s);
    }
  }

  // The first source's records before the second's on equal key and version.
  lemma {:induction false} MergedGroups(s: seq<Rec>, t: seq<Rec>, k: Key, v: nat)
    requires Ordered(s) && Ordered(t)
    ensures Group(Merged(s, t, 0, true), k, v) == Group(s, k, v) + Group(t, k, v)
    decreases |s| + |t|
  {
    if s == [] && t == [] {
    } else if t == [] || (s != [] && TakeFirst(s[0], t[0])) {
      OrderedTail(s);
      MergedGroups(s[1..], t, k, v);
      FirstJoins(s, t, k, v);
    } else {
      OrderedTail(t);
      MergedGroups(s, t[1..], k, v);
      SecondJoins(s, t, k, v);
    }
  }

  // x stands before everything left in the two sources.
  lemma Prepend(x: Rec, rest: seq<Rec>, own: seq<Rec>, other: seq<Rec>)
    requires Ordered(rest) && forall r :: r in rest <==> r in own || r in other
    requires Ordered([x] + own) && (other != [] ==> !RecLess(other[0], x)) && Ordered(other)
    ensures Ordered([x] + rest)
  {
    forall r | r in rest
      ensures !RecLess(r, x)
    {
      if r in own {
        var a :| 0 <= a < |own| && own[a] == r;
        assert ([x] + own)[a + 1] == r && ([x] + own)[0] == x;
      } else {
        var a :| 0 <= a < |other| && other[a] == r;
        assert a > 0 ==> !RecLess(other[a], other[0]);
        RecOrder();
      }
    }
    var all := [x] + rest;
    forall i, j | 0 <= i < j < |all|
      ensures !RecLess(all[j], all[i])
    {
      assert all[j] == rest[j - 1] && all[j] in rest;
    }
  }

  lemma {:induction false} FirstJoins(s: seq<Rec>, t: seq<Rec>, k: Key, v: nat)
    requires s != []
    ensures (if s[0].key == k && s[0].ver == v then [s[0]] else []) + (Group(s[1..], k, v) + Group(t, k, v))
         == Group(s, k, v) + Group(t, k, v)
  {
    if s[0].key == k && s[0].ver == v {
      Regroup([s[0]], Group(s[1..], k, v), Group(t, k, v));
    } else {
      assert [] + (Group(s[1..], k, v) + Group(t, k, v)) == Group(s[1..], k, v) + Group(t, k, v);
    }
  }

  // A record of the second source that goes first comes before all of its group.
  lemma {:induction false} SecondJoins(s: seq<Rec>, t: seq<Rec>, k: Key, v: nat)
    requires Ordered(s) && t != [] && (s != [] ==> !TakeFirst(s[0], t[0]))
    ensures (if t[0].key == k && t[0].ver == v then [t[0]] else []) + (Group(s, k, v) + Group(t[1..], k, v))
         == Group(s, k, v) + Group(t, k, v)
  {
    if t[0].key == k && t[0].ver == v {
      SecondIsLater(s, t, k, v);
      assert Group(s, k, v) == [] && [] + Group(t[1..], k, v) == Group(t[1..], k, v);
    } else {
      assert [] + (Group(s, k, v) + Group(t[1..], k, v)) == Group(s, k, v) + Group(t[1..], k, v);
    }
  }

  // When the second source goes first, the first one has nothing of that key and version.
  lemma SecondIsLater(s: seq<Rec>, t: seq<Rec>, k: Key, v: nat)
    requires Ordered(s) && t != [] && t[0].key == k && t[0].ver == v && (s != [] ==> !TakeFirst(s[0], t[0]))
    ensures Group(s, k, v) == []
  {
    forall i | 0 <= i < |s|
      ensures s[i].key != k || s[i].ver != v
    {
      assert i > 0 ==> !RecLess(s[i], s[0]);
      LessTotal(s[0].key, k);
      LessTotal(s[0].key, s[i].key);
    }
    NoGroup(s, k, v);
  }

  // A single source whose records the bound admits, one per key, is given as it is.
  lemma {:induction false} MergedSingle(s: seq<Rec>, bound: nat)
    requires KeysRise(s) && forall i :: 0 <= i < |s| ==> bound == 0 || s[i].ver <= bound
    ensures Merged(s, [], bound, false) == s
  {
    if s != [] {
      if |s| > 1 {
        assert Less(s[0].key, s[1].key);
        LessTotal(s[0].key, s[1].key);
      }
      assert DropKey(s[1..], s[0].key) == s[1..];
      assert KeysRise(s[1..]);
      MergedSingle(s[1..], bound);
    }
  }

  datatype TwoMerge = TwoMerge(a: Child, b: Child, bound: nat, keepAll: bool, chooseA: bool)

  ghost predicate OnMerge(hasher: Hasher, m: TwoMerge)
  {
    && OnChild(hasher, m.a) && OnChild(hasher, m.b)
    && (var s, t := ChildRest(hasher, m.a), ChildRest(hasher, m.b);
        && Trim(s, m.bound) == s && Trim(t, m.bound) == t
        && (m.chooseA <==> s != [] && (t == [] || TakeFirst(s[0], t[0]))))
  }

  ghost function MergeRest(hasher: Hasher, m: TwoMerge): seq<Rec>
    requires OnMerge(hasher, m)
  {
    Merged(ChildRest(hasher, m.a), ChildRest(hasher, m.b), m.bound, m.keepAll)
  }

  method ChooseA(hasher: Hasher, a: Child, b: Child) returns (r: bool)
    requires OnChild(hasher, a) && OnChild(hasher, b)
    ensures var s, t := ChildRest(hasher, a), ChildRest(hasher, b);
            r <==> s != [] && (t == [] || TakeFirst(s[0], t[0]))
  {
    ValidChild(hasher, a);
    ValidChild(hasher, b);
    if !IsValid(a) {
      return false;
    }
    if !IsValid(b) {
      return true;
    }
    var x := Head(hasher, a);
    var y := Head(hasher, b);
    if x.key != y.key {
      return Less(x.key, y.key);
    }
    return x.ver >= y.ver;
  }

  method TrimChild(hasher: Hasher, c: Child, bound: nat) returns (r: Child)
    requires OnChild(hasher, c)
    ensures OnChild(hasher, r) && ChildRest(hasher, r) == Trim(ChildRest(hasher, c), bound)
    ensures Trim(ChildRest(hasher, r), bound) == ChildRest(hasher, r)
  {
    r := c;
    if bound == 0 {
      return;
    }
    while IsValid(r)
      invariant OnChild(hasher, r) && Trim(ChildRest(hasher, r), bound) == Trim(ChildRest(hasher, c), bound)
      decreases |ChildRest(hasher, r)|
    {
      var x := Head(hasher, r);
      if x.ver <= bound {
        return;
      }
      r := Next(hasher, r);
    }
    ValidChild(hasher, r);
  }

  method DropChild(hasher: Hasher, c: Child, key: Key) returns (r: Child)
    requires OnChild(hasher, c)
    ensures OnChild(hasher, r) && ChildRest(hasher, r) == DropKey(ChildRest(hasher, c), key)
  {
    r := c;
    while IsValid(r)
      invariant OnChild(hasher, r) && DropKey(ChildRest(hasher, r), key) == DropKey(ChildRest(hasher, c), key)
      decreases |ChildRest(hasher, r)|
    {
      var x := Head(hasher, r);
      if x.key != key {
        return;
      }
      r := Next(hasher, r);
    }
    ValidChild(hasher, r);
  }

  method StartMerge(hasher: Hasher, a: Child, b: Child, bound: nat, keepAll: bool) returns (m: TwoMerge)
    requires OnChild(hasher, a) && OnChild(hasher, b)
    ensures OnMerge(hasher, m) && m.bound == bound && m.keepAll == keepAll
    ensures MergeRest(hasher, m) == Merged(Trim(ChildRest(hasher, a), bound), Trim(ChildRest(hasher, b), bound), bound, keepAll)
  {
    var a' := TrimChild(hasher, a, bound);
    var b' := TrimChild(hasher, b, bound);
    var chooseA := ChooseA(hasher, a', b');
    m := TwoMerge(a', b', bound, keepAll, chooseA);
  }

  predicate MergeValid(m: TwoMerge)
  {
    IsValid(m.a) || IsValid(m.b)
  }

  method MergeHead(hasher: Hasher, m: TwoMerge) returns (r: Rec)
    requires OnMerge(hasher, m) && MergeValid(m)
    ensures MergeRest(hasher, m) != [] && MergeRest(hasher, m)[0] == r
  {
    ValidChild(hasher, m.a);
    ValidChild(hasher, m.b);
    if m.chooseA {
      r := Head(hasher, m.a);
    } else {
      r := Head(hasher, m.b);
    }
  }

  lemma MergeEnd(hasher: Hasher, m: TwoMerge)
    requires OnMerge(hasher, m)
    ensures MergeValid(m) <==> MergeRest(hasher, m) != []
  {
    ValidChild(hasher, m.a);
    ValidChild(hasher, m.b);
  }

  method MergeNext(hasher: Hasher, m: TwoMerge) returns (r: TwoMerge)
    requires OnMerge(hasher, m)
    ensures OnMerge(hasher, r) && r.bound == m.bound && r.keepAll == m.keepAll
    ensures !MergeValid(m) ==> r == m
    ensures MergeValid(m) ==> MergeRest(hasher, m) != [] && MergeRest(hasher, r) == MergeRest(hasher, m)[1..]
  {
    if !MergeValid(m) {
      return m;
    }
    ValidChild(hasher, m.a);
    ValidChild(hasher, m.b);
    var x := MergeHead(hasher, m);
    var a, b := m.a, m.b;
    if m.keepAll {
      if m.chooseA {
        a := Next(hasher, a);
      } else {
        b := Next(hasher, b);
      }
    } else {
      a := DropChild(hasher, a, x.key);
      b := DropChild(hasher, b, x.key);
    }
    r := StartMerge(hasher, a, b, m.bound, m.keepAll);
  }

  // The merge has exactly this left to give.
  ghost predicate MergeLeft(hasher: Hasher, m: TwoMerge, rest: seq<Rec>)
  {
    forall n :: Opened(n) ==> OnMerge(hasher, m) && MergeRest(hasher, m) == rest
  }

  lemma LeftOver(hasher: Hasher, m: TwoMerge, rest: seq<Rec>)
    requires MergeLeft(hasher, m, rest)
    ensures OnMerge(hasher, m) && MergeRest(hasher, m) == rest
    ensures MergeValid(m) <==> rest != []
  {
    assert Opened(0);
    MergeEnd(hasher, m);
  }

  method TakeNext(hasher: Hasher, m: TwoMerge, ghost rest: seq<Rec>) returns (x: Rec, next: TwoMerge)
    requires MergeLeft(hasher, m, rest) && MergeValid(m)
    ensures rest != [] && x == rest[0] && MergeLeft(hasher, next, rest[1..])
  {
    LeftOver(hasher, m, rest);
    x := MergeHead(hasher, m);
    next := MergeNext(hasher, m);
  }

  // The next record, if any, left where it is.
  method Peek(hasher: Hasher, m: TwoMerge, ghost rest: seq<Rec>) returns (x: Option<Rec>)
    requires MergeLeft(hasher, m, rest)
    ensures x == if rest == [] then None else Some(rest[0])
  {
    LeftOver(hasher, m, rest);
    if !MergeValid(m) {
      return None;
    }
    var head := MergeHead(hasher, m);
    return Some(head);
  }
}
