// The memory tables: one being written, older ones frozen and waiting to be flushed.

module MemTables {
  import opened Bytes
  import opened Mvcc
  import opened SkipLists
  import opened Streams
  import opened Heaps
  import opened Collecting
  import opened Bloom
  import opened Ssts
  import opened SstBuilders

  // The table and all its nodes are among these objects.
  ghost predicate Within(t: SkipList, objects: set<object>)
    reads t
  {
    t in objects && t.head in objects && forall n :: n in t.nodes ==> n in objects
  }

  // The table is in order; see SkipList.Valid.
  ghost predicate Sound(t: SkipList)
    reads t, t.head, t.nodes
  {
    forall n :: Opened(n) ==> t.Valid()
  }

  lemma SoundIsValid(t: SkipList)
    requires Sound(t)
    ensures t.Valid() && Strict(t.contents)
  {
    assert Opened(0);
  }

  lemma {:induction false} NarrowUpsert(s: seq<Rec>, r: Rec)
    requires Narrow(s) && r.ver < TWO64
    ensures Narrow(Upsert(s, r)) && Upsert(s, r) != []
  {
    if s != [] {
      assert Narrow(s[1..]);
      NarrowUpsert(s[1..], r);
    }
  }

  ghost function {:tailrecursion false} Contents(tables: seq<SkipList>): seq<Rec>
    reads tables
  {
    if tables == [] then [] else tables[0].contents + Contents(tables[1..])
  }

  ghost function Sizes(tables: seq<SkipList>): nat
    reads tables
  {
    if tables == [] then 0 else tables[0].sizeBytes + Sizes(tables[1..])
  }

  lemma {:induction false} ContentsAppend(a: seq<SkipList>, t: SkipList)
    ensures Contents(a + [t]) == Contents(a) + t.contents && Sizes(a + [t]) == Sizes(a) + t.sizeBytes
  {
    if a == [] {
      assert [t][1..] == [] && a + [t] == [t];
    } else {
      assert (a + [t])[1..] == a[1..] + [t];
      ContentsAppend(a[1..], t);
    }
  }

  // The reading side of one table, whose contract is all the callers need.
  method TableGet(t: SkipList, key: Key, bound: nat, skip: set<nat>) returns (r: Option<Rec>)
    requires Sound(t)
    ensures r == Best(t.contents, Query(key, bound, skip))
  {
    SoundIsValid(t);
    var node := t.Get(key, bound, skip);
    if node == null {
      return None;
    }
    return Some(Rec(node.key, node.value, node.ver));
  }

  method TableFlush(t: SkipList) returns (data: seq<Rec>)
    requires Sound(t)
    ensures data == t.contents && Strict(data)
  {
    SoundIsValid(t);
    data := t.Flush();
  }

  lemma EmptyBySize(t: SkipList)
    requires Sound(t)
    ensures t.sizeBytes == SizeOf(t.contents) && (t.sizeBytes == 0 <==> t.contents == [])
  {
    SoundIsValid(t);
  }

  // Hands the chosen records between two nodes of a table to the queue.
  method CollectRange(t: SkipList, from: SkipListNode?, to: SkipListNode?, idx: nat, items: seq<Item>, m: Mode,
                      ghost sel: Key -> bool, ghost lo: nat, ghost hi: nat, ghost src: seq<Rec>) returns (r: seq<Item>)
    requires t.Valid() && lo <= hi <= |t.nodes| && from == SkipLists.At(t.nodes, lo) && to == SkipLists.At(t.nodes, hi)
    requires forall i :: 0 <= i < |t.nodes| ==> (lo <= i < hi <==> sel(t.nodes[i].key))
    requires HeapOk(items, src) && forall i :: 0 <= i < |items| ==> items[i].idx > idx
    ensures HeapOk(r, src + Taken(t.contents, m, sel)) && forall i :: 0 <= i < |r| ==> r[i].idx >= idx
  {
    r := items;
    var node := from;
    ghost var c: nat := lo;
    ghost var s := t.contents;
    StrictIsDistinct(s);
    TakenNone(s[..lo], m, sel);
    assert src + Taken(s[..lo], m, sel) == src;
    while node != to
      invariant lo <= c <= hi && node == SkipLists.At(t.nodes, c)
      invariant HeapOk(r, src + Taken(s[..c], m, sel)) && NewerThan(r, idx, s[..c])
      decreases hi - c
    {
      assert node == t.nodes[c];
      assert s[c] == Rec(node.key, node.value, node.ver);
      r := CollectOne(r, idx, Rec(node.key, node.value, node.ver), m, src, s, c, sel);
      c := c + 1;
      node := t.After(node, c);
    }
    SameNode(t, c, hi);
    AllTaken(s, hi, m, sel);
  }

  lemma AllTaken(s: seq<Rec>, hi: nat, m: Mode, sel: Key -> bool)
    requires hi <= |s| && forall i :: hi <= i < |s| ==> !sel(s[i].key)
    ensures Taken(s, m, sel) == Taken(s[..hi], m, sel)
  {
    assert s == s[..hi] + s[hi..];
    TakenAppend(s[..hi], s[hi..], m, sel);
    TakenNone(s[hi..], m, sel);
  }

  lemma SameNode(t: SkipList, a: nat, b: nat)
    requires t.Valid() && a <= b <= |t.nodes| && SkipLists.At(t.nodes, a) == SkipLists.At(t.nodes, b)
    ensures a == b
  {
    if a < b < |t.nodes| {
      NodesDiffer(t, a, b);
    }
  }

  lemma NodesDiffer(t: SkipList, a: nat, b: nat)
    requires t.Valid() && a < b < |t.nodes|
    ensures t.nodes[a] != t.nodes[b]
  {
    assert t.All()[a + 1] == t.nodes[a] && t.All()[b + 1] == t.nodes[b];
  }

  lemma StrictIsDistinct(s: seq<Rec>)
    requires Strict(s)
    ensures Heaps.OnceEach(s)
  {
    RecOrder();
  }

  method CollectOne(items: seq<Item>, idx: nat, x: Rec, m: Mode, ghost src: seq<Rec>, ghost s: seq<Rec>, ghost c: nat, ghost sel: Key -> bool)
    returns (r: seq<Item>)
    requires c < |s| && x == s[c] && sel(x.key) && Heaps.OnceEach(s)
    requires HeapOk(items, src + Taken(s[..c], m, sel)) && NewerThan(items, idx, s[..c])
    ensures HeapOk(r, src + Taken(s[..c + 1], m, sel)) && NewerThan(r, idx, s[..c + 1])
  {
    assert s[..c + 1] == s[..c] + [s[c]];
    TakenAppend(s[..c], [s[c]], m, sel);
    assert [s[c]][1..] == [];
    assert forall y :: y in s[..c] ==> y in s[..c + 1];
    if x.key == [] || !Admits(m.bound, m.skip, x.ver) {
      assert Taken(s[..c], m, sel) + [] == Taken(s[..c], m, sel);
      return items;
    }
    assert forall y :: y in s[..c] ==> y.key != x.key || y.ver != x.ver;
    r := Push(items, Item(x, idx), src + Taken(s[..c], m, sel));
    assert src + Taken(s[..c], m, sel) + [x] == src + Taken(s[..c + 1], m, sel);
    forall i | 0 <= i < |r|
      ensures r[i].idx > idx || (r[i].idx == idx && r[i].rec in s[..c + 1])
    {
      assert r[i] in r;
      assert s[..c + 1][c] == x;
    }
  }

  // Which keys an iterator is asked for.
  datatype Choice = Everything | Prefix(prefix: Key) | Range(pred: Key -> int)

  function Chosen(choice: Choice): Key -> bool
  {
    match choice
    case Everything => (k: Key) => true
    case Prefix(prefix) => (k: Key) => prefix <= k
    case Range(pred) => (k: Key) => pred(k) == 0
  }

  ghost predicate ProperChoice(choice: Choice)
  {
    choice.Range? ==> Monotone(choice.pred)
  }

  // Begin and end node of the chosen stretch of one table; see SkipList.
  method Bounds(t: SkipList, choice: Choice) returns (from: SkipListNode?, to: SkipListNode?, ghost lo: nat, ghost hi: nat)
    requires t.Valid() && ProperChoice(choice)
    ensures lo <= hi <= |t.nodes| && from == SkipLists.At(t.nodes, lo) && to == SkipLists.At(t.nodes, hi)
    ensures forall i :: 0 <= i < |t.nodes| ==> (lo <= i < hi <==> Chosen(choice)(t.nodes[i].key))
  {
    match choice
    case Everything =>
      from := t.After(t.head, 0);
      to, lo, hi := null, 0, |t.nodes|;
    case Prefix(prefix) =>
      from, lo := t.BeginPrefix(prefix);
      to, hi := t.EndPrefix(prefix);
      PrefixBounds(t, prefix, lo, hi);
    case Range(pred) =>
      from, to, lo, hi := t.ItersMonotonyPredicate(pred);
      if from == null {
        to, lo, hi := null, |t.nodes|, |t.nodes|;
      }
  }

  lemma PrefixBounds(t: SkipList, prefix: Key, lo: nat, hi: nat)
    requires lo <= |t.nodes| && hi <= |t.nodes|
    requires forall j :: 0 <= j < |t.nodes| ==> (j < lo <==> Less(t.nodes[j].key, prefix))
    requires forall j :: 0 <= j < |t.nodes| ==> (j < hi <==> Less(t.nodes[j].key, prefix) || prefix <= t.nodes[j].key)
    ensures lo <= hi
    ensures forall i :: 0 <= i < |t.nodes| ==> (lo <= i < hi <==> prefix <= t.nodes[i].key)
  {
    forall i | 0 <= i < |t.nodes|
      ensures prefix <= t.nodes[i].key ==> !Less(t.nodes[i].key, prefix)
    {
      PrefixNotLess(prefix, t.nodes[i].key);
    }
    var probe := if hi < |t.nodes| then t.nodes[hi].key else [];
  }

  lemma {:induction false} PrefixNotLess(prefix: Key, key: Key)
    ensures prefix <= key ==> !Less(key, prefix)
  {
    if prefix != [] && key != [] && prefix <= key {
      assert prefix[1..] <= key[1..];
      PrefixNotLess(prefix[1..], key[1..]);
    }
  }

  method Collect(t: SkipList, choice: Choice, idx: nat, items: seq<Item>, m: Mode, ghost src: seq<Rec>) returns (r: seq<Item>)
    requires Sound(t) && ProperChoice(choice) && HeapOk(items, src) && forall i :: 0 <= i < |items| ==> items[i].idx > idx
    ensures HeapOk(r, src + Taken(t.contents, m, Chosen(choice))) && forall i :: 0 <= i < |r| ==> r[i].idx >= idx
  {
    SoundIsValid(t);
    var from, to, lo, hi := Bounds(t, choice);
    r := CollectRange(t, from, to, idx, items, m, Chosen(choice), lo, hi, src);
  }

  // What flushing the oldest table comes to.
  datatype FlushOutcome =
    | Nothing
    | Flushed(sst: Sst, markers: seq<nat>)
    // The table was written and has outgrown its offsets; the program takes it for Flushed.
    | Outgrown(sst: Sst)
    | Failed(error: Error)

  // The versions of the transaction markers among records.
  function {:tailrecursion false} Markers(s: seq<Rec>): seq<nat>
  {
    if s == [] then [] else (if s[0].key == [] && s[0].value == [] then [s[0].ver] else []) + Markers(s[1..])
  }

  lemma {:induction false} MarkersAppend(s: seq<Rec>, r: Rec)
    ensures Markers(s + [r]) == Markers(s) + if r.key == [] && r.value == [] then [r.ver] else []
  {
    if s == [] {
      assert s + [r] == [r] && [r][1..] == [];
    } else {
      assert (s + [r])[1..] == s[1..] + [r];
      MarkersAppend(s[1..], r);
    }
  }

  ghost predicate TableOk(t: SkipList, maxLevel: nat)
    reads t, t.head, t.nodes
  {
    Sound(t) && t.maxLevel == maxLevel && Narrow(t.contents)
  }

  // A frozen table among the objects set aside for frozen tables.
  ghost predicate Kept(t: SkipList, objects: set<object>)
    reads objects
  {
    t in objects && Within(t, objects) && TableOk(t, t.maxLevel) && t.contents != []
  }

  lemma KeptInMore(t: SkipList, objects: set<object>, more: set<object>)
    requires Kept(t, objects) && objects <= more
    ensures Kept(t, more)
  {
  }

  method NewTable(maxLevel: nat) returns (t: SkipList)
    requires maxLevel >= 1
    ensures fresh(t) && fresh(t.head) && TableOk(t, maxLevel) && t.contents == [] && t.sizeBytes == 0 && t.nodes == []
  {
    t := new SkipList(maxLevel);
  }

  // One write of the table in use; new nodes are all that is added.
  method TablePut(t: SkipList, key: Key, value: ByteString, ver: u64, level: nat, ghost objects: set<object>) returns (ghost more: set<object>)
    requires TableOk(t, t.maxLevel) && Within(t, objects) && 1 <= level <= t.maxLevel
    modifies t, t.head, t.nodes
    ensures TableOk(t, t.maxLevel) && fresh(more) && Within(t, objects + more)
    ensures t.contents == Upsert(old(t.contents), Rec(key, value, ver)) && t.contents != [] && Strict(old(t.contents))
  {
    SoundIsValid(t);
    NarrowUpsert(t.contents, Rec(key, value, ver));
    t.Put(key, value, ver, level);
    more := set n: SkipListNode | n in t.nodes && fresh(n) :: n as object;
  }

  // Records written one after the other, the last one newest.
  function Stack(rs: seq<Rec>, was: seq<Rec>): seq<Rec>
  {
    if rs == [] then was else Stack(rs[1..], [rs[0]] + was)
  }

  // Reading now is reading what was with the records written on top.
  ghost predicate Adds(now: seq<Rec>, was: seq<Rec>, rs: seq<Rec>)
  {
    forall q :: Best(now, q) == Best(Stack(rs, was), q)
  }

  lemma {:induction false} StackAppend(rs: seq<Rec>, r: Rec, was: seq<Rec>)
    ensures Stack(rs + [r], was) == [r] + Stack(rs, was)
  {
    if rs == [] {
      assert [] + [r] == [r] && [r][1..] == [];
    } else {
      assert (rs + [r])[1..] == rs[1..] + [r];
      StackAppend(rs[1..], r, [rs[0]] + was);
    }
  }

  lemma AddsOneMore(now: seq<Rec>, mid: seq<Rec>, was: seq<Rec>, rs: seq<Rec>, r: Rec)
    requires Adds(mid, was, rs) && Adds(now, mid, [r])
    ensures Adds(now, was, rs + [r])
  {
    StackAppend(rs, r, was);
    StackAppend([], r, mid);
    assert [] + [r] == [r];
    forall q
      ensures Best(now, q) == Best(Stack(rs + [r], was), q)
    {
      BestAppend([r], mid, q);
      BestAppend([r], Stack(rs, was), q);
    }
  }

  // An upsert into the newest table is a write on top of everything.
  lemma UpsertAdds(s: seq<Rec>, rest: seq<Rec>, r: Rec)
    requires Strict(s)
    ensures Adds(Upsert(s, r) + rest, s + rest, [r])
  {
    assert Stack([r], s + rest) == [r] + (s + rest) by {
      assert [r][1..] == [];
    }
    forall q
      ensures Best(Upsert(s, r) + rest, q) == Best([r] + (s + rest), q)
    {
      UpsertBest(s, r, q);
      BestAppend(Upsert(s, r), rest, q);
      BestAppend([r] + s, rest, q);
      assert [r] + s + rest == [r] + (s + rest);
    }
  }

  lemma {:induction false} ContentsCut(tables: seq<SkipList>, n: nat)
    requires n <= |tables|
    ensures Contents(tables) == Contents(tables[..n]) + Contents(tables[n..])
    ensures Sizes(tables) == Sizes(tables[..n]) + Sizes(tables[n..])
  {
    if n > 0 {
      assert tables[..n][0] == tables[0] && tables[..n][1..] == tables[1..][..n - 1] && tables[1..][n - 1..] == tables[n..];
      ContentsCut(tables[1..], n - 1);
    }
  }

  lemma NextTable(s: seq<Rec>, tables: seq<SkipList>, i: nat, m: Mode, sel: Key -> bool)
    requires i < |tables|
    ensures Taken(s + Contents(tables[..i + 1]), m, sel) == Taken(s + Contents(tables[..i]), m, sel) + Taken(tables[i].contents, m, sel)
  {
    var src := s + Contents(tables[..i]);
    assert tables[..i + 1] == tables[..i] + [tables[i]];
    ContentsAppend(tables[..i], tables[i]);
    TakenAppend(src, tables[i].contents, m, sel);
    assert src + tables[i].contents == s + Contents(tables[..i + 1]);
  }

  // The builder has taken the first i records.
  twostate predicate Took(builder: SSTBuilder, data: seq<Rec>, i: nat)
    reads builder, builder.block, builder.filter
    requires i <= |data|
  {
    && builder.Valid() && builder.Records() == data[..i] && (builder.block == old(builder.block) || fresh(builder.block))
    && (if i == 0 then builder.open == [] else builder.open != [] && builder.open[|builder.open| - 1] == data[i - 1])
  }

  lemma InOrderNext(data: seq<Rec>, i: nat)
    requires Ordered(data) && Narrow(data) && i < |data|
    ensures i > 0 ==> !RecLess(data[i], data[i - 1])
    ensures data[i].ver < TWO64 && data[..i] + [data[i]] == data[..i + 1]
    ensures Rec(data[i].key, data[i].value, data[i].ver) == data[i]
  {
  }

  method AddAll(builder: SSTBuilder, data: seq<Rec>) returns (r: Result<()>)
    requires builder.Valid() && builder.open == [] && builder.Records() == [] && Ordered(data) && Narrow(data)
    modifies builder, builder.block, builder.filter
    ensures r.Ok? ==> builder.Valid() && builder.Records() == data && (builder.block == old(builder.block) || fresh(builder.block))
    ensures r.Err? ==> r.error == LengthError
  {
    var i := 0;
    while i < |data|
      invariant 0 <= i <= |data| && Took(builder, data, i)
    {
      InOrderNext(data, i);
      var e := data[i];
      var added := builder.Add(e.key, e.value, e.ver);
      if added.Err? {
        return Err(added.error);
      }
      i := i + 1;
    }
    assert data[..i] == data;
    return Ok(());
  }

  // All records in order into a builder, and the builder into a file.  Whether the file
  // can be read is told by the size before it is built; the program does not look.
  method BuildTable(builder: SSTBuilder, data: seq<Rec>, sstId: nat) returns (r: Result<Sst>, whole: bool)
    requires builder.Valid() && builder.open == [] && builder.Records() == [] && Ordered(data) && Narrow(data) && data != []
    modifies builder, builder.block, builder.filter
    ensures r.Ok? ==> r.value.id == sstId && (IsTable(builder.hasher, r.value) <==> whole)
    ensures r.Ok? && whole ==> RecordsOf(builder.hasher, r.value) == data
    ensures r.Ok? ==> Dated(r.value, data)
    ensures r.Err? ==> r.error == LengthError
  {
    whole := false;
    var added := AddAll(builder, data);
    if added.Err? {
      return Err(added.error), whole;
    }
    ghost var parts, blocks, section := builder.Parts(), [], [];
    whole := builder.FitsOffsets();
    r, blocks, section := builder.Build(sstId);
    if whole {
      RecordsAre(builder.hasher, r.value, parts);
    }
  }

  class MemTable {
    const limit: nat
    const maxLevel: nat
    var current: SkipList
    // Newest first.
    var frozen: seq<SkipList>
    var frozenBytes: nat

    // The objects of the current table and those of the frozen ones.
    ghost var mine: set<object>
    ghost var theirs: set<object>

    ghost predicate Valid()
      reads this, mine, theirs
    {
      && maxLevel >= 1 && this !in mine && this !in theirs && mine !! theirs
      && current in mine && Within(current, mine) && TableOk(current, maxLevel)
      && (forall t :: t in frozen ==> t in theirs && Kept(t, theirs))
      && frozenBytes == Sizes(frozen)
    }

    // Everything in memory, newest table first.
    ghost function Records(): seq<Rec>
      reads this, current, frozen
    {
      current.contents + Contents(frozen)
    }

    // A builder of its own objects.
    ghost predicate Unrelated(builder: SSTBuilder)
      reads this, builder
    {
      var objects := mine + theirs;
      builder !in objects && builder.block !in objects && builder.filter !in objects
    }

    constructor (limit: nat, maxLevel: nat)
      requires maxLevel >= 1
      ensures Valid() && Records() == [] && fresh(mine) && fresh(theirs)
      ensures this.limit == limit && this.maxLevel == maxLevel
    {
      this.limit, this.maxLevel := limit, maxLevel;
      frozen, frozenBytes := [], 0;
      var t := NewTable(maxLevel);
      current := t;
      mine, theirs := {t, t.head}, {};
    }

    // Memory takes no bytes exactly when it holds no records.
    lemma NothingBySize()
      requires Valid()
      ensures Records() == [] <==> current.sizeBytes + frozenBytes == 0
    {
      EmptyBySize(current);
      if frozen != [] {
        assert frozen[0] in frozen;
        EmptyBySize(frozen[0]);
        assert |Contents(frozen)| >= |frozen[0].contents| > 0 && Sizes(frozen) >= frozen[0].sizeBytes > 0;
        assert |Records()| > 0;
      }
    }

    // Makes the current table the newest frozen one, unless it is empty.
    method FreezeCurrent()
      requires Valid()
      modifies this
      ensures Valid() && Records() == old(Records())
      ensures fresh(mine + theirs - old(mine + theirs))
      ensures old(current.contents) == [] ==> frozen == old(frozen) && current == old(current)
      ensures old(current.contents) != [] ==> frozen == [old(current)] + old(frozen) && current.contents == []
    {
      EmptyBySize(current);
      if current.sizeBytes == 0 {
        return;
      }
      var next := NewTable(maxLevel);
      frozenBytes := frozenBytes + current.sizeBytes;
      frozen := [current] + frozen;
      current := next;
      theirs := mine + theirs;
      mine := {next, next.head};
      assert frozen[1..] == old(frozen);
      forall t | t in frozen
        ensures t in theirs && Kept(t, theirs)
      {
        if t in old(frozen) {
          KeptInMore(t, old(theirs), theirs);
        }
      }
      assert [] + Contents(frozen) == Contents(frozen);
    }

    method PutOne(key: Key, value: ByteString, ver: u64, level: nat)
      requires Valid() && 1 <= level <= maxLevel
      modifies this, mine
      ensures Valid() && Adds(Records(), old(Records()), [Rec(key, value, ver)])
      ensures frozen == old(frozen) && theirs == old(theirs) && fresh(mine - old(mine)) && current.contents != []
    {
      ghost var rest := Contents(frozen);
      ghost var more := TablePut(current, key, value, ver, level, mine);
      mine := mine + more;
      UpsertAdds(old(current.contents), rest, Rec(key, value, ver));
    }

    // Freezes the current table when it has reached its limit.
    method FreezeIfFull()
      requires Valid()
      modifies this
      ensures Valid() && Records() == old(Records()) && fresh(mine + theirs - old(mine + theirs))
    {
      if current.sizeBytes >= limit {
        FreezeCurrent();
      }
    }

    method Put(key: Key, value: ByteString, ver: u64, level: nat)
      requires Valid() && 1 <= level <= maxLevel
      modifies this, mine
      ensures Valid() && Adds(Records(), old(Records()), [Rec(key, value, ver)])
      ensures fresh(mine + theirs - old(mine + theirs))
    {
      PutOne(key, value, ver, level);
      FreezeIfFull();
    }

    method PutBatch(kvs: seq<(Key, ByteString)>, ver: u64, levels: seq<nat>)
      requires Valid() && |levels| == |kvs| && forall i :: 0 <= i < |levels| ==> 1 <= levels[i] <= maxLevel
      modifies this, mine
      ensures Valid() && Adds(Records(), old(Records()), Stamped(kvs, ver))
      ensures fresh(mine + theirs - old(mine + theirs))
    {
      ghost var was := Records();
      var i := 0;
      assert Stamped(kvs[..0], ver) == [];
      while i < |kvs|
        invariant 0 <= i <= |kvs| && Valid() && Adds(Records(), was, Stamped(kvs[..i], ver))
        invariant theirs == old(theirs) && fresh(mine - old(mine))
      {
        ghost var mid := Records();
        PutOne(kvs[i].0, kvs[i].1, ver, levels[i]);
        AddsOneMore(Records(), mid, was, Stamped(kvs[..i], ver), Rec(kvs[i].0, kvs[i].1, ver));
        assert Stamped(kvs[..i + 1], ver) == Stamped(kvs[..i], ver) + [Rec(kvs[i].0, kvs[i].1, ver)];
        i := i + 1;
      }
      assert kvs[..i] == kvs;
      FreezeIfFull();
    }

    // A removal writes a tombstone.
    method Remove(key: Key, ver: u64, level: nat)
      requires Valid() && 1 <= level <= maxLevel
      modifies this, mine
      ensures Valid() && Adds(Records(), old(Records()), [Rec(key, [], ver)])
      ensures fresh(mine + theirs - old(mine + theirs))
    {
      PutOne(key, [], ver, level);
      FreezeIfFull();
    }

    method RemoveBatch(keys: seq<Key>, ver: u64, levels: seq<nat>)
      requires Valid() && |levels| == |keys| && forall i :: 0 <= i < |levels| ==> 1 <= levels[i] <= maxLevel
      modifies this, mine
      ensures Valid() && Adds(Records(), old(Records()), Stamped(Tombs(keys), ver))
      ensures fresh(mine + theirs - old(mine + theirs))
    {
      PutBatch(Tombs(keys), ver, levels);
    }

    // The newest frozen table is looked at first; a strictly larger version replaces.
    method FrozenGet(key: Key, bound: nat, skip: set<nat>) returns (best: Option<Rec>)
      requires Valid()
      ensures best == Best(Contents(frozen), Query(key, bound, skip))
    {
      ghost var q := Query(key, bound, skip);
      best := None;
      var i := 0;
      while i < |frozen|
        invariant 0 <= i <= |frozen| && best == Best(Contents(frozen[..i]), q)
      {
        assert frozen[i] in frozen;
        var candidate := TableGet(frozen[i], key, bound, skip);
        assert frozen[..i + 1] == frozen[..i] + [frozen[i]];
        ContentsAppend(frozen[..i], frozen[i]);
        BestAppend(Contents(frozen[..i]), frozen[i].contents, q);
        if candidate.Some? && (best.None? || candidate.value.ver > best.value.ver) {
          best := candidate;
        }
        i := i + 1;
      }
      assert frozen[..i] == frozen;
    }

    // A record under the empty key is a marker and is not given.
    method Get(key: Key, bound: nat, skip: set<nat>) returns (best: Option<Rec>)
      requires Valid()
      ensures best == if key == [] then None else Best(Records(), Query(key, bound, skip))
    {
      best := TableGet(current, key, bound, skip);
      var older := FrozenGet(key, bound, skip);
      BestAppend(current.contents, Contents(frozen), Query(key, bound, skip));
      if older.Some? && (best.None? || older.value.ver > best.value.ver) {
        best := older;
      }
      if key == [] {
        best := None;
      }
    }

    // Pointwise the same as Get, under one lock.
    method GetBatch(keys: seq<Key>, bound: nat, skip: set<nat>) returns (results: seq<Option<Rec>>)
      requires Valid()
      ensures |results| == |keys|
      ensures forall i :: 0 <= i < |keys| ==> results[i] == if keys[i] == [] then None else Best(Records(), Query(keys[i], bound, skip))
    {
      results := [];
      var i := 0;
      while i < |keys|
        invariant 0 <= i <= |keys| && |results| == i
        invariant forall j :: 0 <= j < i ==> results[j] == if keys[j] == [] then None else Best(Records(), Query(keys[j], bound, skip))
      {
        var best := Get(keys[i], bound, skip);
        results := results + [best];
        i := i + 1;
      }
    }

    // The queue behind begin, iters_preffix and iters_monotony_predicate: of every chosen
    // key what a read finds in memory.
    method Gather(choice: Choice, bound: nat, skip: set<nat>, skipDelete: bool) returns (h: HeapIt)
      requires Valid() && ProperChoice(choice)
      ensures OnHeap(h) && h.bound == bound && h.skipDelete == skipDelete && !h.keepAll
      ensures !skipDelete ==> Answers(HeapRest(h), Records(), Mode(bound, skip, false), Chosen(choice))
      ensures skipDelete ==> AnswersLive(HeapRest(h), Records(), Mode(bound, skip, false), Chosen(choice))
    {
      var m := Mode(bound, skip, false);
      var items := GatherItems(choice, m);
      var raw := HeapIt(items, bound, skipDelete, false);
      TakenStands(Records(), m, Chosen(choice));
      QueueGives(raw, Taken(Records(), m, Chosen(choice)), Records(), m, Chosen(choice));
      h := Settle(raw);
    }

    method GatherItems(choice: Choice, m: Mode) returns (items: seq<Item>)
      requires Valid() && ProperChoice(choice)
      ensures HeapOk(items, Taken(Records(), m, Chosen(choice)))
    {
      ghost var sel := Chosen(choice);
      var n := |frozen|;
      items := Collect(current, choice, n, [], m, []);
      assert [] + Taken(current.contents, m, sel) == Taken(current.contents, m, sel);
      var i := 0;
      assert Contents(frozen[..0]) == [] && current.contents + [] == current.contents;
      while i < n
        invariant 0 <= i <= |frozen| == n && HeapOk(items, Taken(current.contents + Contents(frozen[..i]), m, sel))
        invariant forall k :: 0 <= k < |items| ==> items[k].idx >= n - i
      {
        assert frozen[i] in frozen;
        NextTable(current.contents, frozen, i, m, sel);
        items := Collect(frozen[i], choice, n - i - 1, items, m, Taken(current.contents + Contents(frozen[..i]), m, sel));
        i := i + 1;
      }
      assert frozen[..i] == frozen;
    }

    // The oldest frozen table becomes a file; the table goes only when the file is there.
    method FlushLast(builder: SSTBuilder, sstId: nat) returns (r: FlushOutcome)
      requires Valid() && builder.Valid() && builder.open == [] && builder.Records() == []
      requires Unrelated(builder)
      modifies this, builder, builder.block, builder.filter
      ensures Valid() && fresh(mine + theirs - old(mine + theirs))
      ensures r.Nothing? ==> old(Records()) == [] && Records() == []
      ensures r.Flushed? ==> IsTable(builder.hasher, r.sst) && r.sst.id == sstId && Strict(RecordsOf(builder.hasher, r.sst))
      ensures r.Flushed? ==> old(Records()) == Records() + RecordsOf(builder.hasher, r.sst)
      ensures r.Flushed? ==> r.markers == Markers(RecordsOf(builder.hasher, r.sst))
      ensures r.Flushed? ==> Dated(r.sst, RecordsOf(builder.hasher, r.sst))
      ensures r.Outgrown? ==> !IsTable(builder.hasher, r.sst) && r.sst.id == sstId
      ensures r.Failed? ==> r.error == LengthError && Records() == old(Records())
    {
      if frozen == [] {
        FreezeCurrent();
      }
      if frozen == [] {
        return Nothing;
      }
      r := FlushOldest(builder, sstId);
    }

    method Oldest() returns (data: seq<Rec>)
      requires Valid() && frozen != []
      ensures data == frozen[|frozen| - 1].contents && Strict(data) && Ordered(data) && Narrow(data) && data != []
    {
      var table := frozen[|frozen| - 1];
      assert table in frozen;
      data := TableFlush(table);
      StrictIsOrdered(data);
    }

    method FlushOldest(builder: SSTBuilder, sstId: nat) returns (r: FlushOutcome)
      requires Valid() && builder.Valid() && builder.open == [] && builder.Records() == [] && frozen != []
      requires Unrelated(builder)
      modifies this`frozen, this`frozenBytes, builder, builder.block, builder.filter
      ensures Valid() && !r.Nothing?
      ensures r.Flushed? ==> IsTable(builder.hasher, r.sst) && r.sst.id == sstId && Strict(RecordsOf(builder.hasher, r.sst))
      ensures r.Flushed? ==> old(Records()) == Records() + RecordsOf(builder.hasher, r.sst)
      ensures r.Flushed? ==> r.markers == Markers(RecordsOf(builder.hasher, r.sst))
      ensures r.Flushed? ==> Dated(r.sst, RecordsOf(builder.hasher, r.sst))
      ensures r.Outgrown? ==> !IsTable(builder.hasher, r.sst) && r.sst.id == sstId
      ensures r.Failed? ==> r.error == LengthError && Records() == old(Records())
    {
      var data, built, whole := WriteOldest(builder, sstId);
      if built.Err? {
        return Failed(built.error);
      }
      var markers := MarkersOf(data);
      DropOldest();
      return if whole then Flushed(built.value, markers) else Outgrown(built.value);
    }

    method WriteOldest(builder: SSTBuilder, sstId: nat) returns (data: seq<Rec>, r: Result<Sst>, whole: bool)
      requires Valid() && builder.Valid() && builder.open == [] && builder.Records() == [] && frozen != []
      requires Unrelated(builder)
      modifies builder, builder.block, builder.filter
      ensures Valid() && Records() == old(Records()) && data == frozen[|frozen| - 1].contents && Strict(data)
      ensures r.Ok? ==> r.value.id == sstId && (IsTable(builder.hasher, r.value) <==> whole)
      ensures r.Ok? && whole ==> RecordsOf(builder.hasher, r.value) == data
      ensures r.Ok? ==> Dated(r.value, data)
      ensures r.Err? ==> r.error == LengthError
    {
      data := Oldest();
      r, whole := BuildTable(builder, data, sstId);
    }

    method DropOldest()
      requires Valid() && frozen != []
      modifies this`frozen, this`frozenBytes
      ensures Valid() && old(Records()) == Records() + old(frozen)[|old(frozen)| - 1].contents
    {
      ghost var before := frozen;
      var n := |frozen| - 1;
      var table := frozen[n];
      ContentsCut(before, n);
      assert before[n..] == [table] && [table][1..] == [];
      frozen := frozen[..n];
      frozenBytes := frozenBytes - table.sizeBytes;
    }

    method Clear()
      requires Valid()
      modifies this, mine
      ensures Valid() && Records() == [] && fresh(mine + theirs - old(mine + theirs))
    {
      SoundIsValid(current);
      current.Clear();
      mine := {current, current.head};
      frozen, frozenBytes, theirs := [], 0, {};
    }
  }

  function Stamped(kvs: seq<(Key, ByteString)>, ver: nat): (rs: seq<Rec>)
    ensures |rs| == |kvs| && forall i :: 0 <= i < |kvs| ==> rs[i] == Rec(kvs[i].0, kvs[i].1, ver)
  {
    seq(|kvs|, i requires 0 <= i < |kvs| => Rec(kvs[i].0, kvs[i].1, ver))
  }

  function Tombs(keys: seq<Key>): (kvs: seq<(Key, ByteString)>)
    ensures |kvs| == |keys| && forall i :: 0 <= i < |keys| ==> kvs[i] == (keys[i], [])
  {
    seq(|keys|, i requires 0 <= i < |keys| => (keys[i], []))
  }

  method MarkersOf(data: seq<Rec>) returns (ids: seq<nat>)
    ensures ids == Markers(data)
  {
    ids := [];
    var i := 0;
    while i < |data|
      invariant 0 <= i <= |data| && ids == Markers(data[..i])
    {
      MarkersAppend(data[..i], data[i]);
      assert data[..i + 1] == data[..i] + [data[i]];
      if data[i].key == [] && data[i].value == [] {
        ids := ids + [data[i].ver];
      }
      i := i + 1;
    }
    assert data[..i] == data;
  }
}
