// The iterator over a priority queue of records.

module Heaps {
  import opened Bytes
  import opened Mvcc
  import opened Streams

  // A record with the rank of the source it comes from; higher ranks are newer.
  datatype Item = Item(rec: Rec, idx: int)

  // Key ascending, version descending, newer source first.
  predicate ItemLess(a: Item, b: Item)
  {
    RecLess(a.rec, b.rec) || (a.rec.key == b.rec.key && a.rec.ver == b.rec.ver && a.idx > b.idx)
  }

  // The queue, in the order it would be popped.
  datatype HeapIt = HeapIt(items: seq<Item>, bound: nat, skipDelete: bool, keepAll: bool)

  function Recs(items: seq<Item>): (s: seq<Rec>)
    ensures |s| == |items| && forall i :: 0 <= i < |items| ==> s[i] == items[i].rec
  {
    seq(|items|, i requires 0 <= i < |items| => items[i].rec)
  }

  ghost predicate Sorted(items: seq<Item>)
  {
    forall i, j :: 0 <= i < j < |items| ==> !ItemLess(items[j], items[i])
  }

  // The queue holds the records of src, in order, and of equal keys and versions in
  // the order src has them.
  ghost predicate HeapOk(items: seq<Item>, src: seq<Rec>)
  {
    Sorted(items) && SameGroups(Recs(items), src)
  }

  lemma SortedIsOrdered(items: seq<Item>)
    requires Sorted(items)
    ensures Ordered(Recs(items))
  {
  }

  lemma ItemOrder(a: Item, b: Item, c: Item)
    ensures ItemLess(a, b) ==> !ItemLess(b, a)
    ensures ItemLess(a, b) && ItemLess(b, c) ==> ItemLess(a, c)
    ensures !ItemLess(b, a) && !ItemLess(c, b) ==> !ItemLess(c, a)
  {
    LessTotal(a.rec.key, b.rec.key);
    LessTotal(b.rec.key, c.rec.key);
    LessTotal(a.rec.key, c.rec.key);
    if Less(a.rec.key, b.rec.key) && Less(b.rec.key, c.rec.key) {
      LessTransitive(a.rec.key, b.rec.key, c.rec.key);
    }
  }

  // Puts x where it will be popped in turn.
  method Push(items: seq<Item>, x: Item, ghost src: seq<Rec>) returns (r: seq<Item>)
    requires HeapOk(items, src)
    requires forall i :: 0 <= i < |items| && items[i].rec.key == x.rec.key && items[i].rec.ver == x.rec.ver ==> items[i].idx > x.idx
    ensures HeapOk(r, src + [x.rec])
    ensures forall y :: y in r <==> y in items || y == x
  {
    var i := 0;
    while i < |items| && ItemLess(items[i], x)
      invariant 0 <= i <= |items|
      invariant forall j :: 0 <= j < i ==> ItemLess(items[j], x)
    {
      i := i + 1;
    }
    r := items[..i] + [x] + items[i..];
    PushSorted(items, x, i);
    PushGroups(items, x, i, src);
  }

  lemma PushSorted(items: seq<Item>, x: Item, i: nat)
    requires Sorted(items) && i <= |items| && (i < |items| ==> !ItemLess(items[i], x))
    requires forall j :: 0 <= j < i ==> ItemLess(items[j], x)
    ensures Sorted(items[..i] + [x] + items[i..])
    ensures forall j :: i <= j < |items| ==> !ItemLess(items[j], x)
  {
    forall j | i <= j < |items|
      ensures !ItemLess(items[j], x)
    {
      assert i < j ==> !ItemLess(items[j], items[i]);
      ItemOrder(x, items[i], items[j]);
    }
    var r := items[..i] + [x] + items[i..];
    forall a, b | 0 <= a < b < |r|
      ensures !ItemLess(r[b], r[a])
    {
      if a < i {
        assert r[a] == items[a];
        ItemOrder(items[a], x, x);
      }
    }
  }

  lemma PushGroups(items: seq<Item>, x: Item, i: nat, src: seq<Rec>)
    requires SameGroups(Recs(items), src) && i <= |items|
    requires forall j :: i <= j < |items| ==> !ItemLess(items[j], x)
    requires forall j :: 0 <= j < |items| && items[j].rec.key == x.rec.key && items[j].rec.ver == x.rec.ver ==> items[j].idx > x.idx
    ensures SameGroups(Recs(items[..i] + [x] + items[i..]), src + [x.rec])
  {
    var front, back := Recs(items[..i]), Recs(items[i..]);
    forall k, v
      ensures Group(Recs(items[..i] + [x] + items[i..]), k, v) == Group(src + [x.rec], k, v)
    {
      assert Recs(items[..i] + [x] + items[i..]) == front + ([x.rec] + back);
      assert Recs(items) == front + back;
      GroupAppend(front, [x.rec] + back, k, v);
      GroupAppend([x.rec], back, k, v);
      GroupAppend(front, back, k, v);
      GroupAppend(src, [x.rec], k, v);
      if k == x.rec.key && v == x.rec.ver {
        NoGroup(back, k, v);
      } else {
        NoGroup([x.rec], k, v);
      }
    }
  }

  lemma {:induction false} NoGroup(s: seq<Rec>, k: Key, v: nat)
    requires forall i :: 0 <= i < |s| ==> s[i].key != k || s[i].ver != v
    ensures Group(s, k, v) == []
  {
    if s != [] {
      NoGroup(s[1..], k, v);
    }
  }

  // Every item is newer than the source idx, or is one of the records of that source.
  ghost predicate NewerThan(items: seq<Item>, idx: int, own: seq<Rec>)
  {
    forall i :: 0 <= i < |items| ==> items[i].idx > idx || (items[i].idx == idx && items[i].rec in own)
  }

  // No key stands twice with the same version.
  ghost predicate OnceEach(s: seq<Rec>)
  {
    forall i, j :: 0 <= i < j < |s| ==> s[i].key != s[j].key || s[i].ver != s[j].ver
  }

  // ---- Popping ----

  predicate Admitted(h: HeapIt, r: Rec)
  {
    h.bound == 0 || r.ver <= h.bound
  }

  ghost function HeapRest(h: HeapIt): seq<Rec>
  {
    var s := Shown(Recs(h.items), Mode(h.bound, {}, h.keepAll));
    if h.skipDelete then Live(s) else s
  }

  // On a record to be given, or empty.  Keeping every version while leaving out
  // tombstones is a combination no caller asks for.
  ghost predicate OnHeap(h: HeapIt)
  {
    && Sorted(h.items) && !(h.keepAll && h.skipDelete)
    && (h.items != [] ==> Admitted(h, h.items[0].rec) && (h.skipDelete ==> h.items[0].rec.value != []))
  }

  lemma RestOfHeap(h: HeapIt)
    requires h.items != []
    ensures var s, m := Recs(h.items), Mode(h.bound, {}, h.keepAll);
            && s[0] == h.items[0].rec && s[1..] == Recs(h.items[1..])
            && (!Admitted(h, s[0]) ==> HeapRest(h) == HeapRest(h.(items := h.items[1..])))
            && (Admitted(h, s[0]) ==> Shown(s, m) == [s[0]] + Shown(if h.keepAll then s[1..] else DropKey(s[1..], s[0].key), m))
  {
    assert Recs(h.items)[1..] == Recs(h.items[1..]);
  }

  lemma SortedTail(items: seq<Item>, n: nat)
    requires Sorted(items) && n <= |items|
    ensures Sorted(items[n..])
  {
  }

  // The items behind every version of a key.
  method PopKey(items: seq<Item>, key: Key) returns (r: seq<Item>)
    requires Sorted(items)
    ensures Sorted(r) && |r| <= |items| && Recs(r) == DropKey(Recs(items), key)
  {
    r := items;
    while r != [] && r[0].rec.key == key
      invariant Sorted(r) && |r| <= |items| && DropKey(Recs(r), key) == DropKey(Recs(items), key)
      decreases |r|
    {
      assert Recs(r)[1..] == Recs(r[1..]);
      SortedTail(r, 1);
      r := r[1..];
    }
  }

  method SkipHidden(h: HeapIt) returns (r: HeapIt)
    requires Sorted(h.items)
    ensures Sorted(r.items) && r == h.(items := r.items) && |r.items| <= |h.items| && HeapRest(r) == HeapRest(h)
    ensures r.items != [] ==> Admitted(r, r.items[0].rec)
  {
    r := h;
    while r.items != [] && r.bound != 0 && r.items[0].rec.ver > r.bound
      invariant Sorted(r.items) && r == h.(items := r.items) && |r.items| <= |h.items| && HeapRest(r) == HeapRest(h)
      decreases |r.items|
    {
      RestOfHeap(r);
      SortedTail(r.items, 1);
      r := r.(items := r.items[1..]);
    }
  }

  // Leaves what is hidden by its version and keys whose newest shown record is a tombstone.
  method Settle(h: HeapIt) returns (r: HeapIt)
    requires Sorted(h.items) && !(h.keepAll && h.skipDelete)
    ensures OnHeap(r) && r == h.(items := r.items) && HeapRest(r) == HeapRest(h)
  {
    r := SkipHidden(h);
    while r.items != [] && r.skipDelete && r.items[0].rec.value == []
      invariant Sorted(r.items) && r == h.(items := r.items) && HeapRest(r) == HeapRest(h)
      invariant r.items != [] ==> Admitted(r, r.items[0].rec)
      decreases |r.items|
    {
      RestOfHeap(r);
      SortedTail(r.items, 1);
      var items := PopKey(r.items[1..], r.items[0].rec.key);
      r := SkipHidden(r.(items := items));
    }
  }

  method HeapNext(h: HeapIt) returns (r: HeapIt)
    requires OnHeap(h)
    ensures OnHeap(r) && r == h.(items := r.items)
    ensures h.items == [] ==> r == h
    ensures h.items != [] ==> HeapRest(h) != [] && HeapRest(h)[0] == h.items[0].rec && HeapRest(r) == HeapRest(h)[1..]
  {
    if h.items == [] {
      return h;
    }
    RestOfHeap(h);
    SortedTail(h.items, 1);
    var items := h.items[1..];
    if !h.keepAll {
      items := PopKey(items, h.items[0].rec.key);
    }
    r := Settle(h.(items := items));
  }

  lemma EmptyHeap(h: HeapIt)
    requires OnHeap(h)
    ensures h.items == [] <==> HeapRest(h) == []
  {
    if h.items != [] {
      RestOfHeap(h);
    }
  }
}
