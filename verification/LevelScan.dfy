// The full scan: one iterator over memory, level 0 and every deeper level.

module LevelScans {
  import opened Bytes
  import opened Mvcc
  import opened Bloom
  import opened Streams
  import opened Heaps
  import opened Merges

  // ---- Keys above a floor ----

  function After(s: seq<Rec>, floor: Key): (t: seq<Rec>)
    ensures |t| <= |s|
  {
    if s != [] && !Less(floor, s[0].key) then After(s[1..], floor) else s
  }

  lemma {:induction false} AfterMeaning(s: seq<Rec>, floor: Key)
    requires KeysRise(s)
    ensures KeysRise(After(s, floor))
    ensures forall i :: 0 <= i < |After(s, floor)| ==> Less(floor, After(s, floor)[i].key)
    ensures forall k :: Less(floor, k) ==> Find(After(s, floor), k) == Find(s, k)
  {
    if s != [] {
      if !Less(floor, s[0].key) {
        assert KeysRise(s[1..]);
        AfterMeaning(s[1..], floor);
      } else {
        forall i | 0 <= i < |s|
          ensures Less(floor, s[i].key)
        {
          if i > 0 {
            LessTransitive(floor, s[0].key, s[i].key);
          }
        }
      }
    }
  }

  // Dropping the least key left raises the floor to it.
  lemma {:induction false} RaiseFloor(s: seq<Rec>, floor: Key, key: Key)
    requires KeysRise(s) && (After(s, floor) != [] ==> !Less(After(s, floor)[0].key, key)) && !Less(key, floor)
    ensures DropKey(After(s, floor), key) == After(s, key)
  {
    if s != [] {
      assert KeysRise(s[1..]);
      if !Less(floor, s[0].key) {
        if Less(key, s[0].key) {
          LessTotal(key, floor);
          LessTotal(floor, s[0].key);
          if Less(floor, key) {
            LessTransitive(floor, key, s[0].key);
          }
        }
        RaiseFloor(s[1..], floor, key);
      } else {
        LessTotal(s[0].key, key);
        if s[0].key == key && |s| > 1 {
          assert Less(s[0].key, s[1].key);
          LessTotal(s[0].key, s[1].key);
        }
      }
    }
  }

  lemma NoFloor(s: seq<Rec>)
    requires KeysRise(s)
    ensures DropKey(s, []) == After(s, [])
  {
    if s != [] && s[0].key == [] && |s| > 1 {
      assert Less(s[0].key, s[1].key);
    }
  }

  // ---- What the sources together say of a key ----

  function PickAll(lists: seq<seq<Rec>>, key: Key): Option<Rec>
  {
    if lists == [] then None else Pick(Find(lists[0], key), PickAll(lists[1..], key))
  }

  // The largest version, the first source among equals.
  ghost predicate Leads(lists: seq<seq<Rec>>, key: Key, i: nat)
  {
    && i < |lists| && Find(lists[i], key).Some?
    && (forall j :: 0 <= j < |lists| && Find(lists[j], key).Some? ==> Find(lists[j], key).value.ver <= Find(lists[i], key).value.ver)
    && (forall j :: 0 <= j < i && Find(lists[j], key).Some? ==> Find(lists[j], key).value.ver < Find(lists[i], key).value.ver)
  }

  lemma {:induction false} PickNone(lists: seq<seq<Rec>>, key: Key)
    ensures PickAll(lists, key).None? <==> forall j :: 0 <= j < |lists| ==> Find(lists[j], key).None?
  {
    if lists != [] {
      PickNone(lists[1..], key);
      assert forall j :: 0 < j < |lists| ==> lists[j] == lists[1..][j - 1];
    }
  }

  lemma {:induction false} PickLeader(lists: seq<seq<Rec>>, key: Key, i: nat)
    requires Leads(lists, key, i)
    ensures PickAll(lists, key) == Find(lists[i], key)
  {
    var tail := lists[1..];
    assert forall j :: 0 <= j < |tail| ==> tail[j] == lists[j + 1];
    if i == 0 {
      PickBound(tail, key, Find(lists[0], key).value.ver);
    } else {
      assert Leads(tail, key, i - 1);
      PickLeader(tail, key, i - 1);
    }
  }

  lemma {:induction false} PickBound(lists: seq<seq<Rec>>, key: Key, ver: nat)
    requires forall j :: 0 <= j < |lists| && Find(lists[j], key).Some? ==> Find(lists[j], key).value.ver <= ver
    ensures PickAll(lists, key).Some? ==> PickAll(lists, key).value.ver <= ver
  {
    if lists != [] {
      assert forall j :: 0 <= j < |lists[1..]| ==> lists[1..][j] == lists[j + 1];
      PickBound(lists[1..], key, ver);
    }
  }

  // If every source answers for its own records, together they answer a read.
  lemma {:induction false} PickIsBest(lists: seq<seq<Rec>>, srcs: seq<seq<Rec>>, q: Query)
    requires |lists| == |srcs| && forall i :: 0 <= i < |lists| ==> Find(lists[i], q.key) == Best(srcs[i], q)
    ensures PickAll(lists, q.key) == Best(Flat(srcs), q)
  {
    if lists != [] {
      PickIsBest(lists[1..], srcs[1..], q);
      BestAppend(srcs[0], Flat(srcs[1..]), q);
    }
  }

  lemma {:induction false} PickHasKey(lists: seq<seq<Rec>>, key: Key)
    ensures PickAll(lists, key).Some? ==> PickAll(lists, key).value.key == key
  {
    if lists != [] {
      PickHasKey(lists[1..], key);
      FindHasKey(lists[0], key);
    }
  }

  lemma {:induction false} FindHasKey(s: seq<Rec>, key: Key)
    ensures Find(s, key).Some? ==> Find(s, key).value.key == key
  {
    if s != [] {
      FindHasKey(s[1..], key);
    }
  }

  // ---- The iterator ----

  ghost predicate AllRise(lists: seq<seq<Rec>>)
  {
    forall i :: 0 <= i < |lists| ==> KeysRise(lists[i])
  }

  // Every child has given all of its list up to the floor.
  ghost predicate AtFloor(hasher: Hasher, children: seq<Child>, lists: seq<seq<Rec>>, floor: Key)
  {
    && |children| == |lists|
    && forall i :: 0 <= i < |children| ==> ChildAt(hasher, children[i], lists[i], floor)
  }

  ghost predicate ChildAt(hasher: Hasher, c: Child, list: seq<Rec>, floor: Key)
  {
    forall n :: Opened(n) ==> ChildGives(hasher, c, After(list, floor))
  }

  ghost predicate ChildGives(hasher: Hasher, c: Child, rest: seq<Rec>)
  {
    OnChild(hasher, c) && ChildRest(hasher, c) == rest
  }

  lemma ChildIsAt(hasher: Hasher, c: Child, list: seq<Rec>, floor: Key)
    requires ChildAt(hasher, c, list, floor)
    ensures ChildGives(hasher, c, After(list, floor))
  {
    assert Opened(0);
  }

  ghost function Remaining(lists: seq<seq<Rec>>, floor: Key): nat
  {
    if lists == [] then 0 else |After(lists[0], floor)| + Remaining(lists[1..], floor)
  }

  lemma {:induction false} RemainingFalls(lists: seq<seq<Rec>>, floor: Key, key: Key)
    requires AllRise(lists) && Less(floor, key)
    ensures Remaining(lists, key) <= Remaining(lists, floor)
    ensures forall i :: 0 <= i < |lists| && After(lists[i], floor) != [] && After(lists[i], floor)[0].key == key ==>
              Remaining(lists, key) < Remaining(lists, floor)
  {
    if lists != [] {
      var tail := lists[1..];
      assert AllRise(tail);
      RemainingFalls(tail, floor, key);
      AfterFalls(lists[0], floor, key);
      forall i | 0 <= i < |lists| && After(lists[i], floor) != [] && After(lists[i], floor)[0].key == key
        ensures Remaining(lists, key) < Remaining(lists, floor)
      {
        if i > 0 {
          assert tail[i - 1] == lists[i];
        }
      }
    }
  }

  lemma {:induction false} AfterFalls(s: seq<Rec>, floor: Key, key: Key)
    requires KeysRise(s) && Less(floor, key)
    ensures |After(s, key)| <= |After(s, floor)|
    ensures After(s, floor) != [] && After(s, floor)[0].key == key ==> |After(s, key)| < |After(s, floor)|
  {
    if s != [] {
      assert KeysRise(s[1..]);
      AfterFalls(s[1..], floor, key);
      LessTotal(key, s[0].key);
      if Less(key, s[0].key) {
        LessTransitive(floor, key, s[0].key);
      }
    }
  }

  // The list has nothing left below the key.
  ghost predicate FrontReaches(list: seq<Rec>, floor: Key, key: Key)
  {
    After(list, floor) != [] ==> !Less(After(list, floor)[0].key, key)
  }

  ghost predicate NoneBelow(lists: seq<seq<Rec>>, floor: Key, key: Key)
  {
    forall i :: 0 <= i < |lists| ==> FrontReaches(lists[i], floor, key)
  }

  // Moves every child past one key, below which none of them has anything left.
  method SkipKey(hasher: Hasher, children: seq<Child>, key: Key, ghost lists: seq<seq<Rec>>, ghost floor: Key) returns (r: seq<Child>)
    requires AtFloor(hasher, children, lists, floor) && AllRise(lists) && Less(floor, key)
    requires NoneBelow(lists, floor, key)
    ensures AtFloor(hasher, r, lists, key)
  {
    r := [];
    var i := 0;
    while i < |children|
      invariant 0 <= i <= |children| && |r| == i
      invariant forall j :: 0 <= j < i ==> ChildAt(hasher, r[j], lists[j], key)
    {
      var c := SkipInOne(hasher, children, i, key, lists, floor);
      r := r + [c];
      i := i + 1;
    }
  }

  method SkipInOne(hasher: Hasher, children: seq<Child>, i: nat, key: Key, ghost lists: seq<seq<Rec>>, ghost floor: Key)
    returns (r: Child)
    requires AtFloor(hasher, children, lists, floor) && AllRise(lists) && Less(floor, key) && i < |children|
    requires NoneBelow(lists, floor, key)
    ensures ChildAt(hasher, r, lists[i], key)
  {
    r := SkipInChild(hasher, children[i], key, lists[i], floor);
  }

  method SkipInChild(hasher: Hasher, c: Child, key: Key, ghost list: seq<Rec>, ghost floor: Key) returns (r: Child)
    requires ChildAt(hasher, c, list, floor) && KeysRise(list) && Less(floor, key)
    requires FrontReaches(list, floor, key)
    ensures ChildAt(hasher, r, list, key)
  {
    LessTotal(floor, key);
    RaiseFloor(list, floor, key);
    ChildIsAt(hasher, c, list, floor);
    r := DropChild(hasher, c, key);
  }

  // The empty key is the transaction marker's; no scan shows it.
  method SkipMarkers(hasher: Hasher, children: seq<Child>, ghost lists: seq<seq<Rec>>) returns (r: seq<Child>)
    requires |children| == |lists| && AllRise(lists)
    requires forall i :: 0 <= i < |children| ==> ChildGives(hasher, children[i], lists[i])
    ensures AtFloor(hasher, r, lists, [])
  {
    r := [];
    var i := 0;
    while i < |children|
      invariant 0 <= i <= |children| && |r| == i && |children| == |lists|
      invariant forall j :: 0 <= j < i ==> ChildAt(hasher, r[j], lists[j], [])
    {
      var c := SkipMarker(hasher, children[i], lists[i]);
      r := r + [c];
      i := i + 1;
    }
  }

  method SkipMarker(hasher: Hasher, c: Child, ghost list: seq<Rec>) returns (r: Child)
    requires ChildGives(hasher, c, list) && KeysRise(list)
    ensures ChildAt(hasher, r, list, [])
  {
    NoFloor(list);
    r := DropChild(hasher, c, []);
  }

  predicate AtEnd(children: seq<Child>)
  {
    forall i :: 0 <= i < |children| ==> !IsValid(children[i])
  }

  // The child to read next: least key, then largest version, then first child.
  ghost predicate Least(lists: seq<seq<Rec>>, floor: Key, n: nat, idx: nat, r: Rec)
    requires n <= |lists|
  {
    && idx < n && After(lists[idx], floor) != [] && After(lists[idx], floor)[0] == r
    && (forall j :: 0 <= j < n && After(lists[j], floor) != [] ==> NotBefore(r, After(lists[j], floor)[0]))
    && (forall j :: 0 <= j < idx && After(lists[j], floor) != [] && After(lists[j], floor)[0].key == r.key ==>
                      After(lists[j], floor)[0].ver < r.ver)
  }

  predicate NotBefore(r: Rec, x: Rec)
  {
    Less(r.key, x.key) || (r.key == x.key && x.ver <= r.ver)
  }

  // The least of the first n lists, if any of them has records left.
  ghost predicate Front(lists: seq<seq<Rec>>, floor: Key, n: nat, found: Option<(nat, Rec)>)
  {
    match found
    case None => n <= |lists| && forall j :: 0 <= j < n ==> After(lists[j], floor) == []
    case Some((idx, r)) => n <= |lists| && Least(lists, floor, n, idx, r)
  }

  method MinChild(hasher: Hasher, children: seq<Child>, ghost lists: seq<seq<Rec>>, ghost floor: Key) returns (idx: nat, r: Rec)
    requires AtFloor(hasher, children, lists, floor) && AllRise(lists) && !AtEnd(children)
    ensures idx < |children| && IsValid(children[idx]) && Least(lists, floor, |lists|, idx, r)
  {
    var found: Option<(nat, Rec)> := None;
    var i := 0;
    while i < |children|
      invariant 0 <= i <= |children| == |lists| && Front(lists, floor, i, found)
    {
      found := Consider(hasher, children[i], i, found, lists, floor);
      i := i + 1;
    }
    OneIsValid(hasher, children, lists, floor, found);
    return found.value.0, found.value.1;
  }

  lemma OneIsValid(hasher: Hasher, children: seq<Child>, lists: seq<seq<Rec>>, floor: Key, found: Option<(nat, Rec)>)
    requires AtFloor(hasher, children, lists, floor) && !AtEnd(children) && Front(lists, floor, |lists|, found)
    ensures found.Some? && found.value.0 < |children| && IsValid(children[found.value.0])
  {
    forall i | 0 <= i < |children|
      ensures IsValid(children[i]) <==> After(lists[i], floor) != []
    {
      ChildIsAt(hasher, children[i], lists[i], floor);
      ValidChild(hasher, children[i]);
    }
  }

  method Consider(hasher: Hasher, c: Child, i: nat, found: Option<(nat, Rec)>, ghost lists: seq<seq<Rec>>, ghost floor: Key)
    returns (r: Option<(nat, Rec)>)
    requires i < |lists| && ChildAt(hasher, c, lists[i], floor) && Front(lists, floor, i, found)
    ensures Front(lists, floor, i + 1, r)
  {
    r := found;
    ChildIsAt(hasher, c, lists[i], floor);
    ValidChild(hasher, c);
    if IsValid(c) {
      var head := Head(hasher, c);
      if found.None? {
        return Some((i, head));
      }
      BeforeOrNot(lists, floor, i, found.value.0, found.value.1, head);
      if Less(head.key, found.value.1.key) || (head.key == found.value.1.key && head.ver > found.value.1.ver) {
        return Some((i, head));
      }
    }
  }

  lemma BeforeOrNot(lists: seq<seq<Rec>>, floor: Key, i: nat, idx: nat, r: Rec, head: Rec)
    requires i < |lists| && Least(lists, floor, i, idx, r) && After(lists[i], floor) != [] && After(lists[i], floor)[0] == head
    ensures if Less(head.key, r.key) || (head.key == r.key && head.ver > r.ver) then Least(lists, floor, i + 1, i, head)
            else Least(lists, floor, i + 1, idx, r)
  {
    LessTotal(head.key, r.key);
    forall j | 0 <= j < i && After(lists[j], floor) != []
      ensures Less(head.key, r.key) || (head.key == r.key && head.ver > r.ver) ==> NotBefore(head, After(lists[j], floor)[0])
      ensures Less(head.key, r.key) ==> After(lists[j], floor)[0].key != head.key
    {
      var x := After(lists[j], floor)[0];
      assert NotBefore(r, x);
      LessTotal(head.key, x.key);
      if Less(head.key, r.key) && Less(r.key, x.key) {
        LessTransitive(head.key, r.key, x.key);
      }
    }
  }

  // The record at the front is what a read of its key finds, and no key before it has any.
  lemma LeastIsNext(lists: seq<seq<Rec>>, floor: Key, idx: nat, r: Rec)
    requires AllRise(lists) && Least(lists, floor, |lists|, idx, r)
    ensures Less(floor, r.key) && PickAll(lists, r.key) == Some(r)
    ensures forall k :: Less(floor, k) && Less(k, r.key) ==> PickAll(lists, k).None?
  {
    AfterMeaning(lists[idx], floor);
    FrontLeads(lists, floor, idx, r);
    PickLeader(lists, r.key, idx);
    forall k | Less(floor, k) && Less(k, r.key)
      ensures PickAll(lists, k).None?
    {
      NothingBefore(lists, floor, idx, r, k);
    }
  }

  lemma NothingBefore(lists: seq<seq<Rec>>, floor: Key, idx: nat, r: Rec, k: Key)
    requires AllRise(lists) && Least(lists, floor, |lists|, idx, r) && Less(floor, k) && Less(k, r.key)
    ensures PickAll(lists, k).None?
  {
    LessTotal(k, r.key);
    forall j | 0 <= j < |lists|
      ensures Find(lists[j], k).None?
    {
      HeadAnswers(lists, floor, r, j, k);
    }
    PickNone(lists, k);
  }

  lemma FrontLeads(lists: seq<seq<Rec>>, floor: Key, idx: nat, r: Rec)
    requires AllRise(lists) && Least(lists, floor, |lists|, idx, r) && Less(floor, r.key)
    ensures Leads(lists, r.key, idx) && Find(lists[idx], r.key) == Some(r)
  {
    HeadAnswers(lists, floor, r, idx, r.key);
    forall j | 0 <= j < |lists|
      ensures Find(lists[j], r.key).Some? ==> Find(lists[j], r.key).value.ver <= r.ver
      ensures j < idx && Find(lists[j], r.key).Some? ==> Find(lists[j], r.key).value.ver < r.ver
    {
      HeadAnswers(lists, floor, r, j, r.key);
      LessTotal(r.key, r.key);
    }
  }

  // A key up to the front's is found in a list only at that list's front.
  lemma HeadAnswers(lists: seq<seq<Rec>>, floor: Key, r: Rec, j: nat, k: Key)
    requires AllRise(lists) && j < |lists| && Less(floor, k) && (k == r.key || Less(k, r.key))
    requires After(lists[j], floor) != [] ==> NotBefore(r, After(lists[j], floor)[0])
    ensures Find(lists[j], k).Some? <==> k == r.key && After(lists[j], floor) != [] && After(lists[j], floor)[0].key == k
    ensures Find(lists[j], k).Some? ==> Find(lists[j], k).value == After(lists[j], floor)[0]
  {
    var rest := After(lists[j], floor);
    AfterMeaning(lists[j], floor);
    LessTotal(k, r.key);
    if rest != [] {
      LessTotal(r.key, rest[0].key);
      if Less(k, r.key) && Less(r.key, rest[0].key) {
        LessTransitive(k, r.key, rest[0].key);
      }
      LessTotal(k, rest[0].key);
      FindFront(rest, k);
    }
  }

  // Nothing is found below the front.
  lemma FindFront(rest: seq<Rec>, k: Key)
    requires KeysRise(rest) && rest != [] && (k == rest[0].key || Less(k, rest[0].key))
    ensures Find(rest, k) == if k == rest[0].key then Some(rest[0]) else None
  {
    FindMeaning(rest, k);
    if k != rest[0].key {
      forall i | 0 <= i < |rest|
        ensures rest[i].key != k
      {
        LessTotal(k, rest[0].key);
        LessTotal(k, rest[i].key);
        if i > 0 {
          LessTransitive(k, rest[0].key, rest[i].key);
        }
      }
    }
  }

  lemma FrontsReach(lists: seq<seq<Rec>>, floor: Key, idx: nat, r: Rec)
    requires Least(lists, floor, |lists|, idx, r)
    ensures NoneBelow(lists, floor, r.key)
  {
    forall i | 0 <= i < |lists|
      ensures FrontReaches(lists[i], floor, r.key)
    {
      if After(lists[i], floor) != [] {
        assert NotBefore(r, After(lists[i], floor)[0]);
        LessTotal(r.key, After(lists[i], floor)[0].key);
      }
    }
  }

  datatype LevelIt = LevelIt(children: seq<Child>, cur: nat, cached: Rec)

  // On the next record a scan must give: its key has a visible value, and no key between
  // the floor and it has.
  ghost predicate OnScan(hasher: Hasher, it: LevelIt, lists: seq<seq<Rec>>, floor: Key)
  {
    && AtFloor(hasher, it.children, lists, floor)
    && (!AtEnd(it.children) ==>
          && it.cur < |it.children| && IsValid(it.children[it.cur])
          && Least(lists, floor, |lists|, it.cur, it.cached) && it.cached.value != [])
  }

  // No key in (from, to] has a visible value.
  ghost predicate Quiet(lists: seq<seq<Rec>>, from: Key, to: Key)
  {
    forall k :: Less(from, k) && AtMost(k, to) ==> Mvcc.Visible(PickAll(lists, k)).None?
  }

  // Passes tombstones until a live record or the end is reached.
  method Advance(hasher: Hasher, children: seq<Child>, ghost lists: seq<seq<Rec>>, ghost from: Key) returns (it: LevelIt, ghost floor: Key)
    requires AtFloor(hasher, children, lists, from) && AllRise(lists)
    ensures OnScan(hasher, it, lists, floor) && AtMost(from, floor) && Quiet(lists, from, floor)
  {
    var now := children;
    floor := from;
    KeyOrder();
    while !AtEnd(now)
      invariant AtFloor(hasher, now, lists, floor) && AtMost(from, floor) && Quiet(lists, from, floor)
      decreases Remaining(lists, floor)
    {
      var idx, r := MinChild(hasher, now, lists, floor);
      if r.value != [] {
        return LevelIt(now, idx, r), floor;
      }
      LeastIsNext(lists, floor, idx, r);
      RemainingFalls(lists, floor, r.key);
      FrontsReach(lists, floor, idx, r);
      QuietOn(lists, from, floor, r.key);
      now := SkipKey(hasher, now, r.key, lists, floor);
      floor := r.key;
    }
    it := LevelIt(now, 0, Rec([], [], 0));
  }

  lemma QuietOn(lists: seq<seq<Rec>>, from: Key, floor: Key, key: Key)
    requires AtMost(from, floor) && Less(floor, key) && Quiet(lists, from, floor)
    requires Mvcc.Visible(PickAll(lists, key)).None?
    requires forall k :: Less(floor, k) && Less(k, key) ==> PickAll(lists, k).None?
    ensures AtMost(from, key) && Quiet(lists, from, key)
  {
    KeyOrder();
  }

  method Begin(hasher: Hasher, children: seq<Child>, ghost lists: seq<seq<Rec>>) returns (it: LevelIt, ghost floor: Key)
    requires |children| == |lists| && AllRise(lists)
    requires forall i :: 0 <= i < |children| ==> ChildGives(hasher, children[i], lists[i])
    ensures OnScan(hasher, it, lists, floor) && Quiet(lists, [], floor)
  {
    var now := SkipMarkers(hasher, children, lists);
    it, floor := Advance(hasher, now, lists, []);
  }

  method ScanNext(hasher: Hasher, it: LevelIt, ghost lists: seq<seq<Rec>>, ghost floor: Key) returns (next: LevelIt, ghost floor': Key)
    requires OnScan(hasher, it, lists, floor) && AllRise(lists) && !AtEnd(it.children)
    ensures OnScan(hasher, next, lists, floor')
    ensures AtMost(it.cached.key, floor') && Quiet(lists, it.cached.key, floor')
  {
    LeastIsNext(lists, floor, it.cur, it.cached);
    FrontsReach(lists, floor, it.cur, it.cached);
    var now := SkipKey(hasher, it.children, it.cached.key, lists, floor);
    next, floor' := Advance(hasher, now, lists, it.cached.key);
  }

  // ---- The whole scan ----

  // In strictly rising key order exactly the visible records of non-empty keys.
  ghost predicate IsScan(out: seq<Rec>, lists: seq<seq<Rec>>)
  {
    KeysRise(out) && forall r :: r in out <==> r.key != [] && Mvcc.Visible(PickAll(lists, r.key)) == Some(r)
  }

  // What was given so far: the visible records of keys up to and including the floor.
  ghost predicate GivenTo(out: seq<Rec>, lists: seq<seq<Rec>>, floor: Key)
  {
    && KeysRise(out)
    && forall r :: r in out <==> r.key != [] && AtMost(r.key, floor) && Mvcc.Visible(PickAll(lists, r.key)) == Some(r)
  }

  lemma GiveOne(out: seq<Rec>, lists: seq<seq<Rec>>, floor: Key, r: Rec, floor': Key)
    requires GivenTo(out, lists, floor) && Less(floor, r.key) && PickAll(lists, r.key) == Some(r) && r.value != []
    requires forall k :: Less(floor, k) && Less(k, r.key) ==> PickAll(lists, k).None?
    requires AtMost(r.key, floor') && Quiet(lists, r.key, floor')
    ensures GivenTo(out + [r], lists, floor')
  {
    KeyOrder();
    var all := out + [r];
    forall i, j | 0 <= i < j < |all|
      ensures Less(all[i].key, all[j].key)
    {
      if j == |out| {
        assert all[i] == out[i] && out[i] in out;
      }
    }
    forall x
      ensures x in all <==> x.key != [] && AtMost(x.key, floor') && Mvcc.Visible(PickAll(lists, x.key)) == Some(x)
    {
      assert x in all <==> x in out || x == r;
    }
  }

  lemma GivenAll(out: seq<Rec>, lists: seq<seq<Rec>>, floor: Key)
    requires GivenTo(out, lists, floor) && AllRise(lists) && forall i :: 0 <= i < |lists| ==> After(lists[i], floor) == []
    ensures IsScan(out, lists)
  {
    forall r: Rec | r.key != [] && Mvcc.Visible(PickAll(lists, r.key)) == Some(r)
      ensures AtMost(r.key, floor)
    {
      LessTotal(r.key, floor);
      if Less(floor, r.key) {
        forall j | 0 <= j < |lists|
          ensures Find(lists[j], r.key).None?
        {
          AfterMeaning(lists[j], floor);
        }
        PickNone(lists, r.key);
      }
    }
  }

  method ScanAll(hasher: Hasher, children: seq<Child>, ghost lists: seq<seq<Rec>>) returns (out: seq<Rec>)
    requires |children| == |lists| && AllRise(lists)
    requires forall i :: 0 <= i < |children| ==> ChildGives(hasher, children[i], lists[i])
    ensures IsScan(out, lists)
  {
    ghost var floor;
    var it;
    it, floor := Begin(hasher, children, lists);
    out := [];
    KeyOrder();
    while !AtEnd(it.children)
      invariant OnScan(hasher, it, lists, floor) && GivenTo(out, lists, floor)
      decreases Remaining(lists, floor)
    {
      LeastIsNext(lists, floor, it.cur, it.cached);
      RemainingFalls(lists, floor, it.cached.key);
      out := out + [it.cached];
      ghost var was, r := floor, it.cached;
      it, floor := ScanNext(hasher, it, lists, was);
      if floor != r.key {
        RemainingFalls(lists, r.key, floor);
      }
      GiveOne(out[..|out| - 1], lists, was, r, floor);
      assert out == out[..|out| - 1] + [r];
    }
    forall i | 0 <= i < |lists|
      ensures After(lists[i], floor) == []
    {
      ChildIsAt(hasher, it.children[i], lists[i], floor);
      ValidChild(hasher, it.children[i]);
    }
    GivenAll(out, lists, floor);
  }
}
