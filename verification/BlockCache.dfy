// The cache of decoded blocks: two lists in order of use, and an index over both.

module BlockCaches {
  import opened Bytes
  import opened Blocks
  import opened Ssts

  // Table and block number.
  type CacheKey = (nat, nat)

  // count stops at k; uses counts every access since the block came in; last is when the
  // latest of them was.
  datatype Entry = Entry(key: CacheKey, image: Image, count: nat, uses: nat, last: nat)

  // Entries below k uses, and those that reached k.
  datatype Lists = Lists(cold: seq<Entry>, hot: seq<Entry>)

  // ---- What the two lists promise ----

  ghost predicate ByUse(s: seq<Entry>)
  {
    forall i, j :: 0 <= i < j < |s| ==> s[i].last > s[j].last
  }

  ghost predicate DistinctKeys(s: seq<Entry>)
  {
    forall i, j :: 0 <= i < j < |s| ==> s[i].key != s[j].key
  }

  ghost predicate Cold(s: seq<Entry>, k: nat, now: nat)
  {
    forall i :: 0 <= i < |s| ==> 1 <= s[i].uses == s[i].count < k && s[i].last < now
  }

  ghost predicate Hot(s: seq<Entry>, k: nat, now: nat)
  {
    forall i :: 0 <= i < |s| ==> s[i].count == k <= s[i].uses && s[i].last < now
  }

  // Each block once, never more than the capacity; below k uses exactly in the cold list;
  // in each list the latest used first.
  ghost predicate Sound(c: Lists, capacity: nat, k: nat, now: nat)
  {
    match c
    case Lists(cold, hot) =>
      && |cold| + |hot| <= capacity && DistinctKeys(cold + hot)
      && Cold(cold, k, now) && Hot(hot, k, now) && ByUse(cold) && ByUse(hot)
  }

  ghost predicate Has(s: seq<Entry>, key: CacheKey)
  {
    exists i :: 0 <= i < |s| && s[i].key == key
  }

  function Without(s: seq<Entry>, key: CacheKey): (t: seq<Entry>)
  {
    if s == [] then [] else if s[0].key == key then s[1..] else [s[0]] + Without(s[1..], key)
  }

  function Find(s: seq<Entry>, key: CacheKey): Option<Entry>
  {
    if s == [] then None else if s[0].key == key then Some(s[0]) else Find(s[1..], key)
  }

  function Lookup(c: Lists, key: CacheKey): Option<Entry>
  {
    Find(c.cold + c.hot, key)
  }

  // An access moves the entry to the front of the list it belongs to by then.
  function Touch(c: Lists, key: CacheKey, k: nat, now: nat): Lists
  {
    match Find(c.cold, key)
    case Some(e) =>
      var used := e.(count := e.count + 1, uses := e.uses + 1, last := now);
      if used.count == k then Lists(Without(c.cold, key), [used] + c.hot) else Lists([used] + Without(c.cold, key), c.hot)
    case None =>
      match Find(c.hot, key)
      case Some(e) => Lists(c.cold, [e.(uses := e.uses + 1, last := now)] + Without(c.hot, key))
      case None => c
  }

  // The end of the cold list goes first, and of the hot one only when no cold is left.
  function Evict(c: Lists): Lists
    requires c.cold != [] || c.hot != []
  {
    if c.cold != [] then Lists(c.cold[..|c.cold| - 1], c.hot) else Lists([], c.hot[..|c.hot| - 1])
  }

  function Insert(c: Lists, key: CacheKey, image: Image, k: nat, now: nat): Lists
  {
    var e := Entry(key, image, 1, 1, now);
    if k == 1 then Lists(c.cold, [e] + c.hot) else Lists([e] + c.cold, c.hot)
  }

  function Room(c: Lists, capacity: nat): Lists
    requires capacity > 0
  {
    if |c.cold| + |c.hot| >= capacity then Evict(c) else c
  }

  // ---- Find and Without ----

  lemma {:induction false} FindMeaning(s: seq<Entry>, key: CacheKey)
    ensures Find(s, key).Some? <==> Has(s, key)
    ensures Find(s, key).Some? ==> exists i :: 0 <= i < |s| && s[i] == Find(s, key).value && s[i].key == key
  {
    if s != [] && s[0].key != key {
      FindMeaning(s[1..], key);
      if Has(s, key) {
        var i :| 0 <= i < |s| && s[i].key == key;
        assert s[1..][i - 1] == s[i];
      }
      if Find(s[1..], key).Some? {
        var i :| 0 <= i < |s[1..]| && s[1..][i] == Find(s, key).value && s[1..][i].key == key;
        assert s[i + 1] == s[1..][i];
      }
    }
  }

  // Removal at a position.
  lemma {:induction false} WithoutAt(s: seq<Entry>, i: nat)
    requires i < |s| && DistinctKeys(s)
    ensures Without(s, s[i].key) == s[..i] + s[i + 1..] && Find(s, s[i].key) == Some(s[i])
  {
    if i > 0 {
      assert s[0].key != s[i].key;
      WithoutAt(s[1..], i - 1);
      assert s[1..][..i - 1] == s[1..i] && s[1..][i..] == s[i + 1..];
      assert [s[0]] + s[1..i] == s[..i];
    }
  }

  lemma {:induction false} FindAppend(s: seq<Entry>, t: seq<Entry>, key: CacheKey)
    ensures Find(s + t, key) == if Find(s, key).Some? then Find(s, key) else Find(t, key)
  {
    if s == [] {
      assert s + t == t;
    } else {
      assert (s + t)[1..] == s[1..] + t;
      FindAppend(s[1..], t, key);
    }
  }

  // ---- Every operation keeps the promise ----

  // Where an entry stands.
  lemma Position(s: seq<Entry>, key: CacheKey) returns (i: nat)
    requires DistinctKeys(s) && Find(s, key).Some?
    ensures i < |s| && s[i].key == key && Find(s, key) == Some(s[i]) && Without(s, key) == s[..i] + s[i + 1..]
  {
    FindMeaning(s, key);
    i :| 0 <= i < |s| && s[i].key == key;
    WithoutAt(s, i);
  }

  lemma HalvesDistinct(c: Lists)
    requires DistinctKeys(c.cold + c.hot)
    ensures DistinctKeys(c.cold) && DistinctKeys(c.hot)
    ensures forall i, j :: 0 <= i < |c.cold| && 0 <= j < |c.hot| ==> c.cold[i].key != c.hot[j].key
  {
    var all := c.cold + c.hot;
    assert forall i :: 0 <= i < |c.cold| ==> all[i] == c.cold[i];
    assert forall j :: 0 <= j < |c.hot| ==> all[|c.cold| + j] == c.hot[j];
  }

  lemma JoinDistinct(s: seq<Entry>, t: seq<Entry>)
    requires DistinctKeys(s) && DistinctKeys(t) && forall i, j :: 0 <= i < |s| && 0 <= j < |t| ==> s[i].key != t[j].key
    ensures DistinctKeys(s + t)
  {
  }

  lemma CutKeeps(s: seq<Entry>, i: nat, k: nat, now: nat)
    requires i < |s| && DistinctKeys(s) && ByUse(s)
    ensures var t := s[..i] + s[i + 1..];
            && DistinctKeys(t) && ByUse(t) && (Cold(s, k, now) ==> Cold(t, k, now)) && (Hot(s, k, now) ==> Hot(t, k, now))
            && (forall j :: 0 <= j < |t| ==> t[j].key != s[i].key && Has(s, t[j].key))
  {
    var t := s[..i] + s[i + 1..];
    forall j | 0 <= j < |t|
      ensures t[j].key != s[i].key && Has(s, t[j].key)
    {
      assert t[j] == if j < i then s[j] else s[j + 1];
    }
  }

  lemma FrontKeeps(e: Entry, s: seq<Entry>)
    requires DistinctKeys(s) && ByUse(s) && forall j :: 0 <= j < |s| ==> s[j].key != e.key && s[j].last < e.last
    ensures DistinctKeys([e] + s) && ByUse([e] + s)
  {
  }

  ghost predicate Apart(s: seq<Entry>, t: seq<Entry>)
  {
    forall i, j :: 0 <= i < |s| && 0 <= j < |t| ==> s[i].key != t[j].key
  }

  // The lists after one more use of the entry at a position: one of the cold list stays
  // cold or becomes hot.
  function UsedCold(c: Lists, i: nat, k: nat, now: nat): Lists
    requires i < |c.cold|
  {
    var e := c.cold[i];
    var used := e.(count := e.count + 1, uses := e.uses + 1, last := now);
    var rest := c.cold[..i] + c.cold[i + 1..];
    if used.count == k then Lists(rest, [used] + c.hot) else Lists([used] + rest, c.hot)
  }

  function UsedHot(c: Lists, i: nat, now: nat): Lists
    requires i < |c.hot|
  {
    var e := c.hot[i];
    Lists(c.cold, [e.(uses := e.uses + 1, last := now)] + (c.hot[..i] + c.hot[i + 1..]))
  }

  // The cold list without one entry, beside the hot one.
  ghost predicate Remains(c: Lists, i: nat, k: nat, now: nat, rest: seq<Entry>)
    requires i < |c.cold|
  {
    forall n :: Opened(n) ==>
                  && |rest| == |c.cold| - 1 && DistinctKeys(rest) && ByUse(rest) && Cold(rest, k, now)
                  && Apart(rest, c.hot) && DistinctKeys(c.hot)
                  && (forall j :: 0 <= j < |c.hot| ==> c.hot[j].key != c.cold[i].key)
                  && (forall j :: 0 <= j < |rest| ==> rest[j].key != c.cold[i].key)
  }

  lemma RestRemains(c: Lists, i: nat, capacity: nat, k: nat, now: nat)
    requires Sound(c, capacity, k, now) && i < |c.cold|
    ensures Remains(c, i, k, now, c.cold[..i] + c.cold[i + 1..])
  {
    HalvesDistinct(c);
    CutKeeps(c.cold, i, k, now);
    RestApart(c, i);
  }

  lemma TouchCold(c: Lists, i: nat, capacity: nat, k: nat, now: nat)
    requires Sound(c, capacity, k, now) && i < |c.cold|
    ensures Sound(UsedCold(c, i, k, now), capacity, k, now + 1)
  {
    RestRemains(c, i, capacity, k, now);
    if c.cold[i].count + 1 == k {
      BecomesHot(c, i, capacity, k, now, c.cold[..i] + c.cold[i + 1..]);
    } else {
      StaysCold(c, i, capacity, k, now, c.cold[..i] + c.cold[i + 1..]);
    }
  }

  lemma BecomesHot(c: Lists, i: nat, capacity: nat, k: nat, now: nat, rest: seq<Entry>)
    requires Sound(c, capacity, k, now) && i < |c.cold| && c.cold[i].count + 1 == k && Remains(c, i, k, now, rest)
    ensures var used := c.cold[i].(count := c.cold[i].count + 1, uses := c.cold[i].uses + 1, last := now);
            Sound(Lists(rest, [used] + c.hot), capacity, k, now + 1)
  {
    assert Opened(0);
    var used := c.cold[i].(count := c.cold[i].count + 1, uses := c.cold[i].uses + 1, last := now);
    FrontKeeps(used, c.hot);
    JoinDistinct(rest, [used] + c.hot);
  }

  lemma StaysCold(c: Lists, i: nat, capacity: nat, k: nat, now: nat, rest: seq<Entry>)
    requires Sound(c, capacity, k, now) && i < |c.cold| && c.cold[i].count + 1 != k && Remains(c, i, k, now, rest)
    ensures var used := c.cold[i].(count := c.cold[i].count + 1, uses := c.cold[i].uses + 1, last := now);
            Sound(Lists([used] + rest, c.hot), capacity, k, now + 1)
  {
    assert Opened(0);
    var used := c.cold[i].(count := c.cold[i].count + 1, uses := c.cold[i].uses + 1, last := now);
    FrontKeeps(used, rest);
    JoinDistinct([used] + rest, c.hot);
  }

  lemma RestApart(c: Lists, i: nat)
    requires i < |c.cold| && DistinctKeys(c.cold + c.hot)
    ensures Apart(c.cold[..i] + c.cold[i + 1..], c.hot) && forall j :: 0 <= j < |c.hot| ==> c.hot[j].key != c.cold[i].key
  {
    HalvesDistinct(c);
    var rest := c.cold[..i] + c.cold[i + 1..];
    assert forall j :: 0 <= j < |rest| ==> rest[j] == if j < i then c.cold[j] else c.cold[j + 1];
  }

  lemma TouchHot(c: Lists, i: nat, capacity: nat, k: nat, now: nat)
    requires Sound(c, capacity, k, now) && i < |c.hot|
    ensures Sound(UsedHot(c, i, now), capacity, k, now + 1)
  {
    HalvesDistinct(c);
    CutKeeps(c.hot, i, k, now);
    var used := c.hot[i].(uses := c.hot[i].uses + 1, last := now);
    var rest := c.hot[..i] + c.hot[i + 1..];
    FrontKeeps(used, rest);
    assert forall j :: 0 <= j < |rest| ==> rest[j] == if j < i then c.hot[j] else c.hot[j + 1];
    JoinDistinct(c.cold, [used] + rest);
  }

  lemma TouchColdIs(c: Lists, key: CacheKey, k: nat, now: nat) returns (i: nat)
    requires DistinctKeys(c.cold) && Find(c.cold, key).Some?
    ensures i < |c.cold| && c.cold[i].key == key && Touch(c, key, k, now) == UsedCold(c, i, k, now)
  {
    i := Position(c.cold, key);
    TouchAtCold(c, i, k, now);
  }

  lemma TouchHotIs(c: Lists, key: CacheKey, k: nat, now: nat) returns (i: nat)
    requires DistinctKeys(c.hot) && Find(c.cold, key).None? && Find(c.hot, key).Some?
    ensures i < |c.hot| && c.hot[i].key == key && Touch(c, key, k, now) == UsedHot(c, i, now)
  {
    i := Position(c.hot, key);
    TouchAtHot(c, i, k, now);
  }

  lemma SoundHalves(c: Lists, capacity: nat, k: nat, now: nat)
    requires Sound(c, capacity, k, now)
    ensures DistinctKeys(c.cold + c.hot) && DistinctKeys(c.cold) && DistinctKeys(c.hot) && Sound(c, capacity, k, now + 1)
  {
    HalvesDistinct(c);
  }

  // An access keeps the promise.
  lemma TouchSound(c: Lists, key: CacheKey, capacity: nat, k: nat, now: nat)
    requires Sound(c, capacity, k, now)
    ensures Sound(Touch(c, key, k, now), capacity, k, now + 1)
  {
    SoundHalves(c, capacity, k, now);
    if Find(c.cold, key).Some? {
      var i := TouchColdIs(c, key, k, now);
      TouchCold(c, i, capacity, k, now);
    } else if Find(c.hot, key).Some? {
      var i := TouchHotIs(c, key, k, now);
      TouchHot(c, i, capacity, k, now);
    }
  }

  lemma EvictSound(c: Lists, capacity: nat, k: nat, now: nat)
    requires Sound(c, capacity, k, now) && (c.cold != [] || c.hot != [])
    ensures Sound(Evict(c), capacity, k, now)
  {
    HalvesDistinct(c);
    var d := Evict(c);
    JoinDistinct(d.cold, d.hot);
  }

  lemma RoomSound(c: Lists, capacity: nat, k: nat, now: nat)
    requires Sound(c, capacity, k, now) && capacity > 0
    ensures Sound(Room(c, capacity), capacity, k, now) && |Room(c, capacity).cold| + |Room(c, capacity).hot| < capacity
  {
    HalvesDistinct(c);
    var d := Room(c, capacity);
    JoinDistinct(d.cold, d.hot);
  }

  lemma InsertSound(c: Lists, key: CacheKey, image: Image, capacity: nat, k: nat, now: nat)
    requires Sound(c, capacity, k, now) && |c.cold| + |c.hot| < capacity && k > 0 && Lookup(c, key).None?
    ensures Sound(Insert(c, key, image, k, now), capacity, k, now + 1)
  {
    HalvesDistinct(c);
    FindAppend(c.cold, c.hot, key);
    FindMeaning(c.cold, key);
    FindMeaning(c.hot, key);
    var d := Insert(c, key, image, k, now);
    JoinDistinct(d.cold, d.hot);
  }

  // ---- What a lookup finds ----

  function ImageOf(c: Lists, x: CacheKey): Option<Image>
  {
    match Lookup(c, x)
    case None => None
    case Some(e) => Some(e.image)
  }

  lemma FindCut(s: seq<Entry>, i: nat, x: CacheKey)
    requires i < |s| && DistinctKeys(s)
    ensures Find(s[..i] + s[i + 1..], x) == if x == s[i].key then None else Find(s, x)
  {
    var a, b := s[..i], s[i + 1..];
    assert s == a + ([s[i]] + b);
    FindAppend(a, b, x);
    FindAppend(a, [s[i]] + b, x);
    FindAppend([s[i]], b, x);
    FindMeaning(a, s[i].key);
    FindMeaning(b, s[i].key);
  }

  lemma FindFront(e: Entry, s: seq<Entry>, x: CacheKey)
    ensures Find([e] + s, x) == if e.key == x then Some(e) else Find(s, x)
  {
    assert ([e] + s)[1..] == s;
  }

  // An access changes no block.
  lemma TouchImages(c: Lists, key: CacheKey, capacity: nat, k: nat, now: nat, x: CacheKey)
    requires Sound(c, capacity, k, now)
    ensures ImageOf(Touch(c, key, k, now), x) == ImageOf(c, x)
  {
    SoundHalves(c, capacity, k, now);
    var d := Touch(c, key, k, now);
    FindAppend(c.cold, c.hot, x);
    FindAppend(d.cold, d.hot, x);
    if Find(c.cold, key).Some? {
      var i := TouchColdIs(c, key, k, now);
      FindCut(c.cold, i, x);
      WithoutAt(c.cold, i);
      var used := c.cold[i].(count := c.cold[i].count + 1, uses := c.cold[i].uses + 1, last := now);
      FindFront(used, c.hot, x);
      FindFront(used, c.cold[..i] + c.cold[i + 1..], x);
    } else if Find(c.hot, key).Some? {
      var i := TouchHotIs(c, key, k, now);
      FindCut(c.hot, i, x);
      WithoutAt(c.hot, i);
      FindFront(c.hot[i].(uses := c.hot[i].uses + 1, last := now), c.hot[..i] + c.hot[i + 1..], x);
    }
  }

  function Victim(c: Lists): Entry
    requires c.cold != [] || c.hot != []
  {
    if c.cold != [] then c.cold[|c.cold| - 1] else c.hot[|c.hot| - 1]
  }

  // What is evicted: of the entries that were used less than k times the one whose last
  // use is longest ago, and only if there is none, that of the others.
  lemma EvictsLeastRecent(c: Lists, capacity: nat, k: nat, now: nat, x: CacheKey)
    requires Sound(c, capacity, k, now) && (c.cold != [] || c.hot != [])
    ensures var v := Victim(c);
            && (forall e :: e in c.cold ==> v.uses < k && (e == v || v.last < e.last))
            && (c.cold == [] ==> forall e :: e in c.hot ==> e == v || v.last < e.last)
            && ImageOf(Evict(c), x) == if x == v.key then None else ImageOf(c, x)
  {
    HalvesDistinct(c);
    var d := Evict(c);
    FindAppend(c.cold, c.hot, x);
    FindAppend(d.cold, d.hot, x);
    if c.cold != [] {
      var n := |c.cold| - 1;
      FindCut(c.cold, n, x);
      assert c.cold[..n] + c.cold[n + 1..] == d.cold;
      FindMeaning(c.hot, c.cold[n].key);
      FindMeaning(c.cold, x);
    } else {
      var n := |c.hot| - 1;
      FindCut(c.hot, n, x);
      assert c.hot[..n] + c.hot[n + 1..] == d.hot;
    }
  }

  lemma InsertImages(c: Lists, key: CacheKey, image: Image, k: nat, now: nat, x: CacheKey)
    requires Lookup(c, key).None?
    ensures ImageOf(Insert(c, key, image, k, now), x) == if x == key then Some(image) else ImageOf(c, x)
  {
    var e := Entry(key, image, 1, 1, now);
    var d := Insert(c, key, image, k, now);
    FindAppend(c.cold, c.hot, x);
    FindAppend(d.cold, d.hot, x);
    FindFront(e, c.hot, x);
    FindFront(e, c.cold, x);
    FindAppend(c.cold, c.hot, key);
  }

  // ---- The cache itself ----

  class CacheItem {
    const key: CacheKey
    const image: Image
    var count: nat
    ghost var uses: nat
    ghost var last: nat

    constructor (key: CacheKey, image: Image, ghost now: nat)
      ensures EntryOf() == Entry(key, image, 1, 1, now)
    {
      this.key, this.image, count := key, image, 1;
      uses, last := 1, now;
    }

    ghost function EntryOf(): Entry
      reads this
    {
      Entry(key, image, count, uses, last)
    }
  }

  // The items, in order, are as the entries say.
  ghost predicate Shows(items: seq<CacheItem>, s: seq<Entry>)
    reads items
  {
    |items| == |s| && forall n :: Opened(n) ==> forall i :: 0 <= i < |items| ==> items[i].EntryOf() == s[i]
  }

  lemma ShowsAt(items: seq<CacheItem>, s: seq<Entry>)
    requires Shows(items, s)
    ensures forall i :: 0 <= i < |items| ==> items[i].EntryOf() == s[i]
  {
    assert Opened(0);
  }

  // The index leads to every item of the two lists, and to nothing else.
  ghost predicate Links(index: map<CacheKey, CacheItem>, cold: seq<CacheItem>, hot: seq<CacheItem>)
  {
    forall n :: Opened(n) ==> Bijection(index, cold, hot)
  }

  ghost predicate Bijection(index: map<CacheKey, CacheItem>, cold: seq<CacheItem>, hot: seq<CacheItem>)
  {
    && (forall it :: it in cold ==> it.key in index && index[it.key] == it)
    && (forall it :: it in hot ==> it.key in index && index[it.key] == it)
    && (forall key :: key in index ==> index[key].key == key && (index[key] in cold || index[key] in hot))
  }

  lemma LooksUp(index: map<CacheKey, CacheItem>, cold: seq<CacheItem>, hot: seq<CacheItem>)
    requires Links(index, cold, hot)
    ensures Bijection(index, cold, hot)
  {
    assert Opened(0);
  }

  lemma IndexLeads(index: map<CacheKey, CacheItem>, cold: seq<CacheItem>, hot: seq<CacheItem>, key: CacheKey)
    requires Links(index, cold, hot) && key in index
    ensures index[key].key == key && (index[key] in cold || index[key] in hot)
  {
    LooksUp(index, cold, hot);
  }

  lemma LinksNew(index: map<CacheKey, CacheItem>, cold: seq<CacheItem>, hot: seq<CacheItem>, it: CacheItem)
    requires Links(index, cold, hot) && it.key !in index
    ensures Links(index[it.key := it], [it] + cold, hot) && Links(index[it.key := it], cold, [it] + hot)
  {
    LooksUp(index, cold, hot);
  }

  lemma LinksWithout(index: map<CacheKey, CacheItem>, cold: seq<CacheItem>, hot: seq<CacheItem>, it: CacheItem,
                     cold': seq<CacheItem>, hot': seq<CacheItem>)
    requires Links(index, cold, hot) && it.key in index && index[it.key] == it && it !in cold' && it !in hot'
    requires (forall x :: x in cold <==> x in cold' || (x == it && it in cold)) && (forall x :: x in hot <==> x in hot' || (x == it && it in hot))
    ensures Links(index - {it.key}, cold', hot')
  {
    LooksUp(index, cold, hot);
  }

  lemma LinksLessCold(index: map<CacheKey, CacheItem>, cold: seq<CacheItem>, hot: seq<CacheItem>)
    requires Links(index, cold, hot) && cold != []
    requires cold[|cold| - 1] !in cold[..|cold| - 1] && cold[|cold| - 1] !in hot
    ensures Links(index - {cold[|cold| - 1].key}, cold[..|cold| - 1], hot)
  {
    LooksUp(index, cold, hot);
    var n := |cold| - 1;
    assert cold == cold[..n] + [cold[n]];
    LinksWithout(index, cold, hot, cold[n], cold[..n], hot);
  }

  lemma LinksLessHot(index: map<CacheKey, CacheItem>, hot: seq<CacheItem>)
    requires Links(index, [], hot) && hot != [] && hot[|hot| - 1] !in hot[..|hot| - 1]
    ensures Links(index - {hot[|hot| - 1].key}, [], hot[..|hot| - 1])
  {
    LooksUp(index, [], hot);
    var n := |hot| - 1;
    assert hot == hot[..n] + [hot[n]];
    LinksWithout(index, [], hot, hot[n], [], hot[..n]);
  }

  lemma ShowsLess(items: seq<CacheItem>, s: seq<Entry>)
    requires Shows(items, s) && DistinctKeys(s) && items != []
    ensures Shows(items[..|items| - 1], s[..|s| - 1]) && items[|items| - 1] !in items[..|items| - 1]
    ensures items[|items| - 1].EntryOf() == s[|s| - 1]
  {
    var n := |items| - 1;
    StandsOnce(items, s, n);
    ShowsCut(items, s, n);
    assert items[..n] + items[n + 1..] == items[..n] && s[..n] + s[n + 1..] == s[..n];
  }

  // As many entries as keys.
  lemma {:induction false} KeyCount(s: seq<Entry>, keys: set<CacheKey>)
    requires DistinctKeys(s) && forall x :: x in keys <==> Has(s, x)
    ensures |keys| == |s|
  {
    if s == [] {
      assert keys == {};
    } else {
      var rest := keys - {s[0].key};
      forall x
        ensures x in rest <==> Has(s[1..], x)
      {
        if Has(s, x) && x != s[0].key {
          var i :| 0 <= i < |s| && s[i].key == x;
          assert s[1..][i - 1] == s[i];
        }
        if Has(s[1..], x) {
          var i :| 0 <= i < |s[1..]| && s[1..][i].key == x;
          assert s[i + 1] == s[1..][i] && s[i + 1].key != s[0].key;
        }
      }
      assert Has(s, s[0].key);
      KeyCount(s[1..], rest);
    }
  }

  // Moving items between the lists needs no change of the index.
  lemma LinksMoved(index: map<CacheKey, CacheItem>, cold: seq<CacheItem>, hot: seq<CacheItem>,
                   cold': seq<CacheItem>, hot': seq<CacheItem>)
    requires Links(index, cold, hot)
    requires (forall x :: x in cold ==> x in cold' || x in hot') && (forall x :: x in hot ==> x in cold' || x in hot')
    requires (forall x :: x in cold' ==> x in cold || x in hot) && (forall x :: x in hot' ==> x in cold || x in hot)
    ensures Links(index, cold', hot')
  {
    LooksUp(index, cold, hot);
  }

  lemma MovedUp(index: map<CacheKey, CacheItem>, cold: seq<CacheItem>, hot: seq<CacheItem>, i: nat)
    requires Links(index, cold, hot) && i < |cold|
    ensures Links(index, cold[..i] + cold[i + 1..], [cold[i]] + hot)
  {
    assert cold == cold[..i] + ([cold[i]] + cold[i + 1..]);
    LinksMoved(index, cold, hot, cold[..i] + cold[i + 1..], [cold[i]] + hot);
  }

  lemma MovedFront(index: map<CacheKey, CacheItem>, cold: seq<CacheItem>, hot: seq<CacheItem>, i: nat)
    requires Links(index, cold, hot) && i < |cold|
    ensures Links(index, [cold[i]] + (cold[..i] + cold[i + 1..]), hot)
  {
    assert cold == cold[..i] + ([cold[i]] + cold[i + 1..]);
    LinksMoved(index, cold, hot, [cold[i]] + (cold[..i] + cold[i + 1..]), hot);
  }

  lemma MovedHot(index: map<CacheKey, CacheItem>, cold: seq<CacheItem>, hot: seq<CacheItem>, i: nat)
    requires Links(index, cold, hot) && i < |hot|
    ensures Links(index, cold, [hot[i]] + (hot[..i] + hot[i + 1..]))
  {
    assert hot == hot[..i] + ([hot[i]] + hot[i + 1..]);
    LinksMoved(index, cold, hot, cold, [hot[i]] + (hot[..i] + hot[i + 1..]));
  }

  lemma ShowsCut(items: seq<CacheItem>, s: seq<Entry>, i: nat)
    requires Shows(items, s) && i < |items|
    ensures Shows(items[..i] + items[i + 1..], s[..i] + s[i + 1..])
  {
    ShowsAt(items, s);
    var rest := items[..i] + items[i + 1..];
    assert forall j :: 0 <= j < |rest| ==> rest[j] == if j < i then items[j] else items[j + 1];
  }

  lemma ShowsFront(item: CacheItem, items: seq<CacheItem>, s: seq<Entry>)
    requires Shows(items, s)
    ensures Shows([item] + items, [item.EntryOf()] + s)
  {
    ShowsAt(items, s);
  }

  // With distinct keys an item stands once.
  lemma StandsOnce(items: seq<CacheItem>, s: seq<Entry>, i: nat)
    requires Shows(items, s) && DistinctKeys(s) && i < |items|
    ensures items[i] !in items[..i] + items[i + 1..] && items[i].EntryOf() == s[i]
  {
    ShowsAt(items, s);
    var rest := items[..i] + items[i + 1..];
    forall j | 0 <= j < |rest|
      ensures rest[j] != items[i]
    {
      var m := if j < i then j else j + 1;
      assert rest[j] == items[m] && s[m].key != s[i].key;
    }
  }

  lemma NotInBoth(a: seq<CacheItem>, s: seq<Entry>, b: seq<CacheItem>, t: seq<Entry>, x: CacheItem)
    requires Shows(a, s) && Shows(b, t) && DistinctKeys(s + t) && x in a
    ensures x !in b
  {
    HalvesDistinct(Lists(s, t));
    ShowsAt(a, s);
    ShowsAt(b, t);
    var i :| 0 <= i < |a| && a[i] == x;
    forall j | 0 <= j < |b|
      ensures b[j] != x
    {
      assert s[i].key != t[j].key;
    }
  }

  class BlockCache {
    const capacity: nat
    const k: nat
    var cold: seq<CacheItem>
    var hot: seq<CacheItem>
    var index: map<CacheKey, CacheItem>
    var totalRequests: nat
    var hitRequests: nat
    // The two lists as entries, and how many accesses there were.
    ghost var view: Lists
    ghost var now: nat

    ghost predicate Valid()
      reads this, cold, hot
    {
      Links(index, cold, hot) && Shows(cold, view.cold) && Shows(hot, view.hot) && Sound(view, capacity, k, now)
    }

    constructor (capacity: nat, k: nat)
      ensures Valid() && view == Lists([], []) && this.capacity == capacity && this.k == k
    {
      this.capacity, this.k := capacity, k;
      cold, hot, index, totalRequests, hitRequests, view, now := [], [], map[], 0, 0, Lists([], []), 0;
    }

    // What the index finds under a key is what the lists hold.
    lemma Indexed(key: CacheKey)
      requires Valid()
      ensures key in index <==> Lookup(view, key).Some?
      ensures key in index ==> Lookup(view, key) == Some(index[key].EntryOf())
    {
      LooksUp(index, cold, hot);
      ShowsAt(cold, view.cold);
      ShowsAt(hot, view.hot);
      HalvesDistinct(view);
      FindAppend(view.cold, view.hot, key);
      FindMeaning(view.cold, key);
      FindMeaning(view.hot, key);
      if key in index {
        if index[key] in cold {
          var i :| 0 <= i < |cold| && cold[i] == index[key];
          WithoutAt(view.cold, i);
        } else {
          var i :| 0 <= i < |hot| && hot[i] == index[key];
          WithoutAt(view.hot, i);
          Elsewhere(view, i);
        }
      } else {
        NotIndexed(key);
      }
    }

    lemma NotIndexed(key: CacheKey)
      requires Valid() && key !in index
      ensures !Has(view.cold, key) && !Has(view.hot, key)
    {
      LooksUp(index, cold, hot);
      ShowsAt(cold, view.cold);
      ShowsAt(hot, view.hot);
      forall i | 0 <= i < |cold|
        ensures view.cold[i].key != key
      {
        assert cold[i] in cold;
      }
      forall i | 0 <= i < |hot|
        ensures view.hot[i].key != key
      {
        assert hot[i] in hot;
      }
    }

    method IndexOf(items: seq<CacheItem>, it: CacheItem) returns (i: nat)
      requires it in items
      ensures i < |items| && items[i] == it
    {
      i := 0;
      while items[i] != it
        invariant i < |items| && it in items[i..]
        decreases |items| - i
      {
        i := i + 1;
      }
    }

    // One more use, noted in the item.
    method Count(it: CacheItem, more: nat, ghost a: seq<CacheItem>, ghost s: seq<Entry>, ghost b: seq<CacheItem>, ghost t: seq<Entry>)
      requires it !in a && it !in b && Shows(a, s) && Shows(b, t)
      modifies it, this`now
      ensures it.EntryOf() == old(it.EntryOf()).(count := old(it.count) + more, uses := old(it.uses) + 1, last := old(now))
      ensures Shows(a, s) && Shows(b, t) && now == old(now) + 1
    {
      it.count := it.count + more;
      it.uses, it.last, now := it.uses + 1, now, now + 1;
    }

    // Moves an item to the front of the list it belongs to after one more use.
    method UpdateAccessCount(it: CacheItem)
      requires Valid() && it.key in index && index[it.key] == it
      modifies this`cold, this`hot, this`view, this`now, it
      ensures Valid() && view == Touch(old(view), it.key, k, old(now)) && now == old(now) + 1
    {
      ghost var was, t, i := view, now, 0;
      TouchSound(view, it.key, capacity, k, now);
      InItsList(it);
      SoundHalves(view, capacity, k, now);
      if it.count < k {
        i := UseCold(it);
        TouchAtCold(was, i, k, t);
      } else {
        i := UseHot(it);
        Elsewhere(was, i);
        TouchAtHot(was, i, k, t);
      }
    }

    // The cached block, if any; a hit counts as a use.
    method Get(sstId: nat, blockId: nat) returns (r: Option<Image>)
      requires Valid()
      modifies this`cold, this`hot, this`view, this`now, this`totalRequests, this`hitRequests, cold, hot
      ensures Valid() && r == ImageOf(old(view), (sstId, blockId))
      ensures view == Touch(old(view), (sstId, blockId), k, old(now)) && index == old(index)
      ensures now == old(now) + if r.Some? then 1 else 0
      ensures r.None? ==> cold == old(cold) && hot == old(hot)
      ensures totalRequests == old(totalRequests) + 1 && hitRequests == old(hitRequests) + if r.Some? then 1 else 0
    {
      var key := (sstId, blockId);
      totalRequests := totalRequests + 1;
      Indexed(key);
      if key !in index {
        MissTouches(view, key, k, now);
        return None;
      }
      hitRequests := hitRequests + 1;
      IndexLeads(index, cold, hot, key);
      var found := index[key];
      UpdateAccessCount(found);
      return Some(found.image);
    }

    lemma Missing(key: CacheKey)
      requires Valid() && key !in index
      ensures Lookup(view, key).None?
    {
      Indexed(key);
    }

    // The index has one key for every entry.
    lemma IndexSize()
      requires Valid()
      ensures |index| == |view.cold| + |view.hot|
    {
      var all := view.cold + view.hot;
      forall x
        ensures x in index.Keys <==> Has(all, x)
      {
        Indexed(x);
        FindMeaning(all, x);
      }
      KeyCount(all, index.Keys);
    }

    method EvictOne()
      requires Valid() && (cold != [] || hot != [])
      modifies this`cold, this`hot, this`index, this`view
      ensures Valid() && view == Evict(old(view)) && now == old(now)
      ensures index.Keys <= old(index).Keys
    {
      EvictSound(view, capacity, k, now);
      SoundHalves(view, capacity, k, now);
      if cold != [] {
        ShowsLess(cold, view.cold);
        NotInBoth(cold, view.cold, hot, view.hot, cold[|cold| - 1]);
        LinksLessCold(index, cold, hot);
        var target := cold[|cold| - 1];
        index := index - {target.key};
        cold := cold[..|cold| - 1];
      } else {
        ShowsLess(hot, view.hot);
        LinksLessHot(index, hot);
        var target := hot[|hot| - 1];
        index := index - {target.key};
        hot := hot[..|hot| - 1];
      }
      view := Evict(view);
    }

    // A block not in the cache yet comes in front of its list.
    method AddNew(key: CacheKey, block: Image)
      requires Valid() && |view.cold| + |view.hot| < capacity && k > 0 && key !in index
      modifies this`cold, this`hot, this`index, this`view, this`now
      ensures Valid() && view == Insert(old(view), key, block, k, old(now)) && now == old(now) + 1
    {
      Missing(key);
      InsertSound(view, key, block, capacity, k, now);
      var item := new CacheItem(key, block, now);
      if k == 1 {
        AddHot(item);
      } else {
        AddCold(item);
      }
    }

    ghost predicate Joins(item: CacheItem)
      reads this, cold, hot, item
    {
      Links(index, cold, hot) && Shows(cold, view.cold) && Shows(hot, view.hot) && item.key !in index
    }

    method AddHot(item: CacheItem)
      requires Joins(item) && Sound(Lists(view.cold, [item.EntryOf()] + view.hot), capacity, k, now + 1)
      modifies this`hot, this`index, this`view, this`now
      ensures Valid() && view == Lists(old(view).cold, [item.EntryOf()] + old(view).hot) && now == old(now) + 1
    {
      LinksNew(index, cold, hot, item);
      ShowsFront(item, hot, view.hot);
      hot, view := [item] + hot, Lists(view.cold, [item.EntryOf()] + view.hot);
      index, now := index[item.key := item], now + 1;
    }

    method AddCold(item: CacheItem)
      requires Joins(item) && Sound(Lists([item.EntryOf()] + view.cold, view.hot), capacity, k, now + 1)
      modifies this`cold, this`index, this`view, this`now
      ensures Valid() && view == Lists([item.EntryOf()] + old(view).cold, old(view).hot) && now == old(now) + 1
    {
      LinksNew(index, cold, hot, item);
      ShowsFront(item, cold, view.cold);
      cold, view := [item] + cold, Lists([item.EntryOf()] + view.cold, view.hot);
      index, now := index[item.key := item], now + 1;
    }

    // A block that is there already counts as used and is not replaced; a new one takes
    // the place of the victim if the cache is full.
    method Put(sstId: nat, blockId: nat, block: Image) returns (r: Result<()>)
      requires Valid()
      modifies this`cold, this`hot, this`index, this`view, this`now, cold, hot
      ensures Valid() && (r.Err? <==> k == 0) && (r.Err? ==> r.error == LogicError)
      ensures now == old(now) + if k == 0 || capacity == 0 then 0 else 1
      ensures var key := (sstId, blockId);
              view == if k == 0 || capacity == 0 then old(view)
                      else if Lookup(old(view), key).Some? then Touch(old(view), key, k, old(now))
                      else Insert(Room(old(view), capacity), key, block, k, old(now))
    {
      if k == 0 {
        return Err(LogicError);
      }
      r := Ok(());
      if capacity == 0 {
        return;
      }
      var key := (sstId, blockId);
      Indexed(key);
      if key in index {
        IndexLeads(index, cold, hot, key);
        UpdateAccessCount(index[key]);
        return;
      }
      IndexSize();
      if |index| >= capacity {
        EvictOne();
      }
      AddNew(key, block);
    }

    // The count tells the list an item is in.
    lemma InItsList(it: CacheItem)
      requires Valid() && it.key in index && index[it.key] == it
      ensures if it.count < k then it in cold && it !in hot else it in hot && it !in cold && it.count == k
    {
      LooksUp(index, cold, hot);
      ShowsAt(cold, view.cold);
      ShowsAt(hot, view.hot);
      if it in cold {
        var i :| 0 <= i < |cold| && cold[i] == it;
        assert view.cold[i] == it.EntryOf();
        NotInBoth(cold, view.cold, hot, view.hot, it);
      } else {
        var i :| 0 <= i < |hot| && hot[i] == it;
        assert view.hot[i] == it.EntryOf();
      }
    }

    method UseCold(it: CacheItem) returns (ghost i: nat)
      requires Links(index, cold, hot) && Shows(cold, view.cold) && Shows(hot, view.hot) && DistinctKeys(view.cold)
      requires it in cold && it !in hot
      modifies this`cold, this`hot, this`view, this`now, it
      ensures Links(index, cold, hot) && Shows(cold, view.cold) && Shows(hot, view.hot) && now == old(now) + 1
      ensures i < |old(view).cold| && old(view).cold[i].key == it.key
      ensures view == UsedCold(old(view), i, k, old(now))
    {
      var at := IndexOf(cold, it);
      i := at;
      var rest := cold[..at] + cold[at + 1..];
      StandsOnce(cold, view.cold, at);
      ShowsCut(cold, view.cold, at);
      ghost var was, kept := view, view.cold[..at] + view.cold[at + 1..];
      Count(it, 1, rest, kept, hot, was.hot);
      if it.count == k {
        MovedUp(index, cold, hot, at);
        ShowsFront(it, hot, was.hot);
        cold, hot, view := rest, [it] + hot, Lists(kept, [it.EntryOf()] + was.hot);
      } else {
        MovedFront(index, cold, hot, at);
        ShowsFront(it, rest, kept);
        cold, view := [it] + rest, Lists([it.EntryOf()] + kept, was.hot);
      }
    }

    method UseHot(it: CacheItem) returns (ghost i: nat)
      requires Links(index, cold, hot) && Shows(cold, view.cold) && Shows(hot, view.hot) && DistinctKeys(view.cold + view.hot)
      requires it in hot && it !in cold
      modifies this`hot, this`view, this`now, it
      ensures Links(index, cold, hot) && Shows(cold, view.cold) && Shows(hot, view.hot) && now == old(now) + 1
      ensures i < |old(view).hot| && old(view).hot[i].key == it.key
      ensures view == UsedHot(old(view), i, old(now))
    {
      var at := IndexOf(hot, it);
      i := at;
      var rest := hot[..at] + hot[at + 1..];
      Elsewhere(view, at);
      StandsOnce(hot, view.hot, at);
      ShowsCut(hot, view.hot, at);
      ghost var was, kept := view, view.hot[..at] + view.hot[at + 1..];
      Count(it, 0, rest, kept, cold, was.cold);
      MovedHot(index, cold, hot, at);
      ShowsFront(it, rest, kept);
      hot, view := [it] + rest, Lists(was.cold, [it.EntryOf()] + kept);
    }
  }

  lemma TouchAtCold(c: Lists, i: nat, k: nat, now: nat)
    requires DistinctKeys(c.cold) && i < |c.cold|
    ensures Touch(c, c.cold[i].key, k, now) == UsedCold(c, i, k, now)
  {
    WithoutAt(c.cold, i);
  }

  lemma TouchAtHot(c: Lists, i: nat, k: nat, now: nat)
    requires DistinctKeys(c.hot) && i < |c.hot| && Find(c.cold, c.hot[i].key).None?
    ensures Touch(c, c.hot[i].key, k, now) == UsedHot(c, i, now)
  {
    WithoutAt(c.hot, i);
  }

  lemma MissTouches(c: Lists, key: CacheKey, k: nat, now: nat)
    requires Lookup(c, key).None?
    ensures Touch(c, key, k, now) == c
  {
    FindAppend(c.cold, c.hot, key);
  }

  lemma Elsewhere(c: Lists, i: nat)
    requires i < |c.hot| && DistinctKeys(c.cold + c.hot)
    ensures Find(c.cold, c.hot[i].key).None? && DistinctKeys(c.hot)
  {
    HalvesDistinct(c);
    FindMeaning(c.cold, c.hot[i].key);
  }

  // ---- In front of the files ----

  // Block i of a table, as its file has it.
  function Decoded(sst: Sst, i: nat): Result<Image>
    requires i < |sst.metas|
  {
    if sst.metas[i].offset <= BlockEnd(sst, i) <= |sst.file| then Unsealed(sst.file[sst.metas[i].offset..BlockEnd(sst, i)])
    else Err(Truncated)
  }

  ghost predicate Mirrored(tables: map<nat, Sst>, x: CacheKey, image: Image)
  {
    x.0 in tables && x.1 < |tables[x.0].metas| && Decoded(tables[x.0], x.1) == Ok(image)
  }

  // Whatever the cache has, the files of the tables ever made have the same.
  ghost predicate Mirrors(c: Lists, tables: map<nat, Sst>)
  {
    forall n :: Opened(n) ==> MirrorsWell(c, tables)
  }

  ghost predicate MirrorsWell(c: Lists, tables: map<nat, Sst>)
  {
    forall x :: ImageOf(c, x).Some? ==> Mirrored(tables, x, ImageOf(c, x).value)
  }

  lemma LookMirrored(c: Lists, tables: map<nat, Sst>)
    requires Mirrors(c, tables)
    ensures MirrorsWell(c, tables)
  {
    assert Opened(0);
  }

  // More tables change nothing as long as those there are stay what they are.
  lemma MirrorsMore(c: Lists, tables: map<nat, Sst>, more: map<nat, Sst>)
    requires Mirrors(c, tables) && forall id :: id in tables ==> id in more && more[id] == tables[id]
    ensures Mirrors(c, more)
  {
    LookMirrored(c, tables);
    forall x | ImageOf(c, x).Some?
      ensures Mirrored(more, x, ImageOf(c, x).value)
    {
      assert Mirrored(tables, x, ImageOf(c, x).value);
    }
  }

  // Reading through the cache, seen from its lists.
  lemma ReadSound(c: Lists, key: CacheKey, found: Result<Image>, capacity: nat, k: nat, now: nat, tables: map<nat, Sst>)
    requires Sound(c, capacity, k, now) && Mirrors(c, tables) && (found.Ok? ==> Mirrored(tables, key, found.value))
    ensures var (d, t) := AfterRead(c, key, found, capacity, k, now); Sound(d, capacity, k, t) && Mirrors(d, tables)
  {
    if Lookup(c, key).Some? {
      TouchSound(c, key, capacity, k, now);
      TouchMirrors(c, key, capacity, k, now, tables);
    } else if found.Ok? && capacity > 0 && k > 0 {
      RoomSound(c, capacity, k, now);
      RoomMirrors(c, capacity, k, now, tables);
      assert ImageOf(c, key).None?;
      InsertSound(Room(c, capacity), key, found.value, capacity, k, now);
      InsertMirrors(Room(c, capacity), key, found.value, k, now, tables);
    }
  }

  lemma TouchMirrors(c: Lists, key: CacheKey, capacity: nat, k: nat, now: nat, tables: map<nat, Sst>)
    requires Sound(c, capacity, k, now) && Mirrors(c, tables)
    ensures Mirrors(Touch(c, key, k, now), tables)
  {
    LookMirrored(c, tables);
    forall x
      ensures ImageOf(Touch(c, key, k, now), x) == ImageOf(c, x)
    {
      TouchImages(c, key, capacity, k, now, x);
    }
  }

  lemma RoomMirrors(c: Lists, capacity: nat, k: nat, now: nat, tables: map<nat, Sst>)
    requires Sound(c, capacity, k, now) && Mirrors(c, tables) && capacity > 0
    ensures Mirrors(Room(c, capacity), tables)
    ensures forall x :: ImageOf(c, x).None? ==> ImageOf(Room(c, capacity), x).None?
  {
    LookMirrored(c, tables);
    if |c.cold| + |c.hot| >= capacity {
      forall x
        ensures ImageOf(Evict(c), x) == if x == Victim(c).key then None else ImageOf(c, x)
      {
        EvictsLeastRecent(c, capacity, k, now, x);
      }
    }
  }

  lemma InsertMirrors(c: Lists, key: CacheKey, image: Image, k: nat, now: nat, tables: map<nat, Sst>)
    requires Mirrors(c, tables) && Lookup(c, key).None? && Mirrored(tables, key, image)
    ensures Mirrors(Insert(c, key, image, k, now), tables)
  {
    LookMirrored(c, tables);
    forall x
      ensures ImageOf(Insert(c, key, image, k, now), x) == if x == key then Some(image) else ImageOf(c, x)
    {
      InsertImages(c, key, image, k, now, x);
    }
  }

  // What put leaves.
  lemma PutMirrors(c: Lists, key: CacheKey, image: Image, capacity: nat, k: nat, now: nat, tables: map<nat, Sst>)
    requires Sound(c, capacity, k, now) && Mirrors(c, tables) && capacity > 0 && Lookup(c, key).None? && Mirrored(tables, key, image)
    ensures Mirrors(Insert(Room(c, capacity), key, image, k, now), tables)
  {
    RoomMirrors(c, capacity, k, now, tables);
    assert ImageOf(c, key).None?;
    InsertMirrors(Room(c, capacity), key, image, k, now, tables);
  }

  // The lists and the clock after a block was asked for: a hit counts as a use, a miss
  // that finds the block in the file takes it in.
  function AfterRead(c: Lists, key: CacheKey, found: Result<Image>, capacity: nat, k: nat, now: nat): (Lists, nat)
  {
    if Lookup(c, key).Some? then (Touch(c, key, k, now), now + 1)
    else if found.Err? || capacity == 0 || k == 0 then (c, now)
    else (Insert(Room(c, capacity), key, found.value, k, now), now + 1)
  }

  // A block through the cache is the block the file holds, hit or not.
  method ReadThrough(cache: BlockCache, sst: Sst, blockIdx: int, ghost tables: map<nat, Sst>) returns (r: Result<Image>)
    requires cache.Valid() && Mirrors(cache.view, tables) && sst.id in tables && tables[sst.id] == sst
    modifies cache`cold, cache`hot, cache`index, cache`view, cache`now, cache`totalRequests, cache`hitRequests, cache.cold, cache.hot
    ensures cache.Valid() && Mirrors(cache.view, tables)
    ensures !(0 <= blockIdx < |sst.metas|) ==> r.Err? && cache.view == old(cache.view) && cache.now == old(cache.now)
    ensures 0 <= blockIdx < |sst.metas| && cache.k > 0 ==> r == Decoded(sst, blockIdx)
    ensures 0 <= blockIdx < |sst.metas| ==>
              (cache.view, cache.now) == AfterRead(old(cache.view), (sst.id, blockIdx), Decoded(sst, blockIdx), cache.capacity, cache.k, old(cache.now))
  {
    if blockIdx < 0 || blockIdx >= |sst.metas| {
      return Err(NotFound);
    }
    var cached := GetMirrored(cache, sst, blockIdx, tables);
    if cached.Some? {
      return Ok(cached.value);
    }
    r := Ssts.ReadBlock(sst, blockIdx);
    if r.Ok? {
      r := PutMirrored(cache, sst, blockIdx, r.value, tables);
    }
  }

  method GetMirrored(cache: BlockCache, sst: Sst, i: nat, ghost tables: map<nat, Sst>) returns (r: Option<Image>)
    requires cache.Valid() && Mirrors(cache.view, tables) && sst.id in tables && tables[sst.id] == sst && i < |sst.metas|
    modifies cache`cold, cache`hot, cache`view, cache`now, cache`totalRequests, cache`hitRequests, cache.cold, cache.hot
    ensures cache.Valid() && Mirrors(cache.view, tables) && (r.Some? <==> Lookup(old(cache.view), (sst.id, i)).Some?)
    ensures r.Some? ==> Decoded(sst, i) == Ok(r.value)
    ensures r.Some? ==> cache.view == Touch(old(cache.view), (sst.id, i), cache.k, old(cache.now)) && cache.now == old(cache.now) + 1
    ensures r.None? ==> cache.view == old(cache.view) && cache.now == old(cache.now)
    ensures r.None? ==> Lookup(cache.view, (sst.id, i)).None? && cache.cold == old(cache.cold) && cache.hot == old(cache.hot)
  {
    ghost var key: CacheKey := (sst.id, i);
    TouchMirrors(cache.view, key, cache.capacity, cache.k, cache.now, tables);
    LookMirrored(cache.view, tables);
    TouchImages(cache.view, key, cache.capacity, cache.k, cache.now, key);
    ghost var was := cache.view;
    if Lookup(was, key).None? {
      MissTouches(was, key, cache.k, cache.now);
    }
    r := cache.Get(sst.id, i);
  }

  method PutMirrored(cache: BlockCache, sst: Sst, i: nat, image: Image, ghost tables: map<nat, Sst>) returns (r: Result<Image>)
    requires cache.Valid() && Mirrors(cache.view, tables) && sst.id in tables && tables[sst.id] == sst && i < |sst.metas|
    requires Decoded(sst, i) == Ok(image) && Lookup(cache.view, (sst.id, i)).None?
    modifies cache`cold, cache`hot, cache`index, cache`view, cache`now, cache.cold, cache.hot
    ensures cache.Valid() && Mirrors(cache.view, tables)
    ensures r == if cache.k == 0 then Err(LogicError) else Ok(image)
    ensures (cache.view, cache.now) == AfterRead(old(cache.view), (sst.id, i), Ok(image), cache.capacity, cache.k, old(cache.now))
  {
    if cache.capacity > 0 {
      PutMirrors(cache.view, (sst.id, i), image, cache.capacity, cache.k, cache.now, tables);
    }
    var stored := cache.Put(sst.id, i, image);
    if stored.Err? {
      return Err(stored.error);
    }
    return Ok(image);
  }
}
