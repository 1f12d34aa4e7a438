// The tables on disk, by level, and the lookup through all of them.

module Storages {
  import opened Bytes
  import opened Mvcc
  import opened BlockSearch
  import opened Bloom
  import opened SstMeta
  import opened Ssts
  import opened Streams
  import opened TableIterators

  // ---- The lists of table ids ----

  ghost predicate Known(hasher: Hasher, ssts: map<nat, Sst>, id: nat)
  {
    id in ssts && ssts[id].id == id && IsTable(hasher, ssts[id])
  }

  ghost predicate Listed(hasher: Hasher, ssts: map<nat, Sst>, ids: seq<nat>)
  {
    forall i :: 0 <= i < |ids| ==> Known(hasher, ssts, ids[i])
  }

  function Tables(ssts: map<nat, Sst>, ids: seq<nat>): (tables: seq<Sst>)
    requires forall i :: 0 <= i < |ids| ==> ids[i] in ssts
    ensures |tables| == |ids| && forall i :: 0 <= i < |ids| ==> tables[i] == ssts[ids[i]]
  {
    seq(|ids|, i requires 0 <= i < |ids| => ssts[ids[i]])
  }

  ghost function RunOf(hasher: Hasher, ssts: map<nat, Sst>, ids: seq<nat>): (run: seq<seq<Rec>>)
    requires Listed(hasher, ssts, ids)
    ensures |run| == |ids| && forall i :: 0 <= i < |ids| ==> run[i] == RecordsOf(hasher, ssts[ids[i]])
  {
    Run(hasher, Tables(ssts, ids))
  }

  // All records of one level, tables in list order.
  ghost function Part(hasher: Hasher, ssts: map<nat, Sst>, ids: seq<nat>): seq<Rec>
    requires Listed(hasher, ssts, ids)
  {
    Flat(RunOf(hasher, ssts, ids))
  }

  // Level 0: the newest table first; tables may overlap, but each comes from one
  // memory table, in which no key has a version twice.
  ghost predicate TopLevel(hasher: Hasher, ssts: map<nat, Sst>, ids: seq<nat>)
  {
    && Listed(hasher, ssts, ids)
    && (forall i, j :: 0 <= i < j < |ids| ==> ids[i] > ids[j])
    && (forall i :: 0 <= i < |ids| ==> Strict(RunOf(hasher, ssts, ids)[i]))
  }

  // A deeper level: tables without a common key, keys rising.
  ghost predicate DeepLevel(hasher: Hasher, ssts: map<nat, Sst>, ids: seq<nat>)
  {
    && Listed(hasher, ssts, ids)
    && (forall i, j :: 0 <= i < j < |ids| ==> ids[i] < ids[j])
    && Separated(RunOf(hasher, ssts, ids))
  }

  ghost predicate LevelOk(hasher: Hasher, ssts: map<nat, Sst>, levels: seq<seq<nat>>, l: nat)
    requires l < |levels|
  {
    if l == 0 then TopLevel(hasher, ssts, levels[0]) else DeepLevel(hasher, ssts, levels[l])
  }

  ghost predicate Storage(hasher: Hasher, ssts: map<nat, Sst>, levels: seq<seq<nat>>)
  {
    && levels != []
    && (forall l: nat :: l < |levels| ==> LevelOk(hasher, ssts, levels, l))
    && NoSharedIds(levels)
  }

  ghost predicate NoSharedIds(levels: seq<seq<nat>>)
  {
    forall a, b :: 0 <= a < b < |levels| ==> forall id :: id in levels[a] ==> id !in levels[b]
  }

  ghost predicate AllListed(hasher: Hasher, ssts: map<nat, Sst>, levels: seq<seq<nat>>)
  {
    forall l :: 0 <= l < |levels| ==> Listed(hasher, ssts, levels[l])
  }

  lemma StorageListed(hasher: Hasher, ssts: map<nat, Sst>, levels: seq<seq<nat>>)
    requires Storage(hasher, ssts, levels)
    ensures AllListed(hasher, ssts, levels)
  {
    forall l | 0 <= l < |levels|
      ensures Listed(hasher, ssts, levels[l])
    {
      assert LevelOk(hasher, ssts, levels, l);
    }
  }

  ghost function Parts(hasher: Hasher, ssts: map<nat, Sst>, levels: seq<seq<nat>>): (parts: seq<seq<Rec>>)
    requires AllListed(hasher, ssts, levels)
    ensures |parts| == |levels| && forall l :: 0 <= l < |levels| ==> parts[l] == Part(hasher, ssts, levels[l])
  {
    seq(|levels|, l requires 0 <= l < |levels| => Part(hasher, ssts, levels[l]))
  }

  // Everything in tables, shallower levels first.
  ghost function Stored(hasher: Hasher, ssts: map<nat, Sst>, levels: seq<seq<nat>>): seq<Rec>
    requires AllListed(hasher, ssts, levels)
  {
    Flat(Parts(hasher, ssts, levels))
  }

  lemma PartStep(hasher: Hasher, ssts: map<nat, Sst>, ids: seq<nat>, i: nat)
    requires Listed(hasher, ssts, ids) && i < |ids|
    ensures Listed(hasher, ssts, ids[..i]) && Listed(hasher, ssts, ids[..i + 1])
    ensures Part(hasher, ssts, ids[..i + 1]) == Part(hasher, ssts, ids[..i]) + RecordsOf(hasher, ssts[ids[i]])
  {
    assert RunOf(hasher, ssts, ids[..i + 1]) == RunOf(hasher, ssts, ids[..i]) + [RecordsOf(hasher, ssts[ids[i]])];
    FlatAppend(RunOf(hasher, ssts, ids[..i]), [RecordsOf(hasher, ssts[ids[i]])]);
    FlatOne(RecordsOf(hasher, ssts[ids[i]]));
  }

  lemma StoredStep(hasher: Hasher, ssts: map<nat, Sst>, levels: seq<seq<nat>>, l: nat)
    requires AllListed(hasher, ssts, levels) && l < |levels|
    ensures AllListed(hasher, ssts, levels[..l]) && AllListed(hasher, ssts, levels[..l + 1])
    ensures Stored(hasher, ssts, levels[..l + 1]) == Stored(hasher, ssts, levels[..l]) + Part(hasher, ssts, levels[l])
  {
    assert Parts(hasher, ssts, levels[..l + 1]) == Parts(hasher, ssts, levels[..l]) + [Part(hasher, ssts, levels[l])];
    FlatAppend(Parts(hasher, ssts, levels[..l]), [Part(hasher, ssts, levels[l])]);
    FlatOne(Part(hasher, ssts, levels[l]));
  }

  // ---- Lookup ----

  // Looks into one table; a strictly larger version replaces what was found before.
  method UpdateBest(hasher: Hasher, sst: Sst, key: Key, bound: nat, skip: set<nat>, best: Option<Rec>) returns (r: Option<Rec>)
    requires IsTable(hasher, sst) && key != []
    ensures r == Pick(best, Best(RecordsOf(hasher, sst), Query(key, bound, skip)))
  {
    var candidate := Ssts.Get(hasher, sst, key, bound, skip, BlocksOf(hasher, sst));
    r := best;
    if candidate.Some? && (best.None? || candidate.value.ver > best.value.ver) {
      r := candidate;
    }
  }

  method GetInTop(hasher: Hasher, ssts: map<nat, Sst>, ids: seq<nat>, key: Key, bound: nat, skip: set<nat>) returns (best: Option<Rec>)
    requires Listed(hasher, ssts, ids) && key != []
    ensures best == Best(Part(hasher, ssts, ids), Query(key, bound, skip))
  {
    ghost var q := Query(key, bound, skip);
    best := None;
    var i := 0;
    while i < |ids|
      invariant 0 <= i <= |ids| && Listed(hasher, ssts, ids[..i]) && best == Best(Part(hasher, ssts, ids[..i]), q)
    {
      assert Known(hasher, ssts, ids[i]);
      PartStep(hasher, ssts, ids, i);
      BestAppend(Part(hasher, ssts, ids[..i]), RecordsOf(hasher, ssts[ids[i]]), q);
      best := UpdateBest(hasher, ssts[ids[i]], key, bound, skip, best);
      i := i + 1;
    }
    assert ids[..i] == ids;
  }

  // What one look at a table's names tells about the whole level.
  lemma LevelDecides(run: seq<seq<Rec>>, mid: nat, key: Key)
    requires Separated(run) && mid < |run| && key != []
    ensures Less(key, FirstName(run[mid])) ==> forall i :: mid <= i < |run| ==> Absent(run[i], key)
    ensures Less(LastKey(run[mid]), key) ==> forall i :: 0 <= i <= mid ==> Absent(run[i], key)
    ensures !Less(key, FirstName(run[mid])) && !Less(LastKey(run[mid]), key) ==>
              forall i :: 0 <= i < |run| && i != mid ==> Absent(run[i], key)
  {
    var here := run[mid];
    FirstNameAt(here);
    NamesBound(here, key);
    LessTotal(key, FirstName(here));
    LessTotal(key, LastKey(here));
    forall i, a | 0 <= i < |run| && 0 <= a < |run[i]| && i != mid
      ensures mid < i && Less(key, FirstName(here)) ==> run[i][a].key != key
      ensures i < mid && Less(LastKey(here), key) ==> run[i][a].key != key
      ensures !Less(key, FirstName(here)) && !Less(LastKey(here), key) ==> run[i][a].key != key
    {
      KeyOrder();
      if i < mid {
        assert KeysBelow(run[i], here) && Less(run[i][a].key, here[0].key) && Less(run[i][a].key, LastKey(here));
      } else {
        assert KeysBelow(here, run[i]) && Less(LastKey(here), run[i][a].key);
      }
    }
  }

  // The first name is the first key, unless that is the marker's; it is never past the
  // last key.
  lemma {:induction false} FirstNameAt(s: seq<Rec>)
    requires Ordered(s) && s != []
    ensures s[0].key != [] ==> FirstName(s) == s[0].key
    ensures FirstName(s) == LastKey(s) || Less(FirstName(s), LastKey(s))
  {
    KeysAscend(s, 0, |s| - 1);
    if s[0].key == [] {
      if |s| > 1 {
        OrderedTail(s);
        FirstNameAt(s[1..]);
      } else {
        assert FirstName(s[1..]) == [];
      }
    }
  }

  // Binary search over the tables of a deeper level.
  method GetInDeep(hasher: Hasher, ssts: map<nat, Sst>, ids: seq<nat>, key: Key, bound: nat, skip: set<nat>, best: Option<Rec>)
    returns (r: Option<Rec>)
    requires DeepLevel(hasher, ssts, ids) && key != []
    ensures r == Pick(best, Best(Part(hasher, ssts, ids), Query(key, bound, skip)))
  {
    ghost var q, run := Query(key, bound, skip), RunOf(hasher, ssts, ids);
    var left, right := 0, |ids|;
    while left < right
      invariant 0 <= left <= right <= |run|
      invariant forall i :: 0 <= i < left || right <= i < |run| ==> Absent(run[i], key)
    {
      var mid := (left + right) / 2;
      assert Known(hasher, ssts, ids[mid]);
      var sst := ssts[ids[mid]];
      TableShape(hasher, sst);
      LevelDecides(run, mid, key);
      LessTotal(sst.first, key);
      LessTotal(sst.last, key);
      if AtMost(sst.first, key) && AtMost(key, sst.last) {
        BestInBlock(run, mid, q);
        r := UpdateBest(hasher, sst, key, bound, skip, best);
        return;
      } else if Less(sst.last, key) {
        left := mid + 1;
      } else {
        right := mid;
      }
    }
    FlatAbsent(run, q);
    r := best;
  }

  // Level 0 table by table, then one table of each deeper level: what a linear scan of
  // everything stored would find.
  method SstGet(hasher: Hasher, ssts: map<nat, Sst>, levels: seq<seq<nat>>, key: Key, bound: nat, skip: set<nat>) returns (best: Option<Rec>)
    requires Storage(hasher, ssts, levels) && AllListed(hasher, ssts, levels) && key != []
    ensures best == Best(Stored(hasher, ssts, levels), Query(key, bound, skip))
  {
    ghost var q := Query(key, bound, skip);
    assert LevelOk(hasher, ssts, levels, 0);
    best := GetInTop(hasher, ssts, levels[0], key, bound, skip);
    StoredStep(hasher, ssts, levels, 0);
    assert levels[..0] == [] && Stored(hasher, ssts, levels[..0]) == [];
    BestAppend([], Part(hasher, ssts, levels[0]), q);
    var l := 1;
    while l < |levels|
      invariant 1 <= l <= |levels| && AllListed(hasher, ssts, levels[..l]) && best == Best(Stored(hasher, ssts, levels[..l]), q)
    {
      assert LevelOk(hasher, ssts, levels, l);
      StoredStep(hasher, ssts, levels, l);
      BestAppend(Stored(hasher, ssts, levels[..l]), Part(hasher, ssts, levels[l]), q);
      best := GetInDeep(hasher, ssts, levels[l], key, bound, skip, best);
      l := l + 1;
    }
    assert levels[..l] == levels;
  }
}
