// Merging two levels and cutting the merged stream into new tables.

module Compactions {
  import opened Bytes
  import opened Mvcc
  import opened Bloom
  import opened SstMeta
  import opened Ssts
  import opened Streams
  import opened TableIterators
  import opened Heaps
  import opened Merges
  import opened Storages
  import SstBuilders

  // ---- Cutting a stream ----

  // The stream is the tables cut so far, the records in the open builder and the rest;
  // the last cut was not within a key.
  ghost predicate CutSoFar(stream: seq<Rec>, run: seq<seq<Rec>>, open: seq<Rec>, rest: seq<Rec>)
  {
    forall n :: Opened(n) ==> CutWell(stream, run, open, rest)
  }

  ghost predicate CutWell(stream: seq<Rec>, run: seq<seq<Rec>>, open: seq<Rec>, rest: seq<Rec>)
  {
    && Flat(run) + open + rest == stream && Separated(run)
    && (run != [] && open + rest != [] ==> LastKey(run[|run| - 1]) != (open + rest)[0].key)
  }

  // Everything behind the last cut has larger keys.
  lemma BehindCut(stream: seq<Rec>, run: seq<seq<Rec>>, open: seq<Rec>, rest: seq<Rec>, i: nat)
    requires Ordered(stream) && CutWell(stream, run, open, rest) && i < |run|
    ensures KeysBelow(run[i], open)
  {
    var front, back := Flat(run), open + rest;
    FlatOrdered(run);
    assert front + back == stream;
    forall a, b | 0 <= a < |run[i]| && 0 <= b < |open|
      ensures Less(run[i][a].key, open[b].key)
    {
      var top := front[|front| - 1].key;
      SstBuilders.LastIsTop(run, i, a);
      assert stream[|front| - 1].key == top && stream[|front|] == back[0] && stream[|front| + b] == open[b];
      assert !RecLess(stream[|front|], stream[|front| - 1]);
      assert b > 0 ==> !RecLess(stream[|front| + b], stream[|front|]);
      LessTotal(back[0].key, back[0].key);
      Climb(run[i][a].key, top, back[0].key, open[b].key);
    }
  }

  lemma Climb(a: Key, b: Key, c: Key, d: Key)
    requires (a == b || Less(a, b)) && b != c && !Less(c, b) && !Less(d, c)
    ensures Less(a, d)
  {
    LessTotal(b, c);
    LessTotal(c, d);
    if Less(a, b) {
      LessTransitive(a, b, c);
    }
    if Less(c, d) {
      LessTransitive(a, c, d);
    }
  }

  lemma CutHere(stream: seq<Rec>, run: seq<seq<Rec>>, open: seq<Rec>, rest: seq<Rec>)
    requires Ordered(stream) && CutSoFar(stream, run, open, rest) && open != []
    requires rest == [] || rest[0].key != LastKey(open)
    ensures CutSoFar(stream, run + [open], [], rest)
  {
    assert CutWell(stream, run, open, rest) by {
      assert Opened(0);
    }
    forall i | 0 <= i < |run|
      ensures KeysBelow(run[i], open)
    {
      BehindCut(stream, run, open, rest, i);
    }
    OpenOrdered(stream, Flat(run), open, rest);
    SstBuilders.SeparatedAppend(run, open);
    FlatAppend(run, [open]);
    FlatOne(open);
    assert [] + rest == rest;
    assert CutWell(stream, run + [open], [], rest);
  }

  lemma CutNothing(stream: seq<Rec>)
    ensures CutSoFar(stream, [], [], stream)
  {
    assert Flat<Rec>([]) + [] + stream == stream;
  }

  lemma CutAll(stream: seq<Rec>, run: seq<seq<Rec>>)
    requires CutSoFar(stream, run, [], [])
    ensures Flat(run) == stream && Separated(run)
  {
    assert Opened(0);
    assert Flat(run) + [] + [] == Flat(run);
  }

  lemma OpenOrdered(stream: seq<Rec>, front: seq<Rec>, open: seq<Rec>, rest: seq<Rec>)
    requires Ordered(stream) && front + open + rest == stream
    ensures Ordered(open)
  {
    forall i, j | 0 <= i < j < |open|
      ensures !RecLess(open[j], open[i])
    {
      assert stream[|front| + i] == open[i] && stream[|front| + j] == open[j];
    }
  }

  lemma TakeOne(stream: seq<Rec>, run: seq<seq<Rec>>, open: seq<Rec>, rest: seq<Rec>)
    requires Ordered(stream) && CutSoFar(stream, run, open, rest) && rest != []
    ensures CutSoFar(stream, run, open + [rest[0]], rest[1..])
    ensures open != [] ==> !RecLess(rest[0], open[|open| - 1])
    ensures rest[0] in stream
  {
    assert CutWell(stream, run, open, rest) by {
      assert Opened(0);
    }
    assert open + [rest[0]] + rest[1..] == open + rest;
    assert Flat(run) + (open + [rest[0]]) + rest[1..] == stream;
    var n := |Flat(run)| + |open|;
    assert stream[n] == rest[0];
    if open != [] {
      assert stream[n - 1] == open[|open| - 1];
    }
    assert (open + [rest[0]] + rest[1..])[0] == (open + rest)[0];
  }

  // New tables, in id order from the first free id on.
  ghost predicate Numbered(news: seq<Sst>, first: nat, next: nat)
  {
    && next == first + |news|
    && forall i :: 0 <= i < |news| ==> news[i].id == first + i
  }

  lemma RunAppend(hasher: Hasher, news: seq<Sst>, t: Sst)
    requires AllTables(hasher, news) && IsTable(hasher, t)
    ensures AllTables(hasher, news + [t]) && Run(hasher, news + [t]) == Run(hasher, news) + [RecordsOf(hasher, t)]
  {
  }

  // ---- What merging two levels gives ----

  lemma {:induction false} FlatDistinct(s: seq<Rec>)
    requires Strict(s)
    ensures Heaps.OnceEach(s)
  {
    RecOrder();
  }

  lemma TableIsNarrow(hasher: Hasher, sst: Sst)
    requires IsTable(hasher, sst)
    ensures Narrow(RecordsOf(hasher, sst))
  {
    var blocks := BlocksOf(hasher, sst);
    LookInside(hasher, sst, blocks);
    forall i | 0 <= i < |blocks|
      ensures Narrow(blocks[i])
    {
      assert BlockAt(sst, i, blocks[i]);
      ImageIsNarrow(sst.file[sst.metas[i].offset..BlockEnd(sst, i)], blocks[i]);
    }
    FlatNarrow(blocks);
  }

  lemma ImageIsNarrow(bytes: ByteString, es: seq<Rec>)
    requires IsImageOf(bytes, es)
    ensures Narrow(es)
  {
    var image :| Blocks.Holds(image, es);
    forall i | 0 <= i < |es|
      ensures es[i].ver < TWO64
    {
      assert Blocks.Placed(image, es, i);
    }
  }

  lemma {:induction false} FlatNarrow(parts: seq<seq<Rec>>)
    requires forall i :: 0 <= i < |parts| ==> Narrow(parts[i])
    ensures Narrow(Flat(parts))
  {
    if parts != [] {
      FlatNarrow(parts[1..]);
      assert Narrow(parts[0]);
    }
  }

  lemma {:induction false} LevelIsNarrow(hasher: Hasher, ssts: map<nat, Sst>, ids: seq<nat>)
    requires Listed(hasher, ssts, ids)
    ensures Narrow(Part(hasher, ssts, ids))
  {
    var run := RunOf(hasher, ssts, ids);
    forall i | 0 <= i < |run|
      ensures Narrow(run[i])
    {
      assert Known(hasher, ssts, ids[i]);
      TableIsNarrow(hasher, ssts[ids[i]]);
    }
    FlatNarrow(run);
  }

  // The stream a compaction writes: everything of both levels, in order, the shallower
  // level first among equals.
  ghost predicate Combines(stream: seq<Rec>, upper: seq<Rec>, lower: seq<Rec>)
  {
    Ordered(stream) && Narrow(stream) && forall k, v :: Group(stream, k, v) == Group(upper, k, v) + Group(lower, k, v)
  }

  const KEEP_ALL := Mode(0, {}, true)

  method StartDeep(hasher: Hasher, ssts: map<nat, Sst>, ids: seq<nat>) returns (c: Child)
    requires DeepLevel(hasher, ssts, ids)
    ensures OnChild(hasher, c) && ChildRest(hasher, c) == Part(hasher, ssts, ids)
    ensures Ordered(Part(hasher, ssts, ids))
  {
    assert forall i :: 0 <= i < |ids| ==> Known(hasher, ssts, ids[i]);
    var tables := Tables(ssts, ids);
    var it := StartLevel(hasher, tables, KEEP_ALL);
    ShownAll(Part(hasher, ssts, ids));
    FlatOrdered(RunOf(hasher, ssts, ids));
    c := LevelChild(it);
  }

  // The queue over level 0: its groups are those of the tables one after the other.
  method StartTop(hasher: Hasher, ssts: map<nat, Sst>, ids: seq<nat>) returns (c: Child)
    requires TopLevel(hasher, ssts, ids)
    ensures OnChild(hasher, c) && Ordered(ChildRest(hasher, c))
    ensures SameGroups(ChildRest(hasher, c), Part(hasher, ssts, ids))
  {
    var its := SeekTables(hasher, ssts, ids, KEEP_ALL);
    forall i | 0 <= i < |ids|
      ensures Rests(hasher, its)[i] == RunOf(hasher, ssts, ids)[i]
    {
      ShownAll(RecordsOf(hasher, ssts[ids[i]]));
    }
    assert Rests(hasher, its) == RunOf(hasher, ssts, ids);
    var h := MergeTables(hasher, its, true);
    ShownAll(Recs(h.items));
    SortedIsOrdered(h.items);
    c := HeapChild(h);
  }

  // An iterator on each table of level 0.
  method SeekTables(hasher: Hasher, ssts: map<nat, Sst>, ids: seq<nat>, mode: Mode) returns (its: seq<SstIt>)
    requires TopLevel(hasher, ssts, ids)
    ensures |its| == |ids| && AllOnTable(hasher, its) && Newest(its)
    ensures forall i :: 0 <= i < |ids| ==> TableRest(hasher, its[i]) == Shown(RecordsOf(hasher, ssts[ids[i]]), mode)
  {
    its := [];
    var i := 0;
    while i < |ids|
      invariant 0 <= i <= |ids| && |its| == i
      invariant forall j :: 0 <= j < i ==> Sought(hasher, ssts, ids, its[j], j, mode)
    {
      assert Known(hasher, ssts, ids[i]) && Strict(RunOf(hasher, ssts, ids)[i]);
      var it := SeekFirst(hasher, ssts[ids[i]], mode);
      ShownDistinct(RecordsOf(hasher, ssts[ids[i]]), mode);
      its := its + [it];
      i := i + 1;
    }
    forall j | 0 <= j < |its|
      ensures Sought(hasher, ssts, ids, its[j], j, mode)
    {
    }
    forall a, b | 0 <= a < b < |its|
      ensures its[a].sst.id > its[b].sst.id
    {
      assert Sought(hasher, ssts, ids, its[a], a, mode) && Sought(hasher, ssts, ids, its[b], b, mode);
      assert Known(hasher, ssts, ids[a]) && Known(hasher, ssts, ids[b]);
    }
  }

  ghost predicate Sought(hasher: Hasher, ssts: map<nat, Sst>, ids: seq<nat>, it: SstIt, j: nat, mode: Mode)
    requires Listed(hasher, ssts, ids) && j < |ids|
  {
    && Known(hasher, ssts, ids[j]) && OnTable(hasher, it) && it.sst == ssts[ids[j]]
    && TableRest(hasher, it) == Shown(RecordsOf(hasher, ssts[ids[j]]), mode) && Heaps.OnceEach(TableRest(hasher, it))
  }

  lemma ShownDistinct(s: seq<Rec>, mode: Mode)
    requires Strict(s)
    ensures Heaps.OnceEach(Shown(s, mode))
  {
    StrictShown(s, mode);
    FlatDistinct(Shown(s, mode));
  }

  lemma {:induction false} StrictShown(s: seq<Rec>, mode: Mode)
    requires Strict(s)
    ensures Strict(Shown(s, mode))
    decreases |s|
  {
    if s != [] {
      var tail := s[1..];
      assert forall i, j :: 0 <= i < j < |tail| ==> RecLess(tail[i], tail[j]);
      if !Shows(mode, s[0]) {
        StrictShown(tail, mode);
      } else {
        var n := if mode.keepAll then 0 else DropCount(tail, s[0].key);
        var rest := tail[n..];
        assert forall i, j :: 0 <= i < j < |rest| ==> RecLess(rest[i], rest[j]);
        StrictShown(rest, mode);
        ShownSubset(rest, mode);
        StrictPrepend(s, rest, Shown(rest, mode));
      }
    }
  }

  lemma StrictPrepend(s: seq<Rec>, rest: seq<Rec>, shown: seq<Rec>)
    requires Strict(s) && s != [] && Strict(shown) && (forall r :: r in shown ==> r in rest) && (forall r :: r in rest ==> r in s[1..])
    ensures Strict([s[0]] + shown)
  {
    var all := [s[0]] + shown;
    forall i, j | 0 <= i < j < |all|
      ensures RecLess(all[i], all[j])
    {
      if i == 0 {
        assert all[j] == shown[j - 1] && all[j] in shown && all[j] in s[1..];
        var a :| 0 <= a < |s[1..]| && s[1..][a] == all[j];
        assert RecLess(s[0], s[a + 1]);
      }
    }
  }

  ghost function DropCount(s: seq<Rec>, key: Key): (n: nat)
    ensures n <= |s| && DropKey(s, key) == s[n..]
  {
    if s != [] && s[0].key == key then DropCount(s[1..], key) + 1 else 0
  }

  // The merge of two levels for a compaction.
  method StartCombine(hasher: Hasher, ssts: map<nat, Sst>, levels: seq<seq<nat>>, src: nat) returns (m: TwoMerge)
    requires Storage(hasher, ssts, levels) && AllListed(hasher, ssts, levels) && src + 1 < |levels|
    ensures OnMerge(hasher, m) && m.bound == 0 && m.keepAll
    ensures Combines(MergeRest(hasher, m), Part(hasher, ssts, levels[src]), Part(hasher, ssts, levels[src + 1]))
  {
    assert LevelOk(hasher, ssts, levels, src) && LevelOk(hasher, ssts, levels, src + 1);
    var a;
    if src == 0 {
      a := StartTop(hasher, ssts, levels[0]);
    } else {
      a := StartDeep(hasher, ssts, levels[src]);
    }
    var b := StartDeep(hasher, ssts, levels[src + 1]);
    m := StartMerge(hasher, a, b, 0, true);
    ghost var upper, lower := Part(hasher, ssts, levels[src]), Part(hasher, ssts, levels[src + 1]);
    LevelIsNarrow(hasher, ssts, levels[src]);
    LevelIsNarrow(hasher, ssts, levels[src + 1]);
    CombinesMerged(ChildRest(hasher, a), upper, lower);
  }

  lemma CombinesMerged(s: seq<Rec>, upper: seq<Rec>, lower: seq<Rec>)
    requires Ordered(s) && SameGroups(s, upper) && Ordered(lower) && Narrow(upper) && Narrow(lower)
    ensures Combines(Merged(s, lower, 0, true), upper, lower)
  {
    MergedOrdered(s, lower);
    forall k, v
      ensures Group(Merged(s, lower, 0, true), k, v) == Group(upper, k, v) + Group(lower, k, v)
    {
      MergedGroups(s, lower, k, v);
    }
    forall i | 0 <= i < |Merged(s, lower, 0, true)|
      ensures Merged(s, lower, 0, true)[i].ver < TWO64
    {
      var r := Merged(s, lower, 0, true)[i];
      assert r in Merged(s, lower, 0, true);
      if r in s {
        InGroup(s, r);
        FromGroup(upper, r.key, r.ver);
      }
    }
  }

  lemma {:induction false} InGroup(s: seq<Rec>, r: Rec)
    requires r in s
    ensures Group(s, r.key, r.ver) != []
  {
    if s[0] != r {
      InGroup(s[1..], r);
    }
  }

  lemma FromGroup(s: seq<Rec>, k: Key, v: nat)
    requires Group(s, k, v) != []
    ensures exists i :: 0 <= i < |s| && s[i].ver == v
  {
    var i := GroupHead(s, k, v);
  }

  // ---- Replacing two levels by the merged one ----

  function IdsFrom(first: nat, n: nat): (ids: seq<nat>)
    ensures |ids| == n && forall i :: 0 <= i < n ==> ids[i] == first + i
  {
    seq(n, i => first + i)
  }

  // The level lists and the table map once the new tables replace two levels.
  ghost predicate Replaced(ssts: map<nat, Sst>, levels: seq<seq<nat>>, src: nat, news: seq<Sst>, first: nat,
                           ssts': map<nat, Sst>, levels': seq<seq<nat>>)
    requires src + 1 < |levels|
  {
    && levels' == levels[src := []][src + 1 := IdsFrom(first, |news|)]
    && (forall id :: first <= id < first + |news| ==> id in ssts' && ssts'[id] == news[id - first])
    && (forall id :: id in ssts && id < first && id !in levels[src] && id !in levels[src + 1] ==> id in ssts' && ssts'[id] == ssts[id])
    && (forall id :: id in ssts' ==>
                       (id in ssts && ssts'[id] == ssts[id] && id !in levels[src] && id !in levels[src + 1]) || first <= id < first + |news|)
  }

  // A level none of whose tables changed.
  lemma LevelKept(hasher: Hasher, ssts: map<nat, Sst>, ssts': map<nat, Sst>, ids: seq<nat>)
    requires Listed(hasher, ssts, ids) && forall i :: 0 <= i < |ids| ==> ids[i] in ssts' && ssts'[ids[i]] == ssts[ids[i]]
    ensures Listed(hasher, ssts', ids) && RunOf(hasher, ssts', ids) == RunOf(hasher, ssts, ids)
  {
    forall i | 0 <= i < |ids|
      ensures Known(hasher, ssts', ids[i])
    {
      assert Known(hasher, ssts, ids[i]);
    }
  }

  lemma OtherLevelKept(hasher: Hasher, ssts: map<nat, Sst>, levels: seq<seq<nat>>, src: nat, news: seq<Sst>, first: nat,
                       ssts': map<nat, Sst>, levels': seq<seq<nat>>, l: nat)
    requires Storage(hasher, ssts, levels) && src + 1 < |levels| && Replaced(ssts, levels, src, news, first, ssts', levels')
    requires (forall id :: id in ssts ==> id < first) && l < |levels| && l != src && l != src + 1
    ensures levels'[l] == levels[l] && Listed(hasher, ssts, levels[l])
    ensures Listed(hasher, ssts', levels[l]) && RunOf(hasher, ssts', levels[l]) == RunOf(hasher, ssts, levels[l])
    ensures LevelOk(hasher, ssts', levels', l)
  {
    assert LevelOk(hasher, ssts, levels, l);
    forall i | 0 <= i < |levels[l]|
      ensures levels[l][i] in ssts' && ssts'[levels[l][i]] == ssts[levels[l][i]]
    {
      assert Known(hasher, ssts, levels[l][i]) && levels[l][i] in levels[l];
    }
    LevelKept(hasher, ssts, ssts', levels[l]);
  }

  lemma NewLevelOk(hasher: Hasher, ssts: map<nat, Sst>, levels: seq<seq<nat>>, src: nat, news: seq<Sst>, first: nat,
                   ssts': map<nat, Sst>, levels': seq<seq<nat>>)
    requires src + 1 < |levels| && Replaced(ssts, levels, src, news, first, ssts', levels')
    requires Level(hasher, news) && Numbered(news, first, first + |news|)
    ensures DeepLevel(hasher, ssts', levels'[src + 1]) && RunOf(hasher, ssts', levels'[src + 1]) == Run(hasher, news)
    ensures LevelOk(hasher, ssts', levels', src) && LevelOk(hasher, ssts', levels', src + 1)
  {
    var ids := levels'[src + 1];
    forall i | 0 <= i < |ids|
      ensures Known(hasher, ssts', ids[i])
    {
      assert IsTable(hasher, news[i]);
    }
    assert RunOf(hasher, ssts', ids) == Run(hasher, news);
    assert levels'[src] == [] && Listed(hasher, ssts', []);
  }

  lemma SharedStaysApart(hasher: Hasher, ssts: map<nat, Sst>, levels: seq<seq<nat>>, src: nat, first: nat, n: nat)
    requires Storage(hasher, ssts, levels) && src + 1 < |levels| && forall id :: id in ssts ==> id < first
    ensures NoSharedIds(levels[src := []][src + 1 := IdsFrom(first, n)])
  {
    var levels' := levels[src := []][src + 1 := IdsFrom(first, n)];
    forall a, b, id | 0 <= a < b < |levels'| && id in levels'[a]
      ensures id !in levels'[b]
    {
      OldIds(hasher, ssts, levels, a, first);
      OldIds(hasher, ssts, levels, b, first);
    }
  }

  lemma OldIds(hasher: Hasher, ssts: map<nat, Sst>, levels: seq<seq<nat>>, l: nat, first: nat)
    requires Storage(hasher, ssts, levels) && l < |levels| && forall id :: id in ssts ==> id < first
    ensures forall id :: id in levels[l] ==> id < first
  {
    assert LevelOk(hasher, ssts, levels, l);
    forall id | id in levels[l]
      ensures id < first
    {
      var i :| 0 <= i < |levels[l]| && levels[l][i] == id;
      assert Known(hasher, ssts, levels[l][i]);
    }
  }

  lemma ReplacedStorage(hasher: Hasher, ssts: map<nat, Sst>, levels: seq<seq<nat>>, src: nat, news: seq<Sst>, first: nat,
                        ssts': map<nat, Sst>, levels': seq<seq<nat>>)
    requires Storage(hasher, ssts, levels) && src + 1 < |levels|
    requires Replaced(ssts, levels, src, news, first, ssts', levels') && forall id :: id in ssts ==> id < first
    requires Level(hasher, news) && Numbered(news, first, first + |news|)
    ensures Storage(hasher, ssts', levels') && AllListed(hasher, ssts', levels')
  {
    SharedStaysApart(hasher, ssts, levels, src, first, |news|);
    forall l: nat | l < |levels'|
      ensures LevelOk(hasher, ssts', levels', l)
    {
      if l == src || l == src + 1 {
        NewLevelOk(hasher, ssts, levels, src, news, first, ssts', levels');
      } else {
        OtherLevelKept(hasher, ssts, levels, src, news, first, ssts', levels', l);
      }
    }
    StorageListed(hasher, ssts', levels');
  }

  lemma OtherPart(hasher: Hasher, ssts: map<nat, Sst>, levels: seq<seq<nat>>, src: nat, news: seq<Sst>, first: nat,
                  ssts': map<nat, Sst>, levels': seq<seq<nat>>, l: nat)
    requires Storage(hasher, ssts, levels) && AllListed(hasher, ssts, levels) && src + 1 < |levels|
    requires Replaced(ssts, levels, src, news, first, ssts', levels') && AllListed(hasher, ssts', levels')
    requires (forall id :: id in ssts ==> id < first) && l < |levels| && l != src && l != src + 1
    ensures Parts(hasher, ssts', levels')[l] == Parts(hasher, ssts, levels)[l]
  {
    OtherLevelKept(hasher, ssts, levels, src, news, first, ssts', levels', l);
  }

  // Replacing keeps every record, and every group of records of one key and version in
  // its order.
  lemma ReplacedKeepsAll(hasher: Hasher, ssts: map<nat, Sst>, levels: seq<seq<nat>>, src: nat, news: seq<Sst>, first: nat,
                         ssts': map<nat, Sst>, levels': seq<seq<nat>>)
    requires Storage(hasher, ssts, levels) && AllListed(hasher, ssts, levels) && src + 1 < |levels|
    requires Replaced(ssts, levels, src, news, first, ssts', levels') && forall id :: id in ssts ==> id < first
    requires Level(hasher, news) && Numbered(news, first, first + |news|)
    requires Combines(Flat(Run(hasher, news)), Part(hasher, ssts, levels[src]), Part(hasher, ssts, levels[src + 1]))
    ensures Storage(hasher, ssts', levels') && AllListed(hasher, ssts', levels')
    ensures SameGroups(Stored(hasher, ssts', levels'), Stored(hasher, ssts, levels))
  {
    ReplacedStorage(hasher, ssts, levels, src, news, first, ssts', levels');
    var parts, parts' := Parts(hasher, ssts, levels), Parts(hasher, ssts', levels');
    forall l | 0 <= l < |levels| && l != src && l != src + 1
      ensures parts'[l] == parts[l]
    {
      OtherPart(hasher, ssts, levels, src, news, first, ssts', levels', l);
    }
    NewLevelOk(hasher, ssts, levels, src, news, first, ssts', levels');
    assert parts'[src] == [];
    TwoParts(parts, parts', src);
  }

  lemma TwoParts(parts: seq<seq<Rec>>, parts': seq<seq<Rec>>, src: nat)
    requires |parts| == |parts'| && src + 1 < |parts| && parts'[src] == []
    requires forall l :: 0 <= l < |parts| && l != src && l != src + 1 ==> parts'[l] == parts[l]
    requires forall k, v :: Group(parts'[src + 1], k, v) == Group(parts[src], k, v) + Group(parts[src + 1], k, v)
    ensures SameGroups(Flat(parts'), Flat(parts))
  {
    var front, back := parts[..src], parts[src + 2..];
    SplitParts(parts, src);
    SplitParts(parts', src);
    assert parts'[..src] == front && parts'[src + 2..] == back;
    FlatFour(front, parts[src], parts[src + 1], back);
    FlatFour(front, parts'[src], parts'[src + 1], back);
    SameFour(Flat(front), parts[src], parts[src + 1], parts'[src + 1], Flat(back));
  }

  lemma SameFour(front: seq<Rec>, a: seq<Rec>, b: seq<Rec>, merged: seq<Rec>, back: seq<Rec>)
    requires forall k, v :: Group(merged, k, v) == Group(a, k, v) + Group(b, k, v)
    ensures SameGroups(front + ([] + (merged + back)), front + (a + (b + back)))
  {
    forall k, v
      ensures Group(front + ([] + (merged + back)), k, v) == Group(front + (a + (b + back)), k, v)
    {
      GroupFour(front, a, b, back, k, v);
      GroupFour(front, [], merged, back, k, v);
    }
  }

  lemma SplitParts(parts: seq<seq<Rec>>, src: nat)
    requires src + 1 < |parts|
    ensures parts == parts[..src] + ([parts[src]] + ([parts[src + 1]] + parts[src + 2..]))
  {
  }

  lemma FlatFour(front: seq<seq<Rec>>, a: seq<Rec>, b: seq<Rec>, back: seq<seq<Rec>>)
    ensures Flat(front + ([a] + ([b] + back))) == Flat(front) + (a + (b + Flat(back)))
  {
    FlatAppend(front, [a] + ([b] + back));
    FlatAppend([a], [b] + back);
    FlatAppend([b], back);
    FlatOne(a);
    FlatOne(b);
  }

  lemma GroupFour(front: seq<Rec>, a: seq<Rec>, b: seq<Rec>, back: seq<Rec>, k: Key, v: nat)
    ensures Group(front + (a + (b + back)), k, v) ==
              Group(front, k, v) + (Group(a, k, v) + Group(b, k, v)) + Group(back, k, v)
  {
    GroupAppend(front, a + (b + back), k, v);
    GroupAppend(a, b + back, k, v);
    GroupAppend(b, back, k, v);
  }
}
