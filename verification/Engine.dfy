// The storage engine: memory tables, levels of tables, flush and compaction.

module Engines {
  import opened Bytes
  import opened Mvcc
  import opened Bloom
  import opened SstMeta
  import opened Ssts
  import opened Streams
  import opened TableIterators
  import opened Merges
  import opened Storages
  import opened Compactions
  import opened MemTables
  import Collecting
  import Heaps
  import Scans
  import SstBuilders

  // What writing new tables changed: nothing but the free ids.  Spoilt: some table has
  // outgrown its offsets; the program takes it for Made.
  datatype GenOutcome = Made(ssts: seq<Sst>) | Spoilt(ssts: seq<Sst>) | Broke(error: Error)

  // The stream cut into the tables of one deep level, numbered on from the first free
  // id; or a record exceeded a limit of the block format.
  ghost predicate Makes(hasher: Hasher, r: GenOutcome, stream: seq<Rec>, first: nat, next: nat)
  {
    match r
    case Made(ssts) => Level(hasher, ssts) && Flat(Run(hasher, ssts)) == stream && Numbered(ssts, first, next)
    case Spoilt(ssts) => Numbered(ssts, first, next) && exists i :: 0 <= i < |ssts| && !IsTable(hasher, ssts[i])
    case Broke(error) => error == LengthError && first <= next
  }

  lemma AllMade(hasher: Hasher, news: seq<Sst>, stream: seq<Rec>, first: nat, next: nat)
    requires AllTables(hasher, news) && CutSoFar(stream, Run(hasher, news), [], []) && Numbered(news, first, next)
    ensures Makes(hasher, Made(news), stream, first, next)
  {
    CutAll(stream, Run(hasher, news));
  }

  // The tables written so far: each stores its stretch of the stream, or one of them
  // cannot be read.
  ghost predicate AllWritten(hasher: Hasher, news: seq<Sst>, run: seq<seq<Rec>>, whole: bool)
  {
    if whole then AllTables(hasher, news) && Run(hasher, news) == run
    else exists i :: 0 <= i < |news| && !IsTable(hasher, news[i])
  }

  // The tables written so far, their numbers, and that at a target of 2^32 bytes no
  // table cut by size can be read.
  ghost predicate Listing(hasher: Hasher, news: seq<Sst>, run: seq<seq<Rec>>, whole: bool, first: nat, next: nat, target: nat)
  {
    forall n :: Opened(n) ==>
                  Numbered(news, first, next) && AllWritten(hasher, news, run, whole) && (target >= TWO32 && whole ==> news == [])
  }

  // In order, and with versions that can be written down.
  ghost predicate Writable(stream: seq<Rec>)
  {
    forall n :: Opened(n) ==> Ordered(stream) && Narrow(stream)
  }

  lemma OneIsWritable(stream: seq<Rec>, run: seq<seq<Rec>>, open: seq<Rec>, rest: seq<Rec>)
    requires Writable(stream) && CutSoFar(stream, run, open, rest) && rest != []
    ensures CutSoFar(stream, run, open + [rest[0]], rest[1..]) && rest[0].ver < TWO64
    ensures open != [] ==> !RecLess(rest[0], open[|open| - 1])
  {
    assert Ordered(stream) && Narrow(stream) by {
      assert Opened(0);
    }
    TakeOne(stream, run, open, rest);
  }

  lemma OpenListing(hasher: Hasher, news: seq<Sst>, run: seq<seq<Rec>>, whole: bool, first: nat, next: nat, target: nat)
    requires Listing(hasher, news, run, whole, first, next, target)
    ensures Numbered(news, first, next) && AllWritten(hasher, news, run, whole) && (target >= TWO32 && whole ==> news == [])
  {
    assert Opened(0);
  }

  lemma ListingRises(hasher: Hasher, news: seq<Sst>, run: seq<seq<Rec>>, whole: bool, first: nat, next: nat, target: nat)
    requires Listing(hasher, news, run, whole, first, next, target)
    ensures first <= next
  {
    assert Opened(0);
  }

  lemma CloseListing(hasher: Hasher, news: seq<Sst>, run: seq<seq<Rec>>, whole: bool, first: nat, next: nat, target: nat)
    requires Numbered(news, first, next) && AllWritten(hasher, news, run, whole) && (target >= TWO32 ==> !whole)
    ensures Listing(hasher, news, run, whole, first, next, target)
  {
  }

  lemma ListingMore(hasher: Hasher, news: seq<Sst>, run: seq<seq<Rec>>, whole: bool, first: nat, next: nat, target: nat,
                    sst: Sst, fits: bool, s: seq<Rec>)
    requires Listing(hasher, news, run, whole, first, next, target) && sst.id == next
    requires (IsTable(hasher, sst) <==> fits) && (fits ==> RecordsOf(hasher, sst) == s)
    ensures Numbered(news + [sst], first, next + 1) && AllWritten(hasher, news + [sst], run + [s], whole && fits)
    ensures target >= TWO32 && whole && fits ==> |news + [sst]| == 1
  {
    assert Opened(0);
    WrittenMore(hasher, news, run, whole, sst, fits, s);
  }

  lemma WrittenMore(hasher: Hasher, news: seq<Sst>, run: seq<seq<Rec>>, whole: bool, sst: Sst, fits: bool, s: seq<Rec>)
    requires AllWritten(hasher, news, run, whole) && (IsTable(hasher, sst) <==> fits) && (fits ==> RecordsOf(hasher, sst) == s)
    ensures AllWritten(hasher, news + [sst], run + [s], whole && fits)
  {
    var more := news + [sst];
    if whole && fits {
      RunAppend(hasher, news, sst);
    } else if whole {
      assert !IsTable(hasher, more[|news|]);
    } else {
      var i :| 0 <= i < |news| && !IsTable(hasher, news[i]);
      assert !IsTable(hasher, more[i]);
    }
  }

  lemma WrittenMakes(hasher: Hasher, news: seq<Sst>, run: seq<seq<Rec>>, whole: bool, stream: seq<Rec>, first: nat, next: nat)
    requires AllWritten(hasher, news, run, whole) && CutSoFar(stream, run, [], []) && Numbered(news, first, next)
    ensures Makes(hasher, if whole then Made(news) else Spoilt(news), stream, first, next)
  {
    if whole {
      AllMade(hasher, news, stream, first, next);
    }
  }

  // What flush comes to.  Done names the largest version written and the markers seen.
  datatype FlushResult =
    | Idle
    | Done(maxVer: nat, markers: seq<nat>)
    | FlushFailed(error: Error)

  // Some table has outgrown its offsets; the program takes it for Done.
  predicate Spoils(r: FlushResult)
  {
    r == FlushFailed(Oversize)
  }

  // The records moved out of memory, oldest table; what flush reports about them.
  ghost predicate Moves(before: seq<Rec>, after: seq<Rec>, moved: seq<Rec>, r: FlushResult)
    requires r.Done?
  {
    match r
    case Done(maxVer, markers) =>
      && before == after + moved && moved != [] && markers == Markers(moved)
      && (forall i :: 0 <= i < |moved| ==> moved[i].ver <= maxVer) && (exists i :: 0 <= i < |moved| && moved[i].ver == maxVer)
  }

  lemma MovesTable(hasher: Hasher, sst: Sst, before: seq<Rec>, after: seq<Rec>, r: FlushResult)
    requires IsTable(hasher, sst) && before == after + RecordsOf(hasher, sst) && r.Done?
    requires r.markers == Markers(RecordsOf(hasher, sst)) && r.maxVer == sst.maxVer
    requires SstBuilders.Dated(sst, RecordsOf(hasher, sst))
    ensures Moves(before, after, RecordsOf(hasher, sst), r)
  {
    TableShape(hasher, sst);
  }

  lemma SameBehind(front: seq<Rec>, s: seq<Rec>, t: seq<Rec>)
    requires SameGroups(s, t)
    ensures SameGroups(front + s, front + t)
  {
    forall k, v
      ensures Group(front + s, k, v) == Group(front + t, k, v)
    {
      GroupAppend(front, s, k, v);
      GroupAppend(front, t, k, v);
    }
  }

  // The written records stay on top when everything below is rearranged.
  lemma AddsRearranged(now: seq<Rec>, mid: seq<Rec>, was: seq<Rec>, rs: seq<Rec>)
    requires SameGroups(now, mid) && Adds(mid, was, rs)
    ensures Adds(now, was, rs)
  {
    forall q
      ensures Best(now, q) == Best(Stack(rs, was), q)
    {
      SameGroupsSameBest(now, mid, q);
    }
  }

  lemma AddsBehind(now: seq<Rec>, was: seq<Rec>, rs: seq<Rec>, rest: seq<Rec>)
    requires Adds(now, was, rs)
    ensures Adds(now + rest, was + rest, rs)
  {
    StackBehind(rs, was, rest);
    forall q
      ensures Best(now + rest, q) == Best(Stack(rs, was + rest), q)
    {
      BestAppend(now, rest, q);
      BestAppend(Stack(rs, was), rest, q);
    }
  }

  lemma {:induction false} StackBehind(rs: seq<Rec>, was: seq<Rec>, rest: seq<Rec>)
    ensures Stack(rs, was + rest) == Stack(rs, was) + rest
  {
    if rs != [] {
      assert [rs[0]] + (was + rest) == [rs[0]] + was + rest;
      StackBehind(rs[1..], [rs[0]] + was, rest);
    }
  }

  // A table in front of level 0.
  lemma PushedFront(hasher: Hasher, ssts: map<nat, Sst>, levels: seq<seq<nat>>, id: nat, sst: Sst)
    requires Storage(hasher, ssts, levels) && AllListed(hasher, ssts, levels) && forall i :: i in ssts ==> i < id
    requires IsTable(hasher, sst) && sst.id == id && Strict(RecordsOf(hasher, sst))
    ensures var ssts', levels' := ssts[id := sst], levels[0 := [id] + levels[0]];
            && Storage(hasher, ssts', levels') && AllListed(hasher, ssts', levels')
            && Stored(hasher, ssts', levels') == RecordsOf(hasher, sst) + Stored(hasher, ssts, levels)
  {
    var ssts', levels' := ssts[id := sst], levels[0 := [id] + levels[0]];
    forall l: nat | l < |levels|
      ensures Listed(hasher, ssts, levels[l]) && Listed(hasher, ssts', levels[l])
      ensures RunOf(hasher, ssts', levels[l]) == RunOf(hasher, ssts, levels[l])
      ensures LevelOk(hasher, ssts', levels', l)
    {
      LevelPast(hasher, ssts, levels, id, sst, l);
    }
    FrontIdsApart(hasher, ssts, levels, id);
    StorageListed(hasher, ssts', levels');
    FrontOfTop(hasher, ssts', levels[0], id);
    FrontParts(Parts(hasher, ssts, levels), Parts(hasher, ssts', levels'), RecordsOf(hasher, sst));
  }

  lemma FrontParts(parts: seq<seq<Rec>>, parts': seq<seq<Rec>>, s: seq<Rec>)
    requires |parts| == |parts'| > 0 && parts'[0] == s + parts[0] && forall l :: 0 < l < |parts| ==> parts'[l] == parts[l]
    ensures Flat(parts') == s + Flat(parts)
  {
    assert parts' == [s + parts[0]] + parts[1..];
    assert parts == [parts[0]] + parts[1..];
    FlatFront(s, parts[0], parts[1..]);
  }

  lemma FrontIdsApart(hasher: Hasher, ssts: map<nat, Sst>, levels: seq<seq<nat>>, id: nat)
    requires Storage(hasher, ssts, levels) && forall i :: i in ssts ==> i < id
    ensures NoSharedIds(levels[0 := [id] + levels[0]])
  {
    var all := levels[0 := [id] + levels[0]];
    forall a, b | 0 <= a < b < |all|
      ensures forall i :: i in all[a] ==> i !in all[b]
    {
      OldIds(hasher, ssts, levels, b, id);
    }
  }

  lemma LevelPast(hasher: Hasher, ssts: map<nat, Sst>, levels: seq<seq<nat>>, id: nat, sst: Sst, l: nat)
    requires Storage(hasher, ssts, levels) && l < |levels| && forall i :: i in ssts ==> i < id
    requires IsTable(hasher, sst) && sst.id == id && Strict(RecordsOf(hasher, sst))
    ensures var ssts', levels' := ssts[id := sst], levels[0 := [id] + levels[0]];
            && Listed(hasher, ssts, levels[l]) && Listed(hasher, ssts', levels[l])
            && RunOf(hasher, ssts', levels[l]) == RunOf(hasher, ssts, levels[l])
            && LevelOk(hasher, ssts', levels', l)
  {
    assert LevelOk(hasher, ssts, levels, l);
    OldIds(hasher, ssts, levels, l, id);
    var ssts' := ssts[id := sst];
    forall i | 0 <= i < |levels[l]|
      ensures levels[l][i] in ssts' && ssts'[levels[l][i]] == ssts[levels[l][i]] && levels[l][i] < id
    {
      assert Known(hasher, ssts, levels[l][i]) && levels[l][i] in levels[l];
    }
    LevelKept(hasher, ssts, ssts', levels[l]);
    if l == 0 {
      FrontOfTop(hasher, ssts', levels[0], id);
    }
  }

  lemma FlatFront(a: seq<Rec>, b: seq<Rec>, rest: seq<seq<Rec>>)
    ensures Flat([a + b] + rest) == a + Flat([b] + rest)
  {
    FlatAppend([a + b], rest);
    FlatAppend([b], rest);
    FlatOne(a + b);
    FlatOne(b);
    assert a + b + Flat(rest) == a + (b + Flat(rest));
  }

  lemma FrontOfTop(hasher: Hasher, ssts: map<nat, Sst>, ids: seq<nat>, id: nat)
    requires Listed(hasher, ssts, ids) && Known(hasher, ssts, id)
    ensures Listed(hasher, ssts, [id] + ids)
    ensures RunOf(hasher, ssts, [id] + ids) == [RecordsOf(hasher, ssts[id])] + RunOf(hasher, ssts, ids)
    ensures Part(hasher, ssts, [id] + ids) == RecordsOf(hasher, ssts[id]) + Part(hasher, ssts, ids)
  {
    var all := [id] + ids;
    forall i | 0 <= i < |all|
      ensures Known(hasher, ssts, all[i])
    {
      if i > 0 {
        assert Known(hasher, ssts, ids[i - 1]);
      }
    }
    FlatAppend([RecordsOf(hasher, ssts[id])], RunOf(hasher, ssts, ids));
    FlatOne(RecordsOf(hasher, ssts[id]));
  }

  lemma NothingStored(hasher: Hasher)
    ensures Storage(hasher, map[], [[]]) && AllListed(hasher, map[], [[]]) && Stored(hasher, map[], [[]]) == []
  {
    assert LevelOk(hasher, map[], [[]], 0);
    StorageListed(hasher, map[], [[]]);
    assert Part(hasher, map[], []) == [];
    assert Parts(hasher, map[], [[]]) == [[]];
    FlatOne<Rec>([]);
  }

  // Some table a storage knows cannot be read.
  ghost predicate HasUnreadable(hasher: Hasher, ssts: map<nat, Sst>, levels: seq<seq<nat>>)
  {
    exists l, i :: 0 <= l < |levels| && 0 <= i < |levels[l]| && levels[l][i] in ssts && !IsTable(hasher, ssts[levels[l][i]])
  }

  lemma UnreadableIsNoStorage(hasher: Hasher, ssts: map<nat, Sst>, levels: seq<seq<nat>>)
    requires HasUnreadable(hasher, ssts, levels)
    ensures !AllListed(hasher, ssts, levels)
  {
    var l, i :| 0 <= l < |levels| && 0 <= i < |levels[l]| && levels[l][i] in ssts && !IsTable(hasher, ssts[levels[l][i]]);
    assert !Known(hasher, ssts, levels[l][i]);
  }

  // The tables by their ids, and the id the next one gets.
  datatype Registry = Registry(tables: map<nat, Sst>, next: nat)

  // Tables that are still there are what they were; the others have ids given out since,
  // and know them.
  ghost predicate Issues(was: Registry, now: Registry)
  {
    match now
    case Registry(tables, next) =>
      was.next <= next &&
      forall id :: id in tables ==>
                     (id in was.tables && tables[id] == was.tables[id]) || (was.next <= id < next && tables[id].id == id)
  }

  lemma IssuesTwice(a: Registry, b: Registry, c: Registry)
    requires Issues(a, b) && Issues(b, c)
    ensures Issues(a, c)
  {
    forall id | id in c.tables
      ensures (id in a.tables && c.tables[id] == a.tables[id]) || (a.next <= id < c.next && c.tables[id].id == id)
    {
      assert id in b.tables && c.tables[id] == b.tables[id] ==> (id in a.tables && b.tables[id] == a.tables[id]) || a.next <= id;
    }
  }

  lemma IssuesOne(was: Registry, id: nat, sst: Sst)
    requires was.next == id && sst.id == id
    ensures Issues(was, Registry(was.tables[id := sst], id + 1))
  {
  }

  // A compaction's tables have ids of their own.
  lemma IssuesReplaced(ssts: map<nat, Sst>, levels: seq<seq<nat>>, src: nat, news: seq<Sst>, first: nat, next: nat,
                       ssts': map<nat, Sst>, levels': seq<seq<nat>>)
    requires src + 1 < |levels| && Replaced(ssts, levels, src, news, first, ssts', levels') && Numbered(news, first, next)
    requires forall id :: id in ssts ==> id < first
    ensures Issues(Registry(ssts, first), Registry(ssts', next))
  {
    forall id | id in ssts'
      ensures (id in ssts && ssts'[id] == ssts[id]) || (first <= id < next && ssts'[id].id == id)
    {
      if id >= first {
        assert news[id - first].id == first + (id - first);
      }
    }
  }

  class LSMEngine {
    const hasher: Hasher
    const blockSize: nat
    // How many tables a level may have before it is compacted.
    const ratio: nat
    const memLimit: nat
    const totalLimit: nat
    const memtable: MemTable

    // The Bloom filter's parameters; its sizing is left open.
    const expected: u64
    const rate: u64
    const numBits: u64
    const numHashes: u64

    var ssts: map<nat, Sst>
    var levels: seq<seq<nat>>
    var nextSstId: nat
    var curMaxLevel: nat

    constructor (hasher: Hasher, blockSize: nat, ratio: nat, memLimit: nat, totalLimit: nat, maxLevel: nat,
                 expected: u64, rate: u64, numBits: u64, numHashes: u64)
      requires ratio >= 1 && maxLevel >= 1 && expected != 0 && 0 < rate < ONE_BITS && numBits != 0 && numHashes != 0
      ensures Valid() && All() == [] && levels == [[]] && ssts == map[]
      ensures fresh(memtable) && fresh(memtable.mine + memtable.theirs) && memtable.maxLevel == maxLevel
      ensures this.hasher == hasher && this.blockSize == blockSize && this.ratio == ratio
    {
      this.hasher, this.blockSize, this.ratio, this.memLimit, this.totalLimit := hasher, blockSize, ratio, memLimit, totalLimit;
      this.expected, this.rate, this.numBits, this.numHashes := expected, rate, numBits, numHashes;
      ssts, levels, nextSstId, curMaxLevel := map[], [[]], 1, 0;
      var table := new MemTable(memLimit, maxLevel);
      memtable := table;
      new;
      NothingStored(hasher);
      assert Disk();
      assert OnDisk() == [];
      assert memtable.Records() + [] == [];
    }

    ghost function Registered(): Registry
      reads this
    {
      Registry(ssts, nextSstId)
    }

    ghost predicate Config()
    {
      ratio >= 1 && expected != 0 && 0 < rate < ONE_BITS && numBits != 0 && numHashes != 0
    }

    ghost predicate Disk()
      reads this
    {
      && Config() && Storage(hasher, ssts, levels) && AllListed(hasher, ssts, levels)
      && forall id :: id in ssts ==> id < nextSstId
    }

    ghost function OnDisk(): seq<Rec>
      reads this
      requires Disk()
    {
      Stored(hasher, ssts, levels)
    }

    method NewBuilder() returns (b: SstBuilders.SSTBuilder)
      requires Config()
      ensures fresh(b) && fresh(b.block) && fresh(b.filter) && b.hasher == hasher
      ensures b.Valid() && b.open == [] && b.Records() == []
    {
      var filter := new BloomFilter(hasher, expected, rate, numBits, numHashes);
      b := new SstBuilders.SSTBuilder(hasher, blockSize, filter);
    }

    // Writes the merged stream into tables of at least the target size, none of them cut
    // within a key and none empty.
    method GenSstFromIter(iter: TwoMerge, target: nat) returns (r: GenOutcome)
      requires Config() && OnMerge(hasher, iter) && Ordered(MergeRest(hasher, iter)) && Narrow(MergeRest(hasher, iter))
      modifies this`nextSstId
      ensures Makes(hasher, r, MergeRest(hasher, iter), old(nextSstId), nextSstId)
      ensures target >= TWO32 && r.Made? ==> |r.ssts| <= 1
    {
      ghost var stream, first := MergeRest(hasher, iter), nextSstId;
      var added, news, whole, builder, pending;
      ghost var run;
      added, news, whole, run, builder, pending := Fill(iter, stream, target);
      if added.Err? {
        return Broke(added.error);
      }
      OpenListing(hasher, news, run, whole, first, nextSstId, target);
      if pending {
        news, whole, run := CutTable(builder, news, whole, run, stream, [], first, target);
      }
      WrittenMakes(hasher, news, run, whole, stream, first, nextSstId);
      return if whole then Made(news) else Spoilt(news);
    }

    // All records into builders, the full ones built.
    method Fill(iter: TwoMerge, ghost stream: seq<Rec>, target: nat)
      returns (r: Result<()>, news: seq<Sst>, whole: bool, ghost run: seq<seq<Rec>>, builder: SstBuilders.SSTBuilder, pending: bool)
      requires Config() && MergeLeft(hasher, iter, stream) && Writable(stream)
      modifies this`nextSstId
      ensures r.Err? ==> r.error == LengthError && old(nextSstId) <= nextSstId
      ensures r.Ok? ==> FreshBuilding(builder) && (pending <==> builder.Records() != [])
      ensures r.Ok? ==> Listing(hasher, news, run, whole, old(nextSstId), nextSstId, target)
      ensures r.Ok? ==> CutSoFar(stream, run, builder.Records(), [])
    {
      var it := iter;
      news, whole, run, pending := [], true, [], false;
      builder := NewBuilder();
      CutNothing(stream);
      ghost var rest := stream;
      while MergeValid(it)
        invariant MergeLeft(hasher, it, rest) && CutSoFar(stream, run, builder.Records(), rest)
        invariant FreshBuilding(builder) && (pending <==> builder.Records() != [])
        invariant Listing(hasher, news, run, whole, old(nextSstId), nextSstId, target)
        decreases |rest|
      {
        r, it, news, whole, run, builder, pending :=
          Advance(builder, it, rest, news, whole, run, stream, old(nextSstId), target);
        if r.Err? {
          return;
        }
        rest := rest[1..];
      }
      LeftOver(hasher, it, rest);
      r := Ok(());
    }

    // The next record into the builder, and the builder into a table if it is full and
    // the key does not go on.
    method Advance(full: SstBuilders.SSTBuilder, it: TwoMerge, ghost rest: seq<Rec>, news: seq<Sst>, whole: bool,
                   ghost run: seq<seq<Rec>>, ghost stream: seq<Rec>, ghost first: nat, target: nat)
      returns (r: Result<()>, next: TwoMerge, more: seq<Sst>, still: bool, ghost runs: seq<seq<Rec>>,
               builder: SstBuilders.SSTBuilder, pending: bool)
      requires Config() && Building(full) && Writable(stream)
      requires MergeLeft(hasher, it, rest) && MergeValid(it) && CutSoFar(stream, run, full.Records(), rest)
      requires Listing(hasher, news, run, whole, first, nextSstId, target)
      modifies this`nextSstId, full, full.block, full.filter
      ensures rest != [] && MergeLeft(hasher, next, rest[1..])
      ensures r.Err? ==> r.error == LengthError && first <= nextSstId
      ensures r.Ok? ==> CutSoFar(stream, runs, builder.Records(), rest[1..]) && Listing(hasher, more, runs, still, first, nextSstId, target)
      ensures r.Ok? ==> Building(builder) && (pending <==> builder.Records() != [])
      ensures r.Ok? ==> (builder == full || (fresh(builder) && fresh(builder.filter))) && (builder.block == old(full.block) || fresh(builder.block))
    {
      var same;
      r, next, same := TakeNext(full, it, rest, stream, run);
      more, still, runs, builder, pending := news, whole, run, full, true;
      if r.Err? {
        ListingRises(hasher, news, run, whole, first, nextSstId, target);
        return;
      }
      if !same && full.EstimatedSize() >= target {
        more, still, runs, builder := CutFull(full, news, whole, run, stream, rest[1..], first, target);
        pending := false;
      }
    }

    method CutFull(full: SstBuilders.SSTBuilder, news: seq<Sst>, whole: bool, ghost run: seq<seq<Rec>>,
                   ghost stream: seq<Rec>, ghost rest: seq<Rec>, ghost first: nat, ghost target: nat)
      returns (more: seq<Sst>, still: bool, ghost runs: seq<seq<Rec>>, builder: SstBuilders.SSTBuilder)
      requires Config() && Building(full) && full.Records() != [] && full.EstimatedSize() >= target
      requires Listing(hasher, news, run, whole, first, nextSstId, target)
      requires CutSoFar(stream, run, full.Records(), rest) && Writable(stream)
      requires rest == [] || rest[0].key != LastKey(full.Records())
      modifies this`nextSstId, full, full.block
      ensures Listing(hasher, more, runs, still, first, nextSstId, target) && CutSoFar(stream, runs, builder.Records(), rest)
      ensures FreshBuilding(builder) && builder.Records() == []
    {
      more, still, runs := CutTable(full, news, whole, run, stream, rest, first, target);
      CloseListing(hasher, more, runs, still, first, nextSstId, target);
      builder := NewBuilder();
    }

    twostate predicate FreshBuilding(new builder: SstBuilders.SSTBuilder)
      reads builder, builder.block, builder.filter
    {
      fresh(builder) && fresh(builder.block) && fresh(builder.filter) && Building(builder)
    }

    // A builder of this engine, whose last record is the last of its open block.
    ghost predicate Building(builder: SstBuilders.SSTBuilder)
      reads builder, builder.block, builder.filter
    {
      forall n :: Opened(n) ==> builder.Valid() && LastOpen(builder) && builder.hasher == hasher
    }

    lemma IsBuilding(builder: SstBuilders.SSTBuilder)
      requires Building(builder)
      ensures builder.Valid() && LastOpen(builder) && builder.hasher == hasher
    {
      assert Opened(0);
    }

    // One record from the stream into the builder, and whether its key goes on.
    method TakeNext(builder: SstBuilders.SSTBuilder, it: TwoMerge, ghost rest: seq<Rec>, ghost stream: seq<Rec>, ghost run: seq<seq<Rec>>)
      returns (r: Result<()>, next: TwoMerge, same: bool)
      requires MergeLeft(hasher, it, rest) && MergeValid(it) && Building(builder)
      requires CutSoFar(stream, run, builder.Records(), rest) && Writable(stream)
      modifies builder, builder.block, builder.filter
      ensures rest != [] && MergeLeft(hasher, next, rest[1..]) && (same <==> |rest| > 1 && rest[1].key == rest[0].key)
      ensures r.Err? ==> r.error == LengthError
      ensures r.Ok? ==> Building(builder) && (builder.block == old(builder.block) || fresh(builder.block))
      ensures r.Ok? ==> builder.Records() == old(builder.Records()) + [rest[0]] && CutSoFar(stream, run, builder.Records(), rest[1..])
    {
      var e;
      e, next := Merges.TakeNext(hasher, it, rest);
      OneIsWritable(stream, run, builder.Records(), rest);
      var after := Peek(hasher, next, rest[1..]);
      same := after.Some? && after.value.key == e.key;
      r := Feed(builder, e);
    }

    // The builder's last record is the last of its open block.
    ghost predicate LastOpen(builder: SstBuilders.SSTBuilder)
      reads builder
    {
      var s := builder.Records();
      if builder.open == [] then s == [] else s != [] && s[|s| - 1] == builder.open[|builder.open| - 1]
    }

    method Feed(builder: SstBuilders.SSTBuilder, e: Rec) returns (r: Result<()>)
      requires Building(builder) && e.ver < TWO64
      requires builder.Records() != [] ==> !RecLess(e, builder.Records()[|builder.Records()| - 1])
      modifies builder, builder.block, builder.filter
      ensures r.Err? ==> r.error == LengthError
      ensures r.Ok? ==> Building(builder) && (builder.block == old(builder.block) || fresh(builder.block))
      ensures r.Ok? ==> builder.Records() == old(builder.Records()) + [e]
    {
      assert Rec(e.key, e.value, e.ver) == e;
      IsBuilding(builder);
      r := builder.Add(e.key, e.value, e.ver);
    }

    method CutTable(builder: SstBuilders.SSTBuilder, news: seq<Sst>, whole: bool, ghost run: seq<seq<Rec>>,
                    ghost stream: seq<Rec>, ghost rest: seq<Rec>, ghost first: nat, ghost target: nat)
      returns (more: seq<Sst>, still: bool, ghost runs: seq<seq<Rec>>)
      requires Building(builder) && builder.Records() != []
      requires Listing(hasher, news, run, whole, first, nextSstId, target)
      requires CutSoFar(stream, run, builder.Records(), rest) && Writable(stream)
      requires rest == [] || rest[0].key != LastKey(builder.Records())
      modifies this`nextSstId, builder, builder.block
      ensures AllWritten(hasher, more, runs, still) && CutSoFar(stream, runs, [], rest) && Numbered(more, first, nextSstId)
      ensures target >= TWO32 && still ==> |more| == 1
      ensures still ==> old(builder.EstimatedSize()) < TWO32
    {
      assert Ordered(stream) by {
        assert Opened(0);
      }
      CutHere(stream, run, builder.Records(), rest);
      IsBuilding(builder);
      runs := run + [builder.Records()];
      var id := nextSstId;
      nextSstId := nextSstId + 1;
      ghost var parts, blocks, section := builder.Parts(), [], [];
      var fits := builder.FitsOffsets();
      var built;
      built, blocks, section := builder.Build(id);
      if fits {
        RecordsAre(hasher, built.value, parts);
      }
      ListingMore(hasher, news, run, whole, first, id, target, built.value, fits, Flat(parts));
      more, still := news + [built.value], whole && fits;
    }

    // ---- Compaction ----

    function TargetSize(level: nat): nat
    {
      if level == 0 then memLimit else memLimit * Power(ratio, level)
    }

    // Merges a level into the next one, which is itself compacted first if it is full.
    // LengthError: a record exceeded a limit of the block format; the levels are as they
    // were after the deeper compaction, if any.  Oversize: a table of 2^32 bytes of blocks
    // or more is in place of the old ones and cannot be read.
    method FullCompact(src: nat) returns (r: Result<()>)
      requires Disk() && src < |levels|
      modifies this`ssts, this`levels, this`nextSstId, this`curMaxLevel
      ensures r != Err(Oversize) ==> Disk() && SameGroups(OnDisk(), old(OnDisk())) && |levels| >= old(|levels|)
      ensures Issues(old(Registered()), Registered())
      ensures r == Err(Oversize) ==> HasUnreadable(hasher, ssts, levels)
      ensures r.Ok? ==> src < |levels| && levels[src] == []
      ensures r.Err? ==> r.error == LengthError || r.error == Oversize
      decreases |levels| - src
    {
      if src + 1 == |levels| {
        AddLevel();
      }
      if |levels[src + 1]| >= ratio {
        var inner := FullCompact(src + 1);
        if inner.Err? {
          return inner;
        }
      }
      ghost var mid, midway := OnDisk(), Registered();
      r := CompactOne(src);
      IssuesTwice(old(Registered()), midway, Registered());
      if r != Err(Oversize) {
        SameGroupsTrans(OnDisk(), mid, old(OnDisk()));
      }
    }

    // Touching a missing level makes an empty one.
    method AddLevel()
      requires Disk()
      modifies this`levels
      ensures Disk() && levels == old(levels) + [[]] && OnDisk() == old(OnDisk())
    {
      EmptyLevel(hasher, ssts, levels);
      levels := levels + [[]];
    }

    method CompactOne(src: nat) returns (r: Result<()>)
      requires Disk() && src + 1 < |levels|
      modifies this`ssts, this`levels, this`nextSstId, this`curMaxLevel
      ensures r != Err(Oversize) ==> Disk() && SameGroups(OnDisk(), old(OnDisk())) && |levels| == old(|levels|)
      ensures Issues(old(Registered()), Registered())
      ensures r == Err(Oversize) ==> HasUnreadable(hasher, ssts, levels)
      ensures r.Ok? ==> levels[src] == []
      ensures r.Err? ==> r.error == Oversize || (r.error == LengthError && levels == old(levels) && ssts == old(ssts))
    {
      var m := StartCombine(hasher, ssts, levels, src);
      ghost var first := nextSstId;
      var made := GenSstFromIter(m, TargetSize(src + 1));
      match made
      case Broke(e) =>
        return Err(e);
      case Spoilt(news) =>
        Swap(src, news, first);
        IssuesReplaced(old(ssts), old(levels), src, news, first, nextSstId, ssts, levels);
        NewsUnreadable(src, news, first);
        curMaxLevel := if curMaxLevel > src + 1 then curMaxLevel else src + 1;
        return Err(Oversize);
      case Made(news) =>
        Install(src, news, first);
        curMaxLevel := if curMaxLevel > src + 1 then curMaxLevel else src + 1;
        return Ok(());
    }

    lemma NewsUnreadable(src: nat, news: seq<Sst>, first: nat)
      requires src + 1 < |levels| && levels[src + 1] == IdsFrom(first, |news|)
      requires forall id :: first <= id < first + |news| ==> id in ssts && ssts[id] == news[id - first]
      requires exists i :: 0 <= i < |news| && !IsTable(hasher, news[i])
      ensures HasUnreadable(hasher, ssts, levels)
    {
      var i :| 0 <= i < |news| && !IsTable(hasher, news[i]);
      assert levels[src + 1][i] == first + i && ssts[first + i] == news[i];
    }

    // The old tables of both levels go, the new ones come in.
    method Swap(src: nat, news: seq<Sst>, ghost first: nat)
      requires src + 1 < |levels| && Numbered(news, first, first + |news|)
      modifies this`ssts, this`levels
      ensures Replaced(old(ssts), old(levels), src, news, first, ssts, levels)
    {
      var tables, ids := Without(Without(ssts, levels[src]), levels[src + 1]), [];
      ghost var was := ssts;
      var i := 0;
      while i < |news|
        invariant 0 <= i <= |news| && ids == IdsFrom(first, i)
        invariant forall id :: first <= id < first + i ==> id in tables && tables[id] == news[id - first]
        invariant forall id :: id in was && id < first && id !in levels[src] && id !in levels[src + 1] ==> id in tables && tables[id] == was[id]
        invariant forall id :: id in tables ==>
                    (id in was && tables[id] == was[id] && id !in levels[src] && id !in levels[src + 1]) || first <= id < first + i
      {
        assert news[i].id == first + i;
        ids := ids + [news[i].id];
        tables := tables[news[i].id := news[i]];
        i := i + 1;
      }
      ssts, levels := tables, levels[src := []][src + 1 := ids];
    }

    method Install(src: nat, news: seq<Sst>, ghost first: nat)
      requires Config() && Storage(hasher, ssts, levels) && AllListed(hasher, ssts, levels) && src + 1 < |levels|
      requires (forall id :: id in ssts ==> id < first) && Numbered(news, first, nextSstId) && Level(hasher, news)
      requires Combines(Flat(Run(hasher, news)), Part(hasher, ssts, levels[src]), Part(hasher, ssts, levels[src + 1]))
      modifies this`ssts, this`levels
      ensures Disk() && SameGroups(OnDisk(), Stored(hasher, old(ssts), old(levels)))
      ensures |levels| == old(|levels|) && levels[src] == []
      ensures Issues(Registry(old(ssts), first), Registered())
    {
      Swap(src, news, first);
      IssuesReplaced(old(ssts), old(levels), src, news, first, nextSstId, ssts, levels);
      ReplacedKeepsAll(hasher, old(ssts), old(levels), src, news, first, ssts, levels);
    }

    // ---- Writing and flushing ----

    ghost predicate Valid()
      reads this, memtable, memtable.mine, memtable.theirs
    {
      Disk() && memtable.Valid() && this !in memtable.mine && this !in memtable.theirs
    }

    // Everything stored, newest source first.
    ghost function All(): seq<Rec>
      requires Disk()
      reads this, memtable, memtable.current, memtable.frozen
    {
      memtable.Records() + OnDisk()
    }

    function TotalSize(): nat
      reads memtable, memtable.current
    {
      memtable.current.sizeBytes + memtable.frozenBytes
    }

    // Moves the oldest memory table into a new table of level 0, after compacting a full
    // level 0.  Unless some table outgrows its offsets, no record is lost, none is doubled,
    // and no read changes, whether it succeeds or fails.
    method Flush() returns (r: FlushResult, ghost moved: seq<Rec>)
      requires Valid()
      modifies this`ssts, this`levels, this`nextSstId, this`curMaxLevel, memtable
      ensures !Spoils(r) ==> Valid() && SameGroups(All(), old(All()))
      ensures Issues(old(Registered()), Registered())
      ensures Spoils(r) ==> HasUnreadable(hasher, ssts, levels)
      ensures fresh(memtable.mine + memtable.theirs - old(memtable.mine + memtable.theirs))
      ensures r.FlushFailed? ==> r.error == LengthError || r.error == Oversize
      ensures r.Idle? ==> TotalSize() == 0 && memtable.Records() == []
      ensures r.Done? ==> Moves(old(memtable.Records()), memtable.Records(), moved, r)
    {
      moved := [];
      if TotalSize() == 0 {
        memtable.NothingBySize();
        return Idle, moved;
      }
      var compacted := MakeRoom();
      if compacted.Err? {
        return FlushFailed(compacted.error), moved;
      }
      r, moved := FlushRoomy(old(All()), old(Registered()));
    }

    // The flush itself, with what was there before room was made.
    method FlushRoomy(ghost was: seq<Rec>, ghost tables: Registry) returns (r: FlushResult, ghost moved: seq<Rec>)
      requires Valid() && SameGroups(All(), was) && Issues(tables, Registered())
      modifies this`ssts, this`levels, this`nextSstId, memtable
      ensures !Spoils(r) ==> Valid() && SameGroups(All(), was)
      ensures Issues(tables, Registered())
      ensures Spoils(r) ==> HasUnreadable(hasher, ssts, levels)
      ensures fresh(memtable.mine + memtable.theirs - old(memtable.mine + memtable.theirs))
      ensures r.FlushFailed? ==> r.error == LengthError || r.error == Oversize
      ensures r.Idle? ==> TotalSize() == 0 && memtable.Records() == []
      ensures r.Done? ==> Moves(old(memtable.Records()), memtable.Records(), moved, r)
    {
      r, moved := FlushMemory();
      IssuesTwice(tables, old(Registered()), Registered());
      if r.Idle? {
        memtable.NothingBySize();
      }
      if !Spoils(r) {
        SameGroupsTrans(All(), old(All()), was);
      }
    }

    // A full level 0 is compacted before a table joins it.
    method MakeRoom() returns (r: Result<()>)
      requires Valid()
      modifies this`ssts, this`levels, this`nextSstId, this`curMaxLevel
      ensures r != Err(Oversize) ==> Valid() && SameGroups(All(), old(All()))
      ensures Issues(old(Registered()), Registered())
      ensures r == Err(Oversize) ==> HasUnreadable(hasher, ssts, levels)
      ensures r.Err? ==> r.error == LengthError || r.error == Oversize
    {
      r := Ok(());
      if |levels[0]| >= ratio {
        r := FullCompact(0);
        if r == Err(Oversize) {
          return;
        }
      }
      SameBehind(memtable.Records(), OnDisk(), old(OnDisk()));
    }

    method FlushMemory() returns (r: FlushResult, ghost moved: seq<Rec>)
      requires Valid()
      modifies this`ssts, this`levels, this`nextSstId, memtable
      ensures !Spoils(r) ==> Valid() && All() == old(All())
      ensures Issues(old(Registered()), Registered())
      ensures r.Idle? ==> memtable.Valid()
      ensures Spoils(r) ==> HasUnreadable(hasher, ssts, levels)
      ensures fresh(memtable.mine + memtable.theirs - old(memtable.mine + memtable.theirs))
      ensures r.FlushFailed? ==> r.error == LengthError || r.error == Oversize
      ensures r.Idle? ==> memtable.Records() == []
      ensures r.Done? ==> Moves(old(memtable.Records()), memtable.Records(), moved, r)
    {
      var id := TakeId();
      var flushed := FlushOut(id);
      if flushed.Outgrown? {
        PlaceOutgrown(id, flushed.sst);
        return FlushFailed(Oversize), [];
      }
      r, moved := Place(id, flushed, old(memtable.Records()));
    }

    method TakeId() returns (id: nat)
      requires Valid()
      modifies this`nextSstId
      ensures Valid() && Disk0(id) && OnDisk() == old(OnDisk())
      ensures ssts == old(ssts) && old(nextSstId) == id && nextSstId == id + 1
    {
      id := nextSstId;
      nextSstId := nextSstId + 1;
    }

    method PlaceOutgrown(id: nat, sst: Sst)
      requires levels != [] && !IsTable(hasher, sst) && sst.id == id && nextSstId == id + 1
      modifies this`ssts, this`levels
      ensures HasUnreadable(hasher, ssts, levels)
      ensures Issues(Registry(old(ssts), id), Registered())
    {
      IssuesOne(Registry(ssts, id), id, sst);
      ssts := ssts[id := sst];
      levels := levels[0 := [id] + levels[0]];
      assert levels[0][0] == id && ssts[id] == sst;
    }

    // A table just flushed goes in front of level 0.
    method Place(id: nat, flushed: FlushOutcome, ghost was: seq<Rec>) returns (r: FlushResult, ghost moved: seq<Rec>)
      requires Valid() && Disk0(id) && nextSstId == id + 1 && !flushed.Outgrown?
      requires flushed.Flushed? ==> IsTable(hasher, flushed.sst) && flushed.sst.id == id && Strict(RecordsOf(hasher, flushed.sst))
      requires flushed.Failed? ==> flushed.error == LengthError
      requires !flushed.Flushed? ==> was == memtable.Records()
      requires flushed.Nothing? ==> was == []
      requires flushed.Flushed? ==> Moves(was, memtable.Records(), RecordsOf(hasher, flushed.sst), Done(flushed.sst.maxVer, flushed.markers))
      modifies this`ssts, this`levels
      ensures Valid() && All() == was + old(OnDisk()) && !Spoils(r) && (r.FlushFailed? ==> r.error == LengthError)
      ensures Issues(Registry(old(ssts), id), Registered())
      ensures r.Idle? ==> was == memtable.Records() == []
      ensures r.Done? ==> Moves(was, memtable.Records(), moved, r)
    {
      moved := [];
      match flushed
      case Nothing =>
        r := Idle;
      case Failed(e) =>
        r := FlushFailed(e);
      case Flushed(sst, markers) =>
        moved := RecordsOf(hasher, sst);
        r := Done(sst.maxVer, markers);
        Regroup(memtable.Records(), moved, OnDisk());
        IssuesOne(Registry(ssts, id), id, sst);
        Register(id, sst);
    }

    method FlushOut(id: nat) returns (r: FlushOutcome)
      requires Valid()
      modifies memtable
      ensures memtable.Valid() && fresh(memtable.mine + memtable.theirs - old(memtable.mine + memtable.theirs))
      ensures r.Nothing? || r.Failed? ==> memtable.Records() == old(memtable.Records())
      ensures r.Outgrown? ==> !IsTable(hasher, r.sst) && r.sst.id == id
      ensures r.Nothing? ==> memtable.Records() == []
      ensures r.Failed? ==> r.error == LengthError
      ensures r.Flushed? ==> IsTable(hasher, r.sst) && r.sst.id == id && Strict(RecordsOf(hasher, r.sst)) &&
                             Moves(old(memtable.Records()), memtable.Records(), RecordsOf(hasher, r.sst), Done(r.sst.maxVer, r.markers))
    {
      var builder := NewBuilder();
      r := memtable.FlushLast(builder, id);
      if r.Flushed? {
        MovesTable(hasher, r.sst, old(memtable.Records()), memtable.Records(), Done(r.sst.maxVer, r.markers));
      }
    }

    method Register(id: nat, sst: Sst)
      requires Disk0(id) && IsTable(hasher, sst) && sst.id == id && Strict(RecordsOf(hasher, sst)) && id < nextSstId
      modifies this`ssts, this`levels
      ensures Disk() && OnDisk() == RecordsOf(hasher, sst) + old(Stored(hasher, ssts, levels)) && ssts == old(ssts)[id := sst]
    {
      PushedFront(hasher, ssts, levels, id, sst);
      ssts := ssts[id := sst];
      levels := levels[0 := [id] + levels[0]];
    }

    // All tables have ids below this one.
    ghost predicate Disk0(id: nat)
      reads this
    {
      Config() && Storage(hasher, ssts, levels) && AllListed(hasher, ssts, levels) && forall i :: i in ssts ==> i < id
    }

    // A write, and a flush once memory is full.  The write stands whatever the flush does.
    method Put(key: Key, value: ByteString, ver: u64, level: nat) returns (r: FlushResult)
      requires Valid() && 1 <= level <= memtable.maxLevel
      modifies this`ssts, this`levels, this`nextSstId, this`curMaxLevel, memtable, memtable.mine
      ensures !Spoils(r) ==> Valid() && Adds(All(), old(All()), [Rec(key, value, ver)])
      ensures Issues(old(Registered()), Registered())
      ensures Spoils(r) ==> HasUnreadable(hasher, ssts, levels)
      ensures fresh(memtable.mine + memtable.theirs - old(memtable.mine + memtable.theirs))
    {
      memtable.Put(key, value, ver, level);
      AddsBehind(memtable.Records(), old(memtable.Records()), [Rec(key, value, ver)], OnDisk());
      r := FlushIfFull(old(All()), [Rec(key, value, ver)]);
    }

    method Remove(key: Key, ver: u64, level: nat) returns (r: FlushResult)
      requires Valid() && 1 <= level <= memtable.maxLevel
      modifies this`ssts, this`levels, this`nextSstId, this`curMaxLevel, memtable, memtable.mine
      ensures !Spoils(r) ==> Valid() && Adds(All(), old(All()), [Rec(key, [], ver)])
      ensures Issues(old(Registered()), Registered())
      ensures Spoils(r) ==> HasUnreadable(hasher, ssts, levels)
      ensures fresh(memtable.mine + memtable.theirs - old(memtable.mine + memtable.theirs))
    {
      memtable.Remove(key, ver, level);
      AddsBehind(memtable.Records(), old(memtable.Records()), [Rec(key, [], ver)], OnDisk());
      r := FlushIfFull(old(All()), [Rec(key, [], ver)]);
    }

    method PutBatch(kvs: seq<(Key, ByteString)>, ver: u64, heights: seq<nat>) returns (r: FlushResult)
      requires Valid() && |heights| == |kvs| && forall i :: 0 <= i < |heights| ==> 1 <= heights[i] <= memtable.maxLevel
      modifies this`ssts, this`levels, this`nextSstId, this`curMaxLevel, memtable, memtable.mine
      ensures !Spoils(r) ==> Valid() && Adds(All(), old(All()), Stamped(kvs, ver))
      ensures Issues(old(Registered()), Registered())
      ensures Spoils(r) ==> HasUnreadable(hasher, ssts, levels)
      ensures fresh(memtable.mine + memtable.theirs - old(memtable.mine + memtable.theirs))
    {
      memtable.PutBatch(kvs, ver, heights);
      AddsBehind(memtable.Records(), old(memtable.Records()), Stamped(kvs, ver), OnDisk());
      r := FlushIfFull(old(All()), Stamped(kvs, ver));
    }

    method RemoveBatch(keys: seq<Key>, ver: u64, heights: seq<nat>) returns (r: FlushResult)
      requires Valid() && |heights| == |keys| && forall i :: 0 <= i < |heights| ==> 1 <= heights[i] <= memtable.maxLevel
      modifies this`ssts, this`levels, this`nextSstId, this`curMaxLevel, memtable, memtable.mine
      ensures !Spoils(r) ==> Valid() && Adds(All(), old(All()), Stamped(Tombs(keys), ver))
      ensures Issues(old(Registered()), Registered())
      ensures Spoils(r) ==> HasUnreadable(hasher, ssts, levels)
      ensures fresh(memtable.mine + memtable.theirs - old(memtable.mine + memtable.theirs))
    {
      memtable.RemoveBatch(keys, ver, heights);
      AddsBehind(memtable.Records(), old(memtable.Records()), Stamped(Tombs(keys), ver), OnDisk());
      r := FlushIfFull(old(All()), Stamped(Tombs(keys), ver));
    }

    method FlushIfFull(ghost was: seq<Rec>, ghost rs: seq<Rec>) returns (r: FlushResult)
      requires Valid() && Adds(All(), was, rs)
      modifies this`ssts, this`levels, this`nextSstId, this`curMaxLevel, memtable
      ensures !Spoils(r) ==> Valid() && Adds(All(), was, rs)
      ensures Issues(old(Registered()), Registered())
      ensures Spoils(r) ==> HasUnreadable(hasher, ssts, levels)
      ensures fresh(memtable.mine + memtable.theirs - old(memtable.mine + memtable.theirs))
    {
      if TotalSize() >= totalLimit {
        ghost var mid := All();
        ghost var moved;
        r, moved := Flush();
        if !Spoils(r) {
          AddsRearranged(All(), mid, was, rs);
        }
      } else {
        r := Idle;
      }
    }

    // ---- Reading ----

    method SstGet(key: Key, bound: nat, skip: set<nat>) returns (best: Option<Rec>)
      requires Disk() && key != []
      ensures best == Best(OnDisk(), Query(key, bound, skip))
    {
      best := Storages.SstGet(hasher, ssts, levels, key, bound, skip);
    }

    // Memory and all levels; a winning tombstone means absent.
    method Get(key: Key, bound: nat, skip: set<nat>) returns (r: Option<Rec>)
      requires Valid() && key != []
      ensures r == Mvcc.Visible(Best(All(), Query(key, bound, skip)))
    {
      var best := memtable.Get(key, bound, skip);
      var stored := SstGet(key, bound, skip);
      BestAppend(memtable.Records(), OnDisk(), Query(key, bound, skip));
      if stored.Some? && (best.None? || stored.value.ver > best.value.ver) {
        best := stored;
      }
      if best.None? || best.value.value == [] {
        return None;
      }
      return best;
    }

    // Pointwise the same as Get.
    method GetBatch(keys: seq<Key>, bound: nat, skip: set<nat>) returns (results: seq<Option<Rec>>)
      requires Valid() && forall i :: 0 <= i < |keys| ==> keys[i] != []
      ensures |results| == |keys|
      ensures forall i :: 0 <= i < |keys| ==> results[i] == Mvcc.Visible(Best(All(), Query(keys[i], bound, skip)))
    {
      ghost var all := All();
      var inMemory := memtable.GetBatch(keys, bound, skip);
      results := [];
      var i := 0;
      while i < |keys|
        invariant 0 <= i <= |keys| && |results| == i
        invariant forall j :: 0 <= j < i ==> results[j] == Mvcc.Visible(Best(all, Query(keys[j], bound, skip)))
      {
        var best := inMemory[i];
        var stored := SstGet(keys[i], bound, skip);
        BestAppend(memtable.Records(), OnDisk(), Query(keys[i], bound, skip));
        if stored.Some? && (best.None? || stored.value.ver > best.value.ver) {
          best := stored;
        }
        if best.Some? && best.value.value == [] {
          best := None;
        }
        results := results + [best];
        i := i + 1;
      }
    }

    method MemoryIterator(bound: nat, skip: set<nat>) returns (h: Heaps.HeapIt)
      requires memtable.Valid()
      ensures Heaps.OnHeap(h) && h.bound == bound && !h.keepAll && !h.skipDelete
      ensures Collecting.Answers(Heaps.HeapRest(h), memtable.Records(), Mode(bound, skip, false), k => true)
      ensures Scans.AnswersFor(Heaps.HeapRest(h), memtable.Records(), Mode(bound, skip, false))
    {
      h := memtable.Gather(Everything, bound, skip, false);
      assert forall k :: Chosen(Everything)(k);
    }

    // begin() to end(): every key a read would find, once, in order.
    method Scan(bound: nat, skip: set<nat>) returns (out: seq<Rec>)
      requires Valid()
      ensures Scans.ScanOf(out, All(), Mode(bound, skip, false))
    {
      var mem := MemoryIterator(bound, skip);
      out := Scans.FullScan(hasher, ssts, levels, mem, Mode(bound, skip, false), memtable.Records());
    }

    // The same, of the keys a monotone predicate selects.
    method RangeQuery(bound: nat, skip: set<nat>, pred: Key -> int) returns (out: seq<Rec>)
      requires Valid() && Monotone(pred)
      ensures Scans.RangeOf(out, All(), Mode(bound, skip, false), pred)
    {
      var mem := MemoryIterator(bound, skip);
      var it := Scans.RangeBegin(hasher, ssts, levels, mem, Mode(bound, skip, false), pred, memtable.Records());
      out := Scans.DrainRange(hasher, it);
    }
  }

  function Without(tables: map<nat, Sst>, ids: seq<nat>): map<nat, Sst>
  {
    map id | id in tables && id !in ids :: tables[id]
  }

  function Power(b: nat, n: nat): nat
  {
    if n == 0 then 1 else b * Power(b, n - 1)
  }

  lemma SameGroupsTrans(a: seq<Rec>, b: seq<Rec>, c: seq<Rec>)
    requires SameGroups(a, b) && SameGroups(b, c)
    ensures SameGroups(a, c)
  {
  }

  lemma EmptyLevel(hasher: Hasher, ssts: map<nat, Sst>, levels: seq<seq<nat>>)
    requires Storage(hasher, ssts, levels) && AllListed(hasher, ssts, levels)
    ensures Storage(hasher, ssts, levels + [[]]) && AllListed(hasher, ssts, levels + [[]])
    ensures Stored(hasher, ssts, levels + [[]]) == Stored(hasher, ssts, levels)
  {
    var more := levels + [[]];
    forall l: nat | l < |more|
      ensures LevelOk(hasher, ssts, more, l)
    {
      if l < |levels| {
        assert LevelOk(hasher, ssts, levels, l);
      } else {
        assert Listed(hasher, ssts, []);
      }
    }
    StorageListed(hasher, ssts, more);
    StoredStep(hasher, ssts, more, |levels|);
    assert more[..|levels|] == levels && more[..|levels| + 1] == more;
    assert Part(hasher, ssts, []) == [];
  }
}
