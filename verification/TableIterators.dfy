// Iterators over a block, over a table and over a run of tables.

module TableIterators {
  import opened Bytes
  import opened Mvcc
  import opened Blocks
  import opened BlockSearch
  import opened Bloom
  import opened SstMeta
  import opened Ssts
  import opened Streams

  // ---- Over one block ----

  datatype BlockIt = BlockIt(image: Image, index: nat, mode: Mode)

  // At the end, or on an entry the mode shows.
  ghost predicate OnBlock(it: BlockIt, es: seq<Rec>)
  {
    Searchable(it.image, es) && it.index <= |es| && (it.index < |es| ==> Shows(it.mode, es[it.index]))
  }

  ghost function BlockRest(it: BlockIt, es: seq<Rec>): seq<Rec>
    requires it.index <= |es|
  {
    Shown(es[it.index..], it.mode)
  }

  method SkipHidden(image: Image, from: nat, mode: Mode, ghost es: seq<Rec>) returns (i: nat)
    requires Searchable(image, es) && from <= |es|
    ensures from <= i <= |es| && (i < |es| ==> Shows(mode, es[i]))
    ensures Shown(es[i..], mode) == Shown(es[from..], mode)
    ensures forall k :: from <= k < i ==> !Shows(mode, es[k])
  {
    i := from;
    if mode.bound == 0 && mode.skip == {} {
      return;
    }
    while i < |image.offsets|
      invariant from <= i <= |es|
      invariant Shown(es[i..], mode) == Shown(es[from..], mode)
      invariant forall k :: from <= k < i ==> !Shows(mode, es[k])
    {
      var ver := VerOf(image, i, es);
      if Admits(mode.bound, mode.skip, ver) {
        return;
      }
      assert es[i..][1..] == es[i + 1..];
      i := i + 1;
    }
  }

  method StartBlock(image: Image, from: nat, mode: Mode, ghost es: seq<Rec>) returns (it: BlockIt)
    requires Searchable(image, es) && from <= |es|
    ensures OnBlock(it, es) && it.mode == mode && it.image == image && from <= it.index
    ensures forall k :: from <= k < it.index ==> !Shows(mode, es[k])
    ensures BlockRest(it, es) == Shown(es[from..], mode)
    ensures it.index == |es| ==> BlockRest(it, es) == []
  {
    var i := SkipHidden(image, from, mode, es);
    it := BlockIt(image, i, mode);
  }

  lemma HeadShown(it: BlockIt, es: seq<Rec>)
    requires OnBlock(it, es) && it.index < |es|
    ensures BlockRest(it, es) != [] && BlockRest(it, es)[0] == es[it.index]
    ensures BlockRest(it, es)[1..] ==
              Shown(if it.mode.keepAll then es[it.index + 1..] else DropKey(es[it.index + 1..], es[it.index].key), it.mode)
  {
    assert es[it.index..][1..] == es[it.index + 1..];
  }

  method NextInBlock(it: BlockIt, ghost es: seq<Rec>) returns (next: BlockIt)
    requires OnBlock(it, es)
    ensures OnBlock(next, es) && next.mode == it.mode && next.image == it.image
    ensures it.index == |es| ==> next == it
    ensures it.index < |es| ==> it.index < next.index && BlockRest(next, es) == BlockRest(it, es)[1..]
    ensures next.index == |es| ==> BlockRest(next, es) == []
  {
    if it.index >= |it.image.offsets| {
      return it;
    }
    HeadShown(it, es);
    var previous := KeyOf(it.image, it.index, es);
    var i := it.index + 1;
    if !it.mode.keepAll {
      while i < |it.image.offsets|
        invariant it.index < i <= |es|
        invariant DropKey(es[i..], previous) == DropKey(es[it.index + 1..], previous)
      {
        var here := KeyOf(it.image, i, es);
        if here != previous {
          break;
        }
        assert es[i..][1..] == es[i + 1..];
        i := i + 1;
      }
    }
    next := StartBlock(it.image, i, it.mode, es);
  }

  // ---- Over one table ----

  // Without a block the iterator is at its end.
  datatype SstIt = SstIt(sst: Sst, mode: Mode, blockIdx: nat, block: Option<BlockIt>)

  ghost predicate OnTable(hasher: Hasher, it: SstIt)
  {
    match it
    case SstIt(sst, mode, blockIdx, block) =>
      && IsTable(hasher, sst)
      && (block.Some? ==>
            && blockIdx < |BlocksOf(hasher, sst)|
            && OnBlock(block.value, BlocksOf(hasher, sst)[blockIdx])
            && block.value.mode == mode && block.value.index < |BlocksOf(hasher, sst)[blockIdx]|)
  }

  // What the parts from the i-th on show.
  ghost function ShownFrom(parts: seq<seq<Rec>>, i: nat, mode: Mode): seq<Rec>
    requires i <= |parts|
    ensures i == |parts| ==> ShownFrom(parts, i, mode) == []
  {
    Shown(Flat(parts[i..]), mode)
  }

  ghost function TableRest(hasher: Hasher, it: SstIt): seq<Rec>
    requires OnTable(hasher, it)
  {
    var blocks := BlocksOf(hasher, it.sst);
    if it.block.None? then []
    else BlockRest(it.block.value, blocks[it.blockIdx]) + ShownFrom(blocks, it.blockIdx + 1, it.mode)
  }

  lemma TailOfConcat<T>(a: seq<T>, b: seq<T>)
    requires a != []
    ensures (a + b)[0] == a[0] && (a + b)[1..] == a[1..] + b
    ensures a[1..] == [] ==> (a + b)[1..] == b
  {
  }

  // Blocks show what they show one after the other.
  lemma BlockThenRest(blocks: seq<seq<Rec>>, i: nat, mode: Mode)
    requires Separated(blocks) && i < |blocks|
    ensures ShownFrom(blocks, i, mode) == Shown(blocks[i], mode) + ShownFrom(blocks, i + 1, mode)
    ensures Shown(blocks[i], mode) == [] ==> ShownFrom(blocks, i, mode) == ShownFrom(blocks, i + 1, mode)
  {
    var later := blocks[i + 1..];
    assert blocks[i..][0] == blocks[i] && blocks[i..][1..] == later;
    forall k | 0 <= k < |later|
      ensures NoCommonKey(blocks[i], later[k])
    {
      assert KeysBelow(blocks[i], blocks[i + 1 + k]);
      BelowNoCommon(blocks[i], later[k]);
    }
    NoCommonFlat(blocks[i], later);
    ShownAppend(blocks[i], Flat(later), mode);
  }

  lemma BelowNoCommon(s: seq<Rec>, t: seq<Rec>)
    requires KeysBelow(s, t)
    ensures NoCommonKey(s, t)
  {
    forall i, j | 0 <= i < |s| && 0 <= j < |t|
      ensures s[i].key != t[j].key
    {
      LessTotal(s[i].key, t[j].key);
    }
  }

  lemma {:induction false} NoCommonFlat(s: seq<Rec>, parts: seq<seq<Rec>>)
    requires forall k :: 0 <= k < |parts| ==> NoCommonKey(s, parts[k])
    ensures NoCommonKey(s, Flat(parts))
  {
    if parts != [] {
      NoCommonFlat(s, parts[1..]);
      assert NoCommonKey(s, parts[0]);
    }
  }

  lemma Landed(hasher: Hasher, sst: Sst, mode: Mode, i: nat, block: BlockIt)
    requires IsTable(hasher, sst) && i < |BlocksOf(hasher, sst)| && OnBlock(block, BlocksOf(hasher, sst)[i])
    requires block.mode == mode && block.index < |BlocksOf(hasher, sst)[i]|
    ensures var blocks, it := BlocksOf(hasher, sst), SstIt(sst, mode, i, Some(block));
            OnTable(hasher, it) && TableRest(hasher, it) == BlockRest(block, blocks[i]) + ShownFrom(blocks, i + 1, mode)
  {
  }

  method StartAt(hasher: Hasher, sst: Sst, i: nat, mode: Mode) returns (it: BlockIt)
    requires IsTable(hasher, sst) && i < |BlocksOf(hasher, sst)|
    ensures OnBlock(it, BlocksOf(hasher, sst)[i]) && it.mode == mode
    ensures BlockRest(it, BlocksOf(hasher, sst)[i]) == Shown(BlocksOf(hasher, sst)[i], mode)
    ensures |it.image.offsets| == |BlocksOf(hasher, sst)[i]|
    ensures it.index == |it.image.offsets| ==> BlockRest(it, BlocksOf(hasher, sst)[i]) == []
  {
    ghost var blocks := BlocksOf(hasher, sst);
    var image := LoadBlock(hasher, sst, i, blocks);
    assert blocks[i][0..] == blocks[i];
    it := StartBlock(image, 0, mode, blocks[i]);
  }

  // On the first record shown at or behind the start of block b, or at the end.
  method SettleFrom(hasher: Hasher, sst: Sst, b: nat, mode: Mode) returns (it: SstIt)
    requires IsTable(hasher, sst) && b <= |BlocksOf(hasher, sst)|
    ensures OnTable(hasher, it) && it.sst == sst && it.mode == mode
    ensures TableRest(hasher, it) == ShownFrom(BlocksOf(hasher, sst), b, mode)
  {
    ghost var blocks := BlocksOf(hasher, sst);
    LookInside(hasher, sst, blocks);
    var i := b;
    while i < |sst.metas|
      invariant b <= i <= |blocks| == |sst.metas|
      invariant ShownFrom(blocks, i, mode) == ShownFrom(blocks, b, mode)
    {
      BlockThenRest(blocks, i, mode);
      var block := StartAt(hasher, sst, i, mode);
      if block.index != |block.image.offsets| {
        it := SstIt(sst, mode, i, Some(block));
        Landed(hasher, sst, mode, i, block);
        return;
      }
      i := i + 1;
    }
    return SstIt(sst, mode, |sst.metas|, None);
  }

  method SeekFirst(hasher: Hasher, sst: Sst, mode: Mode) returns (it: SstIt)
    requires IsTable(hasher, sst)
    ensures OnTable(hasher, it) && it.sst == sst && it.mode == mode
    ensures TableRest(hasher, it) == Shown(RecordsOf(hasher, sst), mode)
  {
    assert BlocksOf(hasher, sst)[0..] == BlocksOf(hasher, sst);
    it := SettleFrom(hasher, sst, 0, mode);
  }

  // The record the iterator stands on.
  method TableHead(hasher: Hasher, it: SstIt) returns (r: Rec)
    requires OnTable(hasher, it) && it.block.Some?
    ensures TableRest(hasher, it) != [] && TableRest(hasher, it)[0] == r
  {
    ghost var es := BlocksOf(hasher, it.sst)[it.blockIdx];
    HeadShown(it.block.value, es);
    var e := EntryOf(it.block.value.image, it.block.value.index, es);
    r := e.value;
  }

  lemma PartsSplit(block: BlockIt, parts: seq<seq<Rec>>, i: nat)
    requires i < |parts| && OnBlock(block, parts[i]) && block.index < |parts[i]|
    ensures var rest, behind := BlockRest(block, parts[i]), ShownFrom(parts, i + 1, block.mode);
            rest != [] && (rest + behind) != [] && (rest + behind)[1..] == rest[1..] + behind
  {
    HeadShown(block, parts[i]);
    TailOfConcat(BlockRest(block, parts[i]), ShownFrom(parts, i + 1, block.mode));
  }

  // What a table has left: what its block has left, and the blocks behind.
  lemma RestSplits(hasher: Hasher, it: SstIt)
    requires OnTable(hasher, it) && it.block.Some?
    ensures var blocks := BlocksOf(hasher, it.sst); var rest := BlockRest(it.block.value, blocks[it.blockIdx]);
            && rest != [] && TableRest(hasher, it) != []
            && TableRest(hasher, it)[1..] == rest[1..] + ShownFrom(blocks, it.blockIdx + 1, it.mode)
  {
    PartsSplit(it.block.value, BlocksOf(hasher, it.sst), it.blockIdx);
  }

  method NextInTable(hasher: Hasher, it: SstIt) returns (next: SstIt)
    requires OnTable(hasher, it)
    ensures OnTable(hasher, next) && next.sst == it.sst && next.mode == it.mode
    ensures it.block.None? ==> next == it
    ensures it.block.Some? ==> TableRest(hasher, it) != [] && TableRest(hasher, next) == TableRest(hasher, it)[1..]
  {
    if it.block.None? {
      return it;
    }
    ghost var es := BlocksOf(hasher, it.sst)[it.blockIdx];
    RestSplits(hasher, it);
    var block := NextInBlock(it.block.value, es);
    if block.index != |block.image.offsets| {
      Landed(hasher, it.sst, it.mode, it.blockIdx, block);
      return it.(block := Some(block));
    }
    next := SettleFrom(hasher, it.sst, it.blockIdx + 1, it.mode);
  }

  // The iterator has n records of the list behind it.
  ghost predicate TableAt(hasher: Hasher, it: SstIt, list: seq<Rec>, n: nat)
  {
    forall m :: Opened(m) ==> OnTable(hasher, it) && n <= |list| && TableRest(hasher, it) == list[n..]
  }

  lemma StartTableAt(hasher: Hasher, it: SstIt)
    requires OnTable(hasher, it)
    ensures TableAt(hasher, it, TableRest(hasher, it), 0)
  {
    var list := TableRest(hasher, it);
    assert list[0..] == list;
  }

  method HeadAt(hasher: Hasher, it: SstIt, ghost list: seq<Rec>, ghost n: nat) returns (r: Rec)
    requires TableAt(hasher, it, list, n) && it.block.Some?
    ensures n < |list| && r == list[n]
  {
    assert Opened(0);
    r := TableHead(hasher, it);
    assert list[n..] != [] && list[n..][0] == list[n];
  }

  method NextAt(hasher: Hasher, it: SstIt, ghost list: seq<Rec>, ghost n: nat) returns (next: SstIt)
    requires TableAt(hasher, it, list, n) && it.block.Some? && n < |list|
    ensures TableAt(hasher, next, list, n + 1) && next.sst == it.sst
  {
    assert OnTable(hasher, it) && n <= |list| && TableRest(hasher, it) == list[n..] by {
      assert Opened(0);
    }
    next := NextInTable(hasher, it);
    assert list[n..][1..] == list[n + 1..];
  }

  lemma EndAt(hasher: Hasher, it: SstIt, list: seq<Rec>, n: nat)
    requires TableAt(hasher, it, list, n)
    ensures n <= |list| && (it.block.None? ==> n == |list|)
    ensures OnTable(hasher, it) && TableRest(hasher, it) == list[n..]
  {
    assert Opened(0);
    assert it.block.None? ==> list[n..] == [];
  }

  // ---- Over a run of tables with rising keys ----

  datatype ConcatIt = ConcatIt(ssts: seq<Sst>, mode: Mode, idx: nat, cur: Option<SstIt>)

  ghost predicate AllTables(hasher: Hasher, ssts: seq<Sst>)
  {
    forall i :: 0 <= i < |ssts| ==> IsTable(hasher, ssts[i])
  }

  ghost function Run(hasher: Hasher, ssts: seq<Sst>): (run: seq<seq<Rec>>)
    requires AllTables(hasher, ssts)
    ensures |run| == |ssts| && forall i :: 0 <= i < |ssts| ==> run[i] == RecordsOf(hasher, ssts[i])
  {
    seq(|ssts|, i requires 0 <= i < |ssts| => RecordsOf(hasher, ssts[i]))
  }

  // Tables with rising keys are cut like one table with rising blocks.
  ghost predicate Level(hasher: Hasher, ssts: seq<Sst>)
  {
    AllTables(hasher, ssts) && Separated(Run(hasher, ssts))
  }

  ghost predicate OnLevel(hasher: Hasher, it: ConcatIt)
  {
    match it
    case ConcatIt(ssts, mode, idx, cur) =>
      && Level(hasher, ssts)
      && (cur.Some? ==>
            && idx < |ssts| && OnTable(hasher, cur.value) && cur.value.block.Some?
            && cur.value.sst == ssts[idx] && cur.value.mode == mode)
  }

  ghost function LevelRest(hasher: Hasher, it: ConcatIt): seq<Rec>
    requires OnLevel(hasher, it)
  {
    if it.cur.None? then []
    else TableRest(hasher, it.cur.value) + ShownFrom(Run(hasher, it.ssts), it.idx + 1, it.mode)
  }

  lemma LandedInLevel(hasher: Hasher, it: ConcatIt)
    requires Level(hasher, it.ssts) && it.cur.Some? && it.idx < |it.ssts| && OnTable(hasher, it.cur.value) && it.cur.value.block.Some?
    requires it.cur.value.sst == it.ssts[it.idx] && it.cur.value.mode == it.mode
    ensures OnLevel(hasher, it)
    ensures LevelRest(hasher, it) == TableRest(hasher, it.cur.value) + ShownFrom(Run(hasher, it.ssts), it.idx + 1, it.mode)
  {
  }

  method SettleLevel(hasher: Hasher, ssts: seq<Sst>, from: nat, mode: Mode) returns (it: ConcatIt)
    requires Level(hasher, ssts) && from <= |ssts|
    ensures OnLevel(hasher, it) && it.ssts == ssts && it.mode == mode
    ensures LevelRest(hasher, it) == ShownFrom(Run(hasher, ssts), from, mode)
  {
    ghost var run := Run(hasher, ssts);
    var i := from;
    while i < |ssts|
      invariant from <= i <= |ssts|
      invariant ShownFrom(run, i, mode) == ShownFrom(run, from, mode)
    {
      BlockThenRest(run, i, mode);
      var cur := SeekFirst(hasher, ssts[i], mode);
      if cur.block.Some? {
        it := ConcatIt(ssts, mode, i, Some(cur));
        LandedInLevel(hasher, it);
        return;
      }
      i := i + 1;
    }
    return ConcatIt(ssts, mode, |ssts|, None);
  }

  method StartLevel(hasher: Hasher, ssts: seq<Sst>, mode: Mode) returns (it: ConcatIt)
    requires Level(hasher, ssts)
    ensures OnLevel(hasher, it) && it.ssts == ssts && it.mode == mode
    ensures LevelRest(hasher, it) == Shown(Flat(Run(hasher, ssts)), mode)
  {
    assert Run(hasher, ssts)[0..] == Run(hasher, ssts);
    it := SettleLevel(hasher, ssts, 0, mode);
  }

  method LevelHead(hasher: Hasher, it: ConcatIt) returns (r: Rec)
    requires OnLevel(hasher, it) && it.cur.Some?
    ensures LevelRest(hasher, it) != [] && LevelRest(hasher, it)[0] == r
  {
    r := TableHead(hasher, it.cur.value);
  }

  method NextInLevel(hasher: Hasher, it: ConcatIt) returns (next: ConcatIt)
    requires OnLevel(hasher, it)
    ensures OnLevel(hasher, next) && next.ssts == it.ssts && next.mode == it.mode
    ensures it.cur.None? ==> next == it
    ensures it.cur.Some? ==> LevelRest(hasher, it) != [] && LevelRest(hasher, next) == LevelRest(hasher, it)[1..]
  {
    if it.cur.None? {
      return it;
    }
    TailOfConcat(TableRest(hasher, it.cur.value), ShownFrom(Run(hasher, it.ssts), it.idx + 1, it.mode));
    var cur := NextInTable(hasher, it.cur.value);
    if cur.block.Some? {
      return it.(cur := Some(cur));
    }
    next := SettleLevel(hasher, it.ssts, it.idx + 1, it.mode);
  }
}
