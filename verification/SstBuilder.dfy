// Building an SST from records given in order.

module SstBuilders {
  import opened Bytes
  import opened Mvcc
  import opened Blocks
  import opened BlockSearch
  import opened Bloom
  import opened SstMeta
  import opened Ssts

  lemma FirstNameAppend(s: seq<Rec>, t: seq<Rec>)
    ensures FirstName(s + t) == if FirstName(s) != [] then FirstName(s) else FirstName(t)
  {
    if s == [] {
      assert s + t == t;
    } else {
      assert (s + t)[1..] == s[1..] + t;
    }
  }

  // Appending in order to the open block.
  lemma SeparatedExtend(done: seq<seq<Rec>>, open: seq<Rec>, r: Rec)
    requires open != [] && Separated(done + [open]) && !RecLess(r, open[|open| - 1])
    ensures Separated(done + [open + [r]])
    ensures Flat(done + [open + [r]]) == Flat(done + [open]) + [r]
  {
    var was, now := done + [open], done + [open + [r]];
    var n := |done|;
    assert was[n] == open && now[n] == open + [r];
    forall i, j | 0 <= i < j < |open + [r]|
      ensures !RecLess(now[n][j], now[n][i])
    {
      RecOrder();
      assert j < |open| ==> !RecLess(open[j], open[i]);
      assert i < |open| - 1 ==> !RecLess(open[|open| - 1], open[i]);
    }
    forall i, j | 0 <= i < j < |now|
      ensures KeysBelow(now[i], now[j])
    {
      assert was[i] == now[i] && KeysBelow(was[i], was[j]);
      if j == n {
        forall a | 0 <= a < |now[i]|
          ensures Less(now[i][a].key, r.key)
        {
          assert Less(was[i][a].key, open[|open| - 1].key);
          LessTotal(r.key, open[|open| - 1].key);
          if r.key != open[|open| - 1].key {
            LessTransitive(was[i][a].key, open[|open| - 1].key, r.key);
          }
        }
      }
    }
    assert forall i :: 0 <= i < n ==> now[i] == was[i];
    FlatAppend(done, [open]);
    FlatAppend(done, [open + [r]]);
    FlatOne(open);
    FlatOne(open + [r]);
  }

  lemma SeparatedAppend(done: seq<seq<Rec>>, t: seq<Rec>)
    requires Separated(done) && t != [] && Ordered(t) && forall i :: 0 <= i < |done| ==> KeysBelow(done[i], t)
    ensures Separated(done + [t])
  {
    var all := done + [t];
    forall i, j | 0 <= i < j < |all|
      ensures KeysBelow(all[i], all[j])
    {
      if j < |done| {
        assert KeysBelow(done[i], done[j]);
      }
    }
  }

  lemma LastIsTop(done: seq<seq<Rec>>, i: nat, a: nat)
    requires Separated(done) && i < |done| && a < |done[i]|
    ensures var top := LastKey(done[|done| - 1]); done[i][a].key == top || Less(done[i][a].key, top)
  {
    var n := |done| - 1;
    if i < n {
      assert KeysBelow(done[i], done[n]);
    } else {
      KeysAscend(done[n], a, |done[n]| - 1);
    }
  }

  // Starting a new block with a key above all before.
  lemma SeparatedNew(done: seq<seq<Rec>>, r: Rec)
    requires done != [] && Separated(done) && Less(LastKey(done[|done| - 1]), r.key)
    ensures Separated(done + [[r]])
    ensures Flat(done + [[r]]) == Flat(done) + [r]
  {
    forall i | 0 <= i < |done|
      ensures KeysBelow(done[i], [r])
    {
      BelowNew(done, i, r);
    }
    SeparatedAppend(done, [r]);
    FlatAppend(done, [[r]]);
    FlatOne([r]);
  }

  lemma BelowNew(done: seq<seq<Rec>>, i: nat, r: Rec)
    requires Separated(done) && i < |done| && Less(LastKey(done[|done| - 1]), r.key)
    ensures KeysBelow(done[i], [r])
  {
    var top := LastKey(done[|done| - 1]);
    forall a | 0 <= a < |done[i]|
      ensures Less(done[i][a].key, r.key)
    {
      LastIsTop(done, i, a);
      if done[i][a].key != top {
        LessTransitive(done[i][a].key, top, r.key);
      }
    }
  }

  lemma SliceKept(a: ByteString, b: ByteString, from: nat, to: nat)
    requires from <= to <= |a|
    ensures (a + b)[from..to] == a[from..to]
  {
  }

  // Block i of the finished ones lies at its offset in data.
  ghost predicate SealedAt(data: ByteString, metas: seq<Meta>, done: seq<seq<Rec>>, i: nat)
  {
    && i < |done| == |metas|
    && (var end := if i + 1 < |done| then metas[i + 1].offset else |data|;
        metas[i].offset <= end <= |data| && IsImageOf(data[metas[i].offset..end], done[i]))
  }

  // The blocks finished so far, with the names they were given.
  ghost predicate Finished(data: ByteString, metas: seq<Meta>, done: seq<seq<Rec>>)
  {
    && |metas| == |done| <= |data|
    && (forall i :: 0 <= i < |done| ==> SealedAt(data, metas, done, i))
    && (forall i :: 0 <= i < |done| ==> metas[i].last == LastKey(done[i]))
    && (forall i :: 0 < i < |done| ==> done[i] != [] && metas[i].first == done[i][0].key)
  }

  // One more block behind the finished ones.
  lemma FinishedOne(data: ByteString, metas: seq<Meta>, done: seq<seq<Rec>>, bytes: ByteString, m: Meta, es: seq<Rec>)
    requires Finished(data, metas, done) && IsImageOf(bytes, es) && es != []
    requires m.offset == |data| && m.last == LastKey(es) && (done != [] ==> m.first == es[0].key)
    ensures Finished(data + bytes, metas + [m], done + [es])
  {
    var data', metas', done' := data + bytes, metas + [m], done + [es];
    forall i | 0 <= i < |done'|
      ensures SealedAt(data', metas', done', i)
    {
      if i < |done| {
        assert SealedAt(data, metas, done, i);
        SliceKept(data, bytes, metas[i].offset, if i + 1 < |done| then metas[i + 1].offset else |data|);
      } else {
        assert data'[|data|..|data'|] == bytes;
      }
    }
  }

  function PartsOf(done: seq<seq<Rec>>, open: seq<Rec>): seq<seq<Rec>>
  {
    if open == [] then done else done + [open]
  }

  // What a builder has taken so far: the sealed blocks, the open one, and the names
  // kept for them.
  datatype Sketch = Sketch(data: ByteString, metas: seq<Meta>, done: seq<seq<Rec>>, open: seq<Rec>, first: Key, last: Key)

  ghost predicate Draft(d: Sketch)
  {
    forall n :: Opened(n) ==> InOrder(d)
  }

  ghost predicate InOrder(d: Sketch)
  {
    match d
    case Sketch(data, metas, done, open, first, last) =>
      && Separated(PartsOf(done, open)) && Finished(data, metas, done) && last == LastKey(open)
      && (open == [] ==> done == [] && data == [] && metas == [])
      && (done == [] ==> first == FirstName(open))
      && (done != [] ==> first == open[0].key && first != [] &&
                         metas[0].first == FirstName(Flat(done + [open])) && metas[0].first != [])
  }

  // The next record may follow: the records come in order.
  ghost predicate Follows(open: seq<Rec>, r: Rec)
  {
    open == [] || !RecLess(r, open[|open| - 1])
  }

  // The next record in order at the end of the open block.
  lemma Extended(done: seq<seq<Rec>>, open: seq<Rec>, e: Rec)
    requires open == [] ==> done == []
    requires open != [] ==> Separated(done + [open]) && !RecLess(e, open[|open| - 1])
    ensures Separated(done + [open + [e]])
    ensures Flat(done + [open + [e]]) == Flat(PartsOf(done, open)) + [e]
    ensures done == [] ==> Flat(done + [open + [e]]) == open + [e]
  {
    if open == [] {
      assert open + [e] == [e] && done + [open + [e]] == [[e]];
      FlatOne([e]);
    } else {
      SeparatedExtend(done, open, e);
      if done == [] {
        assert done + [open + [e]] == [open + [e]];
        FlatOne(open + [e]);
      }
    }
  }

  // An unnamed table takes the key as its first name.
  function Named(first: Key, key: Key): Key
  {
    if first == [] then key else first
  }

  lemma DraftNames(data: ByteString, metas: seq<Meta>, done: seq<seq<Rec>>, open: seq<Rec>, first: Key, last: Key)
    requires Draft(Sketch(data, metas, done, open, first, last))
    ensures last == LastKey(open) && (open == [] ==> done == [])
  {
    assert Opened(0);
  }

  // The record goes into the open block.
  lemma DraftAccepts(data: ByteString, metas: seq<Meta>, done: seq<seq<Rec>>, open: seq<Rec>, first: Key, last: Key, e: Rec)
    requires Draft(Sketch(data, metas, done, open, first, last)) && Follows(open, e)
    ensures Draft(Sketch(data, metas, done, open + [e], Named(first, e.key), e.key))
    ensures Flat(PartsOf(done, open + [e])) == Flat(PartsOf(done, open)) + [e]
  {
    assert Opened(0);
    Extended(done, open, e);
    FirstNameAppend(open, [e]);
    FirstNameAppend(Flat(PartsOf(done, open)), [e]);
  }

  // The open block is sealed and the record opens the next one.
  lemma DraftRestarts(data: ByteString, metas: seq<Meta>, done: seq<seq<Rec>>, open: seq<Rec>, first: Key, last: Key,
                      bytes: ByteString, e: Rec)
    requires Draft(Sketch(data, metas, done, open, first, last)) && open != [] && Less(last, e.key) && IsImageOf(bytes, open)
    ensures var m := Meta(|data|, Named(first, e.key), last);
            Draft(Sketch(data + bytes, metas + [m], done + [open], [e], e.key, e.key))
    ensures Flat(PartsOf(done + [open], [e])) == Flat(PartsOf(done, open)) + [e]
  {
    assert InOrder(Sketch(data, metas, done, open, first, last)) by {
      assert Opened(0);
    }
    Restarts(data, metas, done, open, first, last, bytes, e);
  }

  lemma Restarts(data: ByteString, metas: seq<Meta>, done: seq<seq<Rec>>, open: seq<Rec>, first: Key, last: Key,
                 bytes: ByteString, e: Rec)
    requires InOrder(Sketch(data, metas, done, open, first, last)) && open != [] && Less(last, e.key) && IsImageOf(bytes, open)
    ensures var m := Meta(|data|, Named(first, e.key), last);
            InOrder(Sketch(data + bytes, metas + [m], done + [open], [e], e.key, e.key))
    ensures Flat(PartsOf(done + [open], [e])) == Flat(PartsOf(done, open)) + [e]
  {
    var m := Meta(|data|, Named(first, e.key), last);
    var parts := done + [open];
    assert parts[|parts| - 1] == open;
    SeparatedNew(parts, e);
    FirstNameAppend(Flat(parts), [e]);
    FinishedOne(data, metas, done, bytes, m, open);
    if done == [] {
      assert parts == [open];
      FlatOne(open);
    }
  }

  // The last block is sealed when the table is built.
  lemma DraftEnds(data: ByteString, metas: seq<Meta>, done: seq<seq<Rec>>, open: seq<Rec>, first: Key, last: Key, bytes: ByteString)
    requires Draft(Sketch(data, metas, done, open, first, last)) && open != [] && IsImageOf(bytes, open)
    ensures var m := Meta(|data|, first, last);
            Finished(data + bytes, metas + [m], done + [open]) && Names(metas + [m], done + [open])
    ensures Separated(done + [open])
  {
    assert Opened(0);
    var m := Meta(|data|, first, last);
    FinishedOne(data, metas, done, bytes, m, open);
    if done == [] {
      assert done + [open] == [open];
      FlatOne(open);
    }
  }

  // The least and the largest version of the records.
  datatype Range = Range(lo: nat, hi: nat)

  ghost predicate Spans(range: Range, s: seq<Rec>)
  {
    match range
    case Range(lo, hi) =>
      if s == [] then lo == TWO64 - 1 && hi == 0
      else
        && (forall i :: 0 <= i < |s| ==> lo <= s[i].ver <= hi)
        && (exists i :: 0 <= i < |s| && s[i].ver == lo) && (exists i :: 0 <= i < |s| && s[i].ver == hi)
  }

  // The version range the footer gives is that of the records.
  ghost predicate Dated(sst: Sst, s: seq<Rec>)
  {
    match sst
    case Sst(_, _, _, _, _, _, minVer, maxVer, _, _) => Spans(Range(minVer, maxVer), s)
  }

  lemma SpansOne(lo: nat, hi: nat, s: seq<Rec>, e: Rec)
    requires Spans(Range(lo, hi), s) && e.ver < TWO64
    ensures Spans(Range(if e.ver < lo then e.ver else lo, if e.ver > hi then e.ver else hi), s + [e])
  {
    var all := s + [e];
    assert all[|s|] == e;
    if s != [] {
      var i :| 0 <= i < |s| && s[i].ver == lo;
      var j :| 0 <= j < |s| && s[j].ver == hi;
      assert all[i] == s[i] && all[j] == s[j];
    }
  }

  // What a builder has learned about its records beside the blocks.
  datatype Tally = Tally(hasher: Hasher, kept: Option<Filter>, lo: nat, hi: nat)

  ghost predicate Learned(t: Tally, s: seq<Rec>)
  {
    forall n :: Opened(n) ==> Covers(t.hasher, t.kept, s) && Spans(Range(t.lo, t.hi), s)
  }

  // [meta_offset:4][bloom_offset:4][min_tranc_id:8][max_tranc_id:8]
  function Footer(metaOffset: nat, bloomOffset: nat, minVer: nat, maxVer: nat): (s: ByteString)
    ensures |s| == FOOTER_SIZE
  {
    Le(metaOffset, 4) + Le(bloomOffset, 4) + (Le(minVer, 8) + Le(maxVer, 8))
  }

  // The filter section: absent if the table was built without a filter.
  ghost predicate FilterSection(bytes: ByteString, filter: Option<Filter>)
  {
    match filter
    case None => bytes == []
    case Some(f) => Sane(f) && Encodes(bytes, f)
  }

  // The file is blocks, then their table, then the filter, then the footer.  The two
  // offsets the table keeps are cut to 32 bits.
  ghost predicate Laid(hasher: Hasher, sst: Sst, blocks: ByteString, filter: ByteString)
  {
    forall n :: Opened(n) ==> InSections(hasher, sst, blocks, filter)
  }

  ghost predicate InSections(hasher: Hasher, sst: Sst, blocks: ByteString, filter: ByteString)
  {
    && sst.file == blocks + TableBytes(hasher, sst.metas) + (filter + Footer(sst.metaOffset, sst.bloomOffset, sst.minVer, sst.maxVer))
    && sst.metaOffset == |blocks| % TWO32 && sst.bloomOffset == (|blocks| + |TableBytes(hasher, sst.metas)|) % TWO32
    && sst.metas != [] && NamesFit(sst.metas) && |sst.metas| <= |blocks|
    && (forall i :: 0 <= i < |sst.metas| ==> sst.metas[i].offset <= |blocks|)
    && FilterSection(filter, sst.filter)
    && sst.minVer < TWO64 && sst.maxVer < TWO64
    && sst.first == sst.metas[0].first && sst.last == sst.metas[|sst.metas| - 1].last
  }

  lemma BlockKept(sst: Sst, data: ByteString, rest: ByteString, done: seq<seq<Rec>>, i: nat)
    requires sst.file == data + rest && sst.metaOffset == |data| && SealedAt(data, sst.metas, done, i)
    ensures BlockAt(sst, i, done[i])
  {
    SliceKept(data, rest, sst.metas[i].offset, BlockEnd(sst, i));
  }

  // A table written from finished blocks stores exactly those blocks.
  lemma Written(hasher: Hasher, sst: Sst, data: ByteString, rest: ByteString, done: seq<seq<Rec>>)
    requires sst.file == data + rest && sst.metaOffset == |data|
    requires Finished(data, sst.metas, done) && Separated(done) && done != []
    requires Names(sst.metas, done) && Covers(hasher, sst.filter, Flat(done))
    requires sst.first == sst.metas[0].first && sst.last == sst.metas[|sst.metas| - 1].last
    ensures Stores(hasher, sst, done)
  {
    forall i | 0 <= i < |done|
      ensures BlockAt(sst, i, done[i])
    {
      BlockKept(sst, data, rest, done, i);
    }
  }

  // Names are keys of records in blocks, so they can be written down.
  lemma NamesAreShort(data: ByteString, metas: seq<Meta>, done: seq<seq<Rec>>)
    requires Finished(data, metas, done) && Names(metas, done) && Separated(done)
    ensures SstMeta.NamesFit(metas)
  {
    forall i | 0 <= i < |metas|
      ensures |metas[i].first| <= U16_MAX && |metas[i].last| <= U16_MAX
    {
      assert SealedAt(data, metas, done, i);
      var image :| Holds(image, done[i]);
      assert Placed(image, done[i], 0) && Placed(image, done[i], |done[i]| - 1);
      if i == 0 {
        FirstNameFits(data, metas, done, done);
      }
    }
  }

  lemma {:induction false} FirstNameFits(data: ByteString, metas: seq<Meta>, done: seq<seq<Rec>>, part: seq<seq<Rec>>)
    requires Finished(data, metas, done) && forall i :: 0 <= i < |part| ==> part[i] in done
    ensures |FirstName(Flat(part))| <= U16_MAX
  {
    if part != [] {
      FirstNameFits(data, metas, done, part[1..]);
      FirstNameAppend(part[0], Flat(part[1..]));
      var i :| 0 <= i < |done| && done[i] == part[0];
      assert SealedAt(data, metas, done, i);
      var image :| Holds(image, part[0]);
      NameOfImage(image, part[0], part[0]);
    }
  }

  lemma {:induction false} NameOfImage(image: Image, es: seq<Rec>, part: seq<Rec>)
    requires Holds(image, es) && forall i :: 0 <= i < |part| ==> part[i] in es
    ensures |FirstName(part)| <= U16_MAX
  {
    if part != [] {
      NameOfImage(image, es, part[1..]);
      var i :| 0 <= i < |es| && es[i] == part[0];
      assert Placed(image, es, i);
    }
  }

  // All blocks are sealed and named.
  ghost predicate Ready(data: ByteString, metas: seq<Meta>, parts: seq<seq<Rec>>)
  {
    forall n :: Opened(n) ==> Finished(data, metas, parts) && Names(metas, parts) && Separated(parts) && parts != []
  }

  lemma ReadyFits(data: ByteString, metas: seq<Meta>, parts: seq<seq<Rec>>)
    requires Ready(data, metas, parts)
    ensures NamesFit(metas) && 0 < |metas| == |parts| <= |data| && forall i :: 0 <= i < |metas| ==> metas[i].offset <= |data|
  {
    assert Opened(0);
    forall i | 0 <= i < |metas|
      ensures metas[i].offset <= |data|
    {
      assert SealedAt(data, metas, parts, i);
    }
    NamesAreShort(data, metas, parts);
  }

  // ---- 32-bit offsets ----

  // A sealed block is short: its last entry starts within 16 bits.
  lemma SealedIsShort(image: Image, es: seq<Rec>)
    requires Holds(image, es) && |image.offsets| <= U16_MAX
    ensures |Sealed(image)| == |image.data| + 2 * |image.offsets| + 6 < 0x10_0000
  {
    if es != [] {
      assert Placed(image, es, |es| - 1);
      assert es[..|es| - 1] + [es[|es| - 1]] == es;
    }
  }

  lemma LastBlockIsShort(data: ByteString, metas: seq<Meta>, parts: seq<seq<Rec>>)
    requires Ready(data, metas, parts)
    ensures 0 < |metas| && metas[|metas| - 1].offset <= |data| < metas[|metas| - 1].offset + 0x10_0000
  {
    assert Opened(0);
    var n := |parts| - 1;
    assert SealedAt(data, metas, parts, n);
    var image :| Holds(image, parts[n]) && |image.offsets| <= U16_MAX && data[metas[n].offset..|data|] == Sealed(image);
    SealedIsShort(image, parts[n]);
  }

  // Once its blocks take 2^32 bytes or more, a table's last block ends before it starts:
  // the table stores no list of records at all.
  lemma Outgrown(hasher: Hasher, sst: Sst, data: ByteString, parts: seq<seq<Rec>>)
    requires Ready(data, sst.metas, parts) && |data| >= TWO32 && sst.metaOffset == |data| % TWO32
    ensures !IsTable(hasher, sst) && 0 < |sst.metas| && BlockEnd(sst, |sst.metas| - 1) < sst.metas[|sst.metas| - 1].offset
  {
    LastBlockIsShort(data, sst.metas, parts);
    var n := |sst.metas| - 1;
    assert BlockEnd(sst, n) == |data| % TWO32 <= |data| - TWO32;
    forall blocks
      ensures !Stores(hasher, sst, blocks)
    {
      if Stores(hasher, sst, blocks) {
        StoredEnds(hasher, sst, blocks, n);
      }
    }
  }

  lemma StoredEnds(hasher: Hasher, sst: Sst, blocks: seq<seq<Rec>>, i: nat)
    requires Stores(hasher, sst, blocks) && i < |sst.metas|
    ensures sst.metas[i].offset <= BlockEnd(sst, i)
  {
    LookInside(hasher, sst, blocks);
    assert BlockAt(sst, i, blocks[i]);
  }

  class SSTBuilder {
    const hasher: Hasher
    const blockSize: nat
    var block: Block
    var metas: seq<Meta>
    var data: ByteString
    var first: Key
    var last: Key
    const filter: BloomFilter?
    var minVer: u64
    var maxVer: u64

    // The blocks already sealed and the entries of the open one.
    ghost var done: seq<seq<Rec>>
    ghost var open: seq<Rec>

    ghost function Parts(): seq<seq<Rec>>
      reads this
    {
      PartsOf(done, open)
    }

    ghost function Records(): seq<Rec>
      reads this
    {
      Flat(Parts())
    }

    function Kept(): Option<Filter>
      reads filter
    {
      if filter == null then None else Some(filter.Snapshot())
    }

    // What the filter and the range of versions say covers these records.
    ghost predicate Noted(s: seq<Rec>)
      reads this, filter
    {
      (filter != null ==> filter.hasher == hasher) && Learned(Tally(hasher, Kept(), minVer, maxVer), s)
    }

    ghost predicate Valid()
      reads this, block, filter
    {
      && block.Holding(open) && block.capacity == blockSize && |open| <= U16_MAX
      && Draft(Sketch(data, metas, done, open, first, last))
      && Noted(Records())
    }

    constructor (hasher: Hasher, blockSize: nat, filter: BloomFilter?)
      requires filter != null ==> filter.Valid() && filter.hasher == hasher
      ensures Valid() && open == [] && Records() == [] && fresh(block) && this.filter == filter && this.hasher == hasher
    {
      this.hasher, this.blockSize, this.filter := hasher, blockSize, filter;
      metas, data, first, last := [], [], [], [];
      minVer, maxVer := 0xFFFF_FFFF_FFFF_FFFF, 0;
      done, open := [], [];
      var b := new Block(blockSize);
      block := b;
    }

    // Seals the open block under the names kept for it.
    method FinishBlock() returns (ghost bytes: ByteString)
      requires block.Holding(open) && 0 < |open| <= U16_MAX
      modifies this`block, this`metas, this`data
      ensures IsImageOf(bytes, open) && data == old(data) + bytes
      ensures metas == old(metas) + [Meta(|old(data)|, first, last)]
      ensures fresh(block) && block.Holding([]) && block.capacity == blockSize
    {
      assert Holds(Image(block.data, block.offsets), open);
      var encoded := block.Encode();
      bytes := encoded.value;
      metas := metas + [Meta(|data|, first, last)];
      data := data + encoded.value;
      block := new Block(blockSize);
    }

    // The filter learns the key, and an unnamed table takes it as its first name.
    method Note(key: Key, ver: u64, ghost e: Rec)
      requires Noted(Records()) && e.key == key && e.ver == ver
      modifies this`first, this`minVer, this`maxVer, filter
      ensures first == Named(old(first), key)
      ensures Noted(Records() + [e])
    {
      assert Opened(0);
      SpansOne(minVer, maxVer, Records(), e);
      if first == [] {
        first := key;
      }
      if filter != null {
        filter.Add(key);
      }
      maxVer := if ver > maxVer then ver else maxVer;
      minVer := if ver < minVer then ver else minVer;
    }

    // Err: a 16-bit limit of the block format is exceeded; the builder is then given up.
    method Add(key: Key, value: ByteString, ver: u64) returns (r: Result<()>)
      requires Valid() && Follows(open, Rec(key, value, ver))
      modifies this, block, filter
      ensures r.Ok? ==> Valid() && Records() == old(Records()) + [Rec(key, value, ver)]
      ensures r.Ok? ==> open != [] && open[|open| - 1] == Rec(key, value, ver)
      ensures r.Err? ==> r.error == LengthError
      ensures (block == old(block) || fresh(block))
    {
      ghost var e := Rec(key, value, ver);
      ghost var named := first;
      Note(key, ver, e);
      r := Place(key, value, ver, named);
    }

    method Place(key: Key, value: ByteString, ver: u64, ghost named: Key) returns (r: Result<()>)
      requires block.Holding(open) && block.capacity == blockSize && |open| <= U16_MAX
      requires Draft(Sketch(data, metas, done, open, named, last)) && Follows(open, Rec(key, value, ver)) && first == Named(named, key)
      requires Noted(Records() + [Rec(key, value, ver)])
      modifies this, block
      ensures r.Ok? ==> Valid() && Records() == old(Records()) + [Rec(key, value, ver)]
      ensures r.Ok? ==> open != [] && open[|open| - 1] == Rec(key, value, ver)
      ensures r.Err? ==> r.error == LengthError
      ensures (block == old(block) || fresh(block))
    {
      ghost var e := Rec(key, value, ver);
      var force := key == last;
      var added := block.AddEntry(key, value, ver, force, open);
      if added.Refused? {
        return Err(LengthError);
      }
      if added.Added? {
        Accept(key, named, e);
        return Ok(());
      }
      DraftNames(data, metas, done, open, named, last);
      LessTotal(key, last);
      r := Restart(key, value, ver, named);
    }

    // The record went into the open block.
    method Accept(key: Key, ghost named: Key, ghost e: Rec)
      requires block.Holding(open + [e]) && block.capacity == blockSize && |open| < U16_MAX
      requires Draft(Sketch(data, metas, done, open, named, last)) && Follows(open, e) && first == Named(named, key)
      requires e.key == key && Noted(Records() + [e])
      modifies this`last, this`open
      ensures Valid() && Records() == old(Records()) + [e] && open == old(open) + [e]
    {
      DraftAccepts(data, metas, done, open, named, last, e);
      last := key;
      open := open + [e];
    }

    // Seals the open block and leaves an empty one for e.
    method Seal(ghost named: Key, ghost e: Rec)
      requires block.Holding(open) && 0 < |open| <= U16_MAX
      requires Draft(Sketch(data, metas, done, open, named, last)) && Less(last, e.key) && first == Named(named, e.key)
      modifies this`block, this`metas, this`data, this`done
      ensures Draft(Sketch(data, metas, done, [e], e.key, e.key))
      ensures Flat(PartsOf(done, [e])) == old(Records()) + [e]
      ensures fresh(block) && block.Holding([]) && block.capacity == blockSize
    {
      ghost var bytes := FinishBlock();
      DraftRestarts(old(data), old(metas), done, open, named, last, bytes, e);
      done := done + [open];
    }

    // A full block is sealed and the record opens the next one.
    method Restart(key: Key, value: ByteString, ver: u64, ghost named: Key) returns (r: Result<()>)
      requires block.Holding(open) && block.capacity == blockSize && 0 < |open| <= U16_MAX
      requires Draft(Sketch(data, metas, done, open, named, last)) && Less(last, key) && first == Named(named, key)
      requires Noted(Records() + [Rec(key, value, ver)])
      modifies this, block
      ensures r.Ok? ==> Valid() && Records() == old(Records()) + [Rec(key, value, ver)]
      ensures r.Ok? ==> open == [Rec(key, value, ver)]
      ensures r.Err? ==> r.error == LengthError
      ensures (block == old(block) || fresh(block))
    {
      ghost var e := Rec(key, value, ver);
      Seal(named, e);
      var added := block.AddEntry(key, value, ver, false, []);
      if added.Refused? {
        return Err(LengthError);
      }
      assert [] + [e] == [e];
      Reopen(key, e);
      return Ok(());
    }

    method Reopen(key: Key, ghost e: Rec)
      requires block.Holding([e]) && block.capacity == blockSize
      requires Draft(Sketch(data, metas, done, [e], key, key)) && Noted(Flat(PartsOf(done, [e])))
      modifies this`first, this`last, this`open
      ensures Valid() && open == [e] && Records() == Flat(PartsOf(done, [e]))
    {
      open := [e];
      first, last := key, key;
    }

    function EstimatedSize(): nat
      reads this
    {
      |data|
    }

    function RealSize(): nat
      reads this, block
    {
      |data| + block.CurSize()
    }

    // What is taken so far can be built into a table whose offsets fit 32 bits.
    predicate FitsOffsets()
      reads this, block
    {
      RealSize() + 4 < TWO32
    }

    // Seals the open block, if any, and writes the file.  Only a builder that took no
    // record cannot be built.  The table stores the records exactly if its blocks, with
    // the last one's checksum, take less than 2^32 bytes; nothing is reported otherwise.
    method Build(id: nat) returns (r: Result<Sst>, ghost blocks: ByteString, ghost section: ByteString)
      requires Valid()
      modifies this`block, this`metas, this`data
      ensures r.Ok? <==> old(Records()) != []
      ensures r.Err? ==> r.error == LogicError
      ensures r.Ok? ==> r.value.id == id && Laid(hasher, r.value, blocks, section) && |blocks| == old(RealSize()) + 4
      ensures r.Ok? ==> (Stores(hasher, r.value, old(Parts())) <==> old(FitsOffsets()))
      ensures r.Ok? ==> (IsTable(hasher, r.value) <==> old(FitsOffsets()))
      ensures r.Ok? ==> Dated(r.value, old(Records()))
    {
      ghost var parts := Parts();
      blocks, section := [], [];
      DraftNames(data, metas, done, open, first, last);
      if |block.offsets| == 0 {
        return Err(LogicError), blocks, section;
      }
      SealedIsShort(Image(block.data, block.offsets), open);
      ghost var bytes := FinishBlock();
      DraftEnds(old(data), old(metas), done, open, first, last, bytes);
      var sst;
      sst, blocks, section := Write(id, parts);
      FlatOrdered(parts);
      r := Ok(sst);
    }

    method Write(id: nat, ghost parts: seq<seq<Rec>>) returns (sst: Sst, ghost blocks: ByteString, ghost section: ByteString)
      requires Ready(data, metas, parts) && Noted(Flat(parts))
      modifies this`data
      ensures sst.id == id && blocks == old(data) && Laid(hasher, sst, blocks, section)
      ensures if |old(data)| < TWO32 then Stores(hasher, sst, parts) else !IsTable(hasher, sst)
      ensures Dated(sst, Flat(parts))
    {
      assert Covers(hasher, Kept(), Flat(parts)) && Spans(Range(minVer, maxVer), Flat(parts)) by {
        assert Opened(0);
      }
      blocks := data;
      var metaOffset := |data| % TWO32;
      ReadyFits(data, metas, parts);
      var table := EncodeTable(hasher, metas);
      data := data + table;
      var bloomOffset := |data| % TWO32;
      var kept, filterBytes := Kept(), [];
      if kept.Some? {
        filterBytes := Bloom.Encode(kept.value);
      }
      section := filterBytes;
      data := data + filterBytes;
      data := data + Footer(metaOffset, bloomOffset, minVer, maxVer);
      sst := Sst(id, data, metas, metaOffset, bloomOffset, kept, minVer, maxVer, metas[0].first, metas[|metas| - 1].last);
      TableWritten(hasher, sst, blocks, section, parts);
    }
  }

  lemma TableWritten(hasher: Hasher, sst: Sst, blocks: ByteString, section: ByteString, parts: seq<seq<Rec>>)
    requires var footer := Footer(sst.metaOffset, sst.bloomOffset, sst.minVer, sst.maxVer);
             sst.file == blocks + TableBytes(hasher, sst.metas) + section + footer
    requires sst.metaOffset == |blocks| % TWO32 && sst.bloomOffset == (|blocks| + |TableBytes(hasher, sst.metas)|) % TWO32
    requires FilterSection(section, sst.filter) && sst.minVer < TWO64 && sst.maxVer < TWO64
    requires Ready(blocks, sst.metas, parts)
    requires |sst.metas| > 0 && sst.first == sst.metas[0].first && sst.last == sst.metas[|sst.metas| - 1].last
    requires Covers(hasher, sst.filter, Flat(parts))
    ensures if |blocks| < TWO32 then Stores(hasher, sst, parts) else !IsTable(hasher, sst)
    ensures Laid(hasher, sst, blocks, section)
  {
    var table, footer := TableBytes(hasher, sst.metas), Footer(sst.metaOffset, sst.bloomOffset, sst.minVer, sst.maxVer);
    var rest := table + (section + footer);
    assert sst.file == blocks + table + (section + footer) && sst.file == blocks + rest by {
      Assembled(blocks, table, section, footer);
    }
    ReadyLaid(hasher, sst, blocks, section, parts);
    ReadyStoresOrNot(hasher, sst, blocks, rest, parts);
  }

  lemma ReadyLaid(hasher: Hasher, sst: Sst, blocks: ByteString, section: ByteString, parts: seq<seq<Rec>>)
    requires var footer := Footer(sst.metaOffset, sst.bloomOffset, sst.minVer, sst.maxVer);
             sst.file == blocks + TableBytes(hasher, sst.metas) + (section + footer)
    requires sst.metaOffset == |blocks| % TWO32 && sst.bloomOffset == (|blocks| + |TableBytes(hasher, sst.metas)|) % TWO32
    requires FilterSection(section, sst.filter) && sst.minVer < TWO64 && sst.maxVer < TWO64 && Ready(blocks, sst.metas, parts)
    requires |sst.metas| > 0 && sst.first == sst.metas[0].first && sst.last == sst.metas[|sst.metas| - 1].last
    ensures Laid(hasher, sst, blocks, section)
  {
    ReadyFits(blocks, sst.metas, parts);
  }

  lemma ReadyStoresOrNot(hasher: Hasher, sst: Sst, blocks: ByteString, rest: ByteString, parts: seq<seq<Rec>>)
    requires sst.file == blocks + rest && sst.metaOffset == |blocks| % TWO32 && Ready(blocks, sst.metas, parts)
    requires |sst.metas| > 0 && sst.first == sst.metas[0].first && sst.last == sst.metas[|sst.metas| - 1].last
    requires Covers(hasher, sst.filter, Flat(parts))
    ensures if |blocks| < TWO32 then Stores(hasher, sst, parts) else !IsTable(hasher, sst)
  {
    if |blocks| < TWO32 {
      ReadyStores(hasher, sst, blocks, rest, parts);
    } else {
      Outgrown(hasher, sst, blocks, parts);
    }
  }

  lemma ReadyStores(hasher: Hasher, sst: Sst, blocks: ByteString, rest: ByteString, parts: seq<seq<Rec>>)
    requires sst.file == blocks + rest && sst.metaOffset == |blocks| && Ready(blocks, sst.metas, parts)
    requires |sst.metas| > 0 && sst.first == sst.metas[0].first && sst.last == sst.metas[|sst.metas| - 1].last
    requires Covers(hasher, sst.filter, Flat(parts))
    ensures Stores(hasher, sst, parts)
  {
    assert Finished(blocks, sst.metas, parts) && Names(sst.metas, parts) && Separated(parts) && parts != [] by {
      assert Opened(0);
    }
    Written(hasher, sst, blocks, rest, parts);
  }

  lemma Assembled(a: ByteString, b: ByteString, c: ByteString, d: ByteString)
    ensures a + b + c + d == a + b + (c + d) == a + (b + (c + d))
  {
  }
}
