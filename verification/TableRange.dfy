// The stretch of a table that a monotone predicate on keys selects.

module TableRanges {
  import opened Bytes
  import opened Mvcc
  import opened Blocks
  import opened BlockSearch
  import opened Bloom
  import opened SstMeta
  import opened Ssts
  import opened Streams
  import opened TableIterators

  lemma CutShown(a: seq<Rec>, b: seq<Rec>, c: seq<Rec>, mode: Mode, pred: Key -> int)
    requires NoneHit(a, pred) && AllHit(b, pred) && NoneHit(c, pred) && NoCommonKey(a, c)
    ensures Shown(a + b + c, mode) == Shown(a, mode) + Shown(b, mode) + Shown(c, mode)
    ensures Shown(b + c, mode) == Shown(b, mode) + Shown(c, mode)
    ensures NoneHit(Shown(a, mode), pred) && AllHit(Shown(b, mode), pred) && NoneHit(Shown(c, mode), pred)
  {
    NoCommonHits(a, b, c, pred);
    ShownTwice(a, b, c, mode);
    ShownHits(a, mode, pred);
    ShownHits(b, mode, pred);
    ShownHits(c, mode, pred);
  }

  lemma ShownTwice(a: seq<Rec>, b: seq<Rec>, c: seq<Rec>, mode: Mode)
    requires NoCommonKey(b, c) && NoCommonKey(a, b + c)
    ensures Shown(a + b + c, mode) == Shown(a, mode) + Shown(b, mode) + Shown(c, mode)
    ensures Shown(b + c, mode) == Shown(b, mode) + Shown(c, mode)
  {
    var bc := b + c;
    var abc := a + bc;
    ShownAppend(b, c, mode);
    ShownAppend(a, bc, mode);
    Regroup(a, b, c);
    Regroup(Shown(a, mode), Shown(b, mode), Shown(c, mode));
  }

  lemma NoCommonHits(a: seq<Rec>, b: seq<Rec>, c: seq<Rec>, pred: Key -> int)
    requires NoneHit(a, pred) && AllHit(b, pred) && NoneHit(c, pred) && NoCommonKey(a, c)
    ensures NoCommonKey(b, c) && NoCommonKey(a, b + c)
  {
  }

  lemma SidesDiffer(es: seq<Rec>, first: nat, end: nat, pred: Key -> int)
    requires first < end <= |es| && Ordered(es) && Monotone(pred)
    requires forall i :: 0 <= i < |es| ==> (first <= i < end <==> pred(es[i].key) == 0)
    ensures NoCommonKey(es[..first], es[end..])
  {
    forall i, j | 0 <= i < first && end <= j < |es|
      ensures es[i].key != es[j].key
    {
      KeysAscend(es, i, first);
      KeysAscend(es, first, j);
      assert pred(es[i].key) > 0 > pred(es[j].key);
    }
  }

  // A block falls into what lies before, inside and behind the selected stretch.
  lemma BlockCut(es: seq<Rec>, first: nat, end: nat, mode: Mode, pred: Key -> int)
    requires first < end <= |es| && Ordered(es) && Monotone(pred)
    requires forall i :: 0 <= i < |es| ==> (first <= i < end <==> pred(es[i].key) == 0)
    ensures var pre, mid, post := Shown(es[..first], mode), Shown(es[first..end], mode), Shown(es[end..], mode);
            && Shown(es, mode) == pre + mid + post && Shown(es[first..], mode) == mid + post
            && NoneHit(pre, pred) && AllHit(mid, pred) && NoneHit(post, pred)
  {
    SidesDiffer(es, first, end, pred);
    SliceHits(es, first, end, pred);
    var a, b, c := es[..first], es[first..end], es[end..];
    assert a + b + c == es && b + c == es[first..];
    CutParts(a, b, c, es, es[first..], mode, pred);
  }

  lemma CutParts(a: seq<Rec>, b: seq<Rec>, c: seq<Rec>, all: seq<Rec>, tail: seq<Rec>, mode: Mode, pred: Key -> int)
    requires NoneHit(a, pred) && AllHit(b, pred) && NoneHit(c, pred) && NoCommonKey(a, c) && all == a + b + c && tail == b + c
    ensures Shown(all, mode) == Shown(a, mode) + Shown(b, mode) + Shown(c, mode) && Shown(tail, mode) == Shown(b, mode) + Shown(c, mode)
    ensures NoneHit(Shown(a, mode), pred) && AllHit(Shown(b, mode), pred) && NoneHit(Shown(c, mode), pred)
  {
    CutShown(a, b, c, mode, pred);
  }

  lemma SliceHits(es: seq<Rec>, first: nat, end: nat, pred: Key -> int)
    requires first < end <= |es|
    requires forall i :: 0 <= i < |es| ==> (first <= i < end <==> pred(es[i].key) == 0)
    ensures NoneHit(es[..first], pred) && AllHit(es[first..end], pred) && NoneHit(es[end..], pred)
  {
  }

  // The selected part of block i: where the records shown there begin and where the
  // records behind it begin.  None if none of the selected records is shown.
  datatype Stretch = Stretch(begin: BlockIt, end: BlockIt)

  ghost predicate Cuts(es: seq<Rec>, st: Stretch, mode: Mode, pred: Key -> int, pre: seq<Rec>, mid: seq<Rec>)
  {
    && OnBlock(st.begin, es) && OnBlock(st.end, es) && st.begin.mode == st.end.mode == mode && st.begin.index < |es|
    && |st.end.image.offsets| == |es|
    && NoneHit(pre, pred) && AllHit(mid, pred) && mid != [] && NoneHit(BlockRest(st.end, es), pred)
    && BlockRest(st.begin, es) == mid + BlockRest(st.end, es)
    && Shown(es, mode) == pre + mid + BlockRest(st.end, es)
    && (st.end.index == |es| ==> BlockRest(st.end, es) == [])
  }

  method CutBlock(image: Image, mode: Mode, pred: Key -> int, ghost es: seq<Rec>)
    returns (r: Option<Stretch>, ghost pre: seq<Rec>, ghost mid: seq<Rec>)
    requires Searchable(image, es) && Monotone(pred) && !mode.keepAll
    ensures r.None? ==> NoneHit(Shown(es, mode), pred)
    ensures r.Some? ==> Cuts(es, r.value, mode, pred, pre, mid)
  {
    pre, mid := [], [];
    var range := SelectRange(image, pred, es);
    if range.None? {
      ShownHits(es, mode, pred);
      return None, pre, mid;
    }
    var (first, end) := range.value;
    BlockCut(es, first, end, mode, pred);
    pre, mid := Shown(es[..first], mode), Shown(es[first..end], mode);
    var begin := StartBlock(image, first, mode, es);
    var behind := StartBlock(image, end, mode, es);
    if begin.index == behind.index {
      assert |mid| == 0;
      return None, pre, mid;
    }
    HeadShown2(begin, behind, es, first, end);
    return Some(Stretch(begin, behind)), pre, mid;
  }

  // If the two places differ, the first is a selected record.
  lemma HeadShown2(begin: BlockIt, behind: BlockIt, es: seq<Rec>, first: nat, end: nat)
    requires first <= end <= |es| && OnBlock(begin, es) && OnBlock(behind, es) && begin.mode == behind.mode
    requires first <= begin.index && forall k :: first <= k < begin.index ==> !Shows(begin.mode, es[k])
    requires end <= behind.index && forall k :: end <= k < behind.index ==> !Shows(begin.mode, es[k])
    requires begin.index != behind.index
    ensures begin.index < end && BlockRest(begin, es) != [] && BlockRest(begin, es)[0] == es[begin.index]
  {
    if begin.index < |es| {
      HeadShown(begin, es);
    }
  }

  // What block i's names say about the predicate.
  lemma NamesAndPredicate(sst: Sst, blocks: seq<seq<Rec>>, i: nat, pred: Key -> int)
    requires Separated(blocks) && Names(sst.metas, blocks) && i < |blocks| && Monotone(pred) && pred([]) > 0
    ensures pred(sst.metas[i].first) < 0 ==> forall k :: i <= k < |blocks| ==> NoneHit(blocks[k], pred)
    ensures pred(sst.metas[i].last) > 0 ==> NoneHit(blocks[i], pred)
  {
    var here := blocks[i];
    forall a | 0 <= a < |here|
      ensures pred(sst.metas[i].last) > 0 ==> pred(here[a].key) != 0
    {
      KeysAscend(here, a, |here| - 1);
    }
    if pred(sst.metas[i].first) < 0 {
      forall k, a | i <= k < |blocks| && 0 <= a < |blocks[k]|
        ensures pred(blocks[k][a].key) != 0
      {
        if i == 0 {
          FlatOrdered(blocks);
          FlatHas(blocks, k, a);
          AtLeastFirstName(Flat(blocks), blocks[k][a].key);
          LessTotal(blocks[k][a].key, sst.metas[0].first);
        } else if i < k {
          assert KeysBelow(here, blocks[k]) && Less(here[0].key, blocks[k][a].key);
        } else {
          KeysAscend(here, 0, a);
        }
      }
    }
  }

  lemma AtLeastFirstName(s: seq<Rec>, key: Key)
    requires Ordered(s) && exists i :: 0 <= i < |s| && s[i].key == key
    ensures key == [] || !Less(key, FirstName(s))
  {
    if key != [] && Less(key, FirstName(s)) {
      FirstNameLeast(s, key);
    }
  }

  // In some block, possibly at that block's end.
  ghost predicate At(blocks: seq<seq<Rec>>, it: SstIt)
  {
    match it
    case SstIt(_, mode, blockIdx, block) =>
      && blockIdx < |blocks| && block.Some? && block.value.mode == mode
      && OnBlock(block.value, blocks[blockIdx]) && |block.value.image.offsets| == |blocks[blockIdx]|
      && (block.value.index == |blocks[blockIdx]| ==> BlockRest(block.value, blocks[blockIdx]) == [])
  }

  ghost function RestAt(blocks: seq<seq<Rec>>, it: SstIt): seq<Rec>
    requires At(blocks, it)
  {
    BlockRest(it.block.value, blocks[it.blockIdx]) + ShownFrom(blocks, it.blockIdx + 1, it.mode)
  }

  // How everything shown falls apart: before the selected records (p), those (x), what
  // was seen since (quiet), what is still to be looked at (tail).
  datatype Parting = Parting(all: seq<Rec>, p: seq<Rec>, x: seq<Rec>, quiet: seq<Rec>, tail: seq<Rec>)

  ghost predicate Sums(t: Parting, pred: Key -> int, fromBegin: seq<Rec>, fromEnd: seq<Rec>)
  {
    match t
    case Parting(all, p, x, quiet, tail) =>
      && NoneHit(p, pred) && NoneHit(quiet, pred) && x != [] && AllHit(x, pred)
      && all == p + x + quiet + tail && fromBegin == x + fromEnd && fromEnd == quiet + tail
  }

  lemma SumsPass(t: Parting, pred: Key -> int, fromBegin: seq<Rec>, fromEnd: seq<Rec>, here: seq<Rec>, later: seq<Rec>)
    requires Sums(t, pred, fromBegin, fromEnd) && t.tail == here + later && NoneHit(here, pred)
    ensures Sums(t.(quiet := t.quiet + here, tail := later), pred, fromBegin, fromEnd)
  {
  }

  lemma SumsBegin(all: seq<Rec>, p: seq<Rec>, pred: Key -> int, pre: seq<Rec>, mid: seq<Rec>, post: seq<Rec>, later: seq<Rec>)
    requires all == p + (pre + mid + post + later) && NoneHit(p, pred) && NoneHit(pre, pred)
    requires AllHit(mid, pred) && mid != [] && NoneHit(post, pred)
    ensures Sums(Parting(all, p + pre, mid, post, later), pred, (mid + post) + later, post + later)
  {
  }

  lemma SumsExtend(t: Parting, pred: Key -> int, fromBegin: seq<Rec>, fromEnd: seq<Rec>,
                   pre: seq<Rec>, mid: seq<Rec>, post: seq<Rec>, later: seq<Rec>)
    requires Sums(t, pred, fromBegin, fromEnd) && t.tail == pre + mid + post + later && KeysRise(t.all) && Monotone(pred)
    requires AllHit(mid, pred) && mid != [] && NoneHit(post, pred)
    ensures Sums(t.(x := t.x + (t.quiet + pre) + mid, quiet := post, tail := later), pred, fromBegin, post + later)
  {
    var z := t.quiet + pre;
    assert t.all == t.p + t.x + z + mid + (post + later);
    Between(t.all, t.p, t.x, z, mid, post + later, pred);
    HitsTogether(t.x, z, mid, pred);
    assert t.all == t.p + (t.x + z + mid) + post + later;
    assert fromBegin == (t.x + z + mid) + (post + later);
  }

  lemma HitsTogether(x: seq<Rec>, z: seq<Rec>, y: seq<Rec>, pred: Key -> int)
    requires AllHit(x, pred) && AllHit(z, pred) && AllHit(y, pred)
    ensures AllHit(x + z + y, pred)
  {
  }

  // No selected record seen before block i.
  ghost predicate Seeking(blocks: seq<seq<Rec>>, i: nat, mode: Mode, pred: Key -> int, p: seq<Rec>)
  {
    i <= |blocks| && ShownFrom(blocks, 0, mode) == p + ShownFrom(blocks, i, mode) && NoneHit(p, pred)
  }

  // The selected records begin and so far end here.
  ghost predicate Tracking(blocks: seq<seq<Rec>>, i: nat, mode: Mode, pred: Key -> int, begin: SstIt, end: SstIt, t: Parting)
  {
    match t
    case Parting(all, _, _, _, tail) =>
      && i <= |blocks| && At(blocks, begin) && At(blocks, end) && begin.mode == end.mode == mode
      && begin.block.value.index < |blocks[begin.blockIdx]|
      && all == ShownFrom(blocks, 0, mode) && tail == ShownFrom(blocks, i, mode)
      && Sums(t, pred, RestAt(blocks, begin), RestAt(blocks, end))
  }

  lemma TrackPass(blocks: seq<seq<Rec>>, i: nat, mode: Mode, pred: Key -> int, begin: SstIt, end: SstIt, t: Parting)
    requires Separated(blocks) && i < |blocks| && NoneHit(Shown(blocks[i], mode), pred)
    requires Tracking(blocks, i, mode, pred, begin, end, t)
    ensures Tracking(blocks, i + 1, mode, pred, begin, end,
                     t.(quiet := t.quiet + Shown(blocks[i], mode), tail := ShownFrom(blocks, i + 1, mode)))
  {
    BlockThenRest(blocks, i, mode);
    SumsPass(t, pred, RestAt(blocks, begin), RestAt(blocks, end), Shown(blocks[i], mode), ShownFrom(blocks, i + 1, mode));
  }

  lemma SeekPass(blocks: seq<seq<Rec>>, i: nat, mode: Mode, pred: Key -> int, p: seq<Rec>)
    requires Separated(blocks) && i < |blocks| && NoneHit(Shown(blocks[i], mode), pred) && Seeking(blocks, i, mode, pred, p)
    ensures Seeking(blocks, i + 1, mode, pred, p + Shown(blocks[i], mode))
  {
    BlockThenRest(blocks, i, mode);
    var here, later := Shown(blocks[i], mode), ShownFrom(blocks, i + 1, mode);
    assert p + (here + later) == p + here + later;
  }

  lemma TrackBegin(sst: Sst, blocks: seq<seq<Rec>>, i: nat, mode: Mode, pred: Key -> int, p: seq<Rec>,
                   st: Stretch, pre: seq<Rec>, mid: seq<Rec>)
    requires Separated(blocks) && i < |blocks| && Seeking(blocks, i, mode, pred, p) && Cuts(blocks[i], st, mode, pred, pre, mid)
    ensures Tracking(blocks, i + 1, mode, pred, SstIt(sst, mode, i, Some(st.begin)), SstIt(sst, mode, i, Some(st.end)),
                     Parting(ShownFrom(blocks, 0, mode), p + pre, mid, BlockRest(st.end, blocks[i]), ShownFrom(blocks, i + 1, mode)))
  {
    BlockThenRest(blocks, i, mode);
    SumsBegin(ShownFrom(blocks, 0, mode), p, pred, pre, mid, BlockRest(st.end, blocks[i]), ShownFrom(blocks, i + 1, mode));
  }

  lemma ShownRises(blocks: seq<seq<Rec>>, mode: Mode)
    requires Separated(blocks) && !mode.keepAll
    ensures KeysRise(ShownFrom(blocks, 0, mode))
  {
    assert blocks[0..] == blocks;
    FlatOrdered(blocks);
    ShownMeaning(Flat(blocks), mode);
  }

  lemma TrackExtend(blocks: seq<seq<Rec>>, i: nat, mode: Mode, pred: Key -> int, begin: SstIt, end: SstIt,
                    t: Parting, last: SstIt, pre: seq<Rec>, mid: seq<Rec>, post: seq<Rec>)
    requires i < |blocks| && Tracking(blocks, i, mode, pred, begin, end, t) && Monotone(pred)
    requires At(blocks, last) && last.mode == mode && RestAt(blocks, last) == post + ShownFrom(blocks, i + 1, mode)
    requires ShownFrom(blocks, i, mode) == pre + mid + post + ShownFrom(blocks, i + 1, mode)
    requires AllHit(mid, pred) && mid != [] && NoneHit(post, pred) && KeysRise(ShownFrom(blocks, 0, mode))
    ensures Tracking(blocks, i + 1, mode, pred, begin, last,
                     t.(x := t.x + (t.quiet + pre) + mid, quiet := post, tail := ShownFrom(blocks, i + 1, mode)))
  {
    SumsExtend(t, pred, RestAt(blocks, begin), RestAt(blocks, end), pre, mid, post, ShownFrom(blocks, i + 1, mode));
  }

  // What cutting block i tells about the whole table.
  lemma CutInTable(sst: Sst, blocks: seq<seq<Rec>>, i: nat, mode: Mode, pred: Key -> int, st: Stretch, pre: seq<Rec>, mid: seq<Rec>)
    requires Separated(blocks) && i < |blocks| && Cuts(blocks[i], st, mode, pred, pre, mid) && !mode.keepAll
    ensures var last, post := SstIt(sst, mode, i, Some(st.end)), BlockRest(st.end, blocks[i]);
            && At(blocks, last) && RestAt(blocks, last) == post + ShownFrom(blocks, i + 1, mode)
            && ShownFrom(blocks, i, mode) == pre + mid + post + ShownFrom(blocks, i + 1, mode)
            && AllHit(mid, pred) && mid != [] && NoneHit(post, pred) && KeysRise(ShownFrom(blocks, 0, mode))
  {
    BlockThenRest(blocks, i, mode);
    ShownRises(blocks, mode);
  }

  // Behind block i nothing is selected.
  lemma {:induction false} NothingBehind(blocks: seq<seq<Rec>>, i: nat, mode: Mode, pred: Key -> int)
    requires Separated(blocks) && i <= |blocks| && forall k :: i <= k < |blocks| ==> NoneHit(blocks[k], pred)
    ensures NoneHit(ShownFrom(blocks, i, mode), pred)
    decreases |blocks| - i
  {
    if i < |blocks| {
      NothingBehind(blocks, i + 1, mode, pred);
      BlockThenRest(blocks, i, mode);
      ShownHits(blocks[i], mode, pred);
    }
  }

  // Begin and end of the records of a table that are shown and selected: from begin on
  // come exactly those (x), then what end still shows, none of it selected.
  datatype Range = Range(begin: SstIt, end: SstIt)

  ghost predicate Delimits(hasher: Hasher, range: Range, shown: seq<Rec>, pred: Key -> int, x: seq<Rec>)
  {
    && OnTable(hasher, range.begin) && OnTable(hasher, range.end)
    && x != [] && x == Selected(shown, pred)
    && TableRest(hasher, range.begin) == x + TableRest(hasher, range.end)
    && NoneHit(TableRest(hasher, range.end), pred)
  }

  // One block of the walk.
  method Visit(hasher: Hasher, sst: Sst, i: nat, mode: Mode, pred: Key -> int)
    returns (r: Option<Stretch>, ghost pre: seq<Rec>, ghost mid: seq<Rec>)
    requires IsTable(hasher, sst) && i < |BlocksOf(hasher, sst)| && Monotone(pred) && !mode.keepAll
    ensures r.None? ==> NoneHit(Shown(BlocksOf(hasher, sst)[i], mode), pred)
    ensures r.Some? ==> Cuts(BlocksOf(hasher, sst)[i], r.value, mode, pred, pre, mid)
  {
    var image := LoadBlock(hasher, sst, i, BlocksOf(hasher, sst));
    r, pre, mid := CutBlock(image, mode, pred, BlocksOf(hasher, sst)[i]);
  }

  // An end that came to lie at the end of its block moves on to the next record shown.
  method SettleEnd(hasher: Hasher, end: SstIt) returns (r: SstIt)
    requires IsTable(hasher, end.sst) && At(BlocksOf(hasher, end.sst), end)
    ensures OnTable(hasher, r) && r.sst == end.sst && r.mode == end.mode
    ensures TableRest(hasher, r) == RestAt(BlocksOf(hasher, end.sst), end)
  {
    var block := end.block.value;
    if block.index == |block.image.offsets| {
      r := SettleFrom(hasher, end.sst, end.blockIdx + 1, end.mode);
    } else {
      r := end;
    }
  }

  method Finish(hasher: Hasher, sst: Sst, mode: Mode, pred: Key -> int, i: nat, begin: SstIt, end: SstIt, ghost t: Parting)
    returns (range: Range, ghost x: seq<Rec>)
    requires IsTable(hasher, sst) && begin.sst == sst && end.sst == sst
    requires Tracking(BlocksOf(hasher, sst), i, mode, pred, begin, end, t)
    requires NoneHit(ShownFrom(BlocksOf(hasher, sst), i, mode), pred)
    ensures Delimits(hasher, range, Shown(RecordsOf(hasher, sst), mode), pred, x)
  {
    ghost var blocks := BlocksOf(hasher, sst);
    assert blocks[0..] == blocks;
    x := t.x;
    Landed(hasher, sst, mode, begin.blockIdx, begin.block.value);
    var last := SettleEnd(hasher, end);
    range := Range(begin, last);
    PartingSelects(t, pred, RestAt(blocks, begin), RestAt(blocks, end));
  }

  lemma PartingSelects(t: Parting, pred: Key -> int, fromBegin: seq<Rec>, fromEnd: seq<Rec>)
    requires Sums(t, pred, fromBegin, fromEnd) && NoneHit(t.tail, pred)
    ensures Selected(t.all, pred) == t.x && NoneHit(fromEnd, pred)
  {
    SelectedAppend(t.p + t.x + t.quiet, t.tail, pred);
    SelectedAppend(t.p + t.x, t.quiet, pred);
    SelectedAppend(t.p, t.x, pred);
    SelectedOf(t.p, pred);
    SelectedOf(t.x, pred);
    SelectedOf(t.quiet, pred);
    SelectedOf(t.tail, pred);
  }

  // Where the walk stands: nothing found yet, or begin and end so far.
  datatype Walk = Seek | Track(begin: SstIt, end: SstIt)

  ghost predicate Walking(sst: Sst, blocks: seq<seq<Rec>>, i: nat, mode: Mode, pred: Key -> int, walk: Walk, p: seq<Rec>, t: Parting)
  {
    match walk
    case Seek => Seeking(blocks, i, mode, pred, p)
    case Track(begin, end) => begin.sst == sst && end.sst == sst && Tracking(blocks, i, mode, pred, begin, end, t)
  }

  // Block i has nothing to show that is selected.
  method PassOver(sst: Sst, i: nat, mode: Mode, pred: Key -> int, walk: Walk, ghost p: seq<Rec>, ghost t: Parting, ghost blocks: seq<seq<Rec>>)
    returns (ghost p': seq<Rec>, ghost t': Parting)
    requires Separated(blocks) && i < |blocks| && Walking(sst, blocks, i, mode, pred, walk, p, t)
    requires NoneHit(Shown(blocks[i], mode), pred)
    ensures Walking(sst, blocks, i + 1, mode, pred, walk, p', t')
  {
    p', t' := p + Shown(blocks[i], mode), t.(quiet := t.quiet + Shown(blocks[i], mode), tail := ShownFrom(blocks, i + 1, mode));
    match walk
    case Seek => SeekPass(blocks, i, mode, pred, p);
    case Track(begin, end) => TrackPass(blocks, i, mode, pred, begin, end, t);
  }

  method TakeIn(sst: Sst, i: nat, mode: Mode, pred: Key -> int, walk: Walk, st: Stretch,
                ghost pre: seq<Rec>, ghost mid: seq<Rec>, ghost p: seq<Rec>, ghost t: Parting, ghost blocks: seq<seq<Rec>>)
    returns (walk': Walk, ghost p': seq<Rec>, ghost t': Parting)
    requires Separated(blocks) && i < |blocks| && Walking(sst, blocks, i, mode, pred, walk, p, t)
    requires Cuts(blocks[i], st, mode, pred, pre, mid) && Monotone(pred) && !mode.keepAll
    ensures Walking(sst, blocks, i + 1, mode, pred, walk', p', t')
  {
    var last := SstIt(sst, mode, i, Some(st.end));
    ghost var post, later := BlockRest(st.end, blocks[i]), ShownFrom(blocks, i + 1, mode);
    p' := p;
    match walk
    case Seek =>
      TrackBegin(sst, blocks, i, mode, pred, p, st, pre, mid);
      walk' := Track(SstIt(sst, mode, i, Some(st.begin)), last);
      t' := Parting(ShownFrom(blocks, 0, mode), p + pre, mid, post, later);
    case Track(begin, end) =>
      CutInTable(sst, blocks, i, mode, pred, st, pre, mid);
      TrackExtend(blocks, i, mode, pred, begin, end, t, last, pre, mid, post);
      walk' := Track(begin, last);
      t' := t.(x := t.x + (t.quiet + pre) + mid, quiet := post, tail := later);
  }

  // Walks the blocks by their names, reads only those that can hold a selected key, and
  // finds begin and end of the selected records; None if none is shown.
  method SelectInTable(hasher: Hasher, sst: Sst, mode: Mode, pred: Key -> int) returns (r: Option<Range>, ghost x: seq<Rec>)
    requires IsTable(hasher, sst) && Monotone(pred) && pred([]) > 0 && !mode.keepAll
    ensures r.None? ==> Selected(Shown(RecordsOf(hasher, sst), mode), pred) == []
    ensures r.Some? ==> Delimits(hasher, r.value, Shown(RecordsOf(hasher, sst), mode), pred, x)
  {
    ghost var blocks := BlocksOf(hasher, sst);
    LookInside(hasher, sst, blocks);
    assert blocks[0..] == blocks;
    var walk := Seek;
    ghost var p: seq<Rec> := [];
    ghost var t := Parting([], [], [], [], []);
    x := [];
    var i := 0;
    while i < |sst.metas|
      invariant i <= |blocks| == |sst.metas|
      invariant Walking(sst, blocks, i, mode, pred, walk, p, t)
    {
      NamesAndPredicate(sst, blocks, i, pred);
      if pred(sst.metas[i].first) < 0 {
        break;
      }
      if pred(sst.metas[i].last) > 0 {
        ShownHits(blocks[i], mode, pred);
        p, t := PassOver(sst, i, mode, pred, walk, p, t, blocks);
      } else {
        var cut: Option<Stretch>;
        ghost var pre: seq<Rec>, mid: seq<Rec>;
        cut, pre, mid := Visit(hasher, sst, i, mode, pred);
        if cut.None? {
          p, t := PassOver(sst, i, mode, pred, walk, p, t, blocks);
        } else {
          walk, p, t := TakeIn(sst, i, mode, pred, walk, cut.value, pre, mid, p, t, blocks);
        }
      }
      i := i + 1;
    }
    NothingBehind(blocks, i, mode, pred);
    match walk
    case Seek =>
      SelectedAppend(p, ShownFrom(blocks, i, mode), pred);
      SelectedOf(p, pred);
      SelectedOf(ShownFrom(blocks, i, mode), pred);
      return None, x;
    case Track(begin, end) =>
      var range;
      range, x := Finish(hasher, sst, mode, pred, i, begin, end, t);
      return Some(range), x;
  }
}
