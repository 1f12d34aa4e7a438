// A sorted string table: blocks, a table of blocks, a Bloom filter and a footer.

module Ssts {
  import opened Bytes
  import opened Mvcc
  import opened Blocks
  import opened BlockSearch
  import opened Bloom
  import opened SstMeta

  const FOOTER_SIZE := 24
  const WISCKEY_FOOTER_SIZE := 26
  const WISCKEY_MAGIC: byte := 0x4B

  // An SST never changes once built or opened.
  datatype Sst = Sst(id: nat, file: ByteString, metas: seq<Meta>, metaOffset: nat, bloomOffset: nat,
                     filter: Option<Filter>, minVer: nat, maxVer: nat, first: Key, last: Key)

  // ---- How records are cut into blocks ----

  ghost predicate KeysBelow(s: seq<Rec>, t: seq<Rec>)
  {
    forall a, b :: 0 <= a < |s| && 0 <= b < |t| ==> Less(s[a].key, t[b].key)
  }

  // No block is empty, every block is in order, and no key stands in two blocks.
  ghost predicate Separated(blocks: seq<seq<Rec>>)
  {
    && (forall i :: 0 <= i < |blocks| ==> blocks[i] != [] && Ordered(blocks[i]))
    && (forall i, j {:trigger KeysBelow(blocks[i], blocks[j])} :: 0 <= i < j < |blocks| ==> KeysBelow(blocks[i], blocks[j]))
  }

  function LastKey(s: seq<Rec>): Key
  {
    if s == [] then [] else s[|s| - 1].key
  }

  // The name the builder gives a table's start: its first key that is not the marker's.
  function FirstName(s: seq<Rec>): Key
  {
    if s == [] then [] else if s[0].key != [] then s[0].key else FirstName(s[1..])
  }

  ghost predicate Names(metas: seq<Meta>, blocks: seq<seq<Rec>>)
  {
    && |metas| == |blocks|
    && (forall i :: 0 <= i < |blocks| ==> metas[i].last == LastKey(blocks[i]))
    && (forall i :: 0 < i < |blocks| ==> blocks[i] != [] && metas[i].first == blocks[i][0].key)
    && (blocks != [] ==> metas[0].first == FirstName(Flat(blocks)))
  }

  // These bytes are the sealed image of these entries.
  ghost predicate IsImageOf(bytes: ByteString, es: seq<Rec>)
  {
    exists image :: Holds(image, es) && |image.offsets| <= U16_MAX && bytes == Sealed(image)
  }

  function BlockEnd(sst: Sst, i: nat): nat
    requires i < |sst.metas|
  {
    if i + 1 < |sst.metas| then sst.metas[i + 1].offset else sst.metaOffset
  }

  ghost predicate BlockAt(sst: Sst, i: nat, es: seq<Rec>)
    requires i < |sst.metas|
  {
    sst.metas[i].offset <= BlockEnd(sst, i) <= |sst.file| && IsImageOf(sst.file[sst.metas[i].offset..BlockEnd(sst, i)], es)
  }

  ghost predicate Covers(hasher: Hasher, filter: Option<Filter>, s: seq<Rec>)
  {
    filter.Some? ==> Sane(filter.value) && forall i :: 0 <= i < |s| ==> MayContain(hasher, filter.value, s[i].key)
  }

  ghost predicate Layout(hasher: Hasher, sst: Sst, blocks: seq<seq<Rec>>)
  {
    && blocks != [] && Separated(blocks) && Names(sst.metas, blocks)
    && (forall i {:trigger BlockAt(sst, i, blocks[i])} :: 0 <= i < |blocks| ==> BlockAt(sst, i, blocks[i]))
    && Covers(hasher, sst.filter, Flat(blocks))
    && sst.first == sst.metas[0].first && sst.last == sst.metas[|sst.metas| - 1].last
  }

  // The table stores exactly these blocks of records.  Proofs that only pass tables
  // around need not look at its layout; LookInside opens it.
  ghost predicate Stores(hasher: Hasher, sst: Sst, blocks: seq<seq<Rec>>)
  {
    forall n :: Opened(n) ==> Layout(hasher, sst, blocks)
  }

  lemma LookInside(hasher: Hasher, sst: Sst, blocks: seq<seq<Rec>>)
    requires Stores(hasher, sst, blocks)
    ensures Layout(hasher, sst, blocks)
  {
    assert Opened(0);
  }

  // ---- What the names of blocks tell about a key ----

  ghost predicate Absent(s: seq<Rec>, key: Key)
  {
    forall i :: 0 <= i < |s| ==> s[i].key != key
  }

  lemma FirstNameLeast(s: seq<Rec>, key: Key)
    requires Ordered(s) && key != [] && Less(key, FirstName(s))
    ensures Absent(s, key)
  {
    if s != [] {
      if s[0].key != [] {
        Below(s, 0, key);
      } else {
        assert forall i, j :: 0 <= i < j < |s[1..]| ==> !RecLess(s[1..][j], s[1..][i]);
        FirstNameLeast(s[1..], key);
        assert forall i :: 0 < i < |s| ==> s[i] == s[1..][i - 1];
      }
    }
  }

  lemma {:induction false} FlatAbsent(blocks: seq<seq<Rec>>, q: Query)
    requires forall i :: 0 <= i < |blocks| ==> Absent(blocks[i], q.key)
    ensures Best(Flat(blocks), q).None?
  {
    if blocks != [] {
      FlatAbsent(blocks[1..], q);
      BestAppend(blocks[0], Flat(blocks[1..]), q);
      BestOtherKeys(blocks[0], q);
    }
  }

  // If only one block can have the key, it decides the read.
  lemma BestInBlock(blocks: seq<seq<Rec>>, b: nat, q: Query)
    requires b < |blocks| && forall i :: 0 <= i < |blocks| && i != b ==> Absent(blocks[i], q.key)
    ensures Best(Flat(blocks), q) == Best(blocks[b], q)
  {
    var front, back := blocks[..b], blocks[b + 1..];
    assert blocks == front + ([blocks[b]] + back);
    FlatAppend(front, [blocks[b]] + back);
    FlatAppend([blocks[b]], back);
    FlatOne(blocks[b]);
    FlatAbsent(front, q);
    FlatAbsent(back, q);
    BestAppend(Flat(front), blocks[b] + Flat(back), q);
    BestAppend(blocks[b], Flat(back), q);
  }

  lemma {:induction false} FlatOrdered(blocks: seq<seq<Rec>>)
    requires Separated(blocks)
    ensures Ordered(Flat(blocks))
    ensures blocks != [] ==> Flat(blocks) != [] && LastKey(Flat(blocks)) == LastKey(blocks[|blocks| - 1])
  {
    if |blocks| > 0 {
      var n := |blocks| - 1;
      var front := blocks[..n];
      FlatOrdered(front);
      assert blocks == front + [blocks[n]];
      FlatAppend(front, [blocks[n]]);
      FlatOne(blocks[n]);
      FlatBelow(front, blocks[n]);
      OrderedAppend(Flat(front), blocks[n]);
    }
  }

  lemma {:induction false} FlatBelow(blocks: seq<seq<Rec>>, t: seq<Rec>)
    requires forall i :: 0 <= i < |blocks| ==> KeysBelow(blocks[i], t)
    ensures KeysBelow(Flat(blocks), t)
  {
    if blocks != [] {
      FlatBelow(blocks[1..], t);
      var s, u, all := blocks[0], Flat(blocks[1..]), Flat(blocks);
      forall a, b | 0 <= a < |all| && 0 <= b < |t|
        ensures Less(all[a].key, t[b].key)
      {
        if a < |s| {
          assert KeysBelow(s, t);
        } else {
          assert all[a] == u[a - |s|];
        }
      }
    }
  }

  lemma OrderedAppend(s: seq<Rec>, t: seq<Rec>)
    requires Ordered(s) && Ordered(t) && KeysBelow(s, t)
    ensures Ordered(s + t)
  {
    var all := s + t;
    forall i, j | 0 <= i < j < |all|
      ensures !RecLess(all[j], all[i])
    {
      if i < |s| <= j {
        assert Less(s[i].key, t[j - |s|].key);
        LessTotal(s[i].key, t[j - |s|].key);
      }
    }
  }

  // What one look at a block's names tells.
  lemma NamesDecide(sst: Sst, blocks: seq<seq<Rec>>, mid: nat, key: Key)
    requires Separated(blocks) && Names(sst.metas, blocks) && mid < |blocks| && key != []
    ensures Less(key, sst.metas[mid].first) ==> forall i :: mid <= i < |blocks| ==> Absent(blocks[i], key)
    ensures Less(sst.metas[mid].last, key) ==> forall i :: 0 <= i <= mid ==> Absent(blocks[i], key)
    ensures !Less(key, sst.metas[mid].first) && !Less(sst.metas[mid].last, key) ==>
              forall i :: 0 <= i < |blocks| && i != mid ==> Absent(blocks[i], key)
  {
    var here := blocks[mid];
    LessTotal(key, here[0].key);
    LessTotal(key, LastKey(here));
    forall i, a | 0 <= i < |blocks| && 0 <= a < |blocks[i]|
      ensures mid <= i && Less(key, sst.metas[mid].first) ==> blocks[i][a].key != key
      ensures i <= mid && Less(sst.metas[mid].last, key) ==> blocks[i][a].key != key
      ensures i != mid && !Less(key, sst.metas[mid].first) && !Less(sst.metas[mid].last, key) ==> blocks[i][a].key != key
    {
      if i < mid {
        assert KeysBelow(blocks[i], here) && Less(blocks[i][a].key, here[0].key) && Less(blocks[i][a].key, LastKey(here));
      } else if mid < i {
        assert KeysBelow(here, blocks[i]) && Less(LastKey(here), blocks[i][a].key) && Less(here[0].key, blocks[i][a].key);
      } else {
        KeysAscend(here, 0, a);
        KeysAscend(here, a, |here| - 1);
      }
      if mid == 0 && Less(key, sst.metas[0].first) {
        FlatOrdered(blocks);
        FirstNameLeast(Flat(blocks), key);
        FlatHas(blocks, i, a);
      }
    }
  }

  lemma {:induction false} FlatHas(blocks: seq<seq<Rec>>, i: nat, a: nat)
    requires i < |blocks| && a < |blocks[i]|
    ensures blocks[i][a] in Flat(blocks)
  {
    if i > 0 {
      FlatHas(blocks[1..], i - 1, a);
    } else {
      assert Flat(blocks)[a] == blocks[0][a];
    }
  }

  // ---- Point lookup ----

  // A block that ends before it starts, or behind the file, cannot be read.
  method ReadBlock(sst: Sst, i: int) returns (r: Result<Image>)
    ensures !(0 <= i < |sst.metas|) ==> r.Err?
    ensures 0 <= i < |sst.metas| ==>
              if sst.metas[i].offset <= BlockEnd(sst, i) <= |sst.file|
              then r == Unsealed(sst.file[sst.metas[i].offset..BlockEnd(sst, i)])
              else r == Err(Truncated)
  {
    if i < 0 || i >= |sst.metas| {
      return Err(NotFound);
    }
    if BlockEnd(sst, i) < sst.metas[i].offset || BlockEnd(sst, i) > |sst.file| {
      return Err(Truncated);
    }
    r := Blocks.Decode(sst.file[sst.metas[i].offset..BlockEnd(sst, i)]);
  }

  // Every block of a stored table reads back as its entries.
  method LoadBlock(hasher: Hasher, sst: Sst, i: nat, ghost blocks: seq<seq<Rec>>) returns (image: Image)
    requires Stores(hasher, sst, blocks) && i < |blocks|
    ensures Searchable(image, blocks[i])
  {
    LookInside(hasher, sst, blocks);
    assert forall j :: 0 <= j < |blocks| ==> BlockAt(sst, j, blocks[j]);
    var r := ReadBlock(sst, i);
    ghost var stored :| Holds(stored, blocks[i]) && |stored.offsets| <= U16_MAX &&
      sst.file[sst.metas[i].offset..BlockEnd(sst, i)] == Sealed(stored);
    UnsealedOfSealed(stored);
    image := r.value;
  }

  // The block a key can be in; -1 if no block can hold it.
  method FindBlockIdx(hasher: Hasher, sst: Sst, key: Key, ghost blocks: seq<seq<Rec>>) returns (r: int)
    requires Stores(hasher, sst, blocks) && key != []
    ensures -1 <= r < |blocks|
    ensures forall i :: 0 <= i < |blocks| && i != r ==> Absent(blocks[i], key)
  {
    LookInside(hasher, sst, blocks);
    if sst.filter.Some? {
      var possible := PossiblyContains(hasher, sst.filter.value, key);
      if !possible {
        FilterDenies(hasher, sst, blocks, key);
        return -1;
      }
    }
    var left, right := 0, |sst.metas|;
    while left < right
      invariant 0 <= left <= right <= |blocks|
      invariant forall i :: 0 <= i < left || right <= i < |blocks| ==> Absent(blocks[i], key)
    {
      var mid := (left + right) / 2;
      NamesDecide(sst, blocks, mid, key);
      if Less(key, sst.metas[mid].first) {
        right := mid;
      } else if Less(sst.metas[mid].last, key) {
        left := mid + 1;
      } else {
        return mid;
      }
    }
    if left >= |sst.metas| {
      return -1;
    }
    return left;
  }

  lemma FilterDenies(hasher: Hasher, sst: Sst, blocks: seq<seq<Rec>>, key: Key)
    requires Layout(hasher, sst, blocks) && sst.filter.Some? && !MayContain(hasher, sst.filter.value, key)
    ensures forall i :: 0 <= i < |blocks| ==> Absent(blocks[i], key)
  {
    forall i, a | 0 <= i < |blocks| && 0 <= a < |blocks[i]|
      ensures blocks[i][a].key != key
    {
      FlatHas(blocks, i, a);
    }
  }

  // Range check, filter, block search and in-block search together find what a linear
  // scan of the stored records finds.
  method Get(hasher: Hasher, sst: Sst, key: Key, bound: nat, skip: set<nat>, ghost blocks: seq<seq<Rec>>)
    returns (r: Option<Rec>)
    requires Stores(hasher, sst, blocks) && key != []
    ensures r == Best(Flat(blocks), Query(key, bound, skip))
  {
    ghost var q := Query(key, bound, skip);
    LookInside(hasher, sst, blocks);
    if Less(key, sst.first) || Less(sst.last, key) {
      NamesDecide(sst, blocks, 0, key);
      NamesDecide(sst, blocks, |blocks| - 1, key);
      FlatAbsent(blocks, q);
      return None;
    }
    var b := FindBlockIdx(hasher, sst, key, blocks);
    if b == -1 {
      FlatAbsent(blocks, q);
      return None;
    }
    BestInBlock(blocks, b, q);
    var image := LoadBlock(hasher, sst, b, blocks);
    var idx := GetIdxBinary(image, key, bound, skip, blocks[b]);
    if idx.None? {
      return None;
    }
    BestIs(blocks[b], q, idx.value);
    r := EntryOf(image, idx.value, blocks[b]);
  }

  method EntryOf(image: Image, i: nat, ghost es: seq<Rec>) returns (r: Option<Rec>)
    requires Holds(image, es) && i < |es|
    ensures r == Some(es[i])
  {
    EntryAt(image, es, i);
    var offset := image.offsets[i];
    r := Some(Rec(KeyAt(image.data, offset).value, ValueAt(image.data, offset).value, VerAt(image.data, offset).value));
  }

  // ---- A table's records are told by its file ----

  lemma HoldsUnique(image: Image, es: seq<Rec>, fs: seq<Rec>)
    requires Holds(image, es) && Holds(image, fs)
    ensures es == fs
  {
    forall i | 0 <= i < |es|
      ensures es[i] == fs[i]
    {
      EntryAt(image, es, i);
      EntryAt(image, fs, i);
    }
  }

  lemma StoresUnique(hasher: Hasher, sst: Sst, a: seq<seq<Rec>>, b: seq<seq<Rec>>)
    requires Stores(hasher, sst, a) && Stores(hasher, sst, b)
    ensures a == b
  {
    LookInside(hasher, sst, a);
    LookInside(hasher, sst, b);
    forall i | 0 <= i < |a|
      ensures a[i] == b[i]
    {
      assert BlockAt(sst, i, a[i]) && BlockAt(sst, i, b[i]);
      var bytes := sst.file[sst.metas[i].offset..BlockEnd(sst, i)];
      ImagesAgree(bytes, a[i], b[i]);
    }
  }

  lemma ImagesAgree(bytes: ByteString, es: seq<Rec>, fs: seq<Rec>)
    requires IsImageOf(bytes, es) && IsImageOf(bytes, fs)
    ensures es == fs
  {
    var p :| Holds(p, es) && |p.offsets| <= U16_MAX && bytes == Sealed(p);
    var q :| Holds(q, fs) && |q.offsets| <= U16_MAX && bytes == Sealed(q);
    UnsealedOfSealed(p);
    UnsealedOfSealed(q);
    HoldsUnique(p, es, fs);
  }

  ghost predicate IsTable(hasher: Hasher, sst: Sst)
  {
    exists blocks :: Stores(hasher, sst, blocks)
  }

  ghost function BlocksOf(hasher: Hasher, sst: Sst): (blocks: seq<seq<Rec>>)
    requires IsTable(hasher, sst)
    ensures Stores(hasher, sst, blocks)
  {
    var blocks :| Stores(hasher, sst, blocks);
    blocks
  }

  // All records of a table, in order.
  ghost function RecordsOf(hasher: Hasher, sst: Sst): (s: seq<Rec>)
    requires IsTable(hasher, sst)
  {
    Flat(BlocksOf(hasher, sst))
  }

  lemma RecordsAre(hasher: Hasher, sst: Sst, blocks: seq<seq<Rec>>)
    requires Stores(hasher, sst, blocks)
    ensures IsTable(hasher, sst) && BlocksOf(hasher, sst) == blocks && RecordsOf(hasher, sst) == Flat(blocks)
  {
    StoresUnique(hasher, sst, BlocksOf(hasher, sst), blocks);
  }

  lemma TableShape(hasher: Hasher, sst: Sst)
    requires IsTable(hasher, sst)
    ensures var s := RecordsOf(hasher, sst); s != [] && Ordered(s) && sst.last == LastKey(s) && sst.first == FirstName(s)
  {
    LookInside(hasher, sst, BlocksOf(hasher, sst));
    FlatOrdered(BlocksOf(hasher, sst));
  }

  // What the names of an ordered run of records tell about a key.
  lemma NamesBound(s: seq<Rec>, key: Key)
    requires Ordered(s) && s != [] && key != []
    ensures Less(key, FirstName(s)) || Less(LastKey(s), key) ==> Absent(s, key)
  {
    if Less(key, FirstName(s)) {
      FirstNameLeast(s, key);
    }
    if Less(LastKey(s), key) {
      Below(s, |s| - 1, key);
    }
  }
}
