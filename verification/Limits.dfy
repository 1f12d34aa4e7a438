// Tables at the edges of the file format: one that outgrows its 32-bit offsets, and one
// whose file is taken for the other format.

module Limits {
  import opened Bytes
  import opened Mvcc
  import opened Blocks
  import opened Bloom
  import opened SstMeta
  import opened Ssts
  import opened SstBuilders
  import opened SstOpening
  import Engines

  // ---- Outgrown offsets ----

  function Ones(n: nat): (k: Key)
    ensures |k| == n
  {
    if n == 0 then [] else [1] + Ones(n - 1)
  }

  function Zeros(n: nat): (s: ByteString)
    ensures |s| == n
  {
    seq(n, _ => 0)
  }

  function Big(n: nat): Rec
  {
    Rec(Ones(n), Zeros(U16_MAX), 1)
  }

  function BigBlocks(n: nat): (blocks: seq<seq<Rec>>)
    ensures |blocks| == n && (n > 0 ==> blocks[n - 1] == [Big(n)])
  {
    if n == 0 then [] else BigBlocks(n - 1) + [[Big(n)]]
  }

  lemma {:induction false} OnesRise(n: nat)
    ensures Less(Ones(n), Ones(n + 1))
  {
    if n > 0 {
      OnesRise(n - 1);
    }
  }

  lemma OneSealed(r: Rec) returns (bytes: ByteString)
    requires Blocks.Fits(r)
    ensures IsImageOf(bytes, [r]) && |bytes| == 20 + |r.key| + |r.value|
  {
    var image := Image(EntryBytes(r), [0]);
    assert [r][..0] == [] && Cat([]) == [] && Cat([r]) == Cat([]) + EntryBytes(r) == EntryBytes(r);
    assert Holds(image, [r]) by {
      assert Placed(image, [r], 0);
    }
    bytes := Sealed(image);
    SealedIsShort(image, [r]);
  }

  lemma ReadyOne(r: Rec, bytes: ByteString)
    requires IsImageOf(bytes, [r]) && bytes != []
    ensures Ready(bytes, [Meta(0, r.key, r.key)], [[r]])
  {
    var none: seq<seq<Rec>>, m := [], Meta(0, r.key, r.key);
    FlatOne([r]);
    FinishedOne([], [], none, bytes, m, [r]);
    SeparatedAppend(none, [r]);
    assert [] + bytes == bytes && none + [[r]] == [[r]] && [] + [m] == [m] && [r][1..] == [];
    assert Names([m], [[r]]);
  }

  // One more block, of one record with a larger key.
  lemma ReadyMore(data: ByteString, metas: seq<Meta>, parts: seq<seq<Rec>>, bytes: ByteString, r: Rec)
    requires Ready(data, metas, parts) && IsImageOf(bytes, [r]) && bytes != [] && parts != []
    requires Less(LastKey(parts[|parts| - 1]), r.key) && FirstName(Flat(parts)) != []
    ensures Ready(data + bytes, metas + [Meta(|data|, r.key, r.key)], parts + [[r]])
    ensures FirstName(Flat(parts + [[r]])) != []
  {
    assert Finished(data, metas, parts) && Names(metas, parts) && Separated(parts) by {
      assert Opened(0);
    }
    SeparatedNew(parts, r);
    FinishedOne(data, metas, parts, bytes, Meta(|data|, r.key, r.key), [r]);
    FirstNameAppend(Flat(parts), [r]);
    NamesMore(metas, parts, Meta(|data|, r.key, r.key), r);
  }

  lemma NamesMore(metas: seq<Meta>, parts: seq<seq<Rec>>, m: Meta, r: Rec)
    requires Names(metas, parts) && parts != [] && m.first == m.last == r.key
    requires FirstName(Flat(parts + [[r]])) == FirstName(Flat(parts))
    ensures Names(metas + [m], parts + [[r]])
  {
  }

  // n blocks of one record each are sealed one behind the other.
  ghost predicate Stacked(n: nat, data: ByteString, metas: seq<Meta>)
  {
    Ready(data, metas, BigBlocks(n)) && metas != [] && |data| >= n * 65556 && FirstName(Flat(BigBlocks(n))) != []
  }

  lemma StackedOne() returns (data: ByteString, metas: seq<Meta>)
    ensures Stacked(1, data, metas)
  {
    var r := Big(1);
    data := OneSealed(r);
    metas := [Meta(0, r.key, r.key)];
    ReadyOne(r, data);
    FlatOne([r]);
    assert BigBlocks(1) == [[r]];
  }

  lemma StackedMore(n: nat, was: ByteString, before: seq<Meta>) returns (data: ByteString, metas: seq<Meta>)
    requires 1 <= n < U16_MAX && Stacked(n, was, before)
    ensures Stacked(n + 1, data, metas)
  {
    var r := Big(n + 1);
    var bytes := OneSealed(r);
    OnesRise(n);
    ReadyMore(was, before, BigBlocks(n), bytes, r);
    data, metas := was + bytes, before + [Meta(|was|, r.key, r.key)];
  }

  lemma {:induction false} BigTable(n: nat) returns (data: ByteString, metas: seq<Meta>)
    requires 1 <= n <= U16_MAX
    ensures Stacked(n, data, metas)
    decreases n
  {
    if n == 1 {
      data, metas := StackedOne();
    } else {
      data, metas := BigTable(n - 1);
      data, metas := StackedMore(n - 1, data, metas);
    }
  }

  // The table a builder writes over finished blocks, with the filter it has kept.
  function WrittenTable(hasher: Hasher, data: ByteString, metas: seq<Meta>, kept: Option<Filter>, section: ByteString, ver: nat): Sst
    requires metas != []
  {
    var table := TableBytes(hasher, metas);
    var metaOffset, bloomOffset := |data| % TWO32, (|data| + |table|) % TWO32;
    Sst(0, data + table + section + Footer(metaOffset, bloomOffset, ver, ver), metas, metaOffset, bloomOffset, kept, ver, ver,
        metas[0].first, metas[|metas| - 1].last)
  }

  lemma WrittenIsLaid(hasher: Hasher, data: ByteString, metas: seq<Meta>, kept: Option<Filter>, section: ByteString, ver: nat,
                      parts: seq<seq<Rec>>)
    requires Ready(data, metas, parts) && metas != [] && ver < TWO64
    requires FilterSection(section, kept) && Covers(hasher, kept, Flat(parts))
    ensures var sst := WrittenTable(hasher, data, metas, kept, section, ver);
            Laid(hasher, sst, data, section) && if |data| < TWO32 then Stores(hasher, sst, parts) else !IsTable(hasher, sst)
  {
    TableWritten(hasher, WrittenTable(hasher, data, metas, kept, section, ver), data, section, parts);
  }

  // Records in order, each within the limits of a block, whose table cannot be read,
  // whatever filter is kept for them: no list of records is what it stores, and its last
  // block ends before it starts.
  lemma SomeTableOutgrows(hasher: Hasher, kept: Option<Filter>, section: ByteString)
    returns (sst: Sst, data: ByteString, parts: seq<seq<Rec>>)
    requires FilterSection(section, kept) && Covers(hasher, kept, Flat(BigBlocks(U16_MAX)))
    ensures Ready(data, sst.metas, parts) && Laid(hasher, sst, data, section) && sst.filter == kept && !IsTable(hasher, sst)
    ensures var n := |sst.metas| - 1; n >= 0 && BlockEnd(sst, n) < sst.metas[n].offset
  {
    var metas;
    data, metas := BigTable(U16_MAX);
    parts := BigBlocks(U16_MAX);
    sst := WrittenTable(hasher, data, metas, kept, section, 1);
    WrittenIsLaid(hasher, data, metas, kept, section, 1, parts);
    Outgrown(hasher, sst, data, parts);
  }

  // With the default sizes the tables of level 5 are cut only once they are that big.
  lemma DefaultLevelFive(engine: Engines.LSMEngine)
    requires engine.memLimit == 4194304 && engine.ratio == 4
    ensures engine.TargetSize(5) == TWO32
  {
    assert Engines.Power(4, 2) == 16;
    assert Engines.Power(4, 3) == 64;
    assert Engines.Power(4, 4) == 256;
    assert Engines.Power(4, 5) == 1024;
  }

  // ---- The other format ----

  const SMALL := 65515

  // Its block takes exactly 2^16 bytes, and its version has the magic byte on top.
  function Misread(): Rec
  {
    Rec([1], Zeros(SMALL), 0x4B00_0000_0000_0000)
  }

  // A readable table whose offsets fit, and whose file is taken for the longer footer,
  // whatever the hash and whatever filter is kept: the bytes in front of the footer and
  // the first of the footer make a number below 2^16, and the file is longer than that.
  lemma SomeTableIsMisread(hasher: Hasher, kept: Option<Filter>, section: ByteString) returns (sst: Sst, data: ByteString)
    requires FilterSection(section, kept) && Covers(hasher, kept, [Misread()])
    ensures Laid(hasher, sst, data, section) && Stores(hasher, sst, [[Misread()]]) && sst.filter == kept
    ensures SstOpening.OffsetsFit(hasher, sst, data) && Sniffed(sst.file)
  {
    var r := Misread();
    var m := Meta(0, r.key, r.key);
    data := OneSealed(r);
    ReadyOne(r, data);
    FlatOne([r]);
    WrittenIsLaid(hasher, data, [m], kept, section, r.ver, [[r]]);
    sst := WrittenTable(hasher, data, [m], kept, section, r.ver);
    SmallTable(hasher, m);
    MisreadSniffs(hasher, sst, data, section);
  }

  lemma MisreadSniffs(hasher: Hasher, sst: Sst, data: ByteString, section: ByteString)
    requires Laid(hasher, sst, data, section) && |data| == 0x1_0000 && sst.metaOffset == 0x1_0000
    requires |TableBytes(hasher, sst.metas)| == 18 && |sst.file| == 0x1_0000 + 18 + |section| + FOOTER_SIZE
    requires sst.maxVer == 0x4B00_0000_0000_0000
    ensures Sniffed(sst.file)
  {
    SniffedExactly(hasher, sst, data, section);
  }

  lemma SmallTable(hasher: Hasher, m: Meta)
    requires |m.first| == |m.last| == 1
    ensures |TableBytes(hasher, [m])| == 18
  {
    assert [m][1..] == [];
    assert EntriesBytes([m]) == MetaBytes(m) + EntriesBytes([]);
    assert |MetaBytes(m)| == 10;
  }
}
