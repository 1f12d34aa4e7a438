// Opening an SST from the bytes of its file.

module SstOpening {
  import opened Bytes
  import opened Mvcc
  import opened Bloom
  import opened SstMeta
  import opened Ssts
  import opened SstBuilders

  // The last byte claims the longer footer, and the offset found there is believable.
  predicate Sniffed(file: ByteString)
  {
    |file| >= WISCKEY_FOOTER_SIZE && file[|file| - 1] == WISCKEY_MAGIC &&
    FromLe(file[|file| - WISCKEY_FOOTER_SIZE..|file| - WISCKEY_FOOTER_SIZE + 4]) < |file| - WISCKEY_FOOTER_SIZE
  }

  function FooterBase(file: ByteString): (base: nat)
    requires |file| >= FOOTER_SIZE
    ensures base + FOOTER_SIZE <= |file|
  {
    |file| - if Sniffed(file) then WISCKEY_FOOTER_SIZE else FOOTER_SIZE
  }

  // The four fields of the footer, where the file is taken to have it.
  ghost predicate ReadFrom(sst: Sst, base: nat)
    requires base + FOOTER_SIZE <= |sst.file|
  {
    match sst
    case Sst(_, file, _, metaOffset, bloomOffset, _, minVer, maxVer, _, _) =>
      && metaOffset == FromLe(file[base..base + 4]) && bloomOffset == FromLe(file[base + 4..base + 8])
      && minVer == FromLe(file[base + 8..base + 16]) && maxVer == FromLe(file[base + 16..base + 24])
  }

  // What reading the footer and cutting the file finds of a laid-out table.
  ghost predicate Found(hasher: Hasher, sst: Sst, filter: ByteString, metaOffset: nat, bloomOffset: nat, base: nat)
  {
    && sst.metaOffset == metaOffset < sst.bloomOffset == bloomOffset <= base <= |sst.file|
    && sst.file[metaOffset..bloomOffset] == TableBytes(hasher, sst.metas) && sst.metas != [] && AllFit(sst.metas) && |sst.metas| < TWO32
    && sst.file[bloomOffset..base] == filter && FilterSection(filter, sst.filter)
    && sst.first == sst.metas[0].first && sst.last == sst.metas[|sst.metas| - 1].last
  }

  // The file alone tells everything about the table.
  ghost predicate SelfDescribing(hasher: Hasher, sst: Sst, filter: ByteString)
  {
    |sst.file| >= FOOTER_SIZE && ReadFrom(sst, |sst.file| - FOOTER_SIZE) &&
    Found(hasher, sst, filter, sst.metaOffset, sst.bloomOffset, |sst.file| - FOOTER_SIZE)
  }

  // The offsets of table and filter still fit their 32 bits.
  ghost predicate OffsetsFit(hasher: Hasher, sst: Sst, blocks: ByteString)
  {
    |blocks| + |TableBytes(hasher, sst.metas)| < TWO32
  }

  // The footer of a laid-out file, whatever was cut to write it.
  lemma FooterReads(hasher: Hasher, sst: Sst, blocks: ByteString, filter: ByteString)
    requires Laid(hasher, sst, blocks, filter)
    ensures |sst.file| >= FOOTER_SIZE && ReadFrom(sst, |sst.file| - FOOTER_SIZE)
    ensures sst.maxVer < TWO64 && sst.file[|sst.file| - 8..] == Le(sst.maxVer, 8)
  {
    assert InSections(hasher, sst, blocks, filter) by {
      assert Opened(0);
    }
    var footer := Footer(sst.metaOffset, sst.bloomOffset, sst.minVer, sst.maxVer);
    LastPart(blocks + TableBytes(hasher, sst.metas), filter, footer);
    FooterFields(sst.file, |sst.file| - FOOTER_SIZE, sst.metaOffset, sst.bloomOffset, sst.minVer, sst.maxVer);
  }

  lemma LastPart(a: ByteString, b: ByteString, c: ByteString)
    ensures var s := a + (b + c); |s| >= |c| && s[|s| - |c|..] == c
  {
  }

  // Where a laid-out file keeps what, while it fits.
  lemma Sections(hasher: Hasher, sst: Sst, blocks: ByteString, filter: ByteString)
    requires Laid(hasher, sst, blocks, filter) && OffsetsFit(hasher, sst, blocks)
    ensures SelfDescribing(hasher, sst, filter)
  {
    FooterReads(hasher, sst, blocks, filter);
    MiddleReads(hasher, sst, blocks, filter);
  }

  lemma MiddleReads(hasher: Hasher, sst: Sst, blocks: ByteString, filter: ByteString)
    requires Laid(hasher, sst, blocks, filter) && OffsetsFit(hasher, sst, blocks) && |sst.file| >= FOOTER_SIZE
    ensures Found(hasher, sst, filter, sst.metaOffset, sst.bloomOffset, |sst.file| - FOOTER_SIZE)
  {
    var table, footer := TableBytes(hasher, sst.metas), Footer(sst.metaOffset, sst.bloomOffset, sst.minVer, sst.maxVer);
    MiddleParts(blocks, table, filter, footer);
    assert InSections(hasher, sst, blocks, filter) by {
      assert Opened(0);
    }
    Uncut(sst, |blocks|, |table|);
  }

  lemma MiddleParts(a: ByteString, b: ByteString, c: ByteString, d: ByteString)
    ensures var s := a + b + (c + d); s[|a|..|a| + |b|] == b && s[|a| + |b|..|s| - |d|] == c
  {
    SliceOfConcat(a, b, c + d);
    Regroup(a + b, c, d);
    SliceOfConcat(a + b, c, d);
  }

  lemma Uncut(sst: Sst, n: nat, m: nat)
    requires sst.metaOffset == n % TWO32 && sst.bloomOffset == (n + m) % TWO32 && n + m < TWO32
    requires NamesFit(sst.metas) && |sst.metas| <= n && forall i :: 0 <= i < |sst.metas| ==> sst.metas[i].offset <= n
    ensures sst.metaOffset == n && sst.bloomOffset == n + m && AllFit(sst.metas) && |sst.metas| < TWO32
  {
  }

  // What a file that does not fit says of its filter is not where its filter is.
  lemma FilterElsewhere(hasher: Hasher, sst: Sst, blocks: ByteString, filter: ByteString, base: nat)
    requires Laid(hasher, sst, blocks, filter) && !OffsetsFit(hasher, sst, blocks)
    requires |sst.file| - WISCKEY_FOOTER_SIZE <= base <= |sst.file| - FOOTER_SIZE
    ensures sst.bloomOffset < base && base - sst.bloomOffset != |filter|
  {
    assert InSections(hasher, sst, blocks, filter) by {
      assert Opened(0);
    }
    var start := |blocks| + |TableBytes(hasher, sst.metas)|;
    assert |sst.file| == start + |filter| + FOOTER_SIZE;
    assert sst.bloomOffset == start % TWO32 <= start - TWO32;
  }

  lemma FooterFields(file: ByteString, base: nat, metaOffset: nat, bloomOffset: nat, minVer: nat, maxVer: nat)
    requires base + FOOTER_SIZE == |file| && file[base..] == Footer(metaOffset, bloomOffset, minVer, maxVer)
    requires metaOffset < TWO32 && bloomOffset < TWO32 && minVer < TWO64 && maxVer < TWO64
    ensures file[|file| - 8..] == Le(maxVer, 8)
    ensures FromLe(file[base..base + 4]) == metaOffset && FromLe(file[base + 4..base + 8]) == bloomOffset
    ensures FromLe(file[base + 8..base + 16]) == minVer && FromLe(file[base + 16..base + 24]) == maxVer
    ensures file[base + 16..] == Le(maxVer, 8)
  {
    var f := Footer(metaOffset, bloomOffset, minVer, maxVer);
    assert file[base..base + 4] == f[0..4] == Le(metaOffset, 4);
    assert file[base + 4..base + 8] == f[4..8] == Le(bloomOffset, 4);
    assert file[base + 8..base + 16] == f[8..16] == Le(minVer, 8);
    assert file[base + 16..base + 24] == file[base + 16..] == f[16..24] == Le(maxVer, 8);
    Widths();
    FromLeOfLe(metaOffset, 4);
    FromLeOfLe(bloomOffset, 4);
    FromLeOfLe(minVer, 8);
    FromLeOfLe(maxVer, 8);
  }

  lemma ShortLe(file: ByteString, base: nat)
    requires base + 8 <= |file|
    ensures FromLe(file[base..base + 4]) < TWO32 && FromLe(file[base + 4..base + 8]) < TWO32
  {
    LeOfFromLe(file[base..base + 4]);
    LeOfFromLe(file[base + 4..base + 8]);
    Widths();
  }

  // The footer is read wherever the file is taken to have it.  What was found by cutting
  // the file there is given back as the table that was built.
  method Open(hasher: Hasher, id: nat, file: ByteString, ghost built: bool, ghost was: Sst, ghost filter: ByteString)
    returns (r: Result<Sst>)
    requires built ==> was.file == file && was.id == id && SelfDescribing(hasher, was, filter) && !Sniffed(file)
    ensures |file| < FOOTER_SIZE ==> r.Err?
    ensures r.Ok? ==> r.value.file == file && r.value.id == id && ReadFrom(r.value, FooterBase(file))
    ensures r.Ok? ==> FilterRead(r.value.filter, r.value.bloomOffset, FooterBase(file))
    ensures built ==> r == Ok(was)
  {
    if |file| < FOOTER_SIZE {
      return Err(BadLength);
    }
    r := OpenAt(hasher, id, file, FooterBase(file), built, was, filter);
  }

  method OpenAt(hasher: Hasher, id: nat, file: ByteString, base: nat, ghost built: bool, ghost was: Sst, ghost filter: ByteString)
    returns (r: Result<Sst>)
    requires base + FOOTER_SIZE <= |file|
    requires built ==> was.file == file && was.id == id && ReadFrom(was, base) && Found(hasher, was, filter, was.metaOffset, was.bloomOffset, base)
    ensures r.Ok? ==> r.value.file == file && r.value.id == id && ReadFrom(r.value, base) && FilterRead(r.value.filter, r.value.bloomOffset, base)
    ensures built ==> r == Ok(was)
  {
    var metaOffset, bloomOffset := FromLe(file[base..base + 4]), FromLe(file[base + 4..base + 8]);
    var minVer, maxVer := FromLe(file[base + 8..base + 16]), FromLe(file[base + 16..base + 24]);
    ShortLe(file, base);
    var body := OpenBody(hasher, file, metaOffset, bloomOffset, base, built, was, filter);
    match body
    case Err(e) => return Err(e);
    case Ok(Body(metas, kept)) =>
      var first, last := [], [];
      if metas != [] {
        first, last := metas[0].first, metas[|metas| - 1].last;
      }
      return Ok(Sst(id, file, metas, metaOffset, bloomOffset, kept, minVer, maxVer, first, last));
  }

  // A filter is read as long as the stretch between its offset and the footer.
  predicate FilterRead(filter: Option<Filter>, bloomOffset: nat, base: nat)
  {
    match filter
    case None => bloomOffset >= base
    case Some(f) => bloomOffset < base && base - bloomOffset == 32 + PackedSize(f.numBits)
  }

  datatype Body = Body(metas: seq<Meta>, kept: Option<Filter>)

  method OpenBody(hasher: Hasher, file: ByteString, metaOffset: nat, bloomOffset: nat, base: nat,
                  ghost built: bool, ghost was: Sst, ghost filter: ByteString)
    returns (r: Result<Body>)
    requires base <= |file|
    requires built ==> was.file == file && Found(hasher, was, filter, metaOffset, bloomOffset, base)
    requires metaOffset < TWO32 && bloomOffset < TWO32
    ensures built ==> r == Ok(Body(was.metas, was.filter))
    ensures r.Ok? ==> FilterRead(r.value.kept, bloomOffset, base)
  {
    var length := (bloomOffset - metaOffset) % TWO32;
    if metaOffset + length > |file| {
      return Err(Truncated);
    }
    assert metaOffset <= bloomOffset ==> metaOffset + length == bloomOffset;
    var metas := ReadTable(hasher, file[metaOffset..metaOffset + length], built, was.metas);
    if metas.Err? {
      return Err(metas.error);
    }
    if bloomOffset >= base {
      return Ok(Body(metas.value, None));
    }
    var kept := ReadFilter(file[bloomOffset..base], built, was.filter);
    if kept.Err? {
      return Err(kept.error);
    }
    return Ok(Body(metas.value, Some(kept.value)));
  }

  method ReadTable(hasher: Hasher, bytes: ByteString, ghost built: bool, ghost metas: seq<Meta>) returns (r: Result<seq<Meta>>)
    requires built ==> bytes == TableBytes(hasher, metas) && AllFit(metas) && |metas| < TWO32
    ensures built ==> r == Ok(metas)
  {
    r := DecodeTable(hasher, bytes);
  }

  method ReadFilter(bytes: ByteString, ghost built: bool, ghost filter: Option<Filter>) returns (r: Result<Filter>)
    requires built ==> FilterSection(bytes, filter) && bytes != []
    ensures built ==> filter.Some? && r == Ok(filter.value)
    ensures r.Ok? ==> |bytes| == 32 + PackedSize(r.value.numBits)
  {
    r := Bloom.Decode(bytes);
  }

  // What the longer footer would call the start of the block table: the two bytes in
  // front of a footer and its first two.
  function Seam(before: ByteString, metaOffset: nat): nat
    requires |before| >= 2
  {
    (before[|before| - 2] as int) + 256 * (before[|before| - 1] as int) + 0x1_0000 * (metaOffset % 0x1_0000)
  }

  // The format is told from the file alone.  Exactly when it is told wrongly: the top byte
  // of the largest version is the magic byte, and that start lies in the file.
  lemma SniffedExactly(hasher: Hasher, sst: Sst, blocks: ByteString, filter: ByteString)
    requires Laid(hasher, sst, blocks, filter)
    ensures var before := TableBytes(hasher, sst.metas) + filter;
            |before| >= 2 &&
            (Sniffed(sst.file) <==> sst.maxVer / 0x100_0000_0000_0000 == WISCKEY_MAGIC &&
                                    Seam(before, sst.metaOffset) < |sst.file| - WISCKEY_FOOTER_SIZE)
  {
    MagicByte(hasher, sst, blocks, filter);
    SeamReads(hasher, sst, blocks, filter);
  }

  // So only versions from 0x4B00000000000000 on can do it.
  lemma SniffedTopByte(hasher: Hasher, sst: Sst, blocks: ByteString, filter: ByteString)
    requires Laid(hasher, sst, blocks, filter) && Sniffed(sst.file)
    ensures sst.maxVer / 0x100_0000_0000_0000 == WISCKEY_MAGIC
  {
    SniffedExactly(hasher, sst, blocks, filter);
  }

  lemma SeamReads(hasher: Hasher, sst: Sst, blocks: ByteString, filter: ByteString)
    requires Laid(hasher, sst, blocks, filter)
    ensures var before := TableBytes(hasher, sst.metas) + filter; var base := |sst.file| - WISCKEY_FOOTER_SIZE;
            |before| >= 2 && base >= 0 && FromLe(sst.file[base..base + 4]) == Seam(before, sst.metaOffset)
  {
    var before, footer := TableBytes(hasher, sst.metas) + filter, Footer(sst.metaOffset, sst.bloomOffset, sst.minVer, sst.maxVer);
    assert sst.file == blocks + before + footer by {
      assert Opened(0);
      assert InSections(hasher, sst, blocks, filter);
      Reassociate(blocks, TableBytes(hasher, sst.metas), filter, footer);
    }
    TableIsLong(hasher, sst.metas);
    AcrossSeam(blocks, before, footer);
    FooterStarts(sst.metaOffset, sst.bloomOffset, sst.minVer, sst.maxVer);
    FourBytes(before[|before| - 2], before[|before| - 1], footer[0], footer[1]);
  }

  lemma TableIsLong(hasher: Hasher, metas: seq<Meta>)
    ensures |TableBytes(hasher, metas)| >= 8
  {
  }

  lemma Reassociate(a: ByteString, b: ByteString, c: ByteString, d: ByteString)
    ensures a + b + (c + d) == a + (b + c) + d
  {
  }

  lemma AcrossSeam(blocks: ByteString, before: ByteString, footer: ByteString)
    requires |before| >= 2 && |footer| == FOOTER_SIZE
    ensures var file := blocks + before + footer; var base := |file| - WISCKEY_FOOTER_SIZE;
            base >= 0 && file[base..base + 4] == [before[|before| - 2], before[|before| - 1], footer[0], footer[1]]
  {
  }

  lemma FourBytes(a: byte, b: byte, c: byte, d: byte)
    ensures FromLe([a, b, c, d]) == (a as int) + 256 * (b as int) + 0x1_0000 * ((c as int) + 256 * (d as int))
  {
    TwoBytes(c, d);
    MoreBytes(b, [c, d]);
    MoreBytes(a, [b, c, d]);
    assert [b] + [c, d] == [b, c, d] && [a] + [b, c, d] == [a, b, c, d];
  }

  lemma TwoBytes(c: byte, d: byte)
    ensures FromLe([c, d]) == (c as int) + 256 * (d as int)
  {
    MoreBytes(d, []);
    MoreBytes(c, [d]);
    assert [d] + [] == [d] && [c] + [d] == [c, d];
  }

  lemma MoreBytes(a: byte, rest: ByteString)
    ensures FromLe([a] + rest) == (a as int) + 256 * FromLe(rest)
  {
    assert ([a] + rest)[1..] == rest;
  }

  lemma FooterStarts(metaOffset: nat, bloomOffset: nat, minVer: nat, maxVer: nat)
    ensures var footer := Footer(metaOffset, bloomOffset, minVer, maxVer);
            (footer[0] as int) + 256 * (footer[1] as int) == metaOffset % 0x1_0000
  {
    assert Le(metaOffset, 4) == [metaOffset % 256] + Le(metaOffset / 256, 3);
    assert Le(metaOffset / 256, 3) == [metaOffset / 256 % 256] + Le(metaOffset / 256 / 256, 2);
  }

  // The last byte of the file is the top byte of the largest version.
  lemma MagicByte(hasher: Hasher, sst: Sst, blocks: ByteString, filter: ByteString)
    requires Laid(hasher, sst, blocks, filter)
    ensures |sst.file| >= FOOTER_SIZE && sst.file[|sst.file| - 1] == sst.maxVer / 0x100_0000_0000_0000
  {
    FooterReads(hasher, sst, blocks, filter);
    var tail := sst.file[|sst.file| - 8..];
    Widths();
    FromLeOfLe(sst.maxVer, 8);
    TopByte(tail);
  }

  lemma TopByte(t: ByteString)
    requires |t| == 8
    ensures FromLe(t) / 0x100_0000_0000_0000 == t[7]
  {
    LeOfFromLe(t[..7]);
    FromLeAppend(t[..7], t[7..]);
    assert t == t[..7] + t[7..];
    assert Pow256(7) == 0x100_0000_0000_0000 by {
      assert Pow256(3) == 0x100_0000;
      assert Pow256(5) == 0x100_0000_0000;
    }
    assert FromLe(t[7..]) == t[7] by {
      assert t[7..][1..] == [];
    }
  }

  lemma {:induction false} FromLeAppend(a: ByteString, b: ByteString)
    ensures FromLe(a + b) == FromLe(a) + Pow256(|a|) * FromLe(b)
  {
    if a == [] {
      assert a + b == b;
    } else {
      var p := Pow256(|a| - 1);
      assert (a + b)[1..] == a[1..] + b;
      FromLeAppend(a[1..], b);
      assert FromLe(a + b) == a[0] + 256 * (FromLe(a[1..]) + p * FromLe(b));
      assert FromLe(a) == a[0] + 256 * FromLe(a[1..]) && Pow256(|a|) == 256 * p;
      Scale(a[0], FromLe(a[1..]), p, FromLe(b));
    }
  }

  lemma Scale(c: nat, x: nat, p: nat, y: nat)
    ensures c + 256 * (x + p * y) == (c + 256 * x) + (256 * p) * y
  {
  }

  // When a built file is mistaken for the other format, it never comes back as it was
  // built: the two footers cannot say the same.
  lemma TwoFooters(sst: Sst, read: Sst)
    requires |sst.file| >= WISCKEY_FOOTER_SIZE && read.file == sst.file && sst.metaOffset < sst.bloomOffset
    requires ReadFrom(sst, |sst.file| - FOOTER_SIZE) && ReadFrom(read, |sst.file| - WISCKEY_FOOTER_SIZE)
    ensures read != sst
  {
    if read == sst {
      NotShifted(sst.file, |sst.file| - FOOTER_SIZE);
    }
  }

  // The two footers share six bytes; they agree only if the offsets of table and
  // filter are the same.
  lemma NotShifted(file: ByteString, base: nat)
    requires 2 <= base && base + 8 <= |file|
    requires FromLe(file[base - 2..base + 2]) == FromLe(file[base..base + 4])
    requires FromLe(file[base + 2..base + 6]) == FromLe(file[base + 4..base + 8])
    ensures FromLe(file[base..base + 4]) == FromLe(file[base + 4..base + 8])
  {
    SameBytes(file[base - 2..base + 2], file[base..base + 4]);
    SameBytes(file[base + 2..base + 6], file[base + 4..base + 8]);
    Shifted(file, base);
  }

  // A stretch equal to itself shifted by two bytes, twice over, repeats.
  lemma Shifted(file: ByteString, base: nat)
    requires 2 <= base && base + 8 <= |file|
    requires file[base - 2..base + 2] == file[base..base + 4] && file[base + 2..base + 6] == file[base + 4..base + 8]
    ensures file[base..base + 4] == file[base + 4..base + 8]
  {
    var a, b, c, d := file[base - 2..base + 2], file[base..base + 4], file[base + 2..base + 6], file[base + 4..base + 8];
    assert a[2] == b[0] && a[3] == b[1] && b[2] == c[0] && b[3] == c[1] && c[2] == d[0] && c[3] == d[1];
  }

  lemma SameBytes(a: ByteString, b: ByteString)
    requires |a| == |b| && FromLe(a) == FromLe(b)
    ensures a == b
  {
    LeOfFromLe(a);
    LeOfFromLe(b);
  }

  // A table that does not fit never comes back as it was built.
  lemma CutNeverFits(hasher: Hasher, sst: Sst, blocks: ByteString, filter: ByteString, read: Sst, base: nat)
    requires Laid(hasher, sst, blocks, filter) && !OffsetsFit(hasher, sst, blocks)
    requires |sst.file| - WISCKEY_FOOTER_SIZE <= base <= |sst.file| - FOOTER_SIZE && FilterRead(read.filter, read.bloomOffset, base)
    ensures read != sst
  {
    FilterElsewhere(hasher, sst, blocks, filter, base);
    assert FilterSection(filter, sst.filter) by {
      assert Opened(0);
    }
  }

  // Reopening a file that was built gives the table that was built if and only if the
  // offsets fit their 32 bits and the file does not look like the longer-footer format.
  method Reopen(hasher: Hasher, sst: Sst, ghost blocks: ByteString, ghost filter: ByteString) returns (r: Result<Sst>)
    requires Laid(hasher, sst, blocks, filter)
    ensures r == Ok(sst) <==> OffsetsFit(hasher, sst, blocks) && !Sniffed(sst.file)
  {
    FooterReads(hasher, sst, blocks, filter);
    ghost var good := OffsetsFit(hasher, sst, blocks) && !Sniffed(sst.file);
    if good {
      Sections(hasher, sst, blocks, filter);
    }
    r := Open(hasher, sst.id, sst.file, good, sst, filter);
    if !good && r.Ok? {
      NotAsBuilt(hasher, sst, blocks, filter, r.value);
    }
  }

  lemma NotAsBuilt(hasher: Hasher, sst: Sst, blocks: ByteString, filter: ByteString, read: Sst)
    requires Laid(hasher, sst, blocks, filter) && |sst.file| >= FOOTER_SIZE && read.file == sst.file
    requires ReadFrom(read, FooterBase(sst.file)) && FilterRead(read.filter, read.bloomOffset, FooterBase(sst.file))
    requires !OffsetsFit(hasher, sst, blocks) || Sniffed(sst.file)
    ensures read != sst
  {
    if !OffsetsFit(hasher, sst, blocks) {
      CutNeverFits(hasher, sst, blocks, filter, read, FooterBase(sst.file));
    } else {
      Sections(hasher, sst, blocks, filter);
      TwoFooters(sst, read);
    }
  }
}
