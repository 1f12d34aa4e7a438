// The table of blocks at the end of an SST.

module SstMeta {
  import opened Bytes
  import opened Mvcc
  import opened Blocks
  import opened Bloom

  const TWO32 := 0x1_0000_0000

  datatype Meta = Meta(offset: nat, first: Key, last: Key)

  predicate MetaFits(m: Meta)
  {
    m.offset < TWO32 && |m.first| <= U16_MAX && |m.last| <= U16_MAX
  }

  // The names can be written down; offsets are cut to 32 bits.
  predicate NamesFit(metas: seq<Meta>)
  {
    forall i :: 0 <= i < |metas| ==> |metas[i].first| <= U16_MAX && |metas[i].last| <= U16_MAX
  }

  predicate AllFit(metas: seq<Meta>)
  {
    forall i :: 0 <= i < |metas| ==> MetaFits(metas[i])
  }

  // offset:4 | first_len:2 | first | last_len:2 | last
  function MetaBytes(m: Meta): ByteString
  {
    Le(m.offset, 4) + Text(m.first) + Text(m.last)
  }

  function EntriesBytes(metas: seq<Meta>): ByteString
  {
    if metas == [] then [] else MetaBytes(metas[0]) + EntriesBytes(metas[1..])
  }

  // count:4 | entries | low half of the hash of the entries:4
  function TableBytes(hasher: Hasher, metas: seq<Meta>): ByteString
  {
    Le(|metas|, 4) + EntriesBytes(metas) + Le(hasher(EntriesBytes(metas)) % TWO32, 4)
  }

  lemma {:induction false} EntriesAppend(a: seq<Meta>, b: seq<Meta>)
    ensures EntriesBytes(a + b) == EntriesBytes(a) + EntriesBytes(b)
  {
    if a == [] {
      assert a + b == b;
    } else {
      assert (a + b)[1..] == a[1..] + b;
      EntriesAppend(a[1..], b);
    }
  }

  method AppendMeta(entries: ByteString, m: Meta) returns (out: ByteString)
    ensures out == entries + MetaBytes(m)
  {
    out := AppendUint(entries, m.offset, 4);
    out := AppendUint(out, |m.first|, 2);
    out := out + m.first;
    out := AppendUint(out, |m.last|, 2);
    out := out + m.last;
  }

  method EncodeTable(hasher: Hasher, metas: seq<Meta>) returns (table: ByteString)
    ensures table == TableBytes(hasher, metas)
  {
    var entries: ByteString := [];
    var i := 0;
    while i < |metas|
      invariant 0 <= i <= |metas| && entries == EntriesBytes(metas[..i])
    {
      entries := AppendMeta(entries, metas[i]);
      OneEntry(metas, i);
      i := i + 1;
    }
    assert metas[..i] == metas;
    table := AppendUint([], |metas|, 4);
    table := table + entries;
    table := AppendUint(table, hasher(entries) % TWO32, 4);
  }

  lemma {:induction false} OneEntry(metas: seq<Meta>, i: nat)
    requires i < |metas|
    ensures EntriesBytes(metas[..i + 1]) == EntriesBytes(metas[..i]) + MetaBytes(metas[i])
  {
    var front, one := metas[..i], [metas[i]];
    assert front + one == metas[..i + 1];
    EntriesAppend(front, one);
    assert one[1..] == [];
  }

  function MetaAt(bytes: ByteString, p: nat): Result<(Meta, nat)>
  {
    if p + 4 > |bytes| then Err(Truncated)
    else
      match TextAt(bytes, p + 4)
      case Err(e) => Err(e)
      case Ok(first) =>
        match TextAt(bytes, p + 6 + |first|)
        case Err(e) => Err(e)
        case Ok(last) => Ok((Meta(FromLe(bytes[p..p + 4]), first, last), p + 8 + |first| + |last|))
  }

  lemma MetaReadsBack(pre: ByteString, m: Meta, post: ByteString)
    requires MetaFits(m)
    ensures MetaAt(pre + MetaBytes(m) + post, |pre|) == Ok((m, |pre| + |MetaBytes(m)|))
  {
    var offset, first, last := Le(m.offset, 4), Text(m.first), Text(m.last);
    MetaCut(pre, offset, first, last, post);
    Widths();
    FromLeOfLe(m.offset, 4);
    TextReadsBack(pre + offset, m.first, last + post);
    TextReadsBack(pre + offset + first, m.last, post);
  }

  lemma MetaCut(pre: ByteString, offset: ByteString, first: ByteString, last: ByteString, post: ByteString)
    ensures var s, p := pre + (offset + first + last) + post, |pre|;
            && s[p..p + |offset|] == offset
            && s == (pre + offset) + first + (last + post) && s == (pre + offset + first) + last + post
  {
  }

  // A table is accepted if its hash is right; an entry running past the end is Truncated.
  method DecodeTable(hasher: Hasher, table: ByteString) returns (r: Result<seq<Meta>>)
    ensures forall metas :: AllFit(metas) && |metas| < TWO32 && table == TableBytes(hasher, metas) ==> r == Ok(metas)
    ensures |table| < 8 ==> r.Err?
    ensures r.Ok? ==> FromLe(table[|table| - 4..]) == hasher(table[4..|table| - 4]) % TWO32
  {
    if |table| < 8 {
      return Err(BadLength);
    }
    var entries := table[4..|table| - 4];
    forall metas | AllFit(metas) && |metas| < TWO32 && table == TableBytes(hasher, metas)
      ensures TableCut(hasher, table, entries, metas)
    {
      CutTable(hasher, table, metas);
    }
    if FromLe(table[|table| - 4..]) != hasher(entries) % TWO32 {
      return Err(BadChecksum);
    }
    var num := FromLe(table[..4]);
    var read: seq<Meta> := [];
    var p := 0;
    while |read| < num
      invariant |read| <= num && 0 <= p
      invariant forall metas :: AllFit(metas) && |metas| < TWO32 && table == TableBytes(hasher, metas) ==>
                                  ReadTo(entries, metas, read, p)
    {
      forall metas | AllFit(metas) && |metas| < TWO32 && table == TableBytes(hasher, metas)
        ensures ReadOn(entries, metas, read, p)
      {
        assert TableCut(hasher, table, entries, metas);
        Advance(entries, metas, read, p);
      }
      match MetaAt(entries, p)
      case Err(e) =>
        return Err(e);
      case Ok(pair) =>
        read, p := read + [pair.0], pair.1;
    }
    forall metas | AllFit(metas) && |metas| < TWO32 && table == TableBytes(hasher, metas)
      ensures read == metas
    {
      assert TableCut(hasher, table, entries, metas);
      assert ReadTo(entries, metas, read, p);
    }
    return Ok(read);
  }

  ghost predicate TableCut(hasher: Hasher, table: ByteString, entries: ByteString, metas: seq<Meta>)
  {
    |table| >= 8 && entries == EntriesBytes(metas) && FromLe(table[..4]) == |metas| &&
    FromLe(table[|table| - 4..]) == hasher(entries) % TWO32
  }

  lemma CutTable(hasher: Hasher, table: ByteString, metas: seq<Meta>)
    requires |metas| < TWO32 && table == TableBytes(hasher, metas)
    ensures |table| >= 8 && TableCut(hasher, table, table[4..|table| - 4], metas)
  {
    var entries := EntriesBytes(metas);
    assert table[4..|table| - 4] == entries;
    assert table[..4] == Le(|metas|, 4);
    assert table[|table| - 4..] == Le(hasher(entries) % TWO32, 4);
    Widths();
    FromLeOfLe(|metas|, 4);
    FromLeOfLe(hasher(entries) % TWO32, 4);
  }

  // The first |read| entries are read and p is where the next one starts.
  ghost predicate ReadTo(entries: ByteString, metas: seq<Meta>, read: seq<Meta>, p: nat)
  {
    |read| <= |metas| && read == metas[..|read|] && p == |EntriesBytes(read)| && entries == EntriesBytes(metas)
  }

  ghost predicate ReadOn(entries: ByteString, metas: seq<Meta>, read: seq<Meta>, p: nat)
  {
    |read| < |metas| &&
    MetaAt(entries, p) == Ok((metas[|read|], p + |MetaBytes(metas[|read|])|)) &&
    ReadTo(entries, metas, read + [metas[|read|]], p + |MetaBytes(metas[|read|])|)
  }

  lemma {:induction false} Advance(entries: ByteString, metas: seq<Meta>, read: seq<Meta>, p: nat)
    requires ReadTo(entries, metas, read, p) && |read| < |metas| && AllFit(metas)
    ensures ReadOn(entries, metas, read, p)
  {
    var n := |read|;
    var m := metas[n];
    Divided(metas, n);
    MetaReadsBack(EntriesBytes(read), m, EntriesBytes(metas[n + 1..]));
    OneEntry(metas, n);
    assert read + [m] == metas[..n + 1];
  }

  lemma {:induction false} Divided(metas: seq<Meta>, n: nat)
    requires n < |metas|
    ensures EntriesBytes(metas) == EntriesBytes(metas[..n]) + MetaBytes(metas[n]) + EntriesBytes(metas[n + 1..])
  {
    var front, back := metas[..n + 1], metas[n + 1..];
    assert front + back == metas;
    EntriesAppend(front, back);
    OneEntry(metas, n);
  }
}
