// A data block: entries packed into bytes, an offset table, and a CRC-32 trailer.

// Bytes as bit vectors and back.
module ByteBits {
  lemma BvRoundTrip(x: bv8)
    ensures ((x as int) as bv8) == x
  {
  }

  lemma OneMore(b: bv8)
    requires b as int < 255
    ensures ((b + 1) as int) == (b as int) + 1
  {
  }

  // Counting up from zero reaches every byte.
  lemma {:induction false} BitsOf(x: int) returns (b: bv8)
    requires 0 <= x < 256
    ensures (b as int) == x
  {
    b := 0;
    if x > 0 {
      var c := BitsOf(x - 1);
      OneMore(c);
      b := c + 1;
    }
  }

  lemma IntRoundTrip(x: int)
    requires 0 <= x < 256
    ensures ((x as bv8) as int) == x
  {
    var b := BitsOf(x);
    BvRoundTrip(b);
  }

  lemma SameByte(x: int, y: int)
    requires 0 <= x < 256 && 0 <= y < 256 && (x as bv8) == (y as bv8)
    ensures x == y
  {
    IntRoundTrip(x);
    IntRoundTrip(y);
  }

  lemma NarrowWide(x: bv8, y: bv8)
    requires (x as bv32) == (y as bv32)
    ensures x == y
  {
  }
}

module Crc32 {
  import opened Bytes
  import opened ByteBits

  const POLYNOMIAL: bv32 := 0xEDB88320
  const ALL_ONES: bv32 := 0xFFFFFFFF

  function Wide(b: byte): bv32
  {
    (b as bv8) as bv32
  }

  function Shift(c: bv32): bv32
  {
    if c & 1 == 1 then (c >> 1) ^ POLYNOMIAL else c >> 1
  }

  function Shifts(c: bv32, n: nat): bv32
    decreases n
  {
    if n == 0 then c else Shifts(Shift(c), n - 1)
  }

  function Step(c: bv32, b: byte): bv32
  {
    Shifts(c ^ Wide(b), 8)
  }

  function Fold(c: bv32, s: ByteString): bv32
    decreases |s|
  {
    if s == [] then c else Fold(Step(c, s[0]), s[1..])
  }

  // The CRC-32 of RFC 1952, section 8.
  function Crc(s: ByteString): bv32
  {
    Fold(ALL_ONES, s) ^ ALL_ONES
  }

  method Compute(data: ByteString) returns (crc: bv32)
    ensures crc == Crc(data)
  {
    crc := ALL_ONES;
    var i := 0;
    while i < |data|
      invariant 0 <= i <= |data|
      invariant Fold(ALL_ONES, data) == Fold(crc, data[i..])
    {
      ghost var before := crc;
      crc := crc ^ Wide(data[i]);
      var j := 0;
      while j < 8
        invariant 0 <= j <= 8
        invariant Step(before, data[i]) == Shifts(crc, 8 - j)
      {
        crc := if crc & 1 == 1 then (crc >> 1) ^ POLYNOMIAL else crc >> 1;
        j := j + 1;
      }
      assert data[i..][1..] == data[i + 1..];
      i := i + 1;
    }
    crc := crc ^ ALL_ONES;
  }

  lemma ShiftInjective(a: bv32, b: bv32)
    requires Shift(a) == Shift(b)
    ensures a == b
  {
  }

  lemma {:induction false} ShiftsInjective(a: bv32, b: bv32, n: nat)
    requires Shifts(a, n) == Shifts(b, n)
    ensures a == b
    decreases n
  {
    if n > 0 {
      ShiftsInjective(Shift(a), Shift(b), n - 1);
      ShiftInjective(a, b);
    }
  }

  lemma WideInjective(x: byte, y: byte)
    requires Wide(x) == Wide(y)
    ensures x == y
  {
    NarrowWide(x as bv8, y as bv8);
    SameByte(x, y);
  }

  lemma XorCancels(a: bv32, b: bv32, u: bv32, v: bv32)
    requires a ^ u == b ^ v
    ensures u == v ==> a == b
    ensures a == b ==> u == v
  {
  }

  lemma XorOnes(a: bv32, b: bv32)
    requires a != b
    ensures a ^ ALL_ONES != b ^ ALL_ONES
  {
    if a ^ ALL_ONES == b ^ ALL_ONES {
      XorCancels(a, b, ALL_ONES, ALL_ONES);
    }
  }

  // One step is a bijection of states for a fixed byte, and of bytes for a fixed state.
  lemma StepInjective(a: bv32, b: bv32, x: byte, y: byte)
    requires Step(a, x) == Step(b, y)
    ensures x == y ==> a == b
    ensures a == b ==> x == y
  {
    ShiftsInjective(a ^ Wide(x), b ^ Wide(y), 8);
    XorCancels(a, b, Wide(x), Wide(y));
    if a == b {
      WideInjective(x, y);
    }
  }

  lemma {:induction false} FoldInjective(a: bv32, b: bv32, s: ByteString)
    requires Fold(a, s) == Fold(b, s)
    ensures a == b
    decreases |s|
  {
    if s != [] {
      FoldInjective(Step(a, s[0]), Step(b, s[0]), s[1..]);
      StepInjective(a, b, s[0], s[0]);
    }
  }

  // A change of exactly one byte always changes the checksum.
  lemma {:induction false} OneByteDetected(c: bv32, s: ByteString, t: ByteString, i: nat)
    requires |s| == |t| && i < |s| && s[i] != t[i]
    requires forall j :: 0 <= j < |s| && j != i ==> s[j] == t[j]
    ensures Fold(c, s) != Fold(c, t)
    decreases i
  {
    if i == 0 {
      assert s[1..] == t[1..];
      if Fold(c, s) == Fold(c, t) {
        FoldInjective(Step(c, s[0]), Step(c, t[0]), s[1..]);
        StepInjective(c, c, s[0], t[0]);
      }
    } else {
      OneByteDetected(Step(c, s[0]), s[1..], t[1..], i - 1);
    }
  }

  // The trailer: four bytes, low byte first.
  function Trailer(c: bv32): (t: ByteString)
    ensures |t| == 4
  {
    [((c & 0xFF) as bv8) as int, (((c >> 8) & 0xFF) as bv8) as int, (((c >> 16) & 0xFF) as bv8) as int,
     (((c >> 24) & 0xFF) as bv8) as int]
  }

  function FromTrailer(t: ByteString): bv32
    requires |t| == 4
  {
    Join(t[0] as bv8, t[1] as bv8, t[2] as bv8, t[3] as bv8)
  }

  function Join(a: bv8, b: bv8, c: bv8, d: bv8): bv32
  {
    (a as bv32) | ((b as bv32) << 8) | ((c as bv32) << 16) | ((d as bv32) << 24)
  }

  lemma TrailerRoundTrip(c: bv32)
    ensures FromTrailer(Trailer(c)) == c
  {
    BvRoundTrip((c & 0xFF) as bv8);
    BvRoundTrip(((c >> 8) & 0xFF) as bv8);
    BvRoundTrip(((c >> 16) & 0xFF) as bv8);
    BvRoundTrip(((c >> 24) & 0xFF) as bv8);
  }

  lemma FromTrailerInjective(s: ByteString, t: ByteString)
    requires |s| == |t| == 4 && FromTrailer(s) == FromTrailer(t)
    ensures s == t
  {
    JoinInjective(s[0] as bv8, s[1] as bv8, s[2] as bv8, s[3] as bv8, t[0] as bv8, t[1] as bv8, t[2] as bv8, t[3] as bv8);
    SameByte(s[0], t[0]);
    SameByte(s[1], t[1]);
    SameByte(s[2], t[2]);
    SameByte(s[3], t[3]);
  }

  lemma JoinInjective(a0: bv8, a1: bv8, a2: bv8, a3: bv8, b0: bv8, b1: bv8, b2: bv8, b3: bv8)
    requires Join(a0, a1, a2, a3) == Join(b0, b1, b2, b3)
    ensures a0 == b0 && a1 == b1 && a2 == b2 && a3 == b3
  {
  }
}

module Blocks {
  import opened Bytes
  import opened Mvcc
  import Crc32

  const U16_MAX := 65535

  // ---- The byte layout ----

  ghost predicate Fits(r: Rec)
  {
    |r.key| <= U16_MAX && |r.value| <= U16_MAX && r.ver < 0x1_0000_0000_0000_0000
  }

  // [key_len:2][key][value_len:2][value][tranc_id:8]
  function EntryBytes(r: Rec): ByteString
  {
    Le(|r.key|, 2) + r.key + Le(|r.value|, 2) + r.value + Le(r.ver, 8)
  }

  function Cat(es: seq<Rec>): ByteString
  {
    if es == [] then [] else Cat(es[..|es| - 1]) + EntryBytes(es[|es| - 1])
  }

  // What is written from entry i on.
  lemma {:induction false} CatFrom(es: seq<Rec>, i: nat) returns (post: ByteString)
    requires i <= |es|
    ensures Cat(es) == Cat(es[..i]) + post
  {
    if i == |es| {
      assert es[..i] == es;
      post := [];
    } else {
      var front, last := es[..|es| - 1], EntryBytes(es[|es| - 1]);
      var a := CatFrom(front, i);
      assert front[..i] == es[..i];
      post := a + last;
      assert Cat(es[..i]) + a + last == Cat(es[..i]) + post;
    }
  }

  lemma CatSplit(es: seq<Rec>, i: nat) returns (post: ByteString)
    requires i < |es|
    ensures Cat(es) == Cat(es[..i]) + EntryBytes(es[i]) + post
  {
    post := CatFrom(es, i + 1);
    assert es[..i + 1][..i] == es[..i];
  }

  // What a decoded block holds in memory.
  datatype Image = Image(data: ByteString, offsets: seq<u16>)

  // The image holds exactly these entries.
  ghost predicate Holds(image: Image, es: seq<Rec>)
  {
    match image
    case Image(data, offsets) => data == Cat(es) && |offsets| == |es| && forall i :: 0 <= i < |es| ==> Placed(image, es, i)
  }

  // Entry i can be written down, and the table says where it starts.
  ghost predicate Placed(image: Image, es: seq<Rec>, i: int)
    requires |image.offsets| == |es| && 0 <= i < |es|
  {
    Fits(es[i]) && image.offsets[i] == |Cat(es[..i])|
  }

  lemma HoldsMore(image: Image, es: seq<Rec>, e: Rec)
    requires Holds(image, es) && Fits(e) && |image.data| <= U16_MAX
    ensures Holds(Image(image.data + EntryBytes(e), image.offsets + [|image.data|]), es + [e])
  {
    var now := Image(image.data + EntryBytes(e), image.offsets + [|image.data|]);
    assert (es + [e])[..|es|] == es;
    forall i | 0 <= i < |es + [e]|
      ensures Placed(now, es + [e], i)
    {
      assert (es + [e])[..i] == es[..i];
      if i < |es| {
        assert Placed(image, es, i);
      }
    }
  }

  // ---- Reading one entry ----

  function U16At(data: ByteString, p: nat): (n: nat)
    requires p + 2 <= |data|
  {
    (data[p] as int) + 256 * (data[p + 1] as int)
  }

  function KeyAt(data: ByteString, offset: nat): Result<Key>
  {
    if offset > |data| || |data| - offset < 2 then Err(Truncated)
    else
      var n := U16At(data, offset);
      if n > |data| - offset - 2 then Err(Truncated) else Ok(data[offset + 2..offset + 2 + n])
  }

  function ValueAt(data: ByteString, offset: nat): Result<ByteString>
  {
    match KeyAt(data, offset)
    case Err(e) => Err(e)
    case Ok(key) =>
      var start := offset + 2 + |key|;
      if |data| - start < 2 then Err(Truncated)
      else
        var n := U16At(data, start);
        if n > |data| - start - 2 then Err(Truncated) else Ok(data[start + 2..start + 2 + n])
  }

  function VerAt(data: ByteString, offset: nat): Result<nat>
  {
    match (KeyAt(data, offset), ValueAt(data, offset))
    case (Ok(key), Ok(value)) =>
      var start := offset + 4 + |key| + |value|;
      if |data| - start < 8 then Err(Truncated) else Ok(FromLe(data[start..start + 8]))
    case _ => Err(Truncated)
  }

  lemma LeTwo(n: nat)
    requires n <= U16_MAX
    ensures Le(n, 2) == [n % 256, n / 256]
  {
    assert Le(n / 256, 1) == [n / 256 % 256] + Le(n / 256 / 256, 0);
  }

  // An entry reads back as what was written, wherever it stands.
  lemma ReadBack(pre: ByteString, r: Rec, post: ByteString)
    requires Fits(r)
    ensures KeyAt(pre + EntryBytes(r) + post, |pre|) == Ok(r.key)
    ensures ValueAt(pre + EntryBytes(r) + post, |pre|) == Ok(r.value)
    ensures VerAt(pre + EntryBytes(r) + post, |pre|) == Ok(r.ver)
  {
    var data, p, v := pre + EntryBytes(r) + post, |pre|, |pre| + 2 + |r.key|;
    var bytes := Le(r.ver, 8);
    EntryParts(pre, Le(|r.key|, 2), r.key, Le(|r.value|, 2), r.value, bytes, post);
    U16Back(data, p, |r.key|);
    U16Back(data, v, |r.value|);
    ReadParts(data, p, r.key, r.value, bytes);
    Widths();
    FromLeOfLe(r.ver, 8);
  }

  // What stands where makes the entry.
  lemma ReadParts(data: ByteString, p: nat, key: Key, value: ByteString, ver: ByteString)
    requires |ver| == 8 && p + 12 + |key| + |value| <= |data|
    requires var v := p + 2 + |key|; var t := v + 2 + |value|;
             && U16At(data, p) == |key| && U16At(data, v) == |value|
             && data[p + 2..v] == key && data[v + 2..t] == value && data[t..t + 8] == ver
    ensures KeyAt(data, p) == Ok(key) && ValueAt(data, p) == Ok(value) && VerAt(data, p) == Ok(FromLe(ver))
  {
  }

  lemma U16Back(data: ByteString, p: nat, n: nat)
    requires n <= U16_MAX && p + 2 <= |data| && data[p..p + 2] == Le(n, 2)
    ensures U16At(data, p) == n
  {
    LeTwo(n);
    assert data[p..p + 2][0] == data[p] && data[p..p + 2][1] == data[p + 1];
  }

  lemma EntryParts(pre: ByteString, a: ByteString, b: ByteString, c: ByteString, d: ByteString, e: ByteString, post: ByteString)
    ensures var data := pre + (a + b + c + d + e) + post;
            var i := |pre| + |a|; var j := i + |b|; var k := j + |c|; var l := k + |d|;
            && |data| >= l + |e| && data[|pre|..i] == a && data[i..j] == b && data[j..k] == c && data[k..l] == d && data[l..l + |e|] == e
  {
  }

  lemma EntryAt(image: Image, es: seq<Rec>, i: nat)
    requires Holds(image, es) && i < |es|
    ensures KeyAt(image.data, image.offsets[i]) == Ok(es[i].key)
    ensures ValueAt(image.data, image.offsets[i]) == Ok(es[i].value)
    ensures VerAt(image.data, image.offsets[i]) == Ok(es[i].ver)
  {
    assert Placed(image, es, i);
    var post := CatSplit(es, i);
    ReadBack(Cat(es[..i]), es[i], post);
  }

  // ---- Building ----

  datatype AddOutcome = Added | Full | Refused

  class Block {
    var data: ByteString
    var offsets: seq<u16>
    const capacity: nat

    constructor (capacity: nat)
      ensures data == [] && offsets == [] && this.capacity == capacity
    {
      this.capacity := capacity;
      data, offsets := [], [];
    }

    function CurSize(): nat
      reads this
    {
      |data| + 2 * |offsets| + 2
    }

    ghost predicate Holding(es: seq<Rec>)
      reads this
    {
      Holds(Image(data, offsets), es)
    }

    // Refused means an exception: a 16-bit limit is exceeded.  Only Added changes the block.
    method AddEntry(key: Key, value: ByteString, ver: u64, force: bool, ghost es: seq<Rec>) returns (r: AddOutcome)
      requires Holding(es)
      modifies this
      ensures r.Added? ==> Holding(es + [Rec(key, value, ver)]) && |es| < U16_MAX
      ensures !r.Added? ==> data == old(data) && offsets == old(offsets)
      ensures r.Full? <==> |key| <= U16_MAX && |value| <= U16_MAX && !force && es != [] &&
                           old(CurSize()) + 12 + |key| + |value| + 2 > capacity
      ensures r.Refused? ==> |key| > U16_MAX || |value| > U16_MAX || |Cat(es)| > U16_MAX || |es| >= U16_MAX
    {
      if |key| > U16_MAX || |value| > U16_MAX {
        return Refused;
      }
      var entrySize := 2 + |key| + 2 + |value| + 8;
      if !force && offsets != [] && CurSize() + entrySize + 2 > capacity {
        return Full;
      }
      if |data| > U16_MAX {
        return Refused;
      }
      if |offsets| >= U16_MAX {
        return Refused;
      }
      offsets := offsets + [|data|];
      var bytes := AppendUint([], |key|, 2);
      bytes := bytes + key;
      bytes := AppendUint(bytes, |value|, 2);
      bytes := bytes + value;
      bytes := AppendUint(bytes, ver, 8);
      HoldsMore(Image(data, old(offsets)), es, Rec(key, value, ver));
      assert bytes == EntryBytes(Rec(key, value, ver));
      data := data + bytes;
      return Added;
    }

    // [data][offsets:2 each][count:2][crc:4]
    method Encode() returns (r: Result<ByteString>)
      ensures |offsets| > U16_MAX <==> r.Err?
      ensures r.Ok? ==> r.value == Sealed(Image(data, offsets))
    {
      var encoded := data;
      var i := 0;
      while i < |offsets|
        invariant 0 <= i <= |offsets|
        invariant encoded == data + OffsetBytes(offsets[..i])
      {
        encoded := AppendUint(encoded, offsets[i], 2);
        assert offsets[..i + 1][..i] == offsets[..i];
        i := i + 1;
      }
      assert offsets[..i] == offsets;
      if |offsets| > U16_MAX {
        return Err(LengthError);
      }
      encoded := AppendUint(encoded, |offsets|, 2);
      var crc := Crc32.Compute(encoded);
      return Ok(encoded + Crc32.Trailer(crc));
    }
  }

  // The low bytes of an integer, one after the other.
  method AppendUint(bytes: ByteString, value: nat, count: nat) returns (out: ByteString)
    ensures out == bytes + Le(value, count)
  {
    out := bytes;
    var rest := value;
    var i := 0;
    while i < count
      invariant 0 <= i <= count
      invariant out + Le(rest, count - i) == bytes + Le(value, count)
    {
      assert Le(rest, count - i) == [rest % 256] + Le(rest / 256, count - i - 1);
      out := out + [rest % 256];
      rest := rest / 256;
      i := i + 1;
    }
  }

  // ---- The image on disk ----

  function OffsetBytes(offsets: seq<u16>): (s: ByteString)
    ensures |s| == 2 * |offsets|
  {
    if offsets == [] then [] else OffsetBytes(offsets[..|offsets| - 1]) + Le(offsets[|offsets| - 1], 2)
  }

  function Body(image: Image): ByteString
  {
    image.data + OffsetBytes(image.offsets) + Le(|image.offsets|, 2)
  }

  function Sealed(image: Image): ByteString
  {
    Body(image) + Crc32.Trailer(Crc32.Crc(Body(image)))
  }

  lemma {:induction false} OffsetByteAt(offsets: seq<u16>, i: nat)
    requires i < |offsets|
    ensures OffsetBytes(offsets)[2 * i..2 * i + 2] == Le(offsets[i], 2)
  {
    if i < |offsets| - 1 {
      OffsetByteAt(offsets[..|offsets| - 1], i);
    }
  }

  // Checks the trailer, then cuts data and offsets from the back.
  method Decode(encoded: ByteString) returns (r: Result<Image>)
    ensures r == Unsealed(encoded)
  {
    if |encoded| < 6 {
      return Err(Truncated);
    }
    var size := |encoded| - 4;
    var wanted := Crc32.Compute(encoded[..size]);
    if wanted != Crc32.FromTrailer(encoded[size..]) {
      return Err(BadChecksum);
    }
    var num := U16At(encoded, size - 2);
    var end := size - 2;
    if 2 * num > end {
      return Err(BadCount);
    }
    var begin := end - 2 * num;
    var offsets: seq<u16> := [];
    var i := 0;
    while i < num
      invariant 0 <= i <= num && offsets == ReadOffsets(encoded, begin, i)
    {
      offsets := offsets + [U16At(encoded, begin + 2 * i)];
      i := i + 1;
    }
    return Ok(Image(encoded[..begin], offsets));
  }

  function ReadOffsets(bytes: ByteString, begin: nat, n: nat): (offsets: seq<u16>)
    requires begin + 2 * n <= |bytes|
    ensures |offsets| == n
    ensures forall i :: 0 <= i < n ==> offsets[i] == U16At(bytes, begin + 2 * i)
  {
    if n == 0 then [] else ReadOffsets(bytes, begin, n - 1) + [U16At(bytes, begin + 2 * (n - 1))]
  }

  function Unsealed(encoded: ByteString): Result<Image>
  {
    if |encoded| < 6 then Err(Truncated)
    else
      var size := |encoded| - 4;
      if Crc32.Crc(encoded[..size]) != Crc32.FromTrailer(encoded[size..]) then Err(BadChecksum)
      else
        var num := U16At(encoded, size - 2);
        if 2 * num > size - 2 then Err(BadCount)
        else Ok(Image(encoded[..size - 2 - 2 * num], ReadOffsets(encoded, size - 2 - 2 * num, num)))
  }

  // A block image decodes back to the same data and offsets.
  lemma UnsealedOfSealed(image: Image)
    requires |image.offsets| <= U16_MAX
    ensures Unsealed(Sealed(image)) == Ok(image)
  {
    var body, s := Body(image), Sealed(image);
    var n, size := |image.offsets|, |Body(image)|;
    assert s[..size] == body && s[size..] == Crc32.Trailer(Crc32.Crc(body));
    Crc32.TrailerRoundTrip(Crc32.Crc(body));
    CountReadsBack(image, s);
    var begin := |image.data|;
    assert s[..begin] == image.data;
    forall i | 0 <= i < n
      ensures U16At(s, begin + 2 * i) == image.offsets[i]
    {
      OffsetReadsBack(image, s, i);
    }
    assert ReadOffsets(s, begin, n) == image.offsets;
  }

  lemma CountReadsBack(image: Image, s: ByteString)
    requires |image.offsets| <= U16_MAX && |s| >= |Body(image)| && s[..|Body(image)|] == Body(image)
    ensures U16At(s, |Body(image)| - 2) == |image.offsets|
  {
    var body, n := Body(image), |image.offsets|;
    var size := |body|;
    LeTwo(n);
    assert body[size - 2..] == Le(n, 2);
    assert s[size - 2] == body[size - 2] == n % 256 && s[size - 1] == body[size - 1] == n / 256;
  }

  lemma OffsetReadsBack(image: Image, s: ByteString, i: nat)
    requires i < |image.offsets| && |s| >= |Body(image)| && s[..|Body(image)|] == Body(image)
    ensures U16At(s, |image.data| + 2 * i) == image.offsets[i]
  {
    var begin := |image.data|;
    OffsetByteAt(image.offsets, i);
    LeTwo(image.offsets[i]);
    var part := OffsetBytes(image.offsets)[2 * i..2 * i + 2];
    assert s[begin + 2 * i] == Body(image)[begin + 2 * i] == part[0];
    assert s[begin + 2 * i + 1] == Body(image)[begin + 2 * i + 1] == part[1];
  }

  lemma BodyDamage(body: ByteString, t: ByteString, i: nat)
    requires |t| == |body| + 4 && i < |body| && t[i] != body[i]
    requires forall j :: 0 <= j < |body| && j != i ==> t[j] == body[j]
    requires t[|body|..] == Crc32.Trailer(Crc32.Crc(body))
    ensures Crc32.Crc(t[..|body|]) != Crc32.FromTrailer(t[|body|..])
  {
    Crc32.TrailerRoundTrip(Crc32.Crc(body));
    Crc32.OneByteDetected(Crc32.ALL_ONES, body, t[..|body|], i);
    Crc32.XorOnes(Crc32.Fold(Crc32.ALL_ONES, body), Crc32.Fold(Crc32.ALL_ONES, t[..|body|]));
  }

  lemma TrailerDamage(body: ByteString, trailer: ByteString)
    requires |trailer| == 4 && trailer != Crc32.Trailer(Crc32.Crc(body))
    ensures Crc32.Crc(body) != Crc32.FromTrailer(trailer)
  {
    Crc32.TrailerRoundTrip(Crc32.Crc(body));
    if Crc32.FromTrailer(trailer) == Crc32.Crc(body) {
      Crc32.FromTrailerInjective(trailer, Crc32.Trailer(Crc32.Crc(body)));
    }
  }

  // An image in which exactly one byte was changed is rejected.
  lemma DamageDetected(image: Image, t: ByteString, i: nat)
    requires |t| == |Sealed(image)| && i < |t| && t[i] != Sealed(image)[i]
    requires forall j :: 0 <= j < |t| && j != i ==> t[j] == Sealed(image)[j]
    ensures Unsealed(t) == Err(BadChecksum)
  {
    var body := Body(image);
    var size := |body|;
    var trailer := Crc32.Trailer(Crc32.Crc(body));
    assert Sealed(image) == body + trailer;
    if i < size {
      assert t[size..] == trailer;
      BodyDamage(body, t, i);
    } else {
      assert t[..size] == body;
      assert t[size..][i - size] != trailer[i - size];
      TrailerDamage(body, t[size..]);
    }
  }
}
