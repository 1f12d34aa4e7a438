// The Bloom filter of an SST.

module Bloom {
  import opened Bytes
  import opened Mvcc
  import Blocks

  const SALT: ByteString := [0x73, 0x61, 0x6c, 0x74]
  const TWO64 := 0x1_0000_0000_0000_0000

  // The bit pattern of 1.0; positive doubles are ordered as their bit patterns.
  const ONE_BITS := 0x3FF0_0000_0000_0000

  // std::hash on strings is left uninterpreted.
  type Hasher = ByteString -> u64

  // The filter as an SST keeps it; the false-positive rate by its bit pattern.
  datatype Filter = Filter(expected: u64, rate: u64, numBits: u64, numHashes: u64, bits: seq<bool>)

  predicate Sane(f: Filter)
  {
    f.expected != 0 && 0 < f.rate < ONE_BITS && f.numBits != 0 && f.numHashes != 0 && |f.bits| == f.numBits
  }

  // Double hashing in 64-bit arithmetic.
  function Position(hasher: Hasher, numBits: u64, key: Key, i: nat): (p: nat)
    requires numBits != 0
    ensures p < numBits
  {
    (hasher(key) + i * hasher(key + SALT)) % TWO64 % numBits
  }

  ghost predicate MayContain(hasher: Hasher, f: Filter, key: Key)
    requires Sane(f)
  {
    forall i :: 0 <= i < f.numHashes ==> f.bits[Position(hasher, f.numBits, key, i)]
  }

  method PossiblyContains(hasher: Hasher, f: Filter, key: Key) returns (r: bool)
    requires Sane(f)
    ensures r <==> MayContain(hasher, f, key)
  {
    var i := 0;
    while i < f.numHashes
      invariant 0 <= i <= f.numHashes
      invariant forall j :: 0 <= j < i ==> f.bits[Position(hasher, f.numBits, key, j)]
    {
      if !f.bits[Position(hasher, f.numBits, key, i)] {
        return false;
      }
      i := i + 1;
    }
    return true;
  }

  class BloomFilter {
    const hasher: Hasher
    const expected: u64
    const rate: u64
    const numBits: u64
    const numHashes: u64
    var bits: seq<bool>

    // The sizing formula is floating-point; any positive outcome is admitted here.
    constructor (hasher: Hasher, expected: u64, rate: u64, numBits: u64, numHashes: u64)
      requires expected != 0 && 0 < rate < ONE_BITS && numBits != 0 && numHashes != 0
      ensures Valid() && this.hasher == hasher
    {
      this.hasher, this.expected, this.rate, this.numBits, this.numHashes := hasher, expected, rate, numBits, numHashes;
      bits := seq(numBits, _ => false);
    }

    function Snapshot(): Filter
      reads this
    {
      Filter(expected, rate, numBits, numHashes, bits)
    }

    ghost predicate Valid()
      reads this
    {
      Sane(Snapshot())
    }

    // Never a false negative: what was in stays in, and the new key is in.
    method Add(key: Key)
      requires Valid()
      modifies this
      ensures Valid() && MayContain(hasher, Snapshot(), key)
      ensures forall k :: old(MayContain(hasher, Snapshot(), k)) ==> MayContain(hasher, Snapshot(), k)
    {
      var i := 0;
      while i < numHashes
        invariant 0 <= i <= numHashes && Valid()
        invariant forall p :: 0 <= p < numBits && old(bits)[p] ==> bits[p]
        invariant forall j :: 0 <= j < i ==> bits[Position(hasher, numBits, key, j)]
      {
        bits := bits[Position(hasher, numBits, key, i) := true];
        i := i + 1;
      }
    }
  }

  // ---- Bit packing ----

  function Pow2(n: nat): (p: nat)
    ensures p >= 1
  {
    if n == 0 then 1 else 2 * Pow2(n - 1)
  }

  // Bits to an integer, the first bit lowest.
  function Pack(b: seq<bool>): nat
  {
    if b == [] then 0 else (if b[0] then 1 else 0) + 2 * Pack(b[1..])
  }

  // (n >> i) & 1
  function BitOf(n: nat, i: nat): bool
    decreases i
  {
    if i == 0 then n % 2 == 1 else BitOf(n / 2, i - 1)
  }

  lemma {:induction false} PackBound(b: seq<bool>)
    ensures Pack(b) < Pow2(|b|)
  {
    if b != [] {
      PackBound(b[1..]);
    }
  }

  lemma {:induction false} PackAppend(b: seq<bool>, x: bool)
    ensures Pack(b + [x]) == Pack(b) + if x then Pow2(|b|) else 0
  {
    if b == [] {
      assert [x][1..] == [];
      assert b + [x] == [x];
    } else {
      assert (b + [x])[1..] == b[1..] + [x];
      PackAppend(b[1..], x);
    }
  }

  lemma {:induction false} BitOfPack(b: seq<bool>, i: nat)
    requires i < |b|
    ensures BitOf(Pack(b), i) == b[i]
  {
    if i > 0 {
      BitOfPack(b[1..], i - 1);
    }
  }

  // Byte j of the packed array.
  function Octet(bits: seq<bool>, j: nat): seq<bool>
    requires 8 * j <= |bits|
  {
    bits[8 * j..if 8 * j + 8 <= |bits| then 8 * j + 8 else |bits|]
  }

  function PackedSize(n: nat): nat
  {
    n / 8 + if n % 8 != 0 then 1 else 0
  }

  ghost predicate Packs(data: ByteString, bits: seq<bool>)
  {
    |data| == PackedSize(|bits|) && forall j :: 0 <= j < |data| ==> data[j] == Pack(Octet(bits, j))
  }

  function Header(f: Filter): ByteString
  {
    Le(f.expected, 8) + Le(f.rate, 8) + Le(f.numBits, 8) + Le(f.numHashes, 8)
  }

  ghost predicate Encodes(data: ByteString, f: Filter)
    requires Sane(f)
  {
    |data| == 32 + PackedSize(f.numBits) && data[..32] == Header(f) && Packs(data[32..], f.bits)
  }

  // [expected:8][rate:8][num_bits:8][num_hashes:8][bits]
  method Encode(f: Filter) returns (data: ByteString)
    requires Sane(f)
    ensures Encodes(data, f)
  {
    var head := EncodeHeader(f);
    var packed := PackAll(f.bits);
    data := head + packed;
    assert data[..32] == head;
    assert data[32..] == packed;
  }

  method EncodeHeader(f: Filter) returns (head: ByteString)
    ensures head == Header(f) && |head| == 32
  {
    head := Blocks.AppendUint([], f.expected, 8);
    assert head == Le(f.expected, 8);
    head := Blocks.AppendUint(head, f.rate, 8);
    head := Blocks.AppendUint(head, f.numBits, 8);
    head := Blocks.AppendUint(head, f.numHashes, 8);
  }

  // The packed array once the first i bits are in.
  ghost predicate PackedTo(packed: ByteString, bits: seq<bool>, i: nat)
    requires i <= |bits|
  {
    |packed| == PackedSize(|bits|) &&
    forall j :: 0 <= j < |packed| ==> packed[j] == if 8 * j <= i then Pack(Octet(bits[..i], j)) else 0
  }

  method PackAll(bits: seq<bool>) returns (packed: ByteString)
    ensures Packs(packed, bits)
  {
    packed := seq(PackedSize(|bits|), _ => 0);
    var i := 0;
    while i < |bits|
      invariant 0 <= i <= |bits| && PackedTo(packed, bits, i)
    {
      SetBit(bits, i);
      PackOne(packed, bits, i);
      if bits[i] {
        packed := packed[i / 8 := packed[i / 8] + Pow2(i % 8)];
      }
      i := i + 1;
    }
    assert bits[..i] == bits;
  }

  lemma PackOne(packed: ByteString, bits: seq<bool>, i: nat)
    requires i < |bits| && PackedTo(packed, bits, i)
    ensures packed[i / 8] + (if bits[i] then Pow2(i % 8) else 0) < 256
    ensures bits[i] ==> PackedTo(packed[i / 8 := packed[i / 8] + Pow2(i % 8)], bits, i + 1)
    ensures !bits[i] ==> PackedTo(packed, bits, i + 1)
  {
    SetBit(bits, i);
  }

  lemma LastOctet(bits: seq<bool>, i: nat)
    requires i < |bits|
    ensures 8 * (i / 8) <= i && |Octet(bits[..i], i / 8)| == i % 8
    ensures Octet(bits[..i + 1], i / 8) == Octet(bits[..i], i / 8) + [bits[i]]
  {
  }

  // What taking one more bit into account does to the packed bytes.
  lemma SetBit(bits: seq<bool>, i: nat)
    requires i < |bits|
    ensures 8 * (i / 8) <= i
    ensures Pack(Octet(bits[..i + 1], i / 8)) == Pack(Octet(bits[..i], i / 8)) + if bits[i] then Pow2(i % 8) else 0
    ensures Pack(Octet(bits[..i + 1], i / 8)) < 256
    ensures forall j :: 0 <= 8 * j <= i && j != i / 8 ==> Octet(bits[..i + 1], j) == Octet(bits[..i], j)
    ensures (i + 1) % 8 == 0 ==> Octet(bits[..i + 1], (i + 1) / 8) == []
  {
    var j := i / 8;
    var before := Octet(bits[..i], j);
    LastOctet(bits, i);
    PackAppend(before, bits[i]);
    PackBound(before + [bits[i]]);
    Pow2Mono(|before| + 1, 8);
    assert Pow2(8) == 256;
  }

  lemma {:induction false} Pow2Mono(a: nat, b: nat)
    requires a <= b
    ensures Pow2(a) <= Pow2(b)
  {
    if a < b {
      Pow2Mono(a, b - 1);
    }
  }

  method Decode(data: ByteString) returns (r: Result<Filter>)
    ensures r.Ok? ==> Sane(r.value) && |data| == 32 + PackedSize(r.value.numBits)
    ensures forall f :: Sane(f) && Encodes(data, f) ==> r == Ok(f)
  {
    if |data| < 32 {
      return Err(Truncated);
    }
    LeOfFromLe(data[0..8]);
    LeOfFromLe(data[8..16]);
    LeOfFromLe(data[16..24]);
    LeOfFromLe(data[24..32]);
    Widths();
    var expected, rate := FromLe(data[0..8]), FromLe(data[8..16]);
    var numBits, numHashes := FromLe(data[16..24]), FromLe(data[24..32]);
    forall f | |data| >= 32 && data[..32] == Header(f)
      ensures f.expected == expected && f.rate == rate && f.numBits == numBits && f.numHashes == numHashes
    {
      HeaderFields(f, data);
    }
    if expected == 0 || !(0 < rate < ONE_BITS) || numBits == 0 || numHashes == 0 {
      return Err(BadHeader);
    }
    if |data| - 32 != PackedSize(numBits) {
      return Err(BadLength);
    }
    var bits: seq<bool> := [];
    var i := 0;
    while i < numBits
      invariant 0 <= i <= numBits && |bits| == i
      invariant forall k :: 0 <= k < i ==> bits[k] == BitOf(data[32 + k / 8], k % 8)
    {
      bits := bits + [BitOf(data[32 + i / 8], i % 8)];
      i := i + 1;
    }
    forall f | Sane(f) && f.numBits == numBits && Packs(data[32..], f.bits)
      ensures f.bits == bits
    {
      forall k | 0 <= k < numBits
        ensures f.bits[k] == bits[k]
      {
        UnpackBit(data, f.bits, k);
      }
    }
    return Ok(Filter(expected, rate, numBits, numHashes, bits));
  }

  lemma UnpackBit(data: ByteString, bits: seq<bool>, k: nat)
    requires |data| >= 32 && Packs(data[32..], bits) && k < |bits|
    ensures BitOf(data[32 + k / 8], k % 8) == bits[k]
  {
    var j := k / 8;
    assert data[32..][j] == Pack(Octet(bits, j));
    BitOfPack(Octet(bits, j), k % 8);
  }

  lemma HeaderFields(f: Filter, data: ByteString)
    requires |data| >= 32 && data[..32] == Header(f)
    ensures FromLe(data[0..8]) == f.expected && FromLe(data[8..16]) == f.rate
    ensures FromLe(data[16..24]) == f.numBits && FromLe(data[24..32]) == f.numHashes
  {
    Widths();
    FromLeOfLe(f.expected, 8);
    FromLeOfLe(f.rate, 8);
    FromLeOfLe(f.numBits, 8);
    FromLeOfLe(f.numHashes, 8);
    var h := Header(f);
    assert data[0..8] == h[0..8] == Le(f.expected, 8);
    assert data[8..16] == h[8..16] == Le(f.rate, 8);
    assert data[16..24] == h[16..24] == Le(f.numBits, 8);
    assert data[24..32] == h[24..32] == Le(f.numHashes, 8);
  }
}
