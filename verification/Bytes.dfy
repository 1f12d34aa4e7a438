// Byte strings, the order std::string gives them, and little-endian integers.

module Bytes {

  type byte = x: int | 0 <= x < 256

  type u16 = x: int | 0 <= x < 0x1_0000
  type u32 = x: int | 0 <= x < 0x1_0000_0000
  type u64 = x: int | 0 <= x < 0x1_0000_0000_0000_0000

  type ByteString = seq<byte>

  datatype Option<+T> = None | Some(value: T)

  datatype Result<+T> = Ok(value: T) | Err(error: Error)

  // The exceptions of the program, by what they complain about.
  datatype Error =
    | LengthError
    | Truncated
    | BadLength
    | BadType
    | BadChecksum
    | BadHeader
    | BadCount
    | BadOrder
    | BadEntry
    | Duplicate
    | LogicError
    | WalFailed
    | NotFound
    // No exception: a table has outgrown its 32-bit offsets, and nothing notices.
    | Oversize

  // ---- The order of std::string: unsigned bytes, first difference decides ----

  predicate Less(a: ByteString, b: ByteString)
  {
    b != [] && (a == [] || a[0] < b[0] || (a[0] == b[0] && Less(a[1..], b[1..])))
  }

  predicate AtMost(a: ByteString, b: ByteString)
  {
    a == b || Less(a, b)
  }

  lemma {:induction false} LessTotal(a: ByteString, b: ByteString)
    ensures Less(a, b) || Less(b, a) || a == b
    ensures !(Less(a, b) && Less(b, a))
    ensures a == b ==> !Less(a, b)
  {
    if a != [] && b != [] {
      LessTotal(a[1..], b[1..]);
      if a[0] == b[0] && a[1..] == b[1..] {
        assert a == [a[0]] + a[1..] && b == [b[0]] + b[1..];
      }
    }
  }

  lemma {:induction false} LessTransitive(a: ByteString, b: ByteString, c: ByteString)
    requires Less(a, b) && Less(b, c)
    ensures Less(a, c)
  {
    if a != [] && a[0] == b[0] == c[0] {
      LessTransitive(a[1..], b[1..], c[1..]);
    }
  }

  // Less is a strict total order, for use where several keys are compared.
  lemma KeyOrder()
    ensures forall a, b :: Less(a, b) ==> !Less(b, a) && a != b
    ensures forall a, b :: a == b || Less(a, b) || Less(b, a)
    ensures forall a, b, c :: Less(a, b) && Less(b, c) ==> Less(a, c)
    ensures forall a: ByteString :: a != [] ==> Less([], a)
  {
    forall a, b ensures (Less(a, b) ==> !Less(b, a) && a != b) && (a == b || Less(a, b) || Less(b, a)) {
      LessTotal(a, b);
    }
    forall a, b, c | Less(a, b) && Less(b, c) ensures Less(a, c) {
      LessTransitive(a, b, c);
    }
  }

  // ---- Little-endian integers ----

  function Pow256(width: nat): (p: nat)
    ensures p >= 1
  {
    if width == 0 then 1 else 256 * Pow256(width - 1)
  }

  function Le(value: nat, width: nat): (s: ByteString)
    ensures |s| == width
  {
    if width == 0 then [] else [value % 256] + Le(value / 256, width - 1)
  }

  function FromLe(s: ByteString): (value: nat)
  {
    if s == [] then 0 else s[0] + 256 * FromLe(s[1..])
  }

  lemma {:induction false} FromLeOfLe(value: nat, width: nat)
    requires value < Pow256(width)
    ensures FromLe(Le(value, width)) == value
  {
    if width > 0 {
      FromLeOfLe(value / 256, width - 1);
      assert Le(value, width)[1..] == Le(value / 256, width - 1);
    }
  }

  lemma {:induction false} LeOfFromLe(s: ByteString)
    ensures FromLe(s) < Pow256(|s|)
    ensures Le(FromLe(s), |s|) == s
  {
    if s != [] {
      LeOfFromLe(s[1..]);
      assert FromLe(s) % 256 == s[0] && FromLe(s) / 256 == FromLe(s[1..]);
      assert s == [s[0]] + s[1..];
    }
  }

  lemma Widths()
    ensures Pow256(1) == 0x100
    ensures Pow256(2) == 0x1_0000
    ensures Pow256(4) == 0x1_0000_0000
    ensures Pow256(8) == 0x1_0000_0000_0000_0000
  {
    assert Pow256(3) == 0x100_0000;
    assert Pow256(5) == 0x100_0000_0000;
    assert Pow256(6) == 0x1_0000_0000_0000;
    assert Pow256(7) == 0x100_0000_0000_0000;
  }

  // ---- Length-prefixed strings ----

  function Text(text: ByteString): ByteString
  {
    Le(|text|, 2) + text
  }

  function TextAt(bytes: ByteString, p: nat): Result<ByteString>
  {
    if p + 2 > |bytes| then Err(Truncated)
    else
      var n := FromLe(bytes[p..p + 2]);
      if p + 2 + n > |bytes| then Err(Truncated) else Ok(bytes[p + 2..p + 2 + n])
  }

  lemma TextReadsBack(pre: ByteString, text: ByteString, post: ByteString)
    requires |text| < 0x1_0000
    ensures TextAt(pre + Text(text) + post, |pre|) == Ok(text)
  {
    TextCut(pre, Le(|text|, 2), text, post);
    Widths();
    FromLeOfLe(|text|, 2);
  }

  lemma TextCut(pre: ByteString, len: ByteString, text: ByteString, post: ByteString)
    ensures var s, p := pre + (len + text) + post, |pre|;
            s[p..p + |len|] == len && s[p + |len|..p + |len| + |text|] == text
  {
  }

  // What was read is what is written there.
  lemma TextIsThere(bytes: ByteString, p: nat)
    requires TextAt(bytes, p).Ok?
    ensures var text := TextAt(bytes, p).value;
            |text| < 0x1_0000 && p + 2 + |text| <= |bytes| && bytes[p..p + 2 + |text|] == Text(text)
  {
    LeOfFromLe(bytes[p..p + 2]);
    Widths();
    var text := TextAt(bytes, p).value;
    assert bytes[p..p + 2 + |text|] == bytes[p..p + 2] + bytes[p + 2..p + 2 + |text|];
  }

  // ---- Definitions kept closed ----

  // For invariants that are passed around more often than they are looked into.  One
  // written as (forall n :: Opened(n) ==> body) says what its body says, but the body
  // stays out of a proof until Opened(0) is asserted there; without that, proofs about
  // callers drown in quantifiers they do not need.
  ghost predicate Opened(n: int)
  {
    n == 0
  }

  // ---- Slices ----

  lemma SliceOfConcat(a: ByteString, b: ByteString, c: ByteString)
    ensures (a + b + c)[|a|..|a| + |b|] == b
    ensures (a + b + c)[|a| + |b|..] == c
    ensures (a + b + c)[..|a|] == a
  {
  }
}
