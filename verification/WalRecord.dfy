// The records of the write-ahead log and their byte form.

module WalRecords {
  import opened Bytes
  import Blocks

  const HEADER_SIZE := 11
  const MAX_LEN := 65535

  datatype Record =
    | Create(id: u64)
    | Commit(id: u64)
    | Rollback(id: u64)
    | Put(id: u64, key: ByteString, value: ByteString)
    | Delete(id: u64, key: ByteString)

  function Tag(r: Record): byte
  {
    match r
    case Create(_) => 0
    case Commit(_) => 1
    case Rollback(_) => 2
    case Put(_, _, _) => 3
    case Delete(_, _) => 4
  }

  function Body(r: Record): ByteString
  {
    match r
    case Put(_, key, value) => Text(key) + Text(value)
    case Delete(_, key) => Text(key)
    case _ => []
  }

  function Length(r: Record): nat
  {
    HEADER_SIZE + |Body(r)|
  }

  // The whole record fits the 16-bit length it starts with.
  predicate Proper(r: Record)
  {
    Length(r) <= MAX_LEN
  }

  // len:2 | tranc_id:8 | type:1 | body
  function Encoded(r: Record): ByteString
  {
    Le(Length(r), 2) + Le(r.id, 8) + [Tag(r)] + Body(r)
  }

  function EncodedAll(rs: seq<Record>): ByteString
  {
    if rs == [] then [] else Encoded(rs[0]) + EncodedAll(rs[1..])
  }

  predicate AllProper(rs: seq<Record>)
  {
    forall i :: 0 <= i < |rs| ==> Proper(rs[i])
  }

  // ---- The factories ----

  method PutRecord(id: u64, key: ByteString, value: ByteString) returns (r: Result<Record>)
    ensures r.Ok? <==> Proper(Put(id, key, value))
    ensures r.Ok? ==> r.value == Put(id, key, value)
    ensures r.Err? ==> r.error == LengthError
  {
    if |key| > MAX_LEN || |value| > MAX_LEN {
      return Err(LengthError);
    }
    if HEADER_SIZE + 2 + 2 + |key| + |value| > MAX_LEN {
      return Err(LengthError);
    }
    return Ok(Put(id, key, value));
  }

  method DeleteRecord(id: u64, key: ByteString) returns (r: Result<Record>)
    ensures r.Ok? <==> Proper(Delete(id, key))
    ensures r.Ok? ==> r.value == Delete(id, key)
    ensures r.Err? ==> r.error == LengthError
  {
    if |key| > MAX_LEN {
      return Err(LengthError);
    }
    if HEADER_SIZE + 2 + |key| > MAX_LEN {
      return Err(LengthError);
    }
    return Ok(Delete(id, key));
  }

  // ---- Encoding ----

  method Encode(r: Record) returns (data: ByteString)
    ensures data == Encoded(r)
  {
    data := EncodeHeader(Length(r), r.id, Tag(r));
    BodyBehind(data, r);
    if r.Put? || r.Delete? {
      data := AppendText(data, r.key);
    }
    if r.Put? {
      data := AppendText(data, r.value);
    }
  }

  // The body appended piece by piece.
  lemma {:induction false} BodyBehind(head: ByteString, r: Record)
    ensures r.Put? ==> head + Body(r) == head + Text(r.key) + Text(r.value)
    ensures r.Delete? ==> head + Body(r) == head + Text(r.key)
    ensures !r.Put? && !r.Delete? ==> head + Body(r) == head
  {
    if r.Put? {
      ThreeTexts(head, Text(r.key), Text(r.value));
    }
  }

  lemma ThreeTexts(a: ByteString, b: ByteString, c: ByteString)
    ensures a + (b + c) == a + b + c
  {
  }

  method EncodeHeader(len: nat, id: u64, tag: byte) returns (data: ByteString)
    ensures data == Le(len, 2) + Le(id, 8) + [tag]
  {
    data := Blocks.AppendUint([], len, 2);
    assert data == Le(len, 2);
    data := Blocks.AppendUint(data, id, 8);
    data := data + [tag];
  }

  method AppendText(data: ByteString, text: ByteString) returns (out: ByteString)
    ensures out == data + Text(text)
  {
    out := Blocks.AppendUint(data, |text|, 2);
    out := out + text;
  }

  // ---- Reading one record ----

  // The payload must fill the record exactly.
  function ReadBody(tag: byte, id: u64, body: ByteString): Result<Record>
  {
    if tag <= 2 then
      if body != [] then Err(BadLength)
      else Ok(if tag == 0 then Create(id) else if tag == 1 then Commit(id) else Rollback(id))
    else if tag == 3 then
      match TextAt(body, 0)
      case Err(e) => Err(e)
      case Ok(key) =>
        match TextAt(body, 2 + |key|)
        case Err(e) => Err(e)
        case Ok(value) => if 4 + |key| + |value| != |body| then Err(BadLength) else Ok(Put(id, key, value))
    else if tag == 4 then
      match TextAt(body, 0)
      case Err(e) => Err(e)
      case Ok(key) => if 2 + |key| != |body| then Err(BadLength) else Ok(Delete(id, key))
    else Err(BadType)
  }

  function ReadId(data: ByteString, p: nat): (id: u64)
    requires p + 8 <= |data|
  {
    LeOfFromLe(data[p..p + 8]);
    Widths();
    FromLe(data[p..p + 8])
  }

  // The record that starts the data.
  function ReadRecord(data: ByteString): Result<Record>
  {
    if |data| < 2 then Err(Truncated)
    else
      var len := FromLe(data[..2]);
      if len < HEADER_SIZE || len > |data| then Err(BadLength)
      else ReadBody(data[10], ReadId(data, 2), data[HEADER_SIZE..len])
  }

  // A record reads back as what was written, whatever follows it.
  lemma {:induction false} ReadsBack(r: Record, rest: ByteString)
    requires Proper(r)
    ensures ReadRecord(Encoded(r) + rest) == Ok(r)
  {
    var len, id, tag, body := Le(Length(r), 2), Le(r.id, 8), [Tag(r)], Body(r);
    var data := Encoded(r) + rest;
    HeaderCut(len, id, tag, body, rest);
    Widths();
    FromLeOfLe(Length(r), 2);
    FromLeOfLe(r.id, 8);
    BodyReadsBack(r);
  }

  lemma {:induction false} HeaderCut(len: ByteString, id: ByteString, tag: ByteString, body: ByteString, rest: ByteString)
    requires |len| == 2 && |id| == 8 && |tag| == 1
    ensures var data := len + id + tag + body + rest;
            && data[..2] == len && data[2..10] == id && data[10] == tag[0] && data[11..11 + |body|] == body
            && |data| >= 11 + |body|
  {
  }

  lemma {:induction false} BodyReadsBack(r: Record)
    requires Proper(r)
    ensures ReadBody(Tag(r), r.id, Body(r)) == Ok(r)
  {
    match r
    case Put(id, key, value) =>
      assert Text(key) + Text(value) == [] + Text(key) + Text(value);
      assert Text(key) + Text(value) == Text(key) + Text(value) + [];
      TextReadsBack([], key, Text(value));
      TextReadsBack(Text(key), value, []);
    case Delete(id, key) =>
      assert Text(key) == [] + Text(key) + [];
      TextReadsBack([], key, []);
    case _ =>
  }

  // What is accepted is exactly a record's byte form.
  lemma {:induction false} AcceptedIsEncoded(data: ByteString)
    requires ReadRecord(data).Ok?
    ensures var r := ReadRecord(data).value;
            Proper(r) && Length(r) <= |data| && data[..Length(r)] == Encoded(r)
  {
    var len := FromLe(data[..2]);
    LeOfFromLe(data[..2]);
    LeOfFromLe(data[2..10]);
    Widths();
    BodyAccepted(data[10], ReadId(data, 2), data[HEADER_SIZE..len]);
    assert data[..len] == data[..2] + data[2..10] + [data[10]] + data[HEADER_SIZE..len];
  }

  lemma {:induction false} BodyAccepted(tag: byte, id: u64, body: ByteString)
    requires ReadBody(tag, id, body).Ok?
    ensures var r := ReadBody(tag, id, body).value; r.id == id && Tag(r) == tag && Body(r) == body
  {
    if tag == 3 {
      TextIsThere(body, 0);
      var key := TextAt(body, 0).value;
      TextIsThere(body, 2 + |key|);
      var m := 2 + |key|;
      assert body[0..m] + body[m..|body|] == body;
    } else if tag == 4 {
      TextIsThere(body, 0);
      assert body == body[0..|body|];
    }
  }

  // ---- Decoding ----

  lemma {:induction false} EncodedAppend(a: seq<Record>, b: seq<Record>)
    ensures EncodedAll(a + b) == EncodedAll(a) + EncodedAll(b)
  {
    if a == [] {
      assert a + b == b;
    } else {
      assert (a + b)[1..] == a[1..] + b;
      EncodedAppend(a[1..], b);
    }
  }

  lemma {:induction false} EncodedOne(r: Record)
    ensures EncodedAll([r]) == Encoded(r)
  {
    assert [r][1..] == [];
  }

  // Accepts exactly the concatenations of proper records, and gives the records back.
  method Decode(data: ByteString) returns (r: Result<seq<Record>>)
    ensures r.Ok? ==> AllProper(r.value) && EncodedAll(r.value) == data
    ensures forall rs :: AllProper(rs) && EncodedAll(rs) == data ==> r == Ok(rs)
  {
    var records: seq<Record> := [];
    var pos := 0;
    while pos < |data|
      invariant 0 <= pos <= |data| && AllProper(records) && EncodedAll(records) == data[..pos]
      invariant forall rs :: AllProper(rs) && EncodedAll(rs) == data ==> Leads(records, rs)
    {
      forall rs | AllProper(rs) && EncodedAll(rs) == data
        ensures ReadRecord(data[pos..]).Ok? && Leads(records + [ReadRecord(data[pos..]).value], rs)
      {
        NextOf(data, records, rs, pos);
      }
      match ReadRecord(data[pos..])
      case Err(e) =>
        return Err(e);
      case Ok(record) =>
        AcceptedIsEncoded(data[pos..]);
        TakeRecord(data, records, record, pos);
        records := records + [record];
        pos := pos + Length(record);
    }
    assert data[..pos] == data;
    forall rs | AllProper(rs) && EncodedAll(rs) == data
      ensures rs == records
    {
      SameEncoding(records, rs);
    }
    return Ok(records);
  }

  predicate Leads(front: seq<Record>, all: seq<Record>)
  {
    front <= all
  }

  lemma {:induction false} TakeRecord(data: ByteString, records: seq<Record>, r: Record, pos: nat)
    requires pos <= |data| && EncodedAll(records) == data[..pos]
    requires Length(r) <= |data[pos..]| && data[pos..][..Length(r)] == Encoded(r)
    ensures pos + Length(r) <= |data| && EncodedAll(records + [r]) == data[..pos + Length(r)]
  {
    EncodedAppend(records, [r]);
    EncodedOne(r);
    assert data[..pos + Length(r)] == data[..pos] + data[pos..][..Length(r)];
  }

  lemma {:induction false} NextOf(data: ByteString, records: seq<Record>, rs: seq<Record>, pos: nat)
    requires pos < |data| && AllProper(rs) && EncodedAll(rs) == data && Leads(records, rs) && EncodedAll(records) == data[..pos]
    ensures ReadRecord(data[pos..]).Ok? && Leads(records + [ReadRecord(data[pos..]).value], rs)
  {
    var n := |records|;
    assert rs == records + rs[n..];
    EncodedAppend(records, rs[n..]);
    assert data[pos..] == EncodedAll(rs[n..]);
    assert rs[n..] != [];
    ReadsBack(rs[n], EncodedAll(rs[n..][1..]));
    assert records + [rs[n]] == rs[..n + 1];
  }

  lemma {:induction false} EncodedEmpty(rs: seq<Record>)
    ensures EncodedAll(rs) == [] <==> rs == []
  {
    if rs != [] {
      assert |Encoded(rs[0])| >= HEADER_SIZE;
    }
  }

  lemma {:induction false} SameEncoding(front: seq<Record>, rs: seq<Record>)
    requires Leads(front, rs) && EncodedAll(front) == EncodedAll(rs)
    ensures front == rs
  {
    var n := |front|;
    assert rs == front + rs[n..];
    EncodedAppend(front, rs[n..]);
    assert |EncodedAll(rs[n..])| == 0;
    EncodedEmpty(rs[n..]);
  }

  // A torn tail is never read as a record: what remains of a log after a cut is accepted
  // only where a record ends, and then gives the records before the cut.
  lemma {:induction false} PrefixAtBoundary(rs: seq<Record>, cut: seq<Record>)
    requires AllProper(rs) && AllProper(cut) && EncodedAll(cut) <= EncodedAll(rs)
    ensures cut <= rs
  {
    if cut != [] {
      EncodedEmpty(cut);
      EncodedEmpty(rs);
      var whole, front := EncodedAll(rs), EncodedAll(cut);
      var tail := whole[|front|..];
      assert whole == front + tail;
      ThreeTexts(Encoded(cut[0]), EncodedAll(cut[1..]), tail);
      HeadSame(whole, rs[0], cut[0], EncodedAll(rs[1..]), EncodedAll(cut[1..]) + tail);
      PrefixAtBoundary(rs[1..], cut[1..]);
      assert cut == [cut[0]] + cut[1..] && rs == [rs[0]] + rs[1..];
    }
  }

  lemma {:induction false} HeadSame(whole: ByteString, r: Record, c: Record, a: ByteString, b: ByteString)
    requires Proper(r) && Proper(c) && whole == Encoded(r) + a && whole == Encoded(c) + b
    ensures r == c && a == b
  {
    ReadsBack(r, a);
    ReadsBack(c, b);
    SameTail(Encoded(r), a, b);
  }

  lemma {:induction false} SameTail(front: ByteString, a: ByteString, b: ByteString)
    requires front + a == front + b
    ensures a == b
  {
    assert a == (front + a)[|front|..] && b == (front + b)[|front|..];
  }
}
