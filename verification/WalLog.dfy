// The write-ahead log: buffer, files by number, rotation, cleaning and the failure latch.

module WalLogs {
  import opened Bytes
  import opened Mvcc
  import opened WalRecords

  const MAX_SEQ := 0xFFFF_FFFF_FFFF_FFFF

  // What the file system does to one write of the log.
  datatype Io =
    | Fine
    | CannotMeasure
    | CannotCreate
    | AppendFails(written: nat)
    | SyncFails

  // Every record is of a transaction the checkpoint covers.
  predicate Covered(rs: seq<Record>, checkpoint: nat)
  {
    forall i :: 0 <= i < |rs| ==> rs[i].id <= checkpoint
  }

  // The records the checkpoint does not cover.
  function {:tailrecursion false} Above(rs: seq<Record>, checkpoint: nat): seq<Record>
  {
    if rs == [] then [] else (if rs[0].id > checkpoint then [rs[0]] else []) + Above(rs[1..], checkpoint)
  }

  lemma {:induction false} AboveAppend(a: seq<Record>, b: seq<Record>, checkpoint: nat)
    ensures Above(a + b, checkpoint) == Above(a, checkpoint) + Above(b, checkpoint)
  {
    if a == [] {
      assert a + b == b;
    } else {
      assert (a + b)[1..] == a[1..] + b;
      AboveAppend(a[1..], b, checkpoint);
    }
  }

  lemma {:induction false} AboveCovered(rs: seq<Record>, checkpoint: nat)
    requires Covered(rs, checkpoint)
    ensures Above(rs, checkpoint) == []
  {
    if rs != [] {
      AboveCovered(rs[1..], checkpoint);
    }
  }

  // The records of the files still there, files in order of their numbers.
  function {:tailrecursion false} Kept(files: map<nat, ByteString>, first: nat, recs: seq<seq<Record>>): seq<Record>
    decreases |recs|
  {
    if recs == [] then [] else (if first in files then recs[0] else []) + Kept(files, first + 1, recs[1..])
  }

  // The bytes of those files.
  function {:tailrecursion false} KeptBytes(files: map<nat, ByteString>, first: nat, n: nat): ByteString
    decreases n
  {
    if n == 0 then [] else (if first in files then files[first] else []) + KeptBytes(files, first + 1, n - 1)
  }

  // Whole files may be missing, but only files the checkpoint covers.
  ghost predicate OnlyCoveredGone(files: map<nat, ByteString>, first: nat, recs: seq<seq<Record>>, checkpoint: nat)
  {
    forall i :: 0 <= i < |recs| ==> first + i in files || Covered(recs[i], checkpoint)
  }

  lemma {:induction false} KeptAbove(files: map<nat, ByteString>, first: nat, recs: seq<seq<Record>>, checkpoint: nat)
    requires OnlyCoveredGone(files, first, recs, checkpoint)
    ensures Above(Kept(files, first, recs), checkpoint) == Above(Flat(recs), checkpoint)
    decreases |recs|
  {
    if recs != [] {
      forall i | 0 <= i < |recs[1..]|
        ensures first + 1 + i in files || Covered(recs[1..][i], checkpoint)
      {
        assert recs[1..][i] == recs[i + 1];
      }
      KeptAbove(files, first + 1, recs[1..], checkpoint);
      AboveAppend(recs[0], Flat(recs[1..]), checkpoint);
      var here := if first in files then recs[0] else [];
      AboveAppend(here, Kept(files, first + 1, recs[1..]), checkpoint);
      if first !in files {
        AboveCovered(recs[0], checkpoint);
      }
    }
  }

  // A file that is there holds what was logged into it.
  ghost predicate Holds(files: map<nat, ByteString>, s: nat, rs: seq<Record>)
  {
    s in files ==> files[s] == EncodedAll(rs)
  }

  ghost predicate HoldAll(files: map<nat, ByteString>, first: nat, recs: seq<seq<Record>>)
  {
    forall i :: 0 <= i < |recs| ==> Holds(files, first + i, recs[i])
  }

  lemma {:induction false} KeptEncoded(files: map<nat, ByteString>, first: nat, recs: seq<seq<Record>>)
    requires HoldAll(files, first, recs)
    ensures KeptBytes(files, first, |recs|) == EncodedAll(Kept(files, first, recs))
    decreases |recs|
  {
    if recs != [] {
      forall i | 0 <= i < |recs[1..]|
        ensures Holds(files, first + 1 + i, recs[1..][i])
      {
        assert Holds(files, first + (i + 1), recs[i + 1]);
      }
      KeptEncoded(files, first + 1, recs[1..]);
      var here := if first in files then recs[0] else [];
      EncodedAppend(here, Kept(files, first + 1, recs[1..]));
      assert Holds(files, first + 0, recs[0]);
    }
  }

  method EncodeAll(rs: seq<Record>) returns (data: ByteString)
    ensures data == EncodedAll(rs)
  {
    data := [];
    var i := 0;
    assert EncodedAll(rs[..0]) == [];
    while i < |rs|
      invariant 0 <= i <= |rs| && data == EncodedAll(rs[..i])
    {
      var bytes := Encode(rs[i]);
      OneMoreEncoded(rs, i);
      data := data + bytes;
      i := i + 1;
    }
    assert rs[..i] == rs;
  }

  lemma {:induction false} OneMoreEncoded(rs: seq<Record>, i: nat)
    requires i < |rs|
    ensures EncodedAll(rs[..i + 1]) == EncodedAll(rs[..i]) + Encoded(rs[i])
  {
    var front, one := rs[..i], [rs[i]];
    assert front + one == rs[..i + 1];
    EncodedAppend(front, one);
    EncodedOne(rs[i]);
  }

  // File s is as it was logged; a failed write may have left more behind the last one.
  ghost predicate Intact(files: map<nat, ByteString>, s: nat, rs: seq<Record>, last: bool, failed: bool, peak: nat)
  {
    if s in files then if failed && last then EncodedAll(rs) <= files[s] else Holds(files, s, rs)
    else !last && Covered(rs, peak)
  }

  ghost predicate AllIntact(files: map<nat, ByteString>, first: nat, recs: seq<seq<Record>>, failed: bool, peak: nat)
  {
    forall i :: 0 <= i < |recs| ==> Intact(files, first + i, recs[i], i == |recs| - 1, failed, peak)
  }

  ghost predicate EachProper(recs: seq<seq<Record>>)
  {
    forall i :: 0 <= i < |recs| ==> AllProper(recs[i])
  }

  lemma {:induction false} IntactAt(files: map<nat, ByteString>, first: nat, recs: seq<seq<Record>>,
                                    failed: bool, peak: nat, i: nat)
    requires AllIntact(files, first, recs, failed, peak) && i < |recs|
    ensures Intact(files, first + i, recs[i], i == |recs| - 1, failed, peak)
  {
  }

  lemma {:induction false} IntactHold(files: map<nat, ByteString>, first: nat, recs: seq<seq<Record>>, peak: nat)
    requires AllIntact(files, first, recs, false, peak)
    ensures HoldAll(files, first, recs)
  {
    forall i | 0 <= i < |recs|
      ensures Holds(files, first + i, recs[i])
    {
      IntactAt(files, first, recs, false, peak, i);
    }
  }

  // What is missing is covered.
  lemma {:induction false} IntactCovered(files: map<nat, ByteString>, first: nat, recs: seq<seq<Record>>, failed: bool, peak: nat)
    requires AllIntact(files, first, recs, failed, peak)
    ensures OnlyCoveredGone(files, first, recs, peak)
  {
    forall i | 0 <= i < |recs|
      ensures first + i in files || Covered(recs[i], peak)
    {
      IntactAt(files, first, recs, failed, peak, i);
    }
  }

  // A higher checkpoint covers what a lower one covers.
  lemma {:induction false} IntactHigher(files: map<nat, ByteString>, first: nat, recs: seq<seq<Record>>,
                                        failed: bool, peak: nat, peak': nat)
    requires AllIntact(files, first, recs, failed, peak) && peak <= peak'
    ensures AllIntact(files, first, recs, failed, peak')
  {
    forall i | 0 <= i < |recs|
      ensures Intact(files, first + i, recs[i], i == |recs| - 1, failed, peak')
    {
      IntactAt(files, first, recs, failed, peak, i);
    }
  }

  // A write that failed: bytes of unknown extent behind the last whole record.
  lemma {:induction false} IntactTorn(files: map<nat, ByteString>, first: nat, recs: seq<seq<Record>>, peak: nat,
                                      active: nat, bytes: ByteString)
    requires AllIntact(files, first, recs, false, peak) && active == first + |recs| - 1 && active in files
    ensures AllIntact(files[active := files[active] + bytes], first, recs, true, peak)
  {
    var files' := files[active := files[active] + bytes];
    forall i | 0 <= i < |recs|
      ensures Intact(files', first + i, recs[i], i == |recs| - 1, true, peak)
    {
      IntactAt(files, first, recs, false, peak, i);
    }
  }

  lemma {:induction false} IntactLatched(files: map<nat, ByteString>, first: nat, recs: seq<seq<Record>>, peak: nat)
    requires AllIntact(files, first, recs, false, peak)
    ensures AllIntact(files, first, recs, true, peak)
  {
    forall i | 0 <= i < |recs|
      ensures Intact(files, first + i, recs[i], i == |recs| - 1, true, peak)
    {
      IntactAt(files, first, recs, false, peak, i);
    }
  }

  // More records behind those of the last file, in bytes and in the books.
  lemma {:induction false} IntactAppended(files: map<nat, ByteString>, first: nat, recs: seq<seq<Record>>, peak: nat,
                                          more: seq<Record>)
    requires AllIntact(files, first, recs, false, peak) && recs != [] && first + |recs| - 1 in files
    ensures var active, last := first + |recs| - 1, |recs| - 1;
            AllIntact(files[active := files[active] + EncodedAll(more)], first, recs[last := recs[last] + more], false, peak)
  {
    var active, last := first + |recs| - 1, |recs| - 1;
    var recs' := recs[last := recs[last] + more];
    var files' := files[active := files[active] + EncodedAll(more)];
    EncodedAppend(recs[last], more);
    forall i | 0 <= i < |recs'|
      ensures Intact(files', first + i, recs'[i], i == |recs'| - 1, false, peak)
    {
      IntactAt(files, first, recs, false, peak, i);
    }
  }

  // A new empty file behind the last one.
  lemma {:induction false} IntactRolled(files: map<nat, ByteString>, first: nat, recs: seq<seq<Record>>, peak: nat)
    requires AllIntact(files, first, recs, false, peak) && recs != [] && first + |recs| - 1 in files
    ensures AllIntact(files[first + |recs| := []], first, recs + [[]], false, peak)
  {
    var files', recs' := files[first + |recs| := []], recs + [[]];
    forall i | 0 <= i < |recs'|
      ensures Intact(files', first + i, recs'[i], i == |recs'| - 1, false, peak)
    {
      if i < |recs| {
        IntactAt(files, first, recs, false, peak, i);
      }
    }
  }

  lemma {:induction false} ProperAppended(recs: seq<seq<Record>>, last: nat, more: seq<Record>)
    requires EachProper(recs) && last < |recs| && AllProper(more)
    ensures EachProper(recs[last := recs[last] + more])
  {
  }

  // What an older file of this log decodes to is what was logged into it.
  lemma {:induction false} HeldRecords(files: map<nat, ByteString>, first: nat, recs: seq<seq<Record>>,
                                       failed: bool, peak: nat, i: nat, rs: seq<Record>)
    requires AllIntact(files, first, recs, failed, peak) && EachProper(recs) && i < |recs| - 1
    requires first + i in files && AllProper(rs) && EncodedAll(rs) == files[first + i]
    ensures recs[i] == rs
  {
    IntactAt(files, first, recs, failed, peak, i);
    SameRecords(rs, recs[i]);
  }

  // Without an older file whose records are all covered.
  lemma {:induction false} IntactDropped(files: map<nat, ByteString>, first: nat, recs: seq<seq<Record>>,
                                         failed: bool, peak: nat, gone: nat)
    requires AllIntact(files, first, recs, failed, peak) && gone < first + |recs| - 1
    requires gone >= first ==> Covered(recs[gone - first], peak)
    ensures AllIntact(files - {gone}, first, recs, failed, peak)
  {
    forall i | 0 <= i < |recs|
      ensures Intact(files - {gone}, first + i, recs[i], i == |recs| - 1, failed, peak)
    {
      IntactAt(files, first, recs, failed, peak, i);
    }
  }

  class WAL {
    const bufferSize: nat
    const fileSizeLimit: nat
    // The log files of the directory, by the number in their name.
    var files: map<nat, ByteString>
    var active: nat
    var buffer: seq<Record>
    var checkpoint: nat
    var failed: bool

    // The number of the first file of this log, what was logged into each file from it
    // on, and the highest checkpoint so far.
    ghost var first: nat
    ghost var recs: seq<seq<Record>>
    ghost var peak: nat

    ghost predicate Valid()
      reads this
    {
      && recs != [] && active == first + |recs| - 1 <= MAX_SEQ && active in files
      && (forall s :: s in files ==> s <= active)
      && AllIntact(files, first, recs, failed, peak) && AllProper(buffer) && EachProper(recs)
      && checkpoint <= peak
    }

    // Everything ever accepted, in order.
    ghost function History(): seq<Record>
      reads this
    {
      Flat(recs) + buffer
    }

    // The new log starts a file of its own behind whatever is in the directory.
    constructor (found: map<nat, ByteString>, bufferSize: nat, checkpoint: nat, fileSizeLimit: nat, next: nat)
      requires (forall s :: s in found ==> s < next) && (found == map[] ==> next == 0)
      requires (found != map[] ==> exists s :: s in found && next == s + 1) && next <= MAX_SEQ
      ensures Valid() && History() == [] && !failed && files == found[next := []]
    {
      this.bufferSize, this.checkpoint, this.fileSizeLimit := bufferSize, checkpoint, fileSizeLimit;
      files, active, buffer, failed := found[next := []], next, [], false;
      first, recs, peak := next, [[]], checkpoint;
    }

    method SetCheckpoint(c: nat)
      requires Valid()
      modifies this`checkpoint, this`peak
      ensures Valid() && checkpoint == c && History() == old(History()) && files == old(files) && failed == old(failed)
      ensures peak == if c > old(peak) then c else old(peak)
    {
      checkpoint := c;
      peak := if c > peak then c else peak;
      IntactHigher(files, first, recs, failed, old(peak), peak);
    }

    // Appends to the buffer and, when forced or when it is full, to the active file.  A
    // failed write leaves the buffer and latches: from then on nothing more is appended.
    method Log(records: seq<Record>, force: bool, io: Io) returns (r: Result<()>)
      requires Valid() && AllProper(records)
      modifies this
      ensures Valid() && peak == old(peak) && checkpoint == old(checkpoint) && active >= old(active)
      ensures old(failed) ==> r.Err? && failed && files == old(files) && History() == old(History())
      ensures !old(failed) ==> History() == old(History()) + records && (failed <==> r.Err?)
      ensures r.Ok? && force ==> buffer == [] && Flat(recs) == old(History()) + records
      ensures r.Err? ==> r.error == WalFailed
      ensures io.Fine? && !old(failed) && old(active) < MAX_SEQ ==> r.Ok?
    {
      if failed {
        return Err(WalFailed);
      }
      Keep(records);
      if buffer == [] || (!force && |buffer| < bufferSize) {
        assert buffer == [] ==> Flat(recs) + [] == Flat(recs);
        return Ok(());
      }
      r := WriteBuffer(io);
    }

    method Keep(records: seq<Record>)
      requires Valid() && AllProper(records)
      modifies this`buffer
      ensures Valid() && buffer == old(buffer) + records && History() == old(History()) + records
    {
      buffer := buffer + records;
      assert Flat(recs) + buffer == old(History()) + records;
    }

    method WriteBuffer(io: Io) returns (r: Result<()>)
      requires Valid() && !failed
      modifies this
      ensures Valid() && peak == old(peak) && checkpoint == old(checkpoint) && active >= old(active)
      ensures History() == old(History()) && (failed <==> r.Err?)
      ensures r.Ok? ==> buffer == [] && Flat(recs) == old(History())
      ensures r.Err? ==> r.error == WalFailed
      ensures io.Fine? && old(active) < MAX_SEQ ==> r.Ok?
    {
      var encoded := EncodeAll(buffer);
      if fileSizeLimit != 0 {
        if io.CannotMeasure? {
          Latch();
          return Err(WalFailed);
        }
        if |files[active]| >= fileSizeLimit {
          var moved := ResetFile(io);
          if !moved {
            Latch();
            return Err(WalFailed);
          }
        }
      }
      if io.AppendFails? {
        var n := if io.written <= |encoded| then io.written else |encoded|;
        AppendBroken(encoded[..n]);
        return Err(WalFailed);
      }
      if io.SyncFails? {
        AppendBroken(encoded);
        return Err(WalFailed);
      }
      AppendBuffer(encoded);
      return Ok(());
    }

    method Latch()
      requires Valid() && !failed
      modifies this`failed
      ensures Valid() && failed
    {
      IntactLatched(files, first, recs, peak);
      failed := true;
    }

    // Bytes of unknown extent behind the last whole record.
    method AppendBroken(bytes: ByteString)
      requires Valid() && !failed
      modifies this`files, this`failed
      ensures Valid() && failed
    {
      files := files[active := files[active] + bytes];
      failed := true;
      IntactTorn(old(files), first, recs, peak, active, bytes);
    }

    // The whole buffer behind the active file, and the buffer empty.
    method AppendBuffer(encoded: ByteString)
      requires Valid() && !failed && encoded == EncodedAll(buffer)
      modifies this`files, this`buffer, this`recs
      ensures Valid() && buffer == [] && History() == old(History()) && Flat(recs) == old(History())
    {
      ghost var last := |recs| - 1;
      IntactAppended(files, first, recs, peak, buffer);
      ProperAppended(recs, last, buffer);
      FlatLast(recs, buffer);
      files := files[active := files[active] + encoded];
      recs := recs[last := recs[last] + buffer];
      buffer := [];
      assert Flat(recs) + [] == Flat(recs);
    }

    // Goes on in a new file of the next number; an existing one is never overwritten.
    method ResetFile(io: Io) returns (ok: bool)
      requires Valid() && !failed
      modifies this`files, this`active, this`recs
      ensures Valid() && History() == old(History())
      ensures if ok then active == old(active) + 1 && files == old(files)[active := []]
              else active == old(active) && files == old(files) && recs == old(recs)
      ensures io.Fine? && old(active) < MAX_SEQ ==> ok
      ensures io.AppendFails? || io.SyncFails? ==> (ok <==> old(active) < MAX_SEQ)
    {
      if active == MAX_SEQ {
        return false;
      }
      if active + 1 in files {
        return false;
      }
      if io.CannotCreate? {
        return false;
      }
      FlatAppend(recs, [[]]);
      FlatOne<Record>([]);
      assert Flat(recs) + [] == Flat(recs);
      IntactRolled(files, first, recs, peak);
      files := files[active + 1 := []];
      active := active + 1;
      recs := recs + [[]];
      return true;
    }

    // Removes older files in which every record is covered.  A file that cannot be read,
    // decoded or removed stays.
    method CleanWALFile()
      requires Valid()
      modifies this`files
      ensures Valid() && History() == old(History())
      ensures forall s :: s in files ==> s in old(files) && files[s] == old(files)[s]
      ensures forall s :: s in old(files) && s !in files ==>
                s < active && exists rs :: AllProper(rs) && EncodedAll(rs) == old(files)[s] && Covered(rs, checkpoint)
    {
      var todo := files.Keys;
      while todo != {}
        invariant todo <= files.Keys && Valid()
        invariant forall s :: s in files ==> s in old(files) && files[s] == old(files)[s]
        invariant forall s :: s in old(files) && s !in files ==>
                    s < active && exists rs :: AllProper(rs) && EncodedAll(rs) == old(files)[s] && Covered(rs, checkpoint)
        decreases |todo|
      {
        var s :| s in todo;
        todo := todo - {s};
        var trouble: bool := *;
        if s < active && !trouble {
          CleanOne(s);
        }
      }
    }

    method CleanOne(s: nat)
      requires Valid() && s in files && s < active
      modifies this`files
      ensures Valid() && (files == old(files) || files == old(files) - {s})
      ensures s !in files ==> exists rs :: AllProper(rs) && EncodedAll(rs) == old(files)[s] && Covered(rs, checkpoint)
    {
      var decoded := Decode(files[s]);
      if decoded.Err? {
        return;
      }
      var canDelete := AllCovered(decoded.value, checkpoint);
      if canDelete {
        Drop(s, decoded.value);
      }
    }

    method Drop(s: nat, ghost rs: seq<Record>)
      requires Valid() && s in files && s < active && AllProper(rs) && EncodedAll(rs) == files[s] && Covered(rs, checkpoint)
      modifies this`files
      ensures Valid() && files == old(files) - {s}
    {
      if first <= s {
        HeldRecords(files, first, recs, failed, peak, s - first, rs);
      }
      IntactDropped(files, first, recs, failed, peak, s);
      files := files - {s};
    }

    // The records of the surviving files, and the buffer.
    ghost function Surviving(): seq<Record>
      reads this
    {
      Kept(files, first, recs) + buffer
    }

    // Every record above the highest checkpoint survives, once and in order.
    lemma {:induction false} NothingAboveLost()
      requires Valid()
      ensures Above(Surviving(), peak) == Above(History(), peak)
    {
      IntactCovered(files, first, recs, failed, peak);
      KeptAbove(files, first, recs, peak);
      AboveAppend(Flat(recs), buffer, peak);
      AboveAppend(Kept(files, first, recs), buffer, peak);
    }

    // Without a failure the surviving files, read in order, are those records byte for byte.
    lemma {:induction false} FilesHoldRecords()
      requires Valid() && !failed
      ensures KeptBytes(files, first, |recs|) == EncodedAll(Kept(files, first, recs))
    {
      IntactHold(files, first, recs, peak);
      KeptEncoded(files, first, recs);
    }
  }

  method AllCovered(rs: seq<Record>, checkpoint: nat) returns (r: bool)
    ensures r <==> Covered(rs, checkpoint)
  {
    var i := 0;
    while i < |rs|
      invariant 0 <= i <= |rs| && Covered(rs[..i], checkpoint)
    {
      if rs[i].id > checkpoint {
        return false;
      }
      i := i + 1;
    }
    assert rs[..i] == rs;
    return true;
  }

  // The byte form tells the records.
  lemma {:induction false} SameRecords(a: seq<Record>, b: seq<Record>)
    requires AllProper(a) && AllProper(b) && EncodedAll(a) == EncodedAll(b)
    ensures a == b
  {
    PrefixAtBoundary(a, b);
    PrefixAtBoundary(b, a);
  }

  lemma {:induction false} FlatLast(parts: seq<seq<Record>>, more: seq<Record>)
    requires parts != []
    ensures var last := |parts| - 1; Flat(parts[last := parts[last] + more]) == Flat(parts) + more
  {
    var last := |parts| - 1;
    var front := parts[..last];
    assert parts == front + [parts[last]];
    assert parts[last := parts[last] + more] == front + [parts[last] + more];
    FlatAppend(front, [parts[last]]);
    FlatAppend(front, [parts[last] + more]);
    FlatOne(parts[last]);
    FlatOne(parts[last] + more);
    assert Flat(front) + parts[last] + more == Flat(front) + (parts[last] + more);
  }
}
