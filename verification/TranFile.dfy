// The file that keeps the transaction manager's state.

module TranFiles {
  import opened Bytes

  datatype TransactionState = OpCommitted | Aborted

  datatype Ended = Ended(id: nat, state: TransactionState)

  // What the file holds; the rolled-back ids in whatever order the set gave them.
  datatype Saved = Saved(nextId: nat, flushed: seq<nat>, ready: seq<Ended>, aborted: seq<nat>)

  ghost predicate Ascending(s: seq<nat>)
  {
    forall i, j :: 0 <= i < j < |s| ==> s[i] < s[j]
  }

  ghost predicate IdsRise(ready: seq<Ended>)
  {
    forall i, j :: 0 <= i < j < |ready| ==> ready[i].id < ready[j].id
  }

  ghost predicate NoDuplicates(s: seq<nat>)
  {
    forall i, j :: 0 <= i < j < |s| ==> s[i] != s[j]
  }

  predicate AllWords(s: seq<nat>)
  {
    forall i :: 0 <= i < |s| ==> s[i] < 0x1_0000_0000_0000_0000
  }

  // ---- Sequences of 64-bit words ----

  function WordsBytes(ws: seq<nat>): (s: ByteString)
    ensures |s| == 8 * |ws|
  {
    if ws == [] then [] else WordsBytes(ws[..|ws| - 1]) + Le(ws[|ws| - 1], 8)
  }

  function WordAt(s: ByteString, k: nat): (w: nat)
    requires 8 * k + 8 <= |s|
  {
    FromLe(s[8 * k..8 * k + 8])
  }

  lemma {:induction false} WordReadsBack(ws: seq<nat>, k: nat)
    requires AllWords(ws) && k < |ws|
    ensures WordAt(WordsBytes(ws), k) == ws[k]
  {
    var front, last := ws[..|ws| - 1], ws[|ws| - 1];
    if k == |ws| - 1 {
      Widths();
      FromLeOfLe(last, 8);
      LastWord(WordsBytes(front), Le(last, 8));
    } else {
      WordReadsBack(front, k);
      EarlierWord(WordsBytes(front), Le(last, 8), 8 * k);
    }
  }

  lemma {:induction false} LastWord(front: ByteString, last: ByteString)
    requires |last| == 8
    ensures (front + last)[|front|..|front| + 8] == last
  {
  }

  lemma {:induction false} EarlierWord(front: ByteString, last: ByteString, p: nat)
    requires p + 8 <= |front|
    ensures (front + last)[p..p + 8] == front[p..p + 8]
  {
  }

  // Every byte string of whole words is the words it reads as.
  lemma {:induction false} BytesAreWords(s: ByteString, ws: seq<nat>)
    requires |s| == 8 * |ws| && forall k :: 0 <= k < |ws| ==> WordAt(s, k) == ws[k]
    ensures s == WordsBytes(ws) && AllWords(ws)
  {
    if ws != [] {
      var n := |ws| - 1;
      var front := s[..8 * n];
      forall k | 0 <= k < n
        ensures WordAt(front, k) == ws[..n][k]
      {
        assert front[8 * k..8 * k + 8] == s[8 * k..8 * k + 8];
      }
      BytesAreWords(front, ws[..n]);
      LeOfFromLe(s[8 * n..8 * n + 8]);
      Widths();
      assert WordAt(s, n) == ws[n];
      assert s == front + s[8 * n..8 * n + 8];
      forall i | 0 <= i < |ws|
        ensures ws[i] < 0x1_0000_0000_0000_0000
      {
        assert i < n ==> ws[..n][i] == ws[i];
      }
    }
  }

  // ---- The layout ----

  function Code(state: TransactionState): nat
  {
    if state == Aborted then 1 else 0
  }

  function Pairs(ready: seq<Ended>): (ws: seq<nat>)
    ensures |ws| == 2 * |ready|
  {
    if ready == [] then [] else Pairs(ready[..|ready| - 1]) + [ready[|ready| - 1].id, Code(ready[|ready| - 1].state)]
  }

  lemma {:induction false} PairAt(ready: seq<Ended>, i: nat)
    requires i < |ready|
    ensures Pairs(ready)[2 * i] == ready[i].id && Pairs(ready)[2 * i + 1] == Code(ready[i].state)
  {
    if i < |ready| - 1 {
      PairAt(ready[..|ready| - 1], i);
    }
  }

  // next id | three counts | settled ids | endings | rolled-back ids
  function Words(s: Saved): seq<nat>
  {
    [s.nextId, |s.flushed|, |s.ready|, |s.aborted|] + s.flushed + Pairs(s.ready) + s.aborted
  }

  ghost predicate Sound(s: Saved)
  {
    && s.nextId > 0 && s.flushed != [] && Ascending(s.flushed) && IdsRise(s.ready) && NoDuplicates(s.aborted)
    && AllWords(Words(s))
  }

  lemma {:induction false} WordIs(s: Saved)
    ensures var w, f, r := Words(s), |s.flushed|, |s.ready|;
            && |w| == 4 + f + 2 * r + |s.aborted|
            && w[0] == s.nextId && w[1] == f && w[2] == r && w[3] == |s.aborted|
            && (forall i :: 0 <= i < f ==> w[4 + i] == s.flushed[i])
            && (forall i :: 0 <= i < |s.aborted| ==> w[4 + f + 2 * r + i] == s.aborted[i])
  {
  }

  lemma {:induction false} ReadyWords(s: Saved, i: nat)
    requires i < |s.ready|
    ensures var w, p := Words(s), 4 + |s.flushed| + 2 * i; |w| > p + 1 && w[p] == s.ready[i].id && w[p + 1] == Code(s.ready[i].state)
  {
    PairAt(s.ready, i);
    var head := [s.nextId, |s.flushed|, |s.ready|, |s.aborted|] + s.flushed;
    var w, p := Words(s), 4 + |s.flushed| + 2 * i;
    assert w == head + Pairs(s.ready) + s.aborted;
    assert w[p] == Pairs(s.ready)[2 * i] && w[p + 1] == Pairs(s.ready)[2 * i + 1];
  }

  // ---- Writing ----

  method AppendWord(buf: ByteString, w: nat, ghost ws: seq<nat>) returns (out: ByteString)
    requires buf == WordsBytes(ws) && w < 0x1_0000_0000_0000_0000
    ensures out == WordsBytes(ws + [w])
  {
    out := buf;
    var value, shift := w, 0;
    while shift < 8
      invariant 0 <= shift <= 8 && |out| == |buf| + shift && out + Le(value, 8 - shift) == buf + Le(w, 8)
    {
      LeStep(value, 8 - shift);
      assert out + ([value % 256] + Le(value / 256, 7 - shift)) == out + [value % 256] + Le(value / 256, 7 - shift);
      out := out + [value % 256];
      value := value / 256;
      shift := shift + 1;
    }
    assert (ws + [w])[..|ws|] == ws;
    assert out + [] == out;
  }

  lemma {:induction false} LeStep(value: nat, width: nat)
    requires width > 0
    ensures Le(value, width) == [value % 256] + Le(value / 256, width - 1)
  {
  }

  method AppendWords(buf: ByteString, more: seq<nat>, ghost ws: seq<nat>) returns (out: ByteString)
    requires buf == WordsBytes(ws) && AllWords(more)
    ensures out == WordsBytes(ws + more)
  {
    out := buf;
    var i := 0;
    assert ws + more[..0] == ws;
    while i < |more|
      invariant 0 <= i <= |more| && out == WordsBytes(ws + more[..i])
    {
      out := AppendWord(out, more[i], ws + more[..i]);
      assert ws + more[..i] + [more[i]] == ws + more[..i + 1];
      i := i + 1;
    }
    assert more[..i] == more;
  }

  method AppendReady(buf: ByteString, ready: seq<Ended>, ghost ws: seq<nat>) returns (out: ByteString)
    requires buf == WordsBytes(ws) && forall i :: 0 <= i < |ready| ==> ready[i].id < 0x1_0000_0000_0000_0000
    ensures out == WordsBytes(ws + Pairs(ready))
  {
    out := buf;
    var i := 0;
    assert ws + Pairs(ready[..0]) == ws;
    while i < |ready|
      invariant 0 <= i <= |ready| && out == WordsBytes(ws + Pairs(ready[..i]))
    {
      out := AppendWord(out, ready[i].id, ws + Pairs(ready[..i]));
      out := AppendWord(out, Code(ready[i].state), ws + Pairs(ready[..i]) + [ready[i].id]);
      assert ready[..i + 1][..i] == ready[..i];
      assert ws + Pairs(ready[..i]) + [ready[i].id] + [Code(ready[i].state)] == ws + Pairs(ready[..i + 1]);
      i := i + 1;
    }
    assert ready[..i] == ready;
  }

  // The set in the order its iterator happens to take.
  method Enumerate(s: set<nat>) returns (order: seq<nat>)
    ensures NoDuplicates(order) && (forall x :: x in order <==> x in s)
  {
    order := [];
    var todo := s;
    while todo != {}
      invariant todo <= s && NoDuplicates(order) && forall x :: x in order <==> x in s && x !in todo
      decreases |todo|
    {
      var x :| x in todo;
      todo := todo - {x};
      order := order + [x];
    }
  }

  method Write(nextId: nat, flushed: seq<nat>, ready: seq<Ended>, aborted: set<nat>) returns (r: Result<ByteString>, ghost order: seq<nat>)
    requires nextId < 0x1_0000_0000_0000_0000 && AllWords(flushed) && |flushed| < 0x1_0000_0000_0000_0000
    requires |ready| < 0x1_0000_0000_0000_0000 && forall i :: 0 <= i < |ready| ==> ready[i].id < 0x1_0000_0000_0000_0000
    requires |aborted| < 0x1_0000_0000_0000_0000 && forall x :: x in aborted ==> x < 0x1_0000_0000_0000_0000
    ensures r.Err? <==> flushed == [] || nextId == 0
    ensures NoDuplicates(order) && forall x :: x in order <==> x in aborted
    ensures r.Ok? ==> r.value == WordsBytes(Words(Saved(nextId, flushed, ready, order)))
  {
    var ids := Enumerate(aborted);
    order := ids;
    if flushed == [] || nextId == 0 {
      return Err(LogicError), order;
    }
    CountIds(ids, aborted);
    var buf := AppendWords([], [nextId, |flushed|, |ready|, |ids|], []);
    ghost var head := [nextId, |flushed|, |ready|, |ids|];
    assert [] + head == head;
    buf := AppendWords(buf, flushed, head);
    buf := AppendReady(buf, ready, head + flushed);
    forall i | 0 <= i < |ids|
      ensures ids[i] < 0x1_0000_0000_0000_0000
    {
      assert ids[i] in ids;
    }
    buf := AppendWords(buf, ids, head + flushed + Pairs(ready));
    return Ok(buf), order;
  }

  lemma {:induction false} CountIds(order: seq<nat>, s: set<nat>)
    requires NoDuplicates(order) && forall x :: x in order <==> x in s
    ensures |order| == |s|
  {
    if order == [] {
      assert s == {} by {
        assert forall x :: x in s ==> x in order;
      }
    } else {
      var x, tail := order[0], order[1..];
      assert order == [x] + tail;
      forall y
        ensures y in tail <==> y in s - {x}
      {
        if y in tail {
          var i :| 0 <= i < |tail| && tail[i] == y;
          assert order[i + 1] == y;
        }
      }
      CountIds(tail, s - {x});
    }
  }

  // ---- Reading ----

  // The last id read so far must be smaller.
  predicate Exceeds(s: seq<nat>, id: nat)
  {
    s == [] || s[|s| - 1] < id
  }

  // Everything is checked before anything is given back: length, counts without
  // arithmetic that could wrap, order, state codes, duplicates.  What a write made is
  // given back; what is accepted is what a write makes.
  method Read(buf: ByteString, ghost built: bool, ghost was: Saved) returns (r: Result<Saved>)
    requires built ==> Sound(was) && buf == WordsBytes(Words(was))
    ensures r.Ok? ==> Sound(r.value) && buf == WordsBytes(Words(r.value))
    ensures built ==> r == Ok(was)
  {
    if |buf| < 32 || |buf| % 8 != 0 {
      return Err(BadLength);
    }
    var total := |buf| / 8;
    if built {
      WordIs(was);
      WordReadsBack(Words(was), 0);
      WordReadsBack(Words(was), 1);
      WordReadsBack(Words(was), 2);
      WordReadsBack(Words(was), 3);
    }
    var nextId, f, rc, ac := WordAt(buf, 0), WordAt(buf, 1), WordAt(buf, 2), WordAt(buf, 3);
    var remaining := total - 4;
    if nextId == 0 || f == 0 || f > remaining {
      return Err(BadHeader);
    }
    remaining := remaining - f;
    if rc > remaining / 2 {
      return Err(BadCount);
    }
    remaining := remaining - rc * 2;
    if ac != remaining {
      return Err(BadCount);
    }
    var flushed := ReadFlushed(buf, f, built, was);
    if flushed.Err? {
      return Err(flushed.error);
    }
    var ready := ReadReady(buf, 4 + f, rc, built, was);
    if ready.Err? {
      return Err(ready.error);
    }
    var aborted := ReadAborted(buf, 4 + f + 2 * rc, ac, built, was);
    if aborted.Err? {
      return Err(aborted.error);
    }
    var s := Saved(nextId, flushed.value, ready.value, aborted.value);
    Reassembled(buf, s);
    return Ok(s);
  }

  lemma {:induction false} Reassembled(buf: ByteString, s: Saved)
    requires var f, r, a := |s.flushed|, |s.ready|, |s.aborted|;
             && |buf| == 8 * (4 + f + 2 * r + a)
             && WordAt(buf, 0) == s.nextId && WordAt(buf, 1) == f && WordAt(buf, 2) == r && WordAt(buf, 3) == a
             && IdsRead(buf, 4, s.flushed) && PairsRead(buf, 4 + f, s.ready) && IdsRead(buf, 4 + f + 2 * r, s.aborted)
    ensures buf == WordsBytes(Words(s)) && AllWords(Words(s))
  {
    var f, r := |s.flushed|, |s.ready|;
    WordIs(s);
    forall k | 0 <= k < |Words(s)|
      ensures WordAt(buf, k) == Words(s)[k]
    {
      if 4 <= k < 4 + f {
        assert Words(s)[4 + (k - 4)] == s.flushed[k - 4];
      } else if 4 + f <= k < 4 + f + 2 * r {
        var i := (k - 4 - f) / 2;
        assert PairRead(buf, 4 + f, s.ready, i);
        ReadyWords(s, i);
      } else if 4 + f + 2 * r <= k {
        var i := k - (4 + f + 2 * r);
        assert Words(s)[4 + f + 2 * r + i] == s.aborted[i];
      }
    }
    BytesAreWords(buf, Words(s));
  }

  // These ids are the words from a place on.
  ghost predicate IdsRead(buf: ByteString, at: nat, ids: seq<nat>)
    requires 8 * (at + |ids|) <= |buf|
  {
    forall k :: at <= k < at + |ids| ==> WordAt(buf, k) == ids[k - at]
  }

  lemma {:induction false} IdsReadMore(buf: ByteString, at: nat, ids: seq<nat>, id: nat)
    requires 8 * (at + |ids| + 1) <= |buf| && IdsRead(buf, at, ids) && WordAt(buf, at + |ids|) == id
    ensures IdsRead(buf, at, ids + [id])
  {
  }

  ghost predicate PairsRead(buf: ByteString, at: nat, ready: seq<Ended>)
    requires 8 * (at + 2 * |ready|) <= |buf|
  {
    forall i :: 0 <= i < |ready| ==> PairRead(buf, at, ready, i)
  }

  // Entry i of the endings lies at its place.
  ghost predicate PairRead(buf: ByteString, at: nat, ready: seq<Ended>, i: nat)
    requires i < |ready| && 8 * (at + 2 * |ready|) <= |buf|
  {
    WordAt(buf, at + 2 * i) == ready[i].id && WordAt(buf, at + 2 * i + 1) == Code(ready[i].state)
  }

  // What a written file has in its words.
  lemma {:induction false} FlushedWord(buf: ByteString, was: Saved, i: nat)
    requires Sound(was) && buf == WordsBytes(Words(was)) && i < |was.flushed|
    ensures |buf| >= 8 * (4 + i) + 8 && WordAt(buf, 4 + i) == was.flushed[i]
  {
    WordIs(was);
    WordReadsBack(Words(was), 4 + i);
    assert Words(was)[4 + i] == was.flushed[i];
  }

  lemma {:induction false} ReadyWord(buf: ByteString, was: Saved, i: nat)
    requires Sound(was) && buf == WordsBytes(Words(was)) && i < |was.ready|
    ensures var p := 4 + |was.flushed| + 2 * i;
            |buf| >= 8 * p + 16 && WordAt(buf, p) == was.ready[i].id && WordAt(buf, p + 1) == Code(was.ready[i].state)
  {
    var p := 4 + |was.flushed| + 2 * i;
    ReadyWords(was, i);
    WordReadsBack(Words(was), p);
    WordReadsBack(Words(was), p + 1);
  }

  lemma {:induction false} AbortedPlace(s: Saved, i: nat)
    requires i < |s.aborted|
    ensures var p := 4 + |s.flushed| + 2 * |s.ready| + i; |Words(s)| > p && Words(s)[p] == s.aborted[i]
  {
    var head := [s.nextId, |s.flushed|, |s.ready|, |s.aborted|] + s.flushed + Pairs(s.ready);
    assert Words(s) == head + s.aborted;
  }

  lemma {:induction false} AbortedWord(buf: ByteString, was: Saved, i: nat)
    requires Sound(was) && buf == WordsBytes(Words(was)) && i < |was.aborted|
    ensures var p := 4 + |was.flushed| + 2 * |was.ready| + i; |buf| >= 8 * p + 8 && WordAt(buf, p) == was.aborted[i]
  {
    AbortedPlace(was, i);
    WordReadsBack(Words(was), 4 + |was.flushed| + 2 * |was.ready| + i);
  }

  method ReadFlushed(buf: ByteString, n: nat, ghost built: bool, ghost was: Saved) returns (r: Result<seq<nat>>)
    requires 8 * (4 + n) <= |buf|
    requires built ==> Sound(was) && buf == WordsBytes(Words(was)) && n == |was.flushed|
    ensures r.Ok? ==> |r.value| == n && Ascending(r.value) && IdsRead(buf, 4, r.value)
    ensures built ==> r == Ok(was.flushed)
  {
    var ids: seq<nat> := [];
    while |ids| < n
      invariant |ids| <= n && Ascending(ids) && IdsRead(buf, 4, ids) && (built ==> ids == was.flushed[..|ids|])
    {
      var id := WordAt(buf, 4 + |ids|);
      if built {
        FlushedWord(buf, was, |ids|);
      }
      if !Exceeds(ids, id) {
        return Err(BadOrder);
      }
      IdsReadMore(buf, 4, ids, id);
      ids := ids + [id];
    }
    assert built ==> was.flushed[..n] == was.flushed;
    return Ok(ids);
  }

  method ReadReady(buf: ByteString, at: nat, n: nat, ghost built: bool, ghost was: Saved) returns (r: Result<seq<Ended>>)
    requires 8 * (at + 2 * n) <= |buf|
    requires built ==> Sound(was) && buf == WordsBytes(Words(was)) && n == |was.ready| && at == 4 + |was.flushed|
    ensures r.Ok? ==> |r.value| == n && IdsRise(r.value) && PairsRead(buf, at, r.value)
    ensures built ==> r == Ok(was.ready)
  {
    var ready: seq<Ended> := [];
    while |ready| < n
      invariant |ready| <= n && IdsRise(ready) && PairsRead(buf, at, ready) && (built ==> ready == was.ready[..|ready|])
    {
      var id, code := WordAt(buf, at + 2 * |ready|), WordAt(buf, at + 2 * |ready| + 1);
      if built {
        ReadyWord(buf, was, |ready|);
      }
      if code > 1 || (ready != [] && id <= ready[|ready| - 1].id) {
        return Err(BadEntry);
      }
      var e := Ended(id, if code == 0 then OpCommitted else Aborted);
      PairsReadMore(buf, at, ready, e);
      ready := ready + [e];
    }
    assert built ==> was.ready[..n] == was.ready;
    return Ok(ready);
  }

  lemma {:induction false} PairsReadMore(buf: ByteString, at: nat, ready: seq<Ended>, e: Ended)
    requires 8 * (at + 2 * |ready| + 2) <= |buf| && PairsRead(buf, at, ready)
    requires WordAt(buf, at + 2 * |ready|) == e.id && WordAt(buf, at + 2 * |ready| + 1) == Code(e.state)
    ensures PairsRead(buf, at, ready + [e])
  {
    var all := ready + [e];
    forall i | 0 <= i < |all|
      ensures PairRead(buf, at, all, i)
    {
      assert i < |ready| ==> PairRead(buf, at, ready, i);
    }
  }

  method ReadAborted(buf: ByteString, at: nat, n: nat, ghost built: bool, ghost was: Saved) returns (r: Result<seq<nat>>)
    requires 8 * (at + n) <= |buf|
    requires built ==> Sound(was) && buf == WordsBytes(Words(was)) && n == |was.aborted| && at == 4 + |was.flushed| + 2 * |was.ready|
    ensures r.Ok? ==> |r.value| == n && NoDuplicates(r.value) && IdsRead(buf, at, r.value)
    ensures built ==> r == Ok(was.aborted)
  {
    var ids: seq<nat> := [];
    while |ids| < n
      invariant |ids| <= n && NoDuplicates(ids) && IdsRead(buf, at, ids) && (built ==> ids == was.aborted[..|ids|])
    {
      var id := WordAt(buf, at + |ids|);
      if built {
        AbortedWord(buf, was, |ids|);
        assert id !in was.aborted[..|ids|];
      }
      if id in ids {
        return Err(Duplicate);
      }
      IdsReadMore(buf, at, ids, id);
      ids := ids + [id];
    }
    assert built ==> was.aborted[..n] == was.aborted;
    return Ok(ids);
  }

  function ToSet(s: seq<nat>): set<nat>
  {
    set x | x in s
  }
}
