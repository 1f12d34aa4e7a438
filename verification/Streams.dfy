// What an iterator over records in order still has to give.

module Streams {
  import opened Bytes
  import opened Mvcc

  // Which records an iterator shows: those the read admits, and of each key either every
  // version or only the first.
  datatype Mode = Mode(bound: nat, skip: set<nat>, keepAll: bool)

  predicate Shows(m: Mode, r: Rec)
  {
    Admits(m.bound, m.skip, r.ver)
  }

  function DropKey(s: seq<Rec>, key: Key): (t: seq<Rec>)
    ensures |t| <= |s|
    ensures t != [] ==> t[0].key != key
  {
    if s != [] && s[0].key == key then DropKey(s[1..], key) else s
  }

  function {:tailrecursion false} Shown(s: seq<Rec>, m: Mode): seq<Rec>
    decreases |s|
  {
    if s == [] then []
    else if !Shows(m, s[0]) then Shown(s[1..], m)
    else [s[0]] + Shown(if m.keepAll then s[1..] else DropKey(s[1..], s[0].key), m)
  }

  // The query that asks for this record's key.
  function Ask(m: Mode, key: Key): Query
  {
    Query(key, m.bound, m.skip)
  }

  ghost predicate KeysRise(s: seq<Rec>)
  {
    forall i, j :: 0 <= i < j < |s| ==> Less(s[i].key, s[j].key)
  }

  lemma OrderedTail(s: seq<Rec>)
    requires Ordered(s) && s != []
    ensures Ordered(s[1..])
    ensures forall i :: 0 < i < |s| ==> s[i].key == s[0].key || Less(s[0].key, s[i].key)
  {
    forall i, j | 0 <= i < j < |s[1..]|
      ensures !RecLess(s[1..][j], s[1..][i])
    {
      assert s[1..][i] == s[i + 1] && s[1..][j] == s[j + 1];
    }
    forall i | 0 < i < |s|
      ensures s[i].key == s[0].key || Less(s[0].key, s[i].key)
    {
      assert !RecLess(s[i], s[0]);
      LessTotal(s[i].key, s[0].key);
    }
  }

  // Dropping a key from the front of an ordered sequence leaves the larger keys.
  lemma {:induction false} DropKeyMeaning(s: seq<Rec>, key: Key)
    requires Ordered(s) && forall i :: 0 <= i < |s| ==> s[i].key == key || Less(key, s[i].key)
    ensures Ordered(DropKey(s, key))
    ensures forall i :: 0 <= i < |DropKey(s, key)| ==> Less(key, DropKey(s, key)[i].key)
    ensures forall q: Query :: q.key != key ==> FirstEligible(DropKey(s, key), q) == FirstEligible(s, q)
  {
    if s != [] && s[0].key == key {
      OrderedTail(s);
      DropKeyMeaning(s[1..], key);
    } else if s != [] {
      forall i | 0 <= i < |s|
        ensures Less(key, s[i].key)
      {
        OrderedTail(s);
        if s[i].key != s[0].key {
          LessTransitive(key, s[0].key, s[i].key);
        }
      }
    }
  }

  // Of each key exactly the record a read must find, keys strictly rising.
  lemma {:induction false} ShownMeaning(s: seq<Rec>, m: Mode)
    requires Ordered(s) && !m.keepAll
    ensures KeysRise(Shown(s, m))
    ensures forall r :: r in Shown(s, m) <==> Best(s, Ask(m, r.key)) == Some(r)
    decreases |s|
  {
    FirstsMeaning(s, m);
    forall r
      ensures r in Shown(s, m) <==> Best(s, Ask(m, r.key)) == Some(r)
    {
      BestOfOrdered(s, Ask(m, r.key));
    }
  }

  lemma {:induction false} FirstsMeaning(s: seq<Rec>, m: Mode)
    requires Ordered(s) && !m.keepAll
    ensures KeysRise(Shown(s, m))
    ensures forall r :: r in Shown(s, m) <==> FirstEligible(s, Ask(m, r.key)) == Some(r)
    decreases |s|
  {
    if s != [] {
      OrderedTail(s);
      var key := s[0].key;
      if !Shows(m, s[0]) {
        FirstsMeaning(s[1..], m);
      } else {
        var rest := DropKey(s[1..], key);
        DropKeyMeaning(s[1..], key);
        FirstsMeaning(rest, m);
        FirstThenRest(s, m, rest);
      }
    }
  }

  lemma FirstThenRest(s: seq<Rec>, m: Mode, rest: seq<Rec>)
    requires s != [] && Shows(m, s[0]) && !m.keepAll && rest == DropKey(s[1..], s[0].key)
    requires forall i :: 0 <= i < |rest| ==> Less(s[0].key, rest[i].key)
    requires forall q: Query :: q.key != s[0].key ==> FirstEligible(rest, q) == FirstEligible(s[1..], q)
    requires KeysRise(Shown(rest, m))
    requires forall r :: r in Shown(rest, m) <==> FirstEligible(rest, Ask(m, r.key)) == Some(r)
    ensures KeysRise(Shown(s, m))
    ensures forall r :: r in Shown(s, m) <==> FirstEligible(s, Ask(m, r.key)) == Some(r)
  {
    var key, later, all := s[0].key, Shown(rest, m), Shown(s, m);
    assert all == [s[0]] + later;
    forall r | r in later
      ensures Less(key, r.key) && r.key != key
    {
      FirstIsMember(rest, Ask(m, r.key));
      LessTotal(key, r.key);
    }
    forall i, j | 0 <= i < j < |all|
      ensures Less(all[i].key, all[j].key)
    {
      assert all[j] == later[j - 1] && later[j - 1] in later;
    }
    forall r
      ensures r in all <==> FirstEligible(s, Ask(m, r.key)) == Some(r)
    {
      if r.key == key {
        assert r !in later;
      }
    }
  }

  lemma {:induction false} FirstIsMember(s: seq<Rec>, q: Query)
    ensures FirstEligible(s, q).Some? ==> FirstEligible(s, q).value in s && Eligible(FirstEligible(s, q).value, q)
  {
    if s != [] && !Eligible(s[0], q) {
      FirstIsMember(s[1..], q);
    }
  }

  // ---- Sequences without a common key ----

  ghost predicate NoCommonKey(s: seq<Rec>, t: seq<Rec>)
  {
    forall i, j :: 0 <= i < |s| && 0 <= j < |t| ==> s[i].key != t[j].key
  }

  lemma {:induction false} DropKeyAppend(s: seq<Rec>, t: seq<Rec>, key: Key)
    requires forall j :: 0 <= j < |t| ==> t[j].key != key
    ensures DropKey(s + t, key) == DropKey(s, key) + t
  {
    if s == [] {
      assert s + t == t;
    } else if s[0].key == key {
      assert (s + t)[1..] == s[1..] + t;
      DropKeyAppend(s[1..], t, key);
    }
  }

  lemma {:induction false} DropKeyIsSuffix(s: seq<Rec>, key: Key) returns (n: nat)
    ensures n <= |s| && DropKey(s, key) == s[n..]
    ensures forall i :: 0 <= i < n ==> s[i].key == key
  {
    if s != [] && s[0].key == key {
      n := DropKeyIsSuffix(s[1..], key);
      n := n + 1;
    } else {
      n := 0;
    }
  }

  lemma {:induction false} ShownAppend(s: seq<Rec>, t: seq<Rec>, m: Mode)
    requires NoCommonKey(s, t)
    ensures Shown(s + t, m) == Shown(s, m) + Shown(t, m)
    decreases |s|
  {
    if s == [] {
      assert s + t == t;
    } else {
      var all, tail := s + t, s[1..];
      assert all[1..] == tail + t;
      assert NoCommonKey(tail, t);
      if !Shows(m, s[0]) || m.keepAll {
        ShownAppend(tail, t, m);
      } else {
        DropKeyAppend(tail, t, s[0].key);
        var n := DropKeyIsSuffix(tail, s[0].key);
        assert NoCommonKey(tail[n..], t);
        ShownAppend(tail[n..], t, m);
      }
    }
  }

  // With every version kept and every version admitted nothing is left out.
  lemma {:induction false} ShownAll(s: seq<Rec>)
    ensures Shown(s, Mode(0, {}, true)) == s
  {
    if s != [] {
      ShownAll(s[1..]);
    }
  }

  // ---- Sequences with rising keys ----

  // The record of a key, if the sequence shows one.
  function Find(s: seq<Rec>, key: Key): Option<Rec>
  {
    if s == [] then None else if s[0].key == key then Some(s[0]) else Find(s[1..], key)
  }

  lemma {:induction false} FindMeaning(s: seq<Rec>, key: Key)
    requires KeysRise(s)
    ensures forall r: Rec :: r.key == key ==> (r in s <==> Find(s, key) == Some(r))
    ensures Find(s, key).Some? ==> Find(s, key).value in s && Find(s, key).value.key == key
  {
    if s != [] {
      assert KeysRise(s[1..]);
      FindMeaning(s[1..], key);
      forall r: Rec | r.key == key && s[0].key == key && r in s[1..]
        ensures false
      {
        var i :| 0 <= i < |s[1..]| && s[1..][i] == r;
        assert s[i + 1] == r && Less(s[0].key, s[i + 1].key);
        LessTotal(s[0].key, s[i + 1].key);
      }
    }
  }

  // Looking a key up in what an iterator shows is reading it.
  lemma FindIsBest(s: seq<Rec>, m: Mode, key: Key)
    requires Ordered(s) && !m.keepAll
    ensures Find(Shown(s, m), key) == Best(s, Ask(m, key))
  {
    ShownMeaning(s, m);
    FindMeaning(Shown(s, m), key);
    BestMeaning(s, Ask(m, key));
    var found, best := Find(Shown(s, m), key), Best(s, Ask(m, key));
    if best.Some? {
      assert best.value.key == key;
      assert best.value in Shown(s, m);
    }
  }

  // Two sequences with rising keys and the same records are the same sequence.
  lemma {:induction false} RisingUnique(s: seq<Rec>, t: seq<Rec>)
    requires KeysRise(s) && KeysRise(t)
    requires forall r :: r in s <==> r in t
    ensures s == t
    decreases |s|
  {
    if s == [] {
      assert forall i :: 0 <= i < |t| ==> t[i] in t;
    } else {
      assert s[0] in s && s[0] in t;
      assert t != [] && t[0] in t && t[0] in s;
      FirstLeast(s, t[0]);
      FirstLeast(t, s[0]);
      LessTotal(s[0].key, t[0].key);
      assert s[0] == t[0] by {
        FindMeaning(s, s[0].key);
      }
      forall r
        ensures r in s[1..] <==> r in t[1..]
      {
        NotFirst(s, r);
        NotFirst(t, r);
      }
      RisingUnique(s[1..], t[1..]);
      assert s == [s[0]] + s[1..] && t == [t[0]] + t[1..];
    }
  }

  lemma FirstLeast(s: seq<Rec>, r: Rec)
    requires KeysRise(s) && r in s
    ensures s[0] == r || Less(s[0].key, r.key)
  {
  }

  lemma NotFirst(s: seq<Rec>, r: Rec)
    requires KeysRise(s) && s != []
    ensures r in s[1..] <==> r in s && r != s[0]
  {
    LessTotal(r.key, s[0].key);
    if r in s[1..] {
      var i :| 0 <= i < |s[1..]| && s[1..][i] == r;
      assert s[i + 1] == r;
    }
  }

  // ---- Leaving out tombstones ----

  function {:tailrecursion false} Live(s: seq<Rec>): seq<Rec>
  {
    if s == [] then [] else (if s[0].value != [] then [s[0]] else []) + Live(s[1..])
  }

  lemma {:induction false} LiveMeaning(s: seq<Rec>)
    ensures forall r :: r in Live(s) <==> r in s && r.value != []
    ensures KeysRise(s) ==> KeysRise(Live(s))
  {
    if s != [] {
      LiveMeaning(s[1..]);
      if KeysRise(s) {
        assert KeysRise(s[1..]);
        forall i, j | 0 <= i < j < |Live(s)|
          ensures Less(Live(s)[i].key, Live(s)[j].key)
        {
          if s[0].value != [] {
            var r := Live(s[1..])[j - 1];
            assert r in Live(s[1..]) && r in s[1..];
          }
        }
      }
    }
  }

  // ---- Records a predicate on keys selects ----

  function {:tailrecursion false} Selected(s: seq<Rec>, pred: Key -> int): seq<Rec>
  {
    if s == [] then [] else (if pred(s[0].key) == 0 then [s[0]] else []) + Selected(s[1..], pred)
  }

  lemma {:induction false} SelectedMeaning(s: seq<Rec>, pred: Key -> int)
    ensures forall r :: r in Selected(s, pred) <==> r in s && pred(r.key) == 0
    ensures KeysRise(s) ==> KeysRise(Selected(s, pred))
  {
    if s != [] {
      SelectedMeaning(s[1..], pred);
      if KeysRise(s) {
        assert KeysRise(s[1..]);
        forall i, j | 0 <= i < j < |Selected(s, pred)|
          ensures Less(Selected(s, pred)[i].key, Selected(s, pred)[j].key)
        {
          if pred(s[0].key) == 0 {
            var r := Selected(s[1..], pred)[j - 1];
            assert r in Selected(s[1..], pred) && r in s[1..];
          }
        }
      }
    }
  }

  lemma {:induction false} SelectedAppend(s: seq<Rec>, t: seq<Rec>, pred: Key -> int)
    ensures Selected(s + t, pred) == Selected(s, pred) + Selected(t, pred)
  {
    if s == [] {
      assert s + t == t;
    } else {
      assert (s + t)[1..] == s[1..] + t;
      SelectedAppend(s[1..], t, pred);
    }
  }

  ghost predicate AllHit(s: seq<Rec>, pred: Key -> int)
  {
    forall i :: 0 <= i < |s| ==> pred(s[i].key) == 0
  }

  ghost predicate NoneHit(s: seq<Rec>, pred: Key -> int)
  {
    forall i :: 0 <= i < |s| ==> pred(s[i].key) != 0
  }

  lemma {:induction false} SelectedOf(s: seq<Rec>, pred: Key -> int)
    ensures AllHit(s, pred) ==> Selected(s, pred) == s
    ensures NoneHit(s, pred) ==> Selected(s, pred) == []
  {
    if s != [] {
      SelectedOf(s[1..], pred);
    }
  }

  lemma {:induction false} ShownSubset(s: seq<Rec>, m: Mode)
    ensures forall r :: r in Shown(s, m) ==> r in s && Shows(m, r)
    decreases |s|
  {
    if s != [] {
      if !Shows(m, s[0]) || m.keepAll {
        ShownSubset(s[1..], m);
      } else {
        var n := DropKeyIsSuffix(s[1..], s[0].key);
        ShownSubset(s[1..][n..], m);
      }
    }
  }

  lemma ShownHits(s: seq<Rec>, m: Mode, pred: Key -> int)
    ensures AllHit(s, pred) ==> AllHit(Shown(s, m), pred)
    ensures NoneHit(s, pred) ==> NoneHit(Shown(s, m), pred)
  {
    ShownSubset(s, m);
    forall i | 0 <= i < |Shown(s, m)|
      ensures Shown(s, m)[i] in s
    {
      assert Shown(s, m)[i] in Shown(s, m);
    }
  }

  // What lies between two selected records is selected.
  lemma Between(all: seq<Rec>, front: seq<Rec>, x: seq<Rec>, z: seq<Rec>, y: seq<Rec>, back: seq<Rec>, pred: Key -> int)
    requires KeysRise(all) && Monotone(pred) && all == front + x + z + y + back
    requires x != [] && y != [] && AllHit(x, pred) && AllHit(y, pred)
    ensures AllHit(z, pred)
  {
    var a, b := |front|, |front| + |x| + |z|;
    assert all[a] == x[0] && all[b] == y[0];
    forall i | 0 <= i < |z|
      ensures pred(z[i].key) == 0
    {
      var k := |front| + |x| + i;
      assert all[k] == z[i] && a < k < b;
      assert Less(all[a].key, all[k].key) && Less(all[k].key, all[b].key);
    }
  }
}
