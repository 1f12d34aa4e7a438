// The abstract read specification every path of the engine is held to.
//
// A source of records is a sequence, newest source first.  A query asks for one
// key under a version bound (0: no bound) and a set of writers to ignore.

module Mvcc {
  import opened Bytes

  type Key = ByteString

  // An empty value is a tombstone.
  datatype Rec = Rec(key: Key, value: ByteString, ver: nat)

  datatype Query = Query(key: Key, bound: nat, skip: set<nat>)

  predicate Admits(bound: nat, skip: set<nat>, ver: nat)
  {
    (bound == 0 || ver <= bound) && ver !in skip
  }

  predicate Eligible(r: Rec, q: Query)
  {
    r.key == q.key && Admits(q.bound, q.skip, r.ver)
  }

  // The newer candidate stays unless the older one has a strictly larger version.
  function Pick(newer: Option<Rec>, older: Option<Rec>): Option<Rec>
  {
    if older.Some? && (newer.None? || older.value.ver > newer.value.ver) then older else newer
  }

  function Candidate(r: Rec, q: Query): Option<Rec>
  {
    if Eligible(r, q) then Some(r) else None
  }

  // The record a read must find.
  function Best(s: seq<Rec>, q: Query): Option<Rec>
  {
    if s == [] then None else Pick(Candidate(s[0], q), Best(s[1..], q))
  }

  // What a caller of get sees: a winning tombstone means absent.
  function Visible(found: Option<Rec>): Option<Rec>
  {
    if found.Some? && found.value.value != [] then found else None
  }

  // r is the winner at position i: eligible, of the largest eligible version, and
  // ahead of every other record of that version.
  ghost predicate Wins(s: seq<Rec>, q: Query, i: int)
  {
    0 <= i < |s| && Eligible(s[i], q) &&
    (forall j :: 0 <= j < |s| && Eligible(s[j], q) ==> s[j].ver <= s[i].ver) &&
    (forall j :: 0 <= j < i && Eligible(s[j], q) ==> s[j].ver < s[i].ver)
  }

  // Best is the largest eligible version, the newest source first among equals; it
  // is absent exactly when nothing is eligible.
  lemma {:induction false} BestMeaning(s: seq<Rec>, q: Query)
    ensures Best(s, q).None? <==> forall j :: 0 <= j < |s| ==> !Eligible(s[j], q)
    ensures Best(s, q).Some? ==> exists i :: Wins(s, q, i) && s[i] == Best(s, q).value
  {
    if s != [] {
      var t := s[1..];
      BestMeaning(t, q);
      assert forall j :: 0 <= j < |t| ==> t[j] == s[j + 1];
      assert forall j :: 0 < j < |s| ==> s[j] == t[j - 1];
      if Best(s, q).Some? {
        if Best(s, q) == Candidate(s[0], q) && Eligible(s[0], q) {
          if Best(t, q).Some? {
            var i :| Wins(t, q, i) && t[i] == Best(t, q).value;
          }
          assert Wins(s, q, 0);
        } else {
          var i :| Wins(t, q, i) && t[i] == Best(t, q).value;
          assert Wins(s, q, i + 1);
        }
      }
    }
  }

  lemma WinsUnique(s: seq<Rec>, q: Query, i: int, j: int)
    requires Wins(s, q, i) && Wins(s, q, j)
    ensures i == j
  {
  }

  lemma BestIs(s: seq<Rec>, q: Query, i: int)
    requires Wins(s, q, i)
    ensures Best(s, q) == Some(s[i])
  {
    BestMeaning(s, q);
    var j :| Wins(s, q, j) && s[j] == Best(s, q).value;
    WinsUnique(s, q, i, j);
  }

  lemma {:induction false} BestAppend(s: seq<Rec>, t: seq<Rec>, q: Query)
    ensures Best(s + t, q) == Pick(Best(s, q), Best(t, q))
  {
    if s == [] {
      assert s + t == t;
    } else {
      assert (s + t)[1..] == s[1..] + t;
      BestAppend(s[1..], t, q);
    }
  }

  lemma {:induction false} BestOtherKeys(s: seq<Rec>, q: Query)
    requires forall i :: 0 <= i < |s| ==> s[i].key != q.key
    ensures Best(s, q).None?
  {
    if s != [] {
      BestOtherKeys(s[1..], q);
    }
  }

  function {:tailrecursion false} Flat<T>(ss: seq<seq<T>>): seq<T>
  {
    if ss == [] then [] else ss[0] + Flat(ss[1..])
  }

  lemma {:induction false} FlatAppend<T>(a: seq<seq<T>>, b: seq<seq<T>>)
    ensures Flat(a + b) == Flat(a) + Flat(b)
  {
    if a == [] {
      assert a + b == b;
    } else {
      assert (a + b)[1..] == a[1..] + b;
      FlatAppend(a[1..], b);
    }
  }

  lemma Regroup<T>(a: seq<T>, b: seq<T>, c: seq<T>)
    ensures a + (b + c) == a + b + c
  {
  }

  lemma FlatOne<T>(a: seq<T>)
    ensures Flat([a]) == a
  {
    assert Flat([a][1..]) == [];
  }

  // Left of the selected keys positive, right of them negative.
  ghost predicate Monotone(pred: Key -> int)
  {
    forall a, b :: Less(a, b) ==> (pred(a) < 0 ==> pred(b) < 0) && (pred(a) == 0 ==> pred(b) <= 0)
  }

  // Versions fit the 64 bits a table's file has for them.
  ghost predicate Narrow(s: seq<Rec>)
  {
    forall i :: 0 <= i < |s| ==> s[i].ver < 0x1_0000_0000_0000_0000
  }

  // ---- Record order: key ascending, then version descending ----

  predicate RecLess(a: Rec, b: Rec)
  {
    Less(a.key, b.key) || (a.key == b.key && a.ver > b.ver)
  }

  // Non-strict: equal (key, version) pairs may repeat.
  ghost predicate Ordered(s: seq<Rec>)
  {
    forall i, j :: 0 <= i < j < |s| ==> !RecLess(s[j], s[i])
  }

  ghost predicate Strict(s: seq<Rec>)
  {
    forall i, j :: 0 <= i < j < |s| ==> RecLess(s[i], s[j])
  }

  lemma RecOrder()
    ensures forall a, b :: RecLess(a, b) ==> !RecLess(b, a)
    ensures forall a, b :: RecLess(a, b) || RecLess(b, a) || (a.key == b.key && a.ver == b.ver)
    ensures forall a, b, c :: RecLess(a, b) && RecLess(b, c) ==> RecLess(a, c)
    ensures forall a, b, c :: RecLess(a, b) && !RecLess(c, b) ==> RecLess(a, c)
    ensures forall a, b, c :: !RecLess(b, a) && RecLess(b, c) ==> RecLess(a, c)
  {
    KeyOrder();
  }

  lemma StrictIsOrdered(s: seq<Rec>)
    requires Strict(s)
    ensures Ordered(s)
  {
    RecOrder();
  }

  // In an ordered sequence the first eligible record is the one to read.
  function FirstEligible(s: seq<Rec>, q: Query): Option<Rec>
  {
    if s == [] then None else if Eligible(s[0], q) then Some(s[0]) else FirstEligible(s[1..], q)
  }

  lemma {:induction false} BestOfOrdered(s: seq<Rec>, q: Query)
    requires Ordered(s)
    ensures Best(s, q) == FirstEligible(s, q)
  {
    if s != [] {
      BestOfOrdered(s[1..], q);
      BestMeaning(s[1..], q);
      if Eligible(s[0], q) && Best(s[1..], q).Some? {
        var i :| Wins(s[1..], q, i) && s[1..][i] == Best(s[1..], q).value;
        assert s[1..][i] == s[i + 1];
        assert !RecLess(s[i + 1], s[0]);
      }
    }
  }

  // ---- Rearrangements that no read can tell apart ----

  // The records of one key and version, in source order.
  function Group(s: seq<Rec>, k: Key, v: nat): seq<Rec>
  {
    if s == [] then []
    else if s[0].key == k && s[0].ver == v then [s[0]] + Group(s[1..], k, v)
    else Group(s[1..], k, v)
  }

  ghost predicate SameGroups(s: seq<Rec>, t: seq<Rec>)
  {
    forall k, v :: Group(s, k, v) == Group(t, k, v)
  }

  lemma {:induction false} GroupAppend(s: seq<Rec>, t: seq<Rec>, k: Key, v: nat)
    ensures Group(s + t, k, v) == Group(s, k, v) + Group(t, k, v)
  {
    if s == [] {
      assert s + t == t;
    } else {
      assert (s + t)[1..] == s[1..] + t;
      GroupAppend(s[1..], t, k, v);
    }
  }

  // A group is empty exactly when no record has its key and version; otherwise its
  // head is the first such record.
  lemma {:induction false} GroupHead(s: seq<Rec>, k: Key, v: nat) returns (i: nat)
    ensures Group(s, k, v) == [] ==> i == |s|
    ensures Group(s, k, v) != [] ==> i < |s| && s[i].key == k && s[i].ver == v && Group(s, k, v)[0] == s[i]
    ensures forall j :: 0 <= j < i ==> s[j].key != k || s[j].ver != v
  {
    if s == [] || (s[0].key == k && s[0].ver == v) {
      i := 0;
    } else {
      i := GroupHead(s[1..], k, v);
      i := i + 1;
    }
  }

  // Reads only look at the head of each group.
  ghost predicate SameHeads(s: seq<Rec>, t: seq<Rec>)
  {
    forall k, v :: (Group(s, k, v) == [] <==> Group(t, k, v) == []) &&
                   (Group(s, k, v) != [] ==> Group(s, k, v)[0] == Group(t, k, v)[0])
  }

  lemma SameHeadsSameBest(s: seq<Rec>, t: seq<Rec>, q: Query)
    requires SameHeads(s, t)
    ensures Best(s, q) == Best(t, q)
  {
    BestMeaning(s, q);
    BestMeaning(t, q);
    if Best(s, q).Some? {
      HeadWins(s, t, q);
    } else if Best(t, q).Some? {
      HeadWins(t, s, q);
    }
  }

  lemma SameGroupsSameBest(s: seq<Rec>, t: seq<Rec>, q: Query)
    requires SameGroups(s, t)
    ensures Best(s, q) == Best(t, q)
  {
    SameHeadsSameBest(s, t, q);
  }

  lemma HeadWins(s: seq<Rec>, t: seq<Rec>, q: Query)
    requires SameHeads(s, t)
    requires Best(s, q).Some?
    ensures Best(t, q) == Best(s, q)
  {
    BestMeaning(s, q);
    var i :| Wins(s, q, i) && s[i] == Best(s, q).value;
    var v := s[i].ver;
    var i' := GroupHead(s, q.key, v);
    assert i' == i;
    var j := GroupHead(t, q.key, v);
    assert t[j] == s[i];
    forall m | 0 <= m < |t| && Eligible(t[m], q)
      ensures t[m].ver <= v
    {
      var a := GroupHead(t, q.key, t[m].ver);
      var b := GroupHead(s, q.key, t[m].ver);
      assert Eligible(s[b], q);
    }
    forall m | 0 <= m < j && Eligible(t[m], q)
      ensures t[m].ver < v
    {
    }
    assert Wins(t, q, j);
    BestIs(t, q, j);
  }
}
