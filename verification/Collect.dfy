// Choosing records out of a source by key, bound and writer before they are merged.

module Collecting {
  import opened Bytes
  import opened Mvcc
  import opened Streams
  import opened Heaps

  // The records a walk over one table hands to the queue: keys that are not the
  // marker's, chosen by sel, in versions the read admits.
  predicate Takes(m: Mode, sel: Key -> bool, r: Rec)
  {
    r.key != [] && sel(r.key) && Shows(m, r)
  }

  function {:tailrecursion false} Taken(s: seq<Rec>, m: Mode, sel: Key -> bool): seq<Rec>
  {
    if s == [] then [] else (if Takes(m, sel, s[0]) then [s[0]] else []) + Taken(s[1..], m, sel)
  }

  lemma {:induction false} TakenAppend(s: seq<Rec>, t: seq<Rec>, m: Mode, sel: Key -> bool)
    ensures Taken(s + t, m, sel) == Taken(s, m, sel) + Taken(t, m, sel)
  {
    if s == [] {
      assert s + t == t;
    } else {
      assert (s + t)[1..] == s[1..] + t;
      TakenAppend(s[1..], t, m, sel);
    }
  }

  lemma {:induction false} TakenNone(s: seq<Rec>, m: Mode, sel: Key -> bool)
    requires forall i :: 0 <= i < |s| ==> !sel(s[i].key)
    ensures Taken(s, m, sel) == []
  {
    if s != [] {
      TakenNone(s[1..], m, sel);
    }
  }

  lemma {:induction false} TakenMembers(s: seq<Rec>, m: Mode, sel: Key -> bool)
    ensures forall r :: r in Taken(s, m, sel) <==> r in s && Takes(m, sel, r)
  {
    if s != [] {
      TakenMembers(s[1..], m, sel);
    }
  }

  // What is left out was not what a read of a chosen key looks for.
  lemma {:induction false} TakenBest(s: seq<Rec>, m: Mode, sel: Key -> bool, key: Key)
    ensures Best(Taken(s, m, sel), Query(key, m.bound, {})) == if key != [] && sel(key) then Best(s, Ask(m, key)) else None
  {
    if s != [] {
      TakenBest(s[1..], m, sel, key);
      BestAppend(Taken([s[0]], m, sel), Taken(s[1..], m, sel), Query(key, m.bound, {}));
      assert [s[0]][1..] == [];
      assert s == [s[0]] + s[1..];
      TakenAppend([s[0]], s[1..], m, sel);
    }
  }

  // Reading among the chosen records, without further bound, is reading the source for
  // a chosen key.
  ghost predicate StandsFor(chosen: seq<Rec>, src: seq<Rec>, m: Mode, sel: Key -> bool)
  {
    forall k :: k != [] ==> Best(chosen, Query(k, m.bound, {})) == if sel(k) then Best(src, Ask(m, k)) else None
  }

  lemma TakenStands(s: seq<Rec>, m: Mode, sel: Key -> bool)
    ensures StandsFor(Taken(s, m, sel), s, m, sel) && Unmarked(Taken(s, m, sel))
  {
    forall k | k != []
      ensures Best(Taken(s, m, sel), Query(k, m.bound, {})) == if sel(k) then Best(s, Ask(m, k)) else None
    {
      TakenBest(s, m, sel, k);
    }
    TakenMembers(s, m, sel);
    forall i | 0 <= i < |Taken(s, m, sel)|
      ensures Taken(s, m, sel)[i].key != []
    {
      assert Taken(s, m, sel)[i] in Taken(s, m, sel);
    }
  }

  lemma StandsAppend(a: seq<Rec>, s: seq<Rec>, b: seq<Rec>, t: seq<Rec>, m: Mode, sel: Key -> bool)
    requires StandsFor(a, s, m, sel) && StandsFor(b, t, m, sel)
    ensures StandsFor(a + b, s + t, m, sel)
  {
    forall k | k != []
      ensures Best(a + b, Query(k, m.bound, {})) == if sel(k) then Best(s + t, Ask(m, k)) else None
    {
      BestAppend(a, b, Query(k, m.bound, {}));
      BestAppend(s, t, Ask(m, k));
    }
  }

  ghost predicate Unmarked(s: seq<Rec>)
  {
    forall i :: 0 <= i < |s| ==> s[i].key != []
  }

  // What a queue over chosen records gives, tombstones left out or not.
  ghost predicate Answers(shown: seq<Rec>, src: seq<Rec>, m: Mode, sel: Key -> bool)
  {
    && KeysRise(shown)
    && forall k :: k != [] ==> Find(shown, k) == if sel(k) then Best(src, Ask(m, k)) else None
  }

  ghost predicate AnswersLive(shown: seq<Rec>, src: seq<Rec>, m: Mode, sel: Key -> bool)
  {
    && KeysRise(shown)
    && forall r :: r in shown <==> r.key != [] && sel(r.key) && Mvcc.Visible(Best(src, Ask(m, r.key))) == Some(r)
  }

  lemma QueueGives(h: HeapIt, chosen: seq<Rec>, src: seq<Rec>, m: Mode, sel: Key -> bool)
    requires HeapOk(h.items, chosen) && StandsFor(chosen, src, m, sel) && h.bound == m.bound && !h.keepAll
    ensures !h.skipDelete ==> Answers(HeapRest(h), src, m, sel)
    ensures h.skipDelete && Unmarked(chosen) ==> AnswersLive(HeapRest(h), src, m, sel)
  {
    var mode := Mode(h.bound, {}, false);
    var shown := Shown(Recs(h.items), mode);
    SortedIsOrdered(h.items);
    ShownMeaning(Recs(h.items), mode);
    forall k
      ensures Find(shown, k) == Best(chosen, Query(k, m.bound, {}))
    {
      FindIsBest(Recs(h.items), mode, k);
      SameGroupsSameBest(Recs(h.items), chosen, Query(k, m.bound, {}));
    }
    LiveMeaning(shown);
    if Unmarked(chosen) {
      forall r
        ensures r in shown <==> r.key != [] && sel(r.key) && Best(src, Ask(m, r.key)) == Some(r)
      {
        FindMeaning(shown, r.key);
        if r.key == [] {
          BestOtherKeys(chosen, Query([], m.bound, {}));
        }
      }
    }
  }

  // A list with one record per key, all within the bound, stands for itself.
  lemma {:induction false} RisingBest(s: seq<Rec>, bound: nat, key: Key)
    requires KeysRise(s) && forall i :: 0 <= i < |s| ==> bound == 0 || s[i].ver <= bound
    ensures Best(s, Query(key, bound, {})) == Find(s, key)
  {
    if s != [] {
      assert KeysRise(s[1..]);
      RisingBest(s[1..], bound, key);
      if s[0].key == key {
        FindMeaning(s, key);
        forall i | 0 <= i < |s[1..]|
          ensures s[1..][i].key != key
        {
          assert Less(s[0].key, s[i + 1].key);
          LessTotal(s[0].key, s[i + 1].key);
        }
        BestOtherKeys(s[1..], Query(key, bound, {}));
      }
    }
  }

  // What one ordered source shows stands for the source, here for keys a predicate
  // selects.
  lemma ShownStands(s: seq<Rec>, m: Mode, pred: Key -> int)
    requires Ordered(s) && !m.keepAll
    ensures StandsFor(Selected(Shown(s, m), pred), s, m, k => pred(k) == 0)
    ensures StandsFor(Shown(s, m), s, m, k => true)
  {
    var shown := Shown(s, m);
    ShownMeaning(s, m);
    SelectedMeaning(shown, pred);
    ShownSubset(s, m);
    InBound(shown, shown, m);
    InBound(Selected(shown, pred), shown, m);
    forall k: Key
      ensures Best(shown, Query(k, m.bound, {})) == Best(s, Ask(m, k))
      ensures Best(Selected(shown, pred), Query(k, m.bound, {})) == if pred(k) == 0 then Best(s, Ask(m, k)) else None
    {
      RisingBest(shown, m.bound, k);
      FindIsBest(s, m, k);
      RisingBest(Selected(shown, pred), m.bound, k);
      FindSelected(shown, pred, k);
    }
  }

  lemma InBound(s: seq<Rec>, shown: seq<Rec>, m: Mode)
    requires (forall r :: r in shown ==> Shows(m, r)) && forall r :: r in s ==> r in shown
    ensures forall i :: 0 <= i < |s| ==> m.bound == 0 || s[i].ver <= m.bound
  {
    forall i | 0 <= i < |s|
      ensures m.bound == 0 || s[i].ver <= m.bound
    {
      assert s[i] in s && s[i] in shown && Shows(m, s[i]);
    }
  }

  lemma {:induction false} FindSelected(s: seq<Rec>, pred: Key -> int, key: Key)
    ensures Find(Selected(s, pred), key) == if pred(key) == 0 then Find(s, key) else None
  {
    if s != [] {
      FindSelected(s[1..], pred, key);
      if pred(s[0].key) == 0 {
        assert Selected(s, pred)[1..] == Selected(s[1..], pred);
      } else {
        assert Selected(s, pred) == Selected(s[1..], pred);
      }
    }
  }
}
