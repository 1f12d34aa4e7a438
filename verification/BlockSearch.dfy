// Finding records in a decoded block.

module BlockSearch {
  import opened Bytes
  import opened Mvcc
  import opened Blocks

  // A block a builder can have written: in order, versions newest first.
  ghost predicate Searchable(image: Image, es: seq<Rec>)
  {
    Holds(image, es) && Ordered(es)
  }

  // The key of entry i, as the reading code gets it.
  method KeyOf(image: Image, i: nat, ghost es: seq<Rec>) returns (key: Key)
    requires Holds(image, es) && i < |es|
    ensures key == es[i].key
  {
    EntryAt(image, es, i);
    key := KeyAt(image.data, image.offsets[i]).value;
  }

  method VerOf(image: Image, i: nat, ghost es: seq<Rec>) returns (ver: nat)
    requires Holds(image, es) && i < |es|
    ensures ver == es[i].ver
  {
    EntryAt(image, es, i);
    ver := VerAt(image.data, image.offsets[i]).value;
  }

  lemma KeysAscend(es: seq<Rec>, i: nat, j: nat)
    requires Ordered(es) && i <= j < |es|
    ensures es[i].key == es[j].key || Less(es[i].key, es[j].key)
    ensures es[i].key == es[j].key ==> es[i].ver >= es[j].ver
  {
    assert i < j ==> !RecLess(es[j], es[i]);
    LessTotal(es[i].key, es[j].key);
  }

  // A key compared at one place decides one side of the block.
  lemma Below(es: seq<Rec>, mid: nat, key: Key)
    requires Ordered(es) && mid < |es|
    ensures Less(es[mid].key, key) ==> forall i :: 0 <= i <= mid ==> Less(es[i].key, key) && es[i].key != key
    ensures Less(key, es[mid].key) ==> forall i :: mid <= i < |es| ==> Less(key, es[i].key) && es[i].key != key
  {
    forall i | 0 <= i < |es|
      ensures i <= mid && Less(es[mid].key, key) ==> Less(es[i].key, key) && es[i].key != key
      ensures mid <= i && Less(key, es[mid].key) ==> Less(key, es[i].key) && es[i].key != key
    {
      LessTotal(es[i].key, key);
      if i <= mid {
        KeysAscend(es, i, mid);
        if Less(es[i].key, es[mid].key) && Less(es[mid].key, key) {
          LessTransitive(es[i].key, es[mid].key, key);
        }
      }
      if mid <= i {
        KeysAscend(es, mid, i);
        if Less(key, es[mid].key) && Less(es[mid].key, es[i].key) {
          LessTransitive(key, es[mid].key, es[i].key);
        }
      }
    }
  }

  // Back from any entry of a key to its newest version.
  method GroupFront(image: Image, idx: nat, key: Key, ghost es: seq<Rec>) returns (i: nat)
    requires Searchable(image, es) && idx < |es| && es[idx].key == key
    ensures i <= idx && es[i].key == key && forall j :: 0 <= j < i ==> es[j].key != key
  {
    i := idx;
    while i > 0
      invariant 0 <= i <= idx && es[i].key == key
      decreases i
    {
      var previous := KeyOf(image, i - 1, es);
      if previous != key {
        break;
      }
      i := i - 1;
    }
    GroupStarts(es, i, key);
  }

  // From any entry of a key to the first of its versions the read may see; None if it
  // may see none of them.
  method AdjustIdx(image: Image, idx: nat, bound: nat, skip: set<nat>, ghost es: seq<Rec>) returns (r: Option<nat>)
    requires Searchable(image, es) && idx < |es|
    ensures r.Some? ==> Wins(es, Query(es[idx].key, bound, skip), r.value)
    ensures r.None? ==> Best(es, Query(es[idx].key, bound, skip)).None?
  {
    var key := KeyOf(image, idx, es);
    ghost var q := Query(key, bound, skip);
    var i := GroupFront(image, idx, key, es);
    if bound == 0 && skip == {} {
      FirstWins(es, q, i);
      return Some(i);
    }
    while i < |image.offsets|
      invariant 0 <= i <= |es| && Passed(es, i, q)
    {
      var here := KeyOf(image, i, es);
      if here != key {
        break;
      }
      var ver := VerOf(image, i, es);
      if Admits(bound, skip, ver) {
        FirstWins(es, q, i);
        return Some(i);
      }
      i := i + 1;
    }
    GroupEnds(es, i, q);
    return None;
  }

  // Nothing before i answers the query, and i is in or just behind the key's group.
  ghost predicate Passed(es: seq<Rec>, i: nat, q: Query)
    requires i <= |es|
  {
    && (forall j :: 0 <= j < i ==> !Eligible(es[j], q))
    && ((i < |es| && es[i].key == q.key) || (i > 0 && es[i - 1].key == q.key))
  }

  // No earlier entry has the key, if the entry before has another one.
  lemma GroupStarts(es: seq<Rec>, i: nat, key: Key)
    requires Ordered(es) && i < |es| && es[i].key == key && (i > 0 ==> es[i - 1].key != key)
    ensures forall j :: 0 <= j < i ==> es[j].key != key
  {
    if i > 0 {
      KeysAscend(es, i - 1, i);
      Below(es, i - 1, key);
    }
  }

  lemma GroupEnds(es: seq<Rec>, i: nat, q: Query)
    requires Ordered(es) && i <= |es| && Passed(es, i, q) && (i < |es| ==> es[i].key != q.key)
    ensures Best(es, q).None?
  {
    if i < |es| {
      KeysAscend(es, i - 1, i);
      Below(es, i, q.key);
    }
    BestMeaning(es, q);
  }

  lemma FirstWins(es: seq<Rec>, q: Query, i: nat)
    requires Ordered(es) && i < |es| && Eligible(es[i], q)
    requires forall j :: 0 <= j < i ==> !Eligible(es[j], q)
    ensures Wins(es, q, i)
  {
    forall j | i <= j < |es| && Eligible(es[j], q)
      ensures es[j].ver <= es[i].ver
    {
      KeysAscend(es, i, j);
    }
  }

  // The binary search, then the choice among versions: the entry a linear scan of the
  // block would choose.
  method GetIdxBinary(image: Image, key: Key, bound: nat, skip: set<nat>, ghost es: seq<Rec>) returns (r: Option<nat>)
    requires Searchable(image, es)
    ensures r.Some? ==> Wins(es, Query(key, bound, skip), r.value)
    ensures r.None? ==> Best(es, Query(key, bound, skip)).None?
  {
    ghost var q := Query(key, bound, skip);
    var left, right := 0, |image.offsets|;
    while left < right
      invariant 0 <= left <= right <= |es|
      invariant forall i :: 0 <= i < left || right <= i < |es| ==> es[i].key != key
    {
      var mid := left + (right - left) / 2;
      var here := KeyOf(image, mid, es);
      Below(es, mid, key);
      LessTotal(here, key);
      if here == key {
        r := AdjustIdx(image, mid, bound, skip, es);
        return;
      } else if Less(key, here) {
        right := mid;
      } else {
        left := mid + 1;
      }
    }
    BestMeaning(es, q);
    return None;
  }

  // The stretch of entries a monotone predicate on keys selects, [first, end).
  method SelectRange(image: Image, pred: Key -> int, ghost es: seq<Rec>) returns (r: Option<(nat, nat)>)
    requires Searchable(image, es) && Monotone(pred)
    ensures r.None? ==> forall i :: 0 <= i < |es| ==> pred(es[i].key) != 0
    ensures r.Some? ==> r.value.0 < r.value.1 <= |es|
    ensures r.Some? ==> forall i :: 0 <= i < |es| ==> (r.value.0 <= i < r.value.1 <==> pred(es[i].key) == 0)
  {
    var left, right := 0, |image.offsets|;
    while left < right
      invariant 0 <= left <= right <= |es|
      invariant forall i :: 0 <= i < left ==> pred(es[i].key) > 0
      invariant forall i :: right <= i < |es| ==> pred(es[i].key) <= 0
    {
      var mid := left + (right - left) / 2;
      var here := KeyOf(image, mid, es);
      Falling(es, pred, mid);
      if pred(here) > 0 {
        left := mid + 1;
      } else {
        right := mid;
      }
    }
    if left >= |image.offsets| {
      return None;
    }
    var first := left;
    var key := KeyOf(image, first, es);
    Falling(es, pred, first);
    if pred(key) != 0 {
      return None;
    }
    right := |image.offsets|;
    while left < right
      invariant first <= left <= right <= |es|
      invariant forall i :: first <= i < left ==> pred(es[i].key) == 0
      invariant forall i :: right <= i < |es| ==> pred(es[i].key) < 0
      invariant forall i :: first <= i < |es| ==> pred(es[i].key) <= 0
      invariant left == first ==> right > first
    {
      var mid := left + (right - left) / 2;
      var here := KeyOf(image, mid, es);
      Falling(es, pred, mid);
      if pred(here) >= 0 {
        left := mid + 1;
      } else {
        right := mid;
      }
    }
    return Some((first, left));
  }

  lemma Falling(es: seq<Rec>, pred: Key -> int, mid: nat)
    requires Ordered(es) && Monotone(pred) && mid < |es|
    ensures pred(es[mid].key) > 0 ==> forall i :: 0 <= i <= mid ==> pred(es[i].key) > 0
    ensures pred(es[mid].key) == 0 ==> forall i :: 0 <= i <= mid ==> pred(es[i].key) >= 0
    ensures pred(es[mid].key) <= 0 ==> forall i :: mid <= i < |es| ==> pred(es[i].key) <= 0
    ensures pred(es[mid].key) < 0 ==> forall i :: mid <= i < |es| ==> pred(es[i].key) < 0
  {
    forall i | 0 <= i < |es|
      ensures i <= mid && pred(es[mid].key) > 0 ==> pred(es[i].key) > 0
      ensures i <= mid && pred(es[mid].key) == 0 ==> pred(es[i].key) >= 0
      ensures mid <= i && pred(es[mid].key) <= 0 ==> pred(es[i].key) <= 0
      ensures mid <= i && pred(es[mid].key) < 0 ==> pred(es[i].key) < 0
    {
      if i <= mid {
        KeysAscend(es, i, mid);
      } else {
        KeysAscend(es, mid, i);
      }
    }
  }
}
