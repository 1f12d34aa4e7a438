// The multi-level linked list under a memory table.

module SkipLists {
  import opened Bytes
  import opened Mvcc

  class SkipListNode {
    const key: Key
    const ver: nat
    // How many levels the node is linked into.
    const height: nat
    var value: ByteString
    var forward: seq<SkipListNode?>
    var backward: seq<SkipListNode?>

    constructor (key: Key, value: ByteString, level: nat, ver: nat)
      ensures this.key == key && this.value == value && this.ver == ver && height == level
      ensures forward == seq(level, _ => null) && backward == seq(level, _ => null)
    {
      this.key, this.value, this.ver, height := key, value, ver, level;
      forward, backward := seq(level, _ => null), seq(level, _ => null);
    }
  }

  // n is the first position after i whose node reaches the level; |all| if none does.
  ghost predicate IsNext(all: seq<SkipListNode>, i: int, n: int, level: nat)
  {
    0 <= i < n <= |all| && (n < |all| ==> all[n].height > level) && forall m :: i < m < n ==> all[m].height <= level
  }

  lemma {:induction false} NextExists(all: seq<SkipListNode>, i: nat, level: nat) returns (n: nat)
    requires i < |all|
    ensures IsNext(all, i, n, level)
    decreases |all| - i
  {
    n := i + 1;
    while n < |all| && all[n].height <= level
      invariant i < n <= |all| && forall m :: i < m < n ==> all[m].height <= level
    {
      n := n + 1;
    }
  }

  ghost function At(all: seq<SkipListNode>, i: nat): SkipListNode?
  {
    if i < |all| then all[i] else null
  }

  // The links of one level, in list order.
  ghost function Forwards(all: seq<SkipListNode>, level: nat): (f: seq<SkipListNode?>)
    reads all
    ensures |f| == |all|
    ensures forall i :: 0 <= i < |all| ==> f[i] == if level < |all[i].forward| then all[i].forward[level] else null
  {
    seq(|all|, i requires 0 <= i < |all| reads all => if level < |all[i].forward| then all[i].forward[level] else null)
  }

  ghost function Backwards(all: seq<SkipListNode>, level: nat): (b: seq<SkipListNode?>)
    reads all
    ensures |b| == |all|
    ensures forall i :: 0 <= i < |all| ==> b[i] == if level < |all[i].backward| then all[i].backward[level] else null
  {
    seq(|all|, i requires 0 <= i < |all| reads all => if level < |all[i].backward| then all[i].backward[level] else null)
  }

  // Forward links lead to the next node that reaches the level, and backward links
  // undo forward links.
  ghost predicate Column(all: seq<SkipListNode>, f: seq<SkipListNode?>, b: seq<SkipListNode?>, level: nat)
    requires |f| == |b| == |all|
  {
    forall i, n :: IsNext(all, i, n, level) && all[i].height > level ==>
                     f[i] == At(all, n) && (n < |all| ==> b[n] == all[i])
  }

  ghost predicate Linked(all: seq<SkipListNode>, level: nat)
    reads all`forward, all`backward
  {
    forall i, n :: IsNext(all, i, n, level) && all[i].height > level ==>
                     level < |all[i].forward| && all[i].forward[level] == At(all, n) &&
                     (n < |all| ==> level < |all[n].backward| && all[n].backward[level] == all[i])
  }

  ghost predicate AllLinked(all: seq<SkipListNode>, maxLevel: nat)
    reads all`forward, all`backward
  {
    forall l: nat :: l < maxLevel ==> Linked(all, l)
  }

  lemma LinkedIsColumn(all: seq<SkipListNode>, level: nat)
    requires forall m :: m in all ==> Shaped(m)
    ensures Linked(all, level) <==> Column(all, Forwards(all, level), Backwards(all, level), level)
  {
    forall i | 0 <= i < |all|
      ensures Shaped(all[i])
    {
      assert all[i] in all;
    }
  }

  ghost predicate Shaped(n: SkipListNode)
    reads n`forward, n`backward
  {
    |n.forward| == n.height && |n.backward| == n.height
  }

  ghost predicate Distinct(all: seq<SkipListNode>)
  {
    forall i, j :: 0 <= i < j < |all| ==> all[i] != all[j]
  }

  // t is s with x put after position p.
  ghost predicate IsPut<T>(s: seq<T>, t: seq<T>, p: nat, x: T)
    requires p < |s|
  {
    |t| == |s| + 1 && t[p + 1] == x &&
    (forall i :: 0 <= i <= p ==> t[i] == s[i]) &&
    (forall i :: p < i < |s| ==> t[i + 1] == s[i])
  }

  lemma ColumnInserted(all: seq<SkipListNode>, f: seq<SkipListNode?>, b: seq<SkipListNode?>,
                       all': seq<SkipListNode>, f': seq<SkipListNode?>, b': seq<SkipListNode?>,
                       p: nat, n: SkipListNode, u: nat, next: nat, level: nat)
    requires |f| == |b| == |all| && Column(all, f, b, level)
    requires u <= p < |all| && all[u].height > level && IsNext(all, u, next, level) && next > p && n.height > level
    requires IsPut(all, all', p, n) && |f'| == |b'| == |all'|
    requires f'[p + 1] == f[u] && f'[u] == n && b'[p + 1] == all[u]
    requires forall i :: 0 <= i <= p && i != u ==> f'[i] == f[i]
    requires forall i :: p < i < |all| ==> f'[i + 1] == f[i]
    requires forall i :: 0 <= i <= p ==> b'[i] == b[i]
    requires forall i :: p < i < |all| ==> b'[i + 1] == if i == next then n else b[i]
    ensures Column(all', f', b', level)
  {
    forall i, m | IsNext(all', i, m, level) && all'[i].height > level
      ensures f'[i] == At(all', m) && (m < |all'| ==> b'[m] == all'[i])
    {
      if i <= p && m <= p {
        assert IsNext(all, i, m, level);
      } else if i <= p {
        assert all'[p + 1].height > level;
        assert m == p + 1;
        assert all'[u] == all[u];
        assert i == u;
      } else if i == p + 1 {
        assert next < |all| ==> all'[next + 1] == all[next];
        assert forall k :: i < k < m ==> all'[k] == all[k - 1];
        assert m < |all'| ==> all'[m] == all[m - 1];
        assert m - 1 == next;
      } else {
        assert all'[i] == all[i - 1];
        assert forall k :: i < k < m ==> all'[k] == all[k - 1];
        assert m < |all'| ==> all'[m] == all[m - 1];
        assert IsNext(all, i - 1, m - 1, level);
        assert m - 1 != next;
      }
    }
  }

  lemma ForwardPut(f: seq<SkipListNode?>, f': seq<SkipListNode?>, p: nat, n: SkipListNode, u: nat)
    requires u <= p < |f| && IsPut(f[u := n], f', p, f[u])
    ensures |f'| == |f| + 1 && f'[p + 1] == f[u] && f'[u] == n
    ensures forall i :: 0 <= i <= p && i != u ==> f'[i] == f[i]
    ensures forall i :: p < i < |f| ==> f'[i + 1] == f[i]
  {
    var g := f[u := n];
    assert f'[u] == g[u];
    forall i | 0 <= i <= p && i != u
      ensures f'[i] == f[i]
    {
      assert f'[i] == g[i];
    }
    forall i | p < i < |f|
      ensures f'[i + 1] == f[i]
    {
      assert f'[i + 1] == g[i];
    }
  }

  lemma BackwardPut(b: seq<SkipListNode?>, b': seq<SkipListNode?>, p: nat, n: SkipListNode, prev: SkipListNode, next: nat)
    requires p < next && p < |b| && IsPut(if next < |b| then b[next := n] else b, b', p, prev)
    ensures |b'| == |b| + 1 && b'[p + 1] == prev
    ensures forall i :: 0 <= i <= p ==> b'[i] == b[i]
    ensures forall i :: p < i < |b| ==> b'[i + 1] == if i == next then n else b[i]
  {
    var h := if next < |b| then b[next := n] else b;
    forall i | 0 <= i <= p
      ensures b'[i] == b[i]
    {
      assert b'[i] == h[i];
    }
    forall i | p < i < |b|
      ensures b'[i + 1] == if i == next then n else b[i]
    {
      assert b'[i + 1] == h[i];
    }
  }

  lemma ColumnRelinked(all: seq<SkipListNode>, f: seq<SkipListNode?>, b: seq<SkipListNode?>,
                       all': seq<SkipListNode>, f': seq<SkipListNode?>, b': seq<SkipListNode?>,
                       p: nat, n: SkipListNode, u: nat, next: nat, level: nat)
    requires |f| == |b| == |all| && Column(all, f, b, level)
    requires u <= p < |all| && all[u].height > level && IsNext(all, u, next, level) && next > p && n.height > level
    requires IsPut(all, all', p, n) && IsPut(f[u := n], f', p, f[u])
    requires IsPut(if next < |b| then b[next := n] else b, b', p, all[u])
    ensures Column(all', f', b', level)
  {
    ForwardPut(f, f', p, n, u);
    BackwardPut(b, b', p, n, all[u], next);
    ColumnInserted(all, f, b, all', f', b', p, n, u, next, level);
  }

  // A level the new node does not reach stays as it was.
  lemma ColumnPassed(all: seq<SkipListNode>, f: seq<SkipListNode?>, b: seq<SkipListNode?>,
                     all': seq<SkipListNode>, f': seq<SkipListNode?>, b': seq<SkipListNode?>,
                     p: nat, n: SkipListNode, level: nat)
    requires |f| == |b| == |all| && Column(all, f, b, level) && p < |all|
    requires IsPut(all, all', p, n) && |f'| == |b'| == |all'| && n.height <= level
    requires forall i :: 0 <= i <= p ==> f'[i] == f[i] && b'[i] == b[i]
    requires forall i :: p < i < |all| ==> f'[i + 1] == f[i] && b'[i + 1] == b[i]
    ensures Column(all', f', b', level)
  {
    forall i, m | IsNext(all', i, m, level) && all'[i].height > level
      ensures f'[i] == At(all', m) && (m < |all'| ==> b'[m] == all'[i])
    {
      assert i != p + 1 && m != p + 1;
      var i0, m0 := if i <= p then i else i - 1, if m <= p then m else m - 1;
      assert all'[i] == all[i0] && (m0 < |all| ==> all'[m] == all[m0]);
      forall k | i0 < k < m0
        ensures all[k].height <= level
      {
        assert all[k] == all'[if k <= p then k else k + 1];
      }
      assert IsNext(all, i0, m0, level);
    }
  }

  // The converse: cutting the node behind position p out of a level it reaches.
  lemma ColumnDropped(all: seq<SkipListNode>, f: seq<SkipListNode?>, b: seq<SkipListNode?>,
                      all': seq<SkipListNode>, f': seq<SkipListNode?>, b': seq<SkipListNode?>,
                      p: nat, n: SkipListNode, u: nat, next: nat, level: nat)
    requires |f'| == |b'| == |all'| && Column(all', f', b', level) && p < |all|
    requires IsPut(all, all', p, n) && |f| == |b| == |all| && n.height > level
    requires u <= p && all'[u].height > level && IsNext(all', u, p + 1, level) && IsNext(all', p + 1, next, level)
    requires f[u] == f'[p + 1]
    requires forall i :: 0 <= i <= p && i != u ==> f[i] == f'[i]
    requires forall i :: p < i < |all| ==> f[i] == f'[i + 1]
    requires forall i :: 0 <= i <= p ==> b[i] == b'[i]
    requires forall i :: p < i < |all| ==> b[i] == if i + 1 == next then all[u] else b'[i + 1]
    ensures Column(all, f, b, level)
  {
    forall i, m | IsNext(all, i, m, level) && all[i].height > level
      ensures f[i] == At(all, m) && (m < |all| ==> b[m] == all[i])
    {
      assert all'[u] == all[u];
      if i == u {
        forall k | u < k < next - 1
          ensures all[k].height <= level
        {
          assert all[k] == all'[if k <= p then k else k + 1];
        }
        assert next < |all'| ==> all'[next] == all[next - 1];
        assert m == next - 1;
      } else if i <= p {
        assert all'[i] == all[i] && i < u && m <= u;
        assert IsNext(all', i, m, level);
      } else {
        assert all'[i + 1] == all[i];
        assert m < |all| ==> all'[m + 1] == all[m];
        forall k | i + 1 < k < m + 1
          ensures all'[k].height <= level
        {
          assert all'[k] == all[k - 1];
        }
        assert IsNext(all', i + 1, m + 1, level);
        assert m + 1 != next;
      }
    }
  }

  // A level the node does not reach.
  lemma ColumnUntouched(all: seq<SkipListNode>, f: seq<SkipListNode?>, b: seq<SkipListNode?>,
                        all': seq<SkipListNode>, f': seq<SkipListNode?>, b': seq<SkipListNode?>,
                        p: nat, n: SkipListNode, level: nat)
    requires |f'| == |b'| == |all'| && Column(all', f', b', level) && p < |all|
    requires IsPut(all, all', p, n) && |f| == |b| == |all| && n.height <= level
    requires forall i :: 0 <= i <= p ==> f[i] == f'[i] && b[i] == b'[i]
    requires forall i :: p < i < |all| ==> f[i] == f'[i + 1] && b[i] == b'[i + 1]
    ensures Column(all, f, b, level)
  {
    forall i, m | IsNext(all, i, m, level) && all[i].height > level
      ensures f[i] == At(all, m) && (m < |all| ==> b[m] == all[i])
    {
      var i1, m1 := if i <= p then i else i + 1, if m <= p then m else m + 1;
      assert all'[i1] == all[i] && (m < |all| ==> all'[m1] == all[m]);
      forall k | i1 < k < m1
        ensures all'[k].height <= level
      {
        assert k != p + 1 ==> all'[k] == all[if k <= p then k else k - 1];
      }
      assert IsNext(all', i1, m1, level);
    }
  }

  lemma PutMembers(all: seq<SkipListNode>, all': seq<SkipListNode>, p: nat, n: SkipListNode)
    requires p < |all| && IsPut(all, all', p, n)
    ensures forall i :: 0 <= i < |all'| ==> all'[i] in all || all'[i] == n
  {
    forall i | 0 <= i < |all'|
      ensures all'[i] in all || all'[i] == n
    {
      if i <= p {
        assert all'[i] == all[i];
      } else if i > p + 1 {
        assert all'[i] == all[i - 1];
      }
    }
  }

  // Hooks n in behind prev at one level.
  method Splice(prev: SkipListNode, n: SkipListNode, level: nat)
    requires prev != n && Shaped(n) && Shaped(prev) && n.height > level && prev.height > level
    requires prev.forward[level] != null ==> prev.forward[level] != n && prev.forward[level] != prev &&
                                             Shaped(prev.forward[level]) && prev.forward[level].height > level
    modifies n`forward, n`backward, prev`forward, (if prev.forward[level] == null then {} else {prev.forward[level]})`backward
    ensures n.forward == old(n.forward)[level := old(prev.forward[level])]
    ensures n.backward == old(n.backward)[level := prev]
    ensures prev.forward == old(prev.forward)[level := n]
    ensures old(prev.forward[level]) != null ==>
              old(prev.forward[level]).backward == old(prev.forward[level].backward)[level := n]
    ensures SameBut(old(n.forward), n.forward, level) && SameBut(old(prev.forward), prev.forward, level)
    ensures SameBut(old(n.backward), n.backward, level)
    ensures old(prev.forward[level]) != null ==>
              SameBut(old(prev.forward[level].backward), old(prev.forward[level]).backward, level)
  {
    // the new node points on to the successor, the predecessor points to the new node
    n.forward := n.forward[level := prev.forward[level]];
    prev.forward := prev.forward[level := n];
    // and the same backwards
    n.backward := n.backward[level := prev];
    var succ := n.forward[level];
    if succ != null {
      succ.backward := succ.backward[level := n];
    }
  }

  // The links of the old list's nodes are among those of the new list.
  lemma PutColumns(all: seq<SkipListNode>, all': seq<SkipListNode>, p: nat, n: SkipListNode, level: nat)
    requires p < |all| && IsPut(all, all', p, n)
    requires n.height > level && Shaped(n)
    ensures IsPut(Forwards(all, level), Forwards(all', level), p, n.forward[level])
    ensures IsPut(Backwards(all, level), Backwards(all', level), p, n.backward[level])
  {
  }

  // Relinked columns of the old list make the new list well linked.
  lemma Spliced(n: SkipListNode, level: nat, f: seq<SkipListNode?>, b: seq<SkipListNode?>,
                all: seq<SkipListNode>, all': seq<SkipListNode>, p: nat, u: nat, next: nat)
    requires u <= p < |all| && all[u].height > level && IsNext(all, u, next, level) && next > p
    requires IsPut(all, all', p, n) && n.height > level && Shaped(n)
    requires |f| == |b| == |all| && Column(all, f, b, level)
    requires n.forward[level] == f[u] && n.backward[level] == all[u]
    requires Forwards(all, level)[u] == n && (next < |all| ==> Backwards(all, level)[next] == n)
    requires forall i :: 0 <= i < |all| && i != u ==> Forwards(all, level)[i] == f[i]
    requires forall i :: 0 <= i < |all| && i != next ==> Backwards(all, level)[i] == b[i]
    requires forall m :: m in all ==> Shaped(m)
    ensures Linked(all', level)
  {
    var f', b' := Forwards(all', level), Backwards(all', level);
    assert Forwards(all, level) == f[u := n];
    assert Backwards(all, level) == if next < |b| then b[next := n] else b;
    PutColumns(all, all', p, n, level);
    ColumnRelinked(all, f, b, all', f', b', p, n, u, next, level);
    PutMembers(all, all', p, n);
    LinkedIsColumn(all', level);
  }

  ghost predicate ReadyToLink(prev: SkipListNode, n: SkipListNode, level: nat, all: seq<SkipListNode>,
                              all': seq<SkipListNode>, p: nat, u: nat, next: nat)
    reads all, n
  {
    && u <= p < |all| && all[u] == prev && prev.height > level && IsNext(all, u, next, level) && next > p
    && Distinct(all) && n !in all && Linked(all, level) && IsPut(all, all', p, n)
    && n.height > level && Shaped(n) && forall m :: m in all ==> Shaped(m)
  }

  // Hooks n in after position p at one level; prev is the last node up to p that
  // reaches the level.
  method LinkAfter(prev: SkipListNode, n: SkipListNode, level: nat,
                   ghost all: seq<SkipListNode>, ghost all': seq<SkipListNode>, ghost p: nat, ghost u: nat, ghost next: nat)
    requires ReadyToLink(prev, n, level, all, all', p, u, next)
    modifies n`forward, n`backward, prev`forward, (if next < |all| then {all[next]} else {})`backward
    ensures Linked(all', level)
    ensures SameBut(old(n.forward), n.forward, level) && SameBut(old(prev.forward), prev.forward, level)
    ensures SameBut(old(n.backward), n.backward, level)
    ensures next < |all| ==> SameBut(old(all[next].backward), all[next].backward, level)
  {
    ghost var f, b := Forwards(all, level), Backwards(all, level);
    LinkedIsColumn(all, level);
    assert prev in all && prev.forward[level] == At(all, next);
    Splice(prev, n, level);
    Spliced(n, level, f, b, all, all', p, u, next);
  }

  twostate predicate KeptBut(list: seq<SkipListNode>, level: nat)
    reads list
  {
    forall i :: 0 <= i < |list| ==>
                  SameBut(old(list[i].forward), list[i].forward, level) && SameBut(old(list[i].backward), list[i].backward, level)
  }

  // Seen from the whole list, only links of that level have changed.
  method LinkLevel(prev: SkipListNode, n: SkipListNode, level: nat,
                   ghost all: seq<SkipListNode>, ghost all': seq<SkipListNode>, ghost p: nat, ghost u: nat, ghost next: nat)
    requires ReadyToLink(prev, n, level, all, all', p, u, next)
    modifies n`forward, n`backward, all`forward, all`backward
    ensures Linked(all', level)
    ensures forall m :: m in all || m == n ==>
                          SameBut(old(m.forward), m.forward, level) && SameBut(old(m.backward), m.backward, level)
  {
    assert prev in all && (next < |all| ==> all[next] in all);
    LinkAfter(prev, n, level, all, all', p, u, next);
  }

  method LinkListed(prev: SkipListNode, n: SkipListNode, level: nat,
                    ghost all: seq<SkipListNode>, ghost all': seq<SkipListNode>, ghost p: nat, ghost u: nat, ghost next: nat)
    requires ReadyToLink(prev, n, level, all, all', p, u, next)
    modifies n`forward, n`backward, all`forward, all`backward
    ensures Linked(all', level) && AllShaped(all, n)
    ensures KeptBut(all, level) && KeptBut(all', level)
  {
    LinkLevel(prev, n, level, all, all', p, u, next);
    PutMembers(all, all', p, n);
  }

  ghost predicate SameBut(a: seq<SkipListNode?>, b: seq<SkipListNode?>, level: nat)
  {
    |a| == |b| && forall l :: 0 <= l < |a| && l != level ==> a[l] == b[l]
  }

  // On a level, update holds the last node up to p and nexts the position behind it.
  ghost predicate Tracked(all: seq<SkipListNode>, update: seq<SkipListNode?>, us: seq<nat>, nexts: seq<nat>, p: nat, level: nat)
  {
    && |update| == |us| == |nexts| && level < |update|
    && us[level] <= p < |all| && update[level] == all[us[level]] && all[us[level]].height > level
    && IsNext(all, us[level], nexts[level], level) && nexts[level] > p
  }

  ghost predicate AllShaped(all: seq<SkipListNode>, n: SkipListNode)
    reads all, n
  {
    Shaped(n) && forall m :: m in all ==> Shaped(m)
  }

  // The other levels of either list stay as they were.
  method LinkOne(prev: SkipListNode, n: SkipListNode, level: nat,
                 ghost all: seq<SkipListNode>, ghost all': seq<SkipListNode>, ghost p: nat, ghost u: nat, ghost next: nat)
    requires ReadyToLink(prev, n, level, all, all', p, u, next)
    modifies n`forward, n`backward, all`forward, all`backward
    ensures Linked(all', level) && AllShaped(all, n)
    ensures forall l: nat :: l != level && old(Linked(all, l)) ==> Linked(all, l)
    ensures forall l: nat :: l != level && old(Linked(all', l)) ==> Linked(all', l)
  {
    LinkListed(prev, n, level, all, all', p, u, next);
  }

  lemma HigherLevels(all: seq<SkipListNode>, all': seq<SkipListNode>, p: nat, n: SkipListNode, level: nat)
    requires p < |all| && IsPut(all, all', p, n) && Linked(all, level) && n.height <= level && AllShaped(all, n)
    ensures Linked(all', level)
  {
    LinkedIsColumn(all, level);
    PutMembers(all, all', p, n);
    LinkedIsColumn(all', level);
    ColumnPassed(all, Forwards(all, level), Backwards(all, level), all', Forwards(all', level), Backwards(all', level),
                 p, n, level);
  }

  // Links n into every level it reaches, from the bottom up.
  method LinkAll(n: SkipListNode, update: seq<SkipListNode?>, ghost all: seq<SkipListNode>, ghost all': seq<SkipListNode>,
                 ghost p: nat, ghost us: seq<nat>, ghost nexts: seq<nat>, ghost maxLevel: nat)
    requires Distinct(all) && n !in all && p < |all| && IsPut(all, all', p, n) && AllShaped(all, n)
    requires n.height <= maxLevel && AllLinked(all, maxLevel)
    requires forall l: nat :: l < n.height ==> Tracked(all, update, us, nexts, p, l)
    modifies n`forward, n`backward, all`forward, all`backward
    ensures AllShaped(all, n) && AllLinked(all', maxLevel)
  {
    var level := 0;
    while level < n.height
      invariant 0 <= level <= n.height && AllShaped(all, n)
      invariant forall l: nat :: l < level ==> Linked(all', l)
      invariant forall l: nat :: level <= l < maxLevel ==> Linked(all, l)
    {
      assert Tracked(all, update, us, nexts, p, level);
      LinkOne(update[level], n, level, all, all', p, us[level], nexts[level]);
      level := level + 1;
    }
    forall l: nat | n.height <= l < maxLevel
      ensures Linked(all', l)
    {
      HigherLevels(all, all', p, n, l);
    }
  }

  // Cuts n out from behind prev at one level.
  method Unsplice(prev: SkipListNode, n: SkipListNode, level: nat)
    requires prev != n && Shaped(n) && Shaped(prev) && n.height > level && prev.height > level
    requires n.forward[level] != null ==> n.forward[level] != n && n.forward[level] != prev &&
                                          Shaped(n.forward[level]) && n.forward[level].height > level
    modifies prev`forward, (if n.forward[level] == null then {} else {n.forward[level]})`backward
    ensures prev.forward == old(prev.forward)[level := n.forward[level]]
    ensures n.forward[level] != null ==>
              n.forward[level].backward == old(n.forward[level].backward)[level := prev]
    ensures SameBut(old(prev.forward), prev.forward, level)
    ensures n.forward[level] != null ==> SameBut(old(n.forward[level].backward), n.forward[level].backward, level)
  {
    // the predecessor skips the node
    prev.forward := prev.forward[level := n.forward[level]];
    // and the successor points back past it
    var succ := n.forward[level];
    if succ != null {
      succ.backward := succ.backward[level := prev];
    }
  }

  ghost predicate ReadyToUnlink(prev: SkipListNode, n: SkipListNode, level: nat, all: seq<SkipListNode>,
                                all': seq<SkipListNode>, p: nat, u: nat, next: nat)
    reads all', n
  {
    && p < |all| && u <= p && IsPut(all, all', p, n) && Distinct(all') && all[u] == prev
    && prev.height > level && n.height > level && IsNext(all', u, p + 1, level) && IsNext(all', p + 1, next, level)
    && Linked(all', level) && forall m :: m in all' ==> Shaped(m)
  }

  method UnlinkAfter(prev: SkipListNode, n: SkipListNode, level: nat,
                     ghost all: seq<SkipListNode>, ghost all': seq<SkipListNode>, ghost p: nat, ghost u: nat, ghost next: nat)
    requires ReadyToUnlink(prev, n, level, all, all', p, u, next)
    modifies prev`forward, (if next < |all'| then {all'[next]} else {})`backward
    ensures Linked(all, level)
    ensures SameBut(old(prev.forward), prev.forward, level)
    ensures next < |all'| ==> SameBut(old(all'[next].backward), all'[next].backward, level)
  {
    ghost var f', b' := Forwards(all', level), Backwards(all', level);
    LinkedIsColumn(all', level);
    assert all'[u] == prev && all'[p + 1] == n && prev in all' && n in all' && n.forward[level] == At(all', next);
    Unsplice(prev, n, level);
    Unspliced(prev, n, level, f', b', all, all', p, u, next);
  }

  // Relinked columns of the old list make the shorter list well linked.
  lemma Unspliced(prev: SkipListNode, n: SkipListNode, level: nat, f': seq<SkipListNode?>, b': seq<SkipListNode?>,
                  all: seq<SkipListNode>, all': seq<SkipListNode>, p: nat, u: nat, next: nat)
    requires |f'| == |b'| == |all'| && Column(all', f', b', level) && p < |all| && Distinct(all')
    requires IsPut(all, all', p, n) && n.height > level && u <= p && all[u] == prev && prev.height > level
    requires IsNext(all', u, p + 1, level) && IsNext(all', p + 1, next, level)
    requires forall m :: m in all' ==> Shaped(m)
    requires Forwards(all', level)[u] == f'[p + 1]
    requires next < |all'| ==> Backwards(all', level)[next] == prev
    requires forall i :: 0 <= i < |all'| && i != u ==> Forwards(all', level)[i] == f'[i]
    requires forall i :: 0 <= i < |all'| && i != next ==> Backwards(all', level)[i] == b'[i]
    ensures Linked(all, level)
  {
    var f, b := Forwards(all, level), Backwards(all, level);
    forall i | 0 <= i < |all|
      ensures f[i] == Forwards(all', level)[if i <= p then i else i + 1]
      ensures b[i] == Backwards(all', level)[if i <= p then i else i + 1]
      ensures all[i] in all'
    {
      assert all[i] == all'[if i <= p then i else i + 1];
    }
    ColumnDropped(all, f, b, all', f', b', p, n, u, next, level);
    LinkedIsColumn(all, level);
  }

  method UnlinkListed(prev: SkipListNode, n: SkipListNode, level: nat,
                      ghost all: seq<SkipListNode>, ghost all': seq<SkipListNode>, ghost p: nat, ghost u: nat, ghost next: nat)
    requires ReadyToUnlink(prev, n, level, all, all', p, u, next)
    modifies all'`forward, all'`backward
    ensures Linked(all, level) && KeptBut(all', level) && KeptBut(all, level)
    ensures forall m :: m in all' ==> Shaped(m)
  {
    assert all'[u] == prev && prev in all' && (next < |all'| ==> all'[next] in all');
    UnlinkAfter(prev, n, level, all, all', p, u, next);
    forall i | 0 <= i < |all|
      ensures all[i] in all'
    {
      assert all[i] == all'[if i <= p then i else i + 1];
    }
  }

  method UnlinkOne(prev: SkipListNode, n: SkipListNode, level: nat,
                   ghost all: seq<SkipListNode>, ghost all': seq<SkipListNode>, ghost p: nat, ghost u: nat, ghost next: nat)
    requires ReadyToUnlink(prev, n, level, all, all', p, u, next)
    modifies all'`forward, all'`backward
    ensures Linked(all, level) && forall m :: m in all' ==> Shaped(m)
    ensures forall l: nat :: l != level && old(Linked(all, l)) ==> Linked(all, l)
    ensures forall l: nat :: l != level && old(Linked(all', l)) ==> Linked(all', l)
  {
    UnlinkListed(prev, n, level, all, all', p, u, next);
  }

  lemma HigherLevelsKept(all: seq<SkipListNode>, all': seq<SkipListNode>, p: nat, n: SkipListNode, level: nat)
    requires p < |all| && IsPut(all, all', p, n) && Linked(all', level) && n.height <= level
    requires forall m :: m in all' ==> Shaped(m)
    ensures Linked(all, level)
  {
    LinkedIsColumn(all', level);
    forall i | 0 <= i < |all|
      ensures all[i] in all'
    {
      assert all[i] == all'[if i <= p then i else i + 1];
    }
    ColumnUntouched(all, Forwards(all, level), Backwards(all, level), all', Forwards(all', level), Backwards(all', level),
                    p, n, level);
    LinkedIsColumn(all, level);
  }

  // Takes n, which stands behind position p, out of every level it reaches.
  method UnlinkAll(n: SkipListNode, update: seq<SkipListNode?>, ghost all: seq<SkipListNode>, ghost all': seq<SkipListNode>,
                   ghost p: nat, ghost us: seq<nat>, ghost nexts: seq<nat>, ghost maxLevel: nat)
    requires Distinct(all') && p < |all| && IsPut(all, all', p, n) && forall m :: m in all' ==> Shaped(m)
    requires n.height <= maxLevel && AllLinked(all', maxLevel)
    requires forall l: nat :: l < n.height ==> Tracked(all', update, us, nexts, p, l)
    modifies all'`forward, all'`backward
    ensures (forall m :: m in all' ==> Shaped(m)) && AllLinked(all, maxLevel)
  {
    var level := 0;
    while level < n.height
      invariant 0 <= level <= n.height && forall m :: m in all' ==> Shaped(m)
      invariant forall l: nat :: l < level ==> Linked(all, l)
      invariant forall l: nat :: level <= l < maxLevel ==> Linked(all', l)
    {
      assert Tracked(all', update, us, nexts, p, level);
      ghost var next := NextExists(all', p + 1, level);
      assert all'[p + 1] == n && all[us[level]] == all'[us[level]];
      assert nexts[level] == p + 1;
      UnlinkOne(update[level], n, level, all, all', p, us[level], next);
      level := level + 1;
    }
    forall l: nat | n.height <= l < maxLevel
      ensures Linked(all, l)
    {
      HigherLevelsKept(all, all', p, n, l);
    }
  }

  // The records of a table after one write: inserted in order, or its value replaced.
  function Upsert(s: seq<Rec>, r: Rec): seq<Rec>
  {
    if s == [] then [r]
    else if s[0].key == r.key && s[0].ver == r.ver then [r] + s[1..]
    else if RecLess(s[0], r) then [s[0]] + Upsert(s[1..], r)
    else [r] + s
  }

  lemma {:induction false} UpsertAt(s: seq<Rec>, r: Rec, p: nat)
    requires p <= |s| && forall i :: 0 <= i < p ==> RecLess(s[i], r)
    ensures p < |s| && s[p].key == r.key && s[p].ver == r.ver ==> Upsert(s, r) == s[p := r]
    ensures p == |s| || RecLess(r, s[p]) ==> Upsert(s, r) == s[..p] + [r] + s[p..]
  {
    RecOrder();
    if p > 0 {
      UpsertAt(s[1..], r, p - 1);
    }
  }

  // The records after removing the newest version of a key.
  function DropNewest(s: seq<Rec>, key: Key): seq<Rec>
  {
    if s == [] then [] else if s[0].key == key then s[1..] else [s[0]] + DropNewest(s[1..], key)
  }

  lemma {:induction false} DropAt(s: seq<Rec>, key: Key, p: nat)
    requires p < |s| && s[p].key == key && forall i :: 0 <= i < p ==> s[i].key != key
    ensures DropNewest(s, key) == s[..p] + s[p + 1..]
  {
    if p > 0 {
      DropAt(s[1..], key, p - 1);
      assert [s[0]] + (s[1..][..p - 1] + s[1..][p..]) == s[..p] + s[p + 1..];
    }
  }

  lemma {:induction false} DropNothing(s: seq<Rec>, key: Key)
    requires forall i :: 0 <= i < |s| ==> s[i].key != key
    ensures DropNewest(s, key) == s
  {
    if s != [] {
      DropNothing(s[1..], key);
    }
  }

  // Total of key, value and version bytes.
  function SizeOf(s: seq<Rec>): nat
  {
    if s == [] then 0 else |s[0].key| + |s[0].value| + 8 + SizeOf(s[1..])
  }

  lemma {:induction false} SizeOfAppend(s: seq<Rec>, t: seq<Rec>)
    ensures SizeOf(s + t) == SizeOf(s) + SizeOf(t)
  {
    if s == [] {
      assert s + t == t;
    } else {
      assert (s + t)[1..] == s[1..] + t;
      SizeOfAppend(s[1..], t);
    }
  }

  lemma SizeOfReplace(s: seq<Rec>, p: nat, r: Rec)
    requires p < |s|
    ensures SizeOf(s) == SizeOf(s[..p] + s[p + 1..]) + SizeOf([s[p]])
    ensures SizeOf(s[p := r]) == SizeOf(s[..p] + s[p + 1..]) + SizeOf([r])
  {
    var front, back := s[..p], s[p + 1..];
    assert s == front + [s[p]] + back && s[p := r] == front + [r] + back;
    SizeOfAppend(front + [s[p]], back);
    SizeOfAppend(front + [r], back);
    SizeOfAppend(front, [s[p]]);
    SizeOfAppend(front, [r]);
    SizeOfAppend(front, back);
  }

  lemma SizeOfInsert(s: seq<Rec>, p: nat, r: Rec)
    requires p <= |s|
    ensures SizeOf(s[..p] + [r] + s[p..]) == SizeOf(s) + SizeOf([r])
  {
    SizeOfThree(s[..p], r, s[p..]);
    assert s == s[..p] + s[p..];
  }

  lemma SizeOfThree(a: seq<Rec>, r: Rec, b: seq<Rec>)
    ensures SizeOf(a + [r] + b) == SizeOf(a + b) + SizeOf([r])
  {
    SizeOfAppend(a + [r], b);
    SizeOfAppend(a, [r]);
    SizeOfAppend(a, b);
  }

  lemma StrictReplace(s: seq<Rec>, p: nat, r: Rec)
    requires Strict(s) && p < |s| && s[p].key == r.key && s[p].ver == r.ver
    ensures Strict(s[p := r])
  {
    var t := s[p := r];
    forall i, j | 0 <= i < j < |t|
      ensures RecLess(t[i], t[j])
    {
      assert RecLess(s[i], s[j]);
    }
  }

  lemma StrictInsert(s: seq<Rec>, p: nat, r: Rec)
    requires Strict(s) && p <= |s|
    requires forall i :: 0 <= i < p ==> RecLess(s[i], r)
    requires p < |s| ==> RecLess(r, s[p])
    ensures Strict(s[..p] + [r] + s[p..])
  {
    RecOrder();
    var t := s[..p] + [r] + s[p..];
    forall i, j | 0 <= i < j < |t|
      ensures RecLess(t[i], t[j])
    {
      if j > p && i < p {
        assert RecLess(s[i], s[j - 1]);
      } else if i == p {
        assert p < j - 1 ==> RecLess(s[p], s[j - 1]);
      } else if i > p {
        assert RecLess(s[i - 1], s[j - 1]);
      }
    }
  }

  ghost predicate Records(nodes: seq<SkipListNode>, contents: seq<Rec>)
    reads nodes
  {
    |contents| == |nodes| &&
    forall i :: 0 <= i < |nodes| ==> contents[i] == Rec(nodes[i].key, nodes[i].value, nodes[i].ver)
  }

  lemma Recorded(nodes: seq<SkipListNode>, contents: seq<Rec>, p: nat, n: SkipListNode)
    requires Records(nodes, contents) && p <= |nodes|
    ensures Records(nodes[..p] + [n] + nodes[p..], contents[..p] + [Rec(n.key, n.value, n.ver)] + contents[p..])
    ensures forall m :: m in nodes[..p] + [n] + nodes[p..] ==> m in nodes || m == n
  {
  }

  lemma HeightsAfter(nodes: seq<SkipListNode>, p: nat, n: SkipListNode, limit: nat, limit': nat)
    requires p <= |nodes| && 1 <= n.height <= limit' && limit <= limit' && forall m :: m in nodes ==> 1 <= m.height <= limit
    ensures forall m :: m in nodes[..p] + [n] + nodes[p..] ==> 1 <= m.height <= limit'
  {
  }

  lemma ShapedAfter(head: SkipListNode, nodes: seq<SkipListNode>, p: nat, n: SkipListNode)
    requires p <= |nodes| && Shaped(n) && forall m :: m in [head] + nodes ==> Shaped(m)
    ensures forall m :: m in [head] + (nodes[..p] + [n] + nodes[p..]) ==> Shaped(m)
  {
    forall m | m in [head] + (nodes[..p] + [n] + nodes[p..])
      ensures m == n || m in [head] + nodes
    {
    }
  }

  // A table in order, passed around without a look inside.
  ghost predicate Whole(head: SkipListNode, nodes: seq<SkipListNode>, contents: seq<Rec>, level: nat, maxLevel: nat, size: nat)
    reads head, nodes
  {
    forall x :: Opened(x) ==> InOrder(head, nodes, contents, level, maxLevel, size)
  }

  // The list is in strict order on every level, each level a part of the one below, and
  // the other fields say what its nodes hold.
  lemma RecordsLess(nodes: seq<SkipListNode>, contents: seq<Rec>, p: nat)
    requires Records(nodes, contents) && Strict(contents) && p < |nodes|
    ensures Records(nodes[..p] + nodes[p + 1..], contents[..p] + contents[p + 1..])
    ensures Strict(contents[..p] + contents[p + 1..])
    ensures SizeOf([contents[p]]) == |nodes[p].key| + |nodes[p].value| + 8
  {
  }

  ghost predicate InOrder(head: SkipListNode, nodes: seq<SkipListNode>, contents: seq<Rec>, level: nat, maxLevel: nat, size: nat)
    reads head, nodes
  {
    var all := [head] + nodes;
    && Distinct(all)
    && 1 <= level <= maxLevel == head.height
    && (forall n :: n in nodes ==> 1 <= n.height <= level)
    && (forall n :: n in all ==> Shaped(n))
    && AllLinked(all, maxLevel)
    && Records(nodes, contents)
    && Strict(contents)
    && size == SizeOf(contents)
  }

  class SkipList {
    var head: SkipListNode
    const maxLevel: nat
    var currentLevel: nat
    var sizeBytes: nat

    // The nodes in list order, without the head, and what they record.
    ghost var nodes: seq<SkipListNode>
    ghost var contents: seq<Rec>

    ghost predicate Valid()
      reads this, head, nodes
    {
      InOrder(head, nodes, contents, currentLevel, maxLevel, sizeBytes)
    }

    constructor (maxLevel: nat)
      requires maxLevel >= 1
      ensures Valid() && contents == [] && this.maxLevel == maxLevel && fresh(head)
    {
      this.maxLevel := maxLevel;
      currentLevel, sizeBytes := 1, 0;
      nodes, contents := [], [];
      var h := new SkipListNode([], [], maxLevel, 0);
      head := h;
    }

    ghost function All(): (all: seq<SkipListNode>)
      reads this
      ensures |all| == |nodes| + 1 && all[0] == head && forall i :: 0 < i < |all| ==> all[i] == nodes[i - 1]
    {
      [head] + nodes
    }

    // Where the forward link of a node leads.
    lemma Follow(c: nat, level: nat) returns (n: nat)
      requires Valid() && c < |All()| && All()[c].height > level
      ensures IsNext(All(), c, n, level) && Shaped(All()[c]) && All()[c].forward[level] == At(All(), n)
      ensures level == 0 ==> n == c + 1
      ensures level < maxLevel
    {
      var all := All();
      n := NextExists(all, c, level);
      assert all[c] in all;
      assert c > 0 ==> nodes[c - 1] in nodes;
      assert c + 1 < |all| ==> all[c + 1] == nodes[c] && nodes[c] in nodes;
      assert Linked(all, level);
      assert Forwards(all, level)[c] == At(all, n);
    }

    // Positions at or past the first one that is not below stay not below.
    lemma KeysAscend(i: nat, j: nat)
      requires Valid() && i <= j < |nodes|
      ensures nodes[i].key == nodes[j].key || Less(nodes[i].key, nodes[j].key)
      ensures i < j ==> RecLess(contents[i], contents[j])
    {
      assert i < j ==> RecLess(contents[i], contents[j]);
    }

    // Nothing before position p answers the query, and position p is not below its key.
    ghost predicate Searched(p: nat, q: Query)
      reads this
    {
      && p <= |contents|
      && (forall i :: 0 <= i < p ==> !Eligible(contents[i], q))
      && (p < |contents| ==> !Less(contents[p].key, q.key))
    }

    lemma SearchOn(p: nat, q: Query)
      requires Valid() && Searched(p, q) && p < |contents| && !Eligible(contents[p], q)
      ensures Searched(p + 1, q)
    {
      if p + 1 < |contents| && Less(contents[p + 1].key, q.key) {
        KeysAscend(p, p + 1);
        if contents[p].key != contents[p + 1].key {
          LessTransitive(contents[p].key, contents[p + 1].key, q.key);
        }
      }
    }

    lemma FoundAt(p: nat, q: Query)
      requires Valid() && Searched(p, q) && p < |contents| && Eligible(contents[p], q)
      ensures Best(contents, q) == Some(contents[p])
    {
      forall i | p < i < |contents| && Eligible(contents[i], q)
        ensures contents[i].ver < contents[p].ver
      {
        assert RecLess(contents[p], contents[i]);
        LessTotal(q.key, q.key);
      }
      assert Wins(contents, q, p);
      BestIs(contents, q, p);
    }

    lemma NotFound(p: nat, q: Query)
      requires Valid() && Searched(p, q) && (p < |contents| ==> contents[p].key != q.key)
      ensures Best(contents, q).None?
    {
      if p < |contents| {
        LessTotal(q.key, contents[p].key);
      }
      forall i | p <= i < |contents|
        ensures contents[i].key != q.key
      {
        KeysAscend(p, i);
        LessTotal(q.key, contents[p].key);
      }
      BestMeaning(contents, q);
    }

    // The walk down the levels stops on each before the first key that is not below
    // the one looked for; among the versions of the key the first admitted one wins.
    method Get(key: Key, bound: nat, skip: set<nat>) returns (found: SkipListNode?)
      requires Valid()
      ensures found == null ==> Best(contents, Query(key, bound, skip)).None?
      ensures found != null ==> found in nodes &&
                                Best(contents, Query(key, bound, skip)) == Some(Rec(found.key, found.value, found.ver))
    {
      var current, c := Descend(key);
      ghost var q := Query(key, bound, skip);
      var candidate := After(current, c);
      while candidate != null && candidate.key == key
        invariant Searched(c, q) && candidate == At(nodes, c)
        decreases |nodes| - c
      {
        if Admits(bound, skip, candidate.ver) {
          FoundAt(c, q);
          return candidate;
        }
        SearchOn(c, q);
        c := c + 1;
        candidate := After(candidate, c);
      }
      NotFound(c, q);
      found := null;
    }

    // One step along the bottom level.
    method After(n: SkipListNode, ghost c: nat) returns (next: SkipListNode?)
      requires Valid() && c <= |nodes| && n == All()[c]
      ensures next == At(nodes, c)
    {
      ghost var m := Follow(c, 0);
      next := n.forward[0];
    }

    // Below the place a record is written to (ver given) or below a whole key.
    static predicate Below(n: SkipListNode, key: Key, ver: Option<nat>)
    {
      Less(n.key, key) || (n.key == key && ver.Some? && n.ver > ver.value)
    }

    // Forward on one level while the next node is below.
    method Advance(from: SkipListNode, ghost c: nat, level: nat, key: Key, ver: Option<nat>)
      returns (current: SkipListNode, ghost p: nat, ghost n: nat)
      requires Valid() && c < |All()| && from == All()[c] && from.height > level
      requires c > 0 ==> Below(from, key, ver)
      ensures p < |All()| && current == All()[p] && current.height > level
      ensures p > 0 ==> Below(current, key, ver)
      ensures IsNext(All(), p, n, level) && (n < |All()| ==> !Below(All()[n], key, ver)) && (level == 0 ==> n == p + 1)
    {
      ghost var all := All();
      current, p := from, c;
      n := Follow(p, level);
      while current.forward[level] != null && Below(current.forward[level], key, ver)
        invariant p < |all| && current == all[p] && current.height > level && Shaped(current)
        invariant p > 0 ==> Below(current, key, ver)
        invariant IsNext(all, p, n, level) && current.forward[level] == At(all, n) && (level == 0 ==> n == p + 1)
        decreases |all| - p
      {
        current, p := current.forward[level], n;
        n := Follow(p, level);
      }
    }

    lemma Split(p: nat, key: Key, ver: Option<nat>)
      requires Valid() && p <= |nodes|
      requires p > 0 ==> Below(nodes[p - 1], key, ver)
      requires p < |nodes| ==> !Below(nodes[p], key, ver)
      ensures forall i :: 0 <= i < p ==> Below(nodes[i], key, ver)
      ensures forall i :: p <= i < |nodes| ==> !Below(nodes[i], key, ver)
    {
      forall i | 0 <= i < |nodes|
        ensures i < p ==> Below(nodes[i], key, ver)
        ensures p <= i ==> !Below(nodes[i], key, ver)
      {
        if i < p {
          BelowDownward(i, p - 1, key, ver);
        } else if Below(nodes[i], key, ver) {
          BelowDownward(p, i, key, ver);
        }
      }
    }

    // The last node whose key is below the given one, found from the top level down.
    method Descend(key: Key) returns (current: SkipListNode, ghost p: nat)
      requires Valid()
      ensures p <= |nodes| && current == All()[p]
      ensures forall i :: 0 <= i < p ==> Less(nodes[i].key, key) && nodes[i].key != key
      ensures forall i :: p <= i < |nodes| ==> !Less(nodes[i].key, key)
    {
      current, p := head, 0;
      ghost var n := 1;
      var level := currentLevel;
      while level > 0
        invariant 0 <= level <= currentLevel && p < |All()| && current == All()[p] && current.height >= level
        invariant p > 0 ==> Below(current, key, None)
        invariant level == 0 ==> n == p + 1 && (n < |All()| ==> !Below(All()[n], key, None))
      {
        level := level - 1;
        current, p, n := Advance(current, p, level, key, None);
      }
      Split(p, key, None);
      assert forall i :: 0 <= i < |nodes| ==> Below(nodes[i], key, None) == Less(nodes[i].key, key);
      LessTotal(key, key);
    }

    // The walk of put and remove, remembering each level's last node.
    method Locate(key: Key, ver: Option<nat>)
      returns (update: seq<SkipListNode?>, current: SkipListNode, ghost us: seq<nat>, ghost nexts: seq<nat>, ghost p: nat)
      requires Valid()
      ensures p <= |nodes| && current == All()[p] && |update| == |us| == |nexts| == maxLevel
      ensures forall i :: 0 <= i < p ==> Below(nodes[i], key, ver)
      ensures forall i :: p <= i < |nodes| ==> !Below(nodes[i], key, ver)
      ensures forall l: nat :: l < currentLevel ==> Tracked(All(), update, us, nexts, p, l)
    {
      update, us, nexts := seq(maxLevel, _ => null), seq(maxLevel, _ => 0), seq(maxLevel, _ => 0);
      current, p := head, 0;
      ghost var n := 1;
      var level := currentLevel;
      while level > 0
        invariant 0 <= level <= currentLevel && p < |All()| && current == All()[p] && current.height >= level
        invariant p > 0 ==> Below(current, key, ver)
        invariant |update| == |us| == |nexts| == maxLevel
        invariant forall l: nat :: level <= l < currentLevel ==> Stopped(update, us, nexts, l, key, ver)
        invariant level == 0 ==> n == p + 1 && (n < |All()| ==> !Below(All()[n], key, ver))
      {
        level := level - 1;
        current, p, n := Advance(current, p, level, key, ver);
        ghost var update0, us0, nexts0 := update, us, nexts;
        update, us, nexts := update[level := current], us[level := p], nexts[level := n];
        forall l: nat | level <= l < currentLevel
          ensures Stopped(update, us, nexts, l, key, ver)
        {
          assert level < l ==> Stopped(update0, us0, nexts0, l, key, ver);
        }
      }
      Split(p, key, ver);
      forall l: nat | l < currentLevel
        ensures Tracked(All(), update, us, nexts, p, l)
      {
        assert Stopped(update, us, nexts, l, key, ver);
      }
    }

    ghost predicate Stopped(update: seq<SkipListNode?>, us: seq<nat>, nexts: seq<nat>, level: nat, key: Key, ver: Option<nat>)
      requires |update| == |us| == |nexts|
      reads this
    {
      && level < |update| && us[level] < |All()|
      && update[level] == All()[us[level]] && All()[us[level]].height > level
      && IsNext(All(), us[level], nexts[level], level)
      && (us[level] > 0 ==> Below(All()[us[level]], key, ver))
      && (nexts[level] < |All()| ==> !Below(All()[nexts[level]], key, ver))
    }

    lemma BelowDownward(i: nat, j: nat, key: Key, ver: Option<nat>)
      requires Valid() && i <= j < |nodes| && Below(nodes[j], key, ver)
      ensures Below(nodes[i], key, ver)
    {
      KeysAscend(i, j);
      if Less(nodes[i].key, nodes[j].key) && Less(nodes[j].key, key) {
        LessTransitive(nodes[i].key, nodes[j].key, key);
      }
    }

    // Insert, or replace the value of the same key and version.  The height is any the
    // coin tosses may give.
    method Put(key: Key, value: ByteString, ver: nat, level: nat)
      requires Valid() && 1 <= level <= maxLevel
      modifies this, head, nodes
      ensures Valid() && head == old(head)
      ensures contents == Upsert(old(contents), Rec(key, value, ver))
      ensures forall n :: n in nodes ==> n in old(nodes) || fresh(n)
    {
      var update, current, us, nexts, p := Locate(key, Some(ver));
      BelowIsRecLess(p, key, ver);
      UpsertAt(contents, Rec(key, value, ver), p);
      var candidate := After(current, p);
      if candidate != null && candidate.key == key && candidate.ver == ver {
        Replace(candidate, value, p);
      } else {
        var n := new SkipListNode(key, value, level, ver);
        Insert(n, update, us, nexts, p);
      }
    }

    lemma BelowIsRecLess(p: nat, key: Key, ver: nat)
      requires Valid() && p <= |nodes|
      requires forall i :: 0 <= i < p ==> Below(nodes[i], key, Some(ver))
      requires forall i :: p <= i < |nodes| ==> !Below(nodes[i], key, Some(ver))
      ensures forall i :: 0 <= i < p ==> RecLess(contents[i], Rec(key, [], ver))
      ensures p < |contents| && !(contents[p].key == key && contents[p].ver == ver) ==> RecLess(Rec(key, [], ver), contents[p])
    {
      if p < |contents| {
        LessTotal(contents[p].key, key);
      }
    }

    method Replace(candidate: SkipListNode, value: ByteString, ghost p: nat)
      requires Valid() && p < |nodes| && candidate == nodes[p]
      modifies this`sizeBytes, this`contents, candidate`value
      ensures Valid()
      ensures contents == old(contents)[p := Rec(candidate.key, value, candidate.ver)]
    {
      ghost var r := Rec(candidate.key, value, candidate.ver);
      SizeOfReplace(contents, p, r);
      StrictReplace(contents, p, r);
      sizeBytes := sizeBytes - |candidate.value| + |value|;
      candidate.value := value;
      contents := contents[p := r];
      assert forall i :: 0 <= i < |nodes| && i != p ==> nodes[i] != candidate by {
        assert forall i :: 0 <= i < |nodes| ==> All()[i + 1] == nodes[i];
      }
    }

    ghost predicate Insertable(n: SkipListNode, p: nat)
      reads this, n
    {
      && p <= |nodes| == |contents| && n !in All() && 1 <= n.height <= maxLevel
      && (forall i :: 0 <= i < p ==> RecLess(contents[i], Rec(n.key, n.value, n.ver)))
      && (p < |nodes| ==> RecLess(Rec(n.key, n.value, n.ver), contents[p]))
    }

    method Insert(n: SkipListNode, update0: seq<SkipListNode?>, ghost us0: seq<nat>, ghost nexts0: seq<nat>, ghost p: nat)
      requires Valid() && Insertable(n, p) && Shaped(n)
      requires |update0| == |us0| == |nexts0| == maxLevel
      requires forall l: nat :: l < currentLevel ==> Tracked(All(), update0, us0, nexts0, p, l)
      modifies this, head, nodes, n
      ensures Valid() && head == old(head)
      ensures contents == old(contents)[..p] + [Rec(n.key, old(n.value), n.ver)] + old(contents)[p..]
      ensures nodes == old(nodes)[..p] + [n] + old(nodes)[p..]
    {
      ghost var all, r := All(), Rec(n.key, n.value, n.ver);
      ghost var nodes' := nodes[..p] + [n] + nodes[p..];
      ghost var all' := [head] + nodes';
      // levels not in use so far start at the head
      var update, us, nexts := RaiseTo(n.height, update0, us0, nexts0, p);
      assert all == All() && all' == all[..p + 1] + [n] + all[p + 1..];
      Lengthened(all, all', p, n);
      LinkAll(n, update, all, all', p, us, nexts, maxLevel);
      Adopt(n, p);
    }

    // The bookkeeping once the links are in place.
    lemma WholeAfter(p: nat, n: SkipListNode, level: nat)
      requires Insertable(n, p) && AllShaped(All(), n) && 1 <= currentLevel <= level <= maxLevel == head.height && n.height <= level
      requires forall m :: m in nodes ==> 1 <= m.height <= currentLevel
      requires Records(nodes, contents) && Strict(contents)
      requires Distinct([head] + (nodes[..p] + [n] + nodes[p..]))
      requires AllLinked([head] + (nodes[..p] + [n] + nodes[p..]), maxLevel)
      ensures var r := Rec(n.key, n.value, n.ver);
              Whole(head, nodes[..p] + [n] + nodes[p..], contents[..p] + [r] + contents[p..], level, maxLevel,
                    SizeOf(contents) + |n.key| + |n.value| + 8)
    {
      var r := Rec(n.key, n.value, n.ver);
      StrictInsert(contents, p, r);
      SizeOfInsert(contents, p, r);
      Recorded(nodes, contents, p, n);
      HeightsAfter(nodes, p, n, currentLevel, level);
      ShapedAfter(head, nodes, p, n);
    }

    lemma IsWhole()
      requires Whole(head, nodes, contents, currentLevel, maxLevel, sizeBytes)
      ensures Valid()
    {
      assert Opened(0);
    }

    method Adopt(n: SkipListNode, ghost p: nat)
      requires Insertable(n, p) && AllShaped(All(), n) && 1 <= currentLevel <= maxLevel == head.height
      requires forall m :: m in nodes ==> 1 <= m.height <= currentLevel
      requires Records(nodes, contents) && Strict(contents) && sizeBytes == SizeOf(contents)
      requires Distinct([head] + (nodes[..p] + [n] + nodes[p..]))
      requires AllLinked([head] + (nodes[..p] + [n] + nodes[p..]), maxLevel)
      modifies this
      ensures Valid() && head == old(head)
      ensures contents == old(contents)[..p] + [Rec(n.key, n.value, n.ver)] + old(contents)[p..]
      ensures nodes == old(nodes)[..p] + [n] + old(nodes)[p..]
    {
      ghost var r := Rec(n.key, n.value, n.ver);
      WholeAfter(p, n, if n.height > currentLevel then n.height else currentLevel);
      ghost var more, items := nodes[..p] + [n] + nodes[p..], contents[..p] + [r] + contents[p..];
      if n.height > currentLevel {
        currentLevel := n.height;
      }
      sizeBytes := sizeBytes + |n.key| + |n.value| + 8;
      nodes, contents := more, items;
      IsWhole();
    }

    method RaiseTo(height: nat, update0: seq<SkipListNode?>, ghost us0: seq<nat>, ghost nexts0: seq<nat>, ghost p: nat)
      returns (update: seq<SkipListNode?>, ghost us: seq<nat>, ghost nexts: seq<nat>)
      requires Valid() && height <= maxLevel && |update0| == |us0| == |nexts0| == maxLevel && p < |All()|
      requires forall l: nat :: l < currentLevel ==> Tracked(All(), update0, us0, nexts0, p, l)
      ensures forall l: nat :: l < height ==> Tracked(All(), update, us, nexts, p, l)
    {
      update, us, nexts := update0, us0, nexts0;
      var level := currentLevel;
      while level < height
        invariant currentLevel <= level && |update| == |us| == |nexts| == maxLevel
        invariant level <= maxLevel
        invariant forall l: nat :: l < level ==> Tracked(All(), update, us, nexts, p, l)
      {
        ghost var before := (update, us, nexts);
        update, us, nexts := update[level := head], us[level := 0], nexts[level := |All()|];
        assert forall i :: 0 < i < |All()| ==> All()[i] in nodes;
        assert Tracked(All(), update, us, nexts, p, level);
        assert forall l: nat :: l < level && Tracked(All(), before.0, before.1, before.2, p, l) ==>
            Tracked(All(), update, us, nexts, p, l);
        level := level + 1;
      }
    }

    // Takes out the newest version of a key, if there is one.
    method Remove(key: Key)
      requires Valid()
      modifies this, head, nodes
      ensures Valid() && head == old(head) && currentLevel == old(currentLevel)
      ensures contents == DropNewest(old(contents), key)
      ensures forall n :: n in nodes ==> n in old(nodes)
    {
      var update, current, us, nexts, p := Locate(key, None);
      LessTotal(key, key);
      var target := After(current, p);
      forall i | 0 <= i < p
        ensures contents[i].key != key
      {
        assert Below(nodes[i], key, None);
      }
      if target == null || target.key != key {
        forall i | p <= i < |contents|
          ensures contents[i].key != key
        {
          KeysAscend(p, i);
          LessTotal(contents[p].key, key);
          assert !Below(nodes[p], key, None);
        }
        DropNothing(contents, key);
        return;
      }
      DropAt(contents, key, p);
      Detach(target, update, us, nexts, p);
    }

    method Detach(n: SkipListNode, update: seq<SkipListNode?>, ghost us: seq<nat>, ghost nexts: seq<nat>, ghost p: nat)
      requires Valid() && p < |nodes| && nodes[p] == n
      requires forall l: nat :: l < currentLevel ==> Tracked(All(), update, us, nexts, p, l)
      modifies this, head, nodes
      ensures Valid() && head == old(head) && currentLevel == old(currentLevel)
      ensures contents == old(contents)[..p] + old(contents)[p + 1..]
      ensures nodes == old(nodes)[..p] + old(nodes)[p + 1..]
    {
      ghost var all' := All();
      ghost var nodes' := nodes[..p] + nodes[p + 1..];
      ghost var all := [head] + nodes';
      assert n in nodes;
      assert all == all'[..p + 1] + all'[p + 2..] by {
        assert all'[..p + 1] == [head] + nodes[..p] && all'[p + 2..] == nodes[p + 1..];
      }
      Shortened(all, all', p, n);
      UnlinkAll(n, update, all, all', p, us, nexts, maxLevel);
      assert All() == all';
      Forget(n, p);
    }

    // The bookkeeping once the links are cut.
    method Forget(n: SkipListNode, ghost p: nat)
      requires 1 <= currentLevel <= maxLevel == head.height && p < |nodes| && nodes[p] == n
      requires forall m :: m in nodes ==> 1 <= m.height <= currentLevel
      requires forall m :: m in All() ==> Shaped(m)
      requires Records(nodes, contents) && Strict(contents) && sizeBytes == SizeOf(contents)
      requires Distinct([head] + (nodes[..p] + nodes[p + 1..]))
      requires AllLinked([head] + (nodes[..p] + nodes[p + 1..]), maxLevel)
      modifies this
      ensures Valid() && head == old(head) && currentLevel == old(currentLevel)
      ensures contents == old(contents)[..p] + old(contents)[p + 1..]
      ensures nodes == old(nodes)[..p] + old(nodes)[p + 1..]
    {
      SizeOfReplace(contents, p, contents[p]);
      RecordsLess(nodes, contents, p);
      sizeBytes := sizeBytes - (|n.key| + |n.value| + 8);
      contents := contents[..p] + contents[p + 1..];
      nodes := nodes[..p] + nodes[p + 1..];
    }

    // Every record, in order: what a flush writes out.
    method Flush() returns (data: seq<Rec>)
      requires Valid()
      ensures data == contents
    {
      data := [];
      ghost var c: nat := 0;
      var node := After(head, 0);
      while node != null
        invariant c <= |nodes| && node == At(nodes, c) && data == contents[..c]
        decreases |nodes| - c
      {
        data := data + [Rec(node.key, node.value, node.ver)];
        c := c + 1;
        node := After(node, c);
      }
    }

    method Clear()
      requires Valid()
      modifies this
      ensures Valid() && contents == [] && sizeBytes == 0 && fresh(head)
    {
      var h := new SkipListNode([], [], maxLevel, 0);
      head := h;
      sizeBytes, nodes, contents := 0, [], [];
    }

    // The first node at or past a key.
    method BeginPrefix(prefix: Key) returns (node: SkipListNode?, ghost i: nat)
      requires Valid()
      ensures i <= |nodes| && node == At(nodes, i)
      ensures forall j :: 0 <= j < |nodes| ==> (j < i <==> Less(nodes[j].key, prefix))
    {
      var current, p := Descend(prefix);
      node := After(current, p);
      i := p;
    }

    // The first node past every key that starts with the prefix.
    method EndPrefix(prefix: Key) returns (node: SkipListNode?, ghost i: nat)
      requires Valid()
      ensures i <= |nodes| && node == At(nodes, i)
      ensures forall j :: 0 <= j < |nodes| ==> (j < i <==> Less(nodes[j].key, prefix) || prefix <= nodes[j].key)
    {
      var successor := prefix;
      while successor != [] && successor[|successor| - 1] == 255
        invariant Successor(successor) == Successor(prefix)
      {
        successor := successor[..|successor| - 1];
      }
      forall j | 0 <= j < |nodes|
        ensures Successor(prefix).None? ==> Less(nodes[j].key, prefix) || prefix <= nodes[j].key
        ensures Successor(prefix).Some? ==>
                  (Less(nodes[j].key, Successor(prefix).value) <==> Less(nodes[j].key, prefix) || prefix <= nodes[j].key)
      {
        PrefixRange(nodes[j].key, prefix);
      }
      if successor == [] {
        return null, |nodes|;
      }
      var last := |successor| - 1;
      node, i := BeginPrefix(successor[..last] + [successor[last] + 1]);
    }

    // The one stretch of nodes a monotone predicate selects: found somewhere by the
    // walk down, then widened to both sides.
    method ItersMonotonyPredicate(pred: Key -> int)
      returns (left: SkipListNode?, right: SkipListNode?, ghost lo: nat, ghost hi: nat)
      requires Valid() && Monotone(pred)
      ensures left == null ==> forall i :: 0 <= i < |nodes| ==> pred(nodes[i].key) != 0
      ensures left != null ==> lo < hi <= |nodes| && left == nodes[lo] && right == At(nodes, hi)
      ensures left != null ==> forall i :: 0 <= i < |nodes| ==> (lo <= i < hi <==> pred(nodes[i].key) == 0)
    {
      lo, hi, left, right := 0, 0, null, null;
      var node, m := FindSelected(pred);
      if node == null {
        return;
      }
      left, lo := WidenLeft(pred, node, m);
      right, hi := WidenRight(pred, node, m);
      forall i | 0 <= i < |nodes|
        ensures lo <= i < hi <==> pred(nodes[i].key) == 0
      {
        if i < lo {
          KeysAscend(i, lo - 1);
          KeysAscend(lo - 1, lo);
        } else if hi <= i {
          KeysAscend(hi - 1, hi);
          KeysAscend(hi, i);
        }
      }
    }

    method WidenLeft(pred: Key -> int, node: SkipListNode, ghost m: nat) returns (left: SkipListNode, ghost lo: nat)
      requires Valid() && m < |nodes| && node == nodes[m] && pred(node.key) == 0
      ensures lo <= m && left == nodes[lo] && forall i :: lo <= i <= m ==> pred(nodes[i].key) == 0
      ensures lo > 0 ==> pred(nodes[lo - 1].key) != 0
    {
      left, lo := node, m;
      while true
        invariant lo <= m && left == nodes[lo] && forall i :: lo <= i <= m ==> pred(nodes[i].key) == 0
        decreases lo
      {
        var prev := Before(left, lo);
        if prev == head || pred(prev.key) != 0 {
          return;
        }
        left, lo := prev, lo - 1;
      }
    }

    method WidenRight(pred: Key -> int, node: SkipListNode, ghost m: nat) returns (right: SkipListNode?, ghost hi: nat)
      requires Valid() && m < |nodes| && node == nodes[m] && pred(node.key) == 0
      ensures m < hi <= |nodes| && right == At(nodes, hi) && forall i :: m <= i < hi ==> pred(nodes[i].key) == 0
      ensures hi < |nodes| ==> pred(nodes[hi].key) != 0
    {
      hi := m + 1;
      right := After(node, hi);
      while right != null && pred(right.key) == 0
        invariant hi <= |nodes| && right == At(nodes, hi) && forall i :: m <= i < hi ==> pred(nodes[i].key) == 0
        invariant m < hi
        decreases |nodes| - hi
      {
        hi := hi + 1;
        right := After(right, hi);
      }
    }

    method Before(n: SkipListNode, ghost c: nat) returns (prev: SkipListNode)
      requires Valid() && c < |nodes| && nodes[c] == n
      ensures prev == All()[c]
    {
      ghost var m := Follow(c, 0);
      assert Linked(All(), 0) && n == All()[c + 1] && n in All();
      prev := n.backward[0];
    }

    method FindSelected(pred: Key -> int) returns (node: SkipListNode?, ghost m: nat)
      requires Valid() && Monotone(pred)
      ensures node == null ==> forall i :: 0 <= i < |nodes| ==> pred(nodes[i].key) != 0
      ensures node != null ==> m < |nodes| && node == nodes[m] && pred(node.key) == 0
    {
      var current := head;
      ghost var c: nat := 0;
      node, m := null, 0;
      var level := currentLevel;
      while level > 0 && node == null
        invariant 0 <= level <= currentLevel && c < |All()| && current == All()[c] && current.height >= level
        invariant c > 0 ==> pred(current.key) > 0
        invariant node != null ==> m < |nodes| && node == nodes[m] && pred(node.key) == 0
        invariant level == 0 && node == null ==> c + 1 < |All()| ==> pred(All()[c + 1].key) < 0
      {
        level := level - 1;
        current, node, c, m := Probe(pred, current, level, c);
      }
      if node == null {
        forall i | 0 <= i < |nodes|
          ensures pred(nodes[i].key) != 0
        {
          if i < c {
            KeysAscend(i, c - 1);
          } else {
            KeysAscend(c, i);
            assert pred(nodes[c].key) < 0;
          }
        }
      }
    }

    // One level of that walk: on while the selected stretch lies to the right.
    // A probe on one level stands at a node left of all that are selected, and looks at
    // the next one.
    ghost predicate Probing(pred: Key -> int, current: SkipListNode, p: nat, n: nat, level: nat)
      reads this, current, nodes
    {
      && p < |All()| && current == All()[p] && current.height > level && Shaped(current)
      && (p > 0 ==> pred(current.key) > 0)
      && IsNext(All(), p, n, level) && current.forward[level] == At(All(), n) && (level == 0 ==> n == p + 1)
    }

    method Probe(pred: Key -> int, from: SkipListNode, level: nat, ghost c: nat)
      returns (current: SkipListNode, node: SkipListNode?, ghost p: nat, ghost m: nat)
      requires Valid() && c < |All()| && from == All()[c] && from.height > level
      requires c > 0 ==> pred(from.key) > 0
      ensures p < |All()| && current == All()[p] && current.height > level && (p > 0 ==> pred(current.key) > 0)
      ensures node != null ==> m < |nodes| && node == nodes[m] && pred(node.key) == 0
      ensures level == 0 && node == null && p + 1 < |All()| ==> pred(All()[p + 1].key) < 0
    {
      current, p, node, m := from, c, null, 0;
      ghost var n := Follow(p, level);
      while current.forward[level] != null
        invariant Probing(pred, current, p, n, level) && node == null
        decreases |All()| - p
      {
        var outcome := pred(current.forward[level].key);
        if outcome > 0 {
          current, p := current.forward[level], n;
          n := Follow(p, level);
        } else if outcome == 0 {
          node, m := current.forward[level], n - 1;
          break;
        } else {
          break;
        }
      }
    }
  }

  lemma Lengthened(all: seq<SkipListNode>, all': seq<SkipListNode>, p: nat, n: SkipListNode)
    requires Distinct(all) && n !in all && p < |all| && all' == all[..p + 1] + [n] + all[p + 1..]
    ensures IsPut(all, all', p, n) && Distinct(all')
  {
    forall i, j | 0 <= i < j < |all'|
      ensures all'[i] != all'[j]
    {
      var i0, j0 := if i <= p then i else i - 1, if j <= p then j else j - 1;
      assert i != p + 1 ==> all'[i] == all[i0];
      assert j != p + 1 ==> all'[j] == all[j0];
    }
  }

  lemma Shortened(all: seq<SkipListNode>, all': seq<SkipListNode>, p: nat, n: SkipListNode)
    requires Distinct(all') && p + 1 < |all'| && all'[p + 1] == n && all == all'[..p + 1] + all'[p + 2..]
    ensures IsPut(all, all', p, n) && Distinct(all)
  {
    forall i, j | 0 <= i < j < |all|
      ensures all[i] != all[j]
    {
      assert all[i] == all'[if i <= p then i else i + 1];
      assert all[j] == all'[if j <= p then j else j + 1];
    }
  }

  // The string just past every string that starts with p: the last byte that can grow
  // grows, the 0xff bytes behind it go.
  function Successor(p: ByteString): Option<ByteString>
  {
    if p == [] then None
    else
      var last := |p| - 1;
      if p[last] == 255 then Successor(p[..last]) else Some(p[..last] + [p[last] + 1])
  }

  lemma {:induction false} SuccessorFront(c: byte, p: ByteString)
    ensures Successor([c] + p) == if Successor(p).Some? then Some([c] + Successor(p).value)
                                  else if c == 255 then None else Some([c + 1])
  {
    var last := |p| - 1;
    if p != [] {
      assert ([c] + p)[..last + 1] == [c] + p[..last] && ([c] + p)[last + 1] == p[last];
      if p[last] != 255 {
        assert [c] + p[..last] + [p[last] + 1] == [c] + (p[..last] + [p[last] + 1]);
      }
      if p[last] == 255 {
        SuccessorFront(c, p[..last]);
      }
    } else {
      assert [c] + p == [c] && [c][..0] == [];
      if c != 255 {
        assert [c][..0] + [c + 1] == [c + 1];
      }
    }
  }

  // The keys with a prefix are exactly those from the prefix up to its successor.
  lemma {:induction false} PrefixRange(k: Key, p: ByteString)
    ensures p <= k ==> !Less(k, p)
    ensures Successor(p).None? ==> Less(k, p) || p <= k
    ensures Successor(p).Some? ==> (Less(k, Successor(p).value) <==> Less(k, p) || p <= k)
  {
    if p != [] {
      var c, p' := p[0], p[1..];
      assert p == [c] + p';
      SuccessorFront(c, p');
      if k != [] {
        PrefixRange(k[1..], p');
        assert p <= k <==> c == k[0] && p' <= k[1..];
        if Successor(p').Some? {
          assert Successor(p).value[1..] == Successor(p').value;
        }
      }
    }
  }

  // ---- What put means for readers ----

  // Put is insert-or-replace: the one group written is now the new record alone, every
  // other version of every key is as before.
  lemma {:induction false} UpsertMeaning(s: seq<Rec>, r: Rec, k: Key, v: nat)
    requires Strict(s)
    ensures Group(Upsert(s, r), k, v) == if k == r.key && v == r.ver then [r] else Group(s, k, v)
  {
    if s != [] {
      OneInGroup(s, r.key, r.ver);
      UpsertMeaning(s[1..], r, k, v);
      LessTotal(s[0].key, r.key);
      if s[0].key == r.key && s[0].ver == r.ver {
        assert Upsert(s, r)[1..] == s[1..];
      } else if RecLess(s[0], r) {
        assert Upsert(s, r)[1..] == Upsert(s[1..], r);
      } else {
        assert Upsert(s, r)[1..] == s;
      }
    }
  }

  lemma {:induction false} OneInGroup(s: seq<Rec>, k: Key, v: nat)
    requires Strict(s)
    ensures s != [] && s[0].key == k && s[0].ver == v ==> Group(s[1..], k, v) == []
    ensures s != [] && RecLess(Rec(k, [], v), s[0]) ==> Group(s, k, v) == []
  {
    if s != [] {
      var t := s[1..];
      OneInGroup(t, k, v);
      LessTotal(s[0].key, k);
      if t != [] {
        assert RecLess(s[0], s[1]);
        if RecLess(Rec(k, [], v), s[0]) {
          RecOrder();
        }
      }
    }
  }

  // Removing takes out the newest version of the key, the one a read without a bound
  // finds, and nothing else.
  lemma {:induction false} RemoveMeaning(s: seq<Rec>, key: Key, k: Key, v: nat)
    requires Strict(s)
    ensures var newest := Best(s, Query(key, 0, {}));
            Group(DropNewest(s, key), k, v) == if k == key && newest.Some? && newest.value.ver == v then [] else Group(s, k, v)
  {
    StrictIsOrdered(s);
    BestOfOrdered(s, Query(key, 0, {}));
    if s != [] {
      OneInGroup(s, s[0].key, s[0].ver);
      StrictIsOrdered(s[1..]);
      BestOfOrdered(s[1..], Query(key, 0, {}));
      RemoveMeaning(s[1..], key, k, v);
      if s[0].key != key {
        assert DropNewest(s, key)[1..] == DropNewest(s[1..], key);
      }
    }
  }

  // The order survives a put.
  lemma UpsertStrict(s: seq<Rec>, r: Rec)
    requires Strict(s)
    ensures Strict(Upsert(s, r))
  {
    var p := 0;
    while p < |s| && RecLess(s[p], r)
      invariant 0 <= p <= |s| && forall i :: 0 <= i < p ==> RecLess(s[i], r)
    {
      p := p + 1;
    }
    UpsertAt(s, r, p);
    if p < |s| {
      LessTotal(s[p].key, r.key);
    }
    if p < |s| && s[p].key == r.key && s[p].ver == r.ver {
      StrictReplace(s, p, r);
    } else {
      StrictInsert(s, p, r);
    }
  }

  // For every read, writing a record is putting it in front of what was there.
  lemma UpsertBest(s: seq<Rec>, r: Rec, q: Query)
    requires Strict(s)
    ensures Best(Upsert(s, r), q) == Best([r] + s, q)
  {
    var t := Upsert(s, r);
    BestMeaning(t, q);
    BestMeaning([r] + s, q);
    forall k, v
      ensures Group([r] + s, k, v) == (if k == r.key && v == r.ver then [r] else []) + Group(s, k, v)
      ensures Group(t, k, v) == if k == r.key && v == r.ver then [r] else Group(s, k, v)
    {
      UpsertMeaning(s, r, k, v);
      assert ([r] + s)[1..] == s;
    }
    SameHeadsSameBest(t, [r] + s, q);
  }
}
