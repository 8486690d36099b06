// c/mempool/ems_queue.h: intrusive circular doubly linked lists. Memory maps the
// address of each queue entry to its two pointers; a list is a sentinel and the
// sequence of entries behind it.
module EmsQueue {
  import opened Bytes

  type Addr = nat

  datatype Links = Links(prev: Addr, next: Addr)

  type Store = map<Addr, Links>

  predicate Linked(m: Store, a: Addr, b: Addr) {
    a in m && b in m && m[a].next == b && m[b].prev == a
  }

  // Each entry points forward to the next, and that one back to it.
  predicate Chain(m: Store, c: seq<Addr>) {
    forall i :: 0 <= i < |c| - 1 ==> Linked(m, c[i], c[i + 1])
  }

  // The sentinel, its entries and the sentinel again.
  predicate Ring(m: Store, h: Addr, s: seq<Addr>) {
    NoDuplicates([h] + s) && Chain(m, [h] + s + [h])
  }

  // Every entry but the given ones has kept its pointers.
  predicate Untouched(m: Store, m': Store, touched: seq<Addr>) {
    m'.Keys == m.Keys && forall a :: a in m && a !in touched ==> m'[a] == m[a]
  }

  lemma RingFrame(m: Store, m': Store, h: Addr, s: seq<Addr>, touched: seq<Addr>)
    requires Ring(m, h, s) && Untouched(m, m', touched)
    requires h !in touched && forall x :: x in s ==> x !in touched
    ensures Ring(m', h, s)
  {
    var c := [h] + s + [h];
    forall i | 0 <= i < |c| - 1 ensures Linked(m', c[i], c[i + 1]) {
      assert Linked(m, c[i], c[i + 1]);
      assert (c[i] == h || c[i] in s) && (c[i + 1] == h || c[i + 1] in s);
    }
  }

  function Last(h: Addr, s: seq<Addr>): Addr {
    if s == [] then h else s[|s| - 1]
  }

  function First(h: Addr, s: seq<Addr>): Addr {
    if s == [] then h else s[0]
  }

  lemma RingEnds(m: Store, h: Addr, s: seq<Addr>)
    requires Ring(m, h, s)
    ensures Linked(m, h, First(h, s)) && Linked(m, Last(h, s), h)
    ensures s == [] <==> m[h].prev == h
    ensures forall x :: x in s ==> x in m && x != h
  {
    var c := [h] + s + [h];
    assert Linked(m, c[0], c[1]) && Linked(m, c[|s|], c[|s| + 1]);
    forall x | x in s ensures x in m && x != h {
      var i :| 0 <= i < |s| && s[i] == x;
      assert Linked(m, c[i], c[i + 1]) && c[i + 1] == x && ([h] + s)[i + 1] == x && ([h] + s)[0] == h;
    }
  }

  lemma NotAmong(h: Addr, s: seq<Addr>, x: Addr)
    requires NoDuplicates([h] + s) && x != h && x !in s
    ensures NoDuplicates([h] + (s + [x])) && NoDuplicates([h] + ([x] + s))
  {
    var c := [h] + s;
    var a, b := [h] + (s + [x]), [h] + ([x] + s);
    assert forall i :: 0 <= i < |c| ==> c[i] != x && a[i] == c[i];
    assert forall i :: 2 <= i < |b| ==> b[i] == c[i - 1];
    assert a[|c|] == x && b[0] == c[0] == h && b[1] == x;
    forall i, j | 0 <= i < j < |b| ensures b[i] != b[j] {
      assert j == 1 || b[j] == c[j - 1];
    }
  }

  // A step of a chain is kept if neither of its two pointers has been written.
  predicate NextKept(m: Store, m': Store, a: Addr) {
    a in m && a in m' && m'[a].next == m[a].next
  }

  predicate PrevKept(m: Store, m': Store, a: Addr) {
    a in m && a in m' && m'[a].prev == m[a].prev
  }

  lemma TailLinks(m: Store, m': Store, h: Addr, s: seq<Addr>, x: Addr)
    requires Ring(m, h, s) && x != h && x !in s
    requires forall a :: a in m && a != x && a != Last(h, s) ==> NextKept(m, m', a)
    requires forall a :: a in m && a != x && a != h ==> PrevKept(m, m', a)
    requires Linked(m', Last(h, s), x) && Linked(m', x, h)
    ensures Ring(m', h, s + [x])
  {
    RingEnds(m, h, s);
    NotAmong(h, s, x);
    var c, c' := [h] + s + [h], [h] + (s + [x]) + [h];
    forall i | 0 <= i < |c'| - 1 ensures Linked(m', c'[i], c'[i + 1]) {
      if i < |s| {
        assert Linked(m, c[i], c[i + 1]) && c'[i] == c[i] && c'[i + 1] == c[i + 1] == s[i];
        assert c[i] == ([h] + s)[i] && Last(h, s) == ([h] + s)[|s|];
      } else {
        assert c'[|s|] == Last(h, s) && c'[|s| + 1] == x && c'[|s| + 2] == h;
      }
    }
  }

  lemma HeadLinks(m: Store, m': Store, h: Addr, s: seq<Addr>, x: Addr)
    requires Ring(m, h, s) && x != h && x !in s
    requires forall a :: a in m && a != x && a != h ==> NextKept(m, m', a)
    requires forall a :: a in m && a != x && a != First(h, s) ==> PrevKept(m, m', a)
    requires Linked(m', h, x) && Linked(m', x, First(h, s))
    ensures Ring(m', h, [x] + s)
  {
    RingEnds(m, h, s);
    NotAmong(h, s, x);
    var c, c' := [h] + s + [h], [h] + ([x] + s) + [h];
    forall i | 0 <= i < |c'| - 1 ensures Linked(m', c'[i], c'[i + 1]) {
      if i >= 2 {
        assert Linked(m, c[i - 1], c[i]) && c'[i] == c[i - 1] == s[i - 2] && c'[i + 1] == c[i];
        assert i == |s| + 1 || c[i] == ([h] + s)[i];
        assert First(h, s) == ([h] + s)[1] && s[i - 2] == ([h] + s)[i - 1];
      } else {
        assert c'[0] == h && c'[1] == x && c'[2] == First(h, s);
      }
    }
  }

  lemma Removed(h: Addr, s: seq<Addr>, k: nat)
    requires NoDuplicates([h] + s) && k < |s|
    ensures NoDuplicates([h] + (s[..k] + s[k + 1..])) && s[k] !in s[..k] + s[k + 1..]
  {
    var c, c' := [h] + s, [h] + (s[..k] + s[k + 1..]);
    assert forall i :: 0 <= i <= k ==> c'[i] == c[i];
    assert forall i :: k < i < |c'| ==> c'[i] == c[i + 1];
    assert c[k + 1] == s[k];
    var s' := s[..k] + s[k + 1..];
    forall i | 0 <= i < |s'| ensures s'[i] != s[k] {
      assert s'[i] == c'[i + 1];
    }
  }

  lemma RemoveLinks(m: Store, m': Store, h: Addr, s: seq<Addr>, k: nat)
    requires Ring(m, h, s) && k < |s|
    requires var p, q := Last(h, s[..k]), First(h, s[k + 1..]);
             && (forall a :: a in m && a != p ==> NextKept(m, m', a))
             && (forall a :: a in m && a != q ==> PrevKept(m, m', a))
             && Linked(m', p, q)
    ensures Ring(m', h, s[..k] + s[k + 1..])
  {
    Removed(h, s, k);
    var c, c' := [h] + s + [h], [h] + (s[..k] + s[k + 1..]) + [h];
    var d := [h] + s;
    assert d[0] == h;
    assert c[k] == Last(h, s[..k]) == d[k] && c[k + 2] == First(h, s[k + 1..]);
    forall i | 0 <= i < |c'| - 1 ensures Linked(m', c'[i], c'[i + 1]) {
      if i < k {
        assert Linked(m, c[i], c[i + 1]) && c'[i] == c[i] == d[i] && c'[i + 1] == c[i + 1] == d[i + 1];
        assert k + 2 == |s| + 1 || c[k + 2] == d[k + 2];
      } else if i > k {
        assert Linked(m, c[i + 1], c[i + 2]) && c'[i] == c[i + 1] == d[i + 1] && c'[i + 1] == c[i + 2];
        assert i + 2 == |s| + 1 || c[i + 2] == d[i + 2];
        assert c[k + 2] == d[k + 2];
      }
    }
  }

  lemma Neighbours(m: Store, h: Addr, s: seq<Addr>, k: nat)
    requires Ring(m, h, s) && k < |s|
    ensures Linked(m, Last(h, s[..k]), s[k]) && Linked(m, s[k], First(h, s[k + 1..])) && s[k] != h
    ensures Last(h, s[..k]) != s[k] && First(h, s[k + 1..]) != s[k]
  {
    var c, d := [h] + s + [h], [h] + s;
    assert Linked(m, c[k], c[k + 1]) && Linked(m, c[k + 1], c[k + 2]);
    assert c[k] == Last(h, s[..k]) == d[k] && c[k + 1] == s[k] == d[k + 1] && c[k + 2] == First(h, s[k + 1..]);
    assert k + 2 == |s| + 1 || c[k + 2] == d[k + 2];
    assert d[0] == h;
  }

  // Memory after the neighbours of x have been joined.
  function Unlinked(m: Store, x: Addr): Store
    requires x in m && m[x].next in m && m[x].prev in m
  {
    var m' := m[m[x].next := Links(m[x].prev, m[m[x].next].next)];
    m'[m'[x].prev := Links(m'[m'[x].prev].prev, m'[x].next)]
  }

  lemma UnlinkedRing(m: Store, h: Addr, s: seq<Addr>, k: nat)
    requires Ring(m, h, s) && k < |s|
    ensures s[k] in m && m[s[k]].next in m && m[s[k]].prev in m
    ensures var m' := Unlinked(m, s[k]);
            && Ring(m', h, s[..k] + s[k + 1..]) && Untouched(m, m', [h] + s)
            && s[k] in m' && m'[s[k]] == m[s[k]]
  {
    Neighbours(m, h, s, k);
    RingEnds(m, h, s);
    RemoveLinks(m, Unlinked(m, s[k]), h, s, k);
    assert forall a :: a in s[..k] || a in s[k + 1..] ==> a in s;
  }

  // ems_queue_split: the two rings that come of cutting before entry k.
  lemma SplitLinks(m: Store, m': Store, h: Addr, s: seq<Addr>, k: nat, n: Addr)
    requires Ring(m, h, s) && k < |s| && n != h && n !in s
    requires var p, q, last := Last(h, s[..k]), s[k], Last(h, s);
             && (forall a :: a in m && a != p && a != last && a != n ==> NextKept(m, m', a))
             && (forall a :: a in m && a != h && a != q && a != n ==> PrevKept(m, m', a))
             && Linked(m', p, h) && Linked(m', n, q) && Linked(m', last, n)
    ensures Ring(m', h, s[..k]) && Ring(m', n, s[k..])
  {
    var c, d := [h] + s + [h], [h] + s;
    var a, b := [h] + s[..k] + [h], [n] + s[k..] + [n];
    assert d[0] == h && c[k] == d[k] == Last(h, s[..k]) && d[|s|] == Last(h, s) && d[k + 1] == s[k];
    assert forall i :: 0 <= i < |d| ==> d[i] != n;
    assert forall i :: 0 <= i <= k ==> a[i] == c[i] == d[i];
    assert forall i :: 1 <= i < |b| - 1 ==> b[i] == c[k + i] == d[k + i] == s[k + i - 1];
    forall i | 0 <= i < |a| - 1 ensures Linked(m', a[i], a[i + 1]) {
      if i < k {
        assert Linked(m, c[i], c[i + 1]);
      }
    }
    forall i | 0 <= i < |b| - 1 ensures Linked(m', b[i], b[i + 1]) {
      if 1 <= i < |b| - 2 {
        assert Linked(m, c[k + i], c[k + i + 1]);
      }
    }
    forall i, j | 0 <= i < j < |s[k..]| + 1 ensures ([n] + s[k..])[i] != ([n] + s[k..])[j] {
      assert ([n] + s[k..])[j] == d[k + j];
      assert i > 0 ==> ([n] + s[k..])[i] == d[k + i];
    }
    assert forall i :: 0 <= i < k + 1 ==> ([h] + s[..k])[i] == d[i];
  }

  // Memory after the six assignments of ems_queue_split.
  function SplitAt(m: Store, h: Addr, q: Addr, n: Addr): Store
    requires h in m && q in m && n in m && m[h].prev in m && m[q].prev in m
  {
    var m1 := m[n := Links(m[h].prev, q)];
    var m2 := m1[m[h].prev := Links(m1[m[h].prev].prev, n)];
    var m3 := m2[h := Links(m[q].prev, m2[h].next)];
    var m4 := m3[m[q].prev := Links(m3[m[q].prev].prev, h)];
    m4[q := Links(n, m4[q].next)]
  }

  // The assignments one after the other, each reading what is there by then.
  lemma SplitWrites(m: Store, h: Addr, q: Addr, n: Addr)
    requires h in m && q in m && n in m && m[h].prev in m && m[q].prev in m
    requires n != h && n != q && m[h].prev != n && q != h
    ensures var m1 := m[n := Links(m[h].prev, m[n].next)];
            var m2 := m1[m1[n].prev := Links(m1[m1[n].prev].prev, n)];
            var m3 := m2[n := Links(m2[n].prev, q)];
            var m4 := m3[h := Links(m3[q].prev, m3[h].next)];
            m4[h].prev in m4 &&
            var m5 := m4[m4[h].prev := Links(m4[m4[h].prev].prev, h)];
            m5[q := Links(n, m5[q].next)] == SplitAt(m, h, q, n)
  {
  }

  lemma SplitRings(m: Store, h: Addr, s: seq<Addr>, k: nat, n: Addr)
    requires Ring(m, h, s) && k < |s| && n in m && n != h && n !in s
    ensures h in m && s[k] in m && m[h].prev in m && m[s[k]].prev in m
    ensures n != s[k] && m[h].prev != n && m[s[k]].prev != n && s[k] != h
    ensures var m' := SplitAt(m, h, s[k], n);
            Ring(m', h, s[..k]) && Ring(m', n, s[k..]) && Untouched(m, m', [h, n] + s)
  {
    hide Ring, Chain, NoDuplicates;
    Neighbours(m, h, s, k);
    RingEnds(m, h, s);
    var p, q, last := Last(h, s[..k]), s[k], Last(h, s);
    assert q in s && p in [h] + s && last in [h] + s;
    SplitLinks(m, SplitAt(m, h, q, n), h, s, k, n);
  }

  lemma AddDistinct(h: Addr, s: seq<Addr>, n: Addr, t: seq<Addr>)
    requires NoDuplicates([h] + s + ([n] + t))
    ensures NoDuplicates([h] + s + t) && n != h && n !in s && n !in t && h !in t
  {
    var all, rest := [h] + s + ([n] + t), [h] + s + t;
    assert all[0] == h && all[|s| + 1] == n;
    assert forall i :: 0 <= i <= |s| ==> rest[i] == all[i];
    assert forall i :: |s| < i < |rest| ==> rest[i] == all[i + 1];
    assert forall i :: 0 <= i < |s| ==> all[i + 1] == s[i];
    assert forall i :: 0 <= i < |t| ==> all[|s| + 2 + i] == t[i];
  }

  // ems_queue_add: the entries of the second ring behind those of the first.
  lemma AddLinks(m: Store, m': Store, h: Addr, s: seq<Addr>, n: Addr, t: seq<Addr>)
    requires Ring(m, h, s) && Ring(m, n, t) && NoDuplicates([h] + s + t) && n != h && n !in s
    requires t != []
    requires var x, y, z := Last(h, s), t[0], Last(n, t);
             && (forall a :: a in m && a != x && a != z ==> NextKept(m, m', a))
             && (forall a :: a in m && a != h && a != y ==> PrevKept(m, m', a))
             && Linked(m', x, y) && Linked(m', z, h)
    ensures Ring(m', h, s + t)
  {
    var c, e := [h] + s + [h], [n] + t + [n];
    var all, a := [h] + s + t, [h] + (s + t) + [h];
    assert [h] + (s + t) == all;
    assert all[0] == h && all[|s|] == Last(h, s) && all[|s| + 1] == t[0] && all[|s| + |t|] == t[|t| - 1];
    assert forall i :: 0 <= i <= |s| ==> all[i] == c[i];
    assert forall i :: 1 <= i <= |t| ==> e[i] == t[i - 1] == all[|s| + i];
    forall i | 0 <= i < |a| - 1 ensures Linked(m', a[i], a[i + 1]) {
      if i < |s| {
        assert Linked(m, c[i], c[i + 1]) && a[i] == all[i] && a[i + 1] == all[i + 1];
      } else if |s| < i < |s| + |t| {
        assert Linked(m, e[i - |s|], e[i - |s| + 1]) && a[i] == all[i] && a[i + 1] == all[i + 1];
      }
    }
  }

  class Memory {
    var at: Store

    method SetPrev(a: Addr, p: Addr)
      requires a in at
      modifies this
      ensures at == old(at)[a := Links(p, old(at)[a].next)]
    {
      at := at[a := at[a].(prev := p)];
    }

    method SetNext(a: Addr, n: Addr)
      requires a in at
      modifies this
      ensures at == old(at)[a := Links(old(at)[a].prev, n)]
    {
      at := at[a := at[a].(next := n)];
    }

    // ems_queue_init
    method Init(h: Addr)
      requires h in at
      modifies this
      ensures Ring(at, h, []) && Untouched(old(at), at, [h])
    {
      SetPrev(h, h);
      SetNext(h, h);
    }

    // ems_queue_empty
    method Empty(h: Addr, ghost s: seq<Addr>) returns (empty: bool)
      requires Ring(at, h, s)
      ensures empty <==> s == []
    {
      RingEnds(at, h, s);
      empty := h == at[h].prev;
    }

    // ems_queue_insert_tail
    method InsertTail(h: Addr, x: Addr, ghost s: seq<Addr>)
      requires Ring(at, h, s) && x in at && x != h && x !in s
      modifies this
      ensures Ring(at, h, s + [x]) && Untouched(old(at), at, [h, x] + s)
    {
      hide Ring, Chain, NoDuplicates;
      RingEnds(at, h, s);
      ghost var m := at;
      SetPrev(x, at[h].prev);
      SetNext(at[x].prev, x);
      SetNext(x, h);
      SetPrev(h, x);
      TailLinks(m, at, h, s, x);
    }

    // ems_queue_insert_head
    method InsertHead(h: Addr, x: Addr, ghost s: seq<Addr>)
      requires Ring(at, h, s) && x in at && x != h && x !in s
      modifies this
      ensures Ring(at, h, [x] + s) && Untouched(old(at), at, [h, x] + s)
    {
      hide Ring, Chain, NoDuplicates;
      RingEnds(at, h, s);
      ghost var m := at;
      SetNext(x, at[h].next);
      SetPrev(at[x].next, x);
      SetPrev(x, h);
      SetNext(h, x);
      HeadLinks(m, at, h, s, x);
    }

    // The two assignments of ems_queue_remove.
    method Unlink(x: Addr)
      requires x in at && at[x].next in at && at[x].prev in at
      modifies this
      ensures at == Unlinked(old(at), x)
    {
      SetPrev(at[x].next, at[x].prev);
      SetNext(at[x].prev, at[x].next);
    }

    // ems_queue_remove
    method Remove(h: Addr, x: Addr, ghost s: seq<Addr>, ghost k: nat)
      requires Ring(at, h, s) && k < |s| && s[k] == x
      modifies this
      ensures Ring(at, h, s[..k] + s[k + 1..]) && Untouched(old(at), at, [h] + s)
      ensures x in at && x in old(at) && at[x] == old(at)[x]
    {
      UnlinkedRing(at, h, s, k);
      Unlink(x);
    }

    // ems_queue_split
    method Split(h: Addr, q: Addr, n: Addr, ghost s: seq<Addr>, ghost k: nat)
      requires Ring(at, h, s) && k < |s| && s[k] == q && n in at && n != h && n !in s
      modifies this
      ensures Ring(at, h, s[..k]) && Ring(at, n, s[k..]) && Untouched(old(at), at, [h, n] + s)
    {
      hide Ring, SplitAt, Untouched;
      SplitRings(at, h, s, k, n);
      ghost var m := at;
      SetPrev(n, at[h].prev);
      SetNext(at[n].prev, n);
      SetNext(n, q);
      SetPrev(h, at[q].prev);
      SetNext(at[h].prev, h);
      SetPrev(q, n);
      SplitWrites(m, h, q, n);
    }

    // ems_queue_add
    method Add(h: Addr, n: Addr, ghost s: seq<Addr>, ghost t: seq<Addr>)
      requires Ring(at, h, s) && Ring(at, n, t) && NoDuplicates([h] + s + ([n] + t))
      modifies this
      ensures Ring(at, h, s + t) && Untouched(old(at), at, [h, n] + s + t)
    {
      hide Ring, NoDuplicates;
      RingEnds(at, h, s);
      RingEnds(at, n, t);
      AddDistinct(h, s, n, t);
      ghost var m := at;
      SetNext(at[h].prev, at[n].next);
      SetPrev(at[n].next, at[h].prev);
      SetPrev(h, at[n].prev);
      SetNext(at[h].prev, h);
      if t == [] {
        assert s + t == s;
        RingFrame(m, at, h, s, [n]);
      } else {
        AddLinks(m, at, h, s, n, t);
      }
    }

    // ems_queue_clean
    method Clean(h: Addr, ghost s: seq<Addr>)
      requires Ring(at, h, s)
      modifies this
      ensures Ring(at, h, []) && Untouched(old(at), at, [h] + s)
    {
      ghost var left := s;
      var empty := Empty(h, left);
      while !empty
        invariant Ring(at, h, left) && (empty <==> left == [])
        invariant Untouched(old(at), at, [h] + s) && forall x :: x in left ==> x in s
        decreases |left|
      {
        RingEnds(at, h, left);
        var x := at[h].next;
        Remove(h, x, left, 0);
        left := left[..0] + left[1..];
        empty := Empty(h, left);
      }
    }
  }

  // Cutting a list before one of its entries and adding the rest back restores it.
  method SplitAndAdd(mem: Memory, h: Addr, q: Addr, n: Addr, ghost s: seq<Addr>, ghost k: nat)
    requires Ring(mem.at, h, s) && k < |s| && s[k] == q && n in mem.at && n != h && n !in s
    modifies mem
    ensures Ring(mem.at, h, s) && Untouched(old(mem.at), mem.at, [h, n] + s)
  {
    mem.Split(h, q, n, s, k);
    ghost var d, all := [h] + s, [h] + s[..k] + ([n] + s[k..]);
    assert s[..k] + s[k..] == s;
    forall i, j | 0 <= i < j < |all| ensures all[i] != all[j] {
      assert all[i] == (if i <= k then d[i] else if i == k + 1 then n else d[i - 1]);
      assert all[j] == (if j <= k then d[j] else if j == k + 1 then n else d[j - 1]);
      assert d[0] == h && forall x :: 1 <= x < |d| ==> d[x] in s;
    }
    mem.Add(h, n, s[..k], s[k..]);
    assert forall x :: x in [h, n] + s[..k] + s[k..] ==> x in [h, n] + s;
  }
}
