// passthrough_ll.c: the circular list of inodes behind the root, as linked objects,
// and the functions that search it, extend it and take inodes off it.
module InodeList {
  import opened Bytes
  import opened InodeRefs

  class LoInode {
    var next: LoInode?
    var prev: LoInode?
    const fd: nat
    const key: Key
    var refcount: nat

    // calloc and the assignments of lo_do_lookup
    constructor (fd: nat, key: Key)
      ensures this.fd == fd && this.key == key && refcount == 1 && next == null && prev == null
    {
      this.fd, this.key, refcount, next, prev := fd, key, 1, null, null;
    }
  }

  // From each element the links lead to its neighbours, and from the last to the first.
  ghost predicate Ring(ring: seq<LoInode>)
    reads ring`next, ring`prev
  {
    && ring != [] && NoDuplicates(ring)
    && (forall i :: 0 <= i < |ring| - 1 ==> ring[i].next == ring[i + 1] && ring[i + 1].prev == ring[i])
    && ring[|ring| - 1].next == ring[0] && ring[0].prev == ring[|ring| - 1]
  }

  lemma RingParts(ring: seq<LoInode>)
    requires Ring(ring)
    ensures ring != [] && forall i :: 0 <= i < |ring| - 1 ==> ring[i].next == ring[i + 1] && ring[i + 1].prev == ring[i]
    ensures ring[|ring| - 1].next == ring[0] && ring[0].prev == ring[|ring| - 1]
    ensures forall i, j :: 0 <= i < j < |ring| ==> ring[i] != ring[j]
  {
  }

  // The links of a ring with an inode put in behind its first element.
  lemma RingWith(ring: seq<LoInode>, inode: LoInode)
    requires ring != [] && (forall i, j :: 0 <= i < j < |ring| ==> ring[i] != ring[j]) && inode !in ring
    requires forall i :: 1 <= i < |ring| - 1 ==> ring[i].next == ring[i + 1] && ring[i + 1].prev == ring[i]
    requires ring[0].next == inode && inode.prev == ring[0]
    requires |ring| == 1 ==> inode.next == ring[0] && ring[0].prev == inode
    requires |ring| > 1 ==> inode.next == ring[1] && ring[1].prev == inode
    requires |ring| > 1 ==> ring[|ring| - 1].next == ring[0] && ring[0].prev == ring[|ring| - 1]
    ensures Ring([ring[0], inode] + ring[1..])
  {
    var r := [ring[0], inode] + ring[1..];
    assert r[0] == ring[0] && r[1] == inode && forall i :: 2 <= i < |r| ==> r[i] == ring[i - 1];
    assert NoDuplicates(r);
    forall i | 0 <= i < |r| - 1 ensures r[i].next == r[i + 1] && r[i + 1].prev == r[i] {
      if i >= 2 {
        assert ring[i - 1].next == ring[i] && ring[i].prev == ring[i - 1];
      }
    }
  }

  // The links of a ring with the neighbours of element k joined.
  lemma RingWithout(ring: seq<LoInode>, k: nat)
    requires 0 < k < |ring| && forall i, j :: 0 <= i < j < |ring| ==> ring[i] != ring[j]
    requires forall i :: 0 <= i < |ring| - 1 && i != k && i != k - 1 ==>
               ring[i].next == ring[i + 1] && ring[i + 1].prev == ring[i]
    requires k + 1 < |ring| ==> ring[k - 1].next == ring[k + 1] && ring[k + 1].prev == ring[k - 1]
    requires k + 1 < |ring| ==> ring[|ring| - 1].next == ring[0] && ring[0].prev == ring[|ring| - 1]
    requires k + 1 == |ring| ==> ring[k - 1].next == ring[0] && ring[0].prev == ring[k - 1]
    ensures Ring(ring[..k] + ring[k + 1..])
  {
    var r := ring[..k] + ring[k + 1..];
    assert forall i :: 0 <= i < |r| ==> r[i] == ring[if i < k then i else i + 1];
    assert NoDuplicates(r);
    forall i | 0 <= i < |r| - 1 ensures r[i].next == r[i + 1] && r[i + 1].prev == r[i] {
      assert i == k - 1 || (var j := if i < k then i else i + 1; ring[j].next == ring[j + 1]);
    }
  }

  function Keys(list: seq<LoInode>): seq<Key> {
    seq(|list|, i requires 0 <= i < |list| => list[i].key)
  }

  // Each file has one inode, whose count is the references to it.
  ghost predicate Tallied(keys: seq<Key>, counts: seq<nat>, refs: multiset<Key>) {
    && |counts| == |keys|
    && (forall i :: 0 <= i < |keys| ==> counts[i] == refs[keys[i]] > 0)
    && (forall i, j :: 0 <= i < j < |keys| ==> keys[i] != keys[j])
    && (forall k :: k in refs ==> k in keys)
  }

  lemma TallyDistinct(keys: seq<Key>, counts: seq<nat>, refs: multiset<Key>, k: nat)
    requires Tallied(keys, counts, refs) && k < |keys|
    ensures |counts| == |keys| && counts[k] == refs[keys[k]] > 0
    ensures forall i :: 0 <= i < |keys| && i != k ==> keys[i] != keys[k]
    ensures forall x :: x in keys <==> x in refs
  {
    forall x | x in keys ensures x in refs {
      var i :| 0 <= i < |keys| && keys[i] == x;
    }
  }

  lemma TallySet(keys: seq<Key>, counts: seq<nat>, refs: multiset<Key>, k: nat, n: nat)
    requires Tallied(keys, counts, refs) && k < |keys| && n > 0
    ensures Tallied(keys, counts[k := n], refs[keys[k] := n])
  {
  }

  lemma TallyInsert(keys: seq<Key>, counts: seq<nat>, refs: multiset<Key>, key: Key)
    requires Tallied(keys, counts, refs) && key !in keys
    ensures key !in refs && Tallied([key] + keys, [1] + counts, refs[key := 1])
  {
    var keys' := [key] + keys;
    forall x | x in refs[key := 1] ensures x in keys' {
      if x != key {
        assert x in refs && x in keys;
      }
    }
  }

  lemma RemoveAt<T>(xs: seq<T>, k: nat, i: nat)
    requires k < |xs| && i < |xs| - 1
    ensures (xs[..k] + xs[k + 1..])[i] == xs[if i < k then i else i + 1]
  {
  }

  lemma RemoveKeeps<T>(xs: seq<T>, k: nat, x: T)
    requires k < |xs| && x in xs && x != xs[k]
    ensures x in xs[..k] + xs[k + 1..]
  {
    assert xs == xs[..k] + [xs[k]] + xs[k + 1..];
  }

  lemma TallyRemove(keys: seq<Key>, counts: seq<nat>, refs: multiset<Key>, k: nat)
    requires Tallied(keys, counts, refs) && k < |keys|
    ensures Tallied(keys[..k] + keys[k + 1..], counts[..k] + counts[k + 1..], refs[keys[k] := 0])
  {
    var keys', counts', refs' := keys[..k] + keys[k + 1..], counts[..k] + counts[k + 1..], refs[keys[k] := 0];
    forall i | 0 <= i < |keys'| ensures counts'[i] == refs'[keys'[i]] > 0 {
      RemoveAt(keys, k, i);
      RemoveAt(counts, k, i);
    }
    forall i, j | 0 <= i < j < |keys'| ensures keys'[i] != keys'[j] {
      RemoveAt(keys, k, i);
      RemoveAt(keys, k, j);
    }
    forall x | x in refs' ensures x in keys' {
      RemoveKeeps(keys, k, x);
    }
  }

  // The neighbours of an inode on the ring are joined.
  method Unlink(inode: LoInode, ghost ring: seq<LoInode>, ghost k: nat)
    requires Ring(ring) && 0 < k < |ring| && ring[k] == inode
    modifies ring`next, ring`prev
    ensures Ring(ring[..k] + ring[k + 1..])
  {
    hide Ring, NoDuplicates;
    RingParts(ring);
    RingAt(ring, k);
    var prev := inode.prev;
    var next := inode.next;
    next.prev := prev;
    prev.next := next;
    RingWithout(ring, k);
  }

  lemma RingAt(ring: seq<LoInode>, k: nat)
    requires Ring(ring) && 0 < k < |ring|
    ensures ring[k].prev == ring[k - 1] && ring[k].next == (if k + 1 < |ring| then ring[k + 1] else ring[0])
  {
    assert ring[k - 1 + 1] == ring[k];
  }

  // A reference to a file that has an inode already, and to one that has none.
  lemma TallyAdd(list: seq<LoInode>, counts: seq<nat>, refs: multiset<Key>, e: LoInode) returns (k: nat)
    requires Tallied(Keys(list), counts, refs) && e in list
    ensures k < |list| == |counts| && list[k] == e && e.key in refs
    ensures forall i :: 0 <= i < |list| && i != k ==> list[i] != e
    ensures Tallied(Keys(list), counts[k := counts[k] + 1], refs + multiset{e.key})
  {
    hide Tallied;
    k :| 0 <= k < |list| && list[k] == e;
    TallyDistinct(Keys(list), counts, refs, k);
    TallySet(Keys(list), counts, refs, k, counts[k] + 1);
    forall i | 0 <= i < |list| && i != k ensures list[i] != e {
      assert Keys(list)[i] != Keys(list)[k];
    }
    assert refs + multiset{e.key} == refs[e.key := refs[e.key] + 1];
  }

  lemma TallyNew(list: seq<LoInode>, counts: seq<nat>, refs: multiset<Key>, e: LoInode)
    requires Tallied(Keys(list), counts, refs) && forall i :: 0 <= i < |list| ==> list[i].key != e.key
    ensures e.key !in refs && |counts| == |list|
    ensures Tallied(Keys([e] + list), [1] + counts, refs + multiset{e.key})
  {
    hide Tallied;
    TallySize(Keys(list), counts, refs);
    TallyInsert(Keys(list), counts, refs, e.key);
    assert Keys([e] + list) == [e.key] + Keys(list);
    assert refs + multiset{e.key} == refs[e.key := 1];
  }

  lemma TallySize(keys: seq<Key>, counts: seq<nat>, refs: multiset<Key>)
    requires Tallied(keys, counts, refs)
    ensures |counts| == |keys|
  {
  }

  // References given back, some of them or all.
  lemma TallyDrop(list: seq<LoInode>, counts: seq<nat>, refs: multiset<Key>, e: LoInode, n: nat) returns (k: nat)
    requires Tallied(Keys(list), counts, refs) && e in list && 0 < n <= refs[e.key]
    ensures k < |list| == |counts| && list[k] == e && counts[k] == refs[e.key]
    ensures forall i :: 0 <= i < |list| && i != k ==> list[i] != e
    ensures counts[k] > n ==> Tallied(Keys(list), counts[k := counts[k] - n], refs[e.key := refs[e.key] - n])
    ensures counts[k] == n ==>
      Tallied(Keys(list[..k] + list[k + 1..]), counts[..k] + counts[k + 1..], refs[e.key := 0])
  {
    hide Tallied;
    k :| 0 <= k < |list| && list[k] == e;
    TallyDistinct(Keys(list), counts, refs, k);
    forall i | 0 <= i < |list| && i != k ensures list[i] != e {
      assert Keys(list)[i] != Keys(list)[k];
    }
    if counts[k] > n {
      TallySet(Keys(list), counts, refs, k, counts[k] - n);
    } else {
      TallyRemove(Keys(list), counts, refs, k);
      assert Keys(list[..k] + list[k + 1..]) == Keys(list)[..k] + Keys(list)[k + 1..];
    }
  }

  class LoData {
    const root: LoInode
    ghost var list: seq<LoInode>
    ghost var counts: seq<nat>
    // The references taken and not given back, one for each entry of the kernel.
    ghost var refs: multiset<Key>
    // Descriptors closed, in order.
    ghost var closed: seq<nat>

    ghost predicate Linked()
      reads `list, root, list
    {
      Ring([root] + list)
    }

    ghost predicate Counted()
      reads `list, `counts, `refs, list
    {
      && Tallied(Keys(list), counts, refs)
      && forall i :: 0 <= i < |list| ==> list[i].refcount == counts[i]
    }

    ghost predicate Valid()
      reads this, root, list
    {
      Linked() && Counted()
    }

    constructor ()
      ensures Valid() && fresh(root) && list == [] && refs == multiset{} && closed == []
    {
      var r := new LoInode(0, Key(0, 0));
      root := r;
      list, counts, refs, closed := [], [], multiset{}, [];
      new;
      r.next, r.prev := r, r;
    }

    // lo_find: walk the ring from the root to the first inode with the key.
    method LoFind(key: Key) returns (ret: LoInode?)
      requires Linked()
      modifies list
      ensures Linked()
      ensures ret == null ==> forall i :: 0 <= i < |list| ==> list[i].key != key
      ensures ret != null ==> ret in list && ret.key == key && ret.refcount == old(ret.refcount) + 1
      ensures forall n :: n in list && n != ret ==> n.refcount == old(n.refcount)
    {
      ghost var ring := [root] + list;
      assert ring[0] == root && forall j :: 0 <= j < |list| ==> ring[j + 1] == list[j];
      ghost var i := 0;
      var p := root.next;
      ret := null;
      while p != root
        invariant 0 <= i <= |list| && p == (if i == |list| then root else list[i])
        invariant Linked() && forall n :: n in list ==> n.refcount == old(n.refcount)
        invariant forall j :: 0 <= j < i ==> list[j].key != key
        decreases |list| - i
      {
        assert p == ring[i + 1] && p == list[i] && p in list;
        if p.key == key {
          ret := p;
          ret.refcount := ret.refcount + 1;
          return;
        }
        assert ring[i + 1].next == (if i + 2 < |ring| then ring[i + 2] else ring[0]);
        p := p.next;
        i := i + 1;
      }
    }

    // The lock section of lo_do_lookup: in behind the root.
    method LoInsert(inode: LoInode)
      requires Linked() && inode != root && inode !in list
      modifies this`list, root, list, inode
      ensures Linked() && list == [inode] + old(list)
      ensures forall n :: n in list ==> n.refcount == old(n.refcount)
    {
      hide Ring, NoDuplicates;
      ghost var ring := [root] + list;
      RingParts(ring);
      assert inode !in ring && ring[0] == root && ring[1..] == list;
      var prev := root;
      var next := prev.next;
      assert next == if list == [] then root else ring[1];
      next.prev := inode;
      inode.next := next;
      inode.prev := prev;
      prev.next := inode;
      list := [inode] + list;
      RingWith(ring, inode);
      assert [root] + list == [root, inode] + ring[1..];
    }

    // The lock section of unref_inode.
    method UnrefInode(inode: LoInode, n: nat, ghost k: nat)
      requires Linked() && k < |list| && list[k] == inode && inode.refcount >= n
      modifies this`list, this`closed, root, list
      ensures Linked() && forall x :: x in old(list) && x != inode ==> x.refcount == old(x.refcount)
      ensures if old(inode.refcount) > n
              then list == old(list) && closed == old(closed) && inode.refcount == old(inode.refcount) - n
              else list == old(list)[..k] + old(list)[k + 1..] && closed == old(closed) + [inode.fd]
    {
      hide Ring, NoDuplicates;
      ghost var ring := [root] + list;
      inode.refcount := inode.refcount - n;
      if inode.refcount == 0 {
        assert ring[k + 1] == inode;
        Unlink(inode, ring, k + 1);
        list := list[..k] + list[k + 1..];
        assert [root] + list == ring[..k + 1] + ring[k + 2..];
        closed := closed + [inode.fd];
      }
    }

    // lo_do_lookup after a successful openat and fstatat, one request at a time.
    method LoDoLookup(newfd: nat, key: Key) returns (e: LoInode)
      requires Valid()
      modifies this`list, this`counts, this`refs, this`closed, root, list
      ensures Valid() && e in list && e.key == key
      ensures refs == old(refs) + multiset{key}
      ensures if key in old(refs) then list == old(list) && closed == old(closed) + [newfd]
              else fresh(e) && e.fd == newfd && list == [e] + old(list) && closed == old(closed)
    {
      hide Ring, LoData.Linked, Tallied, Keys;
      var inode := LoFind(key);
      if inode != null {
        closed := closed + [newfd];
        e := inode;
        ghost var k := TallyAdd(list, counts, refs, e);
        counts := counts[k := counts[k] + 1];
        refs := refs + multiset{key};
        forall i | 0 <= i < |list| ensures list[i].refcount == counts[i] {
          assert list[i] in list;
        }
      } else {
        e := new LoInode(newfd, key);
        TallyNew(list, counts, refs, e);
        LoInsert(e);
        counts := [1] + counts;
        refs := refs + multiset{key};
        forall i | 0 <= i < |list| ensures list[i].refcount == counts[i] {
          assert list[i] in list && (i > 0 ==> list[i] == old(list)[i - 1]);
        }
      }
    }

    // unref_inode, as lo_forget_one calls it for an inode on the list.
    method LoForgetOne(inode: LoInode, n: nat)
      requires Valid() && inode in list && 0 < n <= refs[inode.key]
      modifies this`list, this`counts, this`refs, this`closed, root, list
      ensures Valid() && refs == old(refs)[inode.key := old(refs)[inode.key] - n]
      ensures closed == old(closed) + (if inode.key in refs then [] else [inode.fd])
      ensures inode in list <==> inode.key in refs
      ensures forall x :: x in list ==> x in old(list)
      ensures forall x :: x in old(list) && x != inode ==> x in list
    {
      hide Ring, LoData.Linked, Tallied, Keys;
      ghost var was := list;
      ghost var k := TallyDrop(list, counts, refs, inode, n);
      UnrefInode(inode, n, k);
      if counts[k] > n {
        counts := counts[k := counts[k] - n];
      } else {
        Without(was, k);
        counts := counts[..k] + counts[k + 1..];
      }
      refs := refs[inode.key := refs[inode.key] - n];
    }

    lemma Without(xs: seq<LoInode>, k: nat)
      requires k < |xs| && forall i :: 0 <= i < |xs| && i != k ==> xs[i] != xs[k]
      ensures var ys := xs[..k] + xs[k + 1..];
              (forall x :: x in ys <==> x in xs && x != xs[k])
    {
      assert xs == xs[..k] + [xs[k]] + xs[k + 1..];
      var ys := xs[..k] + xs[k + 1..];
      forall i | 0 <= i < |ys| ensures ys[i] != xs[k] {
        RemoveAt(xs, k, i);
      }
    }
  }
}
