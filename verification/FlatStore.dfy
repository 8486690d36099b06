// What the scatter/gather copy acts on, seen as one flat collection of byte
// locations: addresses of memory and positions of open files. A file reads as
// zero past its end, as a sparse file does once it has been extended.
module FlatStore {
  import opened Bytes

  datatype Loc = Mem(addr: nat) | File(fd: nat, at: nat)

  datatype Store = Store(mem: Data, files: seq<Data>)

  predicate InStore(s: Store, l: Loc) {
    match l
    case Mem(a) => a < |s.mem|
    case File(fd, _) => fd < |s.files|
  }

  predicate AllIn(s: Store, ls: seq<Loc>) {
    forall k :: 0 <= k < |ls| ==> InStore(s, ls[k])
  }

  predicate SameShape(s: Store, t: Store) {
    |s.mem| == |t.mem| && |s.files| == |t.files|
  }

  predicate Disjoint(xs: seq<Loc>, ys: seq<Loc>) {
    forall i, j :: 0 <= i < |xs| && 0 <= j < |ys| ==> xs[i] != ys[j]
  }

  function At(s: Store, l: Loc): Byte
    requires InStore(s, l)
  {
    match l
    case Mem(a) => s.mem[a]
    case File(fd, p) => if p < |s.files[fd]| then s.files[fd][p] else 0
  }

  // A file after the bytes have been written at a position, extended if needed.
  function Splice(f: Data, at: nat, bytes: Data): Data {
    if |f| < at then f + Zeros(at - |f|) + bytes
    else if at + |bytes| < |f| then f[..at] + bytes + f[at + |bytes|..]
    else f[..at] + bytes
  }

  function Put(s: Store, l: Loc, v: Byte): (t: Store)
    requires InStore(s, l)
    ensures SameShape(s, t)
  {
    match l
    case Mem(a) => s.(mem := s.mem[a := v])
    case File(fd, p) => s.(files := s.files[fd := Splice(s.files[fd], p, [v])])
  }

  // The reference copy: one byte at a time, from the first location to the last.
  function FlatCopy(s: Store, dst: seq<Loc>, src: seq<Loc>, n: nat): (t: Store)
    requires n <= |dst| && n <= |src|
    requires AllIn(s, dst) && AllIn(s, src)
    ensures SameShape(s, t)
  {
    if n == 0 then s
    else
      var t := FlatCopy(s, dst, src, n - 1);
      Put(t, dst[n - 1], At(t, src[n - 1]))
  }

  lemma AllInSame(s: Store, t: Store, ls: seq<Loc>)
    requires SameShape(s, t) && AllIn(s, ls)
    ensures AllIn(t, ls)
  {
    forall k | 0 <= k < |ls| ensures InStore(t, ls[k]) {
      assert InStore(s, ls[k]);
    }
  }

  lemma {:induction false} FlatCopyFrame(s: Store, dst: seq<Loc>, src: seq<Loc>, n: nat, l: Loc)
    requires n <= |dst| && n <= |src|
    requires AllIn(s, dst) && AllIn(s, src)
    requires InStore(s, l) && forall k :: 0 <= k < n ==> dst[k] != l
    ensures At(FlatCopy(s, dst, src, n), l) == At(s, l)
  {
    if n > 0 {
      FlatCopyFrame(s, dst, src, n - 1, l);
    }
  }

  lemma {:induction false} FlatCopySplit(s: Store, dst: seq<Loc>, src: seq<Loc>, m: nat, n: nat)
    requires m + n <= |dst| && m + n <= |src|
    requires AllIn(s, dst) && AllIn(s, src)
    ensures FlatCopy(FlatCopy(s, dst, src, m), dst[m..], src[m..], n) == FlatCopy(s, dst, src, m + n)
  {
    var t := FlatCopy(s, dst, src, m);
    AllInSame(s, t, dst[m..]);
    AllInSame(s, t, src[m..]);
    if n > 0 {
      FlatCopySplit(s, dst, src, m, n - 1);
      assert m + n - 1 == m + (n - 1);
      var u := FlatCopy(t, dst[m..], src[m..], n - 1);
      assert FlatCopy(t, dst[m..], src[m..], n) == Put(u, dst[m..][n - 1], At(u, src[m..][n - 1]));
      assert FlatCopy(s, dst, src, m + n) == Put(u, dst[m + n - 1], At(u, src[m + n - 1]));
    }
  }

  lemma {:induction false} FlatCopyPrefix(s: Store, d: seq<Loc>, d': seq<Loc>, e: seq<Loc>, e': seq<Loc>, n: nat)
    requires n <= |d| && n <= |d'| && n <= |e| && n <= |e'|
    requires AllIn(s, d) && AllIn(s, d') && AllIn(s, e) && AllIn(s, e')
    requires d[..n] == d'[..n] && e[..n] == e'[..n]
    ensures FlatCopy(s, d, e, n) == FlatCopy(s, d', e', n)
  {
    if n > 0 {
      assert d[..n][n - 1] == d'[..n][n - 1] && e[..n][n - 1] == e'[..n][n - 1];
      assert d[..n - 1] == d[..n][..n - 1] && d'[..n - 1] == d'[..n][..n - 1];
      assert e[..n - 1] == e[..n][..n - 1] && e'[..n - 1] == e'[..n][..n - 1];
      FlatCopyPrefix(s, d, d', e, e', n - 1);
    }
  }

  lemma {:induction false} FlatCopyArrives(s: Store, dst: seq<Loc>, src: seq<Loc>, n: nat, k: nat)
    requires k < n <= |dst| && n <= |src|
    requires AllIn(s, dst) && AllIn(s, src)
    requires Disjoint(dst, src) && NoDuplicates(dst)
    ensures At(FlatCopy(s, dst, src, n), dst[k]) == At(s, src[k])
  {
    hide FlatCopy, Put, At;
    FlatCopyNext(s, dst, src, n - 1);
    var t := FlatCopy(s, dst, src, n - 1);
    PutAt(t, dst[n - 1], At(t, src[n - 1]), dst[k]);
    if k == n - 1 {
      FlatCopyFrame(s, dst, src, k, src[k]);
    } else {
      FlatCopyArrives(s, dst, src, n - 1, k);
    }
  }

  lemma PutAt(s: Store, l: Loc, v: Byte, m: Loc)
    requires InStore(s, l) && InStore(s, m)
    ensures At(Put(s, l, v), m) == if m == l then v else At(s, m)
  {
  }

  // What the reference copy achieves between disjoint places: the destination
  // holds the old source bytes and every other byte is as it was.
  lemma {:induction false} FlatCopyMeaning(s: Store, dst: seq<Loc>, src: seq<Loc>, n: nat)
    requires n <= |dst| && n <= |src|
    requires AllIn(s, dst) && AllIn(s, src)
    requires Disjoint(dst, src) && NoDuplicates(dst)
    ensures forall k :: 0 <= k < n ==> At(FlatCopy(s, dst, src, n), dst[k]) == At(s, src[k])
    ensures forall l :: InStore(s, l) && l !in dst[..n] ==> At(FlatCopy(s, dst, src, n), l) == At(s, l)
  {
    var t := FlatCopy(s, dst, src, n);
    forall l | InStore(s, l) && l !in dst[..n] ensures At(t, l) == At(s, l) {
      forall k | 0 <= k < n ensures dst[k] != l {
        assert dst[k] == dst[..n][k];
      }
      FlatCopyFrame(s, dst, src, n, l);
    }
    forall k | 0 <= k < n ensures At(t, dst[k]) == At(s, src[k]) {
      FlatCopyArrives(s, dst, src, n, k);
    }
  }

  // The number of bytes a file must have for the given locations to be inside it.
  function Reach(ls: seq<Loc>, fd: nat): nat {
    if ls == [] then 0
    else
      var r := Reach(ls[..|ls| - 1], fd);
      match ls[|ls| - 1]
      case Mem(_) => r
      case File(f, p) => if f == fd && r < p + 1 then p + 1 else r
  }

  // A file grows exactly as far as the last byte copied into it, and no further.
  lemma {:induction false} FlatCopyLength(s: Store, dst: seq<Loc>, src: seq<Loc>, n: nat, fd: nat)
    requires n <= |dst| && n <= |src|
    requires AllIn(s, dst) && AllIn(s, src)
    requires fd < |s.files|
    ensures |FlatCopy(s, dst, src, n).files[fd]|
         == if |s.files[fd]| < Reach(dst[..n], fd) then Reach(dst[..n], fd) else |s.files[fd]|
  {
    if n > 0 {
      assert dst[..n][..n - 1] == dst[..n - 1];
      FlatCopyLength(s, dst, src, n - 1, fd);
    }
  }

  // A block write: all bytes are taken first, then stored in consecutive places.
  function Block(s: Store, start: Loc, bytes: Data): (t: Store)
    requires match start case Mem(a) => a + |bytes| <= |s.mem| case File(fd, _) => fd < |s.files|
    ensures SameShape(s, t)
  {
    match start
    case Mem(a) => s.(mem := Splice(s.mem, a, bytes))
    case File(fd, p) => s.(files := s.files[fd := Splice(s.files[fd], p, bytes)])
  }

  function Offset(l: Loc, k: nat): Loc {
    match l
    case Mem(a) => Mem(a + k)
    case File(fd, p) => File(fd, p + k)
  }

  function Run(start: Loc, n: nat): seq<Loc> {
    seq(n, k requires 0 <= k < n => Offset(start, k))
  }

  lemma RunPrefix(start: Loc, m: nat, n: nat)
    requires m <= n
    ensures Run(start, n)[..m] == Run(start, m)
  {
  }

  // The byte at every position after a splice.
  lemma SpliceAt(f: Data, at: nat, bytes: Data, k: nat)
    ensures |Splice(f, at, bytes)| == if |f| < at + |bytes| then at + |bytes| else |f|
    ensures k < |Splice(f, at, bytes)| ==> Splice(f, at, bytes)[k] == SplicedByte(f, at, bytes, k)
  {
  }

  function SplicedByte(f: Data, at: nat, bytes: Data, k: nat): Byte {
    if at <= k < at + |bytes| then bytes[k - at] else if k < |f| then f[k] else 0
  }

  lemma SpliceLast(f: Data, at: nat, bytes: Data)
    requires |bytes| > 1
    ensures var n := |bytes| - 1;
            Splice(f, at, bytes) == Splice(Splice(f, at, bytes[..n]), at + n, [bytes[n]])
  {
    hide Splice;
    var n := |bytes| - 1;
    var g := Splice(f, at, bytes[..n]);
    var h := Splice(g, at + n, [bytes[n]]);
    SpliceAt(f, at, bytes, 0);
    SpliceAt(f, at, bytes[..n], 0);
    SpliceAt(g, at + n, [bytes[n]], 0);
    forall k | 0 <= k < |h| ensures h[k] == Splice(f, at, bytes)[k] {
      SpliceAt(f, at, bytes, k);
      SpliceAt(f, at, bytes[..n], k);
      SpliceAt(g, at + n, [bytes[n]], k);
    }
  }

  // In memory there is always room, and a byte spliced in is a byte replaced.
  lemma SpliceWithin(f: Data, at: nat, v: Byte)
    requires at < |f|
    ensures Splice(f, at, [v]) == f[at := v]
  {
  }

  lemma BlockLast(s: Store, start: Loc, bytes: Data)
    requires |bytes| > 1
    requires match start case Mem(a) => a + |bytes| <= |s.mem| case File(fd, _) => fd < |s.files|
    ensures Block(s, start, bytes)
         == Put(Block(s, start, bytes[..|bytes| - 1]), Offset(start, |bytes| - 1), bytes[|bytes| - 1])
  {
    hide Splice;
    var n := |bytes| - 1;
    match start
    case Mem(a) =>
      SpliceLast(s.mem, a, bytes);
      SpliceAt(s.mem, a, bytes[..n], 0);
      SpliceWithin(Splice(s.mem, a, bytes[..n]), a + n, bytes[n]);
    case File(fd, p) =>
      SpliceLast(s.files[fd], p, bytes);
  }

  // A block copied between disjoint places is the byte-by-byte copy of it.
  lemma {:induction false} BlockIsFlatCopy(s: Store, start: Loc, src: seq<Loc>, bytes: Data)
    requires match start case Mem(a) => a + |bytes| <= |s.mem| case File(fd, _) => fd < |s.files|
    requires 0 < |bytes| == |src| && AllIn(s, src)
    requires forall k :: 0 <= k < |src| ==> bytes[k] == At(s, src[k])
    requires Disjoint(Run(start, |bytes|), src)
    ensures Block(s, start, bytes) == FlatCopy(s, Run(start, |bytes|), src, |bytes|)
  {
    hide FlatCopy, Block, Splice;
    var n := |bytes| - 1;
    var dst := Run(start, n + 1);
    assert AllIn(s, dst);
    FlatCopyFrame(s, dst, src, n, src[n]);
    FlatCopyNext(s, dst, src, n);
    if n == 0 {
      BlockFirst(s, start, bytes);
      FlatCopyNone(s, dst, src);
    } else {
      RunPrefix(start, n, n + 1);
      forall i, j | 0 <= i < n && 0 <= j < n ensures Run(start, n)[i] != src[..n][j] {
        assert dst[i] != src[j];
      }
      BlockIsFlatCopy(s, start, src[..n], bytes[..n]);
      BlockLast(s, start, bytes);
      FlatCopyPrefix(s, Run(start, n), dst, src[..n], src, n);
    }
  }

  lemma BlockFirst(s: Store, start: Loc, bytes: Data)
    requires |bytes| == 1
    requires match start case Mem(a) => a + 1 <= |s.mem| case File(fd, _) => fd < |s.files|
    ensures Block(s, start, bytes) == Put(s, Offset(start, 0), bytes[0])
  {
    assert bytes == [bytes[0]];
    match start
    case Mem(a) => assert Splice(s.mem, a, bytes) == s.mem[a := bytes[0]];
    case File(fd, p) =>
  }

  lemma FlatCopyNone(s: Store, dst: seq<Loc>, src: seq<Loc>)
    requires AllIn(s, dst) && AllIn(s, src)
    ensures FlatCopy(s, dst, src, 0) == s
  {
  }

  lemma FlatCopyNext(s: Store, dst: seq<Loc>, src: seq<Loc>, n: nat)
    requires n < |dst| && n < |src| && AllIn(s, dst) && AllIn(s, src)
    ensures var t := FlatCopy(s, dst, src, n);
            InStore(t, dst[n]) && InStore(t, src[n]) &&
            FlatCopy(s, dst, src, n + 1) == Put(t, dst[n], At(t, src[n]))
  {
    AllInSame(s, FlatCopy(s, dst, src, n), dst);
    AllInSame(s, FlatCopy(s, dst, src, n), src);
  }
}
