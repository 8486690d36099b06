// lib/buffer.c: copying between two vectors of buffers, each buffer being memory
// or a region of an open file reached with pread and pwrite.
module FuseBuffer {
  import opened Bytes
  import opened FlatStore

  // struct fuse_buf with its flags FUSE_BUF_IS_FD and FUSE_BUF_FD_RETRY; every
  // descriptor carries FUSE_BUF_FD_SEEK.
  datatype Buf = Buf(size: nat, isFd: bool, retry: bool, mem: nat, fd: nat, pos: nat)
  {
    function Start(off: nat): Loc {
      if isFd then File(fd, pos + off) else Mem(mem + off)
    }

    // The memory is allocated, or the descriptor open.
    predicate Fits(s: Store) {
      if isFd then fd < |s.files| else mem + size <= |s.mem|
    }
  }

  const SIZE_MAX := 0xFFFF_FFFF_FFFF_FFFF

  const TMP_SIZE := 4096

  predicate Holds(s: Store, l: Loc, n: nat) {
    match l
    case Mem(a) => a + n <= |s.mem|
    case File(fd, p) => fd < |s.files| && p + n <= |s.files[fd]|
  }

  function BytesAt(s: Store, l: Loc, n: nat): (bytes: Data)
    requires Holds(s, l, n)
    ensures |bytes| == n
  {
    match l
    case Mem(a) => s.mem[a..a + n]
    case File(fd, p) => s.files[fd][p..p + n]
  }

  // The memory and the files, with system calls free to transfer any count, to
  // see the end of the file or to fail.
  class World {
    var mem: Data
    var files: seq<Data>
    ghost var calls: nat  // system calls made
    ghost var shorts: nat // calls that moved less than was asked for
    ghost var stops: nat  // ... and of these, calls that moved nothing
    ghost var error: int  // errno of the last call that failed

    function Now(): Store
      reads `mem, `files
    {
      Store(mem, files)
    }

    // The counters after a call that was asked for len bytes.
    ghost predicate Counted(shorts0: nat, stops0: nat, res: int, len: nat)
      reads `shorts, `stops
    {
      && shorts == shorts0 + (if res < len then 1 else 0)
      && stops == stops0 + (if res <= 0 then 1 else 0)
    }

    method Pread(fd: nat, addr: nat, len: nat, pos: nat) returns (res: int, errno: int)
      requires fd < |files| && addr + len <= |mem|
      modifies this
      ensures -1 <= res <= len && errno > 0 && calls == old(calls) + 1 && Counted(old(shorts), old(stops), res, len)
      ensures res <= 0 ==> Now() == old(Now())
      ensures res == -1 ==> error == errno
      ensures res > 0 ==> Holds(old(Now()), File(fd, pos), res)
      ensures res > 0 ==> Now() == Block(old(Now()), Mem(addr), BytesAt(old(Now()), File(fd, pos), res))
    {
      hide Splice;
      errno :| errno > 0;
      res :| -1 <= res <= len && (res > 0 ==> pos + res <= |files[fd]|);
      calls, shorts, stops := calls + 1, shorts + (if res < len then 1 else 0), stops + (if res <= 0 then 1 else 0);
      error := errno;
      if res > 0 {
        mem := Splice(mem, addr, files[fd][pos..pos + res]);
      }
    }

    method Pwrite(fd: nat, addr: nat, len: nat, pos: nat) returns (res: int, errno: int)
      requires fd < |files| && addr + len <= |mem|
      modifies this
      ensures -1 <= res <= len && errno > 0 && calls == old(calls) + 1 && Counted(old(shorts), old(stops), res, len)
      ensures res <= 0 ==> Now() == old(Now())
      ensures res == -1 ==> error == errno
      ensures res > 0 ==> Now() == Block(old(Now()), File(fd, pos), BytesAt(old(Now()), Mem(addr), res))
    {
      hide Splice;
      errno :| errno > 0;
      res :| -1 <= res <= len;
      calls, shorts, stops := calls + 1, shorts + (if res < len then 1 else 0), stops + (if res <= 0 then 1 else 0);
      error := errno;
      if res > 0 {
        files := files[fd := Splice(files[fd], pos, mem[addr..addr + res])];
      }
    }
  }

  predicate RunFits(s: Store, l: Loc, n: nat) {
    match l
    case Mem(a) => a + n <= |s.mem|
    case File(fd, _) => fd < |s.files|
  }

  // Copying n bytes from one run of locations to another.
  function RunCopy(s: Store, dst: Loc, src: Loc, len: nat, n: nat): (t: Store)
    requires n <= len && RunFits(s, dst, len) && RunFits(s, src, len)
    ensures SameShape(s, t)
  {
    assert AllIn(s, Run(dst, len)) && AllIn(s, Run(src, len));
    FlatCopy(s, Run(dst, len), Run(src, len), n)
  }

  // The next n bytes read one location at a time.
  function Peek(s: Store, l: Loc, n: nat): (bytes: Data)
    requires RunFits(s, l, n)
  {
    seq(n, k requires 0 <= k < n => At(s, Offset(l, k)))
  }

  lemma RunFrom(l: Loc, m: nat, r: nat, n: nat)
    requires m + r <= n
    ensures Run(l, n)[m..][..r] == Run(Offset(l, m), r)
  {
  }

  lemma SubRuns(t: Store, dst: Loc, src: Loc, m: nat, r: nat, n: nat)
    requires m + r <= n && Disjoint(Run(dst, n), Run(src, n))
    requires RunFits(t, dst, n) && RunFits(t, src, n)
    ensures Disjoint(Run(Offset(dst, m), r), Run(Offset(src, m), r))
    ensures AllIn(t, Run(dst, n)) && AllIn(t, Run(src, n))
    ensures AllIn(t, Run(Offset(dst, m), r)) && AllIn(t, Run(Offset(src, m), r))
    ensures RunFits(t, Offset(src, m), r) && RunFits(t, Offset(dst, m), r)
    ensures |Run(dst, n)| == |Run(src, n)| == n && |Run(Offset(dst, m), r)| == |Run(Offset(src, m), r)| == r
  {
    var d, e := Run(dst, n), Run(src, n);
    var d', e' := Run(Offset(dst, m), r), Run(Offset(src, m), r);
    forall i, j | 0 <= i < r && 0 <= j < r ensures d'[i] != e'[j] {
      assert d[m + i] == d'[i] && e[m + j] == e'[j];
    }
  }

  lemma PeekIsRun(t: Store, l: Loc, n: nat)
    requires RunFits(t, l, n)
    ensures |Run(l, n)| == n && AllIn(t, Run(l, n))
    ensures forall k :: 0 <= k < n ==> Peek(t, l, n)[k] == At(t, Run(l, n)[k])
  {
  }

  // One transfer of some bytes extends a copy of m bytes.
  lemma ExtendCopyBytes(s: Store, dst: Loc, src: Loc, m: nat, bytes: Data, n: nat)
    requires 0 < |bytes| && m + |bytes| <= n
    requires RunFits(s, dst, n) && RunFits(s, src, n) && Disjoint(Run(dst, n), Run(src, n))
    requires RunFits(s, Offset(src, m), |bytes|)
    requires bytes == Peek(RunCopy(s, dst, src, n, m), Offset(src, m), |bytes|)
    ensures Block(RunCopy(s, dst, src, n, m), Offset(dst, m), bytes) == RunCopy(s, dst, src, n, m + |bytes|)
  {
    hide FlatCopy, Block, Run, AllIn, Disjoint, At, Peek;
    var r := |bytes|;
    var t := RunCopy(s, dst, src, n, m);
    var d, e := Run(dst, n), Run(src, n);
    var d', e' := Run(Offset(dst, m), r), Run(Offset(src, m), r);
    SubRuns(t, dst, src, m, r, n);
    SubRuns(s, dst, src, m, r, n);
    PeekIsRun(t, Offset(src, m), r);
    BlockIsFlatCopy(t, Offset(dst, m), e', bytes);
    RunFrom(dst, m, r, n);
    RunFrom(src, m, r, n);
    SubRunCopy(t, d', d[m..], e', e[m..], d, e, m, r);
    FlatCopySplit(s, d, e, m, r);
  }

  lemma SubRunCopy(t: Store, d': seq<Loc>, dm: seq<Loc>, e': seq<Loc>, em: seq<Loc>, d: seq<Loc>, e: seq<Loc>,
                   m: nat, r: nat)
    requires m + r <= |d| && m + r <= |e| && AllIn(t, d) && AllIn(t, e) && AllIn(t, d') && AllIn(t, e')
    requires dm == d[m..] && em == e[m..] && dm[..r] == d' && em[..r] == e'
    ensures AllIn(t, dm) && AllIn(t, em) && FlatCopy(t, d', e', r) == FlatCopy(t, dm, em, r)
  {
    hide FlatCopy;
    assert forall k :: 0 <= k < |dm| ==> dm[k] == d[m + k];
    assert forall k :: 0 <= k < |em| ==> em[k] == e[m + k];
    FlatCopyPrefix(t, d', dm, e', em, r);
  }

  lemma BytesArePeek(t: Store, l: Loc, r: nat)
    requires Holds(t, l, r)
    ensures RunFits(t, l, r) && BytesAt(t, l, r) == Peek(t, l, r)
  {
  }

  lemma ExtendCopy(s: Store, t: Store, dst: Loc, src: Loc, m: nat, r: nat, n: nat)
    requires 0 < r && m + r <= n
    requires RunFits(s, dst, n) && RunFits(s, src, n) && Disjoint(Run(dst, n), Run(src, n))
    requires t == RunCopy(s, dst, src, n, m)
    requires Holds(t, Offset(src, m), r)
    ensures Block(t, Offset(dst, m), BytesAt(t, Offset(src, m), r)) == RunCopy(s, dst, src, n, m + r)
  {
    hide FlatCopy, Run, Disjoint, Block, BytesAt, Peek, AllIn;
    BytesArePeek(t, Offset(src, m), r);
    ExtendCopyBytes(s, dst, src, m, BytesAt(t, Offset(src, m), r), n);
  }

  lemma RunsApart(d: Loc, e: Loc, n: nat)
    requires d.Mem? != e.Mem?
    ensures Disjoint(Run(d, n), Run(e, n))
  {
  }

  // The world t after n bytes have gone from src to dst, of at most len.
  predicate Copied(s: Store, t: Store, dst: Loc, src: Loc, len: nat, n: nat) {
    n <= len && RunFits(s, dst, len) && RunFits(s, src, len) && t == RunCopy(s, dst, src, len, n)
  }

  lemma CopiedNone(s: Store, dst: Loc, src: Loc, len: nat)
    requires RunFits(s, dst, len) && RunFits(s, src, len)
    ensures Copied(s, s, dst, src, len, 0)
  {
  }

  lemma CopiedNothing(s: Store, t: Store, dst: Loc, src: Loc, len: nat)
    requires Copied(s, t, dst, src, len, 0)
    ensures t == s
  {
  }

  // A system call that moved r more bytes.
  lemma CopiedMore(s: Store, t: Store, u: Store, dst: Loc, src: Loc, len: nat, n: nat, r: nat)
    requires dst.Mem? != src.Mem? && 0 < r && n + r <= len
    requires Copied(s, t, dst, src, len, n)
    requires Holds(t, Offset(src, n), r) && RunFits(t, Offset(dst, n), r)
    requires u == Block(t, Offset(dst, n), BytesAt(t, Offset(src, n), r))
    ensures Copied(s, u, dst, src, len, n + r) && SameShape(s, u)
  {
    hide RunCopy, Block, BytesAt, Run, Disjoint;
    RunsApart(dst, src, len);
    ExtendCopy(s, t, dst, src, n, r, len);
  }

  // How an operation on len bytes ended: in full, unless some call was short, or with
  // `retry` set, unless some call moved nothing; with an error only if nothing was moved,
  // and then with the error of the call that failed.
  ghost predicate Ended(w: World, shorts0: nat, stops0: nat, retry: bool, res: int, len: nat)
    reads w`shorts, w`stops, w`error
  {
    && shorts0 <= w.shorts && stops0 <= w.stops
    && (w.shorts == shorts0 ==> res == len)
    && (retry && w.stops == stops0 ==> res == len)
    && (res < 0 ==> stops0 < w.stops && res == -w.error)
  }

  // A copy into memory above an address leaves the files and the memory below alone.
  lemma {:induction false} CopyToMemory(s: Store, addr: nat, src: Loc, len: nat, n: nat)
    requires n <= len && RunFits(s, Mem(addr), len) && RunFits(s, src, len)
    ensures RunCopy(s, Mem(addr), src, len, n).files == s.files
    ensures RunCopy(s, Mem(addr), src, len, n).mem[..addr] == s.mem[..addr]
  {
    if n > 0 {
      CopyToMemory(s, addr, src, len, n - 1);
    }
  }

  lemma {:induction false} CopyToFile(s: Store, dst: Loc, src: Loc, len: nat, n: nat)
    requires n <= len && dst.File? && RunFits(s, dst, len) && RunFits(s, src, len)
    ensures RunCopy(s, dst, src, len, n).mem == s.mem
  {
    if n > 0 {
      CopyToFile(s, dst, src, len, n - 1);
    }
  }

  lemma RunCopyArrives(s: Store, dst: Loc, src: Loc, len: nat, n: nat)
    requires n <= len && RunFits(s, dst, len) && RunFits(s, src, len)
    requires Disjoint(Run(dst, len), Run(src, len))
    ensures forall k :: 0 <= k < n ==> At(RunCopy(s, dst, src, len, n), Offset(dst, k)) == At(s, Offset(src, k))
  {
    var d := Run(dst, len);
    forall k | 0 <= k < n
      ensures At(RunCopy(s, dst, src, len, n), Offset(dst, k)) == At(s, Offset(src, k))
    {
      FlatCopyArrives(s, d, Run(src, len), n, k);
      assert d[k] == Offset(dst, k) && Run(src, len)[k] == Offset(src, k);
    }
  }

  // A copy to a file reaches as far as its last byte.
  lemma CopyReaches(s: Store, fd: nat, pos: nat, src: Loc, len: nat, n: nat)
    requires 0 < n <= len && RunFits(s, File(fd, pos), len) && RunFits(s, src, len)
    ensures pos + n <= |RunCopy(s, File(fd, pos), src, len, n).files[fd]|
  {
    hide FlatCopy, Splice;
    var d, e := Run(File(fd, pos), len), Run(src, len);
    assert AllIn(s, d) && AllIn(s, e);
    FlatCopyNext(s, d, e, n - 1);
    var t := FlatCopy(s, d, e, n - 1);
    SpliceAt(t.files[fd], pos + n - 1, [At(t, e[n - 1])], 0);
  }

  // What has been written, byte by byte.
  lemma WriteArrives(s: Store, t: Store, fd: nat, pos: nat, addr: nat, len: nat, n: nat)
    requires Copied(s, t, File(fd, pos), Mem(addr), len, n)
    ensures t.mem == s.mem && |t.files| == |s.files|
    ensures fd < |s.files| && addr + n <= |s.mem|
    ensures n > 0 ==> pos + n <= |t.files[fd]| && t.files[fd][pos..pos + n] == s.mem[addr..addr + n]
  {
    hide RunCopy, Run, Disjoint;
    var d, e := File(fd, pos), Mem(addr);
    RunsApart(d, e, len);
    CopyToFile(s, d, e, len, n);
    RunCopyArrives(s, d, e, len, n);
    if n > 0 {
      CopyReaches(s, fd, pos, e, len, n);
    }
    if n > 0 {
      var now, was := t.files[fd][pos..pos + n], s.mem[addr..addr + n];
      forall k | 0 <= k < n ensures now[k] == was[k] {
        assert At(t, Offset(d, k)) == At(s, Offset(e, k));
      }
    }
  }

  // What has been read.
  lemma ReadLeavesFiles(s: Store, t: Store, addr: nat, fd: nat, pos: nat, len: nat, n: nat)
    requires Copied(s, t, Mem(addr), File(fd, pos), len, n)
    ensures t.files == s.files
  {
    CopyToMemory(s, addr, File(fd, pos), len, n);
  }

  lemma InsideFile(s: Store, fd: nat, pos: nat, n: nat)
    requires Holds(s, File(fd, pos), n)
    ensures fd < |s.files| && pos + n <= |s.files[fd]|
  {
  }

  lemma ReadArrives(s: Store, t: Store, addr: nat, fd: nat, pos: nat, len: nat, n: nat)
    requires Copied(s, t, Mem(addr), File(fd, pos), len, n) && (n > 0 ==> pos + n <= |s.files[fd]|)
    ensures t.files == s.files && |t.mem| == |s.mem| && addr + n <= |s.mem| && fd < |s.files|
    ensures n > 0 ==> t.mem[addr..addr + n] == s.files[fd][pos..pos + n]
  {
    hide RunCopy, Run, Disjoint;
    var d, e := Mem(addr), File(fd, pos);
    RunsApart(d, e, len);
    CopyToMemory(s, addr, e, len, n);
    RunCopyArrives(s, d, e, len, n);
    if n > 0 {
      var now, was := t.mem[addr..addr + n], s.files[fd][pos..pos + n];
      forall k | 0 <= k < n ensures now[k] == was[k] {
        assert At(t, Offset(d, k)) == At(s, Offset(e, k));
      }
    }
  }

  lemma EndsSo(w: World, shorts0: nat, stops0: nat, retry: bool, res: int, len: nat)
    requires shorts0 <= w.shorts && stops0 <= w.stops
    requires w.shorts == shorts0 ==> res == len
    requires retry && w.stops == stops0 ==> res == len
    requires res < 0 ==> stops0 < w.stops && res == -w.error
    ensures Ended(w, shorts0, stops0, retry, res, len)
  {
  }

  method FuseBufWrite(w: World, dst: Buf, dstOff: nat, src: Buf, srcOff: nat, len: nat) returns (res: int)
    requires dst.isFd && dst.Fits(w.Now()) && dstOff + len <= dst.size
    requires !src.isFd && src.Fits(w.Now()) && srcOff + len <= src.size
    modifies w
    ensures res <= len && Ended(w, old(w.shorts), old(w.stops), dst.retry, res, len)
    ensures w.stops <= old(w.stops) + 1 && (!dst.retry ==> w.calls <= old(w.calls) + 1)
    ensures res < 0 ==> w.Now() == old(w.Now())
    ensures res >= 0 ==> Copied(old(w.Now()), w.Now(), dst.Start(dstOff), src.Start(srcOff), len, res)
    ensures w.mem == old(w.mem) && |w.files| == |old(w.files)|
    ensures res > 0 ==>
              var p, a := dst.pos + dstOff, src.mem + srcOff;
              p + res <= |w.files[dst.fd]| && w.files[dst.fd][p..p + res] == old(w.mem)[a..a + res]
  {
    hide RunCopy, Copied, Block, BytesAt, Splice, Zeros, At, FlatCopy, Run, Disjoint, AllIn, InStore;
    ghost var s := w.Now();
    ghost var d, e := dst.Start(dstOff), src.Start(srcOff);
    assert d == File(dst.fd, dst.pos + dstOff) && e == Mem(src.mem + srcOff);
    CopiedNone(s, d, e, len);
    var copied := 0;
    while copied < len
      invariant copied <= len && old(w.shorts) <= w.shorts && old(w.stops) <= w.stops
      invariant copied < len && !dst.retry ==> copied == 0 && w.shorts == old(w.shorts) && w.calls == old(w.calls)
      invariant w.stops == old(w.stops) && (!dst.retry ==> w.calls <= old(w.calls) + 1)
      invariant SameShape(s, w.Now()) && Copied(s, w.Now(), d, e, len, copied)
    {
      ghost var t := w.Now();
      assert Offset(d, copied) == File(dst.fd, dst.pos + dstOff + copied);
      assert Offset(e, copied) == Mem(src.mem + srcOff + copied);
      var r, errno := w.Pwrite(dst.fd, src.mem + srcOff + copied, len - copied, dst.pos + dstOff + copied);
      if r == -1 {
        if copied == 0 {
          CopiedNothing(s, t, d, e, len);
          return -errno;
        }
        break;
      }
      if r == 0 {
        break;
      }
      CopiedMore(s, t, w.Now(), d, e, len, copied, r);
      copied := copied + r;
      if !dst.retry {
        break;
      }
    }
    WriteArrives(s, w.Now(), dst.fd, dst.pos + dstOff, src.mem + srcOff, len, copied);
    return copied;
  }

  method FuseBufRead(w: World, dst: Buf, dstOff: nat, src: Buf, srcOff: nat, len: nat) returns (res: int)
    requires !dst.isFd && dst.Fits(w.Now()) && dstOff + len <= dst.size
    requires src.isFd && src.Fits(w.Now()) && srcOff + len <= src.size
    modifies w
    ensures res <= len && Ended(w, old(w.shorts), old(w.stops), src.retry, res, len)
    ensures w.stops <= old(w.stops) + 1 && (!src.retry ==> w.calls <= old(w.calls) + 1)
    ensures res < 0 ==> w.Now() == old(w.Now())
    ensures res >= 0 ==> Copied(old(w.Now()), w.Now(), dst.Start(dstOff), src.Start(srcOff), len, res)
    ensures w.files == old(w.files) && |w.mem| == |old(w.mem)|
    ensures res > 0 ==>
              var a, p := dst.mem + dstOff, src.pos + srcOff;
              p + res <= |w.files[src.fd]| && w.mem[a..a + res] == w.files[src.fd][p..p + res]
  {
    hide RunCopy, Copied, Block, BytesAt, Splice, Zeros, At, FlatCopy, Run, Disjoint, AllIn, InStore;
    ghost var s := w.Now();
    ghost var d, e := dst.Start(dstOff), src.Start(srcOff);
    assert d == Mem(dst.mem + dstOff) && e == File(src.fd, src.pos + srcOff);
    CopiedNone(s, d, e, len);
    var copied := 0;
    while copied < len
      invariant copied <= len && old(w.shorts) <= w.shorts && old(w.stops) <= w.stops
      invariant copied < len && !src.retry ==> copied == 0 && w.shorts == old(w.shorts) && w.calls == old(w.calls)
      invariant w.stops == old(w.stops) && (!src.retry ==> w.calls <= old(w.calls) + 1)
      invariant SameShape(s, w.Now()) && Copied(s, w.Now(), d, e, len, copied) && w.files == s.files
      invariant copied > 0 ==> src.pos + srcOff + copied <= |s.files[src.fd]|
    {
      ghost var t := w.Now();
      assert Offset(d, copied) == Mem(dst.mem + dstOff + copied);
      assert Offset(e, copied) == File(src.fd, src.pos + srcOff + copied);
      var r, errno := w.Pread(src.fd, dst.mem + dstOff + copied, len - copied, src.pos + srcOff + copied);
      if r == -1 {
        if copied == 0 {
          CopiedNothing(s, t, d, e, len);
          return -errno;
        }
        break;
      }
      if r == 0 {
        break;
      }
      CopiedMore(s, t, w.Now(), d, e, len, copied, r);
      copied := copied + r;
      InsideFile(t, src.fd, src.pos + srcOff + copied - r, r);
      ReadLeavesFiles(s, w.Now(), dst.mem + dstOff, src.fd, src.pos + srcOff, len, copied);
      if !src.retry {
        break;
      }
    }
    ReadArrives(s, w.Now(), dst.mem + dstOff, src.fd, src.pos + srcOff, len, copied);
    return copied;
  }

  // Writing from the temporary buffer stores its first bytes as one block.
  lemma RelayWrite(u: Store, dst: Loc, base: nat, l: nat, r: nat)
    requires 0 < r <= l && dst.File? && RunFits(u, dst, l) && base + l <= |u.mem|
    ensures RunCopy(u, dst, Mem(base), l, r) == Block(u, dst, u.mem[base..base + r])
  {
    var bytes := u.mem[base..base + r];
    RunsApart(dst, Mem(base), l);
    assert bytes == Peek(u, Mem(base), r);
    assert Offset(dst, 0) == dst && Offset(Mem(base), 0) == Mem(base);
    ExtendCopyBytes(u, dst, Mem(base), 0, bytes, l);
  }

  // What is read from a file depends on the files only.
  lemma PeekPrefix(t: Store, c: Store, l: Loc, got: nat, r: nat)
    requires l.File? && r <= got && t.files == c.files && RunFits(t, l, got)
    ensures RunFits(c, l, r) && Peek(c, l, r) == Peek(t, l, got)[..r]
  {
    assert forall k :: 0 <= k < r ==> At(c, Offset(l, k)) == At(t, Offset(l, k));
  }

  lemma SlicePrefix(d: Data, from: nat, n: nat, r: nat)
    requires r <= n && from + n <= |d|
    ensures d[from..from + n][..r] == d[from..from + r]
  {
  }

  // Reading into the temporary buffer and writing from it is a copy from file to file.
  lemma Relay(s: Store, t: Store, u: Store, v: Store, dst: Loc, src: Loc, base: nat, m: nat, r: nat, got: nat, n: nat)
    requires dst.File? && src.File? && m + got <= n && 0 < r <= got
    requires RunFits(s, dst, n) && RunFits(s, src, n) && Disjoint(Run(dst, n), Run(src, n))
    requires t.files == RunCopy(s, dst, src, n, m).files
    requires u.files == t.files && base + got <= |u.mem|
    requires u.mem[base..base + got] == Peek(t, Offset(src, m), got)
    requires Copied(u, v, Offset(dst, m), Mem(base), got, r)
    ensures v.files == RunCopy(s, dst, src, n, m + r).files && v.mem == u.mem
  {
    hide FlatCopy, Run, Disjoint, Peek, AllIn;
    var c := RunCopy(s, dst, src, n, m);
    var bytes := u.mem[base..base + r];
    RelayWrite(u, Offset(dst, m), base, got, r);
    PeekPrefix(t, c, Offset(src, m), got, r);
    SlicePrefix(u.mem, base, got, r);
    ExtendCopyBytes(s, dst, src, m, bytes, n);
    CopyToFile(u, Offset(dst, m), Mem(base), got, r);
  }

  // The read half of one round: the file bytes land in the temporary buffer.
  lemma TmpFilled(t: Store, u: Store, base: nat, src: Loc, m: nat, l: nat, r: nat)
    requires src.File? && 0 <= r <= l && base + TMP_SIZE == |t.mem| && l <= TMP_SIZE && RunFits(t, Offset(src, m), l)
    requires Copied(t, u, Mem(base), Offset(src, m), l, r)
    ensures SameShape(t, u) && u.files == t.files && u.mem[..base] == t.mem[..base]
    ensures u.mem[base..base + r] == Peek(t, Offset(src, m), r)
  {
    var from := Offset(src, m);
    CopyToMemory(t, base, from, l, r);
    assert Disjoint(Run(Mem(base), l), Run(from, l));
    RunCopyArrives(t, Mem(base), from, l, r);
    forall k | 0 <= k < r ensures u.mem[base..base + r][k] == At(t, Offset(from, k)) {
      assert At(RunCopy(t, Mem(base), from, l, r), Offset(Mem(base), k)) == At(t, Offset(from, k));
    }
  }

  // The body of the copy loop of fuse_buf_fd_to_fd: fill the temporary buffer, then
  // drain it. A count that is not positive is the one that ends the loop.
  method FdToFdRound(w: World, dst: Buf, dstOff: nat, src: Buf, srcOff: nat, tmp: Buf, thisLen: nat,
                     ghost s: Store, ghost m: nat, ghost len: nat)
    returns (res: int)
    requires dst.isFd && src.isFd && m <= dstOff && m <= srcOff && m + thisLen <= len
    requires dstOff - m + len <= dst.size && srcOff - m + len <= src.size
    requires 0 < thisLen <= TMP_SIZE == tmp.size && !tmp.isFd && tmp.mem + TMP_SIZE == |w.mem|
    requires dst.Fits(s) && src.Fits(s)
    requires Disjoint(Run(dst.Start(dstOff - m), len), Run(src.Start(srcOff - m), len))
    requires w.files == RunCopy(s, dst.Start(dstOff - m), src.Start(srcOff - m), len, m).files
    modifies w
    ensures Ended(w, old(w.shorts), old(w.stops), dst.retry && src.retry, res, thisLen)
    ensures res <= thisLen && |w.mem| == |old(w.mem)| && w.mem[..tmp.mem] == old(w.mem)[..tmp.mem]
    ensures res <= 0 ==> w.files == old(w.files)
    ensures res > 0 ==> w.files == RunCopy(s, dst.Start(dstOff - m), src.Start(srcOff - m), len, m + res).files
  {
    hide FlatCopy, Run, Disjoint, AllIn, RunCopy, Copied;
    ghost var d, e := dst.Start(dstOff - m), src.Start(srcOff - m);
    assert src.Start(srcOff) == Offset(e, m) && dst.Start(dstOff) == Offset(d, m) && tmp.Start(0) == Mem(tmp.mem);
    ghost var t := w.Now();
    res := FuseBufRead(w, tmp, 0, src, srcOff, thisLen);
    if res >= 0 {
      TmpFilled(t, w.Now(), tmp.mem, e, m, thisLen, res);
    }
    if res <= 0 {
      return;
    }
    ghost var u := w.Now();
    var readLen := res;
    res := FuseBufWrite(w, dst, dstOff, tmp, 0, readLen);
    if res > 0 {
      Relay(s, t, u, w.Now(), d, e, tmp.mem, m, res, readLen, len);
    } else if res == 0 {
      CopiedNothing(u, w.Now(), dst.Start(dstOff), tmp.Start(0), readLen);
    }
  }

  // The temporary buffer is a stack frame of TMP_SIZE bytes above the caller's memory.
  method FuseBufFdToFd(w: World, dst: Buf, dstOff: nat, src: Buf, srcOff: nat, len: nat) returns (res: int)
    requires dst.isFd && dst.Fits(w.Now()) && dstOff + len <= dst.size
    requires src.isFd && src.Fits(w.Now()) && srcOff + len <= src.size
    requires Disjoint(Run(dst.Start(dstOff), len), Run(src.Start(srcOff), len))
    modifies w
    ensures res <= len && Ended(w, old(w.shorts), old(w.stops), dst.retry && src.retry, res, len)
    ensures res < 0 ==> w.Now() == old(w.Now())
    ensures res >= 0 ==> Copied(old(w.Now()), w.Now(), dst.Start(dstOff), src.Start(srcOff), len, res)
  {
    ghost var s := w.Now();
    ghost var d, e := dst.Start(dstOff), src.Start(srcOff);
    assert |Zeros(TMP_SIZE)| == TMP_SIZE;
    var frame: Data :| |frame| == TMP_SIZE;
    var tmp := Buf(TMP_SIZE, false, false, |w.mem|, 0, 0);
    w.mem := w.mem + frame;
    var copied := 0;
    res := 0;
    while copied < len
      invariant copied <= len && res >= 0 && old(w.shorts) <= w.shorts && old(w.stops) <= w.stops
      invariant |w.mem| == tmp.mem + TMP_SIZE && w.mem[..tmp.mem] == s.mem
      invariant w.files == RunCopy(s, d, e, len, copied).files
    {
      var thisLen := Min(tmp.size, len - copied);
      res := FdToFdRound(w, dst, dstOff + copied, src, srcOff + copied, tmp, thisLen, s, copied, len);
      if res <= 0 {
        break;
      }
      copied := copied + res;
      if res < thisLen {
        break;
      }
    }
    w.mem := w.mem[..tmp.mem];
    CopyToFile(s, d, e, len, copied);
    if res >= 0 || copied > 0 {
      res := copied;
    }
  }

  // The memory case of fuse_buf_copy_one, right for overlapping buffers too.
  method CopyMemory(w: World, dstmem: nat, srcmem: nat, len: nat)
    requires dstmem + len <= |w.mem| && srcmem + len <= |w.mem|
    modifies w`mem
    ensures w.Now() == Block(old(w.Now()), Mem(dstmem), BytesAt(old(w.Now()), Mem(srcmem), len))
  {
    hide Splice;
    if dstmem != srcmem {
      if dstmem + len <= srcmem || srcmem + len <= dstmem {
        w.mem := w.mem[..dstmem] + w.mem[srcmem..srcmem + len] + w.mem[dstmem + len..];
      } else {
        // memmove: the source bytes are taken before any is overwritten.
        var taken := w.mem[srcmem..srcmem + len];
        w.mem := w.mem[..dstmem] + taken + w.mem[dstmem + len..];
      }
    }
    SpliceInside(old(w.mem), dstmem, old(w.mem)[srcmem..srcmem + len]);
  }

  lemma SpliceInside(f: Data, at: nat, bytes: Data)
    requires at + |bytes| <= |f|
    ensures Splice(f, at, bytes) == f[..at] + bytes + f[at + |bytes|..]
    ensures bytes == f[at..at + |bytes|] ==> Splice(f, at, bytes) == f
  {
  }

  lemma MemoryCopied(s: Store, t: Store, dstmem: nat, srcmem: nat, len: nat)
    requires RunFits(s, Mem(dstmem), len) && RunFits(s, Mem(srcmem), len)
    requires Disjoint(Run(Mem(dstmem), len), Run(Mem(srcmem), len))
    requires t == Block(s, Mem(dstmem), BytesAt(s, Mem(srcmem), len))
    ensures Copied(s, t, Mem(dstmem), Mem(srcmem), len, len)
  {
    hide Run, Disjoint, FlatCopy, AllIn;
    CopiedNone(s, Mem(dstmem), Mem(srcmem), len);
    if len > 0 {
      ExtendCopy(s, s, Mem(dstmem), Mem(srcmem), 0, len, len);
    }
  }

  // A buffer that is memory, or a descriptor that is tried again after a short call.
  predicate Patient(b: Buf) {
    b.isFd ==> b.retry
  }

  method FuseBufCopyOne(w: World, dst: Buf, dstOff: nat, src: Buf, srcOff: nat, len: nat, noSplice: bool)
    returns (res: int)
    requires dst.Fits(w.Now()) && dstOff + len <= dst.size
    requires src.Fits(w.Now()) && srcOff + len <= src.size
    requires Disjoint(Run(dst.Start(dstOff), len), Run(src.Start(srcOff), len))
    modifies w
    ensures res <= len && Ended(w, old(w.shorts), old(w.stops), Patient(dst) && Patient(src), res, len)
    ensures !dst.isFd && !src.isFd ==> res == len && w.shorts == old(w.shorts)
    ensures res < 0 ==> w.Now() == old(w.Now())
    ensures res >= 0 ==> Copied(old(w.Now()), w.Now(), dst.Start(dstOff), src.Start(srcOff), len, res)
  {
    hide RunCopy, Copied, Block, BytesAt, FlatCopy, Run, Disjoint, AllIn;
    if !src.isFd && !dst.isFd {
      CopyMemory(w, dst.mem + dstOff, src.mem + srcOff, len);
      MemoryCopied(old(w.Now()), w.Now(), dst.mem + dstOff, src.mem + srcOff, len);
      return len;
    } else if !src.isFd {
      res := FuseBufWrite(w, dst, dstOff, src, srcOff, len);
    } else if !dst.isFd {
      res := FuseBufRead(w, dst, dstOff, src, srcOff, len);
    } else if noSplice {
      res := FuseBufFdToFd(w, dst, dstOff, src, srcOff, len);
    } else {
      // fuse_buf_splice where splice(2) is not available
      res := FuseBufFdToFd(w, dst, dstOff, src, srcOff, len);
    }
  }

  // All locations of a vector of buffers, one buffer after the other.
  function Flat(bufs: seq<Buf>): seq<Loc> {
    if bufs == [] then [] else Run(bufs[0].Start(0), bufs[0].size) + Flat(bufs[1..])
  }

  // Which locations these are: byte o of buffer i comes after all bytes of the buffers
  // before it, and lies o bytes behind the buffer's address, or its position in the file.
  lemma {:induction false} FlatAt(bufs: seq<Buf>, i: nat, o: nat)
    requires i < |bufs| && o < bufs[i].size
    ensures var b, k := bufs[i], TotalSize(bufs[..i]) + o;
            k < |Flat(bufs)| && Flat(bufs)[k] == if b.isFd then File(b.fd, b.pos + o) else Mem(b.mem + o)
  {
    var first, rest := Run(bufs[0].Start(0), bufs[0].size), bufs[1..];
    assert Flat(bufs) == first + Flat(rest);
    if i == 0 {
      assert bufs[..0] == [] && Flat(bufs)[o] == first[o];
    } else {
      FlatAt(rest, i - 1, o);
      assert bufs[..i] == [bufs[0]] + rest[..i - 1] && rest[i - 1] == bufs[i];
      SizeOfFirst(bufs[0], rest[..i - 1]);
    }
  }

  lemma {:induction false} SizeOfFirst(b: Buf, bufs: seq<Buf>)
    ensures TotalSize([b] + bufs) == b.size + TotalSize(bufs)
  {
    var whole := [b] + bufs;
    if bufs != [] {
      assert whole[..|whole| - 1] == [b] + bufs[..|bufs| - 1];
      SizeOfFirst(b, bufs[..|bufs| - 1]);
    }
  }

  // As many locations as bytes.
  lemma {:induction false} FlatLength(bufs: seq<Buf>)
    ensures |Flat(bufs)| == TotalSize(bufs)
  {
    if bufs != [] {
      FlatLength(bufs[1..]);
      SizeOfFirst(bufs[0], bufs[1..]);
      assert bufs == [bufs[0]] + bufs[1..];
    }
  }

  predicate AllFit(bufs: seq<Buf>, s: Store) {
    forall k :: 0 <= k < |bufs| ==> bufs[k].Fits(s)
  }

  lemma {:induction false} FlatIn(bufs: seq<Buf>, s: Store)
    requires AllFit(bufs, s)
    ensures AllIn(s, Flat(bufs))
  {
    if bufs != [] {
      FlatIn(bufs[1..], s);
      var r := Run(bufs[0].Start(0), bufs[0].size);
      forall k | 0 <= k < |Flat(bufs)| ensures InStore(s, Flat(bufs)[k]) {
        if k < |r| {
          assert bufs[0].Fits(s);
        } else {
          assert Flat(bufs)[k] == Flat(bufs[1..])[k - |r|];
        }
      }
    }
  }

  lemma FlatNext(bufs: seq<Buf>, i: nat)
    requires i <= |bufs|
    ensures Flat(bufs[i..]) ==
            if i == |bufs| then [] else Run(bufs[i].Start(0), bufs[i].size) + Flat(bufs[i + 1..])
  {
    if i < |bufs| {
      assert bufs[i..][1..] == bufs[i + 1..];
    }
  }

  // Some locations of a buffer are passed.
  lemma PassOver(b: Buf, off: nat, len: nat, rest: seq<Loc>)
    requires off + len <= b.size
    ensures len <= |Run(b.Start(off), b.size - off) + rest|
    ensures (Run(b.Start(off), b.size - off) + rest)[len..] == Run(b.Start(off + len), b.size - off - len) + rest
    ensures off + len == b.size ==> (Run(b.Start(off), b.size - off) + rest)[len..] == rest
  {
    var run := Run(b.Start(off), b.size - off);
    assert run[len..] == Run(b.Start(off + len), b.size - off - len);
    assert (run + rest)[len..] == run[len..] + rest;
  }

  // The locations of a vector from a place in it on.
  function Ahead(bufs: seq<Buf>, idx: nat, off: nat): seq<Loc>
    requires idx < |bufs| ==> off <= bufs[idx].size
  {
    if idx < |bufs| then Run(bufs[idx].Start(off), bufs[idx].size - off) + Flat(bufs[idx + 1..]) else []
  }

  lemma AheadNext(bufs: seq<Buf>, idx: nat, off: nat, len: nat)
    requires idx < |bufs| && off + len <= bufs[idx].size
    ensures len <= |Ahead(bufs, idx, off)|
    ensures Ahead(bufs, idx, off)[len..] ==
            if off + len < bufs[idx].size then Ahead(bufs, idx, off + len)
            else if idx + 1 < |bufs| then Ahead(bufs, idx + 1, 0) else []
    ensures forall at: nat :: Ahead(bufs, |bufs|, at) == []
  {
    hide Flat, Run, Buf.Start;
    PassOver(bufs[idx], off, len, Flat(bufs[idx + 1..]));
    FlatNext(bufs, idx + 1);
  }

  // struct fuse_bufvec: the buffers with a cursor into them.
  class BufVec {
    const buf: seq<Buf>
    var idx: nat
    var off: nat

    constructor (bufs: seq<Buf>)
      ensures buf == bufs && idx == 0 && off == 0 && Valid()
    {
      buf, idx, off := bufs, 0, 0;
    }

    predicate Valid()
      reads this
    {
      idx < |buf| ==> off <= buf[idx].size
    }

    // The locations the cursor has not passed.
    function Remaining(): seq<Loc>
      requires Valid()
      reads this
    {
      Ahead(buf, idx, off)
    }

    function At(): Cursor
      reads this
    {
      Cursor(idx, off)
    }

    function Unfinished(): nat
      reads this
    {
      if idx < |buf| then |buf| - idx else 0
    }

    // fuse_bufvec_current
    function Current(): Option<Buf>
      reads this
    {
      if idx < |buf| then Some(buf[idx]) else None
    }

    // fuse_bufvec_advance, called on a vector that is not finished.
    method Advance(len: nat) returns (more: bool)
      requires idx < |buf| && off + len <= buf[idx].size
      modifies this
      ensures Valid() && Remaining() == old(Remaining())[len..]
      ensures more == (idx < |buf|)
      ensures idx == old(idx) + (if old(off) + len == old(buf[idx].size) then 1 else 0)
      ensures idx == old(idx) ==> off == old(off) + len
      ensures idx == old(idx) + 1 && more ==> off == 0
    {
      hide Ahead;
      AheadNext(buf, idx, off, len);
      off := off + len;
      assert off <= buf[idx].size;
      if off == buf[idx].size {
        assert idx < |buf|;
        idx := idx + 1;
        if idx == |buf| {
          return false;
        }
        off := 0;
      }
      return true;
    }
  }

  // t is s after the flat copy of n bytes.
  predicate Refines(s: Store, t: Store, dst: seq<Loc>, src: seq<Loc>, n: int) {
    && 0 <= n <= |dst| && n <= |src|
    && AllIn(s, dst) && AllIn(s, src)
    && t == FlatCopy(s, dst, src, n)
  }

  lemma ExtendRefines(s: Store, t: Store, dst: seq<Loc>, src: seq<Loc>, m: nat, d: Loc, e: Loc, len: nat, r: nat)
    requires Refines(s, t, dst, src, m)
    requires r <= len && m + len <= |dst| && m + len <= |src|
    requires dst[m..][..len] == Run(d, len) && src[m..][..len] == Run(e, len)
    requires RunFits(t, d, len) && RunFits(t, e, len)
    ensures Refines(s, RunCopy(t, d, e, len, r), dst, src, m + r)
  {
    AllInSame(s, t, dst);
    AllInSame(s, t, src);
    assert Run(d, len)[..r] == dst[m..][..r] && Run(e, len)[..r] == src[m..][..r];
    assert AllIn(t, dst[m..]) && AllIn(t, src[m..]);
    FlatCopyPrefix(t, Run(d, len), dst[m..], Run(e, len), src[m..], r);
    FlatCopySplit(s, dst, src, m, r);
  }

  lemma DisjointParts(dst: seq<Loc>, src: seq<Loc>, m: nat, d: Loc, e: Loc, len: nat)
    requires Disjoint(dst, src) && m + len <= |dst| && m + len <= |src|
    requires dst[m..][..len] == Run(d, len) && src[m..][..len] == Run(e, len)
    ensures Disjoint(Run(d, len), Run(e, len))
  {
    forall i, j | 0 <= i < len && 0 <= j < len ensures Run(d, len)[i] != Run(e, len)[j] {
      assert Run(d, len)[i] == dst[m + i] && Run(e, len)[j] == src[m + j];
    }
  }

  lemma RemainingIn(v: BufVec, s: Store)
    requires v.Valid() && AllFit(v.buf, s)
    ensures AllIn(s, v.Remaining())
  {
    if v.idx < |v.buf| {
      assert v.buf[v.idx].Fits(s);
      FlatIn(v.buf[v.idx + 1..], s);
    }
  }

  function TotalSize(bufs: seq<Buf>): nat {
    if bufs == [] then 0 else TotalSize(bufs[..|bufs| - 1]) + bufs[|bufs| - 1].size
  }

  lemma SumStep(total: nat, size: nat)
    ensures (total % (SIZE_MAX + 1) + size) % (SIZE_MAX + 1) == (total + size) % (SIZE_MAX + 1)
  {
  }

  // The buffers behind the last one whose size is SIZE_MAX; all, if there is none.
  function Tail(bufs: seq<Buf>): seq<Buf> {
    if bufs == [] || bufs[|bufs| - 1].size == SIZE_MAX then []
    else Tail(bufs[..|bufs| - 1]) + [bufs[|bufs| - 1]]
  }

  predicate Saturated(bufs: seq<Buf>) {
    exists k :: 0 <= k < |bufs| && bufs[k].size == SIZE_MAX
  }

  // The value of the 64-bit sum: the size of a buffer with SIZE_MAX replaces what came
  // before it, and later sizes are added to it.
  function SizeOf(bufs: seq<Buf>): nat {
    ((if Saturated(bufs) then SIZE_MAX else 0) + TotalSize(Tail(bufs))) % (SIZE_MAX + 1)
  }

  lemma SizeOfNext(bufs: seq<Buf>, b: Buf)
    ensures SizeOf(bufs + [b]) == if b.size == SIZE_MAX then SIZE_MAX else (SizeOf(bufs) + b.size) % (SIZE_MAX + 1)
  {
    var longer := bufs + [b];
    assert longer[..|bufs|] == bufs && longer[|bufs|] == b;
    if b.size != SIZE_MAX {
      assert Saturated(longer) == Saturated(bufs) by {
        assert forall k :: 0 <= k < |bufs| ==> longer[k] == bufs[k];
      }
      var tail := Tail(bufs);
      assert (tail + [b])[..|tail|] == tail;
      SumStep((if Saturated(bufs) then SIZE_MAX else 0) + TotalSize(tail), b.size);
    }
  }

  // So a SIZE_MAX anywhere saturates the size exactly if what follows the last one adds
  // up to nothing modulo 2^64.
  lemma SaturatesIfNothingFollows(bufs: seq<Buf>)
    requires Saturated(bufs)
    ensures SizeOf(bufs) == SIZE_MAX <==> TotalSize(Tail(bufs)) % (SIZE_MAX + 1) == 0
  {
    hide TotalSize, Tail;
    SaturatedSum(TotalSize(Tail(bufs)));
  }

  lemma SaturatedSum(n: nat)
    ensures (SIZE_MAX + n) % (SIZE_MAX + 1) == SIZE_MAX <==> n % (SIZE_MAX + 1) == 0
  {
    var q, r := n / (SIZE_MAX + 1), n % (SIZE_MAX + 1);
    if r == 0 {
      assert SIZE_MAX + n == (SIZE_MAX + 1) * q + SIZE_MAX;
    } else {
      assert SIZE_MAX + n == (SIZE_MAX + 1) * (q + 1) + (r - 1);
    }
  }

  lemma {:induction false} NothingSaturates(bufs: seq<Buf>)
    requires !Saturated(bufs)
    ensures Tail(bufs) == bufs && SizeOf(bufs) == TotalSize(bufs) % (SIZE_MAX + 1)
  {
    if bufs != [] {
      var n := |bufs| - 1;
      assert bufs[n].size != SIZE_MAX && forall k :: 0 <= k < n ==> bufs[..n][k] == bufs[k];
      NothingSaturates(bufs[..n]);
    }
  }

  // fuse_buf_size
  method FuseBufSize(v: BufVec) returns (size: nat)
    requires forall k :: 0 <= k < |v.buf| ==> v.buf[k].size <= SIZE_MAX
    ensures size == SizeOf(v.buf) <= SIZE_MAX
  {
    hide SizeOf;
    size := 0;
    NoSize();
    var i := 0;
    while i < |v.buf|
      invariant 0 <= i <= |v.buf| && 0 <= size <= SIZE_MAX
      invariant size == SizeOf(v.buf[..i])
    {
      SizeOfNext(v.buf[..i], v.buf[i]);
      assert v.buf[..i] + [v.buf[i]] == v.buf[..i + 1];
      if v.buf[i].size == SIZE_MAX {
        size := SIZE_MAX;
      } else {
        size := (size + v.buf[i].size) % (SIZE_MAX + 1);
      }
      i := i + 1;
    }
    assert v.buf[..i] == v.buf;
  }

  lemma NoSize()
    ensures SizeOf([]) == 0
  {
  }

  predicate MemoryOnly(bufs: seq<Buf>) {
    forall k :: 0 <= k < |bufs| ==> !bufs[k].isFd
  }

  predicate AllPatient(bufs: seq<Buf>) {
    forall k :: 0 <= k < |bufs| ==> Patient(bufs[k])
  }

  // The transfer of one chunk, in terms of the whole copy.
  method TransferChunk(w: World, d: Buf, dOff: nat, e: Buf, eOff: nat, len: nat, noSplice: bool,
                       ghost s: Store, ghost dst: seq<Loc>, ghost src: seq<Loc>, ghost copied: nat)
    returns (res: int)
    requires d.Fits(w.Now()) && dOff + len <= d.size && e.Fits(w.Now()) && eOff + len <= e.size
    requires SameShape(s, w.Now()) && Refines(s, w.Now(), dst, src, copied) && Disjoint(dst, src)
    requires copied + len <= |dst| && copied + len <= |src|
    requires dst[copied..][..len] == Run(d.Start(dOff), len) && src[copied..][..len] == Run(e.Start(eOff), len)
    modifies w
    ensures Ended(w, old(w.shorts), old(w.stops), Patient(d) && Patient(e), res, len)
    ensures res <= len && (!d.isFd && !e.isFd ==> res == len && w.shorts == old(w.shorts))
    ensures res < 0 ==> w.Now() == old(w.Now())
    ensures res >= 0 ==> SameShape(s, w.Now()) && Refines(s, w.Now(), dst, src, copied + res)
  {
    ghost var t := w.Now();
    DisjointParts(dst, src, copied, d.Start(dOff), e.Start(eOff), len);
    res := FuseBufCopyOne(w, d, dOff, e, eOff, len, noSplice);
    if res >= 0 {
      ExtendRefines(s, t, dst, src, copied, d.Start(dOff), e.Start(eOff), len, res);
    }
  }

  lemma CopyStart(v: BufVec, u: BufVec, s: Store)
    requires v.Valid() && u.Valid() && AllFit(v.buf, s) && AllFit(u.buf, s)
    ensures Refines(s, s, v.Remaining(), u.Remaining(), 0) && SameShape(s, s)
  {
    RemainingIn(v, s);
    RemainingIn(u, s);
  }

  lemma ChunkReady(v: BufVec, s: Store, t: Store, len: nat)
    requires v.Valid() && v.idx < |v.buf| && AllFit(v.buf, s) && SameShape(s, t)
    requires len <= v.buf[v.idx].size - v.off
    ensures v.buf[v.idx].Fits(t) && (MemoryOnly(v.buf) ==> !v.buf[v.idx].isFd)
    ensures AllPatient(v.buf) ==> Patient(v.buf[v.idx])
    ensures len <= |v.Remaining()| && v.Remaining()[..len] == Run(v.buf[v.idx].Start(v.off), len)
  {
    assert v.buf[v.idx].Fits(s);
  }

  lemma NothingRemains(v: BufVec)
    requires v.Valid()
    ensures v.idx >= |v.buf| ==> v.Remaining() == []
  {
  }

  lemma RefinesMeans(s: Store, t: Store, dst: seq<Loc>, src: seq<Loc>, n: int)
    requires Refines(s, t, dst, src, n)
    ensures 0 <= n <= |dst| && n <= |src| && (n == 0 ==> t == s)
  {
  }

  // Bytes the last buffer of a vector holds behind a cursor.
  function LastSpan(bufs: seq<Buf>, idx: nat, off: nat): int
    requires bufs != []
  {
    bufs[|bufs| - 1].size - (if idx == |bufs| - 1 then off else 0)
  }

  // A source cursor that started at (idx0, off0) with the bytes the destination lags:
  // it stands at the end of a buffer only if that buffer is empty or it began there.
  predicate Stepped(bufs: seq<Buf>, idx0: nat, off0: nat, idx: nat, off: nat, lag: nat) {
    && idx0 <= idx && (idx0 < |bufs| ==> idx <= |bufs|)
    && (idx < |bufs| && idx == idx0 ==> off0 <= off)
    && (idx < |bufs| ==> off == 0 || off < bufs[idx].size || (idx == idx0 && off == off0))
    && (lag > 0 <==> idx0 < |bufs| == idx && LastSpan(bufs, idx0, off0) > 0)
  }

  lemma StepOn(bufs: seq<Buf>, idx0: nat, off0: nat, idx: nat, off: nat, res: nat, idx': nat, off': nat, lag: nat)
    requires Stepped(bufs, idx0, off0, idx, off, 0) && idx < |bufs| && off + res <= bufs[idx].size
    requires idx' == idx + (if off + res == bufs[idx].size then 1 else 0)
    requires idx' == idx ==> off' == off + res
    requires idx' == idx + 1 < |bufs| ==> off' == 0
    requires lag == (if idx' == |bufs| then res else 0)
    ensures Stepped(bufs, idx0, off0, idx', off', lag)
  {
  }

  datatype Cursor = Cursor(idx: nat, off: nat)

  // Bytes from one cursor to a later one.
  function Passed(bufs: seq<Buf>, c0: Cursor, c: Cursor): int
    requires c0.idx <= c.idx < |bufs|
    decreases c.idx - c0.idx
  {
    if c0.idx == c.idx then c.off - c0.off
    else bufs[c0.idx].size - c0.off + Passed(bufs, Cursor(c0.idx + 1, 0), c)
  }

  // Of the n > 0 bytes behind a cursor, those that lie in the buffer of the last one.
  function LastPiece(bufs: seq<Buf>, c0: Cursor, n: nat): nat
    requires c0.idx < |bufs| ==> c0.off <= bufs[c0.idx].size
    decreases |bufs| - c0.idx
  {
    if c0.idx >= |bufs| then 0
    else
      var room := bufs[c0.idx].size - c0.off;
      if n <= room then n else LastPiece(bufs, Cursor(c0.idx + 1, 0), n - room)
  }

  // The bytes by which the destination cursor stays behind when n bytes have finished
  // the source. They are the last chunk, which began with the last buffer of the source
  // or, if that is later, with the buffer of the destination in which it ended.
  function LastChunk(srcs: seq<Buf>, s0: Cursor, dsts: seq<Buf>, d0: Cursor, n: nat): nat
    requires srcs != [] && (d0.idx < |dsts| ==> d0.off <= dsts[d0.idx].size)
  {
    var span := LastSpan(srcs, s0.idx, s0.off);
    if span <= 0 then 0 else Min(span, LastPiece(dsts, d0, n))
  }

  // A cursor inside the vector, n bytes after another.
  predicate Behind(bufs: seq<Buf>, c0: Cursor, c: Cursor, n: int) {
    && c0.idx <= c.idx < |bufs| && c0.off <= bufs[c0.idx].size && c.off <= bufs[c.idx].size
    && (c0.idx == c.idx ==> c0.off <= c.off)
    && Passed(bufs, c0, c) == n
  }

  // How far a cursor is into its buffer, counted from where it began.
  function Inside(c0: Cursor, c: Cursor): int {
    c.off - (if c.idx == c0.idx then c0.off else 0)
  }

  lemma {:induction false} PieceAt(bufs: seq<Buf>, c0: Cursor, c: Cursor, n: int, m: nat)
    requires Behind(bufs, c0, c, n) && 0 < m && c.off + m <= bufs[c.idx].size
    ensures n >= 0 && LastPiece(bufs, c0, n + m) == m + Inside(c0, c)
    decreases c.idx - c0.idx
  {
    if c0.idx < c.idx {
      var next := Cursor(c0.idx + 1, 0);
      PieceAt(bufs, next, c, Passed(bufs, next, c), m);
    }
  }

  lemma {:induction false} BehindNext(bufs: seq<Buf>, c0: Cursor, c: Cursor, n: int, res: nat)
    requires Behind(bufs, c0, c, n) && c.off + res <= bufs[c.idx].size
    ensures Behind(bufs, c0, Cursor(c.idx, c.off + res), n + res)
    ensures c.off + res == bufs[c.idx].size && c.idx + 1 < |bufs| ==>
      Behind(bufs, c0, Cursor(c.idx + 1, 0), n + res)
    decreases c.idx - c0.idx
  {
    if c0.idx < c.idx {
      var next := Cursor(c0.idx + 1, 0);
      BehindNext(bufs, next, c, Passed(bufs, next, c), res);
    }
  }

  // A chunk begins at the beginning of a buffer on one side, or with the whole copy.
  predicate Aligned(s0: Cursor, s: Cursor, d0: Cursor, d: Cursor) {
    Inside(s0, s) == 0 || Inside(d0, d) == 0
  }

  // The chunk that finishes the source is the one described by LastChunk.
  lemma FinishingChunk(srcs: seq<Buf>, s0: Cursor, s: Cursor, dsts: seq<Buf>, d0: Cursor, d: Cursor,
                       copied: nat, res: nat)
    requires Stepped(srcs, s0.idx, s0.off, s.idx, s.off, 0) && s.idx == |srcs| - 1 && s.off + res == srcs[s.idx].size
    requires Behind(dsts, d0, d, copied) && d.off + res <= dsts[d.idx].size
    requires Aligned(s0, s, d0, d)
    ensures res == LastChunk(srcs, s0, dsts, d0, copied + res)
  {
    hide Passed, LastPiece;
    if res > 0 {
      PieceAt(dsts, d0, d, copied, res);
      assert LastSpan(srcs, s0.idx, s0.off) == res + Inside(s0, s);
      InsideIsPositive(s0, s);
    } else {
      assert LastSpan(srcs, s0.idx, s0.off) == Inside(s0, s);
    }
  }

  lemma InsideIsPositive(c0: Cursor, c: Cursor)
    requires c.idx == c0.idx ==> c0.off <= c.off
    ensures Inside(c0, c) >= 0
  {
  }

  lemma DropDrop<T>(s: seq<T>, m: nat, n: nat)
    requires m + n <= |s|
    ensures s[m..][n..] == s[m + n..]
  {
  }

  // Both cursors move on, the destination's only if the source is not finished.
  method AdvanceBoth(dstv: BufVec, srcv: BufVec, res: nat, len: nat,
                     ghost dst: seq<Loc>, ghost src: seq<Loc>, ghost copied: nat, ghost d0: Cursor, ghost s0: Cursor)
    returns (stop: bool, ghost lag: nat)
    requires dstv != srcv && dstv.Valid() && srcv.Valid() && dstv.idx < |dstv.buf| && srcv.idx < |srcv.buf|
    requires res <= len == Min(srcv.buf[srcv.idx].size - srcv.off, dstv.buf[dstv.idx].size - dstv.off)
    requires copied + res <= |src| && copied + res <= |dst|
    requires srcv.Remaining() == src[copied..] && dstv.Remaining() == dst[copied..]
    requires Stepped(srcv.buf, s0.idx, s0.off, srcv.idx, srcv.off, 0)
    requires Behind(dstv.buf, d0, dstv.At(), copied) && Aligned(s0, srcv.At(), d0, dstv.At())
    modifies dstv, srcv
    ensures dstv.Valid() && srcv.Valid()
    ensures srcv.Remaining() == src[copied + res..]
    ensures lag <= res && dstv.Remaining() == dst[copied + res - lag..]
    ensures lag == (if srcv.idx == |srcv.buf| then res else 0) && (lag > 0 ==> stop)
    ensures lag == (if srcv.idx == |srcv.buf| then LastChunk(srcv.buf, s0, dstv.buf, d0, copied + res) else 0)
    ensures Stepped(srcv.buf, s0.idx, s0.off, srcv.idx, srcv.off, lag)
    ensures dstv.idx < |dstv.buf| ==> Behind(dstv.buf, d0, dstv.At(), copied + res - lag)
    ensures !stop ==> Aligned(s0, srcv.At(), d0, dstv.At())
    ensures !stop ==> dstv.Unfinished() + srcv.Unfinished() < old(dstv.Unfinished() + srcv.Unfinished())
    ensures stop && res == len ==> copied + res == |src| || copied + res == |dst|
  {
    hide Flat, Run, Stepped, BufVec.Remaining, Behind, LastChunk, LastPiece, Passed;
    lag := 0;
    ghost var s, d := srcv.At(), dstv.At();
    DropDrop(src, copied, res);
    DropDrop(dst, copied, res);
    SteppedMeans(srcv.buf, s0, s);
    BehindMeans(dstv.buf, d0, d, copied);
    BehindNext(dstv.buf, d0, d, copied, res);
    var more := srcv.Advance(res);
    if !more {
      lag := res;
      NothingRemains(srcv);
      StepOn(srcv.buf, s0.idx, s0.off, s.idx, s.off, res, srcv.idx, srcv.off, lag);
      FinishingChunk(srcv.buf, s0, s, dstv.buf, d0, d, copied, res);
      return true, lag;
    }
    StepOn(srcv.buf, s0.idx, s0.off, s.idx, s.off, res, srcv.idx, srcv.off, lag);
    more := dstv.Advance(res);
    NothingRemains(dstv);
    stop := !more || res < len;
  }

  lemma SteppedMeans(bufs: seq<Buf>, c0: Cursor, c: Cursor)
    requires Stepped(bufs, c0.idx, c0.off, c.idx, c.off, 0)
    ensures c0.idx <= c.idx
  {
  }

  lemma BehindMeans(bufs: seq<Buf>, c0: Cursor, c: Cursor, n: int)
    requires Behind(bufs, c0, c, n)
    ensures c0.idx <= c.idx < |bufs| && c0.off <= bufs[c0.idx].size
  {
  }

  // The copy is under way: `copied` bytes are across, the source cursor stands behind
  // them, and the destination cursor `lag` bytes before that.
  ghost predicate Going(w: World, dstv: BufVec, srcv: BufVec, s: Store, dst: seq<Loc>, src: seq<Loc>, copied: int,
                        lag: nat, d0: Cursor, s0: Cursor)
    reads w`mem, w`files, dstv, srcv
  {
    && dstv.Valid() && srcv.Valid() && SameShape(s, w.Now())
    && AllFit(dstv.buf, s) && AllFit(srcv.buf, s) && Disjoint(dst, src)
    && Refines(s, w.Now(), dst, src, copied)
    && srcv.Remaining() == src[copied..]
    && lag <= copied && dstv.Remaining() == dst[copied - lag..]
    && Stepped(srcv.buf, s0.idx, s0.off, srcv.idx, srcv.off, lag)
    && (d0.idx < |dstv.buf| ==> d0.off <= dstv.buf[d0.idx].size)
    && (dstv.idx < |dstv.buf| ==> Behind(dstv.buf, d0, dstv.At(), copied - lag))
    && lag == (if s0.idx < |srcv.buf| == srcv.idx then LastChunk(srcv.buf, s0, dstv.buf, d0, copied) else 0)
  }

  // The lag after a call that began at these cursors and has copied n of the `all` bytes
  // the source had left.
  function Lag(srcs: seq<Buf>, s0: Cursor, dsts: seq<Buf>, d0: Cursor, n: nat, all: nat): nat
    requires d0.idx < |dsts| ==> d0.off <= dsts[d0.idx].size
  {
    if s0.idx < |srcs| && n == all then LastChunk(srcs, s0, dsts, d0, n) else 0
  }

  lemma {:induction false} FlatEmpty(bufs: seq<Buf>)
    requires Flat(bufs) == [] && bufs != []
    ensures bufs[|bufs| - 1].size == 0
  {
    if |bufs| > 1 {
      FlatEmpty(bufs[1..]);
    }
  }

  // A source whose last buffer had bytes to give is finished once all of them are across.
  lemma Exhausted(v: BufVec, c0: Cursor, lag: nat)
    requires v.Valid() && v.Remaining() == [] && c0.idx < |v.buf| && LastSpan(v.buf, c0.idx, c0.off) > 0
    requires Stepped(v.buf, c0.idx, c0.off, v.idx, v.off, lag)
    ensures v.idx == |v.buf|
  {
    if v.idx < |v.buf| - 1 {
      FlatEmpty(v.buf[v.idx + 1..]);
    }
  }

  lemma GoingEnds(w: World, dstv: BufVec, srcv: BufVec, s: Store, dst: seq<Loc>, src: seq<Loc>, copied: int,
                  lag: nat, d0: Cursor, s0: Cursor)
    requires Going(w, dstv, srcv, s, dst, src, copied, lag, d0, s0)
    ensures copied >= 0 && (d0.idx < |dstv.buf| ==> d0.off <= dstv.buf[d0.idx].size)
    ensures s0.idx < |srcv.buf| && LastSpan(srcv.buf, s0.idx, s0.off) > 0 ==>
              (srcv.idx == |srcv.buf| <==> copied == |src|)
    ensures lag == Lag(srcv.buf, s0, dstv.buf, d0, copied, |src|)
  {
    hide FlatCopy, Disjoint, AllIn, AllFit, Flat, Run, SameShape, Refines, Behind, LastPiece;
    RefinesMeans(s, w.Now(), dst, src, copied);
    NothingRemains(srcv);
    if s0.idx < |srcv.buf| && LastSpan(srcv.buf, s0.idx, s0.off) > 0 && copied == |src| {
      Exhausted(srcv, s0, lag);
    }
  }

  lemma GoingMeans(w: World, dstv: BufVec, srcv: BufVec, s: Store, dst: seq<Loc>, src: seq<Loc>, copied: int,
                   lag: nat, d0: Cursor, s0: Cursor)
    requires Going(w, dstv, srcv, s, dst, src, copied, lag, d0, s0)
    ensures dstv.Valid() && srcv.Valid() && Refines(s, w.Now(), dst, src, copied)
    ensures lag <= copied <= |src| && copied <= |dst| && (copied == 0 ==> w.Now() == s)
    ensures srcv.Remaining() == src[copied..] && dstv.Remaining() == dst[copied - lag..]
    ensures lag > 0 <==> s0.idx < |srcv.buf| == srcv.idx && LastSpan(srcv.buf, s0.idx, s0.off) > 0
    ensures srcv.idx >= |srcv.buf| ==> copied == |src|
    ensures dstv.idx >= |dstv.buf| ==> copied - lag == |dst|
  {
    hide FlatCopy, Disjoint, AllIn, AllFit, Flat, Run, LastSpan, SameShape, Refines, Behind, LastChunk;
    RefinesMeans(s, w.Now(), dst, src, copied);
  }

  lemma GoingStarts(w: World, dstv: BufVec, srcv: BufVec)
    requires dstv.Valid() && srcv.Valid() && AllFit(dstv.buf, w.Now()) && AllFit(srcv.buf, w.Now())
    requires Disjoint(dstv.Remaining(), srcv.Remaining())
    ensures Going(w, dstv, srcv, w.Now(), dstv.Remaining(), srcv.Remaining(), 0, 0, dstv.At(), srcv.At())
    ensures Aligned(srcv.At(), srcv.At(), dstv.At(), dstv.At())
  {
    hide FlatCopy, Disjoint, AllIn, AllFit, Flat, Run, Refines;
    CopyStart(dstv, srcv, w.Now());
  }

  // One round of the loop: the smaller of the two buffer rests goes across, and both
  // cursors move on.
  method CopyChunk(w: World, dstv: BufVec, srcv: BufVec, noSplice: bool, ghost s: Store, ghost dst: seq<Loc>,
                   ghost src: seq<Loc>, ghost copied: nat, ghost d0: Cursor, ghost s0: Cursor)
    returns (res: int, stop: bool, ghost lag: nat)
    requires dstv != srcv && Going(w, dstv, srcv, s, dst, src, copied, 0, d0, s0)
    requires Aligned(s0, srcv.At(), d0, dstv.At())
    requires dstv.idx < |dstv.buf| && srcv.idx < |srcv.buf|
    modifies w, dstv, srcv
    ensures old(w.shorts) <= w.shorts && old(w.stops) <= w.stops
    ensures lag > 0 ==> stop
    ensures Going(w, dstv, srcv, s, dst, src, if res < 0 then copied else copied + res, lag, d0, s0)
    ensures !stop ==> Aligned(s0, srcv.At(), d0, dstv.At())
    ensures res < 0 ==> stop && lag == 0 && w.Now() == old(w.Now())
    ensures res < 0 ==> old(w.shorts) < w.shorts && old(w.stops) < w.stops && res == -w.error
    ensures MemoryOnly(dstv.buf) && MemoryOnly(srcv.buf) ==> w.shorts == old(w.shorts)
    ensures stop && w.shorts == old(w.shorts) ==> copied + res == |dst| || copied + res == |src|
    ensures stop && AllPatient(dstv.buf) && AllPatient(srcv.buf) && w.stops == old(w.stops) ==>
              copied + res == |dst| || copied + res == |src|
    ensures !stop ==> dstv.Unfinished() + srcv.Unfinished() < old(dstv.Unfinished() + srcv.Unfinished())
  {
    hide FlatCopy, Disjoint, AllIn, AllFit, MemoryOnly, Flat, BufVec.Remaining, Run, Stepped, Refines, SameShape,
      Buf.Fits, Buf.Start, AllPatient, Behind, LastChunk, Aligned;
    lag := 0;
    var e, d := srcv.buf[srcv.idx], dstv.buf[dstv.idx];
    var len := Min(e.size - srcv.off, d.size - dstv.off);
    RefinesMeans(s, w.Now(), dst, src, copied);
    ChunkReady(dstv, s, w.Now(), len);
    ChunkReady(srcv, s, w.Now(), len);
    SteppedMeans(srcv.buf, s0, srcv.At());
    res := TransferChunk(w, d, dstv.off, e, srcv.off, len, noSplice, s, dst, src, copied);
    if res < 0 {
      stop := true;
    } else {
      stop, lag := AdvanceBoth(dstv, srcv, res, len, dst, src, copied, d0, s0);
    }
  }

  // The bytes two vectors have in common: the shorter of what remains in each.
  ghost function Overlap(dstv: BufVec, srcv: BufVec): nat
    requires dstv.Valid() && srcv.Valid()
    reads dstv, srcv
  {
    Min(|dstv.Remaining()|, |srcv.Remaining()|)
  }

  lemma Shorter(m: nat, n: nat, k: nat)
    requires k <= m && k <= n
    ensures k == Min(m, n) <==> k == m || k == n
  {
  }

  // The same in terms of what is returned.
  lemma ReturnIs(srcv: BufVec, src: seq<Loc>, copied: nat, lag: nat, s0: Cursor, res: int)
    requires lag <= copied <= |src| && (res == copied || (res < 0 && copied == lag == 0))
    requires lag > 0 <==> s0.idx < |srcv.buf| == srcv.idx && LastSpan(srcv.buf, s0.idx, s0.off) > 0
    requires s0.idx < |srcv.buf| && LastSpan(srcv.buf, s0.idx, s0.off) > 0 ==>
               (srcv.idx == |srcv.buf| <==> copied == |src|)
    ensures var has := s0.idx < |srcv.buf| && LastSpan(srcv.buf, s0.idx, s0.off) > 0;
            && (lag > 0 <==> has && res == |src|)
            && (has ==> (srcv.idx == |srcv.buf| <==> res == |src|))
  {
  }

  // The last buffer of the vector has bytes that the cursor has not passed.
  predicate HasLast(v: BufVec)
    reads v
  {
    v.idx < |v.buf| && LastSpan(v.buf, v.idx, v.off) > 0
  }

  // The loop of fuse_buf_copy: what it returns is the bytes that are across, or the error
  // of the first chunk.
  method CopyLoop(w: World, dstv: BufVec, srcv: BufVec, noSplice: bool, ghost s: Store,
                  ghost dst: seq<Loc>, ghost src: seq<Loc>, ghost d0: Cursor, ghost s0: Cursor)
    returns (res: int, ghost copied: nat, ghost lag: nat)
    requires dstv != srcv && Going(w, dstv, srcv, s, dst, src, 0, 0, d0, s0) && w.Now() == s
    requires Aligned(s0, srcv.At(), d0, dstv.At())
    modifies w, dstv, srcv
    ensures Going(w, dstv, srcv, s, dst, src, copied, lag, d0, s0)
    ensures old(w.shorts) <= w.shorts && old(w.stops) <= w.stops
    ensures MemoryOnly(dstv.buf) && MemoryOnly(srcv.buf) ==> w.shorts == old(w.shorts)
    ensures res == copied || (res < 0 && copied == lag == 0 && w.Now() == s)
    ensures res < 0 ==> old(w.shorts) < w.shorts && old(w.stops) < w.stops && res == -w.error
    ensures w.shorts == old(w.shorts) ==> copied == |dst| || copied == |src|
    ensures AllPatient(dstv.buf) && AllPatient(srcv.buf) && w.stops == old(w.stops) ==>
              copied == |dst| || copied == |src|
  {
    hide Disjoint, AllFit, MemoryOnly, BufVec.Remaining, LastSpan, Refines, AllPatient, Going, Run, Flat, Aligned;
    copied, lag := 0, 0;
    var done := 0;
    var stop := false;
    while !stop
      invariant done == copied && Going(w, dstv, srcv, s, dst, src, copied, lag, d0, s0) && (lag > 0 ==> stop)
      invariant !stop ==> Aligned(s0, srcv.At(), d0, dstv.At())
      invariant old(w.shorts) <= w.shorts && old(w.stops) <= w.stops
      invariant MemoryOnly(dstv.buf) && MemoryOnly(srcv.buf) ==> w.shorts == old(w.shorts)
      invariant stop && w.shorts == old(w.shorts) ==> copied == |dst| || copied == |src|
      invariant stop && AllPatient(dstv.buf) && AllPatient(srcv.buf) && w.stops == old(w.stops) ==>
        copied == |dst| || copied == |src|
      decreases !stop, dstv.Unfinished() + srcv.Unfinished()
    {
      var srcBuf, dstBuf := srcv.Current(), dstv.Current();
      GoingMeans(w, dstv, srcv, s, dst, src, copied, lag, d0, s0);
      if srcBuf == None || dstBuf == None {
        break;
      }
      res, stop, lag := CopyChunk(w, dstv, srcv, noSplice, s, dst, src, copied, d0, s0);
      if res < 0 {
        if done == 0 {
          return;
        }
        break;
      }
      done, copied := done + res, copied + res;
    }
    res := done;
  }

  // fuse_buf_copy between two different vectors. `lag` counts the bytes by which the
  // destination cursor stays behind: the last chunk, when it finishes the source.
  method CopyVectors(w: World, dstv: BufVec, srcv: BufVec, noSplice: bool) returns (res: int, ghost lag: nat)
    requires dstv != srcv && dstv.Valid() && srcv.Valid()
    requires AllFit(dstv.buf, w.Now()) && AllFit(srcv.buf, w.Now())
    requires Disjoint(dstv.Remaining(), srcv.Remaining())
    modifies w, dstv, srcv
    ensures srcv.Valid() && dstv.Valid()
    ensures res >= 0 ==> Refines(old(w.Now()), w.Now(), old(dstv.Remaining()), old(srcv.Remaining()), res)
    ensures res < 0 ==> w.Now() == old(w.Now()) && lag == 0
    ensures var n := if res < 0 then 0 else res;
            && n <= |old(srcv.Remaining())| && srcv.Remaining() == old(srcv.Remaining())[n..]
            && lag <= n <= |old(dstv.Remaining())| && dstv.Remaining() == old(dstv.Remaining())[n - lag..]
    ensures lag > 0 <==> old(HasLast(srcv)) && res == |old(srcv.Remaining())|
    ensures old(HasLast(srcv)) ==> (srcv.idx == |srcv.buf| <==> res == |old(srcv.Remaining())|)
    ensures lag == Lag(srcv.buf, old(srcv.At()), dstv.buf, old(dstv.At()), if res < 0 then 0 else res,
                       |old(srcv.Remaining())|)
    ensures Ended(w, old(w.shorts), old(w.stops), AllPatient(dstv.buf) && AllPatient(srcv.buf), res,
                  old(Overlap(dstv, srcv)))
    ensures MemoryOnly(dstv.buf) && MemoryOnly(srcv.buf) ==> w.shorts == old(w.shorts)
  {
    hide Disjoint, AllFit, MemoryOnly, BufVec.Remaining, LastSpan, Refines, AllPatient, Going, Run, Flat, Lag, Aligned,
      Ended, LastChunk, LastPiece, Ahead, FlatCopy, AllIn, SameShape, Stepped, Behind, Min, Patient;
    ghost var s, dst, src, d0, s0 := w.Now(), dstv.Remaining(), srcv.Remaining(), dstv.At(), srcv.At();
    ghost var copied;
    GoingStarts(w, dstv, srcv);
    res, copied, lag := CopyLoop(w, dstv, srcv, noSplice, s, dst, src, d0, s0);
    GoingMeans(w, dstv, srcv, s, dst, src, copied, lag, d0, s0);
    GoingEnds(w, dstv, srcv, s, dst, src, copied, lag, d0, s0);
    ReturnIs(srcv, src, copied, lag, s0, res);
    Shorter(|dst|, |src|, copied);
    EndsSo(w, old(w.shorts), old(w.stops), AllPatient(dstv.buf) && AllPatient(srcv.buf), res, Min(|dst|, |src|));
  }

  // fuse_buf_copy
  method FuseBufCopy(w: World, dstv: BufVec, srcv: BufVec, noSplice: bool) returns (res: int, ghost lag: nat)
    requires dstv.Valid() && AllFit(dstv.buf, w.Now())
    requires srcv.Valid() && AllFit(srcv.buf, w.Now())
    requires dstv == srcv ==> forall k :: 0 <= k < |dstv.buf| ==> dstv.buf[k].size <= SIZE_MAX
    requires dstv != srcv ==> Disjoint(dstv.Remaining(), srcv.Remaining())
    modifies w, dstv, srcv
    ensures dstv.Valid() && srcv.Valid()
    ensures dstv == srcv ==> w.Now() == old(w.Now()) && dstv.At() == old(dstv.At()) && res == SizeOf(dstv.buf)
    ensures dstv != srcv && res >= 0 ==>
              Refines(old(w.Now()), w.Now(), old(dstv.Remaining()), old(srcv.Remaining()), res)
    ensures dstv != srcv && res < 0 ==> w.Now() == old(w.Now()) && lag == 0
    ensures dstv != srcv ==>
              var n := if res < 0 then 0 else res;
              && n <= |old(srcv.Remaining())| && srcv.Remaining() == old(srcv.Remaining())[n..]
              && lag <= n <= |old(dstv.Remaining())| && dstv.Remaining() == old(dstv.Remaining())[n - lag..]
              && lag == Lag(srcv.buf, old(srcv.At()), dstv.buf, old(dstv.At()), n, |old(srcv.Remaining())|)
    ensures dstv != srcv ==> (lag > 0 <==> old(HasLast(srcv)) && res == |old(srcv.Remaining())|)
    ensures dstv != srcv && old(HasLast(srcv)) ==> (srcv.idx == |srcv.buf| <==> res == |old(srcv.Remaining())|)
    ensures dstv != srcv ==>
              Ended(w, old(w.shorts), old(w.stops), AllPatient(dstv.buf) && AllPatient(srcv.buf), res,
                    old(Overlap(dstv, srcv)))
    ensures dstv != srcv && MemoryOnly(dstv.buf) && MemoryOnly(srcv.buf) ==>
              res == old(Overlap(dstv, srcv))
  {
    hide Refines, FlatCopy, Run, Flat, AllIn, AllFit, Disjoint, BufVec.Remaining, AllPatient, LastSpan, Stepped,
      MemoryOnly, SizeOf, Lag, HasLast;
    lag := 0;
    if dstv == srcv {
      res := FuseBufSize(dstv);
    } else {
      res, lag := CopyVectors(w, dstv, srcv, noSplice);
    }
  }

  // A buffer of unlimited size with one byte behind it: the size of the vector is zero.
  lemma SaturationIsLost(b: Buf, c: Buf)
    requires b.size == SIZE_MAX && c.size == 1
    ensures SizeOf([b, c]) == 0
  {
    hide SizeOf;
    SizeOfNext([], b);
    SizeOfNext([b], c);
    assert [] + [b] == [b] && [b] + [c] == [b, c];
  }

  // One byte of memory copied to another: all is across, and the destination cursor
  // stands where it stood.
  method LastChunkUncounted(w: World) returns (dstv: BufVec, res: int)
    requires |w.mem| >= 2
    modifies w
    ensures fresh(dstv) && res == 1 && w.Now() == Put(old(w.Now()), Mem(1), old(w.mem)[0])
    ensures dstv.Valid() && dstv.Remaining() == [Mem(1)]
  {
    hide Refines, AllFit, BufVec.Remaining, LastSpan, Lag, MemoryOnly, AllPatient, Ended, HasLast, Put;
    ghost var s := w.Now();
    var srcv := new BufVec([Buf(1, false, false, 0, 0, 0)]);
    dstv := new BufVec([Buf(1, false, false, 1, 0, 0)]);
    OneByte(srcv, s, 0);
    OneByte(dstv, s, 1);
    ghost var lag;
    res, lag := FuseBufCopy(w, dstv, srcv, false);
    RefinesOne(s, w.Now(), Mem(1), Mem(0));
    assert [Mem(1)][res - lag..] == [Mem(1)];
  }

  lemma OneByte(v: BufVec, s: Store, at: nat)
    requires v.idx == v.off == 0 && v.buf == [Buf(1, false, false, at, 0, 0)] && at < |s.mem|
    ensures v.Valid() && v.Remaining() == [Mem(at)] && AllFit(v.buf, s) && MemoryOnly(v.buf) && HasLast(v)
    ensures LastSpan(v.buf, 0, 0) == 1
  {
    assert v.buf[1..] == [];
    assert Run(v.buf[0].Start(0), 1) == [Mem(at)];
  }

  lemma RefinesOne(s: Store, t: Store, d: Loc, e: Loc)
    requires Refines(s, t, [d], [e], 1)
    ensures InStore(s, d) && InStore(s, e) && t == Put(s, d, At(s, e))
  {
    hide Put, At;
    FlatCopyNone(s, [d], [e]);
    FlatCopyNext(s, [d], [e], 0);
  }

  // ---- a write and a read request ----

  // One buffer, and what a copy from or to it acts on.
  lemma Single(v: BufVec, b: Buf)
    requires v.idx == v.off == 0 && v.buf == [b]
    ensures v.Valid() && v.Remaining() == Run(v.buf[0].Start(0), b.size)
    ensures |v.Remaining()| == b.size
    ensures forall k :: 0 <= k < b.size ==>
              v.Remaining()[k] == if b.isFd then File(b.fd, b.pos + k) else Mem(b.mem + k)
  {
    assert v.buf[1..] == [];
  }

  lemma FitsOne(b: Buf, s: Store)
    requires if b.isFd then b.fd < |s.files| else b.mem + b.size <= |s.mem|
    ensures AllFit([b], s)
  {
  }

  // What a copy leaves behind between disjoint places without repetition.
  lemma Arrived(s: Store, t: Store, dst: seq<Loc>, src: seq<Loc>, n: nat)
    requires Refines(s, t, dst, src, n) && Disjoint(dst, src) && NoDuplicates(dst)
    ensures SameShape(s, t) && AllIn(s, src) && AllIn(t, dst)
    ensures forall k :: 0 <= k < n ==> At(t, dst[k]) == At(s, src[k])
    ensures forall l :: InStore(s, l) && l !in dst[..n] ==> At(t, l) == At(s, l)
    ensures forall fd :: 0 <= fd < |s.files| ==>
              |t.files[fd]| == if |s.files[fd]| < Reach(dst[..n], fd) then Reach(dst[..n], fd) else |s.files[fd]|
  {
    hide FlatCopy, NoDuplicates, Disjoint, At, Reach;
    FlatCopyMeaning(s, dst, src, n);
    AllInSame(s, t, dst);
    forall fd | 0 <= fd < |s.files|
      ensures |t.files[fd]| == if |s.files[fd]| < Reach(dst[..n], fd) then Reach(dst[..n], fd) else |s.files[fd]|
    {
      FlatCopyLength(s, dst, src, n, fd);
    }
  }

  lemma RunDistinct(l: Loc, n: nat)
    ensures NoDuplicates(Run(l, n))
  {
  }

  // A run of locations in a file reaches to its end, and into no other file.
  lemma {:induction false} ReachOfRun(fd: nat, off: nat, size: nat, n: nat, f: nat)
    requires n <= size
    ensures Reach(Run(File(fd, off), size)[..n], f) == if f == fd && n > 0 then off + n else 0
  {
    if n > 0 {
      var ls := Run(File(fd, off), size)[..n];
      ReachOfRun(fd, off, size, n - 1, f);
      assert ls[n - 1] == File(fd, off + n - 1);
      assert ls[..n - 1] == Run(File(fd, off), size)[..n - 1];
    }
  }

  // lo_write_buf: whatever the request holds goes to the descriptor at the given offset.
  method LoWriteBuf(w: World, inv: BufVec, fd: nat, off: nat) returns (res: int)
    requires inv.Valid() && inv.idx == inv.off == 0 && AllFit(inv.buf, w.Now()) && fd < |w.files|
    requires forall k :: 0 <= k < |inv.buf| ==> inv.buf[k].size <= SIZE_MAX
    requires Disjoint(Run(File(fd, off), SizeOf(inv.buf)), inv.Remaining())
    modifies w, inv
    ensures res < 0 ==> w.Now() == old(w.Now()) && res == -w.error
    ensures w.shorts == old(w.shorts) ==> res == Min(SizeOf(inv.buf), |old(inv.Remaining())|)
    ensures SameShape(old(w.Now()), w.Now()) && res <= |old(inv.Remaining())|
    ensures res > 0 ==> off + res <= |w.files[fd]| && AllIn(old(w.Now()), old(inv.Remaining()))
    ensures res > 0 ==>
              var now := w.files[fd][off..off + res];
              forall k :: 0 <= k < res ==> now[k] == At(old(w.Now()), old(inv.Remaining())[k])
    ensures forall l :: InStore(old(w.Now()), l) && !(l.File? && l.fd == fd && off <= l.at < off + res) ==>
              At(w.Now(), l) == At(old(w.Now()), l)
    ensures forall f :: 0 <= f < |w.files| ==>
              |w.files[f]| == if f == fd && res > 0 && |old(w.files)[f]| < off + res then off + res
                              else |old(w.files)[f]|
  {
    hide Refines, AllFit, BufVec.Remaining, Lag, MemoryOnly, AllPatient, HasLast, SizeOf, Disjoint, Run, AllIn,
      InStore, At;
    ghost var s, src := w.Now(), inv.Remaining();
    var size := FuseBufSize(inv);
    var b := Buf(size, true, false, 0, fd, off);
    var outv := new BufVec([b]);
    Single(outv, b);
    FitsOne(b, s);
    ghost var lag;
    res, lag := FuseBufCopy(w, outv, inv, false);
    if res >= 0 {
      Written(s, w.Now(), fd, off, size, src, res);
    }
  }

  // What a copy into a stretch of a file leaves behind.
  lemma Written(s: Store, t: Store, fd: nat, off: nat, size: nat, src: seq<Loc>, n: nat)
    requires fd < |s.files| && n <= size && Refines(s, t, Run(File(fd, off), size), src, n)
    requires Disjoint(Run(File(fd, off), size), src)
    ensures SameShape(s, t) && n <= |src| && AllIn(s, src)
    ensures forall f :: 0 <= f < |s.files| ==>
              |t.files[f]| == if f == fd && n > 0 && |s.files[f]| < off + n then off + n else |s.files[f]|
    ensures n > 0 ==>
              var now := t.files[fd][off..off + n];
              forall k :: 0 <= k < n ==> now[k] == At(s, src[k])
    ensures forall l :: InStore(s, l) && !(l.File? && l.fd == fd && off <= l.at < off + n) ==> At(t, l) == At(s, l)
  {
    hide Refines, Reach, NoDuplicates, Disjoint, Run, At, InStore;
    var dst := Run(File(fd, off), size);
    RunDistinct(File(fd, off), size);
    RefinesMeans(s, t, dst, src, n);
    Arrived(s, t, dst, src, n);
    forall f | 0 <= f < |s.files| ensures Reach(dst[..n], f) == if f == fd && n > 0 then off + n else 0 {
      ReachOfRun(fd, off, size, n, f);
    }
    RunPlaces(fd, off, size, n);
    if n > 0 {
      WrittenBytes(s, t, fd, off, dst, src, n);
    }
  }

  lemma WrittenBytes(s: Store, t: Store, fd: nat, off: nat, dst: seq<Loc>, src: seq<Loc>, n: nat)
    requires fd < |t.files| && off + n <= |t.files[fd]| && n <= |dst| && n <= |src| && AllIn(t, dst) && AllIn(s, src)
    requires forall k :: 0 <= k < n ==> dst[k] == File(fd, off + k)
    requires forall k :: 0 <= k < n ==> At(t, dst[k]) == At(s, src[k])
    ensures var now := t.files[fd][off..off + n];
            forall k :: 0 <= k < n ==> now[k] == At(s, src[k])
  {
    hide At;
    var now := t.files[fd][off..off + n];
    forall k | 0 <= k < n ensures now[k] == At(s, src[k]) {
      AtPlace(t, fd, off, n, k);
    }
  }

  lemma RunPlaces(fd: nat, off: nat, size: nat, n: nat)
    requires n <= size
    ensures |Run(File(fd, off), size)| == size
    ensures forall k :: 0 <= k < n ==> Run(File(fd, off), size)[k] == File(fd, off + k)
    ensures forall l :: l in Run(File(fd, off), size)[..n] ==> l.File? && l.fd == fd && off <= l.at < off + n
  {
  }

  lemma AtPlace(t: Store, fd: nat, off: nat, n: nat, k: nat)
    requires fd < |t.files| && off + n <= |t.files[fd]| && k < n
    ensures InStore(t, File(fd, off + k)) && t.files[fd][off..off + n][k] == At(t, File(fd, off + k))
  {
  }

  // The same for a request that is one buffer of memory.
  method WriteMemory(w: World, addr: nat, size: nat, fd: nat, off: nat) returns (res: int)
    requires addr + size <= |w.mem| && fd < |w.files| && size < SIZE_MAX
    modifies w
    ensures res < 0 ==> w.Now() == old(w.Now()) && res == -w.error
    ensures w.shorts == old(w.shorts) ==> res == size
    ensures w.mem == old(w.mem) && |w.files| == |old(w.files)| && res <= size
    ensures res > 0 ==> off + res <= |w.files[fd]| && w.files[fd][off..off + res] == old(w.mem)[addr..addr + res]
    ensures forall f :: 0 <= f < |w.files| && f != fd ==> w.files[f] == old(w.files)[f]
  {
    hide AllFit, BufVec.Remaining, SizeOf, Disjoint, Run;
    var b := Buf(size, false, false, addr, 0, 0);
    var inv := new BufVec([b]);
    Single(inv, b);
    FitsOne(b, w.Now());
    SizeOfOne(b);
    RunsApart(File(fd, off), Mem(addr), size);
    ghost var s := w.Now();
    ghost var src := inv.Remaining();
    res := LoWriteBuf(w, inv, fd, off);
    SameElsewhere(s, w.Now(), fd);
    if res > 0 {
      var now, was := w.files[fd][off..off + res], s.mem[addr..addr + res];
      forall k | 0 <= k < res ensures now[k] == was[k] {
        assert src[k] == Mem(addr + k);
      }
    }
  }

  lemma SameElsewhere(s: Store, t: Store, fd: nat)
    requires SameShape(s, t) && fd < |s.files|
    requires forall l :: InStore(s, l) && !(l.File? && l.fd == fd) ==> At(t, l) == At(s, l)
    requires forall f :: 0 <= f < |s.files| && f != fd ==> |t.files[f]| == |s.files[f]|
    ensures t.mem == s.mem
    ensures forall f :: 0 <= f < |s.files| && f != fd ==> t.files[f] == s.files[f]
  {
    forall a | 0 <= a < |s.mem| ensures t.mem[a] == s.mem[a] {
      assert At(t, Mem(a)) == At(s, Mem(a));
    }
    forall f | 0 <= f < |s.files| && f != fd ensures t.files[f] == s.files[f] {
      forall p | 0 <= p < |s.files[f]| ensures t.files[f][p] == s.files[f][p] {
        assert At(t, File(f, p)) == At(s, File(f, p));
      }
    }
  }

  // A descriptor read into one buffer of memory; the file ends before the request does,
  // or the system gave less.
  method ReadMemory(w: World, fd: nat, pos: nat, size: nat, retry: bool, addr: nat) returns (res: int)
    requires addr + size <= |w.mem| && fd < |w.files|
    modifies w
    ensures res < 0 ==> w.Now() == old(w.Now()) && res == -w.error
    ensures w.shorts == old(w.shorts) ==> res == size
    ensures w.files == old(w.files) && |w.mem| == |old(w.mem)| && res <= size
    ensures res > 0 ==>
              var now := w.mem[addr..addr + res];
              forall k :: 0 <= k < res ==> now[k] == At(old(w.Now()), File(fd, pos + k))
    ensures forall a :: 0 <= a < |w.mem| && !(addr <= a < addr + res) ==> w.mem[a] == old(w.mem)[a]
  {
    hide AllFit, BufVec.Remaining, SizeOf, Disjoint, Run, Refines, Lag, MemoryOnly, AllPatient, HasLast, NoDuplicates,
      Reach;
    var b, e := Buf(size, false, false, addr, 0, 0), Buf(size, true, retry, 0, fd, pos);
    var outv := new BufVec([b]);
    var inv := new BufVec([e]);
    ghost var s := w.Now();
    Single(outv, b);
    Single(inv, e);
    FitsOne(b, s);
    FitsOne(e, s);
    RunsApart(Mem(addr), File(fd, pos), size);
    RunDistinct(Mem(addr), size);
    ghost var dst, src := outv.Remaining(), inv.Remaining();
    ghost var lag;
    res, lag := FuseBufCopy(w, outv, inv, false);
    if res >= 0 {
      Arrived(s, w.Now(), dst, src, res);
      if res > 0 {
        var now := w.mem[addr..addr + res];
        forall k | 0 <= k < res ensures now[k] == At(s, File(fd, pos + k)) {
          assert At(w.Now(), dst[k]) == At(s, src[k]) && dst[k] == Mem(addr + k) && src[k] == File(fd, pos + k);
        }
      }
      OnlyMemory(s, w.Now(), addr, size, dst, src, res);
    }
  }

  lemma OnlyMemory(s: Store, t: Store, addr: nat, size: nat, dst: seq<Loc>, src: seq<Loc>, n: nat)
    requires Refines(s, t, dst, src, n) && dst == Run(Mem(addr), size) && n <= size && addr + size <= |s.mem|
    requires SameShape(s, t)
    requires forall l :: InStore(s, l) && l !in dst[..n] ==> At(t, l) == At(s, l)
    requires forall fd :: 0 <= fd < |s.files| ==>
               |t.files[fd]| == if |s.files[fd]| < Reach(dst[..n], fd) then Reach(dst[..n], fd) else |s.files[fd]|
    ensures t.files == s.files
    ensures forall a :: 0 <= a < |s.mem| && !(addr <= a < addr + n) ==> t.mem[a] == s.mem[a]
  {
    hide Refines, Reach;
    forall f | 0 <= f < |s.files| ensures t.files[f] == s.files[f] {
      NoReach(addr, size, n, f);
      forall p | 0 <= p < |s.files[f]| ensures t.files[f][p] == s.files[f][p] {
        assert At(t, File(f, p)) == At(s, File(f, p));
      }
    }
    forall a | 0 <= a < |s.mem| && !(addr <= a < addr + n) ensures t.mem[a] == s.mem[a] {
      assert At(t, Mem(a)) == At(s, Mem(a));
    }
  }

  lemma {:induction false} NoReach(addr: nat, size: nat, n: nat, f: nat)
    requires n <= size
    ensures Reach(Run(Mem(addr), size)[..n], f) == 0
  {
    if n > 0 {
      NoReach(addr, size, n - 1, f);
      assert Run(Mem(addr), size)[..n][..n - 1] == Run(Mem(addr), size)[..n - 1];
    }
  }

  lemma SizeOfOne(b: Buf)
    requires b.size < SIZE_MAX
    ensures SizeOf([b]) == b.size
  {
    hide SizeOf;
    NoSize();
    SizeOfNext([], b);
    assert [] + [b] == [b];
  }
}
