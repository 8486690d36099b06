// passthrough_ll.c: lo_do_readdir, which fills replies of limited size and keeps the
// entry that did not fit for the next request.
module ReadDir {
  import opened Bytes
  import opened InodeRefs
  import opened InodeList

  // struct dirent, with the file its name leads to.
  datatype Dirent = Dirent(name: string, off: nat, key: Key)

  predicate IsDotOrDotdot(name: string) {
    |name| > 0 && name[0] == '.' && (|name| == 1 || (name[1] == '.' && |name| == 2))
  }

  // The test by characters is true of these two names and no other.
  lemma DotNames(name: string)
    ensures IsDotOrDotdot(name) <==> name == "." || name == ".."
  {
  }

  // fuse_add_direntry and fuse_add_direntry_plus: the padded size of an entry.
  function EntSize(e: Dirent, plus: bool): (n: nat)
    ensures n > 0
  {
    ((if plus then 152 else 24) + |e.name| + 7) / 8 * 8
  }

  // The least multiple of 8 that holds the header and the name. The header is a struct
  // fuse_dirent (ino, off, namelen, type), with plus after a struct fuse_entry_out (six
  // numbers of 40 bytes and the 88 bytes of the attributes).
  lemma EntSizeIsLeast(e: Dirent, plus: bool)
    ensures var header := 8 + 8 + 4 + 4 + (if plus then 40 + 88 else 0);
            EntSize(e, plus) % 8 == 0 && header + |e.name| <= EntSize(e, plus) < header + |e.name| + 8
  {
  }

  // The offset that stands for "before entry k".
  function OffsetOf(entries: seq<Dirent>, k: nat): nat
    requires k <= |entries|
  {
    if k == 0 then 0 else entries[k - 1].off
  }

  // Every offset names one place in the directory.
  predicate DistinctOffsets(entries: seq<Dirent>) {
    forall i, j :: 0 <= i < j <= |entries| ==> OffsetOf(entries, i) != OffsetOf(entries, j)
  }

  // DIR: a directory that does not change while it is read.
  class Dir {
    const entries: seq<Dirent>
    var pos: nat

    ghost predicate Valid()
      reads this
    {
      pos <= |entries| && DistinctOffsets(entries)
    }

    constructor (es: seq<Dirent>)
      requires DistinctOffsets(es)
      ensures Valid() && entries == es && pos == 0
    {
      entries, pos := es, 0;
    }

    method Seekdir(offset: nat, ghost k: nat)
      requires Valid() && k <= |entries| && offset == OffsetOf(entries, k)
      modifies this
      ensures Valid() && pos == k
    {
      pos := 0;
      while offset != OffsetOf(entries, pos)
        invariant pos <= k
        decreases k - pos
      {
        pos := pos + 1;
      }
    }

    // NULL is the end of the directory, or an error if there can be one.
    method Readdir(mayFail: bool) returns (e: Option<Dirent>, errno: nat)
      requires Valid()
      modifies this
      ensures Valid()
      ensures e.Some? ==> old(pos) < |entries| && e.value == entries[old(pos)] && pos == old(pos) + 1
      ensures e.None? ==> pos == old(pos) && (errno == 0 ==> pos == |entries|) && (errno != 0 ==> mayFail)
    {
      var fail := *;
      errno := 0;
      if mayFail && fail {
        errno := 5;
        e := None;
      } else if pos < |entries| {
        e := Some(entries[pos]);
        pos := pos + 1;
      } else {
        e := None;
      }
    }
  }

  // struct lo_dirp
  class LoDirp {
    const dp: Dir
    var entry: Option<Dirent>
    var offset: nat

    // The entry the next reply starts with.
    function At(): int
      reads this, dp
    {
      if entry.Some? then dp.pos - 1 else dp.pos
    }

    ghost predicate Valid()
      reads this, dp
    {
      && dp.Valid()
      && 0 <= At() <= |dp.entries|
      && (entry.Some? ==> At() < |dp.entries| && entry.value == dp.entries[At()])
      && offset == OffsetOf(dp.entries, At())
    }

    // lo_opendir
    constructor (dir: Dir)
      requires dir.Valid() && dir.pos == 0
      ensures Valid() && dp == dir && At() == 0
    {
      dp, entry, offset := dir, None, 0;
    }
  }

  function Total(es: seq<Dirent>, plus: bool): nat {
    if es == [] then 0 else Total(es[..|es| - 1], plus) + EntSize(es[|es| - 1], plus)
  }

  // The references a reply takes: one for each entry but "." and "..".
  function Taken(es: seq<Dirent>, plus: bool): multiset<Key> {
    if es == [] || !plus then multiset{}
    else Taken(es[..|es| - 1], plus)
         + (if es[|es| - 1].name == "." || es[|es| - 1].name == ".." then multiset{}
            else multiset{es[|es| - 1].key})
  }

  datatype End = AtEnd | Full | Failed

  // The first half of a round: have an entry, the one left over or the next one.
  method HaveEntry(d: LoDirp, mayFail: bool) returns (e: Option<Dirent>, why: End)
    requires d.Valid()
    modifies d`entry, d.dp
    ensures d.Valid() && d.At() == old(d.At()) && e == d.entry
    ensures e == None ==> if why == AtEnd then d.At() == |d.dp.entries| else why == Failed && mayFail
  {
    why := AtEnd;
    if d.entry == None {
      var entry, errno := d.dp.Readdir(mayFail);
      d.entry := entry;
      if errno != 0 {
        why := Failed;
      }
    }
    e := d.entry;
  }

  predicate Looked(e: Dirent, plus: bool) {
    plus && e.name != "." && e.name != ".."
  }

  // The objects a lookup may change.
  ghost predicate Covers(repr: set<object>, lo: LoData)
    reads lo`list
  {
    lo in repr && lo.root in repr && forall n :: n in lo.list ==> n in repr
  }

  // The second half: look the entry up, and give it back if it does not fit.
  method AddEntry(lo: LoData, e: Dirent, rem: nat, plus: bool, mayFail: bool, ghost repr: set<object>)
    returns (more: bool, why: End, ghost repr': set<object>)
    requires lo.Valid() && Covers(repr, lo)
    modifies repr
    ensures lo.Valid() && Covers(repr', lo) && repr <= repr' && fresh(repr' - repr)
    ensures lo.refs == old(lo.refs) + (if more && Looked(e, plus) then multiset{e.key} else multiset{})
    ensures more ==> EntSize(e, plus) <= rem
    ensures !more ==> if why == Full then EntSize(e, plus) > rem else why == Failed && mayFail
  {
    hide Ring, LoData.Linked, LoData.Counted, Tallied, IsDotOrDotdot;
    DotNames(e.name);
    more, why, repr' := false, Failed, repr;
    var inode: LoInode? := null;
    if plus && !IsDotOrDotdot(e.name) {
      var fail := *;
      if mayFail && fail {
        return;
      }
      var newfd: nat := *;
      inode := lo.LoDoLookup(newfd, e.key);
      repr' := repr + {inode};
    }
    if EntSize(e, plus) > rem {
      if inode != null {
        lo.LoForgetOne(inode, 1);
      }
      why := Full;
      return;
    }
    more := true;
  }

  // The inode table and the open directory are sound and have no object in common.
  ghost predicate Ready(lo: LoData, d: LoDirp, repr: set<object>)
    reads lo, lo.root, lo.list, d, d.dp
  {
    lo.Valid() && d.Valid() && Covers(repr, lo) && d !in repr && d.dp !in repr
  }

  // Why the loop ended before entry k with this much room left.
  predicate Stopped(entries: seq<Dirent>, k: int, rem: nat, plus: bool, why: End, mayFail: bool) {
    match why
    case AtEnd => k == |entries|
    case Full => 0 <= k < |entries| && EntSize(entries[k], plus) > rem
    case Failed => mayFail
  }

  // One round of the loop; `more` says that the entry was stored and the loop goes on.
  method NextEntry(lo: LoData, d: LoDirp, rem: nat, plus: bool, mayFail: bool, ghost repr: set<object>)
    returns (more: bool, e: Dirent, why: End, ghost repr': set<object>)
    requires Ready(lo, d, repr)
    modifies repr, d, d.dp
    ensures Ready(lo, d, repr') && fresh(repr' - repr)
    ensures more ==> old(d.At()) < |d.dp.entries| && e == d.dp.entries[old(d.At())] && d.At() == old(d.At()) + 1
    ensures !more ==> d.At() == old(d.At())
    ensures more ==> EntSize(e, plus) <= rem
    ensures if more then TookOne(old(lo.refs), lo.refs, e, plus) else lo.refs == old(lo.refs)
    ensures !more ==> Stopped(d.dp.entries, d.At(), rem, plus, why, mayFail)
  {
    hide EntSize, LoData.Valid, DistinctOffsets;
    more, e, repr' := false, Dirent("", 0, Key(0, 0)), repr;
    var entry, stop := HaveEntry(d, mayFail);
    why := stop;
    if entry != None {
      e := entry.value;
      more, why, repr' := AddEntry(lo, e, rem, plus, mayFail, repr);
      if more {
        d.entry := None;
        d.offset := e.off;
      }
    }
  }

  lemma OffsetNamesPlace(entries: seq<Dirent>, i: nat, j: nat)
    requires DistinctOffsets(entries) && i <= |entries| && j <= |entries|
    requires OffsetOf(entries, i) == OffsetOf(entries, j)
    ensures i == j
  {
  }

  // The request's offset is not where the last one stopped: the entry kept is dropped.
  method SeekTo(d: LoDirp, offset: nat, ghost k: nat)
    requires d.Valid() && k <= |d.dp.entries| && offset == OffsetOf(d.dp.entries, k)
    modifies d, d.dp
    ensures d.Valid() && d.At() == k
  {
    if offset != d.offset {
      d.dp.Seekdir(offset, k);
      d.entry := None;
      d.offset := offset;
    } else {
      OffsetNamesPlace(d.dp.entries, k, d.At());
    }
  }

  // A reply under way: the entries from k on, and the room they leave.
  predicate Filling(entries: seq<Dirent>, k: nat, reply: seq<Dirent>, size: nat, rem: int, plus: bool) {
    && k + |reply| <= |entries| && reply == entries[k..k + |reply|]
    && 0 <= rem == size - Total(reply, plus)
  }

  // A reply has taken exactly its references, and so has the next entry.
  predicate Took(was: multiset<Key>, now: multiset<Key>, reply: seq<Dirent>, plus: bool) {
    now == was + Taken(reply, plus)
  }

  predicate TookOne(was: multiset<Key>, now: multiset<Key>, e: Dirent, plus: bool) {
    now == was + (if Looked(e, plus) then multiset{e.key} else multiset{})
  }

  lemma TookMore(was: multiset<Key>, now: multiset<Key>, next: multiset<Key>, reply: seq<Dirent>, e: Dirent, plus: bool)
    requires Took(was, now, reply, plus) && TookOne(now, next, e, plus)
    ensures Took(was, next, reply + [e], plus)
  {
    assert (reply + [e])[..|reply|] == reply;
  }

  lemma TookNone(was: multiset<Key>, plus: bool)
    ensures Took(was, was, [], plus)
  {
  }

  lemma FillNone(entries: seq<Dirent>, k: nat, size: nat, plus: bool)
    requires k <= |entries|
    ensures Filling(entries, k, [], size, size, plus)
  {
  }

  lemma FillMore(entries: seq<Dirent>, k: nat, reply: seq<Dirent>, size: nat, rem: nat, plus: bool)
    requires Filling(entries, k, reply, size, rem, plus) && k + |reply| < |entries|
    requires EntSize(entries[k + |reply|], plus) <= rem
    ensures var e := entries[k + |reply|];
            Filling(entries, k, reply + [e], size, rem - EntSize(e, plus), plus)
  {
    hide EntSize;
    var e := entries[k + |reply|];
    assert (reply + [e])[..|reply|] == reply;
  }

  lemma ReadyAt(lo: LoData, d: LoDirp, repr: set<object>)
    requires Ready(lo, d, repr)
    ensures 0 <= d.At() <= |d.dp.entries|
  {
  }

  // The loop of lo_do_readdir.
  method FillReply(lo: LoData, d: LoDirp, size: nat, plus: bool, mayFail: bool, ghost repr: set<object>)
    returns (reply: seq<Dirent>, rem: nat, why: End, ghost repr': set<object>)
    requires Ready(lo, d, repr)
    modifies repr, d, d.dp
    ensures Ready(lo, d, repr') && fresh(repr' - repr)
    ensures 0 <= old(d.At()) && Filling(d.dp.entries, old(d.At()), reply, size, rem, plus)
    ensures d.At() == old(d.At()) + |reply| && Took(old(lo.refs), lo.refs, reply, plus)
    ensures Stopped(d.dp.entries, d.At(), rem, plus, why, mayFail)
  {
    hide EntSize, Ready, LoDirp.At, Took, TookOne, Looked, Filling, Stopped;
    ghost var k := d.At();
    ReadyAt(lo, d, repr);
    TookNone(lo.refs, plus);
    FillNone(d.dp.entries, k, size, plus);
    reply, rem, why, repr' := [], size, Failed, repr;
    var more := true;
    while more
      invariant Ready(lo, d, repr') && fresh(repr' - repr)
      invariant d.At() == k + |reply| && Filling(d.dp.entries, k, reply, size, rem, plus)
      invariant Took(old(lo.refs), lo.refs, reply, plus)
      invariant !more ==> Stopped(d.dp.entries, d.At(), rem, plus, why, mayFail)
      decreases more, |d.dp.entries| - |reply|
    {
      var e;
      ghost var now := lo.refs;
      more, e, why, repr' := NextEntry(lo, d, rem, plus, mayFail, repr');
      if more {
        FillMore(d.dp.entries, k, reply, size, rem, plus);
        TookMore(old(lo.refs), now, lo.refs, reply, e, plus);
        reply := reply + [e];
        rem := rem - EntSize(e, plus);
      }
    }
  }

  // lo_do_readdir. The reply is the entries from the offset on, as many as fit.
  method LoDoReaddir(lo: LoData, d: LoDirp, size: nat, offset: nat, plus: bool, mayFail: bool,
                     ghost k: nat, ghost repr: set<object>)
    returns (err: bool, reply: seq<Dirent>, ghost failed: bool, ghost repr': set<object>)
    requires Ready(lo, d, repr)
    requires k <= |d.dp.entries| && offset == OffsetOf(d.dp.entries, k)
    modifies repr, d, d.dp
    ensures Ready(lo, d, repr') && fresh(repr' - repr)
    ensures k + |reply| <= |d.dp.entries| && reply == d.dp.entries[k..k + |reply|] && d.At() == k + |reply|
    ensures Total(reply, plus) <= size && lo.refs == old(lo.refs) + Taken(reply, plus)
    ensures !failed && k + |reply| < |d.dp.entries| ==>
              Total(reply, plus) + EntSize(d.dp.entries[k + |reply|], plus) > size
    ensures (failed ==> mayFail) && (err <==> failed && reply == [])
  {
    hide EntSize, LoData.Valid, LoDirp.Valid, LoDirp.At, Total, Taken, Covers;
    SeekTo(d, offset, k);
    var rem, why;
    reply, rem, why, repr' := FillReply(lo, d, size, plus, mayFail, repr);
    failed := why == Failed;
    TotalPositive(reply, plus);
    err := why == Failed && rem == size;
  }

  lemma TotalPositive(es: seq<Dirent>, plus: bool)
    ensures Total(es, plus) == 0 <==> es == []
  {
  }

  lemma {:induction false} TookAppend(was: multiset<Key>, now: multiset<Key>, next: multiset<Key>,
                                      a: seq<Dirent>, b: seq<Dirent>, plus: bool)
    requires Took(was, now, a, plus) && Took(now, next, b, plus)
    ensures Took(was, next, a + b, plus)
  {
    hide Took, TookOne, Taken, Looked;
    if b == [] {
      TookNothing(now, next, plus);
      assert a + b == a;
    } else {
      var n := |b| - 1;
      var mid := TookSplit(now, next, b, plus);
      TookAppend(was, now, mid, a, b[..n], plus);
      TookMore(was, mid, next, a + b[..n], b[n], plus);
      assert a + b == a + b[..n] + [b[n]];
    }
  }

  lemma TookNothing(was: multiset<Key>, now: multiset<Key>, plus: bool)
    requires Took(was, now, [], plus)
    ensures now == was
  {
  }

  lemma TookSplit(was: multiset<Key>, now: multiset<Key>, es: seq<Dirent>, plus: bool) returns (mid: multiset<Key>)
    requires es != [] && Took(was, now, es, plus)
    ensures Took(was, mid, es[..|es| - 1], plus) && TookOne(mid, now, es[|es| - 1], plus)
  {
    mid := was + Taken(es[..|es| - 1], plus);
  }

  // Paging is exact. Whatever the sizes of the requests, each big enough for one entry,
  // a reader that goes on from the last offset until nothing comes sees every entry of
  // the directory once and in order, and with `plus` each file but "." and ".." has
  // gained the references of its entries.
  method ReadWholeDirectory(lo: LoData, d: LoDirp, plus: bool, least: nat, ghost repr: set<object>)
    returns (listing: seq<Dirent>, ghost repr': set<object>)
    requires Ready(lo, d, repr)
    requires forall i :: 0 <= i < |d.dp.entries| ==> EntSize(d.dp.entries[i], plus) <= least
    modifies repr, d, d.dp
    ensures Ready(lo, d, repr') && fresh(repr' - repr)
    ensures listing == d.dp.entries
    ensures lo.refs == old(lo.refs) + Taken(d.dp.entries, plus)
  {
    hide Ready, Took, Taken, EntSize, LoDirp.At;
    TookNone(lo.refs, plus);
    listing, repr' := [], repr;
    var offset := 0;
    var more := true;
    while more
      invariant Ready(lo, d, repr') && fresh(repr' - repr)
      invariant |listing| <= |d.dp.entries| && listing == d.dp.entries[..|listing|]
      invariant offset == OffsetOf(d.dp.entries, |listing|)
      invariant Took(old(lo.refs), lo.refs, listing, plus)
      invariant !more ==> |listing| == |d.dp.entries|
      decreases more, |d.dp.entries| - |listing|
    {
      var size: nat :| size >= least;
      ghost var now := lo.refs;
      var err, reply, failed, repr'' := LoDoReaddir(lo, d, size, offset, plus, false, |listing|, repr');
      repr' := repr'';
      TookReply(now, lo.refs, reply, plus);
      TookAppend(old(lo.refs), now, lo.refs, listing, reply, plus);
      more := reply != [];
      if more {
        offset := reply[|reply| - 1].off;
      }
      listing := listing + reply;
    }
    TookReply(old(lo.refs), lo.refs, listing, plus);
  }

  lemma TookReply(was: multiset<Key>, now: multiset<Key>, reply: seq<Dirent>, plus: bool)
    ensures Took(was, now, reply, plus) <==> now == was + Taken(reply, plus)
  {
  }
}
