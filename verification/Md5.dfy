// c/md5/ems_md5.c: the streaming digest. A context stages up to 128 bytes and hands
// whole blocks to md5_process_block; a 64-bit byte count lives in two 32-bit words.
module Md5 {
  import opened Bytes
  import opened Md5Spec
  import opened Md5Rounds

  const WORD := 0x1_0000_0000

  const BLOCKSIZE := 32768

  // The two words of a count, and what they stand for.
  function Count(lo: nat, hi: nat): nat {
    lo + WORD * hi
  }

  // The double word increment: add the low word, carry when it wraps, add the high word.
  lemma CountAdd(lo: nat, hi: nat, len: nat, total: nat)
    requires lo < WORD && hi < WORD && Count(lo, hi) == total % (WORD * WORD) && len < WORD * WORD
    ensures var lo' := (lo + len % WORD) % WORD;
            var hi' := (hi + len / WORD + (if lo' < len % WORD then 1 else 0)) % WORD;
            Count(lo', hi') == (total + len) % (WORD * WORD)
  {
    var l, h := len % WORD, len / WORD;
    var lo', carry := AddWords(lo, l);
    var sum := hi + h + carry;
    var hi', k := sum % WORD, sum / WORD + total / (WORD * WORD);
    assert total + len == Count(lo', hi') + WORD * WORD * k;
    Remainder(total + len, k, Count(lo', hi'));
  }

  // Adding two words: the sum wrapped exactly if it came out below an operand.
  lemma AddWords(a: nat, b: nat) returns (sum: nat, carry: nat)
    requires a < WORD && b < WORD
    ensures sum == (a + b) % WORD && carry == (if sum < b then 1 else 0)
    ensures a + b == sum + WORD * carry
  {
    sum := (a + b) % WORD;
    carry := if sum < b then 1 else 0;
  }

  // total[0] << 3 and (total[1] << 3) | (total[0] >> 29): the halves of the bit count.
  lemma BitCount(lo: nat, hi: nat, total: nat)
    requires lo < WORD && hi < WORD && Count(lo, hi) == total % (WORD * WORD)
    ensures Count(lo * 8 % WORD, hi * 8 % WORD + lo / 0x2000_0000) == 8 * total % (WORD * WORD)
  {
    var a, b := lo / 0x2000_0000, lo % 0x2000_0000;
    var p, q := hi / 0x2000_0000, hi % 0x2000_0000;
    var n, square := total / (WORD * WORD), WORD * WORD;
    assert lo * 8 % WORD == 8 * b && hi * 8 % WORD == 8 * q;
    var r := 8 * b + WORD * (8 * q + a);
    assert 0 <= r < square;
    assert 8 * total == r + square * (p + 8 * n);
    Remainder(8 * total, p + 8 * n, r);
  }

  lemma Remainder(x: nat, k: nat, r: nat)
    requires r < 0x1_0000_0000_0000_0000 && x == r + 0x1_0000_0000_0000_0000 * k
    ensures x % 0x1_0000_0000_0000_0000 == r
  {
  }

  // (total[1] << 3) | (total[0] >> 29): the two words have no bit in common, so that
  // their bitwise or is the sum above.
  lemma HighWord(lo: nat, hi: nat)
    requires lo < WORD && hi < WORD
    ensures Or(hi * 8 % WORD, lo / 0x2000_0000) == hi * 8 % WORD + lo / 0x2000_0000
  {
    hide Or;
    var q, r := hi / 0x2000_0000, hi % 0x2000_0000;
    assert Power(3) == 8;
    assert hi * 8 == WORD * q + 8 * r;
    Wrapped(hi * 8, q, 8 * r);
    OrIsSum(r, lo / 0x2000_0000, 3);
  }

  lemma Wrapped(x: nat, q: nat, r: nat)
    requires r < WORD && x == WORD * q + r
    ensures x % WORD == r
  {
  }

  lemma BlocksNext(r: Regs, data: Data, n: nat)
    requires 64 * n + 64 <= |data|
    ensures Blocks(r, data[..64 * n + 64])
         == Compress(Blocks(r, data[..64 * n]), Words(data[64 * n..64 * n + 64]))
  {
    hide Blocks, Compress, Words;
    var x, block := data[..64 * n], data[64 * n..64 * n + 64];
    BlocksAppend(r, x, block);
    assert data[..64 * n + 64] == x + block;
    BlocksStep(Blocks(r, x), block);
    BlocksStep(Compress(Blocks(r, x), Words(block)), []);
    assert block[..64] == block && block[64..] == [];
  }

  lemma StepsNone(r: Regs, x: seq<bv32>)
    requires |x| == 16
    ensures Steps(r, x, 0) == r
  {
  }

  // The body of the loop of md5_process_block: the four rounds on one block.
  method Transform(r: Regs, block: Data) returns (q: Regs)
    requires |block| == 64
    ensures q == Compress(r, Words(block))
  {
    hide Steps, Words, Plus;
    var x := Words(block);
    StepsNone(r, x);
    var A, B, C, D := Round1(r, x, r.a, r.b, r.c, r.d);
    A, B, C, D := Round2(r, x, A, B, C, D);
    A, B, C, D := Round3(r, x, A, B, C, D);
    A, B, C, D := Round4(r, x, A, B, C, D);
    q := Regs(Plus(A, r.a), Plus(B, r.b), Plus(C, r.c), Plus(D, r.d));
  }

  // The loop of md5_process_block.
  method TransformAll(r: Regs, data: Data) returns (q: Regs)
    requires |data| % 64 == 0
    ensures q == Blocks(r, data)
  {
    hide Blocks, Compress, Words;
    q := r;
    var words := 0;
    ghost var n, i := |data| / 64, 0;
    assert data[..0] == [];
    BlocksStep(r, []);
    while words < |data|
      invariant words == 64 * i && i <= n
      invariant q == Blocks(r, data[..words])
    {
      BlocksNext(r, data, i);
      q := Transform(q, data[words..words + 64]);
      words, i := words + 64, i + 1;
    }
    assert data[..words] == data;
  }

  method MemCpy(a: array<Byte>, at: nat, bytes: Data)
    requires at + |bytes| <= a.Length
    modifies a
    ensures a[..at + |bytes|] == old(a[..at]) + bytes
    ensures a[at + |bytes|..] == old(a[at + |bytes|..])
  {
    forall k | 0 <= k < |bytes| {
      a[at + k] := bytes[k];
    }
  }

  // The three stores of md5_finish_ctx: the two length words, then the fill before them.
  method WriteTail(a: array<Byte>, at: nat, fill: Data, lo: Data, hi: Data)
    requires |lo| == |hi| == 4 && at + |fill| + 8 <= a.Length
    modifies a
    ensures a[..at + |fill| + 8] == old(a[..at]) + fill + lo + hi
  {
    var end := at + |fill|;
    ghost var was := a[..];
    MemCpy(a, end, lo);
    ghost var a1 := a[..];
    assert a1[..end] == was[..end] && a1[end..end + 4] == lo by { assert a1[..end + 4] == a[..end + 4]; }
    MemCpy(a, end + 4, hi);
    ghost var a2 := a[..];
    assert a2[..end + 4] == a1[..end + 4] && a2[end + 4..end + 8] == hi by { assert a2[..end + 8] == a[..end + 8]; }
    assert a2[end..end + 8] == lo + hi by { assert a2[end..end + 4] == a2[..end + 4][end..]; }
    MemCpy(a, at, fill);
    assert a[..end] == was[..at] + fill by { assert a2[..at] == a2[..end + 4][..at] && was[..at] == was[..end][..at]; }
    assert a[end..end + 8] == a2[end..end + 8] by { assert a[end..end + 8] == a[end..][..8]; }
    assert a[..end + 8] == a[..end] + a[end..end + 8];
  }

  // The bit count stored by md5_finish_ctx, after the staged bytes have been counted.
  lemma FinalLength(total0: nat, total1: nat, bytes: nat, n: nat)
    requires total0 < WORD && total1 < WORD && Count(total0, total1) == n % (WORD * WORD) && bytes < WORD
    ensures var lo := (total0 + bytes) % WORD;
            var hi := if lo < bytes then (total1 + 1) % WORD else total1;
            Little(lo * 8 % WORD, 4) + Little(Or(hi * 8 % WORD, lo / 0x2000_0000), 4)
            == Little(8 * (n + bytes) % (WORD * WORD), 8)
  {
    hide Little, Or;
    var lo := (total0 + bytes) % WORD;
    var hi := if lo < bytes then (total1 + 1) % WORD else total1;
    CountAdd(total0, total1, bytes, n);
    assert bytes % WORD == bytes && bytes / WORD == 0;
    assert lo < WORD && hi < WORD && Count(lo, hi) == (n + bytes) % (WORD * WORD);
    BitCount(lo, hi, n + bytes);
    HighWord(lo, hi);
    LittlePair(lo * 8 % WORD, hi * 8 % WORD + lo / 0x2000_0000);
  }

  // The fill and the length words are the padding of the standard.
  lemma FillIsPadding(whole: nat, bytes: nat)
    requires bytes <= 64 && whole % 64 == 0
    ensures var n, fill := whole + bytes, (if bytes < 56 then 56 else 120) - bytes;
            Padding(n) == ([0x80] + Zeros(63))[..fill] + Little(8 * n % (WORD * WORD), 8)
  {
    hide Little;
    var n := whole + bytes;
    var fill := (if bytes < 56 then 56 else 120) - bytes;
    assert (55 - n) % 64 == fill - 1;
    assert ([0x80] + Zeros(63))[..fill] == [0x80] + Zeros(fill - 1);
  }

  lemma Regroup(x: Data, y: Data, n: nat)
    requires n <= |y|
    ensures x + y[..n] + y[n..] == x + y
  {
  }

  // n & ~63
  function Whole(n: nat): nat {
    n - n % 64
  }

  lemma WholePart(n: nat)
    requires 64 <= n <= 128
    ensures Whole(n) % 64 == 0 && Whole(n) <= n < Whole(n) + 64 && n - Whole(n) <= Whole(n)
    ensures n == 128 ==> Whole(n) == 128
  {
  }

  lemma Regroup2(x: Data, y: Data, z: Data)
    ensures x + (y + z) == x + y + z
  {
  }

  class Ctx {
    var regs: Regs           // A, B, C, D
    var total0: nat
    var total1: nat
    var buflen: nat
    const buffer: array<Byte>

    ghost var processed: Data // every byte given to ProcessBlock so far

    // The registers hold the digest of the processed blocks so far.
    ghost predicate Chained()
      reads `regs, `total0, `total1, `processed
    {
      && buffer.Length == 128
      && |processed| % 64 == 0
      && regs == Blocks(INIT, processed)
      && total0 < WORD && total1 < WORD
    }

    // So they do, and the count is the number of bytes processed.
    ghost predicate Hashed()
      reads `regs, `total0, `total1, `processed
    {
      Chained() && Count(total0, total1) == |processed| % (WORD * WORD)
    }

    ghost predicate Valid()
      reads this
    {
      buffer.Length == 128 && Hashed() && buflen <= 64
    }

    // All input so far: the processed blocks, then the staged bytes.
    ghost function Input(): Data
      requires buffer.Length == 128 && buflen <= 128
      reads this, buffer
    {
      processed + buffer[..buflen]
    }

    // md5_init_ctx
    constructor ()
      ensures Valid() && buflen == 0 && processed == [] && Input() == [] && fresh(buffer)
    {
      regs := INIT;
      total0, total1, buflen := 0, 0, 0;
      buffer := new Byte[128](_ => 0);
      processed := [];
    }

    lemma HashedIsChained()
      requires Hashed()
      ensures Chained() && buffer.Length == 128
    {
    }

    // Lines 306-310: the count goes up by the length of the data.
    method CountUp(len: nat, ghost total: nat)
      requires total0 < WORD && total1 < WORD && len < WORD * WORD
      modifies `total0, `total1
      ensures total0 < WORD && total1 < WORD
      ensures old(Count(total0, total1)) == total % (WORD * WORD) ==>
                Count(total0, total1) == (total + len) % (WORD * WORD)
    {
      hide Count;
      if Count(total0, total1) == total % (WORD * WORD) {
        CountAdd(total0, total1, len, total);
      }
      var lolen := len % WORD;
      total0 := (total0 + lolen) % WORD;
      total1 := (total1 + len / WORD + (if total0 < lolen then 1 else 0)) % WORD;
    }

    // md5_process_block
    method ProcessBlock(data: Data)
      requires Chained() && |data| % 64 == 0 && |data| < WORD * WORD
      modifies `regs, `total0, `total1, `processed
      ensures Chained() && processed == old(processed) + data
      ensures old(Hashed()) ==> Hashed()
    {
      hide Blocks, Count;
      CountUp(|data|, |processed|);
      BlocksAppend(INIT, processed, data);
      regs := TransformAll(regs, data);
      processed := processed + data;
    }

    // Copying bytes behind the staged ones.
    method Stage(bytes: Data)
      requires buffer.Length == 128 && buflen + |bytes| <= 128
      modifies `buflen, buffer
      ensures buflen == old(buflen) + |bytes| && Input() == old(Input()) + bytes
    {
      MemCpy(buffer, buflen, bytes);
      buflen := buflen + |bytes|;
    }

    // Hashing the first blocks of the buffer and moving the rest to its start; the
    // two regions of that copy do not overlap.
    method Drain(whole: nat)
      requires Hashed() && whole % 64 == 0 && whole <= buflen <= 128 && buflen - whole <= whole
      modifies this, buffer
      ensures Hashed() && buflen == old(buflen) - whole && Input() == old(Input())
    {
      hide Ctx.Hashed, Ctx.Chained;
      HashedIsChained();
      ghost var all := buffer[..buflen];
      Regroup(processed, all, whole);
      assert all[..whole] == buffer[..whole] && all[whole..] == buffer[whole..buflen];
      ProcessBlock(buffer[..whole]);
      MemCpy(buffer, 0, buffer[whole..buflen]);
      buflen := buflen - whole;
      assert buffer[..buflen] == all[whole..];
    }

    // The first path of md5_process_bytes: fill up a buffer that is not empty.
    method TopUp(data: Data) returns (rest: Data)
      requires Valid() && buflen != 0
      modifies this, buffer
      ensures Valid() && |rest| <= |data| && Input() + rest == old(Input()) + data
      ensures rest != [] ==> buflen == 0
    {
      hide Ctx.Hashed, Ctx.Chained, Ctx.Input, Whole;
      assert buffer.Length == 128;
      ghost var input := Input();
      var add := if 128 - buflen > |data| then |data| else 128 - buflen;
      Stage(data[..add]);
      rest := data[add..];
      Regroup(input, data, add);
      if buflen > 64 {
        WholePart(buflen);
        Drain(Whole(buflen));
      }
    }

    // md5_process_block (memcpy (ctx->buffer, buffer, 64), 64, ctx)
    method ProcessCopied(block: Data)
      requires Hashed() && |block| == 64
      modifies `regs, `total0, `total1, `processed, buffer
      ensures Hashed() && processed == old(processed) + block
    {
      hide Ctx.Hashed, Ctx.Chained;
      HashedIsChained();
      MemCpy(buffer, 0, block);
      assert buffer[..64] == block;
      ProcessBlock(buffer[..64]);
    }

    // The second path: whole blocks, through the buffer if they are not aligned.
    method Bulk(data: Data, aligned: bool) returns (rest: Data)
      requires Valid() && buflen == 0 && |data| < WORD * WORD
      modifies this, buffer
      ensures Valid() && buflen == 0 && |rest| <= 64 && Input() + rest == old(Input()) + data
    {
      hide Ctx.Hashed, Ctx.Chained;
      HashedIsChained();
      ghost var input := processed;
      assert Input() == input;
      rest := data;
      if |data| >= 64 {
        if !aligned {
          while |rest| > 64
            invariant Hashed() && buflen == 0 && |rest| <= |data|
            invariant processed + rest == input + data
          {
            Regroup(processed, rest, 64);
            ProcessCopied(rest[..64]);
            rest := rest[64..];
          }
        } else {
          var whole := Whole(|data|);
          Regroup(processed, data, whole);
          ProcessBlock(data[..whole]);
          rest := data[whole..];
        }
      }
      assert Input() == processed;
    }

    // The third path: the remaining bytes move into the buffer.
    method Tail(data: Data)
      requires Valid() && buflen + |data| < 128
      modifies this, buffer
      ensures Valid() && Input() == old(Input()) + data
    {
      hide Ctx.Hashed, Blocks;
      assert buffer.Length == 128;
      if |data| > 0 {
        Stage(data);
        if buflen >= 64 {
          Drain(64);
        }
      }
    }

    // md5_process_bytes. `address` is where the data starts; a block is read in place
    // only from an address divisible by four.
    method ProcessBytes(data: Data, address: nat)
      requires Valid() && |data| < WORD * WORD
      modifies this, buffer
      ensures Valid() && Input() == old(Input()) + data
    {
      var rest := data;
      if buflen != 0 {
        rest := TopUp(data);
      }
      if rest != [] {
        rest := Bulk(rest, (address + |data| - |rest|) % 4 == 0);
        Tail(rest);
      }
    }

    // The two length words, as they are stored.
    function LengthLow(): Data
      reads `total0
    {
      Little(total0 * 8 % WORD, 4)
    }

    function LengthHigh(): Data
      reads `total0, `total1
    {
      Little(Or(total1 * 8 % WORD, total0 / 0x2000_0000), 4)
    }

    // md5_finish_ctx: the staged bytes are counted.
    method CountStaged()
      requires Valid()
      modifies `total0, `total1
      ensures Chained()
      ensures LengthLow() + LengthHigh() == Little(8 * (|processed| + buflen) % (WORD * WORD), 8)
    {
      hide Little, Blocks, Count;
      FinalLength(total0, total1, buflen, |processed|);
      ghost var lo := (total0 + buflen) % WORD;
      ghost var hi := if lo < buflen then (total1 + 1) % WORD else total1;
      total0 := (total0 + buflen) % WORD;
      if total0 < buflen {
        total1 := (total1 + 1) % WORD;
      }
      assert total0 == lo && total1 == hi;
    }

    // md5_finish_ctx: the staged bytes are padded to a block or two.
    method Pad() returns (size: nat)
      requires buffer.Length == 128 && buflen <= 64 && |processed| % 64 == 0
      requires LengthLow() + LengthHigh() == Little(8 * (|processed| + buflen) % (WORD * WORD), 8)
      modifies buffer
      ensures 0 < size <= 32 && size % 16 == 0
      ensures buffer[..size * 4] == old(buffer[..buflen]) + Padding(|processed| + buflen)
    {
      hide Padding, Little;
      FillIsPadding(|processed|, buflen);
      size := if buflen < 56 then 16 else 32;
      var fill := (size - 2) * 4 - buflen;
      assert 1 <= fill <= 64;
      WriteTail(buffer, buflen, ([0x80] + Zeros(63))[..fill], LengthLow(), LengthHigh());
    }

    // md5_finish_ctx and md5_read_ctx
    method Finish() returns (digest: Data)
      requires Valid()
      modifies this, buffer
      ensures digest == MD5(old(Input()))
    {
      hide Ctx.Hashed, Ctx.LengthLow, Ctx.LengthHigh, Padding, Little, Output, Blocks, Count;
      ghost var msg, staged := Input(), buffer[..buflen];
      CountStaged();
      var size := Pad();
      Regroup2(processed, staged, Padding(|msg|));
      ProcessBlock(buffer[..size * 4]);
      digest := Output(regs);
    }
  }

  // md5_buffer
  method Md5Buffer(data: Data, address: nat) returns (digest: Data)
    requires |data| < WORD * WORD
    ensures digest == MD5(data)
  {
    hide Ctx.Hashed, MD5;
    var ctx := new Ctx();
    ctx.ProcessBytes(data, address);
    assert [] + data == data;
    digest := ctx.Finish();
  }

  // However a message is cut into calls, and wherever the pieces lie in memory, its
  // digest is the one md5_buffer gives for the whole.
  method Md5Chunks(chunks: seq<Data>, addresses: seq<nat>) returns (digest: Data)
    requires |addresses| == |chunks|
    requires forall k :: 0 <= k < |chunks| ==> |chunks[k]| < WORD * WORD
    ensures digest == MD5(Concat(chunks))
  {
    hide Ctx.Hashed, MD5;
    var ctx := new Ctx();
    for k := 0 to |chunks|
      invariant ctx.Valid() && fresh(ctx) && fresh(ctx.buffer)
      invariant ctx.Input() == Concat(chunks[..k])
    {
      ctx.ProcessBytes(chunks[k], addresses[k]);
      ConcatAppend(chunks[..k], chunks[k]);
      assert chunks[..k] + [chunks[k]] == chunks[..k + 1];
    }
    assert chunks[..|chunks|] == chunks;
    digest := ctx.Finish();
  }

  // A FILE: fread may return any count, but nothing at all only at the end or on error.
  class Stream {
    const content: Data
    var pos: nat
    var eof: bool
    var error: bool

    ghost predicate Valid()
      reads this
    {
      pos <= |content| && (eof ==> pos == |content|)
    }

    function Rest(): Data
      requires pos <= |content|
      reads this
    {
      content[pos..]
    }

    method Fread(a: array<Byte>, at: nat, len: nat) returns (n: nat)
      requires Valid() && at + len <= a.Length && len > 0
      modifies `pos, `eof, `error, a
      ensures Valid() && n <= len && old(pos) + n == pos
      ensures a[..at + n] == old(a[..at]) + old(Rest())[..n]
      ensures n == 0 ==> error || pos == |content|
    {
      error := *;
      ghost var most := if pos < |content| then 1 else 0;
      assert pos + most <= |content| && (most == 0 ==> pos == |content|);
      n :| 0 <= n <= len && pos + n <= |content| && (n == 0 ==> error || pos == |content|);
      assert Rest()[..n] == content[pos..pos + n];
      MemCpy(a, at, content[pos..pos + n]);
      pos := pos + n;
      eof := *;
      if pos < |content| {
        eof := false;
      }
    }
  }

  // The inner loop of md5_stream: gather a block, minding partial reads. `last` says
  // that the stream has ended, `failed` that it cannot be read.
  method ReadBlock(stream: Stream, buffer: array<Byte>) returns (sum: nat, last: bool, failed: bool)
    requires stream.Valid() && buffer.Length >= BLOCKSIZE
    modifies stream`pos, stream`eof, stream`error, buffer
    ensures stream.Valid() && sum <= BLOCKSIZE && old(stream.pos) + sum == stream.pos
    ensures buffer[..sum] + stream.Rest() == old(stream.Rest())
    ensures failed ==> last && stream.error
    ensures !failed && last ==> stream.pos == |stream.content|
    ensures !failed && !last ==> sum == BLOCKSIZE
  {
    sum, last, failed := 0, false, false;
    assert buffer[..0] + stream.Rest() == stream.Rest();
    while true
      invariant stream.Valid() && sum < BLOCKSIZE && old(stream.pos) + sum == stream.pos
      invariant buffer[..sum] + stream.Rest() == old(stream.Rest())
      decreases BLOCKSIZE - sum
    {
      ghost var block, rest := buffer[..sum], stream.Rest();
      var n := stream.Fread(buffer, sum, BLOCKSIZE - sum);
      Regroup(block, rest, n);
      assert stream.Rest() == rest[n..] && buffer[..sum + n] == block + rest[..n];
      sum := sum + n;
      assert buffer[..sum] + stream.Rest() == old(stream.Rest());
      if sum == BLOCKSIZE {
        return;
      }
      if n == 0 {
        last, failed := true, stream.error;
        return;
      }
      if stream.eof {
        last := true;
        return;
      }
    }
  }

  // md5_stream: the digest of all that is left of the stream, under any partial reads.
  method Md5Stream(stream: Stream, address: nat) returns (status: nat, digest: Data)
    requires stream.Valid()
    modifies stream`pos, stream`eof, stream`error
    ensures status == 0 ==> digest == MD5(old(stream.Rest()))
    ensures status == 0 || (status == 1 && stream.error)
  {
    hide Ctx.Hashed, Ctx.Chained, MD5;
    var buffer := new Byte[BLOCKSIZE + 72](_ => 0);
    var ctx := new Ctx();
    ghost var content := stream.Rest();
    var sum, last, failed := ReadBlock(stream, buffer);
    assert [] + buffer[..sum] == buffer[..sum];
    while !last
      invariant stream.Valid() && ctx.Valid() && ctx.buflen == 0
      invariant fresh(ctx) && fresh(ctx.buffer) && ctx.buffer != buffer
      invariant 0 <= sum <= BLOCKSIZE && (!failed && !last ==> sum == BLOCKSIZE)
      invariant ctx.processed + buffer[..sum] + stream.Rest() == content
      invariant failed ==> last && stream.error
      invariant !failed && last ==> stream.pos == |stream.content|
      decreases if last then 0 else 1 + |stream.content| - stream.pos
    {
      ctx.HashedIsChained();
      ctx.ProcessBlock(buffer[..BLOCKSIZE]);
      sum, last, failed := ReadBlock(stream, buffer);
    }
    if failed {
      return 1, [];
    }
    assert stream.Rest() == [] && ctx.Input() == ctx.processed;
    ghost var before := ctx.processed + buffer[..sum];
    assert before == content;
    if sum > 0 {
      ctx.ProcessBytes(buffer[..sum], address);
    }
    assert ctx.Input() == content;
    digest := ctx.Finish();
    status := 0;
  }
}
