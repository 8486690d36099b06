// RFC 1321, sections 3.1 to 3.5: the MD5 message digest as the standard describes it.
module Md5Spec {
  import opened Bytes

  datatype Regs = Regs(a: bv32, b: bv32, c: bv32, d: bv32)

  // Section 3.3
  const INIT := Regs(0x67452301, 0xefcdab89, 0x98badcfe, 0x10325476)

  // Section 2: addition of words, modulo 2^32, and rotation to the left
  function Plus(x: bv32, y: bv32): bv32 { x + y }

  function Rotate(x: bv32, s: nat): bv32
    requires 0 < s < 32
  {
    x.RotateLeft(s)
  }

  // Section 3.4: the auxiliary functions
  function F(x: bv32, y: bv32, z: bv32): bv32 { (x & y) | (!x & z) }
  function G(x: bv32, y: bv32, z: bv32): bv32 { (x & z) | (y & !z) }
  function H(x: bv32, y: bv32, z: bv32): bv32 { x ^ y ^ z }
  function I(x: bv32, y: bv32, z: bv32): bv32 { y ^ (x | !z) }

  function Aux(i: nat, x: bv32, y: bv32, z: bv32): bv32 {
    if i < 16 then F(x, y, z) else if i < 32 then G(x, y, z) else if i < 48 then H(x, y, z) else I(x, y, z)
  }

  // The word of the block that step i adds, and the distance it rotates by.
  function Index(i: nat): (k: nat)
    ensures k < 16
  {
    if i < 16 then i else if i < 32 then (5 * i + 1) % 16 else if i < 48 then (3 * i + 5) % 16 else (7 * i) % 16
  }

  function Shift(i: nat): (s: nat)
    ensures 0 < s < 32
  {
    if i < 16 then [7, 12, 17, 22][i % 4]
    else if i < 32 then [5, 9, 14, 20][i % 4]
    else if i < 48 then [4, 11, 16, 23][i % 4]
    else [6, 10, 15, 21][i % 4]
  }


  // T[1] to T[16] of the standard.
  function T1(i: nat): bv32 {
    match i
    case 0 => 0xd76aa478
    case 1 => 0xe8c7b756
    case 2 => 0x242070db
    case 3 => 0xc1bdceee
    case 4 => 0xf57c0faf
    case 5 => 0x4787c62a
    case 6 => 0xa8304613
    case 7 => 0xfd469501
    case 8 => 0x698098d8
    case 9 => 0x8b44f7af
    case 10 => 0xffff5bb1
    case 11 => 0x895cd7be
    case 12 => 0x6b901122
    case 13 => 0xfd987193
    case 14 => 0xa679438e
    case _ => 0x49b40821
  }

  // T[17] to T[32] of the standard.
  function T2(i: nat): bv32 {
    match i
    case 0 => 0xf61e2562
    case 1 => 0xc040b340
    case 2 => 0x265e5a51
    case 3 => 0xe9b6c7aa
    case 4 => 0xd62f105d
    case 5 => 0x02441453
    case 6 => 0xd8a1e681
    case 7 => 0xe7d3fbc8
    case 8 => 0x21e1cde6
    case 9 => 0xc33707d6
    case 10 => 0xf4d50d87
    case 11 => 0x455a14ed
    case 12 => 0xa9e3e905
    case 13 => 0xfcefa3f8
    case 14 => 0x676f02d9
    case _ => 0x8d2a4c8a
  }

  // T[33] to T[48] of the standard.
  function T3(i: nat): bv32 {
    match i
    case 0 => 0xfffa3942
    case 1 => 0x8771f681
    case 2 => 0x6d9d6122
    case 3 => 0xfde5380c
    case 4 => 0xa4beea44
    case 5 => 0x4bdecfa9
    case 6 => 0xf6bb4b60
    case 7 => 0xbebfbc70
    case 8 => 0x289b7ec6
    case 9 => 0xeaa127fa
    case 10 => 0xd4ef3085
    case 11 => 0x04881d05
    case 12 => 0xd9d4d039
    case 13 => 0xe6db99e5
    case 14 => 0x1fa27cf8
    case _ => 0xc4ac5665
  }

  // T[49] to T[64] of the standard.
  function T4(i: nat): bv32 {
    match i
    case 0 => 0xf4292244
    case 1 => 0x432aff97
    case 2 => 0xab9423a7
    case 3 => 0xfc93a039
    case 4 => 0x655b59c3
    case 5 => 0x8f0ccc92
    case 6 => 0xffeff47d
    case 7 => 0x85845dd1
    case 8 => 0x6fa87e4f
    case 9 => 0xfe2ce6e0
    case 10 => 0xa3014314
    case 11 => 0x4e0811a1
    case 12 => 0xf7537e82
    case 13 => 0xbd3af235
    case 14 => 0x2ad7d2bb
    case _ => 0xeb86d391
  }

  // T[i + 1]: the integer part of 4294967296 times abs(sin(i + 1)).
  function T(i: nat): bv32 {
    if i < 16 then T1(i) else if i < 32 then T2(i - 16) else if i < 48 then T3(i - 32) else T4(i - 48)
  }

  // One step: a = b + ((a + f(b,c,d) + X[k] + T[i]) <<< s). The next step finds the
  // registers in the order d, a, b, c.
  function Step(r: Regs, x: seq<bv32>, i: nat): Regs
    requires |x| == 16
  {
    var sum := Plus(Plus(Plus(r.a, Aux(i, r.b, r.c, r.d)), x[Index(i)]), T(i));
    Regs(r.d, Plus(r.b, Rotate(sum, Shift(i))), r.b, r.c)
  }

  // The registers after the first i steps.
  function Steps(r: Regs, x: seq<bv32>, i: nat): Regs
    requires |x| == 16
  {
    if i == 0 then r else Step(Steps(r, x, i - 1), x, i - 1)
  }

  function Compress(r: Regs, x: seq<bv32>): Regs
    requires |x| == 16
  {
    var q := Steps(r, x, 64);
    Regs(Plus(q.a, r.a), Plus(q.b, r.b), Plus(q.c, r.c), Plus(q.d, r.d))
  }

  // Section 2: the low-order byte of a word comes first.
  function Word(b: Data): bv32
    requires |b| == 4
  {
    ((b[0] as int) + 0x100 * (b[1] as int) + 0x1_0000 * (b[2] as int) + 0x100_0000 * (b[3] as int)) as bv32
  }

  function Words(block: Data): (x: seq<bv32>)
    requires |block| == 64
    ensures |x| == 16
  {
    seq(16, k requires 0 <= k < 16 => Word(block[4 * k..4 * k + 4]))
  }

  function Little(w: nat, bytes: nat): (b: Data)
    ensures |b| == bytes
  {
    if bytes == 0 then [] else [w % 256] + Little(w / 256, bytes - 1)
  }

  function Blocks(r: Regs, msg: Data): Regs
    decreases |msg|
  {
    if |msg| < 64 then r else Blocks(Compress(r, Words(msg[..64])), msg[64..])
  }

  // Section 3.1: a 1 bit and 0 bits up to 448 modulo 512; section 3.2: the bit count.
  function Padding(n: nat): Data {
    [0x80] + Zeros((55 - n) % 64) + Little(8 * n % 0x1_0000_0000_0000_0000, 8)
  }

  // Section 3.5
  function Output(r: Regs): Data {
    Little(r.a as nat, 4) + Little(r.b as nat, 4) + Little(r.c as nat, 4) + Little(r.d as nat, 4)
  }

  function MD5(msg: Data): Data {
    Output(Blocks(INIT, msg + Padding(|msg|)))
  }

  lemma {:induction false} BlocksAppend(r: Regs, x: Data, y: Data)
    requires |x| % 64 == 0
    ensures Blocks(r, x + y) == Blocks(Blocks(r, x), y)
    decreases |x|
  {
    hide Blocks, Compress, Words;
    BlocksStep(r, x);
    if x == [] {
      assert x + y == y;
    } else {
      BlocksStep(r, x + y);
      assert (x + y)[..64] == x[..64] && (x + y)[64..] == x[64..] + y;
      BlocksAppend(Compress(r, Words(x[..64])), x[64..], y);
    }
  }

  lemma BlocksStep(r: Regs, msg: Data)
    ensures |msg| < 64 ==> Blocks(r, msg) == r
    ensures |msg| >= 64 ==> Blocks(r, msg) == Blocks(Compress(r, Words(msg[..64])), msg[64..])
  {
  }

  lemma PaddedLength(n: nat)
    ensures (n + |Padding(n)|) % 64 == 0
  {
    hide Little;
    var fill, q := (55 - n) % 64, (55 - n) / 64;
    assert |Padding(n)| == 9 + fill;
    assert n + 9 + fill == 64 * (1 - q);
    Multiple(1 - q);
  }

  lemma Multiple(k: int)
    ensures 64 * k % 64 == 0
  {
  }

  lemma LittleStep(lo: nat, hi: nat, base: nat, n: nat)
    requires (base == 0x100_0000 || base == 0x1_0000 || base == 0x100 || base == 1) && lo < 256 * base && n > 0
    ensures Little(lo + 256 * base * hi, n) == [lo % 256] + Little(lo / 256 + base * hi, n - 1)
  {
    assert (lo + 256 * base * hi) / 256 == lo / 256 + base * hi;
    assert (lo + 256 * base * hi) % 256 == lo % 256;
  }

  lemma LittleFour(w: nat)
    ensures Little(w, 4) == [w % 256] + ([w / 256 % 256] + ([w / 256 / 256 % 256] + [w / 256 / 256 / 256 % 256]))
  {
    assert Little(w / 256 / 256 / 256, 1) == [w / 256 / 256 / 256 % 256];
    assert Little(w / 256 / 256, 2) == [w / 256 / 256 % 256] + Little(w / 256 / 256 / 256, 1);
    assert Little(w / 256, 3) == [w / 256 % 256] + Little(w / 256 / 256, 2);
  }

  // A 64-bit count is its low-order word followed by its high-order word.
  lemma LittlePair(lo: nat, hi: nat)
    requires lo < 0x1_0000_0000
    ensures Little(lo + 0x1_0000_0000 * hi, 8) == Little(lo, 4) + Little(hi, 4)
  {
    hide Little;
    var l1, l2, l3 := lo / 256, lo / 256 / 256, lo / 256 / 256 / 256;
    LittleFour(lo);
    LittleStep(lo, hi, 0x100_0000, 8);
    LittleStep(l1, hi, 0x1_0000, 7);
    LittleStep(l2, hi, 0x100, 6);
    LittleStep(l3, hi, 1, 5);
    assert l3 / 256 + 1 * hi == hi;
  }
}
