// c/md5/ems_md5.c: the rounds of md5_process_block, unrolled over four rotating
// registers with the optimised auxiliary functions.
module Md5Rounds {
  import opened Md5Spec

  function FF(b: bv32, c: bv32, d: bv32): bv32 { d ^ (b & (c ^ d)) }
  function FG(b: bv32, c: bv32, d: bv32): bv32 { FF(d, b, c) }
  function FH(b: bv32, c: bv32, d: bv32): bv32 { b ^ c ^ d }
  function FI(b: bv32, c: bv32, d: bv32): bv32 { c ^ (b | !d) }

  function Cyclic(w: bv32, s: nat): bv32
    requires 0 < s < 32
  {
    (w << s) | (w >> (32 - s))
  }

  // a += f + x + t
  function OpSum(a: bv32, f: bv32, x: bv32, t: bv32): bv32 { Plus(a, Plus(Plus(f, x), t)) }

  // The macro OP: the new value of its register a.
  function Op(a: bv32, f: bv32, x: bv32, t: bv32, s: nat, b: bv32): bv32
    requires 0 < s < 32
  {
    Plus(Cyclic(OpSum(a, f, x, t), s), b)
  }

  lemma RotateNear(w: bv32, s: nat)
    requires 0 < s < 16
    ensures (w << s) | (w >> (32 - s)) == w.RotateLeft(s)
  {
    if s < 8 { if s < 4 {} else {} } else if s < 12 {} else {}
  }

  lemma RotateFar(w: bv32, s: nat)
    requires 16 <= s < 32
    ensures (w << s) | (w >> (32 - s)) == w.RotateLeft(s)
  {
    if s < 24 { if s < 20 {} else {} } else if s < 28 {} else {}
  }

  lemma CyclicIsRotation(w: bv32, s: nat)
    requires 0 < s < 32
    ensures Cyclic(w, s) == Rotate(w, s)
  {
    if s < 16 { RotateNear(w, s); } else { RotateFar(w, s); }
  }

  // The function a step of the code calls.
  function CodeAux(i: nat, b: bv32, c: bv32, d: bv32): bv32 {
    if i < 16 then FF(b, c, d) else if i < 32 then FG(b, c, d) else if i < 48 then FH(b, c, d) else FI(b, c, d)
  }

  lemma FFIsF(b: bv32, c: bv32, d: bv32)
    ensures FF(b, c, d) == F(b, c, d)
  {
    Selects(b, c, d);
  }

  lemma Selects(b: bv32, c: bv32, d: bv32)
    ensures d ^ (b & (c ^ d)) == (b & c) | (!b & d)
  {
  }

  lemma FGIsG(b: bv32, c: bv32, d: bv32)
    ensures FG(b, c, d) == G(b, c, d)
  {
    hide FF, F;
    FFIsF(d, b, c);
    FIsG(b, c, d);
  }

  lemma FIsG(b: bv32, c: bv32, d: bv32)
    ensures F(d, b, c) == G(b, c, d)
  {
  }

  lemma CodeAuxIsAux(i: nat, b: bv32, c: bv32, d: bv32)
    ensures CodeAux(i, b, c, d) == Aux(i, b, c, d)
  {
    hide FF, FG, F, G;
    FFIsF(b, c, d);
    FGIsG(b, c, d);
  }

  lemma SumOrder(a: bv32, f: bv32, x: bv32, t: bv32)
    ensures OpSum(a, f, x, t) == Plus(Plus(Plus(a, f), x), t)
  {
    hide Plus;
    PlusAssociates(a, Plus(f, x), t);
    PlusAssociates(a, f, x);
  }

  lemma PlusAssociates(a: bv32, b: bv32, c: bv32)
    ensures Plus(a, Plus(b, c)) == Plus(Plus(a, b), c)
  {
    calc {
      Plus(a, Plus(b, c));
      a + Plus(b, c);
      a + (b + c);
      (a + b) + c;
      Plus(a, b) + c;
      Plus(Plus(a, b), c);
    }
  }

  lemma PlusCommutes(a: bv32, b: bv32)
    ensures Plus(a, b) == Plus(b, a)
  {
  }

  lemma OpIsStep(r: Regs, x: seq<bv32>, i: nat)
    requires |x| == 16
    ensures Step(r, x, i)
         == Regs(r.d, Op(r.a, CodeAux(i, r.b, r.c, r.d), x[Index(i)], T(i), Shift(i), r.b), r.b, r.c)
  {
    hide Aux, CodeAux, T, Index, Shift, Cyclic, Rotate, Plus, OpSum;
    CodeAuxIsAux(i, r.b, r.c, r.d);
    SumOrder(r.a, Aux(i, r.b, r.c, r.d), x[Index(i)], T(i));
    var sum := OpSum(r.a, Aux(i, r.b, r.c, r.d), x[Index(i)], T(i));
    CyclicIsRotation(sum, Shift(i));
    PlusCommutes(Rotate(sum, Shift(i)), r.b);
  }

  lemma SameAux(i: nat, j: nat, b: bv32, c: bv32, d: bv32)
    requires i % 16 in {0, 4, 8, 12} && i < j < i + 4
    ensures CodeAux(i, b, c, d) == CodeAux(j, b, c, d)
  {
    hide FF, FG, FH, FI;
  }

  // Four operations bring every register back to its own name.
  lemma Quad(r: Regs, x: seq<bv32>, i: nat, a: bv32, b: bv32, c: bv32, d: bv32,
             a': bv32, b': bv32, c': bv32, d': bv32)
    requires |x| == 16 && i % 16 in {0, 4, 8, 12}
    requires Regs(a, b, c, d) == Steps(r, x, i)
    requires a' == Op(a, CodeAux(i, b, c, d), x[Index(i)], T(i), Shift(i), b)
    requires d' == Op(d, CodeAux(i, a', b, c), x[Index(i + 1)], T(i + 1), Shift(i + 1), a')
    requires c' == Op(c, CodeAux(i, d', a', b), x[Index(i + 2)], T(i + 2), Shift(i + 2), d')
    requires b' == Op(b, CodeAux(i, c', d', a'), x[Index(i + 3)], T(i + 3), Shift(i + 3), c')
    ensures Regs(a', b', c', d') == Steps(r, x, i + 4)
  {
    hide CodeAux, Aux, T, Index, Shift, Op, Step;
    SameAux(i, i + 1, a', b, c);
    SameAux(i, i + 2, d', a', b);
    SameAux(i, i + 3, c', d', a');
    OpIsStep(Regs(a, b, c, d), x, i);
    OpIsStep(Regs(d, a', b, c), x, i + 1);
    OpIsStep(Regs(c, d', a', b), x, i + 2);
    OpIsStep(Regs(b, c', d', a'), x, i + 3);
    assert Steps(r, x, i + 1) == Step(Steps(r, x, i), x, i);
    assert Steps(r, x, i + 2) == Step(Steps(r, x, i + 1), x, i + 1);
    assert Steps(r, x, i + 3) == Step(Steps(r, x, i + 2), x, i + 2);
    assert Steps(r, x, i + 4) == Step(Steps(r, x, i + 3), x, i + 3);
  }

  // Round 1: word, distance and constant of each step.
  lemma Table1()
    ensures T(0) == 0xd76aa478
    ensures T(1) == 0xe8c7b756
    ensures T(2) == 0x242070db
    ensures T(3) == 0xc1bdceee
    ensures T(4) == 0xf57c0faf
    ensures T(5) == 0x4787c62a
    ensures T(6) == 0xa8304613
    ensures T(7) == 0xfd469501
    ensures T(8) == 0x698098d8
    ensures T(9) == 0x8b44f7af
    ensures T(10) == 0xffff5bb1
    ensures T(11) == 0x895cd7be
    ensures T(12) == 0x6b901122
    ensures T(13) == 0xfd987193
    ensures T(14) == 0xa679438e
    ensures T(15) == 0x49b40821
  {
  }

  lemma Order1(i: nat)
    requires i < 16
    ensures Index(i) == i && Shift(i) == [7, 12, 17, 22][i % 4]
  {
  }

  lemma Constants1()
    ensures T(0) == 0xd76aa478 && Index(0) == 0 && Shift(0) == 7
    ensures T(1) == 0xe8c7b756 && Index(1) == 1 && Shift(1) == 12
    ensures T(2) == 0x242070db && Index(2) == 2 && Shift(2) == 17
    ensures T(3) == 0xc1bdceee && Index(3) == 3 && Shift(3) == 22
    ensures T(4) == 0xf57c0faf && Index(4) == 4 && Shift(4) == 7
    ensures T(5) == 0x4787c62a && Index(5) == 5 && Shift(5) == 12
    ensures T(6) == 0xa8304613 && Index(6) == 6 && Shift(6) == 17
    ensures T(7) == 0xfd469501 && Index(7) == 7 && Shift(7) == 22
    ensures T(8) == 0x698098d8 && Index(8) == 8 && Shift(8) == 7
    ensures T(9) == 0x8b44f7af && Index(9) == 9 && Shift(9) == 12
    ensures T(10) == 0xffff5bb1 && Index(10) == 10 && Shift(10) == 17
    ensures T(11) == 0x895cd7be && Index(11) == 11 && Shift(11) == 22
    ensures T(12) == 0x6b901122 && Index(12) == 12 && Shift(12) == 7
    ensures T(13) == 0xfd987193 && Index(13) == 13 && Shift(13) == 12
    ensures T(14) == 0xa679438e && Index(14) == 14 && Shift(14) == 17
    ensures T(15) == 0x49b40821 && Index(15) == 15 && Shift(15) == 22
  {
    hide T, Index, Shift;
    Table1();
    Order1(0);
    Order1(1);
    Order1(2);
    Order1(3);
    Order1(4);
    Order1(5);
    Order1(6);
    Order1(7);
    Order1(8);
    Order1(9);
    Order1(10);
    Order1(11);
    Order1(12);
    Order1(13);
    Order1(14);
    Order1(15);
  }

  method Round1(ghost r: Regs, x: seq<bv32>, A0: bv32, B0: bv32, C0: bv32, D0: bv32)
    returns (A: bv32, B: bv32, C: bv32, D: bv32)
    requires |x| == 16 && Regs(A0, B0, C0, D0) == Steps(r, x, 0)
    ensures Regs(A, B, C, D) == Steps(r, x, 16)
  {
    hide Op, FF, FG, FH, FI, Steps, T, Index, Shift;
    Constants1();
    A, B, C, D := A0, B0, C0, D0;
    ghost var a, b, c, d := A, B, C, D;
    A := Op(A, FF(B, C, D), x[0], 0xd76aa478, 7, B);
    D := Op(D, FF(A, B, C), x[1], 0xe8c7b756, 12, A);
    C := Op(C, FF(D, A, B), x[2], 0x242070db, 17, D);
    B := Op(B, FF(C, D, A), x[3], 0xc1bdceee, 22, C);
    Quad(r, x, 0, a, b, c, d, A, B, C, D);
    a, b, c, d := A, B, C, D;
    A := Op(A, FF(B, C, D), x[4], 0xf57c0faf, 7, B);
    D := Op(D, FF(A, B, C), x[5], 0x4787c62a, 12, A);
    C := Op(C, FF(D, A, B), x[6], 0xa8304613, 17, D);
    B := Op(B, FF(C, D, A), x[7], 0xfd469501, 22, C);
    Quad(r, x, 4, a, b, c, d, A, B, C, D);
    a, b, c, d := A, B, C, D;
    A := Op(A, FF(B, C, D), x[8], 0x698098d8, 7, B);
    D := Op(D, FF(A, B, C), x[9], 0x8b44f7af, 12, A);
    C := Op(C, FF(D, A, B), x[10], 0xffff5bb1, 17, D);
    B := Op(B, FF(C, D, A), x[11], 0x895cd7be, 22, C);
    Quad(r, x, 8, a, b, c, d, A, B, C, D);
    a, b, c, d := A, B, C, D;
    A := Op(A, FF(B, C, D), x[12], 0x6b901122, 7, B);
    D := Op(D, FF(A, B, C), x[13], 0xfd987193, 12, A);
    C := Op(C, FF(D, A, B), x[14], 0xa679438e, 17, D);
    B := Op(B, FF(C, D, A), x[15], 0x49b40821, 22, C);
    Quad(r, x, 12, a, b, c, d, A, B, C, D);
  }

  // Round 2: word, distance and constant of each step.
  lemma Constants2()
    ensures T(16) == 0xf61e2562 && Index(16) == 1 && Shift(16) == 5
    ensures T(17) == 0xc040b340 && Index(17) == 6 && Shift(17) == 9
    ensures T(18) == 0x265e5a51 && Index(18) == 11 && Shift(18) == 14
    ensures T(19) == 0xe9b6c7aa && Index(19) == 0 && Shift(19) == 20
    ensures T(20) == 0xd62f105d && Index(20) == 5 && Shift(20) == 5
    ensures T(21) == 0x02441453 && Index(21) == 10 && Shift(21) == 9
    ensures T(22) == 0xd8a1e681 && Index(22) == 15 && Shift(22) == 14
    ensures T(23) == 0xe7d3fbc8 && Index(23) == 4 && Shift(23) == 20
    ensures T(24) == 0x21e1cde6 && Index(24) == 9 && Shift(24) == 5
    ensures T(25) == 0xc33707d6 && Index(25) == 14 && Shift(25) == 9
    ensures T(26) == 0xf4d50d87 && Index(26) == 3 && Shift(26) == 14
    ensures T(27) == 0x455a14ed && Index(27) == 8 && Shift(27) == 20
    ensures T(28) == 0xa9e3e905 && Index(28) == 13 && Shift(28) == 5
    ensures T(29) == 0xfcefa3f8 && Index(29) == 2 && Shift(29) == 9
    ensures T(30) == 0x676f02d9 && Index(30) == 7 && Shift(30) == 14
    ensures T(31) == 0x8d2a4c8a && Index(31) == 12 && Shift(31) == 20
  {
  }

  method Round2(ghost r: Regs, x: seq<bv32>, A0: bv32, B0: bv32, C0: bv32, D0: bv32)
    returns (A: bv32, B: bv32, C: bv32, D: bv32)
    requires |x| == 16 && Regs(A0, B0, C0, D0) == Steps(r, x, 16)
    ensures Regs(A, B, C, D) == Steps(r, x, 32)
  {
    hide Op, FF, FG, FH, FI, Steps, T, Index, Shift;
    Constants2();
    A, B, C, D := A0, B0, C0, D0;
    ghost var a, b, c, d := A, B, C, D;
    A := Op(A, FG(B, C, D), x[1], 0xf61e2562, 5, B);
    D := Op(D, FG(A, B, C), x[6], 0xc040b340, 9, A);
    C := Op(C, FG(D, A, B), x[11], 0x265e5a51, 14, D);
    B := Op(B, FG(C, D, A), x[0], 0xe9b6c7aa, 20, C);
    Quad(r, x, 16, a, b, c, d, A, B, C, D);
    a, b, c, d := A, B, C, D;
    A := Op(A, FG(B, C, D), x[5], 0xd62f105d, 5, B);
    D := Op(D, FG(A, B, C), x[10], 0x02441453, 9, A);
    C := Op(C, FG(D, A, B), x[15], 0xd8a1e681, 14, D);
    B := Op(B, FG(C, D, A), x[4], 0xe7d3fbc8, 20, C);
    Quad(r, x, 20, a, b, c, d, A, B, C, D);
    a, b, c, d := A, B, C, D;
    A := Op(A, FG(B, C, D), x[9], 0x21e1cde6, 5, B);
    D := Op(D, FG(A, B, C), x[14], 0xc33707d6, 9, A);
    C := Op(C, FG(D, A, B), x[3], 0xf4d50d87, 14, D);
    B := Op(B, FG(C, D, A), x[8], 0x455a14ed, 20, C);
    Quad(r, x, 24, a, b, c, d, A, B, C, D);
    a, b, c, d := A, B, C, D;
    A := Op(A, FG(B, C, D), x[13], 0xa9e3e905, 5, B);
    D := Op(D, FG(A, B, C), x[2], 0xfcefa3f8, 9, A);
    C := Op(C, FG(D, A, B), x[7], 0x676f02d9, 14, D);
    B := Op(B, FG(C, D, A), x[12], 0x8d2a4c8a, 20, C);
    Quad(r, x, 28, a, b, c, d, A, B, C, D);
  }

  // Round 3: word, distance and constant of each step.
  lemma Constants3()
    ensures T(32) == 0xfffa3942 && Index(32) == 5 && Shift(32) == 4
    ensures T(33) == 0x8771f681 && Index(33) == 8 && Shift(33) == 11
    ensures T(34) == 0x6d9d6122 && Index(34) == 11 && Shift(34) == 16
    ensures T(35) == 0xfde5380c && Index(35) == 14 && Shift(35) == 23
    ensures T(36) == 0xa4beea44 && Index(36) == 1 && Shift(36) == 4
    ensures T(37) == 0x4bdecfa9 && Index(37) == 4 && Shift(37) == 11
    ensures T(38) == 0xf6bb4b60 && Index(38) == 7 && Shift(38) == 16
    ensures T(39) == 0xbebfbc70 && Index(39) == 10 && Shift(39) == 23
    ensures T(40) == 0x289b7ec6 && Index(40) == 13 && Shift(40) == 4
    ensures T(41) == 0xeaa127fa && Index(41) == 0 && Shift(41) == 11
    ensures T(42) == 0xd4ef3085 && Index(42) == 3 && Shift(42) == 16
    ensures T(43) == 0x04881d05 && Index(43) == 6 && Shift(43) == 23
    ensures T(44) == 0xd9d4d039 && Index(44) == 9 && Shift(44) == 4
    ensures T(45) == 0xe6db99e5 && Index(45) == 12 && Shift(45) == 11
    ensures T(46) == 0x1fa27cf8 && Index(46) == 15 && Shift(46) == 16
    ensures T(47) == 0xc4ac5665 && Index(47) == 2 && Shift(47) == 23
  {
  }

  method Round3(ghost r: Regs, x: seq<bv32>, A0: bv32, B0: bv32, C0: bv32, D0: bv32)
    returns (A: bv32, B: bv32, C: bv32, D: bv32)
    requires |x| == 16 && Regs(A0, B0, C0, D0) == Steps(r, x, 32)
    ensures Regs(A, B, C, D) == Steps(r, x, 48)
  {
    hide Op, FF, FG, FH, FI, Steps, T, Index, Shift;
    Constants3();
    A, B, C, D := A0, B0, C0, D0;
    ghost var a, b, c, d := A, B, C, D;
    A := Op(A, FH(B, C, D), x[5], 0xfffa3942, 4, B);
    D := Op(D, FH(A, B, C), x[8], 0x8771f681, 11, A);
    C := Op(C, FH(D, A, B), x[11], 0x6d9d6122, 16, D);
    B := Op(B, FH(C, D, A), x[14], 0xfde5380c, 23, C);
    Quad(r, x, 32, a, b, c, d, A, B, C, D);
    a, b, c, d := A, B, C, D;
    A := Op(A, FH(B, C, D), x[1], 0xa4beea44, 4, B);
    D := Op(D, FH(A, B, C), x[4], 0x4bdecfa9, 11, A);
    C := Op(C, FH(D, A, B), x[7], 0xf6bb4b60, 16, D);
    B := Op(B, FH(C, D, A), x[10], 0xbebfbc70, 23, C);
    Quad(r, x, 36, a, b, c, d, A, B, C, D);
    a, b, c, d := A, B, C, D;
    A := Op(A, FH(B, C, D), x[13], 0x289b7ec6, 4, B);
    D := Op(D, FH(A, B, C), x[0], 0xeaa127fa, 11, A);
    C := Op(C, FH(D, A, B), x[3], 0xd4ef3085, 16, D);
    B := Op(B, FH(C, D, A), x[6], 0x04881d05, 23, C);
    Quad(r, x, 40, a, b, c, d, A, B, C, D);
    a, b, c, d := A, B, C, D;
    A := Op(A, FH(B, C, D), x[9], 0xd9d4d039, 4, B);
    D := Op(D, FH(A, B, C), x[12], 0xe6db99e5, 11, A);
    C := Op(C, FH(D, A, B), x[15], 0x1fa27cf8, 16, D);
    B := Op(B, FH(C, D, A), x[2], 0xc4ac5665, 23, C);
    Quad(r, x, 44, a, b, c, d, A, B, C, D);
  }

  // Round 4: word, distance and constant of each step.
  lemma Constants4()
    ensures T(48) == 0xf4292244 && Index(48) == 0 && Shift(48) == 6
    ensures T(49) == 0x432aff97 && Index(49) == 7 && Shift(49) == 10
    ensures T(50) == 0xab9423a7 && Index(50) == 14 && Shift(50) == 15
    ensures T(51) == 0xfc93a039 && Index(51) == 5 && Shift(51) == 21
    ensures T(52) == 0x655b59c3 && Index(52) == 12 && Shift(52) == 6
    ensures T(53) == 0x8f0ccc92 && Index(53) == 3 && Shift(53) == 10
    ensures T(54) == 0xffeff47d && Index(54) == 10 && Shift(54) == 15
    ensures T(55) == 0x85845dd1 && Index(55) == 1 && Shift(55) == 21
    ensures T(56) == 0x6fa87e4f && Index(56) == 8 && Shift(56) == 6
    ensures T(57) == 0xfe2ce6e0 && Index(57) == 15 && Shift(57) == 10
    ensures T(58) == 0xa3014314 && Index(58) == 6 && Shift(58) == 15
    ensures T(59) == 0x4e0811a1 && Index(59) == 13 && Shift(59) == 21
    ensures T(60) == 0xf7537e82 && Index(60) == 4 && Shift(60) == 6
    ensures T(61) == 0xbd3af235 && Index(61) == 11 && Shift(61) == 10
    ensures T(62) == 0x2ad7d2bb && Index(62) == 2 && Shift(62) == 15
    ensures T(63) == 0xeb86d391 && Index(63) == 9 && Shift(63) == 21
  {
  }

  method Round4(ghost r: Regs, x: seq<bv32>, A0: bv32, B0: bv32, C0: bv32, D0: bv32)
    returns (A: bv32, B: bv32, C: bv32, D: bv32)
    requires |x| == 16 && Regs(A0, B0, C0, D0) == Steps(r, x, 48)
    ensures Regs(A, B, C, D) == Steps(r, x, 64)
  {
    hide Op, FF, FG, FH, FI, Steps, T, Index, Shift;
    Constants4();
    A, B, C, D := A0, B0, C0, D0;
    ghost var a, b, c, d := A, B, C, D;
    A := Op(A, FI(B, C, D), x[0], 0xf4292244, 6, B);
    D := Op(D, FI(A, B, C), x[7], 0x432aff97, 10, A);
    C := Op(C, FI(D, A, B), x[14], 0xab9423a7, 15, D);
    B := Op(B, FI(C, D, A), x[5], 0xfc93a039, 21, C);
    Quad(r, x, 48, a, b, c, d, A, B, C, D);
    a, b, c, d := A, B, C, D;
    A := Op(A, FI(B, C, D), x[12], 0x655b59c3, 6, B);
    D := Op(D, FI(A, B, C), x[3], 0x8f0ccc92, 10, A);
    C := Op(C, FI(D, A, B), x[10], 0xffeff47d, 15, D);
    B := Op(B, FI(C, D, A), x[1], 0x85845dd1, 21, C);
    Quad(r, x, 52, a, b, c, d, A, B, C, D);
    a, b, c, d := A, B, C, D;
    A := Op(A, FI(B, C, D), x[8], 0x6fa87e4f, 6, B);
    D := Op(D, FI(A, B, C), x[15], 0xfe2ce6e0, 10, A);
    C := Op(C, FI(D, A, B), x[6], 0xa3014314, 15, D);
    B := Op(B, FI(C, D, A), x[13], 0x4e0811a1, 21, C);
    Quad(r, x, 56, a, b, c, d, A, B, C, D);
    a, b, c, d := A, B, C, D;
    A := Op(A, FI(B, C, D), x[4], 0xf7537e82, 6, B);
    D := Op(D, FI(A, B, C), x[11], 0xbd3af235, 10, A);
    C := Op(C, FI(D, A, B), x[2], 0x2ad7d2bb, 15, D);
    B := Op(B, FI(C, D, A), x[9], 0xeb86d391, 21, C);
    Quad(r, x, 60, a, b, c, d, A, B, C, D);
  }
}
