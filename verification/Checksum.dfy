// c/ping.c: the Internet checksum of the ping program, on a little-endian host, against
// the ones'-complement sum of section 1 of RFC 1071.
module Checksum {
  import opened Bytes

  const MODULUS: nat := 0xffff

  const INT_LIMIT: nat := 0x8000_0000

  type Word = w: int | 0 <= w < 0x1_0000

  // ---- the reference -------------------------------------------------------

  function WordAt(d: Data, k: nat): (w: Word)
    requires k < |d|
  {
    var low: nat, high: nat := d[k], if k + 1 < |d| then d[k + 1] else 0;
    low + 256 * high
  }

  // Addition with end-around carry.
  function OnesAdd(a: Word, b: Word): Word {
    var sum: int := a + b;
    if sum < 0x1_0000 then sum else sum - MODULUS
  }

  // Adjacent octets paired into words, an odd last octet padded with zero.
  function OnesSum(d: Data): Word
    decreases |d|
  {
    if d == [] then 0 else OnesAdd(WordAt(d, 0), OnesSum(d[Min(2, |d|)..]))
  }

  function Complement(w: Word): Word {
    MODULUS - w
  }

  // ---- the plain sum and its residue ------------------------------------------

  function WordSum(d: Data): nat
    decreases |d|
  {
    if d == [] then 0 else WordAt(d, 0) as nat + WordSum(d[Min(2, |d|)..])
  }

  // The one word in 1..0xffff, or zero for zero, that is congruent to n.
  function Residue(n: nat): Word {
    if n == 0 then 0 else (n - 1) % MODULUS + 1
  }

  lemma ResidueAdd(w: Word, n: nat)
    ensures Residue(w + n) == OnesAdd(w, Residue(n))
  {
    if w > 0 && n > 0 {
      var q, r := (n - 1) / MODULUS, (n - 1) % MODULUS;
      assert w + n - 1 == MODULUS * q + (r + w);
      if r + w < MODULUS {
        Remainder(w + n - 1, q, r + w);
      } else {
        Remainder(w + n - 1, q + 1, r + w - MODULUS);
      }
    }
  }

  lemma Remainder(x: nat, q: nat, r: nat)
    requires r < MODULUS && x == MODULUS * q + r
    ensures x % MODULUS == r
  {
  }

  lemma {:induction false} OnesSumIsResidue(d: Data)
    ensures OnesSum(d) == Residue(WordSum(d))
    decreases |d|
  {
    if d != [] {
      var rest := d[Min(2, |d|)..];
      OnesSumIsResidue(rest);
      ResidueAdd(WordAt(d, 0), WordSum(rest));
    }
  }

  // ---- the folds of lines 448-450 ------------------------------------------------

  function Fold(n: nat): nat {
    n / 0x1_0000 + n % 0x1_0000
  }

  // Two folds leave the residue in the low sixteen bits of any sum that fits a
  // 32-bit int.
  lemma TwoFolds(n: nat)
    requires n < INT_LIMIT
    ensures var once := Fold(n); (once + once / 0x1_0000) % 0x1_0000 == Residue(n)
  {
    var q, r := n / 0x1_0000, n % 0x1_0000;
    var once := q + r;
    FoldOnce(n);
    if 0 < once <= MODULUS {
      Remainder(n - 1, q, once - 1);
    } else if once > MODULUS {
      Remainder(n - 1, q + 1, once - 1 - MODULUS);
    }
  }

  lemma FoldOnce(n: nat)
    requires n < INT_LIMIT
    ensures n == MODULUS * (n / 0x1_0000) + Fold(n) && Fold(n) < MODULUS + 0x8000
    ensures Fold(n) == 0 ==> n == 0
    ensures Fold(n) > MODULUS ==> Fold(n) / 0x1_0000 == 1
  {
  }

  lemma {:induction false} SumBound(d: Data)
    ensures WordSum(d) <= MODULUS * ((|d| + 1) / 2)
    decreases |d|
  {
    if d != [] {
      SumBound(d[Min(2, |d|)..]);
    }
  }

  // The limit is sharp: one more word of ones overflows the accumulator.
  lemma LongerOverflows()
    ensures WordSum(seq(65538, _ => 255)) >= INT_LIMIT
  {
    SumOfOnes(32769);
  }

  lemma {:induction false} SumOfOnes(words: nat)
    ensures WordSum(seq(2 * words, _ => 255)) == MODULUS * words
  {
    if words > 0 {
      var d: Data := seq(2 * words, _ => 255);
      assert d[2..] == seq(2 * (words - 1), _ => 255);
      SumOfOnes(words - 1);
    }
  }

  function Cksum(d: Data): Word {
    Complement(OnesSum(d))
  }

  // Lines 417-452. The accumulator is an int: it must not reach 2^31.
  method InCksum(addr: array<Byte>, len: nat) returns (answer: Word)
    requires len <= addr.Length && len <= 0x1_0000
    ensures answer == Cksum(addr[..len])
  {
    hide WordSum, Residue, OnesSum;
    ghost var all := addr[..len];
    var nleft, w := len, 0;
    var sum := 0;
    SumStep(all, 0);
    while nleft > 1
      invariant 0 <= w && w + nleft == len && 0 <= nleft
      invariant 0 <= sum && sum + WordSum(all[w..]) == WordSum(all)
    {
      SumStep(all, w);
      sum := sum + addr[w] + 256 * (addr[w + 1] as int);
      w := w + 2;
      nleft := nleft - 2;
    }
    SumStep(all, w);
    if nleft == 1 {
      sum := sum + addr[w];
    }
    SumBound(all);
    assert sum == WordSum(all) < INT_LIMIT;
    TwoFolds(sum);
    OnesSumIsResidue(all);
    sum := sum / 0x1_0000 + sum % 0x1_0000;
    sum := sum + sum / 0x1_0000;
    answer := MODULUS - sum % 0x1_0000;
  }

  lemma SumStep(d: Data, w: nat)
    requires w <= |d|
    ensures w == 0 ==> d[w..] == d
    ensures w == |d| ==> WordSum(d[w..]) == 0
    ensures w + 1 == |d| ==> WordSum(d[w..]) == d[w]
    ensures w + 1 < |d| ==> WordSum(d[w..]) == d[w] as nat + 256 * d[w + 1] as nat + WordSum(d[w + 2..])
  {
    if w + 1 == |d| {
      assert d[w..][1..] == [];
    } else if w + 1 < |d| {
      assert d[w..][2..] == d[w + 2..];
    }
  }

  // The numerical example of section 3 of RFC 1071: the sum of its eight octets is ddf2 as
  // they stand on the wire, and that is what the complement of a little-endian host holds.
  lemma Rfc1071Example()
    ensures var d := [0x00, 0x01, 0xf2, 0x03, 0xf4, 0xf5, 0xf6, 0xf7];
            OnesSum(d) == 0xdd + 0x100 * 0xf2 && Cksum(d) == 0x22 + 0x100 * 0x0d
  {
    hide OnesSum;
    var d := [0x00, 0x01, 0xf2, 0x03, 0xf4, 0xf5, 0xf6, 0xf7];
    OnesSumNone();
    OnesSumNext(d, 6);
    OnesSumNext(d, 4);
    OnesSumNext(d, 2);
    OnesSumNext(d, 0);
    assert d[0..] == d && d[8..] == [];
  }

  lemma OnesSumNone()
    ensures OnesSum([]) == 0
  {
  }

  lemma OnesSumNext(d: Data, k: nat)
    requires k + 2 <= |d|
    ensures OnesSum(d[k..]) == OnesAdd(d[k] as nat + 0x100 * d[k + 1] as nat, OnesSum(d[k + 2..]))
  {
    assert d[k..][2..] == d[k + 2..];
  }

  // ---- what the checksum is for ------------------------------------------------

  // Changing the word at an even offset changes the sum by the difference.
  lemma {:induction false} SumUpdate(d: Data, at: nat, low: Byte, high: Byte)
    requires at % 2 == 0 && at + 1 < |d|
    ensures var e := d[at := low][at + 1 := high];
            WordSum(e) + WordAt(d, at) == WordSum(d) + WordAt(e, at)
    decreases |d|
  {
    var e := d[at := low][at + 1 := high];
    if at == 0 {
      assert e[2..] == d[2..];
    } else {
      SumUpdate(d[2..], at - 2, low, high);
      assert e[2..] == d[2..][at - 2 := low][at - 1 := high];
    }
  }

  lemma CheckedSum(n: nat)
    ensures Residue(n + Complement(Residue(n))) == MODULUS
  {
    if n > 0 {
      var q, r := (n - 1) / MODULUS, (n - 1) % MODULUS;
      assert n + Complement(Residue(n)) - 1 == MODULUS * q + (MODULUS - 1);
      Remainder(n + Complement(Residue(n)) - 1, q, MODULUS - 1);
    }
  }

  // The checksum stored in a word that was zero makes the checksum zero.
  lemma RecheckIsZero(d: Data, at: nat)
    requires at % 2 == 0 && at + 1 < |d| && WordAt(d, at) == 0
    ensures var sum: int := Cksum(d);
            Cksum(d[at := sum % 256][at + 1 := sum / 256]) == 0
  {
    hide Residue, WordSum, OnesSum;
    var sum: int := Cksum(d);
    var e := d[at := sum % 256][at + 1 := sum / 256];
    SumUpdate(d, at, sum % 256, sum / 256);
    OnesSumIsResidue(d);
    OnesSumIsResidue(e);
    CheckedSum(WordSum(d));
  }

  lemma ResidueFull(n: nat)
    ensures Residue(n) == MODULUS <==> n > 0 && n % MODULUS == 0
  {
    if n > 0 {
      var q, r := n / MODULUS, n % MODULUS;
      if r == 0 {
        Remainder(n - 1, q - 1, MODULUS - 1);
      } else {
        Remainder(n - 1, q, r - 1);
      }
    }
  }

  lemma NextMultiple(n: nat, m: nat)
    requires n % MODULUS == 0 && n <= m <= n + MODULUS
    ensures m % MODULUS == 0 <==> m == n || m == n + MODULUS
  {
    var q := n / MODULUS;
    if m < n + MODULUS {
      Remainder(m, q, m - n);
    } else {
      Remainder(m, q + 1, 0);
    }
  }

  // A correct packet in which one word was altered is recognised as wrong, except when
  // the word went from one form of zero to the other; and that too is recognised if the
  // rest of the packet is zero.
  lemma OneWordError(d: Data, at: nat, low: Byte, high: Byte)
    requires at % 2 == 0 && at + 1 < |d| && Cksum(d) == 0
    ensures var e := d[at := low][at + 1 := high];
            var was: int := WordAt(d, at);
            var now: int := WordAt(e, at);
            Cksum(e) == 0 <==>
              was == now || (was == 0 && now == 0xffff) ||
              (was == 0xffff && now == 0 && WordSum(d) > 0xffff)
  {
    hide Residue, WordSum, OnesSum;
    var e := d[at := low][at + 1 := high];
    var n, m := WordSum(d), WordSum(e);
    SumUpdate(d, at, low, high);
    OnesSumIsResidue(d);
    OnesSumIsResidue(e);
    ResidueFull(n);
    ResidueFull(m);
    if n <= m {
      NextMultiple(n, m);
    } else if m % MODULUS == 0 {
      NextMultiple(m, n);
    }
  }

  // Lines 267-282 on the packet buffer: the checksum word, at offset 2 of the
  // ICMP header, is cleared, the checksum computed over cc octets and stored.
  method Seal(outpack: array<Byte>, cc: nat)
    requires 4 <= cc <= outpack.Length && cc <= 0x1_0000
    modifies outpack
    ensures Cksum(outpack[..cc]) == 0
    ensures forall k :: 0 <= k < outpack.Length && k != 2 && k != 3 ==> outpack[k] == old(outpack[k])
  {
    outpack[2], outpack[3] := 0, 0;
    ghost var cleared: Data := outpack[..cc];
    var sum: int := InCksum(outpack, cc);
    RecheckIsZero(cleared, 2);
    var low: Byte, high: Byte := sum % 256, sum / 256;
    outpack[2], outpack[3] := low, high;
    assert outpack[..cc] == cleared[2 := low][3 := high];
  }
}
