// Shared vocabulary: bytes, options, sequences, and the C operator | on numbers.
module Bytes {
  type Byte = b: int | 0 <= b < 256

  type Data = seq<Byte>

  datatype Option<+T> = None | Some(value: T)

  function Min(a: nat, b: nat): nat {
    if a < b then a else b
  }

  function Zeros(n: nat): (z: Data)
    ensures |z| == n
  {
    seq(n, _ => 0)
  }

  function Concat<T>(parts: seq<seq<T>>): seq<T> {
    if parts == [] then [] else parts[0] + Concat(parts[1..])
  }

  lemma {:induction false} ConcatAppend<T>(parts: seq<seq<T>>, last: seq<T>)
    ensures Concat(parts + [last]) == Concat(parts) + last
  {
    if parts == [] {
      assert [last][1..] == [];
    } else {
      assert (parts + [last])[1..] == parts[1..] + [last];
      ConcatAppend(parts[1..], last);
    }
  }

  predicate NoDuplicates<T(==)>(xs: seq<T>) {
    forall i, j :: 0 <= i < j < |xs| ==> xs[i] != xs[j]
  }

  // The C operator | on two non-negative numbers.
  function Or(a: nat, b: nat): nat {
    if a == 0 && b == 0 then 0
    else 2 * Or(a / 2, b / 2) + (if a % 2 == 1 || b % 2 == 1 then 1 else 0)
  }

  function Power(k: nat): (p: nat)
    ensures p > 0
  {
    if k == 0 then 1 else 2 * Power(k - 1)
  }

  lemma {:induction false} OrZero(a: nat)
    ensures Or(a, 0) == a
  {
    if a > 0 {
      OrZero(a / 2);
    }
  }

  // Operands without a common bit: a shifted by k places, and b below that.
  lemma {:induction false} OrIsSum(a: nat, b: nat, k: nat)
    requires b < Power(k)
    ensures Or(a * Power(k), b) == a * Power(k) + b
  {
    if k == 0 {
      OrZero(a);
    } else {
      var half := a * Power(k - 1);
      assert a * Power(k) == 2 * half;
      OrIsSum(a, b / 2, k - 1);
    }
  }
}
