/** Machine words as bit sequences: bit i of a word has weight 2^i.  Every operation is
    defined bit by bit, so that shifts by a symbolic amount can be reasoned about by index. */
module Bits {
  type Word = seq<bool>

  function Pow2(n: nat): (p: nat)
    ensures p >= 1
  {
    if n == 0 then 1 else 2 * Pow2(n - 1)
  }

  function Zero(w: nat): Word {
    seq(w, i => false)
  }

  /** The word whose low n bits are set: (1 << n) - 1. */
  function Mask(w: nat, n: nat): Word {
    seq(w, i => i < n)
  }

  /** The word 1 << k. */
  function OneBit(w: nat, k: nat): Word {
    seq(w, i => i == k)
  }

  function Not(a: Word): Word {
    seq(|a|, i requires 0 <= i < |a| => !a[i])
  }

  function And(a: Word, b: Word): Word
    requires |a| == |b|
  {
    seq(|a|, i requires 0 <= i < |a| => a[i] && b[i])
  }

  function Or(a: Word, b: Word): Word
    requires |a| == |b|
  {
    seq(|a|, i requires 0 <= i < |a| => a[i] || b[i])
  }

  function Xor(a: Word, b: Word): Word
    requires |a| == |b|
  {
    seq(|a|, i requires 0 <= i < |a| => a[i] != b[i])
  }

  function Shl(a: Word, n: nat): Word {
    seq(|a|, i requires 0 <= i < |a| => i >= n && a[i - n])
  }

  function Shr(a: Word, n: nat): Word {
    seq(|a|, i requires 0 <= i < |a| => i + n < |a| && a[i + n])
  }

  /** Zero extension or truncation to w bits. */
  function Resize(a: Word, w: nat): Word {
    seq(w, i requires 0 <= i < w => i < |a| && a[i])
  }

  function Bit(b: bool): nat {
    if b then 1 else 0
  }

  /** The unsigned value of a word. */
  function Val(a: Word): (n: nat)
    ensures n < Pow2(|a|)
  {
    if a == [] then 0 else Bit(a[0]) + 2 * Val(a[1..])
  }

  /** The low w bits of n. */
  function FromNat(w: nat, n: nat): (a: Word)
    ensures |a| == w
  {
    if w == 0 then [] else [n % 2 == 1] + FromNat(w - 1, n / 2)
  }

  lemma {:induction false} ValFromNat(w: nat, n: nat)
    requires n < Pow2(w)
    ensures Val(FromNat(w, n)) == n
  {
    if w > 0 {
      ValFromNat(w - 1, n / 2);
      assert FromNat(w, n)[1..] == FromNat(w - 1, n / 2);
    }
  }

  lemma {:induction false} FromNatVal(a: Word)
    ensures FromNat(|a|, Val(a)) == a
  {
    if a != [] {
      FromNatVal(a[1..]);
    }
  }

  /** Distinct words of the same width have distinct values. */
  lemma ValInjective(a: Word, b: Word)
    requires |a| == |b| && Val(a) == Val(b)
    ensures a == b
  {
    FromNatVal(a);
    FromNatVal(b);
  }

  lemma {:induction false} ValZero(a: Word)
    ensures Val(a) == 0 <==> forall i :: 0 <= i < |a| ==> !a[i]
  {
    if a != [] {
      ValZero(a[1..]);
      if Val(a) == 0 {
        forall i | 0 <= i < |a| ensures !a[i] {
          if i > 0 { assert a[i] == a[1..][i - 1]; }
        }
      }
    }
  }

  /** The top bit says whether the value is in the upper half. */
  lemma {:induction false} TopBit(a: Word)
    requires |a| > 0
    ensures Val(a) == Val(a[..|a| - 1]) + (if a[|a| - 1] then Pow2(|a| - 1) else 0)
    ensures a[|a| - 1] <==> Val(a) >= Pow2(|a| - 1)
  {
    var k := |a| - 1;
    if k > 0 {
      TopBit(a[1..]);
      assert a[..k][1..] == a[1..][..k - 1];
    }
  }
}
