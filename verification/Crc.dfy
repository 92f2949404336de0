/** The 16-bit CRC of the CoreMark utilities, and its meaning as polynomial division. */
module Crc {
  import opened Bits

  /** One step of the shift register: what a single message bit does to it. */
  function StepBit(crc: Word, d: bool): (r: Word)
    requires |crc| == 16
    ensures |r| == 16
  {
    var x := d != crc[0];
    seq(16, j requires 0 <= j < 16 => (j < 15 && crc[j + 1]) != (x && (j == 0 || j == 13 || j == 15)))
  }

  /** The register after a whole message, first bit first. */
  function Feed(crc: Word, bits: seq<bool>): (r: Word)
    requires |crc| == 16
    ensures |r| == 16
  {
    if bits == [] then crc else StepBit(Feed(crc, bits[..|bits| - 1]), bits[|bits| - 1])
  }

  /** The word operations of one round of crcu8. */
  lemma RegisterStep(crc: Word, d: bool)
    requires |crc| == 16
    ensures |Xor(crc, Or(OneBit(16, 1), OneBit(16, 14)))| == |Or(OneBit(16, 1), OneBit(16, 14))| == 16
    ensures |OneBit(16, 1)| == |OneBit(16, 14)| == |OneBit(16, 15)| == |Mask(16, 15)| == 16
    ensures |Shr(crc, 1)| == |Shr(Xor(crc, Or(OneBit(16, 1), OneBit(16, 14))), 1)| == 16
    ensures d != crc[0] ==> Or(Shr(Xor(crc, Or(OneBit(16, 1), OneBit(16, 14))), 1), OneBit(16, 15)) == StepBit(crc, d)
    ensures d == crc[0] ==> And(Shr(crc, 1), Mask(16, 15)) == StepBit(crc, d)
  {
  }

  /** One more bit of the message. */
  lemma FeedOne(crc: Word, bits: seq<bool>, i: nat)
    requires |crc| == 16 && i < |bits|
    ensures Feed(crc, bits[..i + 1]) == StepBit(Feed(crc, bits[..i]), bits[i])
  {
    assert bits[..i + 1][..i] == bits[..i];
  }

  lemma NextBits(data: Word, data0: Word, i: nat)
    requires |data| == |data0| == 8 && i < 8 && forall k :: 0 <= k < 8 - i ==> data[k] == data0[i + k]
    ensures |Shr(data, 1)| == 8 && forall k :: 0 <= k < 7 - i ==> Shr(data, 1)[k] == data0[i + 1 + k]
  {
  }

  method Crcu8(data0: Word, crc0: Word) returns (crc: Word)
    requires |data0| == 8 && |crc0| == 16
    ensures crc == Feed(crc0, data0)
  {
    hide StepBit, Xor, Or, And, OneBit, Mask, Feed, Shr;
    var data := data0;
    crc := crc0;
    FeedNothing(crc0, data0);
    for i := 0 to 8
      invariant |crc| == 16 && crc == Feed(crc0, data0[..i])
      invariant |data| == 8 && forall k :: 0 <= k < 8 - i ==> data[k] == data0[i + k]
    {
      var x16 := data[0] != crc[0];
      NextBits(data, data0, i);
      data := Shr(data, 1);
      RegisterStep(crc, data0[i]);
      FeedOne(crc0, data0, i);
      if x16 {
        crc := Xor(crc, Or(OneBit(16, 1), OneBit(16, 14)));   // 0x4002
      }
      crc := Shr(crc, 1);
      if x16 {
        crc := Or(crc, OneBit(16, 15));                        // 0x8000
      } else {
        crc := And(crc, Mask(16, 15));                         // 0x7fff
      }
    }
    assert data0[..8] == data0;
  }

  lemma FeedNothing(crc: Word, bits: seq<bool>)
    requires |crc| == 16
    ensures Feed(crc, bits[..0]) == crc
  {
  }

  method Crcu16(newval: Word, crc0: Word) returns (crc: Word)
    requires |newval| == 16 && |crc0| == 16
    ensures crc == Feed(crc0, newval)
  {
    crc := Crcu8(Resize(newval, 8), crc0);
    crc := Crcu8(Resize(Shr(newval, 8), 8), crc);
    FeedAppend(crc0, Resize(newval, 8), Resize(Shr(newval, 8), 8));
    assert Resize(newval, 8) + Resize(Shr(newval, 8), 8) == newval;
  }

  method Crcu32(newval: Word, crc0: Word) returns (crc: Word)
    requires |newval| == 32 && |crc0| == 16
    ensures crc == Feed(crc0, newval)
  {
    crc := Crcu16(Resize(newval, 16), crc0);
    crc := Crcu16(Resize(Shr(newval, 16), 16), crc);
    FeedAppend(crc0, Resize(newval, 16), Resize(Shr(newval, 16), 16));
    assert Resize(newval, 16) + Resize(Shr(newval, 16), 16) == newval;
  }

  lemma {:induction false} FeedAppend(crc: Word, a: seq<bool>, b: seq<bool>)
    requires |crc| == 16
    ensures Feed(crc, a + b) == Feed(Feed(crc, a), b)
  {
    if b == [] {
      assert a + b == a;
    } else {
      var b' := b[..|b| - 1];
      FeedAppend(crc, a, b');
      assert (a + b)[..|a + b| - 1] == a + b';
    }
  }

  // ----- The register is a remainder modulo x^16 + x^15 + x^2 + 1 over GF(2)

  ghost function At(p: seq<bool>, i: int): bool {
    0 <= i < |p| && p[i]
  }

  /** Coefficient n, highest power first, of the dividend: the register times x^|bits| plus the
      message times x^16.  A reflected register holds its highest power in bit 0. */
  ghost function Dividend(crc: Word, bits: seq<bool>, n: nat): bool {
    At(crc, n) != At(bits, n)
  }

  /** Coefficient n, highest power first, of q times x^16 + x^15 + x^2 + 1. */
  ghost function TimesGenerator(q: seq<bool>, n: int): bool {
    ((At(q, n) != At(q, n - 1)) != At(q, n - 14)) != At(q, n - 16)
  }

  /** dividend == q * generator + r, coefficient by coefficient, with r of degree below 16. */
  ghost predicate Divides(crc: Word, bits: seq<bool>, q: seq<bool>, r: Word) {
    && |q| == |bits| && |r| == 16
    && forall n: nat :: n < |bits| + 16 ==>
         Dividend(crc, bits, n) == (TimesGenerator(q, n) != At(r, n - |bits|))
  }

  lemma {:induction false} FeedIsRemainder(crc: Word, bits: seq<bool>) returns (q: seq<bool>)
    requires |crc| == 16
    ensures Divides(crc, bits, q, Feed(crc, bits))
  {
    if bits == [] {
      q := [];
    } else {
      var L := |bits| - 1;
      var init := bits[..L];
      var q' := FeedIsRemainder(crc, init);
      var r' := Feed(crc, init);
      var x := bits[L] != r'[0];
      q := q' + [x];
      var r := Feed(crc, bits);
      assert r == StepBit(r', bits[L]);
      forall n: nat | n < |bits| + 16
        ensures Dividend(crc, bits, n) == (TimesGenerator(q, n) != At(r, n - |bits|))
      {
        DivisionStep(crc, bits, q', r', n);
      }
    }
  }

  lemma DivisionStep(crc: Word, bits: seq<bool>, q': seq<bool>, r': Word, n: nat)
    requires |crc| == 16 && |bits| > 0
    requires var L := |bits| - 1; |q'| == L && |r'| == 16
    requires var L := |bits| - 1;
      n < L + 16 ==> Dividend(crc, bits[..L], n) == (TimesGenerator(q', n) != At(r', n - L))
    requires n < |bits| + 16
    ensures var L := |bits| - 1;
      Dividend(crc, bits, n)
      == (TimesGenerator(q' + [bits[L] != r'[0]], n) != At(StepBit(r', bits[L]), n - |bits|))
  {
    var L := |bits| - 1;
    var x := bits[L] != r'[0];
    var q := q' + [x];
    assert forall i :: i != L ==> At(q, i) == At(q', i);
    assert At(q, L) == x && !At(q', L);
    assert At(bits, n) == (if n == L then bits[L] else At(bits[..L], n));
    var k := n - |bits|;
    if k >= 0 {
      assert At(StepBit(r', bits[L]), k) == (At(r', k + 1) != (x && (k == 0 || k == 13 || k == 15)));
    }
  }

  /** Quotient and remainder are unique, so Feed is the remainder. */
  lemma DivisionUnique(crc: Word, bits: seq<bool>, q1: seq<bool>, r1: Word, q2: seq<bool>, r2: Word)
    requires Divides(crc, bits, q1, r1) && Divides(crc, bits, q2, r2)
    ensures q1 == q2 && r1 == r2
  {
    forall n: nat | n < |bits| ensures q1[n] == q2[n] {
      QuotientUnique(crc, bits, q1, r1, q2, r2, n);
    }
    assert q1 == q2;
    forall k | 0 <= k < 16 ensures r1[k] == r2[k] {
      var n: nat := |bits| + k;
      assert Dividend(crc, bits, n) == (TimesGenerator(q1, n) != At(r1, n - |bits|));
      assert Dividend(crc, bits, n) == (TimesGenerator(q2, n) != At(r2, n - |bits|));
    }
  }

  lemma {:induction false} QuotientUnique(crc: Word, bits: seq<bool>, q1: seq<bool>, r1: Word, q2: seq<bool>, r2: Word,
          n: nat)
    requires Divides(crc, bits, q1, r1) && Divides(crc, bits, q2, r2)
    requires n < |bits|
    ensures q1[n] == q2[n]
  {
    if n >= 1 { QuotientUnique(crc, bits, q1, r1, q2, r2, n - 1); }
    if n >= 14 { QuotientUnique(crc, bits, q1, r1, q2, r2, n - 14); }
    if n >= 16 { QuotientUnique(crc, bits, q1, r1, q2, r2, n - 16); }
    assert Dividend(crc, bits, n) == (TimesGenerator(q1, n) != At(r1, n - |bits|));
    assert Dividend(crc, bits, n) == (TimesGenerator(q2, n) != At(r2, n - |bits|));
  }

  /** The main result: r is the register after the message exactly when r is the remainder. */
  lemma FeedExactlyRemainder(crc: Word, bits: seq<bool>, r: Word)
    requires |crc| == 16
    ensures r == Feed(crc, bits) <==> exists q :: Divides(crc, bits, q, r)
  {
    var q := FeedIsRemainder(crc, bits);
    forall q2 | Divides(crc, bits, q2, r) ensures r == Feed(crc, bits) {
      DivisionUnique(crc, bits, q, Feed(crc, bits), q2, r);
    }
  }

  lemma StepLinear(a: Word, d: bool, b: Word, e: bool)
    requires |a| == |b| == 16
    ensures StepBit(Xor(a, b), d != e) == Xor(StepBit(a, d), StepBit(b, e))
  {
  }

  /** The checksum is linear in message and register together. */
  lemma {:induction false} FeedLinear(c1: Word, m1: seq<bool>, c2: Word, m2: seq<bool>)
    requires |c1| == |c2| == 16 && |m1| == |m2|
    ensures Feed(Xor(c1, c2), Xor(m1, m2)) == Xor(Feed(c1, m1), Feed(c2, m2))
  {
    if m1 == [] {
      assert Xor(m1, m2) == [];
    } else {
      hide StepBit;
      var L := |m1| - 1;
      FeedLinear(c1, m1[..L], c2, m2[..L]);
      assert Xor(m1, m2)[..L] == Xor(m1[..L], m2[..L]);
      StepLinear(Feed(c1, m1[..L]), m1[L], Feed(c2, m2[..L]), m2[L]);
    }
  }
}
